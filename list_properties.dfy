/**
 * What lib/list.js's three listings promise, stated on the specification
 * functions of ListScan (which the methods of ListTraversal are proved to
 * meet): how a failing read of `self.path` ends them, the order of the
 * breadth-first and the depth-first listing, that the two report the
 * same paths and failures up to order, that the filters only choose what
 * is reported and the pruners only what is descended into, and that
 * `list` is the first result group of the one and the last of the other.
 */
module ListProperties {
  import opened Js
  import opened FsTree
  import opened NodePath
  import opened ListSteps
  import opened ListOrders
  import opened ListScan
  import opened Seqs

  // ---------------------------------------------------------------------
  // A root that cannot be read.

  lemma RootVisitsAlone(req: ListRequest, api: PathApi, root: Node)
    requires !root.Dir?
    ensures BreadthFirstVisits(req, api, root) == [RootItem(req, root)]
    ensures DepthFirstVisits(req, api, root) == [RootItem(req, root)]
  {
    KidsOfShrinks(req, api);
    var kids, x := KidsOf(req, api), RootItem(req, root);
    ReadStep(req, api, x);
    QOrderStep(kids, x, []);
    SOrderOne(kids, x);
    assert [] + kids(x) == [] && Reverse(kids(x)) == [];
    assert [x] + [] == [x];
  }

  /**
   * When `self.path` cannot be read, both recursive listings end at once:
   * with `otherwise_paths` and no failures when it is defined, with the
   * read error otherwise.
   */
  lemma RootUnreadable(req: ListRequest, api: PathApi, root: Node)
    requires !root.Dir?
    ensures BreadthFirstSpec(req, api, root) == OnAbort(req, [], ReadDir(root).error)
    ensures DepthFirstSpec(req, api, root) == OnAbort(req, [], ReadDir(root).error)
    ensures req.otherwise_paths.None? ==> BreadthFirstSpec(req, api, root) == Failed(ReadDir(root).error)
    ensures req.otherwise_paths.Some? ==> BreadthFirstSpec(req, api, root) == Listed(req.otherwise_paths.value, [])
  {
    RootVisitsAlone(req, api, root);
    var x := RootItem(req, root);
    ScanFromStep(req.path, GroupOf(req, api), [], [], x, []);
    assert [x] + [] == [x];
  }

  // ---------------------------------------------------------------------
  // The order of the recursive listings.

  /** `breadth_first` reads the tree level by level, each level in descend-set (sorter) order. */
  lemma BreadthFirstIsLevelOrder(req: ListRequest, api: PathApi, root: Node)
    ensures Shrinks(KidsOf(req, api))
    ensures BreadthFirstVisits(req, api, root) == LevelOrder(KidsOf(req, api), [RootItem(req, root)])
  {
    KidsOfShrinks(req, api);
    BreadthFirstVisitsLevels(KidsOf(req, api), RootItem(req, root));
  }

  /** When no read of `self.path` fails, `breadth_first` lists every result group and every failure in visit order. */
  lemma BreadthFirstListed(req: ListRequest, api: PathApi, root: Node)
    requires NoAbort(req.path, BreadthFirstVisits(req, api, root))
    ensures Shrinks(KidsOf(req, api))
    ensures BreadthFirstSpec(req, api, root)
         == Listed(QPaths(KidsOf(req, api), GroupOf(req, api), RootItem(req, root)),
                   FailsOf(BreadthFirstVisits(req, api, root)))
  {
    KidsOfShrinks(req, api);
    var v := BreadthFirstVisits(req, api, root);
    ScanCompletes(req.path, GroupOf(req, api), [], [], v);
    assert [] + GroupsOf(GroupOf(req, api), v) == GroupsOf(GroupOf(req, api), v);
    assert [] + FailsOf(v) == FailsOf(v);
  }

  /** When no read of `self.path` fails, `depth_first` lists the result groups back to front and every failure in visit order. */
  lemma DepthFirstListed(req: ListRequest, api: PathApi, root: Node)
    requires NoAbort(req.path, DepthFirstVisits(req, api, root))
    ensures Shrinks(KidsOf(req, api))
    ensures DepthFirstSpec(req, api, root)
         == Listed(SPaths(KidsOf(req, api), GroupOf(req, api), RootItem(req, root)),
                   FailsOf(DepthFirstVisits(req, api, root)))
  {
    KidsOfShrinks(req, api);
    var w := DepthFirstVisits(req, api, root);
    ScanCompletes(req.path, GroupOf(req, api), [], [], w);
    assert [] + GroupsOf(GroupOf(req, api), w) == GroupsOf(GroupOf(req, api), w);
    assert [] + FailsOf(w) == FailsOf(w);
  }

  /**
   * `breadth_first` completes exactly when no read of `self.path` fails,
   * and then lists every result group and every failure in visit order.
   */
  lemma BreadthFirstCompletes(req: ListRequest, api: PathApi, root: Node)
    ensures BreadthFirstScan(req, api, root).Completed? <==> NoAbort(req.path, BreadthFirstVisits(req, api, root))
    ensures var v := BreadthFirstVisits(req, api, root);
      NoAbort(req.path, v) ==>
        BreadthFirstSpec(req, api, root) == Listed(Flatten(GroupsOf(GroupOf(req, api), v)), FailsOf(v))
  {
    ScanCompletedIff(req.path, GroupOf(req, api), BreadthFirstVisits(req, api, root));
    if NoAbort(req.path, BreadthFirstVisits(req, api, root)) {
      BreadthFirstListed(req, api, root);
    }
  }

  /** `breadth_first` stopped by its first failing read of `self.path`, at visit `i`. */
  lemma BreadthFirstAborts(req: ListRequest, api: PathApi, root: Node, i: nat)
    requires var v := BreadthFirstVisits(req, api, root);
      i < |v| && Aborts(req.path, v[i]) && NoAbort(req.path, v[..i])
    ensures var v := BreadthFirstVisits(req, api, root);
      BreadthFirstSpec(req, api, root) == OnAbort(req, [] + FailsOf(v[..i]), ReadDir(v[i].node).error)
  {
    ScanAborts(req.path, GroupOf(req, api), [], [], BreadthFirstVisits(req, api, root), i);
  }

  /**
   * `depth_first` completes exactly when no read of `self.path` fails,
   * and then lists the result groups in post-order: the groups below each
   * directory, in descend-set (sorter) order, before the directory's own
   * group.
   */
  lemma DepthFirstIsPostOrder(req: ListRequest, api: PathApi, root: Node)
    ensures Shrinks(KidsOf(req, api))
    ensures DepthFirstScan(req, api, root).Completed? <==> NoAbort(req.path, DepthFirstVisits(req, api, root))
    ensures var v := DepthFirstVisits(req, api, root);
      NoAbort(req.path, v) ==>
        DepthFirstSpec(req, api, root)
        == Listed(Flatten(PostGroups(KidsOf(req, api), GroupOf(req, api), RootItem(req, root))), FailsOf(v))
  {
    KidsOfShrinks(req, api);
    ScanCompletedIff(req.path, GroupOf(req, api), DepthFirstVisits(req, api, root));
    if NoAbort(req.path, DepthFirstVisits(req, api, root)) {
      DepthFirstListed(req, api, root);
      ListOrders.DepthFirstIsPostOrder(KidsOf(req, api), GroupOf(req, api), RootItem(req, root));
    }
  }

  /** `depth_first` stopped by its first failing read of `self.path`, at visit `i`. */
  lemma DepthFirstAborts(req: ListRequest, api: PathApi, root: Node, i: nat)
    requires var v := DepthFirstVisits(req, api, root);
      i < |v| && Aborts(req.path, v[i]) && NoAbort(req.path, v[..i])
    ensures var v := DepthFirstVisits(req, api, root);
      DepthFirstSpec(req, api, root) == OnAbort(req, [] + FailsOf(v[..i]), ReadDir(v[i].node).error)
  {
    ScanAborts(req.path, GroupOf(req, api), [], [], DepthFirstVisits(req, api, root), i);
  }

  // ---------------------------------------------------------------------
  // Breadth first and depth first agree up to order.

  lemma SameItemsVisited(req: ListRequest, api: PathApi, root: Node)
    ensures multiset(BreadthFirstVisits(req, api, root)) == multiset(DepthFirstVisits(req, api, root))
  {
    KidsOfShrinks(req, api);
    SameVisits(KidsOf(req, api), [RootItem(req, root)]);
  }

  lemma NoAbortSameItems(rootPath: Path, v: seq<Item>, w: seq<Item>)
    requires multiset(v) == multiset(w)
    ensures NoAbort(rootPath, v) <==> NoAbort(rootPath, w)
  {
    forall x
      ensures x in v <==> x in w
    {
      assert x in v <==> x in multiset(v);
      assert x in w <==> x in multiset(w);
    }
  }

  /** The two recursive listings end the same way: both complete or both stop, both fail or neither does. */
  lemma SameOutcome(req: ListRequest, api: PathApi, root: Node)
    ensures BreadthFirstScan(req, api, root).Completed? <==> DepthFirstScan(req, api, root).Completed?
    ensures BreadthFirstSpec(req, api, root).Failed? <==> DepthFirstSpec(req, api, root).Failed?
  {
    var v, w := BreadthFirstVisits(req, api, root), DepthFirstVisits(req, api, root);
    SameItemsVisited(req, api, root);
    NoAbortSameItems(req.path, v, w);
    ScanCompletedIff(req.path, GroupOf(req, api), v);
    ScanCompletedIff(req.path, GroupOf(req, api), w);
  }

  /**
   * When no read of `self.path` fails, the two recursive listings report
   * the same paths and the same failures, each as often, only in another
   * order.
   */
  lemma SameListing(req: ListRequest, api: PathApi, root: Node)
    requires NoAbort(req.path, BreadthFirstVisits(req, api, root))
    ensures BreadthFirstSpec(req, api, root).Listed? && DepthFirstSpec(req, api, root).Listed?
    ensures multiset(BreadthFirstSpec(req, api, root).paths) == multiset(DepthFirstSpec(req, api, root).paths)
    ensures multiset(BreadthFirstSpec(req, api, root).fails) == multiset(DepthFirstSpec(req, api, root).fails)
  {
    SameItemsVisited(req, api, root);
    NoAbortSameItems(req.path, BreadthFirstVisits(req, api, root), DepthFirstVisits(req, api, root));
    BreadthFirstListed(req, api, root);
    DepthFirstListed(req, api, root);
    SameReports(KidsOf(req, api), GroupOf(req, api), RootItem(req, root));
  }

  // ---------------------------------------------------------------------
  // Filters choose what is reported, pruners what is descended into.

  /** Changing `filter` and `filter_path` changes neither what is read nor what fails. */
  lemma FiltersDoNotSteer(req: ListRequest, api: PathApi, root: Node,
                          filter: Option<Name -> bool>, filter_path: Option<Path -> bool>)
    ensures var req' := req.(filter := filter, filter_path := filter_path);
      && BreadthFirstVisits(req', api, root) == BreadthFirstVisits(req, api, root)
      && DepthFirstVisits(req', api, root) == DepthFirstVisits(req, api, root)
      && BreadthFirstScan(req', api, root).Completed? == BreadthFirstScan(req, api, root).Completed?
      && BreadthFirstScan(req', api, root).fails == BreadthFirstScan(req, api, root).fails
      && DepthFirstScan(req', api, root).Completed? == DepthFirstScan(req, api, root).Completed?
      && DepthFirstScan(req', api, root).fails == DepthFirstScan(req, api, root).fails
  {
    var req' := req.(filter := filter, filter_path := filter_path);
    KidsOfShrinks(req, api);
    KidsOfShrinks(req', api);
    forall x
      ensures KidsOf(req', api)(x) == KidsOf(req, api)(x)
    {
      if x.node.Dir? {
        DescendIgnoresFilters(req, api, x.path, SortEntries(req, x.node.entries), filter, filter_path);
      }
    }
    assert RootItem(req', root) == RootItem(req, root);
    QOrderCongruent(KidsOf(req', api), KidsOf(req, api), [RootItem(req, root)]);
    SOrderCongruent(KidsOf(req', api), KidsOf(req, api), [RootItem(req, root)]);
    ScanIgnoresGroups(req.path, GroupOf(req', api), GroupOf(req, api), [], [], [], BreadthFirstVisits(req, api, root));
    ScanIgnoresGroups(req.path, GroupOf(req', api), GroupOf(req, api), [], [], [], DepthFirstVisits(req, api, root));
  }

  /** Changing `parer` and `parer_path` changes no directory's result set, and so not `list`. */
  lemma PrunersDoNotReport(req: ListRequest, api: PathApi, root: Node,
                           parer: Option<Name -> bool>, parer_path: Option<Path -> bool>)
    ensures var req' := req.(parer := parer, parer_path := parer_path);
      && (forall x :: GroupOf(req', api)(x) == GroupOf(req, api)(x))
      && List(req', api, root) == List(req, api, root)
  {
    var req' := req.(parer := parer, parer_path := parer_path);
    forall x
      ensures GroupOf(req', api)(x) == GroupOf(req, api)(x)
    {
      if x.node.Dir? {
        MatchesIgnorePruners(req, api, x.path, SortEntries(req, x.node.entries), parer, parer_path);
      }
    }
    if root.Dir? {
      MatchesIgnorePruners(req, api, req.path, SortEntries(req, root.entries), parer, parer_path);
    }
  }

  /** Pruners that never match leave both listings as they are without pruners. */
  lemma NeverMatchingPruners(req: ListRequest, api: PathApi, root: Node,
                             parer: Name -> bool, parer_path: Path -> bool)
    requires (forall n :: !parer(n)) && (forall p :: !parer_path(p))
    ensures var pruned, plain := req.(parer := Some(parer), parer_path := Some(parer_path)),
                                 req.(parer := None, parer_path := None);
      && BreadthFirstVisits(pruned, api, root) == BreadthFirstVisits(plain, api, root)
      && DepthFirstVisits(pruned, api, root) == DepthFirstVisits(plain, api, root)
      && BreadthFirstSpec(pruned, api, root) == BreadthFirstSpec(plain, api, root)
      && DepthFirstSpec(pruned, api, root) == DepthFirstSpec(plain, api, root)
  {
    var pruned, plain := req.(parer := Some(parer), parer_path := Some(parer_path)),
                         req.(parer := None, parer_path := None);
    KidsOfShrinks(pruned, api);
    KidsOfShrinks(plain, api);
    forall x
      ensures KidsOf(pruned, api)(x) == KidsOf(plain, api)(x)
    {
      if x.node.Dir? {
        DescendNeverPared(req, api, x.path, SortEntries(req, x.node.entries), parer, parer_path);
      }
    }
    assert RootItem(pruned, root) == RootItem(plain, root);
    QOrderCongruent(KidsOf(pruned, api), KidsOf(plain, api), [RootItem(plain, root)]);
    SOrderCongruent(KidsOf(pruned, api), KidsOf(plain, api), [RootItem(plain, root)]);
    PrunersDoNotReport(plain, api, root, Some(parer), Some(parer_path));
    assert plain.(parer := Some(parer), parer_path := Some(parer_path)) == pruned;
    ScanCongruent(req.path, GroupOf(pruned, api), GroupOf(plain, api), [], [], BreadthFirstVisits(plain, api, root));
    ScanCongruent(req.path, GroupOf(pruned, api), GroupOf(plain, api), [], [], DepthFirstVisits(plain, api, root));
  }

  /** Without pruners every entry of every directory read is read as well, by both listings. */
  lemma NoPrunersReachEverything(req: ListRequest, api: PathApi, root: Node, x: Item, e: Entry)
    requires req.parer.None? && req.parer_path.None?
    requires x in BreadthFirstVisits(req, api, root) && x.node.Dir? && e in x.node.entries
    ensures Item(JoinTwo(api, x.path, e.name), e.node) in BreadthFirstVisits(req, api, root)
    ensures Item(JoinTwo(api, x.path, e.name), e.node) in DepthFirstVisits(req, api, root)
  {
    KidsOfShrinks(req, api);
    var k := Item(JoinTwo(api, x.path, e.name), e.node);
    SortedMember(req, x.node.entries, e);
    DescendMember(req, api, x.path, SortEntries(req, x.node.entries), k);
    ReadStep(req, api, x);
    DescendSetVisited(KidsOf(req, api), RootItem(req, root), x, k);
  }

  // ---------------------------------------------------------------------
  // Where reads end up.

  /**
   * When no read of `self.path` fails, every path of the result set of
   * every directory read is reported (also when that directory's own
   * entries were pruned from descent), and every path that could not be
   * read is in `fails`, by both listings.
   */
  lemma ReadsEndUpListed(req: ListRequest, api: PathApi, root: Node, x: Item)
    requires NoAbort(req.path, BreadthFirstVisits(req, api, root)) && x in BreadthFirstVisits(req, api, root)
    ensures BreadthFirstSpec(req, api, root).Listed? && DepthFirstSpec(req, api, root).Listed?
    ensures x.node.Dir? ==> forall p :: p in Group(req, api, x) ==>
      p in BreadthFirstSpec(req, api, root).paths && p in DepthFirstSpec(req, api, root).paths
    ensures !x.node.Dir? ==>
      x.path in BreadthFirstSpec(req, api, root).fails && x.path in DepthFirstSpec(req, api, root).fails
  {
    SameItemsVisited(req, api, root);
    NoAbortSameItems(req.path, BreadthFirstVisits(req, api, root), DepthFirstVisits(req, api, root));
    BreadthFirstListed(req, api, root);
    DepthFirstListed(req, api, root);
    var kids, group, r := KidsOf(req, api), GroupOf(req, api), RootItem(req, root);
    if x.node.Dir? {
      forall p | p in Group(req, api, x)
        ensures p in QPaths(kids, group, r) && p in SPaths(kids, group, r)
      {
        VisitedReported(kids, group, r, x, p);
      }
    } else {
      VisitedFailed(kids, r, x);
    }
  }

  /**
   * An entry of a directory read that passes both filters is reported,
   * whether or not the pruners keep the listing from descending into it.
   */
  lemma PrunedEntryStillReported(req: ListRequest, api: PathApi, root: Node, x: Item, e: Entry)
    requires NoAbort(req.path, BreadthFirstVisits(req, api, root)) && x in BreadthFirstVisits(req, api, root)
    requires x.node.Dir? && e in x.node.entries
    requires Passes(req.filter, e.name) && Passes(req.filter_path, JoinTwo(api, x.path, e.name))
    ensures BreadthFirstSpec(req, api, root).Listed? && DepthFirstSpec(req, api, root).Listed?
    ensures JoinTwo(api, x.path, e.name) in BreadthFirstSpec(req, api, root).paths
    ensures JoinTwo(api, x.path, e.name) in DepthFirstSpec(req, api, root).paths
  {
    SortedMember(req, x.node.entries, e);
    MatchesMember(req, api, x.path, SortEntries(req, x.node.entries), JoinTwo(api, x.path, e.name));
    ReadsEndUpListed(req, api, root, x);
  }

  // ---------------------------------------------------------------------
  // `list` and the recursive listings.

  /** `list` is the first group the breadth-first listing reports and the last the depth-first listing reports. */
  lemma ListStartsAndEnds(req: ListRequest, api: PathApi, root: Node)
    requires root.Dir? && NoAbort(req.path, BreadthFirstVisits(req, api, root))
    ensures List(req, api, root).Ok? && BreadthFirstSpec(req, api, root).Listed? && DepthFirstSpec(req, api, root).Listed?
    ensures var l, p := List(req, api, root).value, BreadthFirstSpec(req, api, root).paths;
      |l| <= |p| && p[..|l|] == l
    ensures var l, p := List(req, api, root).value, DepthFirstSpec(req, api, root).paths;
      |l| <= |p| && p[|p| - |l|..] == l
  {
    SameItemsVisited(req, api, root);
    NoAbortSameItems(req.path, BreadthFirstVisits(req, api, root), DepthFirstVisits(req, api, root));
    BreadthFirstListed(req, api, root);
    DepthFirstListed(req, api, root);
    var kids, group, r := KidsOf(req, api), GroupOf(req, api), RootItem(req, root);
    ReadStep(req, api, r);
    QPathsStart(kids, group, r);
    SPathsEnd(kids, group, r);
  }
}
