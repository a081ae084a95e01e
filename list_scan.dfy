/**
 * What the recursive listings of lib/list.js do with the items they
 * visit. Each visited item is read once: a readable directory contributes
 * its result set, an unreadable item is recorded in `fails`, except that
 * a failing read of `self.path` itself ends the listing (with
 * `otherwise_paths` when that is defined, with the read error otherwise).
 * The order of the visits does not depend on that early end, which only
 * cuts the visit sequence short; `ScanFrom` folds over the visit
 * sequence and stops there.
 */
module ListScan {
  import opened Js
  import opened FsTree
  import opened NodePath
  import opened ListSteps
  import opened ListOrders
  import opened Seqs

  /** The state reached after the visits: all done, or stopped by a failing read of the root path. */
  datatype Scan =
    | Completed(groups: seq<seq<Path>>, fails: seq<Path>)
    | Aborted(fails: seq<Path>, error: IoError)

  /** What a recursive listing delivers: `self.paths` and `self.fails`, or the error `done` is called with. */
  datatype Listing = Listed(paths: seq<Path>, fails: seq<Path>) | Failed(error: IoError)

  /** A read of `x` that ends the listing: it fails and `x` is `self.path`. */
  predicate Aborts(rootPath: Path, x: Item)
  {
    !x.node.Dir? && x.path == rootPath
  }

  predicate NoAbort(rootPath: Path, visits: seq<Item>)
  {
    forall x :: x in visits ==> !Aborts(rootPath, x)
  }

  /** The visits `visits`, taken in order, starting with result groups `groups` and failures `fails`. */
  function ScanFrom(rootPath: Path, group: Item -> seq<Path>, groups: seq<seq<Path>>, fails: seq<Path>,
                    visits: seq<Item>): Scan
    decreases |visits|
  {
    if visits == [] then Completed(groups, fails)
    else
      var x := visits[0];
      match ReadDir(x.node)
      case Ok(_) => ScanFrom(rootPath, group, groups + [group(x)], fails, visits[1..])
      case Err(e) =>
        if x.path == rootPath then Aborted(fails, e)
        else ScanFrom(rootPath, group, groups, fails + [x.path], visits[1..])
  }

  /** A failing read of the root path: `otherwise_paths` replaces `self.paths` when it is defined. */
  function OnAbort(req: ListRequest, fails: seq<Path>, e: IoError): Listing
  {
    if req.otherwise_paths.Some? then Listed(req.otherwise_paths.value, fails) else Failed(e)
  }

  /** The items `breadth_first` (also exported as `list.recursive`) reads, in order: the FIFO work-list from `self.path`. */
  function BreadthFirstVisits(req: ListRequest, api: PathApi, root: Node): seq<Item>
  {
    KidsOfShrinks(req, api);
    QOrder(KidsOf(req, api), [RootItem(req, root)])
  }

  function BreadthFirstScan(req: ListRequest, api: PathApi, root: Node): Scan
  {
    ScanFrom(req.path, GroupOf(req, api), [], [], BreadthFirstVisits(req, api, root))
  }

  /** `breadth_first`: result groups are appended to `self.paths` as they are produced. */
  function BreadthFirstSpec(req: ListRequest, api: PathApi, root: Node): Listing
  {
    match BreadthFirstScan(req, api, root)
    case Completed(groups, fails) => Listed(Flatten(groups), fails)
    case Aborted(fails, e) => OnAbort(req, fails, e)
  }

  /** The items `depth_first` reads, in order: the LIFO work-list from `self.path`. */
  function DepthFirstVisits(req: ListRequest, api: PathApi, root: Node): seq<Item>
  {
    KidsOfShrinks(req, api);
    SOrder(KidsOf(req, api), [RootItem(req, root)])
  }

  function DepthFirstScan(req: ListRequest, api: PathApi, root: Node): Scan
  {
    ScanFrom(req.path, GroupOf(req, api), [], [], DepthFirstVisits(req, api, root))
  }

  /** `depth_first`: result groups are unshifted onto `result`, which is flattened at the end. */
  function DepthFirstSpec(req: ListRequest, api: PathApi, root: Node): Listing
  {
    match DepthFirstScan(req, api, root)
    case Completed(groups, fails) => Listed(Flatten(Reverse(groups)), fails)
    case Aborted(fails, e) => OnAbort(req, fails, e)
  }

  // ---------------------------------------------------------------------
  // The scan, characterised.

  lemma ScanFromStep(rootPath: Path, group: Item -> seq<Path>, groups: seq<seq<Path>>, fails: seq<Path>,
                     x: Item, rest: seq<Item>)
    ensures ScanFrom(rootPath, group, groups, fails, [x] + rest) ==
      if x.node.Dir? then ScanFrom(rootPath, group, groups + [group(x)], fails, rest)
      else if x.path == rootPath then Aborted(fails, ReadDir(x.node).error)
      else ScanFrom(rootPath, group, groups, fails + [x.path], rest)
  {
    assert ([x] + rest)[0] == x && ([x] + rest)[1..] == rest;
  }

  /** Without a failing read of the root path the scan completes with every group and every failure, in visit order. */
  lemma {:induction false} ScanCompletes(rootPath: Path, group: Item -> seq<Path>, groups: seq<seq<Path>>,
                                         fails: seq<Path>, visits: seq<Item>)
    requires NoAbort(rootPath, visits)
    ensures ScanFrom(rootPath, group, groups, fails, visits)
         == Completed(groups + GroupsOf(group, visits), fails + FailsOf(visits))
    decreases |visits|
  {
    if visits != [] {
      var x, rest := visits[0], visits[1..];
      assert visits == [x] + rest;
      ScanFromStep(rootPath, group, groups, fails, x, rest);
      assert NoAbort(rootPath, rest) by {
        forall y | y in rest ensures !Aborts(rootPath, y) { assert y in visits; }
      }
      assert x in visits;
      GroupsOfStep(group, x, rest);
      FailsOfStep(x, rest);
      if x.node.Dir? {
        ScanCompletes(rootPath, group, groups + [group(x)], fails, rest);
        AppendAssoc(groups, [group(x)], GroupsOf(group, rest));
        assert FailsOf(visits) == FailsOf(rest);
      } else {
        ScanCompletes(rootPath, group, groups, fails + [x.path], rest);
        AppendAssoc(fails, [x.path], FailsOf(rest));
        assert GroupsOf(group, visits) == GroupsOf(group, rest);
      }
    }
  }

  /**
   * The scan stops at the first visit `visits[i]` that is a failing read
   * of the root path, with the failures recorded before it and that
   * read's error.
   */
  lemma {:induction false} ScanAborts(rootPath: Path, group: Item -> seq<Path>, groups: seq<seq<Path>>,
                                      fails: seq<Path>, visits: seq<Item>, i: nat)
    requires i < |visits| && Aborts(rootPath, visits[i]) && NoAbort(rootPath, visits[..i])
    ensures ScanFrom(rootPath, group, groups, fails, visits)
         == Aborted(fails + FailsOf(visits[..i]), ReadDir(visits[i].node).error)
    decreases i
  {
    var x, rest := visits[0], visits[1..];
    assert visits == [x] + rest;
    ScanFromStep(rootPath, group, groups, fails, x, rest);
    if i == 0 {
      assert visits[..0] == [];
    } else {
      assert x in visits[..i];
      assert rest[..i - 1] == visits[1..i];
      assert NoAbort(rootPath, rest[..i - 1]) by {
        forall y | y in rest[..i - 1] ensures !Aborts(rootPath, y) { assert y in visits[..i]; }
      }
      assert visits[..i] == [x] + rest[..i - 1];
      FailsOfStep(x, rest[..i - 1]);
      if x.node.Dir? {
        ScanAborts(rootPath, group, groups + [group(x)], fails, rest, i - 1);
        assert FailsOf(visits[..i]) == FailsOf(rest[..i - 1]);
      } else {
        ScanAborts(rootPath, group, groups, fails + [x.path], rest, i - 1);
        AppendAssoc(fails, [x.path], FailsOf(rest[..i - 1]));
      }
    }
  }

  lemma {:induction false} FirstAbort(rootPath: Path, visits: seq<Item>) returns (i: nat)
    requires !NoAbort(rootPath, visits)
    ensures i < |visits| && Aborts(rootPath, visits[i]) && NoAbort(rootPath, visits[..i])
    decreases |visits|
  {
    if Aborts(rootPath, visits[0]) {
      i := 0;
      assert visits[..0] == [];
    } else {
      assert !NoAbort(rootPath, visits[1..]) by {
        var y :| y in visits && Aborts(rootPath, y);
        assert y != visits[0];
        assert visits == [visits[0]] + visits[1..];
      }
      var j := FirstAbort(rootPath, visits[1..]);
      i := j + 1;
      assert visits[..i] == [visits[0]] + visits[1..][..j];
    }
  }

  /** The scan completes exactly when no visit is a failing read of the root path. */
  lemma ScanCompletedIff(rootPath: Path, group: Item -> seq<Path>, visits: seq<Item>)
    ensures ScanFrom(rootPath, group, [], [], visits).Completed? <==> NoAbort(rootPath, visits)
  {
    if NoAbort(rootPath, visits) {
      ScanCompletes(rootPath, group, [], [], visits);
    } else {
      var i := FirstAbort(rootPath, visits);
      ScanAborts(rootPath, group, [], [], visits, i);
    }
  }

  /** Whether the scan completes, the failures it records and the error it stops with do not depend on the result step. */
  lemma {:induction false} ScanIgnoresGroups(rootPath: Path, g1: Item -> seq<Path>, g2: Item -> seq<Path>,
                                             groups1: seq<seq<Path>>, groups2: seq<seq<Path>>,
                                             fails: seq<Path>, visits: seq<Item>)
    ensures var s1, s2 := ScanFrom(rootPath, g1, groups1, fails, visits), ScanFrom(rootPath, g2, groups2, fails, visits);
      s1.Completed? == s2.Completed? && s1.fails == s2.fails && (s1.Aborted? ==> s1.error == s2.error)
    decreases |visits|
  {
    if visits != [] {
      var x := visits[0];
      ScanIgnoresGroups(rootPath, g1, g2, groups1 + [g1(x)], groups2 + [g2(x)], fails, visits[1..]);
      ScanIgnoresGroups(rootPath, g1, g2, groups1, groups2, fails + [x.path], visits[1..]);
    }
  }

  /** A scan with result steps that agree on listable items gives the same outcome. */
  lemma {:induction false} ScanCongruent(rootPath: Path, g1: Item -> seq<Path>, g2: Item -> seq<Path>,
                                         groups: seq<seq<Path>>, fails: seq<Path>, visits: seq<Item>)
    requires forall x: Item :: x.node.Dir? ==> g1(x) == g2(x)
    ensures ScanFrom(rootPath, g1, groups, fails, visits) == ScanFrom(rootPath, g2, groups, fails, visits)
    decreases |visits|
  {
    if visits != [] {
      var x := visits[0];
      if x.node.Dir? {
        ScanCongruent(rootPath, g1, g2, groups + [g1(x)], fails, visits[1..]);
      } else {
        ScanCongruent(rootPath, g1, g2, groups, fails + [x.path], visits[1..]);
      }
    }
  }
}
