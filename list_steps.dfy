/**
 * The per-directory steps that lib/list.js's three listings share: the
 * request record they read, the sorting of a directory's names, the
 * result set (`filter`, join, `filter_path`) and the descend set
 * (`parer`, join, `parer_path`). Also `list`, the single-level listing.
 *
 * Each of the source's `names.filter(..).map(..).filter(..)` chains is
 * fused into one pass over the entries, and each filter sees only its
 * value; with one-argument predicates the outcome is the same. Names are sorted together with the tree node they
 * name, so the sort is applied to entries compared by name.
 */
module ListSteps {
  import opened Js
  import opened FsTree
  import opened NodePath
  import opened Sorters
  import Seqs

  /** The fields of `self` that the listings read, under the names lib/list.js uses. */
  datatype ListRequest = ListRequest(
    path: Path,
    filter: Option<Name -> bool>,
    filter_path: Option<Path -> bool>,
    parer: Option<Name -> bool>,
    parer_path: Option<Path -> bool>,
    sorter: Option<Comparator>,
    otherwise_paths: Option<seq<Path>>)

  /** A work-list entry: a path to hand to `readdir`, with the tree node that path names. */
  datatype Item = Item(path: Path, node: Node)

  /** `self.filter || (() => true)` applied to `x`. */
  predicate Passes(f: Option<string -> bool>, x: string)
  {
    f.None? || f.value(x)
  }

  /** `self.parer || (() => false)` applied to `x`. */
  predicate Pared(p: Option<string -> bool>, x: string)
  {
    p.Some? && p.value(x)
  }

  function EntryName(e: Entry): Name
  {
    e.name
  }

  /** `if (self.sorter) names.sort(self.sorter)`. */
  function SortEntries(req: ListRequest, es: seq<Entry>): (r: seq<Entry>)
    ensures multiset(r) == multiset(es)
    ensures |r| == |es|
  {
    if req.sorter.Some? then
      var r := SortBy(req.sorter.value, EntryName, es);
      assert |multiset(r)| == |multiset(es)|;
      r
    else es
  }

  /** The result set of directory `dir`: names kept by `filter`, joined, kept by `filter_path`. */
  function Matches(req: ListRequest, api: PathApi, dir: Path, es: seq<Entry>): seq<Path>
  {
    if es == [] then []
    else
      var p := JoinTwo(api, dir, es[0].name);
      (if Passes(req.filter, es[0].name) && Passes(req.filter_path, p) then [p] else [])
      + Matches(req, api, dir, es[1..])
  }

  /** The descend set of directory `dir`: names not pared, joined, paths not pared. */
  function Descend(req: ListRequest, api: PathApi, dir: Path, es: seq<Entry>): seq<Item>
  {
    if es == [] then []
    else
      var p := JoinTwo(api, dir, es[0].name);
      (if !Pared(req.parer, es[0].name) && !Pared(req.parer_path, p) then [Item(p, es[0].node)] else [])
      + Descend(req, api, dir, es[1..])
  }

  /** What one `readdir` of `x` adds to the work-list: its descend set, or nothing when it cannot be read. */
  function Kids(req: ListRequest, api: PathApi, x: Item): seq<Item>
  {
    if x.node.Dir? then Descend(req, api, x.path, SortEntries(req, x.node.entries)) else []
  }

  /** What one `readdir` of a listable `x` reports: its result set. */
  function Group(req: ListRequest, api: PathApi, x: Item): seq<Path>
    requires x.node.Dir?
  {
    Matches(req, api, x.path, SortEntries(req, x.node.entries))
  }

  /** The item the traversals start from: `stack = [ self.path ]`. */
  function RootItem(req: ListRequest, root: Node): Item
  {
    Item(req.path, root)
  }

  /** `list`: one level below `self.path`. */
  function List(req: ListRequest, api: PathApi, root: Node): Result<seq<Path>, IoError>
  {
    match ReadDir(root)
    case Err(e) => if req.otherwise_paths.Some? then Ok(req.otherwise_paths.value) else Err(e)
    case Ok(_) => Ok(Group(req, api, RootItem(req, root)))
  }

  // ---------------------------------------------------------------------
  // Sizes of work-lists: the traversals' termination measure.

  function ISize(q: seq<Item>): nat
  {
    if q == [] then 0 else Size(q[0].node) + ISize(q[1..])
  }

  lemma {:induction false} ISizeAppend(a: seq<Item>, b: seq<Item>)
    ensures ISize(a + b) == ISize(a) + ISize(b)
  {
    if a == [] {
      assert a + b == b;
    } else {
      assert (a + b)[1..] == a[1..] + b;
      ISizeAppend(a[1..], b);
    }
  }

  lemma {:induction false} ISizeReverse(q: seq<Item>)
    ensures ISize(Seqs.Reverse(q)) == ISize(q)
  {
    if q != [] {
      ISizeReverse(q[1..]);
      ISizeAppend(Seqs.Reverse(q[1..]), [q[0]]);
    }
  }

  lemma {:induction false} DescendSize(req: ListRequest, api: PathApi, dir: Path, es: seq<Entry>)
    ensures ISize(Descend(req, api, dir, es)) <= EntriesSize(es)
  {
    if es != [] {
      DescendSize(req, api, dir, es[1..]);
      var p := JoinTwo(api, dir, es[0].name);
      var head := if !Pared(req.parer, es[0].name) && !Pared(req.parer_path, p) then [Item(p, es[0].node)] else [];
      ISizeAppend(head, Descend(req, api, dir, es[1..]));
    }
  }

  lemma {:induction false} EntriesSizeAppend(a: seq<Entry>, b: seq<Entry>)
    ensures EntriesSize(a + b) == EntriesSize(a) + EntriesSize(b)
  {
    if a == [] {
      assert a + b == b;
    } else {
      assert (a + b)[1..] == a[1..] + b;
      EntriesSizeAppend(a[1..], b);
    }
  }

  lemma {:induction false} InsertSize(cmp: Comparator, x: Entry, es: seq<Entry>)
    ensures EntriesSize(Insert(cmp, EntryName, x, es)) == Size(x.node) + EntriesSize(es)
  {
    if es != [] && cmp(x.name, es[0].name) > 0 {
      InsertSize(cmp, x, es[1..]);
    }
  }

  lemma {:induction false} SortSize(req: ListRequest, es: seq<Entry>)
    ensures EntriesSize(SortEntries(req, es)) == EntriesSize(es)
  {
    if req.sorter.Some? && es != [] {
      var cmp := req.sorter.value;
      SortSize(req, es[1..]);
      InsertSize(cmp, es[0], SortBy(cmp, EntryName, es[1..]));
    }
  }

  /** Reading one directory never adds more to the work-list than lies below it. */
  lemma KidsSmaller(req: ListRequest, api: PathApi, x: Item)
    ensures ISize(Kids(req, api, x)) < Size(x.node)
  {
    if x.node.Dir? {
      DescendSize(req, api, x.path, SortEntries(req, x.node.entries));
      SortSize(req, x.node.entries);
    }
  }

  /** A descend function whose work-list additions are always smaller than the item read. */
  ghost predicate Shrinks(kids: Item -> seq<Item>)
  {
    forall x :: Shrunk(kids, x)
  }

  ghost predicate Shrunk(kids: Item -> seq<Item>, x: Item)
  {
    ISize(kids(x)) < Size(x.node)
  }

  /** The descend step of a request, as a function value. */
  function KidsOf(req: ListRequest, api: PathApi): Item -> seq<Item>
  {
    (x: Item) => Kids(req, api, x)
  }

  /** The result step of a request, as a function value (nothing for an unreadable item). */
  function GroupOf(req: ListRequest, api: PathApi): Item -> seq<Path>
  {
    (x: Item) => if x.node.Dir? then Group(req, api, x) else []
  }

  /** One `readdir` of `x` through the function values: the descend and result sets, or nothing on a failing read. */
  lemma ReadStep(req: ListRequest, api: PathApi, x: Item)
    ensures x.node.Dir? ==> KidsOf(req, api)(x) == Descend(req, api, x.path, SortEntries(req, x.node.entries))
    ensures x.node.Dir? ==> GroupOf(req, api)(x) == Matches(req, api, x.path, SortEntries(req, x.node.entries))
    ensures !x.node.Dir? ==> KidsOf(req, api)(x) == []
  {
  }

  lemma KidsOfShrinks(req: ListRequest, api: PathApi)
    ensures Shrinks(KidsOf(req, api))
  {
    forall x
      ensures Shrunk(KidsOf(req, api), x)
    {
      KidsSmaller(req, api, x);
    }
  }

  // ---------------------------------------------------------------------
  // What the result set and the descend set contain.

  lemma {:induction false} MatchesMember(req: ListRequest, api: PathApi, dir: Path, es: seq<Entry>, p: Path)
    ensures p in Matches(req, api, dir, es) <==>
      exists e :: e in es && p == JoinTwo(api, dir, e.name) && Passes(req.filter, e.name) && Passes(req.filter_path, p)
  {
    if es != [] {
      MatchesMember(req, api, dir, es[1..], p);
      assert forall e :: e in es <==> e == es[0] || e in es[1..];
    }
  }

  lemma {:induction false} DescendMember(req: ListRequest, api: PathApi, dir: Path, es: seq<Entry>, k: Item)
    ensures k in Descend(req, api, dir, es) <==>
      exists e :: e in es && k == Item(JoinTwo(api, dir, e.name), e.node)
        && !Pared(req.parer, e.name) && !Pared(req.parer_path, k.path)
  {
    if es != [] {
      DescendMember(req, api, dir, es[1..], k);
      assert forall e :: e in es <==> e == es[0] || e in es[1..];
    }
  }

  lemma SortedMember(req: ListRequest, es: seq<Entry>, e: Entry)
    ensures e in SortEntries(req, es) <==> e in es
  {
    assert e in multiset(SortEntries(req, es)) <==> e in multiset(es);
  }

  /** The result set does not depend on the pruners. */
  lemma {:induction false} MatchesIgnorePruners(req: ListRequest, api: PathApi, dir: Path, es: seq<Entry>,
                                                parer: Option<Name -> bool>, parer_path: Option<Path -> bool>)
    ensures Matches(req.(parer := parer, parer_path := parer_path), api, dir, es) == Matches(req, api, dir, es)
  {
    if es != [] {
      MatchesIgnorePruners(req, api, dir, es[1..], parer, parer_path);
    }
  }

  /** The descend set does not depend on the filters. */
  lemma {:induction false} DescendIgnoresFilters(req: ListRequest, api: PathApi, dir: Path, es: seq<Entry>,
                                                 filter: Option<Name -> bool>, filter_path: Option<Path -> bool>)
    ensures Descend(req.(filter := filter, filter_path := filter_path), api, dir, es) == Descend(req, api, dir, es)
  {
    if es != [] {
      DescendIgnoresFilters(req, api, dir, es[1..], filter, filter_path);
    }
  }

  /** A pruner that never matches descends into the same entries as no pruner at all. */
  lemma {:induction false} DescendNeverPared(req: ListRequest, api: PathApi, dir: Path, es: seq<Entry>,
                                             parer: Name -> bool, parer_path: Path -> bool)
    requires forall n :: !parer(n)
    requires forall p :: !parer_path(p)
    ensures Descend(req.(parer := Some(parer), parer_path := Some(parer_path)), api, dir, es)
         == Descend(req.(parer := None, parer_path := None), api, dir, es)
  {
    if es != [] {
      DescendNeverPared(req, api, dir, es[1..], parer, parer_path);
    }
  }

  // ---------------------------------------------------------------------
  // `list`.

  /** A root that cannot be read gives `otherwise_paths` when it is defined, and the read error otherwise. */
  lemma ListReadFailure(req: ListRequest, api: PathApi, root: Node)
    requires !root.Dir?
    ensures req.otherwise_paths.Some? ==> List(req, api, root) == Ok(req.otherwise_paths.value)
    ensures req.otherwise_paths.None? ==> List(req, api, root) == Err(ReadDir(root).error)
  {
  }

  /** `list` reports exactly the joined paths of the entries that pass both filters. */
  lemma ListMember(req: ListRequest, api: PathApi, es: seq<Entry>, p: Path)
    ensures List(req, api, Dir(es)).Ok?
    ensures p in List(req, api, Dir(es)).value <==>
      exists e :: e in es && p == JoinTwo(api, req.path, e.name) && Passes(req.filter, e.name) && Passes(req.filter_path, p)
  {
    MatchesMember(req, api, req.path, SortEntries(req, es), p);
    forall e
      ensures e in SortEntries(req, es) <==> e in es
    {
      SortedMember(req, es, e);
    }
  }

  lemma {:induction false} MatchesUnfiltered(req: ListRequest, api: PathApi, dir: Path, es: seq<Entry>)
    requires req.filter.None? && req.filter_path.None?
    ensures |Matches(req, api, dir, es)| == |es|
    ensures forall i :: 0 <= i < |es| ==> Matches(req, api, dir, es)[i] == JoinTwo(api, dir, es[i].name)
  {
    if es != [] {
      MatchesUnfiltered(req, api, dir, es[1..]);
    }
  }

  /**
   * Without filters `list` gives one path per entry, in the order of the
   * sorted names; with a consistent sorter that order is the sorter's.
   */
  lemma ListUnfiltered(req: ListRequest, api: PathApi, es: seq<Entry>)
    requires req.filter.None? && req.filter_path.None?
    ensures List(req, api, Dir(es)).Ok?
    ensures var paths := List(req, api, Dir(es)).value;
      && |paths| == |es|
      && forall i :: 0 <= i < |es| ==> paths[i] == JoinTwo(api, req.path, SortEntries(req, es)[i].name)
    ensures req.sorter.None? ==> SortEntries(req, es) == es
    ensures req.sorter.Some? && Consistent(req.sorter.value) ==>
      SortedBy(req.sorter.value, EntryName, SortEntries(req, es))
  {
    var sorted := SortEntries(req, es);
    MatchesUnfiltered(req, api, req.path, sorted);
    if req.sorter.Some? && Consistent(req.sorter.value) {
      SortBySorted(req.sorter.value, EntryName, es);
    }
  }
}
