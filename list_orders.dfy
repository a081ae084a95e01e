/**
 * The orders in which lib/list.js's recursive listings hand paths to
 * `readdir`, and what a sequence of such reads reports. They are stated
 * for any descend step `kids` that shrinks the tree (ListSteps.KidsOf
 * gives the listings' own) and any result step `group`
 * (ListSteps.GroupOf).
 *
 * `QOrder` is the FIFO discipline of `breadth_first` (`shift` at the
 * front, `push` of the descend set at the back); `SOrder` the LIFO
 * discipline of `depth_first` (`shift` at the front, `unshift` of each
 * descend-set member in turn, so the set lands reversed). `LevelOrder`
 * and `PostGroups` are the independent descriptions they are proved to
 * meet.
 */
module ListOrders {
  import opened FsTree
  import opened ListSteps
  import opened Seqs

  type Step = Item -> seq<Item>

  /** Items visited from FIFO work-list `q`. */
  function QOrder(kids: Step, q: seq<Item>): seq<Item>
    requires Shrinks(kids)
    decreases ISize(q)
  {
    if q == [] then []
    else
      assert Shrunk(kids, q[0]);
      ISizeAppend(q[1..], kids(q[0]));
      [q[0]] + QOrder(kids, q[1..] + kids(q[0]))
  }

  /** Items visited from LIFO work-list `q`. */
  function SOrder(kids: Step, q: seq<Item>): seq<Item>
    requires Shrinks(kids)
    decreases ISize(q)
  {
    if q == [] then []
    else
      assert Shrunk(kids, q[0]);
      ISizeReverse(kids(q[0]));
      ISizeAppend(Reverse(kids(q[0])), q[1..]);
      [q[0]] + SOrder(kids, Reverse(kids(q[0])) + q[1..])
  }

  /** The descend sets of a whole level, in order. */
  function NextLevel(kids: Step, level: seq<Item>): (r: seq<Item>)
    requires Shrinks(kids)
    ensures level != [] ==> ISize(r) < ISize(level)
  {
    if level == [] then []
    else
      assert Shrunk(kids, level[0]);
      ISizeAppend(kids(level[0]), NextLevel(kids, level[1..]));
      kids(level[0]) + NextLevel(kids, level[1..])
  }

  /** Level order: a level, then the level formed by its descend sets, and so on. */
  function LevelOrder(kids: Step, level: seq<Item>): seq<Item>
    requires Shrinks(kids)
    decreases ISize(level)
  {
    if level == [] then [] else level + LevelOrder(kids, NextLevel(kids, level))
  }

  /** The result sets reported by the listable items of `visits`, one group per item, in visit order. */
  function GroupsOf(group: Item -> seq<Path>, visits: seq<Item>): seq<seq<Path>>
  {
    if visits == [] then []
    else (if visits[0].node.Dir? then [group(visits[0])] else []) + GroupsOf(group, visits[1..])
  }

  /** The paths of the unreadable items of `visits`, in visit order. */
  function FailsOf(visits: seq<Item>): seq<Path>
  {
    if visits == [] then []
    else (if visits[0].node.Dir? then [] else [visits[0].path]) + FailsOf(visits[1..])
  }

  /**
   * Post-order of result groups: the groups of the subtrees below `x`,
   * taken in descend-set (sorter) order, then `x`'s own group. An
   * unreadable item reports no group and has nothing below it.
   */
  function PostGroups(kids: Step, group: Item -> seq<Path>, x: Item): seq<seq<Path>>
    requires Shrinks(kids)
    decreases Size(x.node), 0
  {
    if x.node.Dir? then
      assert Shrunk(kids, x);
      PostGroupsList(kids, group, kids(x)) + [group(x)]
    else []
  }

  function PostGroupsList(kids: Step, group: Item -> seq<Path>, q: seq<Item>): seq<seq<Path>>
    requires Shrinks(kids)
    decreases ISize(q), 1
  {
    if q == [] then [] else PostGroups(kids, group, q[0]) + PostGroupsList(kids, group, q[1..])
  }

  /** Every item reachable from `q` through descend sets, counted with multiplicity. */
  ghost function AllBelow(kids: Step, q: seq<Item>): multiset<Item>
    requires Shrinks(kids)
    decreases ISize(q)
  {
    if q == [] then multiset{}
    else
      assert Shrunk(kids, q[0]);
      multiset{q[0]} + AllBelow(kids, kids(q[0])) + AllBelow(kids, q[1..])
  }

  // ---------------------------------------------------------------------
  // Unfolding steps.

  lemma Shrink(kids: Step, x: Item)
    requires Shrinks(kids)
    ensures ISize(kids(x)) < Size(x.node)
  {
    assert Shrunk(kids, x);
  }

  /** An item that cannot be listed has nothing below it. */
  lemma LeafHasNoKids(kids: Step, x: Item)
    requires Shrinks(kids) && !x.node.Dir?
    ensures kids(x) == []
  {
    Shrink(kids, x);
  }

  lemma ISizeCons(x: Item, rest: seq<Item>)
    ensures ISize([x] + rest) == Size(x.node) + ISize(rest)
  {
    assert ([x] + rest)[0] == x && ([x] + rest)[1..] == rest;
  }

  lemma QOrderStep(kids: Step, x: Item, rest: seq<Item>)
    requires Shrinks(kids)
    ensures QOrder(kids, [x] + rest) == [x] + QOrder(kids, rest + kids(x))
  {
    assert ([x] + rest)[0] == x && ([x] + rest)[1..] == rest;
  }

  lemma SOrderStep(kids: Step, x: Item, rest: seq<Item>)
    requires Shrinks(kids)
    ensures SOrder(kids, [x] + rest) == [x] + SOrder(kids, Reverse(kids(x)) + rest)
  {
    assert ([x] + rest)[0] == x && ([x] + rest)[1..] == rest;
  }

  lemma SOrderOne(kids: Step, x: Item)
    requires Shrinks(kids)
    ensures SOrder(kids, [x]) == [x] + SOrder(kids, Reverse(kids(x)))
  {
    SOrderStep(kids, x, []);
    assert Reverse(kids(x)) + [] == Reverse(kids(x));
    assert [x] + [] == [x];
  }

  lemma GroupsOfStep(group: Item -> seq<Path>, x: Item, rest: seq<Item>)
    ensures GroupsOf(group, [x] + rest) == (if x.node.Dir? then [group(x)] else []) + GroupsOf(group, rest)
  {
    assert ([x] + rest)[0] == x && ([x] + rest)[1..] == rest;
  }

  lemma FailsOfStep(x: Item, rest: seq<Item>)
    ensures FailsOf([x] + rest) == (if x.node.Dir? then [] else [x.path]) + FailsOf(rest)
  {
    assert ([x] + rest)[0] == x && ([x] + rest)[1..] == rest;
  }

  // ---------------------------------------------------------------------
  // Breadth first is level order.

  lemma {:induction false} NextLevelAppend(kids: Step, a: seq<Item>, b: seq<Item>)
    requires Shrinks(kids)
    ensures NextLevel(kids, a + b) == NextLevel(kids, a) + NextLevel(kids, b)
  {
    if a == [] {
      assert a + b == b;
    } else {
      assert (a + b)[0] == a[0] && (a + b)[1..] == a[1..] + b;
      NextLevelAppend(kids, a[1..], b);
      AppendAssoc(kids(a[0]), NextLevel(kids, a[1..]), NextLevel(kids, b));
    }
  }

  lemma NextLevelSnoc(kids: Step, b: seq<Item>, x: Item)
    requires Shrinks(kids)
    ensures NextLevel(kids, b + [x]) == NextLevel(kids, b) + kids(x)
  {
    NextLevelAppend(kids, b, [x]);
    assert NextLevel(kids, [x]) == kids(x) + NextLevel(kids, []);
    assert kids(x) + [] == kids(x);
  }

  /** One step of `QOrderLevels`: the front item `x` of the level is visited and its descend set queued. */
  lemma QOrderLevelsStep(kids: Step, x: Item, rest: seq<Item>, b: seq<Item>)
    requires Shrinks(kids)
    requires QOrder(kids, rest + NextLevel(kids, b + [x]))
          == rest + LevelOrder(kids, NextLevel(kids, b + [x]) + NextLevel(kids, rest))
    ensures QOrder(kids, [x] + rest + NextLevel(kids, b))
         == [x] + rest + LevelOrder(kids, NextLevel(kids, b) + NextLevel(kids, [x] + rest))
  {
    var nb, nbx := NextLevel(kids, b), NextLevel(kids, b + [x]);
    var a := [x] + rest;
    NextLevelSnoc(kids, b, x);
    var tail := LevelOrder(kids, nbx + NextLevel(kids, rest));
    assert QOrder(kids, a + nb) == [x] + QOrder(kids, rest + nbx) by {
      AppendAssoc([x], rest, nb);
      QOrderStep(kids, x, rest + nb);
      AppendAssoc(rest, nb, kids(x));
    }
    assert nbx + NextLevel(kids, rest) == nb + NextLevel(kids, a) by {
      assert a[0] == x && a[1..] == rest;
      AppendAssoc(nb, kids(x), NextLevel(kids, rest));
    }
    AppendAssoc([x], rest, tail);
  }

  /** The step of `QOrderLevels` at the end of a level: the queued descend sets are the next level. */
  lemma QOrderLevelsNext(kids: Step, b: seq<Item>)
    requires Shrinks(kids)
    requires NextLevel(kids, b) != [] ==>
      QOrder(kids, NextLevel(kids, b) + NextLevel(kids, []))
      == NextLevel(kids, b) + LevelOrder(kids, NextLevel(kids, []) + NextLevel(kids, NextLevel(kids, b)))
    ensures QOrder(kids, [] + NextLevel(kids, b)) == [] + LevelOrder(kids, NextLevel(kids, b) + NextLevel(kids, []))
  {
    var nb := NextLevel(kids, b);
    assert [] + nb == nb + [] == nb + NextLevel(kids, []) == nb;
    assert NextLevel(kids, []) + NextLevel(kids, nb) == NextLevel(kids, nb);
  }

  /**
   * Once the items `b` of a level have been visited, a FIFO work-list
   * holding the rest `a` of the level followed by the descend sets of
   * `b` visits `a` and then the following levels in level order.
   */
  lemma {:induction false} QOrderLevels(kids: Step, a: seq<Item>, b: seq<Item>)
    requires Shrinks(kids)
    ensures QOrder(kids, a + NextLevel(kids, b)) == a + LevelOrder(kids, NextLevel(kids, b) + NextLevel(kids, a))
    decreases ISize(a) + ISize(NextLevel(kids, b)), if a == [] then 1 else 0
  {
    var nb := NextLevel(kids, b);
    if a == [] {
      if nb != [] {
        QOrderLevels(kids, nb, []);
      }
      QOrderLevelsNext(kids, b);
    } else {
      var x, rest := a[0], a[1..];
      assert a == [x] + rest;
      assert ISize(rest) + ISize(NextLevel(kids, b + [x])) < ISize(a) + ISize(nb) by {
        NextLevelSnoc(kids, b, x);
        ISizeAppend(nb, kids(x));
        ISizeCons(x, rest);
        Shrink(kids, x);
      }
      QOrderLevels(kids, rest, b + [x]);
      QOrderLevelsStep(kids, x, rest, b);
    }
  }

  /** A FIFO work-list started from one item visits the tree level by level. */
  lemma BreadthFirstVisitsLevels(kids: Step, x: Item)
    requires Shrinks(kids)
    ensures QOrder(kids, [x]) == LevelOrder(kids, [x])
  {
    QOrderLevels(kids, [x], []);
    assert [x] + NextLevel(kids, []) == [x];
    assert NextLevel(kids, []) + NextLevel(kids, [x]) == NextLevel(kids, [x]);
  }

  // ---------------------------------------------------------------------
  // Depth first is post-order.

  lemma SOrderAppendStep(kids: Step, x: Item, rest: seq<Item>, b: seq<Item>)
    requires Shrinks(kids)
    requires SOrder(kids, (Reverse(kids(x)) + rest) + b)
          == SOrder(kids, Reverse(kids(x)) + rest) + SOrder(kids, b)
    ensures SOrder(kids, [x] + (rest + b)) == SOrder(kids, [x] + rest) + SOrder(kids, b)
  {
    var ks := Reverse(kids(x));
    var p, q := SOrder(kids, ks + rest), SOrder(kids, b);
    assert SOrder(kids, [x] + (rest + b)) == [x] + (p + q) by {
      AppendAssoc(ks, rest, b);
      SOrderStep(kids, x, rest + b);
    }
    assert SOrder(kids, [x] + rest) == [x] + p by {
      SOrderStep(kids, x, rest);
    }
    AppendAssoc([x], p, q);
  }

  /** The LIFO work-list finishes everything below its front part before it reaches the rest. */
  lemma {:induction false} SOrderAppend(kids: Step, a: seq<Item>, b: seq<Item>)
    requires Shrinks(kids)
    ensures SOrder(kids, a + b) == SOrder(kids, a) + SOrder(kids, b)
    decreases ISize(a)
  {
    if a == [] {
      assert a + b == b;
    } else {
      var x, rest := a[0], a[1..];
      assert ISize(Reverse(kids(x)) + rest) < ISize(a) by {
        Shrink(kids, x);
        ISizeReverse(kids(x));
        ISizeAppend(Reverse(kids(x)), rest);
      }
      SOrderAppend(kids, Reverse(kids(x)) + rest, b);
      SOrderAppendStep(kids, x, rest, b);
      assert a == [x] + rest;
      assert a + b == [x] + (rest + b);
    }
  }

  lemma {:induction false} GroupsOfAppend(group: Item -> seq<Path>, a: seq<Item>, b: seq<Item>)
    ensures GroupsOf(group, a + b) == GroupsOf(group, a) + GroupsOf(group, b)
  {
    if a == [] {
      assert a + b == b;
    } else {
      var own := if a[0].node.Dir? then [group(a[0])] else [];
      assert (a + b)[0] == a[0] && (a + b)[1..] == a[1..] + b;
      GroupsOfAppend(group, a[1..], b);
      AppendAssoc(own, GroupsOf(group, a[1..]), GroupsOf(group, b));
    }
  }

  lemma {:induction false} FailsOfAppend(a: seq<Item>, b: seq<Item>)
    ensures FailsOf(a + b) == FailsOf(a) + FailsOf(b)
  {
    if a == [] {
      assert a + b == b;
    } else {
      var own := if a[0].node.Dir? then [] else [a[0].path];
      assert (a + b)[0] == a[0] && (a + b)[1..] == a[1..] + b;
      FailsOfAppend(a[1..], b);
      AppendAssoc(own, FailsOf(a[1..]), FailsOf(b));
    }
  }

  lemma {:induction false} PostGroupsListAppend(kids: Step, group: Item -> seq<Path>, a: seq<Item>, b: seq<Item>)
    requires Shrinks(kids)
    ensures PostGroupsList(kids, group, a + b) == PostGroupsList(kids, group, a) + PostGroupsList(kids, group, b)
  {
    if a == [] {
      assert a + b == b;
    } else {
      assert (a + b)[0] == a[0] && (a + b)[1..] == a[1..] + b;
      PostGroupsListAppend(kids, group, a[1..], b);
      AppendAssoc(PostGroups(kids, group, a[0]), PostGroupsList(kids, group, a[1..]), PostGroupsList(kids, group, b));
    }
  }

  lemma DepthFirstGroupsOne(kids: Step, group: Item -> seq<Path>, x: Item)
    requires Shrinks(kids)
    requires Reverse(GroupsOf(group, SOrder(kids, Reverse(kids(x))))) == PostGroupsList(kids, group, kids(x))
    ensures Reverse(GroupsOf(group, SOrder(kids, [x]))) == PostGroups(kids, group, x)
  {
    var sx := SOrder(kids, Reverse(kids(x)));
    var own := if x.node.Dir? then [group(x)] else [];
    var g := GroupsOf(group, sx);
    assert GroupsOf(group, SOrder(kids, [x])) == own + g by {
      SOrderOne(kids, x);
      GroupsOfStep(group, x, sx);
    }
    assert Reverse(own + g) == Reverse(g) + own by {
      ReverseAppend(own, g);
      assert Reverse(own) == own;
    }
    if !x.node.Dir? {
      LeafHasNoKids(kids, x);
      assert Reverse(g) + own == [];
    }
  }

  /**
   * The groups reported from LIFO work-list `q`, read backwards (as the
   * prepended result stack holds them), are the post-order groups of the
   * work-list's items taken in reverse.
   */
  lemma {:induction false} DepthFirstGroupsPostOrder(kids: Step, group: Item -> seq<Path>, q: seq<Item>)
    requires Shrinks(kids)
    ensures Reverse(GroupsOf(group, SOrder(kids, q))) == PostGroupsList(kids, group, Reverse(q))
    decreases ISize(q)
  {
    if q != [] {
      var x, rest := q[0], q[1..];
      assert q == [x] + rest;
      var ks := kids(x);
      assert ISize(Reverse(ks)) < ISize(q) && ISize(rest) < ISize(q) by {
        Shrink(kids, x);
        ISizeReverse(ks);
        ISizeCons(x, rest);
      }
      DepthFirstGroupsPostOrder(kids, group, Reverse(ks));
      ReverseReverse(ks);
      DepthFirstGroupsOne(kids, group, x);
      DepthFirstGroupsPostOrder(kids, group, rest);
      var gx, gr := GroupsOf(group, SOrder(kids, [x])), GroupsOf(group, SOrder(kids, rest));
      assert GroupsOf(group, SOrder(kids, q)) == gx + gr by {
        SOrderAppend(kids, [x], rest);
        GroupsOfAppend(group, SOrder(kids, [x]), SOrder(kids, rest));
      }
      ReverseAppend(gx, gr);
      assert PostGroupsList(kids, group, Reverse(q)) == PostGroupsList(kids, group, Reverse(rest)) + PostGroups(kids, group, x) by {
        ReverseAppend([x], rest);
        assert Reverse([x]) == [x];
        PostGroupsListAppend(kids, group, Reverse(rest), [x]);
        assert PostGroupsList(kids, group, [x]) == PostGroups(kids, group, x) + PostGroupsList(kids, group, []);
      }
    }
  }

  /** A LIFO work-list started from one item reports its groups in post-order once the prepended stack is read. */
  lemma DepthFirstIsPostOrder(kids: Step, group: Item -> seq<Path>, x: Item)
    requires Shrinks(kids)
    ensures Reverse(GroupsOf(group, SOrder(kids, [x]))) == PostGroups(kids, group, x)
  {
    DepthFirstGroupsPostOrder(kids, group, [x]);
    assert Reverse([x]) == [x];
    assert PostGroupsList(kids, group, [x]) == PostGroups(kids, group, x) + PostGroupsList(kids, group, []);
  }

  // ---------------------------------------------------------------------
  // Both disciplines visit the same items.

  lemma {:induction false} AllBelowAppend(kids: Step, a: seq<Item>, b: seq<Item>)
    requires Shrinks(kids)
    ensures AllBelow(kids, a + b) == AllBelow(kids, a) + AllBelow(kids, b)
    decreases ISize(a)
  {
    if a == [] {
      assert a + b == b;
    } else {
      assert (a + b)[0] == a[0] && (a + b)[1..] == a[1..] + b;
      ISizeCons(a[0], a[1..]);
      assert a == [a[0]] + a[1..];
      AllBelowAppend(kids, a[1..], b);
    }
  }

  lemma {:induction false} AllBelowReverse(kids: Step, q: seq<Item>)
    requires Shrinks(kids)
    ensures AllBelow(kids, Reverse(q)) == AllBelow(kids, q)
    decreases |q|
  {
    if q != [] {
      AllBelowReverse(kids, q[1..]);
      AllBelowAppend(kids, Reverse(q[1..]), [q[0]]);
      assert AllBelow(kids, [q[0]]) == multiset{q[0]} + AllBelow(kids, kids(q[0])) + AllBelow(kids, []);
    }
  }

  lemma {:induction false} QOrderMultiset(kids: Step, q: seq<Item>)
    requires Shrinks(kids)
    ensures multiset(QOrder(kids, q)) == AllBelow(kids, q)
    decreases ISize(q)
  {
    if q != [] {
      var ks := kids(q[0]);
      Shrink(kids, q[0]);
      ISizeAppend(q[1..], ks);
      QOrderMultiset(kids, q[1..] + ks);
      AllBelowAppend(kids, q[1..], ks);
    }
  }

  lemma {:induction false} SOrderMultiset(kids: Step, q: seq<Item>)
    requires Shrinks(kids)
    ensures multiset(SOrder(kids, q)) == AllBelow(kids, q)
    decreases ISize(q)
  {
    if q != [] {
      var ks := kids(q[0]);
      Shrink(kids, q[0]);
      ISizeReverse(ks);
      ISizeAppend(Reverse(ks), q[1..]);
      SOrderMultiset(kids, Reverse(ks) + q[1..]);
      AllBelowAppend(kids, Reverse(ks), q[1..]);
      AllBelowReverse(kids, ks);
    }
  }

  /** The FIFO and the LIFO work-list hand the same items to `readdir`, only in another order. */
  lemma SameVisits(kids: Step, q: seq<Item>)
    requires Shrinks(kids)
    ensures multiset(QOrder(kids, q)) == multiset(SOrder(kids, q))
  {
    QOrderMultiset(kids, q);
    SOrderMultiset(kids, q);
  }

  lemma {:induction false} AllBelowContains(kids: Step, q: seq<Item>, k: Item)
    requires Shrinks(kids) && k in q
    ensures k in AllBelow(kids, q)
    decreases |q|
  {
    if k != q[0] {
      AllBelowContains(kids, q[1..], k);
    }
  }

  lemma {:induction false} AllBelowClosed(kids: Step, q: seq<Item>, x: Item, k: Item)
    requires Shrinks(kids)
    requires x in AllBelow(kids, q) && k in kids(x)
    ensures k in AllBelow(kids, q)
    decreases ISize(q)
  {
    var y := q[0];
    Shrink(kids, y);
    assert ISize(q) == Size(y.node) + ISize(q[1..]);
    if x == y {
      AllBelowContains(kids, kids(y), k);
    } else if x in AllBelow(kids, kids(y)) {
      AllBelowClosed(kids, kids(y), x, k);
    } else {
      AllBelowClosed(kids, q[1..], x, k);
    }
  }

  /** Every member of the descend set of a visited item is visited as well, by both disciplines. */
  lemma DescendSetVisited(kids: Step, root: Item, x: Item, k: Item)
    requires Shrinks(kids)
    requires x in QOrder(kids, [root]) && k in kids(x)
    ensures k in QOrder(kids, [root]) && k in SOrder(kids, [root])
  {
    QOrderMultiset(kids, [root]);
    SOrderMultiset(kids, [root]);
    assert x in multiset(QOrder(kids, [root]));
    AllBelowClosed(kids, [root], x, k);
    assert k in multiset(QOrder(kids, [root]));
    assert k in multiset(SOrder(kids, [root]));
  }

  // ---------------------------------------------------------------------
  // What the visits emit, counted without regard to order.

  /** The outputs `out` gives for the items of `visits`, concatenated in visit order. */
  function Emit(out: Item -> seq<Path>, visits: seq<Item>): seq<Path>
  {
    if visits == [] then [] else out(visits[0]) + Emit(out, visits[1..])
  }

  /** The outputs of every item reachable from `q`, as a multiset. */
  ghost function EmitBelow(kids: Step, out: Item -> seq<Path>, q: seq<Item>): multiset<Path>
    requires Shrinks(kids)
    decreases ISize(q)
  {
    if q == [] then multiset{}
    else
      assert Shrunk(kids, q[0]);
      multiset(out(q[0])) + EmitBelow(kids, out, kids(q[0])) + EmitBelow(kids, out, q[1..])
  }

  /** What a listable item reports. */
  function Reported(group: Item -> seq<Path>): Item -> seq<Path>
  {
    (x: Item) => if x.node.Dir? then group(x) else []
  }

  /** What an unreadable item records. */
  function Failure(): Item -> seq<Path>
  {
    (x: Item) => if x.node.Dir? then [] else [x.path]
  }

  lemma {:induction false} EmitAppend(out: Item -> seq<Path>, a: seq<Item>, b: seq<Item>)
    ensures Emit(out, a + b) == Emit(out, a) + Emit(out, b)
  {
    if a == [] {
      assert a + b == b;
    } else {
      assert (a + b)[0] == a[0] && (a + b)[1..] == a[1..] + b;
      EmitAppend(out, a[1..], b);
      AppendAssoc(out(a[0]), Emit(out, a[1..]), Emit(out, b));
    }
  }

  lemma {:induction false} EmitGroups(group: Item -> seq<Path>, visits: seq<Item>)
    ensures Flatten(GroupsOf(group, visits)) == Emit(Reported(group), visits)
  {
    if visits != [] {
      var own := if visits[0].node.Dir? then [group(visits[0])] else [];
      EmitGroups(group, visits[1..]);
      FlattenAppend(own, GroupsOf(group, visits[1..]));
      assert Flatten(own) == Reported(group)(visits[0]) by {
        if visits[0].node.Dir? {
          assert Flatten(own) == group(visits[0]) + Flatten([]);
        }
      }
    }
  }

  lemma {:induction false} EmitFails(visits: seq<Item>)
    ensures FailsOf(visits) == Emit(Failure(), visits)
  {
    if visits != [] {
      EmitFails(visits[1..]);
    }
  }

  lemma {:induction false} EmitBelowAppend(kids: Step, out: Item -> seq<Path>, a: seq<Item>, b: seq<Item>)
    requires Shrinks(kids)
    ensures EmitBelow(kids, out, a + b) == EmitBelow(kids, out, a) + EmitBelow(kids, out, b)
    decreases ISize(a)
  {
    if a == [] {
      assert a + b == b;
    } else {
      assert (a + b)[0] == a[0] && (a + b)[1..] == a[1..] + b;
      ISizeCons(a[0], a[1..]);
      assert a == [a[0]] + a[1..];
      EmitBelowAppend(kids, out, a[1..], b);
    }
  }

  lemma {:induction false} EmitBelowReverse(kids: Step, out: Item -> seq<Path>, q: seq<Item>)
    requires Shrinks(kids)
    ensures EmitBelow(kids, out, Reverse(q)) == EmitBelow(kids, out, q)
    decreases |q|
  {
    if q != [] {
      EmitBelowReverse(kids, out, q[1..]);
      EmitBelowAppend(kids, out, Reverse(q[1..]), [q[0]]);
      assert EmitBelow(kids, out, [q[0]])
          == multiset(out(q[0])) + EmitBelow(kids, out, kids(q[0])) + EmitBelow(kids, out, []);
    }
  }

  lemma {:induction false} QOrderEmit(kids: Step, out: Item -> seq<Path>, q: seq<Item>)
    requires Shrinks(kids)
    ensures multiset(Emit(out, QOrder(kids, q))) == EmitBelow(kids, out, q)
    decreases ISize(q)
  {
    if q != [] {
      var x, ks := q[0], kids(q[0]);
      Shrink(kids, x);
      ISizeAppend(q[1..], ks);
      QOrderEmit(kids, out, q[1..] + ks);
      EmitBelowAppend(kids, out, q[1..], ks);
      assert QOrder(kids, q) == [x] + QOrder(kids, q[1..] + ks);
      EmitAppend(out, [x], QOrder(kids, q[1..] + ks));
      assert Emit(out, [x]) == out(x) + Emit(out, []);
    }
  }

  lemma {:induction false} SOrderEmit(kids: Step, out: Item -> seq<Path>, q: seq<Item>)
    requires Shrinks(kids)
    ensures multiset(Emit(out, SOrder(kids, q))) == EmitBelow(kids, out, q)
    decreases ISize(q)
  {
    if q != [] {
      var x, ks := q[0], kids(q[0]);
      Shrink(kids, x);
      ISizeReverse(ks);
      ISizeAppend(Reverse(ks), q[1..]);
      SOrderEmit(kids, out, Reverse(ks) + q[1..]);
      EmitBelowAppend(kids, out, Reverse(ks), q[1..]);
      EmitBelowReverse(kids, out, ks);
      assert SOrder(kids, q) == [x] + SOrder(kids, Reverse(ks) + q[1..]);
      EmitAppend(out, [x], SOrder(kids, Reverse(ks) + q[1..]));
      assert Emit(out, [x]) == out(x) + Emit(out, []);
    }
  }

  /** Whatever the visits emit, the FIFO and the LIFO work-list emit the same outputs up to order. */
  lemma SameEmits(kids: Step, out: Item -> seq<Path>, q: seq<Item>)
    requires Shrinks(kids)
    ensures multiset(Emit(out, QOrder(kids, q))) == multiset(Emit(out, SOrder(kids, q)))
  {
    QOrderEmit(kids, out, q);
    SOrderEmit(kids, out, q);
  }

  // ---------------------------------------------------------------------
  // The orders depend on the descend step only through its values.

  lemma {:induction false} QOrderCongruent(k1: Step, k2: Step, q: seq<Item>)
    requires Shrinks(k1) && Shrinks(k2)
    requires forall x :: k1(x) == k2(x)
    ensures QOrder(k1, q) == QOrder(k2, q)
    decreases ISize(q)
  {
    if q != [] {
      Shrink(k1, q[0]);
      ISizeAppend(q[1..], k1(q[0]));
      QOrderCongruent(k1, k2, q[1..] + k1(q[0]));
    }
  }

  lemma {:induction false} SOrderCongruent(k1: Step, k2: Step, q: seq<Item>)
    requires Shrinks(k1) && Shrinks(k2)
    requires forall x :: k1(x) == k2(x)
    ensures SOrder(k1, q) == SOrder(k2, q)
    decreases ISize(q)
  {
    if q != [] {
      Shrink(k1, q[0]);
      ISizeReverse(k1(q[0]));
      ISizeAppend(Reverse(k1(q[0])), q[1..]);
      SOrderCongruent(k1, k2, Reverse(k1(q[0])) + q[1..]);
    }
  }

  lemma {:induction false} EmitMember(out: Item -> seq<Path>, visits: seq<Item>, x: Item, p: Path)
    requires x in visits && p in out(x)
    ensures p in Emit(out, visits)
  {
    if x != visits[0] {
      EmitMember(out, visits[1..], x, p);
    }
  }

  // ---------------------------------------------------------------------
  // The listings read off the two disciplines from one start item.

  /** The reported paths: in the order of the FIFO visits, and in reverse visit order of the LIFO groups. */
  function QPaths(kids: Step, group: Item -> seq<Path>, x: Item): seq<Path>
    requires Shrinks(kids)
  {
    Flatten(GroupsOf(group, QOrder(kids, [x])))
  }

  function SPaths(kids: Step, group: Item -> seq<Path>, x: Item): seq<Path>
    requires Shrinks(kids)
  {
    Flatten(Reverse(GroupsOf(group, SOrder(kids, [x]))))
  }

  /** Both disciplines report the same paths and record the same failures, each as often. */
  lemma SameReports(kids: Step, group: Item -> seq<Path>, x: Item)
    requires Shrinks(kids)
    ensures multiset(QPaths(kids, group, x)) == multiset(SPaths(kids, group, x))
    ensures multiset(FailsOf(QOrder(kids, [x]))) == multiset(FailsOf(SOrder(kids, [x])))
  {
    EmitGroups(group, QOrder(kids, [x]));
    EmitGroups(group, SOrder(kids, [x]));
    FlattenReverseMultiset(GroupsOf(group, SOrder(kids, [x])));
    SameEmits(kids, Reported(group), [x]);
    EmitFails(QOrder(kids, [x]));
    EmitFails(SOrder(kids, [x]));
    SameEmits(kids, Failure(), [x]);
  }

  lemma QOrderOne(kids: Step, x: Item)
    requires Shrinks(kids)
    ensures QOrder(kids, [x]) == [x] + QOrder(kids, kids(x))
  {
    QOrderStep(kids, x, []);
    assert [x] + [] == [x] && [] + kids(x) == kids(x);
  }

  /** The first group the FIFO discipline reports is the start item's own. */
  lemma QPathsStart(kids: Step, group: Item -> seq<Path>, x: Item)
    requires Shrinks(kids) && x.node.Dir?
    ensures |group(x)| <= |QPaths(kids, group, x)| && QPaths(kids, group, x)[..|group(x)|] == group(x)
  {
    var rest := QOrder(kids, kids(x));
    QOrderOne(kids, x);
    GroupsOfStep(group, x, rest);
    FlattenAppend([group(x)], GroupsOf(group, rest));
    assert Flatten([group(x)]) == group(x) + Flatten([]);
  }

  /** The last group the LIFO discipline reports is the start item's own. */
  lemma SPathsEnd(kids: Step, group: Item -> seq<Path>, x: Item)
    requires Shrinks(kids) && x.node.Dir?
    ensures var p := SPaths(kids, group, x);
      |group(x)| <= |p| && p[|p| - |group(x)|..] == group(x)
  {
    var rest := SOrder(kids, Reverse(kids(x)));
    SOrderOne(kids, x);
    GroupsOfStep(group, x, rest);
    ReverseAppend([group(x)], GroupsOf(group, rest));
    assert Reverse([group(x)]) == [group(x)];
    FlattenAppend(Reverse(GroupsOf(group, rest)), [group(x)]);
    assert Flatten([group(x)]) == group(x) + Flatten([]);
  }

  /** A listable item visited from `x` has its whole group reported, by both disciplines. */
  lemma VisitedReported(kids: Step, group: Item -> seq<Path>, x: Item, y: Item, p: Path)
    requires Shrinks(kids)
    requires y in QOrder(kids, [x]) && y.node.Dir? && p in group(y)
    ensures p in QPaths(kids, group, x) && p in SPaths(kids, group, x)
  {
    EmitGroups(group, QOrder(kids, [x]));
    EmitMember(Reported(group), QOrder(kids, [x]), y, p);
    SameReports(kids, group, x);
    assert p in multiset(QPaths(kids, group, x));
  }

  /** An unreadable item visited from `x` is recorded as a failure, by both disciplines. */
  lemma VisitedFailed(kids: Step, x: Item, y: Item)
    requires Shrinks(kids)
    requires y in QOrder(kids, [x]) && !y.node.Dir?
    ensures y.path in FailsOf(QOrder(kids, [x])) && y.path in FailsOf(SOrder(kids, [x]))
  {
    EmitFails(QOrder(kids, [x]));
    EmitMember(Failure(), QOrder(kids, [x]), y, y.path);
    SameReports(kids, (y: Item) => [], x);
    assert y.path in multiset(FailsOf(QOrder(kids, [x])));
  }
}
