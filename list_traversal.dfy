/**
 * `breadth_first` and `depth_first` of lib/list.js as the work-list
 * loops they are: `stack` starts as `[ self.path ]`, each round `shift`s
 * one path off it and reads it. The asynchronous `process.nextTick`
 * rounds are the iterations of one loop. Each method is proved to deliver
 * what the matching specification function of ListScan describes.
 */
module ListTraversal {
  import opened Js
  import opened FsTree
  import opened NodePath
  import opened ListSteps
  import opened ListOrders
  import opened ListScan
  import opened Seqs

  /** `forEach(name => xs.push(name))`, for the work-list and for `self.paths` alike. */
  method PushAll<T>(stack: seq<T>, items: seq<T>) returns (s: seq<T>)
    ensures s == stack + items
  {
    s := stack;
    for i := 0 to |items|
      invariant s == stack + items[..i]
    {
      s := s + [items[i]];
    }
    assert items[..|items|] == items;
  }

  /** `forEach(name => stack.unshift(name))`: the items land at the front, last one first. */
  method UnshiftAll(stack: seq<Item>, items: seq<Item>) returns (s: seq<Item>)
    ensures s == Reverse(items) + stack
  {
    s := stack;
    for i := 0 to |items|
      invariant s == Reverse(items[..i]) + stack
    {
      assert items[..i + 1] == items[..i] + [items[i]];
      ReverseAppend(items[..i], [items[i]]);
      assert Reverse([items[i]]) == [items[i]];
      s := [items[i]] + s;
    }
    assert items[..|items|] == items;
  }

  /** `result.forEach(names => names.forEach(name => self.paths.push(name)))`. */
  method FlattenInto(paths: seq<Path>, result: seq<seq<Path>>) returns (p: seq<Path>)
    ensures p == paths + Flatten(result)
  {
    p := paths;
    for i := 0 to |result|
      invariant p == paths + Flatten(result[..i])
    {
      p := PushAll(p, result[i]);
      assert result[..i + 1] == result[..i] + [result[i]];
      FlattenAppend(result[..i], [result[i]]);
      assert Flatten([result[i]]) == result[i] + Flatten([]);
    }
    assert result[..|result|] == result;
  }

  method BreadthFirst(req: ListRequest, api: PathApi, root: Node) returns (r: Listing)
    ensures r == BreadthFirstSpec(req, api, root)
  {
    KidsOfShrinks(req, api);
    var kids, group := KidsOf(req, api), GroupOf(req, api);
    var stack := [RootItem(req, root)];
    var paths: seq<Path> := [];
    var fails: seq<Path> := [];
    ghost var groups: seq<seq<Path>> := [];
    ghost var goal := ScanFrom(req.path, group, groups, fails, QOrder(kids, stack));
    while stack != []
      invariant paths == Flatten(groups)
      invariant ScanFrom(req.path, group, groups, fails, QOrder(kids, stack)) == goal
      decreases ISize(stack)
    {
      var first := stack[0];
      var rest := stack[1..];
      assert stack == [first] + rest;
      QOrderStep(kids, first, rest);
      ScanFromStep(req.path, group, groups, fails, first, QOrder(kids, rest + kids(first)));
      Shrink(kids, first);
      ISizeAppend(rest, kids(first));
      ReadStep(req, api, first);
      stack := rest;
      match ReadDir(first.node) {
        case Err(e) =>
          if first.path == req.path {
            return OnAbort(req, fails, e);
          }
          fails := fails + [first.path];
          assert rest + [] == rest;
        case Ok(_) =>
          var names := SortEntries(req, first.node.entries);
          stack := PushAll(stack, Descend(req, api, first.path, names));
          var matches := Matches(req, api, first.path, names);
          paths := PushAll(paths, matches);
          FlattenAppend(groups, [matches]);
          assert Flatten([matches]) == matches + Flatten([]);
          groups := groups + [matches];
      }
    }
    r := Listed(paths, fails);
  }

  method DepthFirst(req: ListRequest, api: PathApi, root: Node) returns (r: Listing)
    ensures r == DepthFirstSpec(req, api, root)
  {
    KidsOfShrinks(req, api);
    var kids, group := KidsOf(req, api), GroupOf(req, api);
    var stack := [RootItem(req, root)];
    var fails: seq<Path> := [];
    var result: seq<seq<Path>> := [];
    ghost var groups: seq<seq<Path>> := [];
    ghost var goal := ScanFrom(req.path, group, groups, fails, SOrder(kids, stack));
    while stack != []
      invariant result == Reverse(groups)
      invariant ScanFrom(req.path, group, groups, fails, SOrder(kids, stack)) == goal
      decreases ISize(stack)
    {
      var first := stack[0];
      var rest := stack[1..];
      assert stack == [first] + rest;
      SOrderStep(kids, first, rest);
      ScanFromStep(req.path, group, groups, fails, first, SOrder(kids, Reverse(kids(first)) + rest));
      Shrink(kids, first);
      ISizeReverse(kids(first));
      ISizeAppend(Reverse(kids(first)), rest);
      ReadStep(req, api, first);
      stack := rest;
      match ReadDir(first.node) {
        case Err(e) =>
          if first.path == req.path {
            return OnAbort(req, fails, e);
          }
          fails := fails + [first.path];
          assert Reverse<Item>([]) + rest == rest;
        case Ok(_) =>
          var names := SortEntries(req, first.node.entries);
          stack := UnshiftAll(stack, Descend(req, api, first.path, names));
          var matches := Matches(req, api, first.path, names);
          ReverseAppend(groups, [matches]);
          assert Reverse([matches]) == [matches];
          result := [matches] + result;
          groups := groups + [matches];
      }
    }
    var paths := FlattenInto([], result);
    assert [] + Flatten(result) == Flatten(result);
    r := Listed(paths, fails);
  }
}
