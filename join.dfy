/**
 * `join(...parts)`: like `path.join`, except that the join restarts at the
 * last absolute part, so everything before it is dropped.
 */
module Join {
  import opened NodePath

  /** Index of the last absolute part of `parts`, or 0 when no part is absolute. */
  function LastAbsolute(api: PathApi, parts: seq<string>): (r: nat)
    ensures parts == [] ==> r == 0
    ensures parts != [] ==> r < |parts|
    ensures r > 0 ==> api.isAbsolute(parts[r])
    ensures forall j :: r < j < |parts| ==> !api.isAbsolute(parts[j])
  {
    if parts == [] then 0
    else if api.isAbsolute(parts[|parts| - 1]) then |parts| - 1
    else LastAbsolute(api, parts[..|parts| - 1])
  }

  /** What `join(...parts)` returns. */
  function JoinSpec(api: PathApi, parts: seq<string>): string
  {
    api.join(parts[LastAbsolute(api, parts)..])
  }

  /** The `forEach` that records the last absolute index, then one `path.join`. */
  method Join(api: PathApi, parts: seq<string>) returns (joined: string)
    ensures joined == JoinSpec(api, parts)
  {
    var start := 0;
    for i := 0 to |parts|
      invariant start == LastAbsolute(api, parts[..i])
    {
      assert parts[..i + 1][..i] == parts[..i];
      if api.isAbsolute(parts[i]) {
        start := i;
      }
    }
    assert parts[..|parts|] == parts;
    joined := api.join(parts[start..]);
  }

  /** An absolute part with no absolute part after it is where the join starts. */
  lemma LastAbsoluteIs(api: PathApi, parts: seq<string>, k: nat)
    requires k < |parts| && api.isAbsolute(parts[k])
    requires forall j :: k < j < |parts| ==> !api.isAbsolute(parts[j])
    ensures LastAbsolute(api, parts) == k
    ensures JoinSpec(api, parts) == api.join(parts[k..])
  {
  }

  /** With no absolute part the result is plain `path.join(...parts)`. */
  lemma JoinWithoutAbsolute(api: PathApi, parts: seq<string>)
    requires forall j :: 0 <= j < |parts| ==> !api.isAbsolute(parts[j])
    ensures JoinSpec(api, parts) == api.join(parts)
  {
    assert parts[0..] == parts;
  }

  /** A single part is joined on its own, absolute or not. */
  lemma JoinSingle(api: PathApi, p: string)
    ensures JoinSpec(api, [p]) == api.join([p])
  {
    assert [p][0..] == [p];
  }

  /** An absolute part `q` makes every part before it irrelevant. */
  lemma JoinResets(api: PathApi, before: seq<string>, q: string, rest: seq<string>)
    requires api.isAbsolute(q)
    ensures JoinSpec(api, before + [q] + rest) == JoinSpec(api, [q] + rest)
  {
    var tail := [q] + rest;
    var whole := before + tail;
    assert before + [q] + rest == whole;
    var m := LastAbsolute(api, tail);
    assert api.isAbsolute(tail[m]);
    forall j | |before| + m < j < |whole|
      ensures !api.isAbsolute(whole[j])
    {
      assert whole[j] == tail[j - |before|];
    }
    assert whole[|before| + m] == tail[m];
    LastAbsoluteIs(api, whole, |before| + m);
    assert whole[|before| + m..] == tail[m..];
  }
}
