/**
 * The sorters exported by lib/list.js and the ordering `names.sort(sorter)`
 * applies. JavaScript compares strings code unit by code unit; the model
 * compares Dafny characters the same way.
 */
module Sorters {

  /** A comparator as `Array.prototype.sort` takes it: negative means "a first". */
  type Comparator = (string, string) -> int

  /** JavaScript's `a < b` on strings: lexicographic, a proper prefix first. */
  predicate Less(a: string, b: string)
  {
    if a == [] then b != []
    else if b == [] then false
    else a[0] < b[0] || (a[0] == b[0] && Less(a[1..], b[1..]))
  }

  /** `sorter.natural`. */
  function Natural(a: string, b: string): int
  {
    if Less(a, b) then -1 else if Less(b, a) then 1 else 0
  }

  /** `sorter.natural_ignore_case`; `lower` stands for `String.prototype.toLowerCase`. */
  function NaturalIgnoreCase(lower: string -> string, a: string, b: string): int
  {
    Natural(lower(a), lower(b))
  }

  /**
   * A comparator that `Array.prototype.sort` can rely on: swapping the
   * arguments flips the sign, and "not after" is transitive.
   */
  ghost predicate Consistent(cmp: Comparator)
  {
    && (forall a, b :: cmp(a, b) < 0 <==> cmp(b, a) > 0)
    && (forall a, b, c :: cmp(a, b) <= 0 && cmp(b, c) <= 0 ==> cmp(a, c) <= 0)
  }

  lemma {:induction false} LessIrreflexive(a: string)
    ensures !Less(a, a)
  {
    if a != [] {
      LessIrreflexive(a[1..]);
    }
  }

  lemma {:induction false} LessAsymmetric(a: string, b: string)
    ensures !(Less(a, b) && Less(b, a))
  {
    if a != [] && b != [] {
      LessAsymmetric(a[1..], b[1..]);
    }
  }

  lemma {:induction false} LessTotal(a: string, b: string)
    ensures a == b || Less(a, b) || Less(b, a)
  {
    if a != [] && b != [] && a[0] == b[0] {
      LessTotal(a[1..], b[1..]);
      if a[1..] == b[1..] {
        assert a == [a[0]] + a[1..] && b == [b[0]] + b[1..];
      }
    }
  }

  lemma {:induction false} LessTransitive(a: string, b: string, c: string)
    requires Less(a, b) && Less(b, c)
    ensures Less(a, c)
  {
    if a != [] && a[0] == b[0] && b[0] == c[0] {
      LessTransitive(a[1..], b[1..], c[1..]);
    }
  }

  /** `natural(a, a)` is 0, and 0 only for equal strings. */
  lemma NaturalZeroIffEqual(a: string, b: string)
    ensures Natural(a, b) == 0 <==> a == b
  {
    LessIrreflexive(a);
    LessTotal(a, b);
  }

  /** Swapping the arguments of `natural` negates the result. */
  lemma NaturalAntisymmetric(a: string, b: string)
    ensures Natural(a, b) == -Natural(b, a)
  {
    LessAsymmetric(a, b);
  }

  /** `natural` is a comparator a sort can rely on. */
  lemma NaturalConsistent()
    ensures Consistent(Natural)
  {
    forall a, b
      ensures Natural(a, b) < 0 <==> Natural(b, a) > 0
    {
      LessAsymmetric(a, b);
    }
    forall a, b, c | Natural(a, b) <= 0 && Natural(b, c) <= 0
      ensures Natural(a, c) <= 0
    {
      LessAsymmetric(a, b);
      LessAsymmetric(b, c);
      LessTotal(a, b);
      LessTotal(b, c);
      if a != b && b != c {
        LessTransitive(a, b, c);
      }
      LessAsymmetric(a, c);
    }
  }

  /** `natural_ignore_case` orders by the lower-cased strings: 0 exactly when they lower-case alike. */
  lemma NaturalIgnoreCaseZeroIff(lower: string -> string, a: string, b: string)
    ensures NaturalIgnoreCase(lower, a, b) == 0 <==> lower(a) == lower(b)
    ensures NaturalIgnoreCase(lower, a, b) == -NaturalIgnoreCase(lower, b, a)
  {
    NaturalZeroIffEqual(lower(a), lower(b));
    NaturalAntisymmetric(lower(a), lower(b));
  }

  /** `natural_ignore_case` is a comparator a sort can rely on, whatever the lower-casing does. */
  lemma NaturalIgnoreCaseConsistent(lower: string -> string)
    ensures Consistent((a, b) => NaturalIgnoreCase(lower, a, b))
  {
    NaturalConsistent();
    var cmp := (a, b) => NaturalIgnoreCase(lower, a, b);
    forall a, b, c | cmp(a, b) <= 0 && cmp(b, c) <= 0
      ensures cmp(a, c) <= 0
    {
      assert Natural(lower(a), lower(b)) <= 0 && Natural(lower(b), lower(c)) <= 0;
    }
    forall a, b
      ensures cmp(a, b) < 0 <==> cmp(b, a) > 0
    {
      assert Natural(lower(a), lower(b)) < 0 <==> Natural(lower(b), lower(a)) > 0;
    }
  }

  /**
   * Inserts `x` in front of the first element it does not come after.
   * Inserting the input's elements back to front this way sorts stably
   * (`SortByStable`), as `Array.prototype.sort` does.
   */
  function Insert<T>(cmp: Comparator, key: T -> string, x: T, s: seq<T>): (r: seq<T>)
    ensures multiset(r) == multiset(s) + multiset{x}
  {
    if s == [] || cmp(key(x), key(s[0])) <= 0 then [x] + s
    else
      assert s == [s[0]] + s[1..];
      [s[0]] + Insert(cmp, key, x, s[1..])
  }

  /** `arr.sort(cmp)` on elements compared by `key`. */
  function SortBy<T>(cmp: Comparator, key: T -> string, s: seq<T>): (r: seq<T>)
    ensures multiset(r) == multiset(s)
  {
    if s == [] then []
    else
      assert s == [s[0]] + s[1..];
      Insert(cmp, key, s[0], SortBy(cmp, key, s[1..]))
  }

  ghost predicate SortedBy<T>(cmp: Comparator, key: T -> string, s: seq<T>)
  {
    forall i, j :: 0 <= i < j < |s| ==> cmp(key(s[i]), key(s[j])) <= 0
  }

  lemma InsertMembers<T>(cmp: Comparator, key: T -> string, x: T, s: seq<T>, y: T)
    requires y in Insert(cmp, key, x, s)
    ensures y == x || y in s
  {
    assert y in multiset(Insert(cmp, key, x, s));
  }

  lemma ConsistentFacts(cmp: Comparator, a: string, b: string, c: string)
    requires Consistent(cmp)
    ensures cmp(a, b) > 0 ==> cmp(b, a) <= 0
    ensures cmp(a, b) <= 0 && cmp(b, c) <= 0 ==> cmp(a, c) <= 0
  {
  }

  /** `x` before every element of `s`: the front case of `Insert`. */
  lemma PrependSorted<T>(cmp: Comparator, key: T -> string, x: T, s: seq<T>)
    requires forall y | y in s :: cmp(key(x), key(y)) <= 0
    requires SortedBy(cmp, key, s)
    ensures SortedBy(cmp, key, [x] + s)
  {
    var r := [x] + s;
    forall i, j | 0 <= i < j < |r|
      ensures cmp(key(r[i]), key(r[j])) <= 0
    {
      assert r[j] == s[j - 1];
      if i > 0 {
        assert r[i] == s[i - 1];
      }
    }
  }

  lemma {:induction false} InsertSorted<T>(cmp: Comparator, key: T -> string, x: T, s: seq<T>)
    requires Consistent(cmp) && SortedBy(cmp, key, s)
    ensures SortedBy(cmp, key, Insert(cmp, key, x, s))
  {
    if s == [] {
    } else if cmp(key(x), key(s[0])) <= 0 {
      forall y | y in s
        ensures cmp(key(x), key(y)) <= 0
      {
        var k :| 0 <= k < |s| && s[k] == y;
        ConsistentFacts(cmp, key(x), key(s[0]), key(y));
      }
      PrependSorted(cmp, key, x, s);
    } else {
      var tail := Insert(cmp, key, x, s[1..]);
      InsertSorted(cmp, key, x, s[1..]);
      ConsistentFacts(cmp, key(x), key(s[0]), key(s[0]));
      forall y | y in tail
        ensures cmp(key(s[0]), key(y)) <= 0
      {
        InsertMembers(cmp, key, x, s[1..], y);
        if y != x {
          var k :| 0 <= k < |s[1..]| && s[1..][k] == y;
          assert s[k + 1] == y;
        }
      }
      PrependSorted(cmp, key, s[0], tail);
    }
  }

  /** With a consistent comparator the result of the sort is ordered by it (and `SortBy` is always a permutation). */
  lemma {:induction false} SortBySorted<T>(cmp: Comparator, key: T -> string, s: seq<T>)
    requires Consistent(cmp)
    ensures SortedBy(cmp, key, SortBy(cmp, key, s))
  {
    if s != [] {
      SortBySorted(cmp, key, s[1..]);
      InsertSorted(cmp, key, s[0], SortBy(cmp, key, s[1..]));
    }
  }

  /** The elements of `s` whose key compares equal to `c`, in their order in `s`. */
  function Equivalents<T>(cmp: Comparator, key: T -> string, c: string, s: seq<T>): (r: seq<T>)
  {
    if s == [] then []
    else (if cmp(key(s[0]), c) == 0 then [s[0]] else []) + Equivalents(cmp, key, c, s[1..])
  }

  /** `a` and `b` both equivalent to `c` means `a` does not come after `b`. */
  predicate SameClassNotAfter(cmp: Comparator, a: string, b: string, c: string)
  {
    cmp(a, c) == 0 && cmp(b, c) == 0 ==> cmp(a, b) <= 0
  }

  /** Two keys equivalent to the same key do not come after one another. */
  lemma EquivalentNotAfter(cmp: Comparator, a: string, b: string, c: string)
    requires Consistent(cmp)
    ensures SameClassNotAfter(cmp, a, b, c)
  {
    if cmp(a, c) == 0 && cmp(b, c) == 0 {
      assert cmp(c, b) <= 0;
    }
  }

  /**
   * `Insert` passes over only elements `x` comes after, so it never jumps
   * over an element equivalent to `x`.
   */
  lemma {:induction false} InsertEquivalents<T>(cmp: Comparator, key: T -> string, c: string, x: T, s: seq<T>)
    requires forall a, b :: SameClassNotAfter(cmp, a, b, c)
    ensures Equivalents(cmp, key, c, Insert(cmp, key, x, s)) ==
      (if cmp(key(x), c) == 0 then [x] else []) + Equivalents(cmp, key, c, s)
  {
    var ex := if cmp(key(x), c) == 0 then [x] else [];
    if s == [] || cmp(key(x), key(s[0])) <= 0 {
      assert ([x] + s)[1..] == s;
    } else {
      var tail := Insert(cmp, key, x, s[1..]);
      var e0 := if cmp(key(s[0]), c) == 0 then [s[0]] else [];
      var rest := Equivalents(cmp, key, c, s[1..]);
      assert Insert(cmp, key, x, s) == [s[0]] + tail;
      assert ([s[0]] + tail)[1..] == tail;
      assert Equivalents(cmp, key, c, [s[0]] + tail) == e0 + Equivalents(cmp, key, c, tail);
      InsertEquivalents(cmp, key, c, x, s[1..]);
      assert SameClassNotAfter(cmp, key(x), key(s[0]), c);
      assert ex == [] || e0 == [];
      assert e0 + (ex + rest) == ex + (e0 + rest);
    }
  }

  /**
   * The sort is stable: with a consistent comparator, the elements that
   * compare equal to any one key keep their input order.
   */
  lemma {:induction false} SortByStable<T>(cmp: Comparator, key: T -> string, c: string, s: seq<T>)
    requires Consistent(cmp)
    ensures Equivalents(cmp, key, c, SortBy(cmp, key, s)) == Equivalents(cmp, key, c, s)
  {
    if s != [] {
      SortByStable(cmp, key, c, s[1..]);
      forall a, b
        ensures SameClassNotAfter(cmp, a, b, c)
      {
        EquivalentNotAfter(cmp, a, b, c);
      }
      InsertEquivalents(cmp, key, c, s[0], SortBy(cmp, key, s[1..]));
    }
  }
}
