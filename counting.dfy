/** Counting over finite sequences, shared by the fitness evaluators and
    the report helpers: occurrences, and the "seen-key" fold that charges
    one unit for every position whose key already appeared earlier. */
module Counting {

  /** Number of occurrences of `x` in `s`. */
  function Count<T(==)>(s: seq<T>, x: T): (n: nat)
    ensures n <= |s|
    ensures n == 0 <==> x !in s
  {
    if s == [] then 0 else (if s[0] == x then 1 else 0) + Count(s[1..], x)
  }

  lemma {:induction false} CountAppend<T>(a: seq<T>, b: seq<T>, x: T)
    ensures Count(a + b, x) == Count(a, x) + Count(b, x)
  {
    if a == [] {
      assert a + b == b;
    } else {
      assert (a + b)[1..] == a[1..] + b;
      CountAppend(a[1..], b, x);
    }
  }

  lemma {:induction false} CountMultiset<T>(s: seq<T>, x: T)
    ensures Count(s, x) == multiset(s)[x]
  {
    if s != [] {
      assert s == [s[0]] + s[1..];
      CountMultiset(s[1..], x);
    }
  }

  /** The set of keys occurring in `keys`. */
  function Distinct<K(==)>(keys: seq<K>): set<K>
  {
    set k | k in keys
  }

  /** The seen-key fold of the source: walk `keys` left to right keeping a
      set of keys already met; every key found in that set costs one. */
  function RepeatsFrom<K(==)>(keys: seq<K>, seen: set<K>): nat
  {
    if keys == [] then 0
    else (if keys[0] in seen then 1 else 0) + RepeatsFrom(keys[1..], seen + {keys[0]})
  }

  function Repeats<K(==)>(keys: seq<K>): nat
  {
    RepeatsFrom(keys, {})
  }

  /** Position `i` repeats a key met at an earlier position. */
  predicate IsRepeatAt<K(==)>(keys: seq<K>, i: nat)
    requires i < |keys|
  {
    keys[i] in keys[..i]
  }

  lemma {:induction false} RepeatsFromDistinct<K>(keys: seq<K>, seen: set<K>)
    ensures RepeatsFrom(keys, seen) + |Distinct(keys) - seen| == |keys|
  {
    if keys == [] {
      assert Distinct(keys) - seen == {};
    } else {
      var k, rest := keys[0], keys[1..];
      RepeatsFromDistinct(rest, seen + {k});
      assert Distinct(keys) == {k} + Distinct(rest) by {
        assert keys == [k] + rest;
      }
      if k in seen {
        assert Distinct(keys) - seen == Distinct(rest) - (seen + {k});
      } else {
        assert Distinct(keys) - seen == {k} + (Distinct(rest) - (seen + {k}));
        assert k !in Distinct(rest) - (seen + {k});
      }
    }
  }

  /** The seen-key fold charges exactly the surplus of positions over
      distinct keys. */
  lemma {:induction false} RepeatsIsSurplus<K>(keys: seq<K>)
    ensures Repeats(keys) == |keys| - |Distinct(keys)|
    ensures |Distinct(keys)| <= |keys|
  {
    RepeatsFromDistinct(keys, {});
    assert Distinct(keys) - {} == Distinct(keys);
  }

  /** Repeats over a longer prefix: the fold charges position `i` exactly
      when it is a repeat. */
  lemma {:induction false} RepeatsSnoc<K>(keys: seq<K>, i: nat)
    requires i < |keys|
    ensures Repeats(keys[..i + 1]) == Repeats(keys[..i]) + (if IsRepeatAt(keys, i) then 1 else 0)
  {
    var a, b := keys[..i], keys[..i + 1];
    RepeatsIsSurplus(a);
    RepeatsIsSurplus(b);
    assert b == a + [keys[i]];
    assert Distinct(b) == Distinct(a) + {keys[i]};
    if keys[i] in a {
      assert Distinct(b) == Distinct(a);
    } else {
      assert keys[i] !in Distinct(a);
    }
  }

  /** Index of the first occurrence of `x` (Python's `list.index`). */
  function FirstIndex<K(==)>(keys: seq<K>, x: K): (r: nat)
    requires x in keys
    ensures r < |keys| && keys[r] == x && x !in keys[..r]
  {
    if keys[0] == x then 0
    else
      var r := 1 + FirstIndex(keys[1..], x);
      assert keys[..r] == [keys[0]] + keys[1..][..r - 1];
      r
  }

  /** Number of positions satisfying `p`. */
  function CountIf<T>(s: seq<T>, p: T -> bool): (n: nat)
    ensures n <= |s|
  {
    if s == [] then 0 else (if p(s[0]) then 1 else 0) + CountIf(s[1..], p)
  }

  lemma {:induction false} CountIfAppend<T>(a: seq<T>, b: seq<T>, p: T -> bool)
    ensures CountIf(a + b, p) == CountIf(a, p) + CountIf(b, p)
  {
    if a == [] {
      assert a + b == b;
    } else {
      assert (a + b)[1..] == a[1..] + b;
      CountIfAppend(a[1..], b, p);
    }
  }

  function Sum(s: seq<int>): int
  {
    if s == [] then 0 else s[0] + Sum(s[1..])
  }

  function SumReal(s: seq<real>): real
  {
    if s == [] then 0.0 else s[0] + SumReal(s[1..])
  }

  /** `n` copies of `x`. */
  function Repeat<T>(x: T, n: nat): (r: seq<T>)
    ensures |r| == n && forall i :: 0 <= i < n ==> r[i] == x
  {
    if n == 0 then [] else [x] + Repeat(x, n - 1)
  }

  lemma {:induction false} CountRepeat<T>(x: T, n: nat, y: T)
    ensures Count(Repeat(x, n), y) == if x == y then n else 0
  {
    if n > 0 {
      assert Repeat(x, n)[1..] == Repeat(x, n - 1);
      CountRepeat(x, n - 1, y);
    }
  }

  function Max(a: int, b: int): int { if a >= b then a else b }
  function Min(a: int, b: int): int { if a <= b then a else b }

  /** Replacing one element moves one occurrence from the old value to the
      new one. */
  lemma {:induction false} CountUpdate<T>(s: seq<T>, i: nat, v: T, x: T)
    requires i < |s|
    ensures Count(s[i := v], x) == Count(s, x) - (if s[i] == x then 1 else 0) + (if v == x then 1 else 0)
  {
    if i == 0 {
      assert s[i := v][1..] == s[1..];
    } else {
      assert s[i := v][1..] == s[1..][i - 1 := v];
      CountUpdate(s[1..], i - 1, v, x);
    }
  }

  lemma {:induction false} CountSlice<T>(s: seq<T>, x: T, i: nat, j: nat)
    requires i <= j <= |s|
    ensures Count(s, x) == Count(s[..i], x) + Count(s[i..j], x) + Count(s[j..], x)
  {
    assert s == s[..i] + s[i..j] + s[j..];
    CountAppend(s[..i] + s[i..j], s[j..], x);
    CountAppend(s[..i], s[i..j], x);
  }

  /** Index of the last occurrence of `x`. */
  function LastIndex<K(==)>(keys: seq<K>, x: K): (r: nat)
    requires x in keys
    ensures r < |keys| && keys[r] == x && x !in keys[r + 1..]
  {
    var n := |keys|;
    if keys[n - 1] == x then n - 1
    else
      var r := LastIndex(keys[..n - 1], x);
      assert keys[r + 1..] == keys[..n - 1][r + 1..] + [keys[n - 1]];
      r
  }

  predicate NoDuplicates<K(==)>(s: seq<K>)
  {
    forall i, j :: 0 <= i < j < |s| ==> s[i] != s[j]
  }

  /** The keys of `s` in order of first occurrence, as a dictionary built
      by walking `s` lists them. */
  function Dedup<K(==)>(s: seq<K>): (r: seq<K>)
    ensures NoDuplicates(r)
    ensures Distinct(r) == Distinct(s)
    ensures |r| <= |s|
  {
    if s == [] then []
    else
      var r := Dedup(s[..|s| - 1]);
      assert Distinct(s) == Distinct(s[..|s| - 1]) + {s[|s| - 1]} by {
        assert s == s[..|s| - 1] + [s[|s| - 1]];
      }
      if s[|s| - 1] in r then r else r + [s[|s| - 1]]
  }

  lemma {:induction false} SubsetSize<T>(a: set<T>, b: set<T>)
    requires a <= b
    ensures |a| <= |b|
    decreases a
  {
    if a != {} {
      var x :| x in a;
      SubsetSize(a - {x}, b - {x});
    }
  }

  /** A sequence without duplicates has as many distinct elements as
      positions. */
  lemma {:induction false} DedupLength<K>(s: seq<K>)
    requires NoDuplicates(s)
    ensures |Distinct(s)| == |s|
  {
    if s != [] {
      var t := s[..|s| - 1];
      assert NoDuplicates(t);
      DedupLength(t);
      assert s == t + [s[|s| - 1]];
      assert Distinct(s) == Distinct(t) + {s[|s| - 1]};
      assert s[|s| - 1] !in Distinct(t);
    }
  }

  /** A sequence with a duplicate has fewer distinct elements than
      positions. */
  lemma {:induction false} DuplicatesShrink<K>(s: seq<K>)
    requires !NoDuplicates(s)
    ensures |Distinct(s)| < |s|
  {
    var i, j :| 0 <= i < j < |s| && s[i] == s[j];
    var t := s[..j] + s[j + 1..];
    assert Distinct(s) == Distinct(t) by {
      assert s == s[..j] + [s[j]] + s[j + 1..];
      assert s[j] == t[i];
    }
    RepeatsIsSurplus(t);
  }
}
