/** Sequence helpers for the JavaScript array idioms the notifier relies on:
    de-duplication through a `Set`, and `filter`. */
module Seqs {

  /** No element occurs twice. */
  ghost predicate NoDup<T>(s: seq<T>)
  {
    forall i, j :: 0 <= i < j < |s| ==> s[i] != s[j]
  }

  lemma NoDupPrefix<T(!new)>(s: seq<T>, n: nat)
    requires NoDup(s) && n <= |s|
    ensures NoDup(s[..n])
  {
    assert forall i :: 0 <= i < n ==> s[..n][i] == s[i];
  }

  /** Number of occurrences of `x` in `s`. */
  function Count<T(==,!new)>(s: seq<T>, x: T): nat
  {
    if |s| == 0 then 0 else (if s[0] == x then 1 else 0) + Count(s[1..], x)
  }

  lemma NoDupCons<T(!new)>(x: T, s: seq<T>)
    ensures NoDup([x] + s) <==> x !in s && NoDup(s)
  {
    var t := [x] + s;
    if x !in s && NoDup(s) {
      forall i, j | 0 <= i < j < |t| ensures t[i] != t[j] {
        if i == 0 { assert t[j] == s[j - 1]; }
        else { assert t[i] == s[i - 1] && t[j] == s[j - 1]; }
      }
    }
    if NoDup(t) {
      forall i, j | 0 <= i < j < |s| ensures s[i] != s[j] {
        assert s[i] == t[i + 1] && s[j] == t[j + 1];
      }
      forall k | 0 <= k < |s| ensures s[k] != x {
        assert s[k] == t[k + 1] && x == t[0];
        assert t[0] != t[k + 1];
      }
    }
  }

  lemma NoDupSnoc<T(!new)>(s: seq<T>, x: T)
    requires NoDup(s) && x !in s
    ensures NoDup(s + [x])
  {
    var t := s + [x];
    forall i, j | 0 <= i < j < |t| ensures t[i] != t[j] {
      if j == |s| { assert t[i] == s[i]; }
      else { assert t[i] == s[i] && t[j] == s[j]; }
    }
  }

  /** A duplicate-free sequence holds each of its elements exactly once. */
  lemma {:induction false} NoDupCountOne<T(!new)>(s: seq<T>, x: T)
    requires NoDup(s) && x in s
    ensures Count(s, x) == 1
  {
    NoDupCons(s[0], s[1..]);
    assert [s[0]] + s[1..] == s;
    if s[0] == x {
      NoDupCountZero(s[1..], x);
    } else {
      NoDupCountOne(s[1..], x);
    }
  }

  lemma {:induction false} NoDupCountZero<T(!new)>(s: seq<T>, x: T)
    requires x !in s
    ensures Count(s, x) == 0
  {
    if |s| > 0 {
      assert s[0] != x;
      assert forall y :: y in s[1..] ==> y in s;
      NoDupCountZero(s[1..], x);
    }
  }

  /** Adds the elements of `xs`, in order, to the insertion-ordered set `acc`:
      an element already present keeps its place, a new one goes last. This
      is what `new Set(...)` does with each element it is given. */
  function InsertAll<T(==,!new)>(acc: seq<T>, xs: seq<T>): (r: seq<T>)
    ensures NoDup(acc) ==> NoDup(r)
    ensures forall x :: x in r <==> x in acc || x in xs
    ensures |acc| <= |r| && r[..|acc|] == acc
    decreases |xs|
  {
    if |xs| == 0 then acc
    else
      var acc' := if xs[0] in acc then acc else acc + [xs[0]];
      assert NoDup(acc) ==> NoDup(acc') by {
        if NoDup(acc) && xs[0] !in acc { NoDupSnoc(acc, xs[0]); }
      }
      assert forall x :: x in xs ==> x == xs[0] || x in xs[1..];
      InsertAll(acc', xs[1..])
  }

  /** `[...new Set(s)]`: the elements of `s`, each once, at its first occurrence. */
  function Dedup<T(==,!new)>(s: seq<T>): (r: seq<T>)
    ensures NoDup(r)
    ensures forall x :: x in r <==> x in s
  {
    InsertAll([], s)
  }

  lemma {:induction false} InsertAllAppend<T(!new)>(acc: seq<T>, a: seq<T>, b: seq<T>)
    ensures InsertAll(acc, a + b) == InsertAll(InsertAll(acc, a), b)
    decreases |a|
  {
    if |a| == 0 {
      assert a + b == b;
    } else {
      assert (a + b)[0] == a[0];
      assert (a + b)[1..] == a[1..] + b;
      var acc' := if a[0] in acc then acc else acc + [a[0]];
      InsertAllAppend(acc', a[1..], b);
    }
  }

  /** Inserting elements that are all present already changes nothing. */
  lemma {:induction false} InsertAllPresent<T(!new)>(acc: seq<T>, xs: seq<T>)
    requires forall x :: x in xs ==> x in acc
    ensures InsertAll(acc, xs) == acc
    decreases |xs|
  {
    if |xs| > 0 {
      assert xs[0] in acc;
      assert forall x :: x in xs[1..] ==> x in xs;
      InsertAllPresent(acc, xs[1..]);
    }
  }

  /** Inserting new, distinct elements appends them in order. */
  lemma {:induction false} InsertAllFresh<T(!new)>(acc: seq<T>, xs: seq<T>)
    requires NoDup(acc + xs)
    ensures InsertAll(acc, xs) == acc + xs
    decreases |xs|
  {
    if |xs| > 0 {
      var t := acc + xs;
      assert t[|acc|] == xs[0];
      assert xs[0] !in acc by {
        forall i | 0 <= i < |acc| ensures acc[i] != xs[0] { assert t[i] == acc[i]; }
      }
      assert (acc + [xs[0]]) + xs[1..] == t;
      InsertAllFresh(acc + [xs[0]], xs[1..]);
    }
  }

  /** A duplicate-free sequence is its own de-duplication. */
  lemma DedupNoDup<T(!new)>(s: seq<T>)
    requires NoDup(s)
    ensures Dedup(s) == s
  {
    assert [] + s == s;
    InsertAllFresh([], s);
  }

  /** De-duplicating `a ++ b` keeps a duplicate-free `a` as its prefix and
      adds exactly the elements of `b` that `a` lacks. */
  lemma DedupAppend<T(!new)>(a: seq<T>, b: seq<T>)
    requires NoDup(a)
    ensures Dedup(a + b) == InsertAll(a, b)
  {
    InsertAllAppend([], a, b);
    DedupNoDup(a);
  }

  /** Set union is idempotent: a second union with the same elements is a no-op. */
  lemma UnionIdempotent<T(!new)>(a: seq<T>, u: seq<T>)
    ensures Dedup(Dedup(a + u) + u) == Dedup(a + u)
  {
    var d := Dedup(a + u);
    DedupAppend(d, u);
    InsertAllPresent(d, u);
  }

  /** `s.filter(item => item !== x)`. */
  function Without<T(==,!new)>(s: seq<T>, x: T): (r: seq<T>)
    ensures x !in r
    ensures forall y :: y != x ==> (y in r <==> y in s)
    ensures x !in s ==> r == s
    ensures NoDup(s) ==> NoDup(r)
  {
    if |s| == 0 then []
    else
      var rest := Without(s[1..], x);
      assert forall y :: y in s <==> y == s[0] || y in s[1..];
      assert NoDup(s) ==> NoDup(if s[0] == x then rest else [s[0]] + rest) by {
        if NoDup(s) {
          assert s == [s[0]] + s[1..];
          NoDupCons(s[0], s[1..]);
          if s[0] != x { NoDupCons(s[0], rest); }
        }
      }
      assert x !in s ==> [s[0]] + s[1..] == s;
      if s[0] == x then rest else [s[0]] + rest
  }

  /** The elements of `s` that are not in `drop`, in their order in `s`. */
  function Keep<T(==,!new)>(s: seq<T>, drop: seq<T>): (r: seq<T>)
    ensures forall y :: y in r <==> y in s && y !in drop
    ensures NoDup(s) ==> NoDup(r)
  {
    if |s| == 0 then []
    else
      var rest := Keep(s[1..], drop);
      assert forall y :: y in s <==> y == s[0] || y in s[1..];
      assert NoDup(s) ==> NoDup(if s[0] in drop then rest else [s[0]] + rest) by {
        if NoDup(s) {
          assert s == [s[0]] + s[1..];
          NoDupCons(s[0], s[1..]);
          if s[0] !in drop { NoDupCons(s[0], rest); }
        }
      }
      (if s[0] in drop then [] else [s[0]]) + rest
  }

  /** Filtering out one more element after `Keep` is `Keep` with a longer drop list. */
  lemma {:induction false} WithoutKeep<T(!new)>(s: seq<T>, drop: seq<T>, x: T)
    ensures Without(Keep(s, drop), x) == Keep(s, drop + [x])
  {
    if |s| > 0 {
      WithoutKeep(s[1..], drop, x);
      var head := if s[0] in drop then [] else [s[0]];
      assert Keep(s, drop) == head + Keep(s[1..], drop);
      WithoutAppend(head, Keep(s[1..], drop), x);
    }
  }

  lemma {:induction false} WithoutAppend<T(!new)>(a: seq<T>, b: seq<T>, x: T)
    ensures Without(a + b, x) == Without(a, x) + Without(b, x)
  {
    if |a| > 0 {
      assert (a + b)[0] == a[0] && (a + b)[1..] == a[1..] + b;
      WithoutAppend(a[1..], b, x);
    } else {
      assert a + b == b;
    }
  }

  lemma KeepNothing<T(!new)>(s: seq<T>)
    ensures Keep(s, []) == s
  {
    if |s| > 0 {
      KeepNothing(s[1..]);
      assert [s[0]] + s[1..] == s;
    }
  }
}
