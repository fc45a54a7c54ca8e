/** Operations on sequences and texts that the components share. */
module Sequences {
  /** First occurrences, in order: `list(dict.fromkeys(s))` and `[...new Set(s)]`. */
  function Dedup<T(==,!new)>(s: seq<T>): (r: seq<T>)
    ensures forall x :: x in r <==> x in s
    ensures forall i, j :: 0 <= i < j < |r| ==> r[i] != r[j]
  {
    if s == [] then []
    else
      var front, last := s[..|s| - 1], s[|s| - 1];
      assert s == front + [last];
      var r := Dedup(front);
      if last in r then r else r + [last]
  }

  /** Where a member stands first. */
  ghost function FirstAt<T>(s: seq<T>, x: T): (i: nat)
    requires x in s
    ensures i < |s| && s[i] == x && forall k :: 0 <= k < i ==> s[k] != x
  {
    if s[0] == x then 0 else 1 + FirstAt(s[1..], x)
  }

  lemma FirstInFront<T>(front: seq<T>, last: T, x: T)
    requires x in front
    ensures FirstAt(front + [last], x) == FirstAt(front, x)
    ensures last !in front ==> FirstAt(front, x) < FirstAt(front + [last], last) == |front|
  {
    var i := FirstAt(front, x);
    assert (front + [last])[i] == x && (front + [last])[|front|] == last;
  }

  /** What is kept stands in the order of first occurrences. */
  lemma {:induction false} DedupKeepsOrder<T(!new)>(s: seq<T>, i: nat, j: nat)
    requires i < j < |Dedup(s)|
    ensures FirstAt(s, Dedup(s)[i]) < FirstAt(s, Dedup(s)[j])
  {
    var front, last := s[..|s| - 1], s[|s| - 1];
    assert s == front + [last];
    var r := Dedup(front);
    FirstInFront(front, last, r[i]);
    if j < |r| {
      FirstInFront(front, last, r[j]);
      DedupKeepsOrder(front, i, j);
    }
  }

  /** Nothing changes when members that are already there come again. */
  lemma {:induction false} DedupAbsorbs<T(!new)>(s: seq<T>, again: seq<T>)
    requires forall x :: x in again ==> x in s
    ensures Dedup(s + again) == Dedup(s)
    decreases |again|
  {
    if again == [] {
      assert s + again == s;
    } else {
      var front := again[..|again| - 1];
      DedupAbsorbs(s, front);
      var t := s + again;
      assert t[..|t| - 1] == s + front && t[|t| - 1] == again[|again| - 1];
    }
  }

  lemma {:induction false} DedupOfDistinct<T(!new)>(s: seq<T>)
    requires forall i, j :: 0 <= i < j < |s| ==> s[i] != s[j]
    ensures Dedup(s) == s
  {
    if s != [] {
      DedupOfDistinct(s[..|s| - 1]);
      assert s == s[..|s| - 1] + [s[|s| - 1]];
    }
  }

  /** `s.filter(p)` */
  function Filter<T(!new)>(p: T -> bool, s: seq<T>): (r: seq<T>)
    ensures forall x :: x in r <==> x in s && p(x)
    ensures |r| <= |s|
  {
    if s == [] then []
    else if p(s[0]) then [s[0]] + Filter(p, s[1..])
    else Filter(p, s[1..])
  }

  /** Filtering counts what it keeps as often as before. */
  lemma {:induction false} FilterCounts<T(!new)>(p: T -> bool, s: seq<T>, x: T)
    ensures multiset(Filter(p, s))[x] == if p(x) then multiset(s)[x] else 0
  {
    if s != [] {
      assert s == [s[0]] + s[1..];
      FilterCounts(p, s[1..], x);
    }
  }

  lemma HeadIsMember<T>(s: seq<T>)
    ensures s == [] || s[0] in s
  {
  }

  lemma Assoc<T>(a: seq<T>, b: seq<T>, c: seq<T>)
    ensures a + (b + c) == (a + b) + c
  {
  }

  function Min(a: int, b: int): int { if a <= b then a else b }

  function Max(a: int, b: int): int { if a <= b then b else a }

  /** `s.slice(from, to)`: negative positions count from the end, all are clamped. */
  function JsSlice(s: string, from: int, to: int): string {
    var a := if from < 0 then Max(0, |s| + from) else Min(from, |s|);
    var b := if to < 0 then Max(0, |s| + to) else Min(to, |s|);
    if a < b then s[a..b] else ""
  }
}
