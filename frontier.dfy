/**
 * Sequences as a FIFO frontier with a visited set: popping from the front
 * and skipping what was seen before keeps the first occurrence of each
 * element, in order (crawler.py:104-110).
 */
module Frontier {

  predicate Distinct<T(==)>(s: seq<T>) {
    forall i, j | 0 <= i < j < |s| :: s[i] != s[j]
  }

  /** Position of the first `x` in `s`. */
  function FirstIndex<T(==)>(s: seq<T>, x: T): (i: nat)
    requires x in s
    ensures i < |s| && s[i] == x
    ensures forall k | 0 <= k < i :: s[k] != x
  {
    if s[0] == x then 0 else 1 + FirstIndex(s[1..], x)
  }

  /** The elements of `s` in order of first occurrence, each once: what is
      left of a queue when every element already seen is skipped. */
  function Dedup<T(==)>(s: seq<T>): (r: seq<T>)
    ensures Distinct(r)
    ensures |r| <= |s|
  {
    if s == [] then []
    else
      var init := s[..|s| - 1];
      var x := s[|s| - 1];
      var d := Dedup(init);
      if x in d then d else DistinctSnoc(d, x); d + [x]
  }

  lemma DistinctSnoc<T>(d: seq<T>, x: T)
    requires Distinct(d) && x !in d
    ensures Distinct(d + [x])
  {
  }

  /** Exactly the elements of `s` are kept. */
  lemma {:induction false} DedupMembers<T>(s: seq<T>, x: T)
    ensures x in Dedup(s) <==> x in s
  {
    if s != [] {
      var init := s[..|s| - 1];
      assert s == init + [s[|s| - 1]];
      DedupMembers(init, x);
    }
  }

  /** Popping an element that was seen before changes nothing. */
  lemma DedupSeen<T>(s: seq<T>, x: T)
    requires x in s
    ensures Dedup(s + [x]) == Dedup(s)
  {
    assert (s + [x])[..|s|] == s;
    DedupMembers(s, x);
  }

  /** Popping a new element appends it. */
  lemma DedupNew<T>(s: seq<T>, x: T)
    requires x !in s
    ensures Dedup(s + [x]) == Dedup(s) + [x]
  {
    assert (s + [x])[..|s|] == s;
    DedupMembers(s, x);
  }

  /** What has been kept so far is a prefix of what will be kept later. */
  lemma {:induction false} DedupPrefix<T>(s: seq<T>, e: seq<T>)
    ensures var d, d' := Dedup(s), Dedup(s + e); |d| <= |d'| && d'[..|d|] == d
    decreases |e|
  {
    if e == [] {
      assert s + e == s;
    } else {
      var e' := e[..|e| - 1];
      var x := e[|e| - 1];
      assert s + e == (s + e') + [x];
      DedupPrefix(s, e');
      if x in s + e' {
        DedupSeen(s + e', x);
      } else {
        DedupNew(s + e', x);
      }
    }
  }

  /** The elements of `r` occur in `s`, ordered by their first position there. */
  predicate OrderedByFirst<T(==)>(s: seq<T>, r: seq<T>) {
    && (forall i | 0 <= i < |r| :: r[i] in s)
    && (forall i, j | 0 <= i < j < |r| :: FirstIndex(s, r[i]) < FirstIndex(s, r[j]))
  }

  /** The kept elements are ordered by their first position in `s`. */
  lemma {:induction false} DedupOrder<T>(s: seq<T>)
    ensures OrderedByFirst(s, Dedup(s))
  {
    if s != [] {
      var init, x := s[..|s| - 1], s[|s| - 1];
      DedupOrder(init);
      var d := Dedup(init);
      DedupMembers(init, x);
      DedupOrderStep(init, x, d);
      assert s == init + [x];
    }
  }

  lemma DedupOrderStep<T>(init: seq<T>, x: T, d: seq<T>)
    requires OrderedByFirst(init, d) && Distinct(d)
    requires x in init <==> x in d
    ensures OrderedByFirst(init + [x], if x in d then d else d + [x])
  {
    var s := init + [x];
    var r := if x in d then d else d + [x];
    forall y | y in init ensures FirstIndex(s, y) == FirstIndex(init, y) {
      FirstIndexPrefix(init, [x], y);
    }
    if x !in d {
      assert FirstIndex(s, x) == |init|;
      forall i, j | 0 <= i < j < |r| ensures FirstIndex(s, r[i]) < FirstIndex(s, r[j]) {
        assert r[i] == d[i] && r[i] in init;
        assert FirstIndex(s, r[i]) == FirstIndex(init, r[i]) < |init|;
        if j < |d| {
          assert r[j] == d[j] && r[j] in init;
        } else {
          assert r[j] == x;
        }
      }
    }
  }

  lemma {:induction false} FirstIndexPrefix<T>(s: seq<T>, e: seq<T>, y: T)
    requires y in s
    ensures FirstIndex(s + e, y) == FirstIndex(s, y)
  {
    if s[0] != y {
      assert (s + e)[1..] == s[1..] + e;
      FirstIndexPrefix(s[1..], e, y);
    }
  }
}
