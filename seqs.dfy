/** Sequence facts shared by the cleaner and by Python's insertion-ordered dicts. */
module Seqs {

  /** No element occurs twice. */
  predicate Distinct<T(==)>(s: seq<T>) {
    forall i, j :: 0 <= i < j < |s| ==> s[i] != s[j]
  }

  /** The elements of `s` kept at their first occurrence, in order: element `i`
      survives exactly when it does not occur in `s[..i]`. This is
      `drop_duplicates(keep="first")` on rows and the key order of a dict built
      from a sequence of keys. */
  function Dedup<T(==)>(s: seq<T>): (r: seq<T>)
    ensures |r| <= |s|
  {
    if |s| == 0 then []
    else
      var init := s[..|s| - 1];
      var last := s[|s| - 1];
      if last in init then Dedup(init) else Dedup(init) + [last]
  }

  /** De-duplication loses no value and invents none. */
  lemma {:induction false} DedupElements<T>(s: seq<T>)
    ensures forall x :: x in Dedup(s) <==> x in s
  {
    if |s| > 0 {
      var init := s[..|s| - 1];
      DedupElements(init);
      assert s == init + [s[|s| - 1]];
    }
  }

  /** After de-duplication no two elements are equal. */
  lemma {:induction false} DedupDistinct<T>(s: seq<T>)
    ensures Distinct(Dedup(s))
  {
    if |s| > 0 {
      var init := s[..|s| - 1];
      DedupDistinct(init);
      DedupElements(init);
    }
  }

  /** A sequence without repeats is its own de-duplication. */
  lemma {:induction false} DedupOfDistinct<T>(s: seq<T>)
    requires Distinct(s)
    ensures Dedup(s) == s
  {
    if |s| > 0 {
      var init := s[..|s| - 1];
      assert Distinct(init);
      DedupOfDistinct(init);
      assert s[|s| - 1] !in init;
      assert s == init + [s[|s| - 1]];
    }
  }

  /** De-duplicating twice is de-duplicating once. */
  lemma DedupIdempotent<T>(s: seq<T>)
    ensures Dedup(Dedup(s)) == Dedup(s)
  {
    DedupDistinct(s);
    DedupOfDistinct(Dedup(s));
  }

  /** The elements of `s` that satisfy `keep`, in order. */
  function Filter<T>(s: seq<T>, keep: T -> bool): (r: seq<T>)
    ensures |r| <= |s|
    ensures forall x :: x in r ==> x in s && keep(x)
  {
    if |s| == 0 then []
    else
      var rest := Filter(s[..|s| - 1], keep);
      if keep(s[|s| - 1]) then rest + [s[|s| - 1]] else rest
  }

  /** Filtering keeps every element that satisfies the test. */
  lemma {:induction false} FilterKeeps<T>(s: seq<T>, keep: T -> bool)
    ensures forall x :: x in s && keep(x) ==> x in Filter(s, keep)
  {
    if |s| > 0 {
      var init := s[..|s| - 1];
      FilterKeeps(init, keep);
      assert s == init + [s[|s| - 1]];
    }
  }

  /** Filtering with a test every element passes changes nothing. */
  lemma {:induction false} FilterAll<T>(s: seq<T>, keep: T -> bool)
    requires forall i :: 0 <= i < |s| ==> keep(s[i])
    ensures Filter(s, keep) == s
  {
    if |s| > 0 {
      FilterAll(s[..|s| - 1], keep);
    }
  }

  /** Filtering a concatenation filters each part. */
  lemma {:induction false} FilterConcat<T>(a: seq<T>, b: seq<T>, keep: T -> bool)
    ensures Filter(a + b, keep) == Filter(a, keep) + Filter(b, keep)
    decreases |b|
  {
    if |b| == 0 {
      assert a + b == a;
    } else {
      var init := b[..|b| - 1];
      assert (a + b)[..|a + b| - 1] == a + init;
      FilterConcat(a, init, keep);
    }
  }

  /** Read from the front: the first element is kept or dropped, then the
      rest is filtered. */
  lemma FilterFront<T>(s: seq<T>, keep: T -> bool)
    requires |s| > 0
    ensures Filter(s, keep) == (if keep(s[0]) then [s[0]] else []) + Filter(s[1..], keep)
  {
    assert s == [s[0]] + s[1..];
    FilterConcat([s[0]], s[1..], keep);
    assert Filter([s[0]], keep) == (if keep(s[0]) then [s[0]] else []) by {
      assert [s[0]][..0] == [];
    }
  }

  /** Strictly increasing indices. */
  predicate Increasing(idx: seq<nat>) {
    forall s, t :: 0 <= s < t < |idx| ==> idx[s] < idx[t]
  }

  /** The elements of `s` at the positions `idx`. */
  function Project<T>(s: seq<T>, idx: seq<nat>): (r: seq<T>)
    requires forall t :: 0 <= t < |idx| ==> idx[t] < |s|
    ensures |r| == |idx|
  {
    seq(|idx|, t requires 0 <= t < |idx| => s[idx[t]])
  }

  /** The positions of the elements of `s` that pass `keep`, in increasing order. */
  function KeptPositions<T>(s: seq<T>, keep: T -> bool): (idx: seq<nat>)
    ensures Increasing(idx)
    ensures forall t :: 0 <= t < |idx| ==> idx[t] < |s|
    ensures forall i :: 0 <= i < |s| ==> (i in idx <==> keep(s[i]))
  {
    if |s| == 0 then []
    else
      var init := KeptPositions(s[..|s| - 1], keep);
      if keep(s[|s| - 1]) then init + [|s| - 1] else init
  }

  /** The element at position `i` occurs nowhere before it. */
  predicate FirstOccurrence<T(==)>(s: seq<T>, i: nat)
    requires i < |s|
  {
    forall j :: 0 <= j < i ==> s[j] != s[i]
  }

  /** The positions at which an element occurs for the first time, in
      increasing order. */
  function FirstPositions<T(==)>(s: seq<T>): (idx: seq<nat>)
    ensures Increasing(idx)
    ensures forall t :: 0 <= t < |idx| ==> idx[t] < |s|
    ensures forall i :: 0 <= i < |s| ==> (i in idx <==> FirstOccurrence(s, i))
  {
    if |s| == 0 then []
    else
      var init := s[..|s| - 1];
      var idx := FirstPositions(init);
      assert FirstOccurrence(s, |s| - 1) <==> s[|s| - 1] !in init;
      if s[|s| - 1] in init then idx else idx + [|s| - 1]
  }

  /** Filtering keeps exactly the elements at the positions that pass, in
      their original order. */
  lemma {:induction false} FilterAtPositions<T>(s: seq<T>, keep: T -> bool)
    ensures Filter(s, keep) == Project(s, KeptPositions(s, keep))
  {
    if |s| > 0 {
      var init := s[..|s| - 1];
      FilterAtPositions(init, keep);
      var idx := KeptPositions(init, keep);
      ProjectPrefix(s, init, idx);
      if keep(s[|s| - 1]) {
        ProjectAppend(s, idx, |s| - 1);
      }
    }
  }

  /** Positions inside a prefix pick the same elements from the whole. */
  lemma ProjectPrefix<T>(s: seq<T>, init: seq<T>, idx: seq<nat>)
    requires |init| <= |s| && init == s[..|init|]
    requires forall t :: 0 <= t < |idx| ==> idx[t] < |init|
    ensures Project(s, idx) == Project(init, idx)
  {
  }

  /** One more position picks one more element. */
  lemma ProjectAppend<T>(s: seq<T>, idx: seq<nat>, j: nat)
    requires forall t :: 0 <= t < |idx| ==> idx[t] < |s|
    requires j < |s|
    ensures Project(s, idx + [j]) == Project(s, idx) + [s[j]]
  {
  }

  /** De-duplication keeps exactly the first occurrences, in their original
      order: the element at position `i` survives iff it occurs nowhere
      before `i`. */
  lemma {:induction false} DedupKeepsFirst<T>(s: seq<T>)
    ensures Dedup(s) == Project(s, FirstPositions(s))
  {
    if |s| > 0 {
      var init := s[..|s| - 1];
      DedupKeepsFirst(init);
      var idx := FirstPositions(init);
      ProjectPrefix(s, init, idx);
      if s[|s| - 1] !in init {
        ProjectAppend(s, idx, |s| - 1);
      }
    }
  }

  /** The number of occurrences of `x` in `s`. */
  function Count<T(==)>(s: seq<T>, x: T): (n: nat)
    ensures n <= |s|
    ensures n > 0 <==> x in s
  {
    if |s| == 0 then 0
    else Count(s[..|s| - 1], x) + (if s[|s| - 1] == x then 1 else 0)
  }
}
