/**
 * Python dicts, which remember insertion order: an association list whose keys
 * are distinct. Assigning an existing key replaces its value in place; a new
 * key goes to the end. A dict comprehension `{k: v for ...}` is `FromPairs`.
 */
module Dicts {
  import opened Results
  import opened Seqs

  type Dict<V> = seq<(string, V)>

  /** The keys, in order. */
  function Keys<V>(d: seq<(string, V)>): seq<string> {
    seq(|d|, i requires 0 <= i < |d| => d[i].0)
  }

  /** The index of the first `k` in `ks`, or -1. */
  function IndexOfKey(ks: seq<string>, k: string): (i: int)
    ensures -1 <= i < |ks|
    ensures i >= 0 ==> ks[i] == k && forall j :: 0 <= j < i ==> ks[j] != k
    ensures i < 0 ==> k !in ks
  {
    if |ks| == 0 then -1
    else if ks[0] == k then 0
    else var i := IndexOfKey(ks[1..], k); if i < 0 then -1 else i + 1
  }

  /** `d.get(k)`. */
  function Get<V>(d: Dict<V>, k: string): Option<V> {
    var i := IndexOfKey(Keys(d), k);
    if i < 0 then None else Some(d[i].1)
  }

  /** `d[k] = v`. */
  function Put<V>(d: Dict<V>, k: string, v: V): (r: Dict<V>)
    ensures Keys(r) == if k in Keys(d) then Keys(d) else Keys(d) + [k]
    ensures Get(r, k) == Some(v)
    ensures forall k' :: k' != k ==> Get(r, k') == Get(d, k')
  {
    var i := IndexOfKey(Keys(d), k);
    if i < 0 then
      var r := d + [(k, v)];
      assert Keys(r) == Keys(d) + [k];
      assert forall k' :: k' != k ==> IndexOfKey(Keys(r), k') == IndexOfKey(Keys(d), k') by {
        forall k' | k' != k ensures IndexOfKey(Keys(r), k') == IndexOfKey(Keys(d), k') {
          IndexOfKeyAppend(Keys(d), k, k');
        }
      }
      r
    else
      var r := d[i := (k, v)];
      assert Keys(r) == Keys(d);
      r
  }

  lemma {:induction false} IndexOfKeyAppend(ks: seq<string>, k: string, k': string)
    requires k' != k
    ensures IndexOfKey(ks + [k], k') == IndexOfKey(ks, k')
  {
    if |ks| > 0 {
      assert (ks + [k])[1..] == ks[1..] + [k];
      IndexOfKeyAppend(ks[1..], k, k');
    }
  }

  /** `{k: v for (k, v) in ps}`: later pairs overwrite earlier ones. */
  function FromPairs<V>(ps: seq<(string, V)>): Dict<V> {
    if |ps| == 0 then []
    else
      var last := ps[|ps| - 1];
      Put(FromPairs(ps[..|ps| - 1]), last.0, last.1)
  }

  /** The value of the last pair whose key is `k`. */
  function LastValue<V>(ps: seq<(string, V)>, k: string): (r: Option<V>)
    ensures r.None? <==> k !in Keys(ps)
  {
    if |ps| == 0 then None
    else
      assert Keys(ps) == Keys(ps[..|ps| - 1]) + [ps[|ps| - 1].0];
      if ps[|ps| - 1].0 == k then Some(ps[|ps| - 1].1)
      else LastValue(ps[..|ps| - 1], k)
  }

  /** A dict comprehension lists each key once, at the position where it first
      appears. */
  lemma FromPairsKeys<V>(ps: seq<(string, V)>)
    ensures Keys(FromPairs(ps)) == Dedup(Keys(ps))
    ensures Distinct(Keys(FromPairs(ps)))
  {
    FromPairsKeyOrder(ps);
    DedupDistinct(Keys(ps));
  }

  lemma {:induction false} FromPairsKeyOrder<V>(ps: seq<(string, V)>)
    ensures Keys(FromPairs(ps)) == Dedup(Keys(ps))
  {
    if |ps| > 0 {
      var init := ps[..|ps| - 1];
      var k := ps[|ps| - 1].0;
      FromPairsKeyOrder(init);
      assert Keys(ps)[..|ps| - 1] == Keys(init);
      DedupElements(Keys(init));
      assert (k in Keys(FromPairs(init))) == (k in Keys(init));
    }
  }

  /** A dict comprehension maps every key to the value of the last pair carrying it. */
  lemma {:induction false} FromPairsGet<V>(ps: seq<(string, V)>, k: string)
    ensures Get(FromPairs(ps), k) == LastValue(ps, k)
  {
    if |ps| > 0 {
      FromPairsGet(ps[..|ps| - 1], k);
    }
  }

  /** The pair at `t` is the only one with its key, so it gives the value. */
  lemma {:induction false} LastValueUnique<V>(ps: seq<(string, V)>, t: nat)
    requires t < |ps|
    requires forall t' :: 0 <= t' < |ps| && t' != t ==> ps[t'].0 != ps[t].0
    ensures LastValue(ps, ps[t].0) == Some(ps[t].1)
  {
    var last := |ps| - 1;
    if t < last {
      LastValueUnique(ps[..last], t);
    }
  }

  /** With distinct keys, a dict comprehension maps each key to its pair's value. */
  lemma FromPairsDistinctGet<V>(ps: seq<(string, V)>, t: nat)
    requires Distinct(Keys(ps)) && t < |ps|
    ensures Get(FromPairs(ps), ps[t].0) == Some(ps[t].1)
  {
    forall t' | 0 <= t' < |ps| && t' != t ensures ps[t'].0 != ps[t].0 {
      assert Keys(ps)[t'] != Keys(ps)[t];
    }
    LastValueUnique(ps, t);
    FromPairsGet(ps, ps[t].0);
  }
}
