/** `map.iter().map(f).collect()` over an ordered map with a fallible `f`:
    entries are visited in key order and the first failing entry aborts. */
module OrderedMaps {
  import opened Faults

  /** Entry `k` fails and every entry before it succeeds. */
  predicate FirstFailure<V, W>(m: seq<(string, V)>, f: (string, V) -> Result<W>, k: int) {
    && 0 <= k < |m|
    && (forall j :: 0 <= j < k ==> f(m[j].0, m[j].1).Ok?)
    && f(m[k].0, m[k].1).Fail?
  }

  function Collect<V, W>(m: seq<(string, V)>, f: (string, V) -> Result<W>): (r: Result<seq<W>>)
    ensures r.Ok? <==> forall i :: 0 <= i < |m| ==> f(m[i].0, m[i].1).Ok?
    ensures r.Ok? ==> |r.value| == |m|
    ensures r.Ok? ==> forall i :: 0 <= i < |m| ==> f(m[i].0, m[i].1) == Ok(r.value[i])
    ensures r.Fail? ==>
      exists k :: FirstFailure(m, f, k) && f(m[k].0, m[k].1) == Fail(r.fault)
  {
    if |m| == 0 then Ok([])
    else
      var head :- f(m[0].0, m[0].1);
      var tail :- Collect(m[1..], f);
      Ok([head] + tail)
  }

  /** Entries that map to the same results collect to the same result. */
  lemma {:induction false} CollectCongruent<V, W>(m1: seq<(string, V)>, m2: seq<(string, V)>, f: (string, V) -> Result<W>)
    requires |m1| == |m2|
    requires forall i :: 0 <= i < |m1| ==> f(m1[i].0, m1[i].1) == f(m2[i].0, m2[i].1)
    ensures Collect(m1, f) == Collect(m2, f)
    decreases |m1|
  {
    if |m1| > 0 {
      CollectCongruent(m1[1..], m2[1..], f);
    }
  }
}
