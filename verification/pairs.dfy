/**
 Ordered sequences of keyed entries, the model of the insertion-ordered maps
 a compose file is read into. Both the map form of a service's environment
 and the service table hold entries whose value may be absent, and both
 skip those entries in the same way.
 */
module Pairs {
  import opened Wrappers

  /** No key occurs twice. */
  predicate KeysDistinct<K(==), V>(ps: seq<(K, V)>) {
    forall i, j :: 0 <= i < j < |ps| ==> ps[i].0 != ps[j].0
  }

  /** The entries whose value is present, unwrapped, in their original order. */
  function KeepPresent<K(==,!new), V(==,!new)>(pairs: seq<(K, Option<V>)>): (r: seq<(K, V)>)
    ensures |r| <= |pairs|
    ensures forall p :: p in r <==> (p.0, Some(p.1)) in pairs
  {
    if |pairs| == 0 then []
    else
      var rest := KeepPresent(pairs[1..]);
      assert forall q :: q in pairs <==> q == pairs[0] || q in pairs[1..];
      match pairs[0].1
      case None => rest
      case Some(v) => [(pairs[0].0, v)] + rest
  }

  /** Skipping works entry by entry, so the surviving entries keep their relative order. */
  lemma {:induction false} KeepPresentAppend<K(!new), V(!new)>(a: seq<(K, Option<V>)>, b: seq<(K, Option<V>)>)
    ensures KeepPresent(a + b) == KeepPresent(a) + KeepPresent(b)
  {
    if |a| > 0 {
      assert (a + b)[0] == a[0];
      assert (a + b)[1..] == a[1..] + b;
      KeepPresentAppend(a[1..], b);
    } else {
      assert a + b == b;
    }
  }

  /** Keys that are distinct in the input stay distinct in the result. */
  lemma {:induction false} KeepPresentKeysDistinct<K(!new), V(!new)>(pairs: seq<(K, Option<V>)>)
    requires KeysDistinct(pairs)
    ensures KeysDistinct(KeepPresent(pairs))
  {
    if |pairs| > 0 {
      var rest := KeepPresent(pairs[1..]);
      assert KeysDistinct(pairs[1..]);
      KeepPresentKeysDistinct(pairs[1..]);
      forall p | p in rest
        ensures p.0 != pairs[0].0
      {
        var k :| 0 <= k < |pairs[1..]| && pairs[1..][k] == (p.0, Some(p.1));
        assert pairs[k + 1].0 == p.0;
      }
      match pairs[0].1
      case None =>
        assert KeepPresent(pairs) == rest;
      case Some(v) =>
        var r := [(pairs[0].0, v)] + rest;
        assert KeepPresent(pairs) == r;
        forall i, j | 0 <= i < j < |r|
          ensures r[i].0 != r[j].0
        {
          assert r[j] == rest[j - 1] && r[j] in rest;
          if i > 0 {
            assert r[i] == rest[i - 1];
          } else {
            assert r[i].0 == pairs[0].0;
          }
        }
    }
  }
}
