/**
 The environment of a compose service as the workspace server hands it to
 the build output (`compose_service_env` in lapdev-ws/src/server.rs).

 A compose file gives a service's environment either as a list of
 `KEY=VALUE` strings or as a map from names to optional values. The list
 form is split at the first `=` and entries without one are dropped; the map
 form drops names whose value is absent.
 */
module ComposeEnv {
  import opened Wrappers
  import Text
  import Pairs

  /** One environment variable: name and value. */
  type EnvPair = (string, string)

  /**
   A service's `environment` key. Map values are held in the text form the
   server formats them to; the map's entries are kept in file order.
   */
  datatype Environment =
    | List(entries: seq<string>)
    | KvPair(pairs: seq<(string, Option<string>)>)

  /** Splits one list entry at its first `=`; `None` when it holds no `=`. */
  function SplitEntry(entry: string): (r: Option<EnvPair>)
    ensures r.Some? <==> '=' in entry
    ensures r.Some? ==> '=' !in r.value.0 && JoinEntry(r.value) == entry
  {
    Text.SplitAtFirst(entry, '=')
  }

  /** The list-form text of a pair. */
  function JoinEntry(p: EnvPair): string {
    p.0 + "=" + p.1
  }

  /** A pair whose name holds no `=` comes back unchanged from its text, whatever its value holds. */
  lemma SplitJoin(p: EnvPair)
    requires '=' !in p.0
    ensures SplitEntry(JoinEntry(p)) == Some(p)
  {
    Text.SplitAtFirstOfJoin(p.0, '=', p.1);
  }

  /** The list form: every entry holding `=` becomes a pair, in order; the rest are dropped. */
  function EnvFromList(entries: seq<string>): (r: seq<EnvPair>)
    ensures |r| <= |entries|
    ensures forall i :: 0 <= i < |r| ==> '=' !in r[i].0
  {
    if |entries| == 0 then []
    else
      match SplitEntry(entries[0])
      case None => EnvFromList(entries[1..])
      case Some(p) => [p] + EnvFromList(entries[1..])
  }

  /** The entries of a list that hold an `=`, in order: the reference for what the list form keeps. */
  function WithSeparator(entries: seq<string>): (r: seq<string>)
    ensures forall i :: 0 <= i < |r| ==> '=' in r[i]
  {
    if |entries| == 0 then []
    else if '=' in entries[0] then [entries[0]] + WithSeparator(entries[1..])
    else WithSeparator(entries[1..])
  }

  /** The list-form text of a sequence of pairs. */
  function JoinAll(pairs: seq<EnvPair>): (r: seq<string>)
    ensures |r| == |pairs|
  {
    if |pairs| == 0 then [] else [JoinEntry(pairs[0])] + JoinAll(pairs[1..])
  }

  /**
   Joining the parsed pairs back gives exactly the entries that hold an `=`,
   in their original order: nothing is altered, reordered or invented, and
   only entries without `=` are lost.
   */
  lemma {:induction false} EnvFromListKeepsSeparated(entries: seq<string>)
    ensures JoinAll(EnvFromList(entries)) == WithSeparator(entries)
  {
    if |entries| > 0 {
      EnvFromListKeepsSeparated(entries[1..]);
      match SplitEntry(entries[0])
      case None =>
      case Some(p) =>
        assert JoinAll([p] + EnvFromList(entries[1..]))
            == [JoinEntry(p)] + JoinAll(EnvFromList(entries[1..]));
    }
  }

  /** Pairs whose names hold no `=` survive being written as a list and read back. */
  lemma {:induction false} EnvFromListOfJoinAll(pairs: seq<EnvPair>)
    requires forall i :: 0 <= i < |pairs| ==> '=' !in pairs[i].0
    ensures EnvFromList(JoinAll(pairs)) == pairs
  {
    if |pairs| > 0 {
      var head, rest := pairs[0], pairs[1..];
      var entries := JoinAll(pairs);
      assert entries == [JoinEntry(head)] + JoinAll(rest);
      assert entries[1..] == JoinAll(rest);
      SplitJoin(head);
      EnvFromListOfJoinAll(rest);
      assert EnvFromList(entries) == [head] + EnvFromList(entries[1..]);
      assert [head] + rest == pairs;
    }
  }

  /** The list form works entry by entry: parsing a concatenation concatenates the results. */
  lemma {:induction false} EnvFromListAppend(a: seq<string>, b: seq<string>)
    ensures EnvFromList(a + b) == EnvFromList(a) + EnvFromList(b)
  {
    if |a| > 0 {
      assert (a + b)[0] == a[0];
      assert (a + b)[1..] == a[1..] + b;
      EnvFromListAppend(a[1..], b);
    } else {
      assert a + b == b;
    }
  }

  /** The map form: every name with a value is kept with that value, in order; names without one are dropped. */
  function EnvFromMap(pairs: seq<(string, Option<string>)>): (r: seq<EnvPair>)
    ensures |r| <= |pairs|
    ensures forall p :: p in r <==> (p.0, Some(p.1)) in pairs
  {
    Pairs.KeepPresent(pairs)
  }

  /** `compose_service_env`: the pairs a service's environment contributes, whichever form it takes. */
  function ServiceEnv(env: Environment): (r: seq<EnvPair>)
    ensures env.List? ==> r == EnvFromList(env.entries) && JoinAll(r) == WithSeparator(env.entries)
    ensures env.List? ==> forall i :: 0 <= i < |r| ==> '=' !in r[i].0
    ensures env.KvPair? ==> r == EnvFromMap(env.pairs)
    ensures env.KvPair? ==> forall p :: p in r <==> (p.0, Some(p.1)) in env.pairs
  {
    match env
    case List(entries) =>
      EnvFromListKeepsSeparated(entries);
      EnvFromList(entries)
    case KvPair(pairs) => EnvFromMap(pairs)
  }
}
