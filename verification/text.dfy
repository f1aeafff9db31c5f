/**
 Character-level facts about strings that the parsers and path builders of
 the workspace server rely on: finding the first separator, splitting there,
 and the uniqueness of such a split.
 */
module Text {
  import opened Wrappers

  /** Position of the first `c` in `s`, if `s` holds one. */
  function FirstIndex(s: string, c: char): (r: Option<nat>)
    ensures r.None? <==> c !in s
    ensures r.Some? ==> r.value < |s| && s[r.value] == c && c !in s[..r.value]
  {
    if |s| == 0 then None
    else if s[0] == c then Some(0)
    else
      match FirstIndex(s[1..], c)
      case None => None
      case Some(k) =>
        assert s[..k + 1] == [s[0]] + s[1..][..k];
        Some(k + 1)
  }

  /**
   Splits `s` at its first `sep` into the text before and the text after it,
   as Rust's `s.splitn(2, sep)` does when it yields two parts; `None` when `s`
   holds no `sep` (then `splitn` yields a single part).
   */
  function SplitAtFirst(s: string, sep: char): (r: Option<(string, string)>)
    ensures r.Some? <==> sep in s
    ensures r.Some? ==> sep !in r.value.0 && r.value.0 + [sep] + r.value.1 == s
  {
    match FirstIndex(s, sep)
    case None => None
    case Some(i) =>
      assert s == s[..i] + [sep] + s[i + 1..];
      Some((s[..i], s[i + 1..]))
  }

  /** In `a + [c] + b` with no `c` inside `a`, the first `c` sits right after `a`. */
  lemma {:induction false} FirstIndexAfterPrefix(a: string, c: char, b: string)
    requires c !in a
    ensures FirstIndex(a + [c] + b, c) == Some(|a|)
  {
    var s := a + [c] + b;
    if |a| == 0 {
      assert s[0] == c;
    } else {
      assert s[0] == a[0];
      assert s[1..] == a[1..] + [c] + b;
      FirstIndexAfterPrefix(a[1..], c, b);
    }
  }

  /** Splitting a joined pair at its separator gives the pair back. */
  lemma SplitAtFirstOfJoin(a: string, sep: char, b: string)
    requires sep !in a
    ensures SplitAtFirst(a + [sep] + b, sep) == Some((a, b))
  {
    var s := a + [sep] + b;
    FirstIndexAfterPrefix(a, sep, b);
    assert s[..|a|] == a;
    assert s[|a| + 1..] == b;
  }

  /**
   A separator that cannot occur in the first part fixes where the split is:
   two such joins are equal exactly when their parts are.
   */
  lemma SeparatorFixesSplit(a: string, b: string, a': string, b': string, sep: char)
    requires sep !in a && sep !in a'
    ensures a + [sep] + b == a' + [sep] + b' <==> a == a' && b == b'
  {
    if a + [sep] + b == a' + [sep] + b' {
      SplitAtFirstOfJoin(a, sep, b);
      SplitAtFirstOfJoin(a', sep, b');
    }
  }

  /** A common prefix can be cancelled from an equation between strings. */
  lemma CancelPrefix(p: string, x: string, y: string)
    ensures p + x == p + y <==> x == y
  {
    if p + x == p + y {
      assert x == (p + x)[|p|..];
      assert y == (p + y)[|p|..];
    }
  }
}
