/**
 The text form of a UUID as the workspace server prints it with
 `id.to_string()`: the hyphenated form of RFC 4122 (section 3), 32 lower-case
 hexadecimal digits in groups of 8-4-4-4-12. Prebuild images and folders are
 named by it, so its shape matters to the names built from it.
 */
module Uuids {
  import opened Wrappers

  type Byte = b: int | 0 <= b < 0x100

  /** A UUID is sixteen bytes, most significant first. */
  type Uuid = s: seq<Byte> | |s| == 16 witness seq(16, i => 0)

  predicate IsHexDigit(c: char) {
    '0' <= c <= '9' || 'a' <= c <= 'f'
  }

  /** The lower-case hexadecimal digit for `n`. */
  function HexDigit(n: int): (c: char)
    requires 0 <= n < 16
    ensures IsHexDigit(c)
  {
    if n < 10 then ('0' as int + n) as char else ('a' as int + n - 10) as char
  }

  /** The value of a lower-case hexadecimal digit; `None` for any other character. */
  function HexValue(c: char): (r: Option<int>)
    ensures r.Some? <==> IsHexDigit(c)
    ensures r.Some? ==> 0 <= r.value < 16 && HexDigit(r.value) == c
  {
    if '0' <= c <= '9' then Some(c as int - '0' as int)
    else if 'a' <= c <= 'f' then Some(c as int - 'a' as int + 10)
    else None
  }

  /** Two hexadecimal digits per byte, high nibble first. */
  function Hex(bs: seq<Byte>): (r: string)
    ensures |r| == 2 * |bs|
    ensures forall i :: 0 <= i < |r| ==> IsHexDigit(r[i])
  {
    if |bs| == 0 then ""
    else [HexDigit(bs[0] / 16), HexDigit(bs[0] % 16)] + Hex(bs[1..])
  }

  /** Reads pairs of hexadecimal digits back into bytes. */
  function ParseHex(s: string): (r: Option<seq<Byte>>)
    ensures r.Some? ==> 2 * |r.value| == |s|
  {
    if |s| == 0 then Some([])
    else if |s| == 1 then None
    else
      match (HexValue(s[0]), HexValue(s[1]))
      case (Some(hi), Some(lo)) =>
        (match ParseHex(s[2..])
         case Some(rest) => Some([hi * 16 + lo] + rest)
         case None => None)
      case _ => None
  }

  lemma {:induction false} ParseHexOfHex(bs: seq<Byte>)
    ensures ParseHex(Hex(bs)) == Some(bs)
  {
    if |bs| > 0 {
      var s := Hex(bs);
      var hi, lo := bs[0] / 16, bs[0] % 16;
      assert s[0] == HexDigit(hi) && s[1] == HexDigit(lo);
      assert HexValue(s[0]) == Some(hi);
      assert HexValue(s[1]) == Some(lo);
      assert s[2..] == Hex(bs[1..]);
      ParseHexOfHex(bs[1..]);
      assert [hi * 16 + lo] + bs[1..] == bs;
    }
  }

  /** The hyphenated text form of `u`: 36 characters, hyphens at 8, 13, 18 and 23, hex digits elsewhere. */
  function ToHyphenated(u: Uuid): (r: string)
    ensures |r| == 36
    ensures forall i :: 0 <= i < |r| ==> (r[i] == '-' <==> i == 8 || i == 13 || i == 18 || i == 23)
    ensures forall i :: 0 <= i < |r| && i != 8 && i != 13 && i != 18 && i != 23 ==> IsHexDigit(r[i])
    ensures '/' !in r
  {
    Hex(u[..4]) + "-" + Hex(u[4..6]) + "-" + Hex(u[6..8]) + "-" + Hex(u[8..10]) + "-" + Hex(u[10..])
  }

  /** Reads the hyphenated text form back; `None` for anything not of that shape. */
  function ParseHyphenated(s: string): (r: Option<Uuid>)
    ensures r.Some? ==> |s| == 36
  {
    if |s| != 36 || s[8] != '-' || s[13] != '-' || s[18] != '-' || s[23] != '-' then None
    else
      match (ParseHex(s[..8]), ParseHex(s[9..13]), ParseHex(s[14..18]), ParseHex(s[19..23]), ParseHex(s[24..]))
      case (Some(a), Some(b), Some(c), Some(d), Some(e)) => Some(a + b + c + d + e)
      case _ => None
  }

  /** Printing a UUID and reading it back gives the same UUID. */
  lemma ParseOfHyphenated(u: Uuid)
    ensures ParseHyphenated(ToHyphenated(u)) == Some(u)
  {
    var s := ToHyphenated(u);
    assert s[..8] == Hex(u[..4]);
    assert s[9..13] == Hex(u[4..6]);
    assert s[14..18] == Hex(u[6..8]);
    assert s[19..23] == Hex(u[8..10]);
    assert s[24..] == Hex(u[10..]);
    ParseHexOfHex(u[..4]);
    ParseHexOfHex(u[4..6]);
    ParseHexOfHex(u[6..8]);
    ParseHexOfHex(u[8..10]);
    ParseHexOfHex(u[10..]);
    assert u[..4] + u[4..6] + u[6..8] + u[8..10] + u[10..] == u;
  }

  /** Distinct UUIDs print differently. */
  lemma HyphenatedInjective(u: Uuid, v: Uuid)
    ensures ToHyphenated(u) == ToHyphenated(v) <==> u == v
  {
    ParseOfHyphenated(u);
    ParseOfHyphenated(v);
  }
}
