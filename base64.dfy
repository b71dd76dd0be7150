/** Base64 with the standard alphabet of section 4 of RFC 4648, as Go's
    `encoding/base64` applies it: `RawStdEncoding` (no padding, section 3.2 of
    RFC 4648), which the service decodes filters with (service/service.go:142), and
    `StdEncoding` (padded), which the helper `Base64DecodeStripped` uses after
    padding its input (lib/utils/utils.go:18-24). Both decoders are Go's default
    non-strict ones: carriage returns and line feeds are skipped, and unused low
    bits of the last symbol are ignored. */
module Base64 {
  import opened Model
  import Utils

  type Byte = b: int | 0 <= b < 256

  /** The symbol for the 6-bit value `v`. */
  function Symbol(v: int): (c: char)
    requires 0 <= v < 64
  {
    if v < 26 then 'A' + v as char
    else if v < 52 then 'a' + (v - 26) as char
    else if v < 62 then '0' + (v - 52) as char
    else if v == 62 then '+'
    else '/'
  }

  /** The 6-bit value of the symbol `c`, or -1 when `c` is not in the alphabet. */
  function ValueOf(c: char): (v: int)
    ensures -1 <= v < 64
    ensures 0 <= v ==> Symbol(v) == c
  {
    if 'A' <= c <= 'Z' then (c - 'A') as int
    else if 'a' <= c <= 'z' then (c - 'a') as int + 26
    else if '0' <= c <= '9' then (c - '0') as int + 52
    else if c == '+' then 62
    else if c == '/' then 63
    else -1
  }

  predicate IsSymbol(c: char) {
    ValueOf(c) >= 0
  }

  /** Symbol and ValueOf are inverse: every 6-bit value has exactly one symbol. */
  lemma SymbolValue(v: int)
    requires 0 <= v < 64
    ensures ValueOf(Symbol(v)) == v
  {
  }

  /** The alphabet, in the order of the table in section 4 of RFC 4648: `A`-`Z`, `a`-`z`,
      `0`-`9`, `+`, `/`. */
  lemma AlphabetIsStandard()
    ensures Symbol(0) == 'A' && Symbol(25) == 'Z'
    ensures Symbol(26) == 'a' && Symbol(51) == 'z'
    ensures Symbol(52) == '0' && Symbol(61) == '9'
    ensures Symbol(62) == '+' && Symbol(63) == '/'
  {
  }

  // The bytes carried by a group of symbols (each in the alphabet).
  function Byte0(a: char, b: char): Byte
    requires IsSymbol(a) && IsSymbol(b)
  {
    ValueOf(a) * 4 + ValueOf(b) / 16
  }

  function Byte1(b: char, c: char): Byte
    requires IsSymbol(b) && IsSymbol(c)
  {
    ValueOf(b) % 16 * 16 + ValueOf(c) / 4
  }

  function Byte2(c: char, d: char): Byte
    requires IsSymbol(c) && IsSymbol(d)
  {
    ValueOf(c) % 4 * 64 + ValueOf(d)
  }

  /** The four symbols that carry the three bytes `x`, `y`, `z`. */
  function Quad(x: Byte, y: Byte, z: Byte): (q: string)
    ensures |q| == 4 && forall k :: 0 <= k < 4 ==> IsSymbol(q[k])
  {
    [Symbol(x / 4), Symbol(x % 4 * 16 + y / 16), Symbol(y % 16 * 4 + z / 64), Symbol(z % 64)]
  }

  /** The three bytes carried by the first four symbols of `s`. */
  function DecodeQuad(s: string): seq<Byte>
    requires |s| >= 4 && IsSymbol(s[0]) && IsSymbol(s[1]) && IsSymbol(s[2]) && IsSymbol(s[3])
  {
    [Byte0(s[0], s[1]), Byte1(s[1], s[2]), Byte2(s[2], s[3])]
  }

  /** Encoding without padding (`RawStdEncoding.EncodeToString`): every three bytes
      become four symbols, and a final one or two bytes become two or three. */
  function EncodeRaw(bs: seq<Byte>): (s: string)
    ensures |s| == (4 * |bs| + 2) / 3
    ensures forall k :: 0 <= k < |s| ==> IsSymbol(s[k])
  {
    if |bs| == 0 then ""
    else if |bs| == 1 then
      [Symbol(bs[0] / 4), Symbol(bs[0] % 4 * 16)]
    else if |bs| == 2 then
      [Symbol(bs[0] / 4), Symbol(bs[0] % 4 * 16 + bs[1] / 16), Symbol(bs[1] % 16 * 4)]
    else
      Quad(bs[0], bs[1], bs[2]) + EncodeRaw(bs[3..])
  }

  /** `s` without carriage returns and line feeds, which Go's decoders skip. */
  function StripNewlines(s: string): (r: string)
    ensures |r| <= |s|
    ensures forall k :: 0 <= k < |r| ==> r[k] != '\r' && r[k] != '\n'
    ensures ('\r' !in s && '\n' !in s) ==> r == s
  {
    if s == [] then []
    else if s[0] == '\r' || s[0] == '\n' then StripNewlines(s[1..])
    else [s[0]] + StripNewlines(s[1..])
  }

  /** Decoding groups of four symbols without padding; a final group of two or three
      symbols carries one or two bytes, a final single symbol is an error, and so is
      any character outside the alphabet, `=` included. */
  function DecodeUnpadded(s: string): (r: Option<seq<Byte>>)
    ensures r.Some? <==> |s| % 4 != 1 && forall k :: 0 <= k < |s| ==> IsSymbol(s[k])
  {
    if |s| < 4 then DecodeShort(s)
    else if IsSymbol(s[0]) && IsSymbol(s[1]) && IsSymbol(s[2]) && IsSymbol(s[3]) then
      assert |s[4..]| % 4 == |s| % 4 by { ModFour(|s|); }
      assert forall k :: 4 <= k < |s| ==> s[k] == s[4..][k - 4];
      match DecodeUnpadded(s[4..])
      case None => None
      case Some(rest) => Some(DecodeQuad(s) + rest)
    else None
  }

  lemma ModFour(n: int)
    requires n >= 4
    ensures (n - 4) % 4 == n % 4
  {
  }

  /** A final group of fewer than four symbols: two carry one byte, three carry two, and
      a single symbol is an error. */
  function DecodeShort(s: string): (r: Option<seq<Byte>>)
    requires |s| < 4
    ensures r.Some? <==> |s| != 1 && forall k :: 0 <= k < |s| ==> IsSymbol(s[k])
  {
    if |s| == 0 then Some([])
    else if |s| == 1 then None
    else if |s| == 2 then
      if IsSymbol(s[0]) && IsSymbol(s[1]) then Some([Byte0(s[0], s[1])]) else None
    else if IsSymbol(s[0]) && IsSymbol(s[1]) && IsSymbol(s[2])
    then Some([Byte0(s[0], s[1]), Byte1(s[1], s[2])])
    else None
  }

  /** `RawStdEncoding.DecodeString`: the decoder the service applies to the filter. */
  function DecodeRaw(s: string): Option<seq<Byte>> {
    DecodeUnpadded(StripNewlines(s))
  }

  /** Decoding padded groups of four: only the last group may end in `=` or `==`,
      and the input must be a whole number of groups. */
  function DecodePaddedGroups(s: string): (r: Option<seq<Byte>>)
    ensures r.Some? ==> |s| % 4 == 0
  {
    if |s| == 0 then Some([])
    else if |s| < 4 then None
    else if IsSymbol(s[0]) && IsSymbol(s[1]) && IsSymbol(s[2]) && IsSymbol(s[3]) then
      match DecodePaddedGroups(s[4..])
      case None => None
      case Some(rest) => Some(DecodeQuad(s) + rest)
    else if |s| == 4 then DecodePaddedLast(s)
    else None
  }

  /** A final group ending in `==` carries one byte, one ending in a single `=` two. */
  function DecodePaddedLast(s: string): Option<seq<Byte>>
    requires |s| == 4
  {
    if IsSymbol(s[0]) && IsSymbol(s[1]) && s[2] == '=' && s[3] == '=' then
      Some([Byte0(s[0], s[1])])
    else if IsSymbol(s[0]) && IsSymbol(s[1]) && IsSymbol(s[2]) && s[3] == '=' then
      Some([Byte0(s[0], s[1]), Byte1(s[1], s[2])])
    else None
  }

  /** `StdEncoding.DecodeString`. */
  function DecodePadded(s: string): Option<seq<Byte>> {
    DecodePaddedGroups(StripNewlines(s))
  }

  /** The padding step of `Base64DecodeStripped` (utils.go:19-21): append `=` until the
      length is a multiple of four. */
  function Pad(s: string): (r: string)
    ensures |r| % 4 == 0 && |s| <= |r| < |s| + 4
    ensures r[..|s|] == s
    ensures forall k :: |s| <= k < |r| ==> r[k] == '='
    ensures |s| % 4 == 0 ==> r == s
  {
    if |s| % 4 != 0 then s + Utils.Repeat('=', 4 - |s| % 4) else s
  }

  /** `Base64DecodeStripped` (utils.go:18-24), on success. */
  function DecodeStripped(s: string): Option<seq<Byte>> {
    DecodePadded(Pad(s))
  }

  /** One group of three bytes survives encoding and decoding. */
  lemma GroupRoundTrip(x: Byte, y: Byte, z: Byte)
    ensures DecodeQuad(Quad(x, y, z)) == [x, y, z]
  {
    var a, b, c, d := x / 4, x % 4 * 16 + y / 16, y % 16 * 4 + z / 64, z % 64;
    SymbolValue(a);
    SymbolValue(b);
    SymbolValue(c);
    SymbolValue(d);
    assert b / 16 == x % 4 && b % 16 == y / 16;
    assert c / 4 == y % 16 && c % 4 == z / 64;
    var q := Quad(x, y, z);
    assert ValueOf(q[0]) == a && ValueOf(q[1]) == b && ValueOf(q[2]) == c && ValueOf(q[3]) == d;
  }

  /** Decoding a string that starts with a full group of four symbols. */
  lemma DecodeAfterQuad(q: string, rest: string)
    requires |q| == 4 && forall k :: 0 <= k < 4 ==> IsSymbol(q[k])
    ensures DecodeUnpadded(q + rest)
         == match DecodeUnpadded(rest)
            case None => None
            case Some(r) => Some(DecodeQuad(q) + r)
  {
    var s := q + rest;
    assert s[4..] == rest;
    assert s[0] == q[0] && s[1] == q[1] && s[2] == q[2] && s[3] == q[3];
  }

  lemma OneByteRoundTrip(x: Byte)
    ensures DecodeUnpadded(EncodeRaw([x])) == Some([x])
  {
    SymbolValue(x / 4);
    SymbolValue(x % 4 * 16);
    assert x % 4 * 16 / 16 == x % 4;
  }

  lemma TwoByteRoundTrip(x: Byte, y: Byte)
    ensures DecodeUnpadded(EncodeRaw([x, y])) == Some([x, y])
  {
    SymbolValue(x / 4);
    SymbolValue(x % 4 * 16 + y / 16);
    SymbolValue(y % 16 * 4);
    assert (x % 4 * 16 + y / 16) / 16 == x % 4;
    assert (x % 4 * 16 + y / 16) % 16 == y / 16;
    assert y % 16 * 4 / 4 == y % 16;
  }

  /** Decoding undoes unpadded encoding. */
  lemma {:induction false} RawRoundTrip(bs: seq<Byte>)
    ensures DecodeUnpadded(EncodeRaw(bs)) == Some(bs)
  {
    if |bs| == 0 {
    } else if |bs| == 1 {
      OneByteRoundTrip(bs[0]);
      assert bs == [bs[0]];
    } else if |bs| == 2 {
      TwoByteRoundTrip(bs[0], bs[1]);
      assert bs == [bs[0], bs[1]];
    } else {
      assert bs == [bs[0], bs[1], bs[2]] + bs[3..];
      GroupStep(bs[0], bs[1], bs[2], bs[3..]);
      RawRoundTrip(bs[3..]);
    }
  }

  /** Encoding and decoding a leading group of three bytes: the round trip of a longer
      sequence reduces to that of the bytes after the group. */
  lemma GroupStep(x: Byte, y: Byte, z: Byte, tail: seq<Byte>)
    ensures DecodeUnpadded(EncodeRaw([x, y, z] + tail))
         == match DecodeUnpadded(EncodeRaw(tail))
            case None => None
            case Some(r) => Some([x, y, z] + r)
  {
    var bs := [x, y, z] + tail;
    assert bs[3..] == tail;
    var q, rest := Quad(x, y, z), EncodeRaw(tail);
    assert EncodeRaw(bs) == q + rest;
    GroupRoundTrip(x, y, z);
    DecodeAfterQuad(q, rest);
  }

  /** The service's decoder inverts encoding: `DecodeRaw(EncodeRaw(bs)) == Some(bs)`. */
  lemma DecodeRawRoundTrip(bs: seq<Byte>)
    ensures DecodeRaw(EncodeRaw(bs)) == Some(bs)
  {
    var s := EncodeRaw(bs);
    assert '\r' !in s && '\n' !in s by {
      forall k | 0 <= k < |s| ensures s[k] != '\r' && s[k] != '\n' {
        assert IsSymbol(s[k]);
      }
    }
    RawRoundTrip(bs);
  }

  /** On input without `=`, CR or LF, padding then decoding with `StdEncoding` gives what
      `RawStdEncoding` gives: the helper and the service's decoder agree there. */
  lemma {:induction false} StrippedAgreesWithRaw(s: string)
    requires '=' !in s && '\r' !in s && '\n' !in s
    ensures DecodeStripped(s) == DecodeRaw(s)
  {
    var p := Pad(s);
    assert '\r' !in p && '\n' !in p by {
      forall k | 0 <= k < |p| ensures p[k] != '\r' && p[k] != '\n' {
        if k < |s| { assert p[k] == s[k]; }
      }
    }
    PaddedGroupsAgree(s);
  }

  lemma {:induction false} PaddedGroupsAgree(s: string)
    requires '=' !in s
    ensures DecodePaddedGroups(Pad(s)) == DecodeUnpadded(s)
  {
    var p := Pad(s);
    if |s| >= 4 {
      assert p[..4] == s[..4];
      assert p[4..] == Pad(s[4..]) by {
        assert |s[4..]| % 4 == |s| % 4;
      }
      PaddedGroupsAgree(s[4..]);
    } else if |s| == 1 {
      assert p[1] == '=';
    } else if |s| == 2 {
      assert p == s + "==";
    } else if |s| == 3 {
      assert p == s + "=";
    }
  }

  /** `StdEncoding.EncodeToString(bs)` is the unpadded encoding, padded; the helper
      decodes it back. */
  lemma StrippedRoundTrip(bs: seq<Byte>)
    ensures DecodeStripped(EncodeRaw(bs)) == Some(bs)
    ensures DecodeStripped(Pad(EncodeRaw(bs))) == Some(bs)
  {
    var s := EncodeRaw(bs);
    assert '=' !in s && '\r' !in s && '\n' !in s by {
      forall k | 0 <= k < |s| ensures s[k] != '=' && s[k] != '\r' && s[k] != '\n' {
        assert IsSymbol(s[k]);
      }
    }
    StrippedAgreesWithRaw(s);
    DecodeRawRoundTrip(bs);
  }

  /** The service's decoder refuses padding, which the helper would accept: a filter sent
      in padded form, such as "QQ==" (the one byte `A`), is a decode error at
      service/service.go:142. */
  lemma PaddingRefusedByService()
    ensures DecodeRaw("QQ==") == None
    ensures DecodeStripped("QQ==") == Some([65])
    ensures DecodeStripped("QQ") == DecodeRaw("QQ") == Some([65])
  {
    assert StripNewlines("QQ==") == "QQ==";
    assert StripNewlines("QQ") == "QQ";
    assert Pad("QQ") == "QQ==";
  }
}
