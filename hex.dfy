/**
 * Lowercase base16, as `buffer.toString('hex')` writes it: every byte becomes two
 * characters from "0123456789abcdef", high nibble first (the base16 alphabet of section 8
 * of RFC 4648, in lower case).
 */
module Hex {
  import opened Prelude

  predicate IsLowerHexDigit(c: char) {
    '0' <= c <= '9' || 'a' <= c <= 'f'
  }

  predicate IsLowerHex(s: string) {
    forall i :: 0 <= i < |s| ==> IsLowerHexDigit(s[i])
  }

  /** The digit of a nibble: "0" to "9", then "a" to "f". */
  function DigitOf(d: nat): (c: char)
    requires d < 16
    ensures IsLowerHexDigit(c)
  {
    if d < 10 then ('0' as int + d) as char else ('a' as int + d - 10) as char
  }

  /** The nibble a lowercase hex digit stands for. */
  function ValueOf(c: char): (r: Option<nat>)
    ensures r.Some? <==> IsLowerHexDigit(c)
    ensures r.Some? ==> r.value < 16
  {
    if '0' <= c <= '9' then Some(c as int - '0' as int)
    else if 'a' <= c <= 'f' then Some(c as int - 'a' as int + 10)
    else None
  }

  /** `buffer.toString('hex')`. */
  function Encode(bs: seq<byte>): (s: string)
    ensures |s| == 2 * |bs|
    ensures IsLowerHex(s)
  {
    if bs == [] then ""
    else [DigitOf(bs[0] as int / 16), DigitOf(bs[0] as int % 16)] + Encode(bs[1..])
  }

  /** The inverse of `Encode`: pairs of lowercase hex digits back to bytes. */
  function Decode(s: string): (r: Option<seq<byte>>)
    ensures r.Some? ==> 2 * |r.value| == |s|
    decreases |s|
  {
    if s == [] then Some([])
    else if |s| < 2 then None
    else
      match (ValueOf(s[0]), ValueOf(s[1]), Decode(s[2..]))
      case (Some(hi), Some(lo), Some(rest)) => Some([(hi * 16 + lo) as byte] + rest)
      case _ => None
  }

  /** Digits and nibbles are in one-to-one correspondence. */
  lemma DigitValue(d: nat, c: char)
    ensures d < 16 ==> ValueOf(DigitOf(d)) == Some(d)
    ensures IsLowerHexDigit(c) ==> DigitOf(ValueOf(c).value) == c
  {
  }

  /** The two digits of a byte decode to that byte. */
  lemma DecodeHead(bs: seq<byte>)
    requires bs != []
    ensures Encode(bs)[2..] == Encode(bs[1..])
    ensures ValueOf(Encode(bs)[0]).value * 16 + ValueOf(Encode(bs)[1]).value == bs[0] as int
    ensures IsLowerHexDigit(Encode(bs)[0]) && IsLowerHexDigit(Encode(bs)[1])
  {
    var b := bs[0] as int;
    DigitValue(b / 16, 'a');
    DigitValue(b % 16, 'a');
  }

  /** Decoding the hex of any bytes gives the bytes back. */
  lemma {:induction false} DecodeEncode(bs: seq<byte>)
    ensures Decode(Encode(bs)) == Some(bs)
  {
    if bs != [] {
      DecodeHead(bs);
      DecodeEncode(bs[1..]);
      assert [bs[0]] + bs[1..] == bs;
    }
  }

  /** Encoding what a string decodes to gives the string back: decoding loses nothing. */
  lemma {:induction false} EncodeDecode(s: string)
    requires Decode(s).Some?
    ensures Encode(Decode(s).value) == s
    decreases |s|
  {
    if s != [] {
      var hi := ValueOf(s[0]).value;
      var lo := ValueOf(s[1]).value;
      EncodeDecode(s[2..]);
      var bs := Decode(s).value;
      assert bs[0] as int == hi * 16 + lo;
      assert bs[1..] == Decode(s[2..]).value;
      assert (hi * 16 + lo) / 16 == hi && (hi * 16 + lo) % 16 == lo;
      DigitValue(0, s[0]);
      DigitValue(0, s[1]);
      assert s == [s[0], s[1]] + s[2..];
    }
  }

  /** Precisely the lowercase hex strings of even length decode. */
  lemma {:induction false} DecodeAccepts(s: string)
    ensures Decode(s).Some? <==> |s| % 2 == 0 && IsLowerHex(s)
    decreases |s|
  {
    if |s| >= 2 {
      DecodeAccepts(s[2..]);
      if IsLowerHex(s) {
        assert IsLowerHex(s[2..]) by {
          forall i | 0 <= i < |s[2..]| ensures IsLowerHexDigit(s[2..][i]) { assert s[2..][i] == s[i + 2]; }
        }
      }
      if IsLowerHexDigit(s[0]) && IsLowerHexDigit(s[1]) && IsLowerHex(s[2..]) {
        forall i | 0 <= i < |s| ensures IsLowerHexDigit(s[i]) {
          if i >= 2 { assert s[i] == s[2..][i - 2]; }
        }
      }
    }
  }
}
