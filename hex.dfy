/**
 * Lowercase hexadecimal rendering of bytes, as the `hex` crate's `encode` does it:
 * two characters per byte, high nibble first. `Decode` is its partner, the
 * crate's `decode`, which accepts either case and rejects odd lengths.
 */
module Hex {
  import opened Bytes
  import opened Wrappers

  predicate IsLowerHexDigit(c: char) {
    '0' <= c <= '9' || 'a' <= c <= 'f'
  }

  /** Every character is a lowercase hex digit. */
  predicate IsLowerHex(s: string) {
    forall k :: 0 <= k < |s| ==> IsLowerHexDigit(s[k])
  }

  /** The lowercase digit for a nibble: '0'..'9', then 'a'..'f'. */
  function NibbleChar(n: nat): (c: char)
    requires n < 16
    ensures IsLowerHexDigit(c)
  {
    if n < 10 then ('0' as int + n) as char else ('a' as int + n - 10) as char
  }

  /** The nibble a hex digit of either case stands for. */
  function NibbleValue(c: char): (r: Option<nat>)
    ensures r.Some? ==> r.value < 16
  {
    if '0' <= c <= '9' then Some(c as int - '0' as int)
    else if 'a' <= c <= 'f' then Some(c as int - 'a' as int + 10)
    else if 'A' <= c <= 'F' then Some(c as int - 'A' as int + 10)
    else None
  }

  lemma NibbleRoundTrip(n: nat)
    requires n < 16
    ensures NibbleValue(NibbleChar(n)) == Some(n)
  {
  }

  lemma NibbleCharOfValue(c: char)
    requires IsLowerHexDigit(c)
    ensures NibbleValue(c).Some? && NibbleChar(NibbleValue(c).value) == c
  {
  }

  /** hex::encode: each byte becomes its high and then its low nibble. */
  function Encode(bs: seq<byte>): (s: string)
    ensures |s| == 2 * |bs| && IsLowerHex(s)
  {
    if bs == [] then ""
    else [NibbleChar(bs[0] / 16), NibbleChar(bs[0] % 16)] + Encode(bs[1..])
  }

  /** Character 2i is the high nibble of byte i, character 2i+1 its low nibble. */
  lemma {:induction false} EncodeAt(bs: seq<byte>, i: nat)
    requires i < |bs|
    ensures Encode(bs)[2 * i] == NibbleChar(bs[i] / 16)
    ensures Encode(bs)[2 * i + 1] == NibbleChar(bs[i] % 16)
  {
    if i > 0 {
      EncodeAt(bs[1..], i - 1);
    }
  }

  /** hex::decode: None for an odd length or a character that is not a hex digit. */
  function Decode(s: string): (r: Option<seq<byte>>)
    ensures r.Some? ==> 2 * |r.value| == |s|
  {
    if |s| % 2 == 1 then None else DecodePairs(s)
  }

  function DecodePairs(s: string): (r: Option<seq<byte>>)
    requires |s| % 2 == 0
    ensures r.Some? ==> 2 * |r.value| == |s|
    decreases |s|
  {
    if s == [] then Some([])
    else
      var hi, lo, rest := NibbleValue(s[0]), NibbleValue(s[1]), DecodePairs(s[2..]);
      if hi.Some? && lo.Some? && rest.Some? then Some([hi.value * 16 + lo.value] + rest.value)
      else None
  }

  /** Decoding the rendering gives back the bytes. */
  lemma {:induction false} DecodeEncode(bs: seq<byte>)
    ensures Decode(Encode(bs)) == Some(bs)
  {
    if bs != [] {
      var s, hi, lo := Encode(bs), bs[0] / 16, bs[0] % 16;
      assert s[0] == NibbleChar(hi) && s[1] == NibbleChar(lo) && s[2..] == Encode(bs[1..]) by {
        assert s == [NibbleChar(hi), NibbleChar(lo)] + Encode(bs[1..]);
      }
      assert DecodePairs(s[2..]) == Some(bs[1..]) by {
        DecodeEncode(bs[1..]);
      }
      assert NibbleValue(s[0]) == Some(hi) && NibbleValue(s[1]) == Some(lo) by {
        NibbleRoundTrip(hi);
        NibbleRoundTrip(lo);
      }
      assert bs == [hi * 16 + lo] + bs[1..];
    }
  }

  /** A lowercase string that decodes is the rendering of what it decodes to. */
  lemma {:induction false} EncodeDecode(s: string)
    requires IsLowerHex(s) && Decode(s).Some?
    ensures Encode(Decode(s).value) == s
  {
    if s != [] {
      var bs := Decode(s).value;
      DecodeStep(s);
      var hi, lo := NibbleValue(s[0]).value, NibbleValue(s[1]).value;
      NibbleCharOfValue(s[0]);
      NibbleCharOfValue(s[1]);
      NibbleSplit(hi, lo);
      EncodeDecode(s[2..]);
      assert Encode(bs) == [s[0], s[1]] + s[2..];
    }
  }

  /** One step of decoding: the first two characters give the first byte. */
  lemma DecodeStep(s: string)
    requires |s| >= 2 && Decode(s).Some?
    ensures NibbleValue(s[0]).Some? && NibbleValue(s[1]).Some? && Decode(s[2..]).Some?
    ensures Decode(s).value ==
      [NibbleValue(s[0]).value * 16 + NibbleValue(s[1]).value] + Decode(s[2..]).value
  {
  }

  lemma NibbleSplit(hi: nat, lo: nat)
    requires hi < 16 && lo < 16
    ensures (hi * 16 + lo) / 16 == hi && (hi * 16 + lo) % 16 == lo
  {
  }

  /** Two byte sequences with the same rendering are equal. */
  lemma EncodeInjective(a: seq<byte>, b: seq<byte>)
    requires Encode(a) == Encode(b)
    ensures a == b
  {
    DecodeEncode(a);
    DecodeEncode(b);
  }
}
