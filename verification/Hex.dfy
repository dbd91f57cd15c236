/**
 The hexadecimal codec of the pairing messages (libgamestream/client.c): writing bytes as two lowercase
 digits each, and the loop that reads them back two characters at a time.
 */
module Hex {
  import opened CTypes
  import opened Options
  import opened Text

  const NUL := '\0'

  function HexDigit(d: nat): char
    requires d < 16
  {
    if d < 10 then '0' + d as char else 'a' + (d - 10) as char
  }

  function DigitValue(c: char): Option<nat> {
    if '0' <= c <= '9' then Some((c - '0') as nat)
    else if 'a' <= c <= 'f' then Some((c - 'a') as nat + 10)
    else if 'A' <= c <= 'F' then Some((c - 'A') as nat + 10)
    else None
  }

  /** The sixteen digits, written in lowercase and read in either. */
  lemma HexDigitsAre(d: nat)
    requires d < 16
    ensures HexDigit(d) == "0123456789abcdef"[d]
    ensures DigitValue("0123456789abcdef"[d]) == Some(d) && DigitValue("0123456789ABCDEF"[d]) == Some(d)
  {
  }

  /** And no others. */
  lemma NoOtherDigits(c: char)
    ensures DigitValue(c).Some? <==> c in "0123456789abcdefABCDEF"
  {
  }

  function Encode(bytes: seq<byte>): string {
    if bytes == [] then ""
    else Encode(bytes[..|bytes| - 1]) + [HexDigit(bytes[|bytes| - 1] / 16), HexDigit(bytes[|bytes| - 1] % 16)]
  }

  lemma {:induction false} EncodeAt(bytes: seq<byte>, k: nat)
    requires k < |bytes|
    ensures |Encode(bytes)| == 2 * |bytes|
    ensures Encode(bytes)[2 * k] == HexDigit(bytes[k] / 16) && Encode(bytes)[2 * k + 1] == HexDigit(bytes[k] % 16)
  {
    var front := bytes[..|bytes| - 1];
    EncodeLength(front);
    if k < |front| {
      EncodeAt(front, k);
    }
  }

  lemma {:induction false} EncodeLength(bytes: seq<byte>)
    ensures |Encode(bytes)| == 2 * |bytes|
  {
    if bytes != [] {
      EncodeLength(bytes[..|bytes| - 1]);
    }
  }

  /** `bytes_to_hex`: the digits of each byte, then the terminator. */
  method BytesToHex(bytes: array<byte>, out: array<char>, len: nat)
    requires len <= bytes.Length && 2 * len < out.Length
    modifies out
    ensures out[..2 * len] == Encode(bytes[..len]) && out[2 * len] == NUL
    ensures out[2 * len + 1..] == old(out[2 * len + 1..])
  {
    for i := 0 to len
      invariant out[..2 * i] == Encode(bytes[..i])
      invariant out[2 * i..] == old(out[2 * i..])
    {
      out[2 * i] := HexDigit(bytes[i] / 16);
      out[2 * i + 1] := HexDigit(bytes[i] % 16);
      assert bytes[..i + 1][..i] == bytes[..i];
      assert out[..2 * (i + 1)] == out[..2 * i] + [out[2 * i], out[2 * i + 1]];
    }
    out[2 * len] := NUL;
  }

  /**
   `sscanf(s, "%2hhx", &b)`: after white space, one or two digits in two characters, the first of
   which may be a sign. `None` is a matching failure, which stores nothing.
   */
  function ScanByte(s: string): Option<byte> {
    var t := SkipSpace(s);
    if t == "" then None
    else if t[0] == '-' || t[0] == '+' then
      if |t| == 1 || DigitValue(t[1]).None? then None
      else Some(if t[0] == '-' then ToByte(0 - DigitValue(t[1]).value as int) else DigitValue(t[1]).value)
    else
      match DigitValue(t[0])
      case None => None
      case Some(high) =>
        if |t| == 1 || DigitValue(t[1]).None? then Some(high) else Some(16 * high + DigitValue(t[1]).value)
  }

  /** What the decoding loop leaves in a buffer: a byte for every second place of the text, where one can be scanned. */
  function Decoded(before: seq<byte>, text: string): (r: seq<byte>)
    requires |text| <= 2 * |before|
    ensures |r| == |before|
  {
    seq(|before|, k requires 0 <= k < |before| =>
      if 2 * k < |text| && ScanByte(text[2 * k..]).Some? then ScanByte(text[2 * k..]).value else before[k])
  }

  method HexToBytes(text: string, out: array<byte>)
    requires |text| <= 2 * out.Length
    modifies out
    ensures out[..] == Decoded(old(out[..]), text)
  {
    var count := 0;
    ghost var before := out[..];
    while count < |text|
      invariant count % 2 == 0 && count / 2 <= out.Length
      invariant count < |text| + 2
      invariant forall k :: 0 <= k < out.Length ==>
        out[k] == if k < count / 2 then Decoded(before, text)[k] else before[k]
    {
      var scanned := ScanByte(text[count..]);
      if scanned.Some? {
        out[count / 2] := scanned.value;
      }
      count := count + 2;
    }
    assert forall k :: 0 <= k < out.Length ==> out[k] == Decoded(before, text)[k];
  }

  lemma DigitsScan(b: byte, rest: string)
    ensures ScanByte([HexDigit(b / 16), HexDigit(b % 16)] + rest) == Some(b)
  {
    var t := [HexDigit(b / 16), HexDigit(b % 16)] + rest;
    assert t[0] == HexDigit(b / 16) && t[1] == HexDigit(b % 16);
    assert !IsSpace(t[0]);
    assert SkipSpace(t) == t;
  }

  /** The byte that the loop finds at its place in the text of some bytes. */
  lemma EncodedByteScans(bytes: seq<byte>, k: nat)
    requires k < |bytes|
    ensures 2 * k < |Encode(bytes)| && ScanByte(Encode(bytes)[2 * k..]) == Some(bytes[k])
  {
    var text := Encode(bytes);
    EncodeAt(bytes, k);
    DigitsScan(bytes[k], text[2 * k + 2..]);
    assert text[2 * k..] == [HexDigit(bytes[k] / 16), HexDigit(bytes[k] % 16)] + text[2 * k + 2..];
  }

  /** Decoding the text of any bytes into a buffer restores them, and leaves the rest of the buffer alone. */
  lemma DecodeEncode(bytes: seq<byte>, before: seq<byte>)
    requires |bytes| <= |before|
    ensures |Encode(bytes)| == 2 * |bytes|
    ensures Decoded(before, Encode(bytes)) == bytes + before[|bytes|..]
  {
    EncodeLength(bytes);
    var decoded, all := Decoded(before, Encode(bytes)), bytes + before[|bytes|..];
    forall k | 0 <= k < |before| ensures decoded[k] == all[k] {
      if k < |bytes| { EncodedByteScans(bytes, k); }
    }
  }

  /** Two digits in any case are read as one byte, the first counting sixteen times. */
  lemma PairScans(high: nat, low: nat, digits: string, rest: string)
    requires high < 16 && low < 16 && |digits| == 2
    requires digits[0] in ["0123456789abcdef"[high], "0123456789ABCDEF"[high]]
    requires digits[1] in ["0123456789abcdef"[low], "0123456789ABCDEF"[low]]
    ensures ScanByte(digits + rest) == Some(16 * high + low)
  {
    HexDigitsAre(high);
    HexDigitsAre(low);
    var t := digits + rest;
    assert t[0] == digits[0] && t[1] == digits[1];
    assert !IsSpace(t[0]);
    assert SkipSpace(t) == t;
  }

  predicate LowercaseHex(c: char) {
    '0' <= c <= '9' || 'a' <= c <= 'f'
  }

  lemma LowercaseAre(c: char)
    ensures LowercaseHex(c) <==> c in "0123456789abcdef"
  {
  }

  lemma DigitsOfScanned(s: string)
    requires |s| >= 2 && LowercaseHex(s[0]) && LowercaseHex(s[1])
    ensures ScanByte(s).Some?
    ensures HexDigit(ScanByte(s).value / 16) == s[0] && HexDigit(ScanByte(s).value % 16) == s[1]
  {
    assert SkipSpace(s) == s;
  }

  /** Re-encoding what was decoded from lowercase digits of even number gives the same text. */
  lemma EncodeDecode(text: string, before: seq<byte>)
    requires |text| % 2 == 0 && |text| <= 2 * |before|
    requires forall i :: 0 <= i < |text| ==> LowercaseHex(text[i])
    ensures Encode(Decoded(before, text)[..|text| / 2]) == text
  {
    var bytes := Decoded(before, text)[..|text| / 2];
    EncodeLength(bytes);
    forall i | 0 <= i < |text| ensures Encode(bytes)[i] == text[i] {
      var k := i / 2;
      EncodeAt(bytes, k);
      assert text[2 * k..][0] == text[2 * k] && text[2 * k..][1] == text[2 * k + 1];
      DigitsOfScanned(text[2 * k..]);
      assert i == 2 * k || i == 2 * k + 1;
    }
  }
}
