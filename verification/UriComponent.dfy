/** encodeURIComponent, section 19.2.6 of ECMA-262, on strings without unpaired surrogates. */
module UriComponent {
  import opened Basics

  type Byte = n: nat | n < 256

  /** The characters that stand for themselves. */
  predicate Unreserved(c: char) {
    'a' <= c <= 'z' || 'A' <= c <= 'Z' || '0' <= c <= '9'
    || c in {'-', '_', '.', '!', '~', '*', '\'', '(', ')'}
  }

  function Utf8(c: char): (r: seq<Byte>)
    ensures 1 <= |r| <= 4
  {
    var n := c as int;
    if n < 0x80 then [n]
    else if n < 0x800 then [0xC0 + n / 64, 0x80 + n % 64]
    else if n < 0x10000 then [0xE0 + n / 4096, 0x80 + n / 64 % 64, 0x80 + n % 64]
    else [0xF0 + n / 262144, 0x80 + n / 4096 % 64, 0x80 + n / 64 % 64, 0x80 + n % 64]
  }

  function UpperHex(n: nat): (c: char)
    requires n < 16
  {
    if n < 10 then '0' + n as char else 'A' + (n - 10) as char
  }

  function Percent(bytes: seq<Byte>): string {
    if bytes == [] then "" else ['%', UpperHex(bytes[0] / 16), UpperHex(bytes[0] % 16)] + Percent(bytes[1..])
  }

  function EncodeChar(c: char): string {
    if Unreserved(c) then [c] else Percent(Utf8(c))
  }

  function Encode(s: string): string {
    if s == "" then "" else EncodeChar(s[0]) + Encode(s[1..])
  }

  // ----- decoding ----------------------------------------------------------------------------------

  function HexOf(c: char): Option<nat> {
    if '0' <= c <= '9' then Some(c as int - '0' as int)
    else if 'A' <= c <= 'F' then Some(c as int - 'A' as int + 10)
    else None
  }

  function ReadByte(text: string): Option<nat> {
    if |text| >= 3 && text[0] == '%' && HexOf(text[1]).Some? && HexOf(text[2]).Some?
    then Some(HexOf(text[1]).value * 16 + HexOf(text[2]).value)
    else None
  }

  /** How many bytes the first of them announces. */
  function Announced(lead: nat): nat {
    if lead < 0x80 then 1 else if lead < 0xE0 then 2 else if lead < 0xF0 then 3 else 4
  }

  function ReadBytes(text: string, n: nat): Option<seq<nat>> {
    if n == 0 then Some([])
    else if ReadByte(text).None? then None
    else
      var more := ReadBytes(text[3..], n - 1);
      if more.None? then None else Some([ReadByte(text).value] + more.value)
  }

  function CodePoint(bytes: seq<int>): int {
    if |bytes| == 1 then bytes[0]
    else if |bytes| == 2 then (bytes[0] - 0xC0) * 64 + (bytes[1] - 0x80)
    else if |bytes| == 3 then (bytes[0] - 0xE0) * 4096 + (bytes[1] - 0x80) * 64 + (bytes[2] - 0x80)
    else if |bytes| == 4 then
      (bytes[0] - 0xF0) * 262144 + (bytes[1] - 0x80) * 4096 + (bytes[2] - 0x80) * 64 + (bytes[3] - 0x80)
    else 0
  }

  predicate IsScalar(n: int) {
    0 <= n < 0xD800 || 0xE000 <= n < 0x110000
  }

  /** The first encoded character and what follows it. */
  function DecodeFirst(text: string): (r: Option<(char, string)>)
    ensures r.Some? ==> |r.value.1| < |text|
  {
    if text == "" then None
    else if text[0] != '%' then Some((text[0], text[1..]))
    else if ReadByte(text).None? then None
    else
      var k := Announced(ReadByte(text).value);
      var bytes := ReadBytes(text, k);
      if bytes.None? || |text| < 3 * k || !IsScalar(CodePoint(bytes.value)) then None
      else Some((CodePoint(bytes.value) as char, text[3 * k..]))
  }

  function Decode(text: string): Option<string>
    decreases |text|
  {
    if text == "" then Some("")
    else
      var first := DecodeFirst(text);
      if first.None? then None
      else
        var more := Decode(first.value.1);
        if more.None? then None else Some([first.value.0] + more.value)
  }

  lemma {:induction false} PercentLength(bytes: seq<Byte>)
    ensures |Percent(bytes)| == 3 * |bytes|
  {
    if bytes != [] {
      PercentLength(bytes[1..]);
    }
  }

  lemma ByteReadsBack(b: Byte, rest: string)
    ensures ReadByte(['%', UpperHex(b / 16), UpperHex(b % 16)] + rest) == Some(b)
  {
    HexReadsBack(b);
  }

  lemma {:induction false} PercentReadsBack(bytes: seq<Byte>, rest: string)
    ensures ReadBytes(Percent(bytes) + rest, |bytes|) == Some(bytes)
  {
    if bytes != [] {
      var text := Percent(bytes) + rest;
      var more := Percent(bytes[1..]) + rest;
      assert text == ['%', UpperHex(bytes[0] / 16), UpperHex(bytes[0] % 16)] + more;
      assert text[3..] == more;
      ByteReadsBack(bytes[0], more);
      PercentReadsBack(bytes[1..], rest);
      assert [bytes[0]] + bytes[1..] == bytes;
    }
  }

  lemma HexReadsBack(b: Byte)
    ensures HexOf(UpperHex(b / 16)) == Some(b / 16) && HexOf(UpperHex(b % 16)) == Some(b % 16)
    ensures b / 16 * 16 + b % 16 == b
  {
  }

  lemma CodePointReadsBack(c: char)
    ensures CodePoint(Utf8(c)) == c as int
    ensures Announced(Utf8(c)[0]) == |Utf8(c)|
    ensures IsScalar(c as int)
  {
    var n := c as int;
    if n >= 0x80 {
      assert n == n / 64 * 64 + n % 64;
      assert n / 64 == n / 4096 * 64 + n / 64 % 64;
      assert n / 4096 == n / 262144 * 64 + n / 4096 % 64;
    }
  }

  lemma CharReadsBack(c: char, rest: string)
    ensures DecodeFirst(EncodeChar(c) + rest) == Some((c, rest))
  {
    var text := EncodeChar(c) + rest;
    if Unreserved(c) {
      assert text[1..] == rest;
    } else {
      var bytes := Utf8(c);
      PercentReadsBack(bytes, rest);
      PercentLength(bytes);
      CodePointReadsBack(c);
      assert ReadBytes(text, |bytes|) == Some(bytes);
      assert ReadByte(text) == Some(bytes[0]);
      assert text[3 * |bytes|..] == rest;
    }
  }

  /** What was encoded decodes to itself, so no two strings share an encoding. */
  lemma {:induction false} DecodeEncode(s: string)
    ensures Decode(Encode(s)) == Some(s)
    decreases |s|
  {
    if s != "" {
      CharReadsBack(s[0], Encode(s[1..]));
      DecodeEncode(s[1..]);
      assert [s[0]] + s[1..] == s;
    }
  }

  lemma {:induction false} PercentHasNoColon(bytes: seq<Byte>)
    ensures ':' !in Percent(bytes)
  {
    if bytes != [] {
      PercentHasNoColon(bytes[1..]);
    }
  }

  lemma {:induction false} EncodedHasNoColon(s: string)
    ensures ':' !in Encode(s)
  {
    if s != "" {
      PercentHasNoColon(Utf8(s[0]));
      EncodedHasNoColon(s[1..]);
    }
  }

  // ----- what is encoded, and how ------------------------------------------------------------------

  predicate IsPlain(s: string) {
    forall i :: 0 <= i < |s| ==>
      'a' <= s[i] <= 'z' || 'A' <= s[i] <= 'Z' || '0' <= s[i] <= '9'
      || s[i] in {'-', '_', '.', '!', '~', '*', '\'', '(', ')'}
  }

  /** Letters, digits and a few marks stand for themselves. */
  lemma {:induction false} PlainTextStays(s: string)
    requires IsPlain(s)
    ensures Encode(s) == s
  {
    if s != "" {
      PlainTextStays(s[1..]);
      assert [s[0]] + s[1..] == s;
    }
  }

  lemma OneByte(b: Byte)
    ensures Percent([b]) == ['%', UpperHex(b / 16), UpperHex(b % 16)]
  {
    assert [b][1..] == [] && Percent([]) == "";
  }

  lemma TwoBytes(a: Byte, b: Byte)
    ensures Percent([a, b]) == Percent([a]) + Percent([b])
  {
    assert [a, b][1..] == [b] && [a][1..] == [];
    assert Percent([a, b]) == ['%', UpperHex(a / 16), UpperHex(a % 16)] + Percent([b]);
    OneByte(a);
  }

  /** Everything else is written byte by byte, in capitals. */
  lemma OthersAreEncoded()
    ensures EncodeChar(' ') == "%20" && EncodeChar(':') == "%3A" && EncodeChar('%') == "%25"
    ensures EncodeChar('\U{E9}') == "%C3%A9"
  {
    hide Percent;
    OneByte(0x20);
    OneByte(0x3A);
    OneByte(0x25);
    OneByte(0xC3);
    OneByte(0xA9);
    TwoBytes(0xC3, 0xA9);
    assert Utf8('\U{E9}') == [0xC3, 0xA9];
  }
}
