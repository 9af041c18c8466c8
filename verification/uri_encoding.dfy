/** Percent-encoding of URI data (`Uri.EscapeDataString`, which follows the
    unreserved set of section 2.3 of RFC 3986 and escapes every other
    character as the `%XX` triples of its UTF-8 bytes) and the decoding a
    receiver applies to a query-string value (`+` is a space, `%XX` is a byte). */
module UriEncoding {
  import opened Wrappers

  /** ALPHA / DIGIT / "-" / "." / "_" / "~" */
  predicate Unreserved(c: char) {
    || 'A' <= c <= 'Z'
    || 'a' <= c <= 'z'
    || '0' <= c <= '9'
    || c == '-' || c == '.' || c == '_' || c == '~'
  }

  /** A character that may appear in escaped output. */
  predicate EscapedOutputChar(c: char) {
    Unreserved(c) || c == '%'
  }

  predicate IsAscii(s: string) {
    forall i :: 0 <= i < |s| ==> s[i] as int < 0x80
  }

  function HexValue(c: char): (r: Option<nat>)
    ensures r.Some? ==> r.value < 16
  {
    if '0' <= c <= '9' then Some(c as int - '0' as int)
    else if 'A' <= c <= 'F' then Some(c as int - 'A' as int + 10)
    else if 'a' <= c <= 'f' then Some(c as int - 'a' as int + 10)
    else None
  }

  /** Upper-case hexadecimal digit, as the escaper writes it. */
  function HexDigit(d: nat): (c: char)
    requires d < 16
    ensures Unreserved(c)
    ensures HexValue(c) == Some(d)
  {
    if d < 10 then ('0' as int + d) as char else ('A' as int + d - 10) as char
  }

  predicate IsByte(b: int) {
    0 <= b < 0x100
  }

  /** The UTF-8 encoding of one Unicode scalar value. */
  function Utf8(c: char): (bytes: seq<int>)
    ensures 1 <= |bytes| <= 4
    ensures forall i :: 0 <= i < |bytes| ==> IsByte(bytes[i])
    ensures c as int < 0x80 <==> |bytes| == 1
    ensures c as int < 0x80 ==> bytes == [c as int]
  {
    var cp := c as int;
    if cp < 0x80 then [cp]
    else if cp < 0x800 then [0xC0 + cp / 0x40, 0x80 + cp % 0x40]
    else if cp < 0x10000 then [0xE0 + cp / 0x1000, 0x80 + (cp / 0x40) % 0x40, 0x80 + cp % 0x40]
    else [0xF0 + cp / 0x40000, 0x80 + (cp / 0x1000) % 0x40, 0x80 + (cp / 0x40) % 0x40, 0x80 + cp % 0x40]
  }

  function PercentTriple(b: int): (t: string)
    requires IsByte(b)
    ensures |t| == 3 && t[0] == '%'
    ensures forall i :: 0 <= i < |t| ==> EscapedOutputChar(t[i])
  {
    ['%', HexDigit(b / 16), HexDigit(b % 16)]
  }

  function PercentBytes(bytes: seq<int>): (t: string)
    requires forall i :: 0 <= i < |bytes| ==> IsByte(bytes[i])
    ensures |t| == 3 * |bytes|
    ensures forall i :: 0 <= i < |t| ==> EscapedOutputChar(t[i])
  {
    if bytes == [] then [] else PercentTriple(bytes[0]) + PercentBytes(bytes[1..])
  }

  function EscapeChar(c: char): string {
    if Unreserved(c) then [c] else PercentBytes(Utf8(c))
  }

  /** `Uri.EscapeDataString`: every character outside the unreserved set is
      replaced by the percent-escapes of its UTF-8 bytes. */
  function EscapeDataString(s: string): (r: string)
    ensures forall i :: 0 <= i < |r| ==> EscapedOutputChar(r[i])
    ensures |s| <= |r|
  {
    if s == [] then [] else EscapeChar(s[0]) + EscapeDataString(s[1..])
  }

  /** How a query-string value is read back: `+` becomes a space, `%XX`
      naming an ASCII byte becomes that character, anything else is kept. */
  function FormDecode(t: string): string
    decreases |t|
  {
    if t == [] then []
    else if t[0] == '+' then " " + FormDecode(t[1..])
    else if t[0] == '%' && 3 <= |t| && HexValue(t[1]).Some? && HexValue(t[2]).Some?
            && 16 * HexValue(t[1]).value + HexValue(t[2]).value < 0x80 then
      [(16 * HexValue(t[1]).value + HexValue(t[2]).value) as char] + FormDecode(t[3..])
    else [t[0]] + FormDecode(t[1..])
  }

  lemma DecodeTriple(c: char, rest: string)
    requires c as int < 0x80
    ensures FormDecode(PercentTriple(c as int) + rest) == [c] + FormDecode(rest)
  {
  }

  lemma DecodePlain(c: char, rest: string)
    requires c != '+' && c != '%'
    ensures FormDecode([c] + rest) == [c] + FormDecode(rest)
  {
  }

  /** Decoding undoes escaping for ASCII text: a value sent escaped is read
      back unchanged. */
  lemma {:induction false} EscapeRoundTrip(s: string)
    requires IsAscii(s)
    ensures FormDecode(EscapeDataString(s)) == s
    decreases |s|
  {
    if s != [] {
      var c := s[0];
      var rest := EscapeDataString(s[1..]);
      assert IsAscii(s[1..]) by {
        forall i | 0 <= i < |s[1..]| ensures s[1..][i] as int < 0x80 {
          assert s[1..][i] == s[i + 1];
        }
      }
      EscapeRoundTrip(s[1..]);
      if Unreserved(c) {
        DecodePlain(c, rest);
      } else {
        assert PercentBytes(Utf8(c)) == PercentTriple(c as int) + [];
        DecodeTriple(c, rest);
      }
      assert s == [c] + s[1..];
    }
  }

  /** Text with no `%` is decoded one character at a time, `+` to a space. */
  lemma {:induction false} DecodeWithoutPercent(t: string)
    requires forall i :: 0 <= i < |t| ==> t[i] != '%'
    ensures |FormDecode(t)| == |t|
    ensures forall i :: 0 <= i < |t| ==> FormDecode(t)[i] == (if t[i] == '+' then ' ' else t[i])
    decreases |t|
  {
    if t != [] {
      DecodeWithoutPercent(t[1..]);
    }
  }
}
