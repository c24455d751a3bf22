/**
 * The two percent-encodings the backend uses. `encodeURIComponent`, which
 * apps/backend/src/services/gemini.ts applies to the API key: every
 * character other than the unreserved ones becomes the `%XX` escapes of its
 * UTF-8 bytes, with upper-case hexadecimal digits. And the
 * application/x-www-form-urlencoded serializer of the WHATWG URL Standard,
 * which `URLSearchParams.toString()` in apps/backend/src/routes/auth.ts
 * uses: the same escapes over a smaller unchanged set, with a space written
 * as `+`.
 */
module Uri {
  import opened Text

  /** The characters `encodeURIComponent` leaves as they are. */
  predicate IsUnreserved(c: char) {
    IsAsciiLetter(c) || IsDigit(c) || c in "-_.!~*'()"
  }

  predicate IsUpperHex(c: char) {
    IsDigit(c) || 'A' <= c <= 'F'
  }

  function HexDigit(d: nat): (c: char)
    requires d < 16
    ensures IsUpperHex(c) && HexValue(c) == d
  {
    if d < 10 then ('0' as int + d) as char else ('A' as int + d - 10) as char
  }

  /** The value of an upper-case hexadecimal digit. */
  function HexValue(c: char): nat
    requires IsUpperHex(c)
  {
    if IsDigit(c) then c as int - '0' as int else c as int - 'A' as int + 10
  }

  /** The escape of one byte. */
  function PercentByte(b: nat): (r: string)
    requires b < 256
    ensures |r| == 3 && r[0] == '%' && IsUpperHex(r[1]) && IsUpperHex(r[2])
    ensures 16 * HexValue(r[1]) + HexValue(r[2]) == b
  {
    ['%', HexDigit(b / 16), HexDigit(b % 16)]
  }

  /** The UTF-8 encoding of a Unicode scalar value. */
  function Utf8(c: char): (r: seq<nat>)
    ensures 1 <= |r| <= 4 && forall k :: 0 <= k < |r| ==> r[k] < 256
    ensures c as int < 0x80 <==> |r| == 1
    ensures |r| == 1 ==> r[0] == c as int
  {
    var n := c as int;
    if n < 0x80 then [n]
    else if n < 0x800 then [0xC0 + n / 64, 0x80 + n % 64]
    else if n < 0x10000 then [0xE0 + n / 4096, 0x80 + (n / 64) % 64, 0x80 + n % 64]
    else [0xF0 + n / 262144, 0x80 + (n / 4096) % 64, 0x80 + (n / 64) % 64, 0x80 + n % 64]
  }

  function EscapeBytes(bs: seq<nat>): (r: string)
    requires forall k :: 0 <= k < |bs| ==> bs[k] < 256
    ensures |r| == 3 * |bs|
    ensures forall k :: 0 <= k < |r| ==> r[k] == '%' || IsUpperHex(r[k])
  {
    if bs == [] then [] else PercentByte(bs[0]) + EscapeBytes(bs[1..])
  }

  function EncodeChar(c: char): (r: string)
    ensures IsUnreserved(c) ==> r == [c]
    ensures !IsUnreserved(c) ==> 3 <= |r| <= 12 && r[0] == '%'
    ensures forall k :: 0 <= k < |r| ==> IsUnreserved(r[k]) || r[k] == '%' || IsUpperHex(r[k])
  {
    if IsUnreserved(c) then [c] else EscapeBytes(Utf8(c))
  }

  function EncodeURIComponent(s: string): (r: string)
    ensures forall k :: 0 <= k < |r| ==> IsUnreserved(r[k]) || r[k] == '%' || IsUpperHex(r[k])
  {
    if s == [] then [] else EncodeChar(s[0]) + EncodeURIComponent(s[1..])
  }

  /** A string of unreserved characters is its own encoding. */
  lemma {:induction false} UnreservedUnchanged(s: string)
    requires forall k :: 0 <= k < |s| ==> IsUnreserved(s[k])
    ensures EncodeURIComponent(s) == s
  {
    if s != [] {
      UnreservedUnchanged(s[1..]);
    }
  }

  /**
   * The encoding holds no character that would end the `key` parameter or
   * the URL: no `&`, `=`, `#`, `?`, `/`, space or `+`.
   */
  lemma EncodedIsQuerySafe(s: string)
    ensures forall k :: 0 <= k < |EncodeURIComponent(s)| ==>
      EncodeURIComponent(s)[k] !in "&=#?/ +"
  {
    var r := EncodeURIComponent(s);
    forall k | 0 <= k < |r| ensures r[k] !in "&=#?/ +" {
      assert IsUnreserved(r[k]) || r[k] == '%' || IsUpperHex(r[k]);
    }
  }

  /** An ASCII character that is not unreserved is one escape that decodes back to it. */
  lemma AsciiEscapeRoundTrip(c: char)
    requires c as int < 0x80 && !IsUnreserved(c)
    ensures var r := EncodeChar(c);
      |r| == 3 && r[0] == '%' && IsUpperHex(r[1]) && IsUpperHex(r[2]) &&
      16 * HexValue(r[1]) + HexValue(r[2]) == c as int
  {
    assert Utf8(c) == [c as int];
    assert EscapeBytes([c as int]) == PercentByte(c as int) + EscapeBytes([]);
  }

  // ---------------------------------------------------------------- form encoding

  /** The characters the form serializer leaves as they are. */
  predicate IsFormSafe(c: char) {
    IsAsciiLetter(c) || IsDigit(c) || c in "*-._"
  }

  function FormEncodeChar(c: char): (r: string)
    ensures IsFormSafe(c) ==> r == [c]
    ensures c == ' ' ==> r == "+"
    ensures forall k :: 0 <= k < |r| ==> IsFormSafe(r[k]) || r[k] == '+' || r[k] == '%' || IsUpperHex(r[k])
  {
    if IsFormSafe(c) then [c] else if c == ' ' then "+" else EscapeBytes(Utf8(c))
  }

  /** The form encoding of a name or a value. */
  function FormEncode(s: string): (r: string)
    ensures forall k :: 0 <= k < |r| ==> IsFormSafe(r[k]) || r[k] == '+' || r[k] == '%' || IsUpperHex(r[k])
  {
    if s == [] then [] else FormEncodeChar(s[0]) + FormEncode(s[1..])
  }

  /** `new URLSearchParams(pairs).toString()`: `name=value` pairs joined with `&`. */
  function FormSerialize(pairs: seq<(string, string)>): string {
    if pairs == [] then []
    else
      var head := FormEncode(pairs[0].0) + "=" + FormEncode(pairs[0].1);
      if |pairs| == 1 then head else head + "&" + FormSerialize(pairs[1..])
  }

  /** The UTF-8 bytes of a string. */
  function Utf8Bytes(s: string): (r: seq<nat>)
    ensures forall k :: 0 <= k < |r| ==> r[k] < 256
  {
    if s == [] then [] else Utf8(s[0]) + Utf8Bytes(s[1..])
  }

  /**
   * The bytes a form-encoded name or value stands for: `+` is a space, an
   * escape is its byte, any other character its UTF-8 bytes.
   */
  function FormDecodeBytes(s: string): (r: seq<nat>)
    decreases |s|
  {
    if s == [] then []
    else if s[0] == '+' then [0x20] + FormDecodeBytes(s[1..])
    else if s[0] == '%' && |s| >= 3 && IsUpperHex(s[1]) && IsUpperHex(s[2]) then
      [16 * HexValue(s[1]) + HexValue(s[2])] + FormDecodeBytes(s[3..])
    else Utf8(s[0]) + FormDecodeBytes(s[1..])
  }

  /** One escape decodes to its byte, whatever follows. */
  lemma PercentDecodes(b: nat, rest: string)
    requires b < 256
    ensures FormDecodeBytes(PercentByte(b) + rest) == [b] + FormDecodeBytes(rest)
  {
    var t := PercentByte(b) + rest;
    assert t[0] == '%' && t[1] == PercentByte(b)[1] && t[2] == PercentByte(b)[2];
    assert t[3..] == rest;
  }

  /** Escapes decode to their bytes, whatever follows. */
  lemma {:induction false} EscapesDecode(bs: seq<nat>, rest: string)
    requires forall k :: 0 <= k < |bs| ==> bs[k] < 256
    ensures FormDecodeBytes(EscapeBytes(bs) + rest) == bs + FormDecodeBytes(rest)
  {
    if bs != [] {
      var tail := EscapeBytes(bs[1..]) + rest;
      assert EscapeBytes(bs) + rest == PercentByte(bs[0]) + tail;
      PercentDecodes(bs[0], tail);
      EscapesDecode(bs[1..], rest);
      assert bs == [bs[0]] + bs[1..];
    } else {
      assert EscapeBytes(bs) + rest == rest;
    }
  }

  /** The encoding of one character decodes to its UTF-8 bytes, whatever follows. */
  lemma CharDecodes(c: char, rest: string)
    ensures FormDecodeBytes(FormEncodeChar(c) + rest) == Utf8(c) + FormDecodeBytes(rest)
  {
    if IsFormSafe(c) {
      assert ([c] + rest)[1..] == rest;
    } else if c == ' ' {
      assert ("+" + rest)[1..] == rest;
    } else {
      EscapesDecode(Utf8(c), rest);
    }
  }

  /** Decoding a form-encoded string gives back the string's UTF-8 bytes. */
  lemma {:induction false} FormRoundTrip(s: string)
    ensures FormDecodeBytes(FormEncode(s)) == Utf8Bytes(s)
  {
    if s != [] {
      CharDecodes(s[0], FormEncode(s[1..]));
      FormRoundTrip(s[1..]);
    }
  }

  /** An encoded name or value holds no `&`, `=`, `?` or `#`, so it cannot end its pair or the query. */
  lemma FormEncodedIsDelimiterFree(s: string)
    ensures forall k :: 0 <= k < |FormEncode(s)| ==> FormEncode(s)[k] !in "&=?#"
  {
    var r := FormEncode(s);
    forall k | 0 <= k < |r| ensures r[k] !in "&=?#" {
      assert IsFormSafe(r[k]) || r[k] == '+' || r[k] == '%' || IsUpperHex(r[k]);
    }
  }
}
