/**
  `encodeURIComponent` and the shopping-search URL built from it: every code
  point outside the unreserved set is written as the percent-escapes of its
  UTF-8 bytes.
*/
module Uri {
  import opened Text

  /** The characters `encodeURIComponent` leaves as they are. */
  predicate Unreserved(c: char) {
    || 'A' <= c <= 'Z' || 'a' <= c <= 'z' || IsDigit(c)
    || c == '-' || c == '_' || c == '.' || c == '!' || c == '~' || c == '*' || c == '\'' || c == '(' || c == ')'
  }

  predicate IsHexDigit(c: char) {
    IsDigit(c) || 'A' <= c <= 'F'
  }

  /** A character that can appear in an encoded component. */
  predicate UriSafe(c: char) {
    Unreserved(c) || c == '%'
  }

  /** Every `%` in `r` opens an escape: two hex digits follow it. */
  predicate PercentsEscaped(r: string) {
    forall i :: 0 <= i < |r| && r[i] == '%' ==> i + 2 < |r| && IsHexDigit(r[i + 1]) && IsHexDigit(r[i + 2])
  }

  /** Escapes stay whole when two encoded texts are joined. */
  lemma PercentsEscapedAppend(a: string, b: string)
    requires PercentsEscaped(a) && PercentsEscaped(b)
    ensures PercentsEscaped(a + b)
  {
    var r := a + b;
    forall i | 0 <= i < |r| && r[i] == '%'
      ensures i + 2 < |r| && IsHexDigit(r[i + 1]) && IsHexDigit(r[i + 2])
    {
      if i >= |a| {
        assert b[i - |a|] == '%';
      }
    }
  }

  function HexDigit(d: nat): (c: char)
    requires d < 16
    ensures IsHexDigit(c)
  {
    if d < 10 then DigitChar(d) else (55 + d) as char
  }

  /** The UTF-8 encoding of one code point. */
  function Utf8(c: char): (bytes: seq<nat>)
    ensures 1 <= |bytes| <= 4
    ensures forall i :: 0 <= i < |bytes| ==> bytes[i] < 256
    ensures |bytes| == 1 <==> c as int < 0x80
  {
    var cp := c as int;
    if cp < 0x80 then [cp]
    else if cp < 0x800 then [0xC0 + cp / 64, 0x80 + cp % 64]
    else if cp < 0x10000 then [0xE0 + cp / 4096, 0x80 + (cp / 64) % 64, 0x80 + cp % 64]
    else [0xF0 + cp / 262144, 0x80 + (cp / 4096) % 64, 0x80 + (cp / 64) % 64, 0x80 + cp % 64]
  }

  function Escapes(bytes: seq<nat>): (r: string)
    requires forall i :: 0 <= i < |bytes| ==> bytes[i] < 256
    ensures |r| == 3 * |bytes|
    ensures forall i :: 0 <= i < |r| ==> r[i] == '%' || IsHexDigit(r[i])
    ensures PercentsEscaped(r)
  {
    if bytes == [] then []
    else
      var rest := Escapes(bytes[1..]);
      PercentsEscapedAppend(['%', HexDigit(bytes[0] / 16), HexDigit(bytes[0] % 16)], rest);
      ['%', HexDigit(bytes[0] / 16), HexDigit(bytes[0] % 16)] + rest
  }

  function EncodeChar(c: char): string {
    if Unreserved(c) then [c] else Escapes(Utf8(c))
  }

  /**
    `encodeURIComponent(s)`. Strings here are sequences of Unicode scalar
    values, so the lone-surrogate `URIError` cannot arise.
  */
  function EncodeComponent(s: string): (r: string)
    ensures |r| >= |s|
    ensures forall i :: 0 <= i < |r| ==> UriSafe(r[i])
    ensures PercentsEscaped(r)
    ensures (forall i :: 0 <= i < |s| ==> Unreserved(s[i])) ==> r == s
  {
    if s == [] then []
    else
      var rest := EncodeComponent(s[1..]);
      PercentsEscapedAppend(EncodeChar(s[0]), rest);
      EncodeChar(s[0]) + rest
  }

  const SearchBase: string := "https://search.shopping.naver.com/search/all?query="

  /**
    The shopping-search URL for a product name, with the name
    percent-encoded: after the base there is no character the encoding
    escapes (no space, `&`, `#` or non-ASCII letter), and a name made of
    unreserved characters only is appended as it is.
  */
  function SearchUrl(name: string): (url: string)
    ensures |url| >= |SearchBase| + |name| && url[..|SearchBase|] == SearchBase
    ensures forall i :: |SearchBase| <= i < |url| ==> UriSafe(url[i])
    ensures PercentsEscaped(url[|SearchBase|..])
    ensures (forall i :: 0 <= i < |name| ==> Unreserved(name[i])) ==> url == SearchBase + name
  {
    assert (SearchBase + EncodeComponent(name))[|SearchBase|..] == EncodeComponent(name);
    SearchBase + EncodeComponent(name)
  }
}
