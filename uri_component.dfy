/**
 * JavaScript's `encodeURIComponent`, which the search request applies to the
 * query: every character outside the unreserved set becomes the `%XY`
 * escapes of its UTF-8 bytes, with upper-case hexadecimal digits. Dafny's
 * `char` is a Unicode scalar value, so the lone surrogates on which the
 * JavaScript function throws cannot occur.
 */
module UriComponent {
  import opened Wrappers

  /** `A-Z a-z 0-9 - _ . ! ~ * ' ( )`, the characters left as they are. */
  predicate IsUnreserved(c: char) {
    ('A' <= c <= 'Z') || ('a' <= c <= 'z') || ('0' <= c <= '9')
    || c == '-' || c == '_' || c == '.' || c == '!' || c == '~' || c == '*'
    || c == '\'' || c == '(' || c == ')'
  }

  predicate IsUpperHex(c: char) {
    ('0' <= c <= '9') || ('A' <= c <= 'F')
  }

  /** What an encoded component may contain. */
  predicate IsEncodedChar(c: char) {
    IsUnreserved(c) || c == '%' || IsUpperHex(c)
  }

  function HexValue(c: char): int
    requires IsUpperHex(c)
  {
    if c <= '9' then (c as int) - ('0' as int) else (c as int) - ('A' as int) + 10
  }

  function HexDigit(d: nat): (c: char)
    requires d < 16
    ensures IsUpperHex(c) && HexValue(c) == d
  {
    if d < 10 then ('0' as int + d) as char else ('A' as int + d - 10) as char
  }

  /** `%XY` for one byte. */
  function PercentByte(b: nat): (r: string)
    requires b < 256
    ensures |r| == 3 && r[0] == '%' && IsUpperHex(r[1]) && IsUpperHex(r[2])
    ensures HexValue(r[1]) * 16 + HexValue(r[2]) == b
  {
    ['%', HexDigit(b / 16), HexDigit(b % 16)]
  }

  /** The UTF-8 encoding of a code point. */
  function Utf8(n: nat): (bytes: seq<nat>)
    requires n < 0x11_0000
    ensures 1 <= |bytes| <= 4
    ensures forall i :: 0 <= i < |bytes| ==> bytes[i] < 256
    ensures |bytes| == 1 <==> n < 0x80
  {
    if n < 0x80 then [n]
    else if n < 0x800 then [0xC0 + n / 64, 0x80 + n % 64]
    else if n < 0x1_0000 then [0xE0 + n / 4096, 0x80 + (n / 64) % 64, 0x80 + n % 64]
    else [0xF0 + n / 262144, 0x80 + (n / 4096) % 64, 0x80 + (n / 64) % 64, 0x80 + n % 64]
  }

  /** The code point a well-formed UTF-8 sequence of one to four bytes stands for. */
  function Utf8Value(bytes: seq<nat>): int
    requires 1 <= |bytes| <= 4
  {
    if |bytes| == 1 then bytes[0]
    else if |bytes| == 2 then (bytes[0] as int - 0xC0) * 64 + (bytes[1] as int - 0x80)
    else if |bytes| == 3 then (bytes[0] as int - 0xE0) * 4096 + (bytes[1] as int - 0x80) * 64 + (bytes[2] as int - 0x80)
    else (bytes[0] as int - 0xF0) * 262144 + (bytes[1] as int - 0x80) * 4096 + (bytes[2] as int - 0x80) * 64 + (bytes[3] as int - 0x80)
  }

  /** Decoding the UTF-8 bytes gives back the code point. */
  lemma Utf8RoundTrip(n: nat)
    requires n < 0x11_0000
    ensures Utf8Value(Utf8(n)) == n
  {
    if n < 0x80 {
    } else if n < 0x800 {
      assert n == (n / 64) * 64 + n % 64;
    } else if n < 0x1_0000 {
      assert n == (n / 4096) * 4096 + ((n / 64) % 64) * 64 + n % 64 by {
        assert n / 64 == (n / 4096) * 64 + (n / 64) % 64;
        assert n == (n / 64) * 64 + n % 64;
      }
    } else {
      assert n == (n / 262144) * 262144 + ((n / 4096) % 64) * 4096 + ((n / 64) % 64) * 64 + n % 64 by {
        assert n / 4096 == (n / 262144) * 64 + (n / 4096) % 64;
        assert n / 64 == (n / 4096) * 64 + (n / 64) % 64;
        assert n == (n / 64) * 64 + n % 64;
      }
    }
  }

  function PercentBytes(bytes: seq<nat>): (r: string)
    requires forall i :: 0 <= i < |bytes| ==> bytes[i] < 256
    ensures |r| == 3 * |bytes|
    ensures forall i :: 0 <= i < |r| ==> r[i] == '%' || IsUpperHex(r[i])
  {
    if bytes == [] then [] else PercentByte(bytes[0]) + PercentBytes(bytes[1..])
  }

  /** One character, encoded. */
  function EncodeChar(c: char): (r: string)
    ensures forall i :: 0 <= i < |r| ==> IsEncodedChar(r[i])
    ensures IsUnreserved(c) ==> r == [c]
    ensures !IsUnreserved(c) ==> |r| >= 3 && r[0] == '%'
  {
    if IsUnreserved(c) then [c] else PercentBytes(Utf8(c as int))
  }

  /** `encodeURIComponent(s)` */
  function EncodeUriComponent(s: string): (r: string)
    ensures forall i :: 0 <= i < |r| ==> IsEncodedChar(r[i])
    ensures |r| >= |s|
  {
    if s == [] then [] else EncodeChar(s[0]) + EncodeUriComponent(s[1..])
  }

  /** Encoding works character by character. */
  lemma {:induction false} EncodeAppend(a: string, b: string)
    ensures EncodeUriComponent(a + b) == EncodeUriComponent(a) + EncodeUriComponent(b)
  {
    if a == [] {
      assert a + b == b;
    } else {
      assert (a + b)[1..] == a[1..] + b;
      EncodeAppend(a[1..], b);
    }
  }

  /** A string made only of unreserved characters is its own encoding. */
  lemma {:induction false} EncodeUnreservedIdentity(s: string)
    requires forall i :: 0 <= i < |s| ==> IsUnreserved(s[i])
    ensures EncodeUriComponent(s) == s
  {
    if s != [] {
      EncodeUnreservedIdentity(s[1..]);
    }
  }

  /**
   * The number of bytes of a UTF-8 sequence, read off its first byte (the
   * continuation bytes 0x80 to 0xBF never lead an encoding).
   */
  function SequenceLength(lead: nat): (n: nat)
    ensures 1 <= n <= 4
  {
    if lead < 0x80 then 1 else if lead < 0xE0 then 2 else if lead < 0xF0 then 3 else 4
  }

  lemma Utf8Lead(n: nat)
    requires n < 0x11_0000
    ensures SequenceLength(Utf8(n)[0]) == |Utf8(n)|
  {
  }

  /** The byte `%XY` at `i` stands for, if it is one. */
  function PercentAt(r: string, i: nat): Option<nat>
    requires i + 3 <= |r|
  {
    if r[i] == '%' && IsUpperHex(r[i + 1]) && IsUpperHex(r[i + 2])
    then Some(HexValue(r[i + 1]) * 16 + HexValue(r[i + 2]))
    else None
  }

  /** The `k` bytes the first `3 * k` characters of `r` stand for, if they are escapes. */
  function UnescapeBytes(r: string, k: nat): (bytes: Option<seq<nat>>)
    requires 3 * k <= |r|
    ensures bytes.Some? ==> |bytes.value| == k
  {
    if k == 0 then Some([])
    else match PercentAt(r, 0)
      case None => None
      case Some(b) =>
        match UnescapeBytes(r[3..], k - 1)
        case None => None
        case Some(rest) => Some([b] + rest)
  }

  lemma {:induction false} UnescapePercentBytes(bytes: seq<nat>, t: string)
    requires forall i :: 0 <= i < |bytes| ==> bytes[i] < 256
    ensures 3 * |bytes| <= |PercentBytes(bytes) + t|
    ensures UnescapeBytes(PercentBytes(bytes) + t, |bytes|) == Some(bytes)
  {
    if bytes != [] {
      var r := PercentBytes(bytes) + t;
      var head := PercentByte(bytes[0]);
      assert r == head + (PercentBytes(bytes[1..]) + t);
      assert r[..3] == head;
      assert PercentAt(r, 0) == Some(bytes[0]);
      assert r[3..] == PercentBytes(bytes[1..]) + t;
      UnescapePercentBytes(bytes[1..], t);
      assert [bytes[0]] + bytes[1..] == bytes;
    }
  }

  /**
   * `decodeURIComponent` restricted to what `EncodeUriComponent` produces:
   * unreserved characters stand for themselves and each run of escapes for the
   * character whose UTF-8 encoding it spells; anything else is rejected.
   */
  function DecodeUriComponent(r: string): Option<string>
    decreases |r|
  {
    if r == [] then Some([])
    else if r[0] != '%' then
      if !IsUnreserved(r[0]) then None
      else match DecodeUriComponent(r[1..])
        case None => None
        case Some(rest) => Some([r[0]] + rest)
    else if |r| < 3 then None
    else match PercentAt(r, 0)
      case None => None
      case Some(lead) =>
        var n := SequenceLength(lead);
        if |r| < 3 * n then None
        else match UnescapeBytes(r, n)
          case None => None
          case Some(bytes) =>
            var cp := Utf8Value(bytes);
            if 0 <= cp < 0xD800 || 0xE000 <= cp < 0x11_0000 then
              match DecodeUriComponent(r[3 * n..])
              case None => None
              case Some(rest) => Some([cp as char] + rest)
            else None
  }

  /** Decoding an encoded character reads exactly that character back. */
  lemma DecodeEncodedChar(c: char, t: string)
    ensures DecodeUriComponent(EncodeChar(c) + t) ==
      match DecodeUriComponent(t)
      case None => None
      case Some(rest) => Some([c] + rest)
  {
    var r := EncodeChar(c) + t;
    if IsUnreserved(c) {
      assert r[0] == c && r[1..] == t;
    } else {
      var bytes := Utf8(c as int);
      var n := |bytes|;
      assert r == PercentBytes(bytes) + t;
      UnescapePercentBytes(bytes, t);
      assert r[..3] == PercentByte(bytes[0]) by {
        assert PercentBytes(bytes) == PercentByte(bytes[0]) + PercentBytes(bytes[1..]);
      }
      assert PercentAt(r, 0) == Some(bytes[0]);
      Utf8Lead(c as int);
      Utf8RoundTrip(c as int);
      assert r[3 * n..] == t;
      assert (Utf8Value(bytes) as char) == c;
    }
  }

  /** `decodeURIComponent(encodeURIComponent(s)) === s`: the encoding loses nothing. */
  lemma {:induction false} DecodeEncode(s: string)
    ensures DecodeUriComponent(EncodeUriComponent(s)) == Some(s)
  {
    if s != [] {
      DecodeEncode(s[1..]);
      DecodeEncodedChar(s[0], EncodeUriComponent(s[1..]));
      assert [s[0]] + s[1..] == s;
    }
  }
}
