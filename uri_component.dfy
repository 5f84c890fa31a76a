/** `encodeURIComponent` and `decodeURIComponent` (sections 19.2.6.4 and
    19.2.6.2 of ECMA-262): code points outside the unescaped set are written as
    the `%XY` escapes of their UTF-8 octets; decoding reverses this and fails,
    as the `URIError` the built-in throws, on a malformed escape or an invalid
    UTF-8 sequence. */
module UriComponent {
  import opened NewsTypes

  /** uriAlpha, DecimalDigit and uriMark: the code points left as they are. */
  predicate IsUnescaped(c: char)
  {
    ('A' <= c <= 'Z') || ('a' <= c <= 'z') || ('0' <= c <= '9')
    || c == '-' || c == '_' || c == '.' || c == '!' || c == '~' || c == '*'
    || c == '\'' || c == '(' || c == ')'
  }

  predicate IsHex(c: char)
  {
    ('0' <= c <= '9') || ('A' <= c <= 'F') || ('a' <= c <= 'f')
  }

  /** Encoding writes upper-case hexadecimal digits. */
  function HexChar(d: nat): (c: char)
    requires d < 16
    ensures IsHex(c) && IsUnescaped(c)
  {
    if d < 10 then ('0' as int + d) as char else ('A' as int + d - 10) as char
  }

  /** Decoding accepts hexadecimal digits of either case. */
  function HexValue(c: char): (d: nat)
    requires IsHex(c)
    ensures d < 16
  {
    if '0' <= c <= '9' then c as int - '0' as int
    else if 'A' <= c <= 'F' then c as int - 'A' as int + 10
    else c as int - 'a' as int + 10
  }

  predicate IsOctet(b: nat)
  {
    b < 256
  }

  predicate AllOctets(bytes: seq<nat>)
  {
    forall k :: 0 <= k < |bytes| ==> IsOctet(bytes[k])
  }

  /** The UTF-8 encoding of one code point (section 3 of RFC 3629). */
  function Utf8(c: char): (bytes: seq<nat>)
    ensures 1 <= |bytes| <= 4 && AllOctets(bytes)
  {
    var n := c as int;
    if n < 0x80 then [n]
    else if n < 0x800 then [0xC0 + n / 64, 0x80 + n % 64]
    else if n < 0x1_0000 then [0xE0 + n / 4096, 0x80 + (n / 64) % 64, 0x80 + n % 64]
    else [0xF0 + n / 262144, 0x80 + (n / 4096) % 64, 0x80 + (n / 64) % 64, 0x80 + n % 64]
  }

  /** The `%XY` escape of one octet. */
  function Escape(b: nat): (e: string)
    requires IsOctet(b)
    ensures |e| == 3
  {
    ['%', HexChar(b / 16), HexChar(b % 16)]
  }

  function EscapeAll(bytes: seq<nat>): (e: string)
    requires AllOctets(bytes)
    ensures |e| == 3 * |bytes|
  {
    if bytes == [] then [] else Escape(bytes[0]) + EscapeAll(bytes[1..])
  }

  function EncodeChar(c: char): (e: string)
  {
    if IsUnescaped(c) then [c] else EscapeAll(Utf8(c))
  }

  /** `encodeURIComponent(s)`: the result holds nothing but unescaped code
      points and `%`, so it can stand as a single path segment. */
  function EncodeURIComponent(s: string): (r: string)
    ensures forall k :: 0 <= k < |r| ==> IsUnescaped(r[k]) || r[k] == '%'
  {
    if s == [] then []
    else
      var head := EncodeChar(s[0]);
      assert forall k :: 0 <= k < |head| ==> IsUnescaped(head[k]) || head[k] == '%' by {
        if !IsUnescaped(s[0]) { EscapeAllAlphabet(Utf8(s[0])); }
      }
      head + EncodeURIComponent(s[1..])
  }

  lemma {:induction false} EscapeAllAlphabet(bytes: seq<nat>)
    requires AllOctets(bytes)
    ensures forall k :: 0 <= k < |EscapeAll(bytes)| ==>
              IsUnescaped(EscapeAll(bytes)[k]) || EscapeAll(bytes)[k] == '%'
  {
    if bytes != [] {
      EscapeAllAlphabet(bytes[1..]);
    }
  }

  /** The octet escaped as `%XY` at position `i` of `s`, if there is one there. */
  function OctetAt(s: string, i: nat): (o: Option<nat>)
    ensures o.Some? ==> i + 3 <= |s| && IsOctet(o.value)
  {
    if i + 3 <= |s| && s[i] == '%' && IsHex(s[i + 1]) && IsHex(s[i + 2])
    then Some(16 * HexValue(s[i + 1]) + HexValue(s[i + 2]))
    else None
  }

  /** Reads `count` consecutive escaped octets from the start of `s`. */
  function Octets(s: string, count: nat): (o: Option<seq<nat>>)
    ensures o.Some? ==> |o.value| == count && 3 * count <= |s| && AllOctets(o.value)
    decreases count
  {
    if count == 0 then Some([])
    else match OctetAt(s, 0)
      case None => None
      case Some(b) =>
        match Octets(s[3..], count - 1)
        case None => None
        case Some(rest) => Some([b] + rest)
  }

  /** The length of the UTF-8 sequence a lead octet announces; 0 for an octet
      that cannot start one (a continuation octet, or five or more leading ones). */
  function SequenceLength(b0: nat): (len: nat)
  {
    if b0 < 0x80 then 1
    else if 0xC0 <= b0 < 0xE0 then 2
    else if 0xE0 <= b0 < 0xF0 then 3
    else if 0xF0 <= b0 < 0xF8 then 4
    else 0
  }

  predicate IsContinuation(b: nat)
  {
    0x80 <= b < 0xC0
  }

  /** The code point a complete UTF-8 sequence denotes, or None when the
      sequence is overlong, a surrogate or beyond U+10FFFF. */
  function Utf8Decode(bytes: seq<nat>): (c: Option<char>)
  {
    if |bytes| == 1 && bytes[0] < 0x80 then
      Some(bytes[0] as char)
    else if |bytes| == 2 && 0xC0 <= bytes[0] < 0xE0 && IsContinuation(bytes[1]) then
      var n := (bytes[0] - 0xC0) * 64 + (bytes[1] - 0x80);
      if n < 0x80 then None else Some(n as char)
    else if |bytes| == 3 && 0xE0 <= bytes[0] < 0xF0 && IsContinuation(bytes[1]) && IsContinuation(bytes[2]) then
      var n := (bytes[0] - 0xE0) * 4096 + (bytes[1] - 0x80) * 64 + (bytes[2] - 0x80);
      if n < 0x800 || (0xD800 <= n < 0xE000) then None else Some(n as char)
    else if |bytes| == 4 && 0xF0 <= bytes[0] < 0xF8 && IsContinuation(bytes[1])
            && IsContinuation(bytes[2]) && IsContinuation(bytes[3]) then
      var n := (bytes[0] - 0xF0) * 262144 + (bytes[1] - 0x80) * 4096 + (bytes[2] - 0x80) * 64 + (bytes[3] - 0x80);
      if n < 0x1_0000 || n > 0x10_FFFF then None else Some(n as char)
    else None
  }

  /** Decodes the code point at the start of `s`, with the number of characters
      it occupies; None where `decodeURIComponent` throws. */
  function DecodeStep(s: string): (r: Option<(char, nat)>)
    requires s != []
    ensures r.Some? ==> 1 <= r.value.1 <= |s|
  {
    if s[0] != '%' then Some((s[0], 1))
    else match OctetAt(s, 0)
      case None => None
      case Some(b0) =>
        var len := SequenceLength(b0);
        if len == 0 then None
        else match Octets(s, len)
          case None => None
          case Some(bytes) =>
            match Utf8Decode(bytes)
            case None => None
            case Some(c) => Some((c, 3 * len))
  }

  /** `decodeURIComponent(s)`; None stands for the thrown `URIError`. */
  function DecodeURIComponent(s: string): (r: Option<string>)
    decreases |s|
  {
    if s == [] then Some([])
    else match DecodeStep(s)
      case None => None
      case Some((c, k)) =>
        match DecodeURIComponent(s[k..])
        case None => None
        case Some(rest) => Some([c] + rest)
  }

  lemma HexRoundTrip(d: nat)
    requires d < 16
    ensures HexValue(HexChar(d)) == d
  {
  }

  /** An escape at the front of a string reads back as its octet. */
  lemma OctetAtEscape(b: nat, rest: string)
    requires IsOctet(b)
    ensures OctetAt(Escape(b) + rest, 0) == Some(b)
  {
    HexRoundTrip(b / 16);
    HexRoundTrip(b % 16);
  }

  lemma {:induction false} OctetsOfEscaped(bytes: seq<nat>, tail: string)
    requires AllOctets(bytes)
    ensures Octets(EscapeAll(bytes) + tail, |bytes|) == Some(bytes)
  {
    if bytes != [] {
      var rest := EscapeAll(bytes[1..]) + tail;
      EscapeAllCons(bytes, tail);
      OctetAtEscape(bytes[0], rest);
      OctetsOfEscaped(bytes[1..], tail);
      assert [bytes[0]] + bytes[1..] == bytes;
    }
  }

  /** Every code point's UTF-8 form announces its own length and decodes back to it. */
  lemma Utf8RoundTrip(c: char)
    ensures SequenceLength(Utf8(c)[0]) == |Utf8(c)|
    ensures Utf8Decode(Utf8(c)) == Some(c)
  {
    var n := c as int;
    if n < 0x80 {
    } else if n < 0x800 {
      TwoOctetRoundTrip(c);
    } else if n < 0x1_0000 {
      ThreeOctetRoundTrip(c);
    } else {
      FourOctetRoundTrip(c);
    }
  }

  lemma TwoOctetRoundTrip(c: char)
    requires 0x80 <= c as int < 0x800
    ensures SequenceLength(Utf8(c)[0]) == 2 && Utf8Decode(Utf8(c)) == Some(c)
  {
    var n := c as int;
    var hi, lo := n / 64, n % 64;
    assert hi * 64 + lo == n;
    assert Utf8(c) == [0xC0 + hi, 0x80 + lo];
  }

  lemma ThreeOctetRoundTrip(c: char)
    requires 0x800 <= c as int < 0x1_0000
    ensures SequenceLength(Utf8(c)[0]) == 3 && Utf8Decode(Utf8(c)) == Some(c)
  {
    var n := c as int;
    var hi, mid, lo := n / 4096, (n / 64) % 64, n % 64;
    assert n / 64 == hi * 64 + mid;
    assert hi * 4096 + mid * 64 + lo == n;
    assert Utf8(c) == [0xE0 + hi, 0x80 + mid, 0x80 + lo];
  }

  lemma FourOctetRoundTrip(c: char)
    requires 0x1_0000 <= c as int
    ensures SequenceLength(Utf8(c)[0]) == 4 && Utf8Decode(Utf8(c)) == Some(c)
  {
    var n := c as int;
    var top, hi, mid, lo := n / 262144, (n / 4096) % 64, (n / 64) % 64, n % 64;
    assert n / 64 == (n / 4096) * 64 + mid;
    assert n / 4096 == top * 64 + hi;
    assert top * 262144 + hi * 4096 + mid * 64 + lo == n;
    assert Utf8(c) == [0xF0 + top, 0x80 + hi, 0x80 + mid, 0x80 + lo];
  }

  /** Decoding one encoded code point gives it back and consumes exactly its encoding. */
  lemma DecodeStepOfEncoded(c: char, tail: string)
    ensures DecodeStep(EncodeChar(c) + tail) == Some((c, |EncodeChar(c)|))
  {
    if !IsUnescaped(c) {
      Utf8RoundTrip(c);
      DecodeStepOfEscaped(Utf8(c), tail);
    }
  }

  /** A well-formed UTF-8 sequence, escaped, decodes as one step to its code point. */
  lemma DecodeStepOfEscaped(bytes: seq<nat>, tail: string)
    requires 1 <= |bytes| && AllOctets(bytes)
    requires SequenceLength(bytes[0]) == |bytes| && Utf8Decode(bytes).Some?
    ensures DecodeStep(EscapeAll(bytes) + tail) == Some((Utf8Decode(bytes).value, 3 * |bytes|))
  {
    var rest := EscapeAll(bytes[1..]) + tail;
    EscapeAllCons(bytes, tail);
    OctetAtEscape(bytes[0], rest);
    OctetsOfEscaped(bytes, tail);
  }

  /** Peeling the first escape off an escaped sequence. */
  lemma EscapeAllCons(bytes: seq<nat>, tail: string)
    requires 1 <= |bytes| && AllOctets(bytes)
    ensures EscapeAll(bytes) + tail == Escape(bytes[0]) + (EscapeAll(bytes[1..]) + tail)
    ensures (EscapeAll(bytes) + tail)[3..] == EscapeAll(bytes[1..]) + tail
  {
    var e, r := Escape(bytes[0]), EscapeAll(bytes[1..]);
    EscapeAllUnfold(bytes);
    Regroup(e, r, tail);
  }

  lemma EscapeAllUnfold(bytes: seq<nat>)
    requires 1 <= |bytes| && AllOctets(bytes)
    ensures EscapeAll(bytes) == Escape(bytes[0]) + EscapeAll(bytes[1..])
  {
  }

  lemma Regroup(e: string, r: string, tail: string)
    requires |e| == 3
    ensures (e + r) + tail == e + (r + tail)
    ensures ((e + r) + tail)[3..] == r + tail
  {
    SkipPrefix(e, r + tail);
  }

  lemma SkipPrefix(e: string, r: string)
    requires |e| == 3
    ensures (e + r)[3..] == r
  {
  }

  /** `decodeURIComponent(encodeURIComponent(s)) == s` for every string of
      Unicode scalar values. */
  lemma {:induction false} DecodeEncode(s: string)
    ensures DecodeURIComponent(EncodeURIComponent(s)) == Some(s)
  {
    if s != [] {
      var head := EncodeChar(s[0]);
      var tail := EncodeURIComponent(s[1..]);
      assert EncodeURIComponent(s) == head + tail;
      DecodeStepOfEncoded(s[0], tail);
      assert (head + tail)[|head|..] == tail;
      DecodeEncode(s[1..]);
      assert [s[0]] + s[1..] == s;
    }
  }

  /** A string without `%` decodes to itself. */
  lemma {:induction false} DecodeWithoutEscapes(s: string)
    requires forall k :: 0 <= k < |s| ==> s[k] != '%'
    ensures DecodeURIComponent(s) == Some(s)
  {
    if s != [] {
      DecodeWithoutEscapes(s[1..]);
      assert [s[0]] + s[1..] == s;
    }
  }
}
