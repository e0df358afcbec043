/**
 * ECMAScript `encodeURIComponent` (ECMA-262, section 19.2.6.5, the Encode operation) on
 * strings of Unicode scalar values: the characters of ECMA-262's uriUnreserved set (uriAlpha
 * letters, DecimalDigit digits and the uriMark characters `-_.!~*'()`) are kept, every
 * other character becomes the UTF-8 bytes of its
 * code point (RFC 3629 section 3), each written as `%` and two upper-case hexadecimal digits
 * (RFC 3986 section 2.1). `Decode` reads such an encoding back.
 */
module UriComponent {
  import opened Wrappers
  import Seqs

  /** The characters `encodeURIComponent` leaves as they are. */
  predicate Unreserved(c: char)
  {
    ('A' <= c <= 'Z') || ('a' <= c <= 'z') || ('0' <= c <= '9') ||
    c == '-' || c == '_' || c == '.' || c == '!' || c == '~' || c == '*' || c == '\'' || c == '(' || c == ')'
  }

  /** An upper-case hexadecimal digit. */
  predicate IsUpperHex(c: char)
  {
    ('0' <= c <= '9') || ('A' <= c <= 'F')
  }

  /** The upper-case hexadecimal digit of d. */
  function HexDigit(d: nat): (c: char)
    requires d < 16
    ensures IsUpperHex(c)
  {
    if d < 10 then ('0' as int + d) as char else ('A' as int + d - 10) as char
  }

  /** The value of a hexadecimal digit of either case. */
  function HexValue(c: char): Option<nat>
  {
    if '0' <= c <= '9' then Some(c as int - '0' as int)
    else if 'A' <= c <= 'F' then Some(c as int - 'A' as int + 10)
    else if 'a' <= c <= 'f' then Some(c as int - 'a' as int + 10)
    else None
  }

  /** A byte as `%XX`. */
  function Percent(b: nat): string
    requires b < 256
  {
    ['%', HexDigit(b / 16), HexDigit(b % 16)]
  }

  /** The UTF-8 bytes of a code point, one to four of them by its range. */
  function Utf8(c: char): (bytes: seq<nat>)
    ensures 1 <= |bytes| <= 4
    ensures forall i | 0 <= i < |bytes| :: bytes[i] < 256
  {
    var n := c as int;
    if n < 0x80 then [n]
    else if n < 0x800 then [0xC0 + n / 0x40, 0x80 + n % 0x40]
    else if n < 0x1_0000 then [0xE0 + n / 0x1000, 0x80 + (n / 0x40) % 0x40, 0x80 + n % 0x40]
    else [0xF0 + n / 0x4_0000, 0x80 + (n / 0x1000) % 0x40, 0x80 + (n / 0x40) % 0x40, 0x80 + n % 0x40]
  }

  /** The bytes as `%XX` triples. */
  function PercentAll(bytes: seq<nat>): string
    requires forall i | 0 <= i < |bytes| :: bytes[i] < 256
    decreases |bytes|
  {
    if bytes == [] then [] else Percent(bytes[0]) + PercentAll(bytes[1..])
  }

  /** One character as `encodeURIComponent` writes it. */
  function EncodeChar(c: char): string
  {
    if Unreserved(c) then [c] else PercentAll(Utf8(c))
  }

  /** `encodeURIComponent(s)`. */
  function Encode(s: string): string
    decreases |s|
  {
    if s == [] then [] else EncodeChar(s[0]) + Encode(s[1..])
  }

  /** A character that may appear in an encoding: an unreserved one, `%`, or an upper-case hex digit. */
  predicate Encoded(c: char)
  {
    Unreserved(c) || c == '%' || IsUpperHex(c)
  }

  /** The encoding uses only unreserved characters and `%XX` escapes: no `/`, `"`, `?`, `#`, `&` or space survives. */
  lemma {:induction false} EncodeAlphabet(s: string)
    ensures forall i | 0 <= i < |Encode(s)| :: Encoded(Encode(s)[i])
    decreases |s|
  {
    if s != [] {
      EncodeAlphabet(s[1..]);
      EncodeCharAlphabet(s[0]);
      var a := EncodeChar(s[0]);
      var b := Encode(s[1..]);
      forall i | 0 <= i < |a + b| ensures Encoded((a + b)[i]) {
        if i >= |a| {
          assert (a + b)[i] == b[i - |a|];
        }
      }
    }
  }

  /** Every character of one character's encoding may appear in an encoding. */
  lemma {:induction false} EncodeCharAlphabet(c: char)
    ensures forall i | 0 <= i < |EncodeChar(c)| :: Encoded(EncodeChar(c)[i])
  {
    if !Unreserved(c) {
      PercentAllAlphabet(Utf8(c));
    }
  }

  /** `%XX` triples hold only `%` and upper-case hex digits. */
  lemma {:induction false} PercentAllAlphabet(bytes: seq<nat>)
    requires forall i | 0 <= i < |bytes| :: bytes[i] < 256
    ensures forall i | 0 <= i < |PercentAll(bytes)| :: Encoded(PercentAll(bytes)[i])
    decreases |bytes|
  {
    if bytes != [] {
      PercentAllAlphabet(bytes[1..]);
      var a := Percent(bytes[0]);
      var b := PercentAll(bytes[1..]);
      forall i | 0 <= i < |a + b| ensures Encoded((a + b)[i]) {
        if i >= |a| {
          assert (a + b)[i] == b[i - |a|];
        }
      }
    }
  }

  /** A string of unreserved characters is its own encoding. */
  lemma {:induction false} EncodeUnreserved(s: string)
    requires forall i | 0 <= i < |s| :: Unreserved(s[i])
    ensures Encode(s) == s
    decreases |s|
  {
    if s != [] {
      EncodeUnreserved(s[1..]);
    }
  }

  // ---------------------------------------------------------------------------
  // Decoding
  // ---------------------------------------------------------------------------

  /** The byte `%XX` at position i. */
  function ByteAt(s: string, i: nat): Option<nat>
  {
    if i + 3 <= |s| && s[i] == '%' && HexValue(s[i + 1]).Some? && HexValue(s[i + 2]).Some? then
      Some(HexValue(s[i + 1]).value * 16 + HexValue(s[i + 2]).value)
    else None
  }

  /** The number of bytes a UTF-8 sequence with this lead byte has (0 for a byte that cannot lead). */
  function SequenceLength(b: nat): nat
  {
    if b < 0x80 then 1
    else if 0xC0 <= b < 0xE0 then 2
    else if 0xE0 <= b < 0xF0 then 3
    else if 0xF0 <= b < 0xF8 then 4
    else 0
  }

  /** The smallest code point with an n-byte encoding. */
  function Least(n: nat): nat
  {
    if n == 2 then 0x80 else if n == 3 then 0x800 else if n == 4 then 0x1_0000 else 0
  }

  /** The `%XX` bytes from position i on, n of them, when all are there. */
  function BytesAt(s: string, i: nat, n: nat): Option<seq<nat>>
    decreases n
  {
    if n == 0 then Some([])
    else
      match ByteAt(s, i)
      case None => None
      case Some(b) =>
        match BytesAt(s, i + 3, n - 1)
        case None => None
        case Some(rest) => Some([b] + rest)
  }

  /** The code point of a UTF-8 sequence: the lead byte's payload, then six bits per continuation byte. */
  function CodePoint(bytes: seq<nat>): int
    requires |bytes| >= 1
  {
    var n := |bytes|;
    var b: int := bytes[0];
    var lead := if n == 1 then b else if n == 2 then b - 0xC0 else if n == 3 then b - 0xE0 else b - 0xF0;
    Continue(lead, bytes[1..])
  }

  /** Appends the six payload bits of each continuation byte. */
  function Continue(acc: int, bytes: seq<nat>): int
    decreases |bytes|
  {
    if bytes == [] then acc else Continue(acc * 0x40 + (bytes[0] as int - 0x80), bytes[1..])
  }

  /** A valid UTF-8 sequence of n bytes: continuation bytes, no overlong form, no surrogate, at most U+10FFFF. */
  predicate WellFormed(bytes: seq<nat>)
  {
    1 <= |bytes| <= 4 && SequenceLength(bytes[0]) == |bytes| &&
    (forall i | 1 <= i < |bytes| :: 0x80 <= bytes[i] < 0xC0) &&
    var cp := CodePoint(bytes);
    Least(|bytes|) <= cp <= 0x10_FFFF && !(0xD800 <= cp < 0xE000)
  }

  /** `decodeURIComponent(s)`: None for a malformed escape (a `URIError` in the source language). */
  function Decode(s: string): Option<string>
    decreases |s|
  {
    if s == [] then Some([])
    else if s[0] != '%' then
      match Decode(s[1..])
      case None => None
      case Some(rest) => Some([s[0]] + rest)
    else
      match ByteAt(s, 0)
      case None => None
      case Some(b) =>
        var n := SequenceLength(b);
        if n == 0 || |s| < 3 * n then None
        else
          match BytesAt(s, 0, n)
          case None => None
          case Some(bytes) =>
            if !WellFormed(bytes) then None
            else
              match Decode(s[3 * n..])
              case None => None
              case Some(rest) => Some([CodePoint(bytes) as char] + rest)
  }

  // ---------------------------------------------------------------------------
  // Round trip
  // ---------------------------------------------------------------------------

  /** Reading a hex digit back gives its value. */
  lemma HexRoundTrip(d: nat)
    requires d < 16
    ensures HexValue(HexDigit(d)) == Some(d)
  {
  }

  /** Reading a `%XX` triple back gives its byte. */
  lemma {:induction false} PercentRoundTrip(b: nat, rest: string)
    requires b < 256
    ensures ByteAt(Percent(b) + rest, 0) == Some(b)
  {
    HexRoundTrip(b / 16);
    HexRoundTrip(b % 16);
    var s := Percent(b) + rest;
    assert s[0] == '%' && s[1] == HexDigit(b / 16) && s[2] == HexDigit(b % 16);
  }

  /** Reading the triples of some bytes back gives the bytes. */
  lemma {:induction false} PercentAllRoundTrip(bytes: seq<nat>, rest: string)
    requires forall i | 0 <= i < |bytes| :: bytes[i] < 256
    ensures |PercentAll(bytes)| == 3 * |bytes|
    ensures BytesAt(PercentAll(bytes) + rest, 0, |bytes|) == Some(bytes)
    decreases |bytes|
  {
    if bytes != [] {
      PercentAllRoundTrip(bytes[1..], rest);
      PercentRoundTrip(bytes[0], PercentAll(bytes[1..]) + rest);
      var s := PercentAll(bytes) + rest;
      Seqs.AppendAssoc(Percent(bytes[0]), PercentAll(bytes[1..]), rest);
      BytesAtShift(Percent(bytes[0]), PercentAll(bytes[1..]) + rest, 0, |bytes| - 1);
      assert [bytes[0]] + bytes[1..] == bytes;
    }
  }

  /** Bytes read past a prefix are the bytes read in the rest. */
  lemma {:induction false} BytesAtShift(a: string, b: string, i: nat, n: nat)
    ensures BytesAt(a + b, |a| + i, n) == BytesAt(b, i, n)
    decreases n
  {
    if n > 0 {
      BytesAtShift(a, b, i + 3, n - 1);
      assert |a| + i + 3 == |a| + (i + 3);
      if i + 3 <= |b| {
        assert (a + b)[|a| + i] == b[i] && (a + b)[|a| + i + 1] == b[i + 1] && (a + b)[|a| + i + 2] == b[i + 2];
      }
    }
  }

  /** The UTF-8 bytes of a code point are well formed and encode it. */
  lemma Utf8WellFormed(c: char)
    ensures WellFormed(Utf8(c)) && CodePoint(Utf8(c)) == c as int
  {
    var n := c as int;
    if n < 0x80 {
    } else if n < 0x800 {
      TwoBytes(n);
    } else if n < 0x1_0000 {
      ThreeBytes(n);
    } else {
      FourBytes(n);
    }
  }

  /** The two-byte form of U+0080 to U+07FF. */
  lemma TwoBytes(n: int)
    requires 0x80 <= n < 0x800
    ensures var bytes := [0xC0 + n / 0x40, 0x80 + n % 0x40];
      SequenceLength(bytes[0]) == 2 && 0x80 <= bytes[1] < 0xC0 && CodePoint(bytes) == n
  {
    var bytes: seq<nat> := [0xC0 + n / 0x40, 0x80 + n % 0x40];
    assert bytes[1..] == [0x80 + n % 0x40];
    assert Continue(n / 0x40, [0x80 + n % 0x40]) == Continue(n / 0x40 * 0x40 + n % 0x40, []);
  }

  /** The three-byte form of U+0800 to U+FFFF. */
  lemma ThreeBytes(n: int)
    requires 0x800 <= n < 0x1_0000
    ensures var bytes := [0xE0 + n / 0x1000, 0x80 + (n / 0x40) % 0x40, 0x80 + n % 0x40];
      SequenceLength(bytes[0]) == 3 && 0x80 <= bytes[1] < 0xC0 && 0x80 <= bytes[2] < 0xC0 && CodePoint(bytes) == n
  {
    var x, y, z := n / 0x1000, (n / 0x40) % 0x40, n % 0x40;
    var bytes: seq<nat> := [0xE0 + x, 0x80 + y, 0x80 + z];
    assert bytes[1..] == [0x80 + y, 0x80 + z];
    assert Continue(x, [0x80 + y, 0x80 + z]) == Continue(x * 0x40 + y, [0x80 + z]);
    assert Continue(x * 0x40 + y, [0x80 + z]) == Continue((x * 0x40 + y) * 0x40 + z, []);
    assert (x * 0x40 + y) * 0x40 + z == n;
  }

  /** The four-byte form of U+10000 to U+10FFFF. */
  lemma FourBytes(n: int)
    requires 0x1_0000 <= n < 0x11_0000
    ensures var bytes := [0xF0 + n / 0x4_0000, 0x80 + (n / 0x1000) % 0x40, 0x80 + (n / 0x40) % 0x40, 0x80 + n % 0x40];
      SequenceLength(bytes[0]) == 4 && 0x80 <= bytes[1] < 0xC0 && 0x80 <= bytes[2] < 0xC0 && 0x80 <= bytes[3] < 0xC0 &&
      CodePoint(bytes) == n
  {
    var w, x, y, z := n / 0x4_0000, (n / 0x1000) % 0x40, (n / 0x40) % 0x40, n % 0x40;
    var bytes: seq<nat> := [0xF0 + w, 0x80 + x, 0x80 + y, 0x80 + z];
    SixBits(n);
    SixBits(n / 0x40);
    SixBits(n / 0x1000);
    assert bytes[1..] == [0x80 + x, 0x80 + y, 0x80 + z];
    assert Continue(w, [0x80 + x, 0x80 + y, 0x80 + z]) == Continue(w * 0x40 + x, [0x80 + y, 0x80 + z]);
    assert Continue(w * 0x40 + x, [0x80 + y, 0x80 + z]) == Continue((w * 0x40 + x) * 0x40 + y, [0x80 + z]);
    assert Continue((w * 0x40 + x) * 0x40 + y, [0x80 + z]) == Continue(((w * 0x40 + x) * 0x40 + y) * 0x40 + z, []);
  }

  /** Taking off the low six bits: what is left, and the next six bits up. */
  lemma SixBits(m: nat)
    ensures m == m / 0x40 * 0x40 + m % 0x40
    ensures m / 0x40 / 0x40 == m / 0x1000
    ensures m / 0x1000 / 0x40 == m / 0x4_0000
  {
  }

  /** Decoding one encoded character followed by more text gives the character, then the decoded text. */
  lemma {:induction false} DecodeEncodeChar(c: char, rest: string)
    ensures Decode(EncodeChar(c) + rest) ==
      match Decode(rest) case None => None case Some(r) => Some([c] + r)
  {
    var s := EncodeChar(c) + rest;
    if Unreserved(c) {
      assert s[0] == c && c != '%';
      assert s[1..] == rest;
    } else {
      Utf8WellFormed(c);
      DecodeSequence(Utf8(c), rest);
    }
  }

  /** Decoding the `%XX` triples of a well-formed UTF-8 sequence followed by more text gives its code point, then the decoded text. */
  lemma DecodeSequence(bytes: seq<nat>, rest: string)
    requires forall i | 0 <= i < |bytes| :: bytes[i] < 256
    requires WellFormed(bytes)
    ensures Decode(PercentAll(bytes) + rest) ==
      match Decode(rest) case None => None case Some(r) => Some([CodePoint(bytes) as char] + r)
  {
    var s := PercentAll(bytes) + rest;
    PercentAllRoundTrip(bytes, rest);
    assert s == Percent(bytes[0]) + (PercentAll(bytes[1..]) + rest);
    PercentRoundTrip(bytes[0], PercentAll(bytes[1..]) + rest);
    assert s[0] == '%';
    assert s[3 * |bytes|..] == rest;
  }

  /** `decodeURIComponent(encodeURIComponent(s)) === s`. */
  lemma {:induction false} DecodeEncode(s: string)
    ensures Decode(Encode(s)) == Some(s)
    decreases |s|
  {
    if s != [] {
      DecodeEncode(s[1..]);
      DecodeEncodeChar(s[0], Encode(s[1..]));
      assert [s[0]] + s[1..] == s;
    }
  }
}
