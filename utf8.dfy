/**
  UTF-8 as Python's `bytes.decode('utf-8')` applies it: the byte-sequence
  syntax of section 4 of RFC 3629, the strict decoder (which rejects anything
  outside that syntax), the replacement decoder of `errors='replace'` (one
  U+FFFD per maximal ill-formed subpart) and the encoder of section 3.
  Both decoders are built on one step, `Scan`, that reads the character at
  the head of a byte sequence.
*/
module Utf8 {
  import opened Wrappers

  /** An octet. */
  type Byte = b: int | 0 <= b < 0x100

  /** U+FFFD REPLACEMENT CHARACTER. */
  const Replacement: char := '\U{FFFD}'

  /** The outcome of reading one character: a character and how many bytes
      it took, or an ill-formed subpart and its length. */
  datatype Step = Char(c: char, len: nat) | Bad(len: nat)

  predicate IsTail(b: Byte) {
    0x80 <= b <= 0xBF
  }

  /** Number of bytes a sequence starting with `b0` has, 0 if `b0` can start none. */
  function SequenceLength(b0: Byte): nat {
    if b0 <= 0x7F then 1
    else if 0xC2 <= b0 <= 0xDF then 2
    else if 0xE0 <= b0 <= 0xEF then 3
    else if 0xF0 <= b0 <= 0xF4 then 4
    else 0
  }

  /** Bounds on the second byte after lead byte `b0`; they exclude overlong
      forms (after E0 and F0), surrogates (after ED) and code points above
      U+10FFFF (after F4). */
  function SecondLow(b0: Byte): Byte {
    if b0 == 0xE0 then 0xA0 else if b0 == 0xF0 then 0x90 else 0x80
  }

  function SecondHigh(b0: Byte): Byte {
    if b0 == 0xED then 0x9F else if b0 == 0xF4 then 0x8F else 0xBF
  }

  /** Encoding of one scalar value, section 3 of RFC 3629. */
  function EncodeChar(c: char): (r: seq<Byte>)
    ensures 1 <= |r| <= 4
  {
    var n := c as int;
    if n < 0x80 then [n]
    else if n < 0x800 then [0xC0 + n / 64, 0x80 + n % 64]
    else if n < 0x10000 then [0xE0 + n / 4096, 0x80 + (n / 64) % 64, 0x80 + n % 64]
    else [0xF0 + n / 262144, 0x80 + (n / 4096) % 64, 0x80 + (n / 64) % 64, 0x80 + n % 64]
  }

  /** Encoding of a string. */
  function Encode(s: string): seq<Byte> {
    if s == [] then [] else EncodeChar(s[0]) + Encode(s[1..])
  }

  /** The character of a well-formed two-byte sequence. */
  function Char2(x0: Byte, x1: Byte): (c: char)
    requires 0xC2 <= x0 <= 0xDF && IsTail(x1)
    ensures EncodeChar(c) == [x0, x1]
  {
    var cp := (x0 - 0xC0) * 64 + (x1 - 0x80);
    assert cp / 64 == x0 - 0xC0 && cp % 64 == x1 - 0x80;
    cp as char
  }

  /** The character of a well-formed three-byte sequence. */
  function Char3(x0: Byte, x1: Byte, x2: Byte): (c: char)
    requires 0xE0 <= x0 <= 0xEF && SecondLow(x0) <= x1 <= SecondHigh(x0) && IsTail(x2)
    ensures EncodeChar(c) == [x0, x1, x2]
  {
    var y0: int, y1: int, y2: int := x0, x1, x2;
    var hi := (y0 - 0xE0) * 64 + (y1 - 0x80);
    var cp := hi * 64 + (y2 - 0x80);
    assert cp / 64 == hi && cp % 64 == y2 - 0x80;
    assert hi / 64 == y0 - 0xE0 && hi % 64 == y1 - 0x80;
    assert cp / 4096 == hi / 64;
    cp as char
  }

  /** The character of a well-formed four-byte sequence. */
  function Char4(x0: Byte, x1: Byte, x2: Byte, x3: Byte): (c: char)
    requires 0xF0 <= x0 <= 0xF4 && SecondLow(x0) <= x1 <= SecondHigh(x0) && IsTail(x2) && IsTail(x3)
    ensures EncodeChar(c) == [x0, x1, x2, x3]
  {
    var y0: int, y1: int, y2: int, y3: int := x0, x1, x2, x3;
    var top := (y0 - 0xF0) * 64 + (y1 - 0x80);
    var hi := top * 64 + (y2 - 0x80);
    var cp := hi * 64 + (y3 - 0x80);
    assert cp / 64 == hi && cp % 64 == y3 - 0x80;
    assert hi / 64 == top && hi % 64 == y2 - 0x80;
    assert top / 64 == y0 - 0xF0 && top % 64 == y1 - 0x80;
    assert cp / 4096 == hi / 64 && cp / 262144 == top / 64;
    cp as char
  }

  /** Reads the character at the head of `b`. A character read re-encodes to
      exactly the bytes it took; an ill-formed subpart is the longest prefix
      that could still have begun a well-formed sequence (at least one byte). */
  function Scan(b: seq<Byte>): (r: Step)
    requires |b| > 0
    ensures 1 <= r.len <= |b|
    ensures r.Char? ==> EncodeChar(r.c) == b[..r.len]
    ensures r.Bad? ==> r.len <= 3
  {
    var b0: int := b[0];
    var n := SequenceLength(b[0]);
    if n == 0 then Bad(1)
    else if n == 1 then Char(b0 as char, 1)
    else if |b| < 2 || !(SecondLow(b[0]) <= b[1] <= SecondHigh(b[0])) then Bad(1)
    else if n == 2 then
      assert b[..2] == [b[0], b[1]];
      Char(Char2(b[0], b[1]), 2)
    else if |b| < 3 || !IsTail(b[2]) then Bad(2)
    else if n == 3 then
      assert b[..3] == [b[0], b[1], b[2]];
      Char(Char3(b[0], b[1], b[2]), 3)
    else if |b| < 4 || !IsTail(b[3]) then Bad(3)
    else
      assert b[..4] == [b[0], b[1], b[2], b[3]];
      Char(Char4(b[0], b[1], b[2], b[3]), 4)
  }

  /** Strict decoding (`data.decode('utf-8')`): None where Python raises
      UnicodeDecodeError. A decoded string has between a quarter of the
      bytes and all of them as characters. */
  function Decode(b: seq<Byte>): (r: Option<string>)
    ensures r.Some? ==> |r.value| <= |b| <= 4 * |r.value|
    decreases |b|
  {
    if b == [] then Some([])
    else match Scan(b)
      case Bad(_) => None
      case Char(c, n) =>
        match Decode(b[n..])
        case None => None
        case Some(s) => Some([c] + s)
  }

  /** Replacement decoding (`data.decode('utf-8', errors='replace')`): every
      maximal ill-formed subpart becomes one U+FFFD. It never fails, and
      the text has at most as many characters as the payload has bytes and
      at least a quarter as many. */
  function DecodeReplace(b: seq<Byte>): (r: string)
    ensures |r| <= |b| <= 4 * |r|
    decreases |b|
  {
    if b == [] then []
    else match Scan(b)
      case Bad(n) => [Replacement] + DecodeReplace(b[n..])
      case Char(c, n) => [c] + DecodeReplace(b[n..])
  }

  /** The head of an encoded character scans back to that character,
      whatever follows it. */
  lemma ScanEncodeChar(c: char, rest: seq<Byte>)
    ensures Scan(EncodeChar(c) + rest) == Char(c, |EncodeChar(c)|)
  {
    var n := c as int;
    if n < 0x80 {
    } else if n < 0x800 {
      ScanEncode2(c, rest);
    } else if n < 0x10000 {
      ScanEncode3(c, rest);
    } else {
      ScanEncode4(c, rest);
    }
  }

  lemma ScanEncode2(c: char, rest: seq<Byte>)
    requires 0x80 <= c as int < 0x800
    ensures Scan(EncodeChar(c) + rest) == Char(c, 2)
  {
    var b := EncodeChar(c) + rest;
    var n := c as int;
    var x0: int, x1: int := b[0], b[1];
    assert x0 == 0xC0 + n / 64 && x1 == 0x80 + n % 64;
    assert (x0 - 0xC0) * 64 + (x1 - 0x80) == n;
  }

  lemma ScanEncode3(c: char, rest: seq<Byte>)
    requires 0x800 <= c as int < 0x10000
    ensures Scan(EncodeChar(c) + rest) == Char(c, 3)
  {
    var b := EncodeChar(c) + rest;
    var n := c as int;
    var x0: int, x1: int, x2: int := b[0], b[1], b[2];
    assert x0 == 0xE0 + n / 4096 && x1 == 0x80 + (n / 64) % 64 && x2 == 0x80 + n % 64;
    assert n / 4096 == (n / 64) / 64;
    assert n / 4096 == 0 ==> (n / 64) % 64 >= 0x20;
    assert n / 4096 == 13 ==> (n / 64) % 64 < 0x20;
    assert ((x0 - 0xE0) * 64 + (x1 - 0x80)) * 64 + (x2 - 0x80) == n;
  }

  lemma ScanEncode4(c: char, rest: seq<Byte>)
    requires 0x10000 <= c as int
    ensures Scan(EncodeChar(c) + rest) == Char(c, 4)
  {
    var b := EncodeChar(c) + rest;
    var n := c as int;
    var x0: int, x1: int, x2: int, x3: int := b[0], b[1], b[2], b[3];
    assert x0 == 0xF0 + n / 262144 && x1 == 0x80 + (n / 4096) % 64;
    assert x2 == 0x80 + (n / 64) % 64 && x3 == 0x80 + n % 64;
    assert n / 262144 == ((n / 64) / 64) / 64;
    assert n / 4096 == (n / 64) / 64;
    assert n / 262144 == 0 ==> (n / 4096) % 64 >= 0x10;
    assert n / 262144 == 4 ==> (n / 4096) % 64 < 0x10;
    assert (((x0 - 0xF0) * 64 + (x1 - 0x80)) * 64 + (x2 - 0x80)) * 64 + (x3 - 0x80) == n;
  }

  /** Decoding undoes encoding. */
  lemma {:induction false} DecodeEncode(s: string)
    ensures Decode(Encode(s)) == Some(s)
  {
    if s != [] {
      var e := EncodeChar(s[0]);
      var b := Encode(s);
      assert b == e + Encode(s[1..]);
      ScanEncodeChar(s[0], Encode(s[1..]));
      assert b[|e|..] == Encode(s[1..]);
      DecodeEncode(s[1..]);
      assert Decode(b) == Some([s[0]] + s[1..]);
      assert [s[0]] + s[1..] == s;
    }
  }

  lemma EncodeCons(c: char, s: string)
    ensures Encode([c] + s) == EncodeChar(c) + Encode(s)
  {
    assert ([c] + s)[1..] == s;
  }

  /** Encoding undoes decoding: a decoded text reproduces the payload exactly. */
  lemma {:induction false} EncodeDecode(b: seq<Byte>)
    requires Decode(b).Some?
    ensures Encode(Decode(b).value) == b
    decreases |b|
  {
    if b != [] {
      DecodeHead(b);
      ScanSplit(b);
      var r := Scan(b);
      var tail := b[r.len..];
      EncodeDecode(tail);
      EncodeCons(r.c, Decode(tail).value);
    }
  }

  /** A valid sequence starts with a character, and the rest is valid. */
  lemma DecodeHead(b: seq<Byte>)
    requires b != [] && Decode(b).Some?
    ensures var r := Scan(b);
      && r.Char? && Decode(b[r.len..]).Some?
      && Decode(b).value == [r.c] + Decode(b[r.len..]).value
  {
  }

  /** A character read splits its bytes off the front of the sequence. */
  lemma ScanSplit(b: seq<Byte>)
    requires b != [] && Scan(b).Char?
    ensures b == EncodeChar(Scan(b).c) + b[Scan(b).len..]
  {
    assert b == b[..Scan(b).len] + b[Scan(b).len..];
  }

  /** A byte sequence is valid UTF-8 exactly when it is the encoding of some string. */
  lemma ValidIffEncoding(b: seq<Byte>)
    ensures Decode(b).Some? <==> exists s :: Encode(s) == b
  {
    if Decode(b).Some? {
      EncodeDecode(b);
    }
    if s :| Encode(s) == b {
      DecodeEncode(s);
    }
  }

  /** On valid UTF-8 the replacement decoder agrees with the strict one. */
  lemma {:induction false} ReplaceAgreesOnValid(b: seq<Byte>)
    requires Decode(b).Some?
    ensures DecodeReplace(b) == Decode(b).value
    decreases |b|
  {
    if b != [] {
      ReplaceAgreesOnValid(b[Scan(b).len..]);
    }
  }

  /** On invalid UTF-8 the replacement decoder marks at least one U+FFFD. */
  lemma {:induction false} ReplaceMarksInvalid(b: seq<Byte>)
    requires Decode(b).None?
    ensures Replacement in DecodeReplace(b)
    decreases |b|
  {
    var r := Scan(b);
    if r.Char? {
      ReplaceMarksInvalid(b[r.len..]);
    }
  }
}
