/**
  The two text renderings the core relies on besides UTF-8: Python's
  `bytes.hex()` (two lowercase hex digits per byte) and `str(n)` for an
  integer, each with the parser that inverts it.
*/
module Text {
  import opened Wrappers
  import opened Utf8

  const HexDigits: string := "0123456789abcdef"
  const DecimalDigits: string := "0123456789"

  /** `bytes.hex()`. */
  function Hex(bs: seq<Byte>): (r: string)
    ensures |r| == 2 * |bs|
  {
    if bs == [] then []
    else [HexDigits[bs[0] / 16], HexDigits[bs[0] % 16]] + Hex(bs[1..])
  }

  /** Every character of the hex rendering is a hex digit. */
  lemma {:induction false} HexDigitsOnly(bs: seq<Byte>)
    ensures forall i :: 0 <= i < |Hex(bs)| ==> HexValue(Hex(bs)[i]).Some?
  {
    if bs != [] {
      var h := Hex(bs);
      var b: int := bs[0];
      HexValueOfDigit(b / 16);
      HexValueOfDigit(b % 16);
      HexDigitsOnly(bs[1..]);
      forall i | 0 <= i < |h| ensures HexValue(h[i]).Some? {
        if i >= 2 {
          assert h[i] == Hex(bs[1..])[i - 2];
        }
      }
    }
  }

  /** The value of a lowercase hex digit. */
  function HexValue(c: char): (r: Option<nat>)
    ensures r.Some? ==> r.value < 16
  {
    if '0' <= c <= '9' then Some(c as int - '0' as int)
    else if 'a' <= c <= 'f' then Some(c as int - 'a' as int + 10)
    else None
  }

  /** Reads pairs of lowercase hex digits back into bytes. */
  function Unhex(s: string): Option<seq<Byte>> {
    if s == [] then Some([])
    else if |s| == 1 then None
    else
      var high, low, rest := HexValue(s[0]), HexValue(s[1]), Unhex(s[2..]);
      if high.Some? && low.Some? && rest.Some? then Some([high.value * 16 + low.value] + rest.value)
      else None
  }

  lemma HexValueOfDigit(k: nat)
    requires k < 16
    ensures HexValue(HexDigits[k]) == Some(k)
  {
  }

  /** The hex rendering loses nothing: it reads back to the same bytes. */
  lemma {:induction false} UnhexHex(bs: seq<Byte>)
    ensures Unhex(Hex(bs)) == Some(bs)
  {
    if bs != [] {
      var h := Hex(bs);
      var b: int := bs[0];
      var pair := [HexDigits[b / 16], HexDigits[b % 16]];
      assert h == pair + Hex(bs[1..]);
      assert h[0] == pair[0] && h[1] == pair[1];
      assert h[2..] == Hex(bs[1..]);
      HexValueOfDigit(b / 16);
      HexValueOfDigit(b % 16);
      UnhexHex(bs[1..]);
      assert [b / 16 * 16 + b % 16] + bs[1..] == bs;
    }
  }

  /** The decimal digits of a natural number, most significant first. */
  function NatDigits(n: nat): (r: string)
    ensures |r| > 0 && '0' <= r[0] <= '9'
    decreases n
  {
    if n < 10 then [DecimalDigits[n]] else NatDigits(n / 10) + [DecimalDigits[n % 10]]
  }

  /** `str(n)` for a Python int. */
  function Decimal(n: int): string {
    if n < 0 then "-" + NatDigits(-n) else NatDigits(n)
  }

  /** Reads a non-empty string of decimal digits. */
  function ParseNat(s: string): Option<nat>
    decreases |s|
  {
    if s == [] then None
    else
      var last := s[|s| - 1];
      if !('0' <= last <= '9') then None
      else if |s| == 1 then Some(last as int - '0' as int)
      else match ParseNat(s[..|s| - 1])
        case None => None
        case Some(m) => Some(m * 10 + (last as int - '0' as int))
  }

  /** Reads an optionally negative decimal integer. */
  function ParseInt(s: string): Option<int> {
    if |s| > 0 && s[0] == '-' then
      match ParseNat(s[1..])
      case None => None
      case Some(m) => var v: int := -(m as int); Some(v)
    else ParseNat(s)
  }

  lemma {:induction false} ParseNatDigits(n: nat)
    ensures ParseNat(NatDigits(n)) == Some(n)
    decreases n
  {
    var s := NatDigits(n);
    if n >= 10 {
      ParseNatDigits(n / 10);
      assert s[..|s| - 1] == NatDigits(n / 10);
    }
  }

  /** `str(n)` reads back to `n`. */
  lemma ParseDecimal(n: int)
    ensures ParseInt(Decimal(n)) == Some(n)
  {
    if n < 0 {
      var d := NatDigits(-n);
      ParseNatDigits(-n);
      var s := "-" + d;
      assert s[0] == '-' && s[1..] == d;
      assert ParseNat(s[1..]) == Some(-n);
      assert ParseInt(s) == Some(n);
    } else {
      ParseNatDigits(n);
      var s := NatDigits(n);
      assert '0' <= s[0] <= '9';
    }
  }
}
