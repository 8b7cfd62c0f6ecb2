/**
 * Text rendering of a certificate serial number: the lowercase hexadecimal
 * form BoringSSL's BN_bn2hex produces, and a parser that reads it back.
 *
 * BN_bn2hex writes a '-' for a negative number, "0" for zero, and otherwise
 * two hexadecimal digits per byte of the magnitude, most significant byte
 * first, with leading zero bytes dropped. A magnitude whose top byte is below
 * 0x10 therefore starts with one '0' digit (0x4f3 renders as "04f3").
 */
module SerialHex {
  import opened Wrappers

  /** The lowercase hexadecimal digit of a nibble. */
  function HexDigit(d: nat): (c: char)
    requires d < 16
  {
    if d < 10 then ('0' as int + d) as char else ('a' as int + d - 10) as char
  }

  /** The value of a lowercase hexadecimal digit, if `c` is one. */
  function DigitValue(c: char): (r: Option<nat>)
    ensures r.Some? ==> r.value < 16
  {
    if '0' <= c <= '9' then Some(c as int - '0' as int)
    else if 'a' <= c <= 'f' then Some(c as int - 'a' as int + 10)
    else None
  }

  lemma DigitRoundTrip(d: nat)
    requires d < 16
    ensures DigitValue(HexDigit(d)) == Some(d)
  {
  }

  /** Two digits per byte of `n`, most significant byte first, no zero bytes in front. */
  function ByteHex(n: nat): string
    decreases n
  {
    if n == 0 then [] else ByteHex(n / 256) + [HexDigit(n % 256 / 16), HexDigit(n % 16)]
  }

  /**
   * BN_bn2hex applied to the big number `n`: nonempty text, "0" exactly for
   * zero and a leading '-' exactly for a negative number.
   */
  function BnToHex(n: int): (s: string)
    ensures s != []
    ensures n == 0 <==> s == "0"
    ensures n < 0 <==> s[0] == '-'
  {
    if n < 0 then "-" + ByteHex(-n)
    else if n == 0 then "0"
    else
      ByteHexShape(n);
      assert DigitValue(ByteHex(n)[0]).Some?;
      ByteHex(n)
  }

  /** The value of a string of lowercase hexadecimal digits; None if any character is not one. */
  function HexValue(s: string): Option<int>
    decreases |s|
  {
    if s == [] then Some(0)
    else
      match (HexValue(s[..|s| - 1]), DigitValue(s[|s| - 1]))
      case (Some(high), Some(low)) => Some(16 * high + low)
      case _ => None
  }

  /** Reads back a serial number written by BnToHex. */
  function ParseSerial(s: string): Option<int>
  {
    if s == [] then None
    else if s[0] == '-' then
      if |s| == 1 then None
      else match HexValue(s[1..])
        case Some(v) => Some(-v)
        case None => None
    else HexValue(s)
  }

  lemma ModSixteen(n: nat, k: nat, b: nat)
    requires n == 16 * k + b && b < 16
    ensures n % 16 == b
  {
  }

  lemma ByteSplit(n: nat)
    ensures n == 256 * (n / 256) + 16 * (n % 256 / 16) + n % 16
  {
    var q, r := n / 256, n % 256;
    var a, b := r / 16, r % 16;
    assert n == 256 * q + r;
    assert r == 16 * a + b;
    ModSixteen(n, 16 * q + a, b);
  }

  lemma {:induction false} ByteHexValue(n: nat)
    ensures HexValue(ByteHex(n)) == Some(n)
    decreases n
  {
    if n > 0 {
      var p := ByteHex(n / 256);
      var a, b := HexDigit(n % 256 / 16), HexDigit(n % 16);
      ByteHexValue(n / 256);
      DigitRoundTrip(n % 256 / 16);
      DigitRoundTrip(n % 16);
      assert (p + [a]) [..|p|] == p;
      assert HexValue(p + [a]) == Some(16 * (n / 256) + n % 256 / 16);
      assert (p + [a, b])[..|p| + 1] == p + [a];
      ByteSplit(n);
    }
  }

  lemma {:induction false} ByteHexShape(n: nat)
    ensures |ByteHex(n)| % 2 == 0
    ensures n > 0 ==> |ByteHex(n)| >= 2 && ByteHex(n)[..2] != "00"
    ensures forall k :: 0 <= k < |ByteHex(n)| ==> DigitValue(ByteHex(n)[k]).Some?
    decreases n
  {
    if n > 0 {
      ByteHexShape(n / 256);
      DigitRoundTrip(n % 256 / 16);
      DigitRoundTrip(n % 16);
      if n / 256 == 0 {
        var hi, lo := n % 256 / 16, n % 16;
        assert ByteHex(n) == [HexDigit(hi), HexDigit(lo)];
        ByteSplit(n);
        assert hi != 0 || lo != 0;
        assert DigitValue('0') == Some(0);
        assert HexDigit(hi) != '0' || HexDigit(lo) != '0';
        assert ByteHex(n)[..2] == [HexDigit(hi), HexDigit(lo)];
        assert "00"[0] == '0' && "00"[1] == '0';
      } else {
        assert ByteHex(n)[..2] == ByteHex(n / 256)[..2];
      }
    }
  }

  /**
   * The round trip: parsing the rendering of any serial number gives the
   * number back.
   */
  lemma SerialRoundTrip(n: int)
    ensures ParseSerial(BnToHex(n)) == Some(n)
  {
    if n < 0 {
      ByteHexValue(-n);
      assert BnToHex(n)[1..] == ByteHex(-n);
    } else if n > 0 {
      ByteHexValue(n);
      assert BnToHex(n) == ByteHex(n);
      assert ParseSerial(BnToHex(n)) == HexValue(ByteHex(n));
    } else {
      assert "0"[..0] == [];
    }
  }

  /**
   * The rendering is canonical: beyond the sign, lowercase digits only, whole
   * bytes, no zero byte in front.
   */
  lemma SerialTextIsCanonical(n: int)
    ensures n != 0 ==> |BnToHex(n)| % 2 == (if n < 0 then 1 else 0)
    ensures n > 0 ==> BnToHex(n)[..2] != "00"
    ensures n < 0 ==> |BnToHex(n)| >= 3 && BnToHex(n)[1..3] != "00"
    ensures forall k :: (if n < 0 then 1 else 0) <= k < |BnToHex(n)| ==> DigitValue(BnToHex(n)[k]).Some?
  {
    if n < 0 {
      ByteHexShape(-n);
      assert BnToHex(n) == "-" + ByteHex(-n);
      assert BnToHex(n)[1..] == ByteHex(-n);
      assert BnToHex(n)[1..3] == ByteHex(-n)[..2];
    } else if n > 0 {
      ByteHexShape(n);
      assert BnToHex(n) == ByteHex(n);
    }
  }

  /** Two different serial numbers never render the same way. */
  lemma SerialTextIsInjective(m: int, n: int)
    requires BnToHex(m) == BnToHex(n)
    ensures m == n
  {
    SerialRoundTrip(m);
    SerialRoundTrip(n);
  }

  lemma SerialExamples()
    ensures BnToHex(1715004) == "1a2b3c"
    ensures BnToHex(0x4f3) == "04f3"
    ensures BnToHex(0) == "0"
    ensures BnToHex(-255) == "-ff"
  {
    assert ByteHex(0x1a) == "1a";
    assert ByteHex(0x1a2b) == "1a2b";
    assert ByteHex(0x04) == "04";
  }
}
