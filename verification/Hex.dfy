/** Hexadecimal text of byte strings, as the pairing key is stored and raw payloads are shown. */
module Hex {
  import opened Wrappers
  import opened Bytes

  type Nibble = n: int | 0 <= n < 16

  function Digit(n: Nibble, upper: bool): char {
    if n < 10 then "0123456789"[n] else if upper then "ABCDEF"[n - 10] else "abcdef"[n - 10]
  }

  function DigitValue(c: char): Option<Nibble> {
    if '0' <= c <= '9' then Some(c as int - '0' as int)
    else if 'a' <= c <= 'f' then Some(c as int - 'a' as int + 10)
    else if 'A' <= c <= 'F' then Some(c as int - 'A' as int + 10)
    else None
  }

  function Join(hi: int, lo: int): Byte
    requires 0 <= hi < 16 && 0 <= lo < 16
  {
    16 * hi + lo
  }

  /** `bytes.hex()`, in capitals after `.upper()`. */
  function ToHex(b: Bytes, upper: bool): (s: string)
    ensures |s| == 2 * |b|
  {
    if b == [] then "" else [Digit(b[0] / 16, upper), Digit(b[0] % 16, upper)] + ToHex(b[1..], upper)
  }

  /** `bytes.fromhex`, None where it raises. */
  function FromHex(s: string): Option<Bytes> {
    if s == "" then Some([])
    else if |s| == 1 then None
    else
      match (DigitValue(s[0]), DigitValue(s[1]), FromHex(s[2..]))
      case (Some(hi), Some(lo), Some(rest)) => Some([Join(hi, lo)] + rest)
      case _ => None
  }

  lemma DigitRoundTrip(n: Nibble, upper: bool)
    ensures DigitValue(Digit(n, upper)) == Some(n)
  {
    if n < 10 {
      assert "0123456789"[n] as int == '0' as int + n;
    } else {
      assert "ABCDEF"[n - 10] as int == 'A' as int + n - 10;
      assert "abcdef"[n - 10] as int == 'a' as int + n - 10;
    }
  }

  /** Two digits a byte, the upper half first. */
  lemma {:induction false} ToHexAt(b: Bytes, upper: bool, i: nat)
    requires i < |b|
    ensures var digits := if upper then "0123456789ABCDEF" else "0123456789abcdef";
            ToHex(b, upper)[2 * i] == digits[b[i] / 16] && ToHex(b, upper)[2 * i + 1] == digits[b[i] % 16]
  {
    if i > 0 {
      ToHexAt(b[1..], upper, i - 1);
    }
  }

  lemma DigitIs(c: char)
    ensures DigitValue(c).Some? <==> '0' <= c <= '9' || 'a' <= c <= 'f' || 'A' <= c <= 'F'
  {
  }

  /** Text is read back if it has an even number of digits, capital or not, and no other character. */
  lemma {:induction false} FromHexAccepts(s: string)
    ensures FromHex(s).Some? <==>
              |s| % 2 == 0
              && forall i :: 0 <= i < |s| ==> '0' <= s[i] <= '9' || 'a' <= s[i] <= 'f' || 'A' <= s[i] <= 'F'
  {
    hide DigitValue;
    if |s| >= 2 {
      DigitIs(s[0]);
      DigitIs(s[1]);
      FromHexAccepts(s[2..]);
      assert forall i :: 2 <= i < |s| ==> s[i] == s[2..][i - 2];
    }
  }

  lemma {:induction false} FromHexToHex(b: Bytes, upper: bool)
    ensures FromHex(ToHex(b, upper)) == Some(b)
  {
    if b != [] {
      FromHexToHex(b[1..], upper);
      DigitRoundTrip(b[0] / 16, upper);
      DigitRoundTrip(b[0] % 16, upper);
      var s := ToHex(b, upper);
      assert s[2..] == ToHex(b[1..], upper);
      assert Join(b[0] / 16, b[0] % 16) == b[0];
      assert [b[0]] + b[1..] == b;
    }
  }
}
