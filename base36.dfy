/**
 * The one-time code: `Math.floor(Math.random() * 62 ** 6).toString(36)`.
 * The random integer is an input here; this module models `Number.prototype.toString(36)`
 * on a non-negative integer (most significant digit first, digits `0-9a-z`, no leading zero)
 * together with its inverse, which is how the code's shape is established.
 */
module Base36 {

  /** 62^6: the random integer behind a code is below this bound. */
  const CodeSpace: nat := 56800235584

  function Pow36(k: nat): (p: nat)
    ensures p >= 1
  {
    if k == 0 then 1 else 36 * Pow36(k - 1)
  }

  /** A digit of radix 36 as JavaScript prints it: `0`-`9`, then lower-case `a`-`z`. */
  predicate IsDigit(c: char) {
    '0' <= c <= '9' || 'a' <= c <= 'z'
  }

  predicate AllDigits(s: string) {
    forall i :: 0 <= i < |s| ==> IsDigit(s[i])
  }

  /** A rendering `toString(36)` can produce: non-empty, digits only, no leading zero except "0" itself. */
  predicate Canonical(s: string) {
    |s| >= 1 && AllDigits(s) && (|s| > 1 ==> s[0] != '0')
  }

  function DigitValue(c: char): (d: nat)
    requires IsDigit(c)
    ensures d < 36
    ensures d == 0 <==> c == '0'
  {
    if c <= '9' then c as int - '0' as int else c as int - 'a' as int + 10
  }

  function DigitChar(d: nat): (c: char)
    requires d < 36
    ensures IsDigit(c) && DigitValue(c) == d
  {
    if d < 10 then ('0' as int + d) as char else ('a' as int + d - 10) as char
  }

  /** `n.toString(36)`. */
  function Encode(n: nat): (s: string)
    ensures Canonical(s)
    ensures n > 0 ==> s[0] != '0'
    decreases n
  {
    if n < 36 then [DigitChar(n)] else Encode(n / 36) + [DigitChar(n % 36)]
  }

  /** `parseInt(s, 36)` on a string of digits (the empty string reads as 0). */
  function Decode(s: string): (n: nat)
    requires AllDigits(s)
    ensures n < Pow36(|s|)
    decreases |s|
  {
    if s == [] then 0 else Decode(s[..|s| - 1]) * 36 + DigitValue(s[|s| - 1])
  }

  lemma DecodeSnoc(p: string, c: char)
    requires AllDigits(p) && IsDigit(c)
    ensures AllDigits(p + [c]) && Decode(p + [c]) == Decode(p) * 36 + DigitValue(c)
  {
  }

  /** Reading a code back yields the integer it was made from. */
  lemma {:induction false} DecodeEncode(n: nat)
    ensures Decode(Encode(n)) == n
    decreases n
  {
    if n < 36 {
      assert Encode(n) == [] + [DigitChar(n)];
      DecodeSnoc([], DigitChar(n));
    } else {
      DecodeEncode(n / 36);
      DecodeSnoc(Encode(n / 36), DigitChar(n % 36));
    }
  }

  /** Two different integers never give the same code. */
  lemma EncodeInjective(m: nat, n: nat)
    ensures Encode(m) == Encode(n) <==> m == n
  {
    DecodeEncode(m);
    DecodeEncode(n);
  }

  lemma {:induction false} DecodePositive(s: string)
    requires Canonical(s) && s[0] != '0'
    ensures Decode(s) >= 1
    decreases |s|
  {
    var p, c := s[..|s| - 1], s[|s| - 1];
    assert s == p + [c];
    DecodeSnoc(p, c);
    if |s| > 1 {
      DecodePositive(p);
    }
  }

  /** Every canonical rendering is the code of the integer it denotes. */
  lemma {:induction false} EncodeDecode(s: string)
    requires Canonical(s)
    ensures Encode(Decode(s)) == s
    decreases |s|
  {
    var p, c := s[..|s| - 1], s[|s| - 1];
    assert s == p + [c];
    DecodeSnoc(p, c);
    if |s| == 1 {
      assert Decode(s) == DigitValue(c);
      assert DigitValue(DigitChar(DigitValue(c))) == DigitValue(c);
    } else {
      DecodePositive(p);
      EncodeDecode(p);
      var n := Decode(s);
      assert n / 36 == Decode(p) && n % 36 == DigitValue(c);
      assert DigitValue(DigitChar(n % 36)) == DigitValue(c);
    }
  }

  /** A code has k digits or fewer exactly when its integer is below 36^k. */
  lemma {:induction false} EncodeLength(n: nat, k: nat)
    requires k >= 1
    ensures |Encode(n)| <= k <==> n < Pow36(k)
    decreases n
  {
    if n >= 36 {
      if k == 1 {
        assert |Encode(n)| >= 2;
      } else {
        EncodeLength(n / 36, k - 1);
      }
    }
  }

  /** The shape of every code the command hands out. */
  lemma CodeShape(n: nat)
    requires n < CodeSpace
    ensures var otp := Encode(n); 1 <= |otp| <= 7 && AllDigits(otp) && Decode(otp) == n
  {
    assert Pow36(7) == 78364164096;
    EncodeLength(n, 7);
    DecodeEncode(n);
  }
}
