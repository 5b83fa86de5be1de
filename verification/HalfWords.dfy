/** The value of a half-word, four bits at a time. */
module HalfWords {

  /** The half-word with a given value. */
  function HalfWordOf(n: nat): bv16
    requires n < 0x1_0000
  {
    Join(n / 16 / 16 / 16, n / 16 / 16 % 16, n / 16 % 16, n % 16)
  }

  function NumberOf(w: bv16): nat {
    ((Digit(w >> 12) * 16 + Digit(w >> 8)) * 16 + Digit(w >> 4)) * 16 + Digit(w)
  }

  function Join(a: nat, b: nat, c: nat, d: nat): bv16
    requires a < 16 && b < 16 && c < 16 && d < 16
  {
    (FourBits(a) << 12) | (FourBits(b) << 8) | (FourBits(c) << 4) | FourBits(d)
  }

  function FourBits(n: nat): bv16
    requires n < 16
  {
    (n as bv4) as bv16
  }

  /** The lowest four bits. */
  function Digit(w: bv16): nat {
    ((w & 15) as bv4) as nat
  }

  lemma DigitBack(n: nat)
    requires n < 16
    ensures Digit(FourBits(n)) == n && FourBits(n) <= 15
  {
  }

  lemma PartsBack(a: bv16, b: bv16, c: bv16, d: bv16)
    requires a <= 15 && b <= 15 && c <= 15 && d <= 15
    ensures var w := (a << 12) | (b << 8) | (c << 4) | d;
            (w >> 12) & 15 == a & 15 && (w >> 8) & 15 == b & 15 && (w >> 4) & 15 == c & 15 && w & 15 == d & 15
  {
  }

  lemma JoinBack(a: nat, b: nat, c: nat, d: nat)
    requires a < 16 && b < 16 && c < 16 && d < 16
    ensures NumberOf(Join(a, b, c, d)) == ((a * 16 + b) * 16 + c) * 16 + d
  {
    DigitBack(a);
    DigitBack(b);
    DigitBack(c);
    DigitBack(d);
    PartsBack(FourBits(a), FourBits(b), FourBits(c), FourBits(d));
  }

  lemma NumberBack(n: nat)
    requires n < 0x1_0000
    ensures NumberOf(HalfWordOf(n)) == n
  {
    JoinBack(n / 16 / 16 / 16, n / 16 / 16 % 16, n / 16 % 16, n % 16);
  }
}
