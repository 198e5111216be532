/** Decimal numerals: String(n), padStart with zeros, and reading digits back. */
module Decimal {
  import opened Text

  predicate IsDigit(c: char) {
    '0' <= c <= '9'
  }

  function DigitOf(d: nat): (c: char)
    requires d < 10
    ensures IsDigit(c) && ValueOf(c) == d
  {
    '0' + d as char
  }

  function ValueOf(c: char): nat
    requires IsDigit(c)
  {
    (c - '0') as nat
  }

  predicate IsNumeral(s: string) {
    forall c :: c in s ==> IsDigit(c)
  }

  /** String(n) for a non-negative integer. */
  function Show(n: nat): (s: string)
    ensures s != "" && IsNumeral(s)
  {
    if n < 10 then [DigitOf(n)] else Show(n / 10) + [DigitOf(n % 10)]
  }

  /** The number that a run of digits denotes; leading zeros do not matter. */
  function Read(s: string): nat
    requires IsNumeral(s)
  {
    if s == "" then 0
    else
      assert s[|s| - 1] in s;
      10 * Read(s[..|s| - 1]) + ValueOf(s[|s| - 1])
  }

  lemma {:induction false} ReadShow(n: nat)
    ensures Read(Show(n)) == n
  {
    if n >= 10 {
      ReadShow(n / 10);
      assert Show(n)[..|Show(n)| - 1] == Show(n / 10);
    }
  }

  function Zeros(k: nat): (s: string)
    ensures |s| == k && IsNumeral(s)
  {
    seq(k, _ => '0')
  }

  /** String.prototype.padStart with "0": short texts are filled on the left, long ones are kept. */
  function PadStart(s: string, width: nat): string {
    if |s| >= width then s else Zeros(width - |s|) + s
  }

  lemma {:induction false} ReadZeros(k: nat, s: string)
    requires IsNumeral(s)
    ensures IsNumeral(Zeros(k) + s) && Read(Zeros(k) + s) == Read(s)
    decreases |s|, k
  {
    if s == "" {
      if k > 0 {
        assert (Zeros(k) + s)[..k - 1] == Zeros(k - 1) + s;
        ReadZeros(k - 1, s);
      }
    } else {
      assert (Zeros(k) + s)[..k + |s| - 1] == Zeros(k) + s[..|s| - 1];
      ReadZeros(k, s[..|s| - 1]);
    }
  }

  lemma ReadPadded(n: nat, width: nat)
    ensures IsNumeral(PadStart(Show(n), width)) && Read(PadStart(Show(n), width)) == n
  {
    ReadShow(n);
    if |Show(n)| < width {
      ReadZeros(width - |Show(n)|, Show(n));
    }
  }

  function Pow10(k: nat): nat {
    if k == 0 then 1 else 10 * Pow10(k - 1)
  }

  /** A numeral fits in k digits exactly when its number is below 10^k. */
  lemma {:induction false} ShowFits(n: nat, k: nat)
    requires k >= 1
    ensures |Show(n)| <= k <==> n < Pow10(k)
  {
    if k == 1 {
      assert Pow10(1) == 10 * Pow10(0);
    } else if n >= 10 {
      ShowFits(n / 10, k - 1);
    } else {
      ShowFits(n, k - 1);
      assert Pow10(k) >= 10 by { Pow10Grows(k - 1); }
    }
  }

  lemma {:induction false} Pow10Grows(k: nat)
    ensures Pow10(k) >= 1
  {
    if k > 0 { Pow10Grows(k - 1); }
  }

  /** Padding gives exactly the field width precisely when the number fits. */
  lemma {:induction false} PaddedWidth(n: nat, width: nat)
    requires width >= 1
    ensures |PadStart(Show(n), width)| == width <==> n < Pow10(width)
  {
    ShowFits(n, width);
  }

  /** Reads a non-empty numeral from the front of a text. */
  function TakeNumber(s: string): (r: Option<Taken<nat>>)
  {
    var t := TakeWhile(IsDigit, s);
    if t.value == "" then None else Some(Taken(Read(t.value), t.rest))
  }

  lemma TakeNumberExact(n: nat, rest: string)
    requires rest == "" || !IsDigit(rest[0])
    ensures TakeNumber(Show(n) + rest) == Some(Taken(n, rest))
  {
    TakeWhileExact(IsDigit, Show(n), rest);
    ReadShow(n);
  }
}
