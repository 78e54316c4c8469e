/** Numbers as the program prints and parses them: decimal digits, zero-padded to a width or not. */
module Decimal {
  import opened Options

  const U64_MAX: nat := 0xFFFF_FFFF_FFFF_FFFF

  predicate IsDigit(c: char) {
    '0' <= c <= '9'
  }

  predicate AllDigits(s: string) {
    forall i :: 0 <= i < |s| ==> IsDigit(s[i])
  }

  function Digit(d: nat): (c: char)
    requires d < 10
    ensures IsDigit(c) && c as int - '0' as int == d
  {
    ('0' as int + d) as char
  }

  /** `{n}` */
  function Written(n: nat): (s: string)
    ensures |s| > 0 && AllDigits(s)
  {
    if n < 10 then [Digit(n)] else Written(n / 10) + [Digit(n % 10)]
  }

  function Zeros(w: nat): (s: string)
    ensures |s| == w && AllDigits(s)
  {
    seq(w, _ => '0')
  }

  /** `{n:0w}` */
  function Padded(n: nat, w: nat): (s: string)
    ensures |s| >= w && |s| > 0 && AllDigits(s)
  {
    var s := Written(n);
    if |s| < w then Zeros(w - |s|) + s else s
  }

  function Value(s: string): nat
    requires AllDigits(s)
  {
    if s == "" then 0
    else 10 * Value(s[..|s| - 1]) + (s[|s| - 1] as int - '0' as int)
  }

  function Pow10(w: nat): nat {
    if w == 0 then 1 else 10 * Pow10(w - 1)
  }

  /** `str::parse::<u64>`: digits, after at most one plus sign, that fit. */
  function ParseU64(s: string): Option<nat> {
    var t := if |s| > 0 && s[0] == '+' then s[1..] else s;
    if t != "" && AllDigits(t) && Value(t) <= U64_MAX then Some(Value(t)) else None
  }

  lemma {:induction false} ValueOfWritten(n: nat)
    ensures Value(Written(n)) == n
  {
    if n >= 10 {
      ValueOfWritten(n / 10);
      assert Written(n)[..|Written(n)| - 1] == Written(n / 10);
    }
  }

  lemma {:induction false} LeadingZeros(w: nat, s: string)
    requires AllDigits(s)
    ensures Value(Zeros(w) + s) == Value(s)
  {
    if s != "" {
      LeadingZeros(w, s[..|s| - 1]);
      assert (Zeros(w) + s)[..w + |s| - 1] == Zeros(w) + s[..|s| - 1];
    } else if w > 0 {
      LeadingZeros(w - 1, "");
      assert Zeros(w) + "" == Zeros(w) && Zeros(w - 1) + "" == Zeros(w - 1);
      assert Zeros(w)[..w - 1] == Zeros(w - 1);
    } else {
      assert Zeros(0) + "" == "";
    }
  }

  lemma ValueOfPadded(n: nat, w: nat)
    ensures Value(Padded(n, w)) == n
  {
    ValueOfWritten(n);
    if |Written(n)| < w {
      LeadingZeros(w - |Written(n)|, Written(n));
    }
  }

  /** A number takes `w` digits or fewer exactly when it is below `10^w`. */
  lemma {:induction false} WrittenLength(n: nat, w: nat)
    requires w > 0
    ensures |Written(n)| <= w <==> n < Pow10(w)
  {
    if w == 1 {
      assert Pow10(1) == 10;
    } else if n >= 10 {
      WrittenLength(n / 10, w - 1);
    } else {
      PowGrows(w);
    }
  }

  lemma {:induction false} PowGrows(w: nat)
    requires w > 0
    ensures Pow10(w) >= 10
  {
    if w > 1 {
      PowGrows(w - 1);
    }
  }

  lemma PaddedLength(n: nat, w: nat)
    requires w > 0
    ensures |Padded(n, w)| == w <==> n < Pow10(w)
  {
    WrittenLength(n, w);
  }
}
