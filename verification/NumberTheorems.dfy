/** What scanning numbers means: a printed number is read back, and what else strtol accepts. */
module NumberTheorems {
  import opened CText

  const DIGITS := "0123456789"

  /** `n` printed in decimal. */
  function Digits(n: nat): string {
    (if n < 10 then "" else Digits(n / 10)) + [DIGITS[n % 10]]
  }

  /** The character classes, spelled out. */
  lemma ClassIs(c: char)
    ensures Digit.Has(c) <==> c in "0123456789"
    ensures White.Has(c) <==> c in " \t\n\r\U{0B}\U{0C}"
    ensures Blank.Has(c) <==> c in " \t"
    ensures Space.Has(c) <==> c in " "
  {
    if Digit.Has(c) {
      assert c == DIGITS[c as int - '0' as int];
    }
    assert forall i :: 0 <= i < 10 ==> Digit.Has("0123456789"[i]);
    assert " \t\n\r\U{0B}\U{0C}"[0] == ' ';
  }

  lemma DigitChar(d: nat)
    requires d < 10
    ensures Digit.Has(DIGITS[d]) && DigitValue(DIGITS[d]) == d
  {
  }

  lemma {:induction false} DecimalShift(s: string, from: nat, t: string, k: nat)
    requires k <= |t| && from + k <= |s| && forall i :: 0 <= i < k ==> s[from + i] == t[i]
    ensures Decimal(s, from, from + k) == Decimal(t, 0, k)
  {
    if k == 0 {
    } else {
      DecimalShift(s, from, t, k - 1);
    }
  }

  /** A zero in front changes nothing. */
  lemma {:induction false} LeadingZero(s: string, k: nat)
    requires k <= |s|
    ensures Decimal("0" + s, 0, k + 1) == Decimal(s, 0, k)
  {
    if k == 0 {
      assert Decimal("0" + s, 0, 0) == 0 && ("0" + s)[0] == '0';
    } else {
      LeadingZero(s, k - 1);
    }
  }

  predicate AllDigits(s: string) { forall i :: 0 <= i < |s| ==> Digit.Has(s[i]) }

  lemma DecimalSnoc(front: string, c: char)
    requires AllDigits(front) && Digit.Has(c)
    ensures AllDigits(front + [c])
    ensures Decimal(front + [c], 0, |front| + 1)
         == 10 * Decimal(front, 0, |front|) + DigitValue(c)
  {
    hide DigitValue, Class.Has;
    DecimalShift(front + [c], 0, front, |front|);
  }

  lemma {:induction false} DigitsDecimal(n: nat)
    ensures Digits(n) != [] && AllDigits(Digits(n))
    ensures Decimal(Digits(n), 0, |Digits(n)|) == n
  {
    hide Class.Has, DigitValue, Decimal;
    var front, c := if n < 10 then "" else Digits(n / 10), DIGITS[n % 10];
    DigitChar(n % 10);
    if n < 10 {
      EmptyDecimal();
    } else {
      DigitsDecimal(n / 10);
    }
    DecimalSnoc(front, c);
    assert Digits(n) == front + [c];
  }

  lemma EmptyDecimal()
    ensures Decimal("", 0, 0) == 0
  {
  }

  /** A run of digits that is followed by none. */
  predicate DigitRun(s: string, from: nat, to: nat) {
    from < to <= |s| && (forall i :: from <= i < to ==> Digit.Has(s[i]))
    && (to < |s| ==> !Digit.Has(s[to]))
  }

  lemma NumberScanned(s: string, from: nat, to: nat)
    requires DigitRun(s, from, to)
    ensures ScanNumber(s, from) == Number(false, Decimal(s, from, to), to)
  {
    SkipFromIs(s, White, from, from);
    SkipFromIs(s, Digit, from, to);
  }

  predicate AllWhite(s: string) { forall i :: 0 <= i < |s| ==> White.Has(s[i]) }

  predicate IsSign(sign: string) { sign == "" || sign == "+" || sign == "-" }

  /** What may follow a number without being read as part of it. */
  predicate NoDigitFirst(s: string) { s == [] || s[0] !in "0123456789" }

  /** White space up to `sign`, a sign or none, digits in `start..end`. */
  lemma ScannedAt(s: string, sign: nat, start: nat, end: nat)
    requires sign <= start <= end <= |s|
    requires (forall i :: 0 <= i < sign ==> White.Has(s[i])) && (sign < |s| ==> !White.Has(s[sign]))
    requires start == if sign < |s| && (s[sign] == '+' || s[sign] == '-') then sign + 1 else sign
    requires (forall i :: start <= i < end ==> Digit.Has(s[i])) && (end < |s| ==> !Digit.Has(s[end]))
    ensures ScanNumber(s, 0) ==
      if start == end then Nothing else Number(s[sign] == '-', Decimal(s, start, end), end)
  {
    SkipFromIs(s, White, 0, sign);
    SkipFromIs(s, Digit, start, end);
  }

  lemma SignedScanned(s: string, pre: string, sign: string, digits: string, post: string)
    requires Spells(s, pre, sign, digits, post)
    requires AllWhite(pre) && IsSign(sign) && AllDigits(digits)
    requires post == [] || !Digit.Has(post[0])
    requires digits == [] && sign == "" && post != [] ==>
      !White.Has(post[0]) && post[0] != '+' && post[0] != '-'
    ensures ScanNumber(s, 0) ==
      if digits == [] then Nothing
      else Number(sign == "-", Decimal(digits, 0, |digits|), |pre| + |sign| + |digits|)
  {
    hide Decimal, ScanNumber;
    var w, start := |pre|, |pre| + |sign|;
    assert sign != [] ==> s[w + 0] == sign[0];
    assert digits != [] ==> s[start + 0] == digits[0];
    assert post != [] ==> s[start + |digits| + 0] == post[0];
    forall i | start <= i < start + |digits| ensures Digit.Has(s[i]) {
      assert s[start + (i - start)] == digits[i - start];
    }
    ScannedAt(s, w, start, start + |digits|);
    DecimalShift(s, start, digits, |digits|);
  }

  lemma SignedNumber(pre: string, sign: string, n: nat, post: string)
    requires AllWhite(pre) && IsSign(sign) && NoDigitFirst(post)
    ensures ScanNumber(pre + sign + Digits(n) + post, 0)
         == Number(sign == "-", n, |pre| + |sign| + |Digits(n)|)
  {
    hide Decimal, ScanNumber, Digits;
    DigitsDecimal(n);
    if post != [] {
      ClassIs(post[0]);
    }
    var s := pre + sign + Digits(n) + post;
    Spelled(pre, sign, Digits(n), post);
    SignedScanned(s, pre, sign, Digits(n), post);
  }

  /** `r` is the 32-bit int that is equal modulo 2^32 to `v`, or to the end of the 64-bit range that
    * `v` is beyond. */
  predicate IsCut(v: int, r: int) {
    && -0x8000_0000 <= r <= 0x7fff_ffff
    && (-0x8000_0000_0000_0000 <= v <= 0x7fff_ffff_ffff_ffff ==> (v - r) % 0x1_0000_0000 == 0)
    && (v > 0x7fff_ffff_ffff_ffff ==> r == -1) && (v < -0x8000_0000_0000_0000 ==> r == 0)
  }

  lemma ToIntCut(s: string, negative: bool, n: nat, next: nat)
    requires ScanNumber(s, 0) == Number(negative, n, next)
    ensures IsCut(if negative then 0 - n else n as int, ToInt(s))
  {
    hide ScanNumber;
    var v: int := if negative then 0 - n else n;
    var clamped: int := if v > LONG_MAX then LONG_MAX else if v < 0 - LONG_MAX - 1 then 0 - LONG_MAX - 1
                        else v;
    assert ToInt(s) == LowInt(clamped);
    LowIntIs(clamped);
  }

  /** The low 32 bits of `v`, as an int. */
  function LowInt(v: int): int {
    var low := v % 0x1_0000_0000;
    if low >= 0x8000_0000 then low - 0x1_0000_0000 else low
  }

  lemma LowIntIs(v: int)
    ensures -0x8000_0000 <= LowInt(v) <= 0x7fff_ffff && (v - LowInt(v)) % 0x1_0000_0000 == 0
  {
    var q := v / 0x1_0000_0000;
    assert v == 0x1_0000_0000 * q + v % 0x1_0000_0000;
    Multiple(q);
    Multiple(q + 1);
  }

  lemma Multiple(q: int)
    ensures (0x1_0000_0000 * q) % 0x1_0000_0000 == 0
  {
  }

  lemma CutFits(v: int, r: int)
    requires IsCut(v, r)
    ensures r == v <==> -0x8000_0000 <= v <= 0x7fff_ffff
  {
    if -0x8000_0000 <= v <= 0x7fff_ffff {
      assert -0x1_0000_0000 < v - r < 0x1_0000_0000;
    }
  }

  /** In any case the number is clamped to 64 bits and then cut to 32. */
  lemma ReadBackValue(pre: string, sign: string, n: nat, post: string)
    requires AllWhite(pre) && IsSign(sign) && NoDigitFirst(post)
    ensures IsCut(if sign == "-" then 0 - n else n as int, ToInt(pre + sign + Digits(n) + post))
  {
    hide ToInt, ScanNumber, Digits, IsCut;
    var s := pre + sign + Digits(n) + post;
    SignedNumber(pre, sign, n, post);
    ToIntCut(s, sign == "-", n, |pre| + |sign| + |Digits(n)|);
  }

  /** A number between white space and anything but a digit is read as printed, with its sign, iff
    * it fits a 32-bit int. */
  lemma ReadBackIff(pre: string, sign: string, n: nat, post: string)
    requires AllWhite(pre) && IsSign(sign) && NoDigitFirst(post)
    ensures var v := if sign == "-" then 0 - n else n as int;
      ToInt(pre + sign + Digits(n) + post) == v <==> -0x8000_0000 <= v <= 0x7fff_ffff
  {
    hide ToInt, Digits, IsCut;
    ReadBackValue(pre, sign, n, post);
    CutFits(if sign == "-" then 0 - n else n as int, ToInt(pre + sign + Digits(n) + post));
  }

  /** Text with no number in front is read as zero. */
  lemma NoNumber(pre: string, sign: string, post: string)
    requires AllWhite(pre) && IsSign(sign) && NoDigitFirst(post)
    requires sign == "" && post != [] ==> !White.Has(post[0]) && post[0] != '+' && post[0] != '-'
    ensures ToInt(pre + sign + post) == 0
  {
    hide ScanNumber;
    if post != [] {
      ClassIs(post[0]);
    }
    Spelled(pre, sign, [], post);
    SignedScanned(pre + sign + [] + post, pre, sign, [], post);
    assert pre + sign + [] + post == pre + sign + post;
  }

  lemma PlainRead(n: nat)
    ensures ToInt(Digits(n)) == n <==> n <= 0x7fff_ffff
  {
    ReadBackIff("", "", n, "");
    assert "" + "" + Digits(n) + "" == Digits(n);
  }
}
