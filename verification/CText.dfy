/** Searching in byte strings by position, and NUL-terminated strings inside larger buffers. */
module CText {

  const NUL := '\0'

  /** `s` is `a`, `b`, `c` and `d`, byte by byte. */
  predicate Spells(s: string, a: string, b: string, c: string, d: string) {
    && |s| == |a| + |b| + |c| + |d|
    && (forall i :: 0 <= i < |a| ==> s[i] == a[i])
    && (forall i :: 0 <= i < |b| ==> s[|a| + i] == b[i])
    && (forall i :: 0 <= i < |c| ==> s[|a| + |b| + i] == c[i])
    && (forall i :: 0 <= i < |d| ==> s[|a| + |b| + |c| + i] == d[i])
  }

  lemma Spelled(a: string, b: string, c: string, d: string)
    ensures Spells(a + b + c + d, a, b, c, d)
  {
  }

  /** Position of the first `c` at or after `from`, or the length. */
  function FindFrom(s: string, c: char, from: nat): (k: nat)
    requires from <= |s|
    ensures from <= k <= |s| && (k < |s| ==> s[k] == c)
    decreases |s| - from
  {
    if from == |s| || s[from] == c then from else FindFrom(s, c, from + 1)
  }

  lemma {:induction false} FindFromFirst(s: string, c: char, from: nat)
    requires from <= |s|
    ensures forall i :: from <= i < FindFrom(s, c, from) ==> s[i] != c
    decreases |s| - from
  {
    if from == |s| || s[from] == c {
    } else {
      FindFromFirst(s, c, from + 1);
    }
  }

  lemma {:induction false} FindFromIs(s: string, c: char, from: nat, k: nat)
    requires from <= k <= |s| && (forall i :: from <= i < k ==> s[i] != c) && (k < |s| ==> s[k] == c)
    ensures FindFrom(s, c, from) == k
    decreases k - from
  {
    if from == k {
    } else {
      FindFromIs(s, c, from + 1, k);
    }
  }

  /** `Blank` is a space or tab; `White` is what isspace accepts. */
  datatype Class = Space | Blank | White | Digit {
    predicate Has(c: char) {
      match this
      case Space => c == ' '
      case Blank => c == ' ' || c == '\t'
      case White => c == ' ' || '\t' <= c <= '\r'
      case Digit => '0' <= c <= '9'
    }
  }

  /** Position after the run of characters of a class that starts at `from`. */
  function SkipFrom(s: string, cs: Class, from: nat): (k: nat)
    requires from <= |s|
    ensures from <= k <= |s| && (k < |s| ==> !cs.Has(s[k]))
    decreases |s| - from
  {
    if from == |s| || !cs.Has(s[from]) then from else SkipFrom(s, cs, from + 1)
  }

  lemma {:induction false} SkipFromAll(s: string, cs: Class, from: nat)
    requires from <= |s|
    ensures forall i :: from <= i < SkipFrom(s, cs, from) ==> cs.Has(s[i])
    decreases |s| - from
  {
    if from == |s| || !cs.Has(s[from]) {
    } else {
      SkipFromAll(s, cs, from + 1);
    }
  }

  lemma {:induction false} SkipFromIs(s: string, cs: Class, from: nat, k: nat)
    requires from <= k <= |s|
    requires (forall i :: from <= i < k ==> cs.Has(s[i])) && (k < |s| ==> !cs.Has(s[k]))
    ensures SkipFrom(s, cs, from) == k
    decreases k - from
  {
    if from == k {
    } else {
      SkipFromIs(s, cs, from + 1, k);
    }
  }

  lemma SkipFromSlice(s: string, cs: Class, from: nat)
    requires from <= |s|
    ensures from + SkipFrom(s[from..], cs, 0) == SkipFrom(s, cs, from)
  {
    SkipFromAll(s, cs, from);
    SkipFromIs(s[from..], cs, 0, SkipFrom(s, cs, from) - from);
  }

  /** The string that a pointer to position `at` of `b` denotes. */
  function StringAt(b: string, at: nat): string
    requires at <= |b|
  {
    b[at..FindFrom(b, NUL, at)]
  }

  /** That string ends inside the buffer. */
  predicate Terminated(b: string, at: nat) { at < |b| && FindFrom(b, NUL, at) < |b| }

  function CString(b: string): string { StringAt(b, 0) }

  lemma StringAtIs(b: string, at: nat, k: nat)
    requires at + k <= |b| && (forall i :: at <= i < at + k ==> b[i] != NUL)
    requires at + k < |b| ==> b[at + k] == NUL
    ensures StringAt(b, at) == b[at..at + k]
    ensures at + k < |b| ==> Terminated(b, at)
  {
    FindFromIs(b, NUL, at, at + k);
  }

  lemma StringAtChars(b: string, at: nat)
    requires Terminated(b, at)
    ensures var s := StringAt(b, at);
      at + |s| < |b| && b[at + |s|] == NUL && forall i :: at <= i < at + |s| ==> b[i] == s[i - at] != NUL
  {
    FindFromFirst(b, NUL, at);
  }

  lemma StringInside(b: string, at: nat, k: nat)
    requires Terminated(b, at) && k <= |StringAt(b, at)|
    ensures Terminated(b, at + k) && StringAt(b, at + k) == StringAt(b, at)[k..]
  {
    StringAtChars(b, at);
    StringAtIs(b, at + k, |StringAt(b, at)| - k);
  }

  /** strlen of the string at `at`. */
  method Strlen(buff: array<char>, at: nat) returns (len: nat)
    requires Terminated(buff[..], at)
    ensures len == |StringAt(buff[..], at)|
  {
    StringAtChars(buff[..], at);
    len := 0;
    while buff[at + len] != NUL
      invariant len <= |StringAt(buff[..], at)|
      decreases |StringAt(buff[..], at)| - len
    {
      len := len + 1;
    }
  }

  /** The buffer holds the string `s`, ended by its NUL. */
  predicate Holds(buff: array<char>, s: string)
    reads buff
  {
    Terminated(buff[..], 0) && StringAt(buff[..], 0) == s
  }

  lemma HoldsIff(buff: array<char>, s: string)
    ensures Holds(buff, s) <==>
      |s| < buff.Length && buff[..|s|] == s && buff[|s|] == NUL && NUL !in s
  {
    if Holds(buff, s) {
      StringAtChars(buff[..], 0);
    }
    if |s| < buff.Length && buff[..|s|] == s && buff[|s|] == NUL && NUL !in s {
      StringAtIs(buff[..], 0, |s|);
    }
  }

  /** A string that ends before `k` is not changed by writes at or after `k`. */
  lemma StringKept(b: string, b': string, at: nat, k: nat)
    requires Terminated(b, at) && at + |StringAt(b, at)| < k <= |b| == |b'| && b[..k] == b'[..k]
    ensures Terminated(b', at) && StringAt(b', at) == StringAt(b, at)
  {
    StringAtChars(b, at);
    var n := |StringAt(b, at)|;
    assert forall i :: 0 <= i < k ==> b[i] == b[..k][i] == b'[i];
    StringAtIs(b', at, n);
  }

  /** A buffer cut by a NUL at `end`. */
  lemma StringCut(b: string, at: nat, end: nat)
    requires at <= end < |b|
    ensures Terminated(b[end := NUL], at)
    ensures StringAt(b[end := NUL], at) == CString(b[at..end])
  {
    var t := b[at..end];
    var k := FindFrom(t, NUL, 0);
    FindFromFirst(t, NUL, 0);
    StringAtIs(b[end := NUL], at, k);
  }

  // ---- Numbers, as the C library scans them ----

  function DigitValue(c: char): nat {
    if Digit.Has(c) then c as int - '0' as int else 0
  }

  /** Value of the decimal digits in `s[from..to]`. */
  function Decimal(s: string, from: nat, to: nat): nat
    requires from <= to <= |s|
  {
    if from == to then 0 else 10 * Decimal(s, from, to - 1) + DigitValue(s[to - 1])
  }

  datatype Scanned = Nothing | Number(negative: bool, magnitude: nat, next: nat)

  /** Optional white space and sign, then at least one digit. */
  function ScanNumber(s: string, from: nat): (r: Scanned)
    requires from <= |s|
    ensures r.Number? ==> r.next <= |s|
  {
    var sign := SkipFrom(s, White, from);
    var start := if sign < |s| && (s[sign] == '+' || s[sign] == '-') then sign + 1 else sign;
    var end := SkipFrom(s, Digit, start);
    if start == end then Nothing
    else Number(s[sign] == '-', Decimal(s, start, end), end)
  }

  const ULONG_MAX: nat := 0xffff_ffff_ffff_ffff

  const LONG_MAX: nat := 0x7fff_ffff_ffff_ffff

  /** What `%u` stores: the value clamped to unsigned long, then cut to 32 bits. */
  function AsUnsigned(negative: bool, magnitude: nat): nat {
    (if magnitude > ULONG_MAX then ULONG_MAX
     else if negative then (ULONG_MAX + 1 - magnitude) % (ULONG_MAX + 1) else magnitude)
      % 0x1_0000_0000
  }

  /** What `(int) strtol` gives: the value clamped to long, then cut to a 32-bit int. */
  function ToInt(s: string): int {
    match ScanNumber(s, 0)
    case Nothing => 0
    case Number(negative, magnitude, _) =>
      var clamped: int :=
        if negative then (if magnitude > LONG_MAX + 1 then 0 - LONG_MAX - 1 else 0 - magnitude)
        else (if magnitude > LONG_MAX then LONG_MAX else magnitude);
      var low := clamped % 0x1_0000_0000;
      if low >= 0x8000_0000 then low - 0x1_0000_0000 else low
  }
}
