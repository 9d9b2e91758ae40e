/** itoa and atoi on 32-bit integers: the digit loop, the in-place reversal and the parse
    loop. Characters are their codes. C division truncates toward zero, and signed overflow
    is taken to wrap around. */
module Numerals {
  import opened Common

  // ---------------------------------------------------------------------------
  // 32-bit arithmetic

  const MIN_INT := -0x8000_0000

  predicate IsInt(v: int) {
    MIN_INT <= v <= MAX_INT
  }

  function Wrap(v: int): (r: int)
    ensures IsInt(r) && (IsInt(v) ==> r == v)
  {
    (v + 0x8000_0000) % 0x1_0000_0000 - 0x8000_0000
  }

  function CDiv(v: int, base: nat): int
    requires base > 0
  {
    if v >= 0 then v / base else -(-v / base)
  }

  function CMod(v: int, base: nat): int
    requires base > 0
  {
    if v >= 0 then v % base else -(-v % base)
  }

  function Abs(v: int): nat {
    if v < 0 then -v else v
  }

  lemma QuotientShrinks(v: int, base: nat)
    requires base >= 2
    ensures v != 0 ==> Abs(CDiv(v, base)) < Abs(v)
    ensures v == 0 ==> CDiv(v, base) == 0
    ensures IsInt(v) ==> IsInt(CDiv(v, base))
    ensures v == CDiv(v, base) * base + CMod(v, base)
    ensures Abs(CMod(v, base)) < base
    ensures v >= 0 ==> CDiv(v, base) >= 0 && CMod(v, base) >= 0
    ensures v < 0 ==> CDiv(v, base) <= 0 && CMod(v, base) <= 0
  {
    Halves(Abs(v), base);
    var q := Abs(v) / base;
    assert -q * base == -(q * base);
  }

  lemma Halves(v: nat, base: nat)
    requires base >= 2
    ensures v > 0 ==> v / base < v
    ensures v / base >= 0 && v == v / base * base + v % base
  {
    var q, r := v / base, v % base;
    assert v == base * q + r;
    Positive(base, q + 1);
    assert base * q >= 2 * q;
  }

  lemma Positive(base: nat, x: int)
    requires base * x > 0
    ensures x > 0
  {}

  // ---------------------------------------------------------------------------
  // The text of a number

  function DigitChar(remainder: int): int {
    if remainder < 10 then remainder + '0' as int else remainder + 'A' as int - 10
  }

  /** Most significant digit first. */
  function Numeral(v: int, base: nat): (s: seq<int>)
    requires base >= 2
    ensures s != []
    decreases Abs(v)
  {
    QuotientShrinks(v, base);
    var q := CDiv(v, base);
    (if q == 0 then [] else Numeral(q, base)) + [DigitChar(CMod(v, base))]
  }

  function Text(v: int, base: nat): seq<int>
    requires base >= 2
  {
    if v < 0 && base == 10 then ['-' as int] + Numeral(Wrap(-v), base) else Numeral(v, base)
  }

  /** The order in which the digit loop produces the digits. */
  function LowFirst(v: int, base: nat): seq<int>
    requires base >= 2
    decreases Abs(v)
  {
    QuotientShrinks(v, base);
    var q := CDiv(v, base);
    [DigitChar(CMod(v, base))] + if q == 0 then [] else LowFirst(q, base)
  }

  function Reversed(s: seq<int>): (r: seq<int>)
    ensures |r| == |s|
    ensures forall i :: 0 <= i < |s| ==> r[i] == s[|s| - 1 - i]
  {
    if s == [] then [] else Reversed(s[1..]) + [s[0]]
  }

  lemma {:induction false} LowFirstReversed(v: int, base: nat)
    requires base >= 2
    ensures Reversed(LowFirst(v, base)) == Numeral(v, base)
    decreases Abs(v)
  {
    QuotientShrinks(v, base);
    var q := CDiv(v, base);
    if q != 0 {
      LowFirstReversed(q, base);
    }
    assert LowFirst(v, base)[1..] == if q == 0 then [] else LowFirst(q, base);
  }

  /** The two pointers walk towards each other and swap. */
  method SwapEnds(a: array<int>, lo: nat, hi: nat)
    requires lo <= hi <= a.Length
    modifies a
    ensures forall k :: lo <= k < hi ==> a[k] == old(a[lo + hi - 1 - k])
    ensures forall k :: 0 <= k < lo || hi <= k < a.Length ==> a[k] == old(a[k])
  {
    ghost var was := a[..];
    var p1, p2 := lo, hi - 1;
    while p1 < p2
      invariant lo <= p1 && p2 < hi && p1 - lo == hi - 1 - p2 && p1 <= p2 + 1
      invariant forall k :: lo <= k < p1 ==> a[k] == was[lo + hi - 1 - k]
      invariant forall k :: p2 < k < hi ==> a[k] == was[lo + hi - 1 - k]
      invariant forall k :: p1 <= k <= p2 ==> a[k] == was[k]
      invariant forall k :: 0 <= k < lo || hi <= k < a.Length ==> a[k] == was[k]
      decreases p2 - p1
    {
      a[p1], a[p2] := a[p2], a[p1];
      p1, p2 := p1 + 1, p2 - 1;
    }
  }

  method ReverseInPlace(a: array<int>, lo: nat, hi: nat)
    requires lo <= hi <= a.Length
    modifies a
    ensures a[lo..hi] == Reversed(old(a[lo..hi]))
    ensures forall k :: 0 <= k < lo || hi <= k < a.Length ==> a[k] == old(a[k])
  {
    ghost var part := a[lo..hi];
    SwapEnds(a, lo, hi);
    forall i | 0 <= i < hi - lo
      ensures a[lo..hi][i] == part[hi - lo - 1 - i]
    {
      assert a[lo + i] == old(a[lo + hi - 1 - (lo + i)]);
    }
  }

  /** The do-while loop: writes the digits of `v` from `start` on. */
  method WriteDigits(v: int, str: array<int>, start: nat, base: nat) returns (p: nat)
    requires base >= 2 && start + |LowFirst(v, base)| < str.Length
    modifies str
    ensures p == start + |LowFirst(v, base)| && str[start..p] == LowFirst(v, base)
    ensures forall k :: 0 <= k < start || p <= k < str.Length ==> str[k] == old(str[k])
  {
    ghost var all := LowFirst(v, base);
    var value, more := v, true;
    p := start;
    while more
      invariant start <= p <= start + |all|
      invariant str[start..p] + (if more then LowFirst(value, base) else []) == all
      invariant forall k :: 0 <= k < start || p <= k < str.Length ==> str[k] == old(str[k])
      decreases more, Abs(value)
    {
      ghost var written := str[start..p];
      NextDigit(written, value, base, all);
      var remainder := CMod(value, base);
      str[p] := if remainder < 10 then remainder + '0' as int else remainder + 'A' as int - 10;
      assert str[start..p + 1] == written + [DigitChar(remainder)];
      p := p + 1;
      value := CDiv(value, base);
      more := value != 0;
    }
  }

  lemma NextDigit(written: seq<int>, value: int, base: nat, all: seq<int>)
    requires base >= 2 && written + LowFirst(value, base) == all
    ensures |written| < |all|
    ensures var q := CDiv(value, base);
            && written + [DigitChar(CMod(value, base))] + (if q == 0 then [] else LowFirst(q, base)) == all
            && (q != 0 ==> Abs(q) < Abs(value))
  {
    QuotientShrinks(value, base);
  }

  /** Digits, terminator, reversal. */
  method WriteNumeral(v: int, str: array<int>, start: nat, base: nat) returns (p: nat)
    requires base >= 2 && start + |Numeral(v, base)| < str.Length
    modifies str
    ensures p == start + |Numeral(v, base)| && str[start..p] == Numeral(v, base) && str[p] == 0
    ensures forall k :: 0 <= k < start || p < k < str.Length ==> str[k] == old(str[k])
  {
    LowFirstReversed(v, base);
    p := WriteDigits(v, str, start, base);
    ghost var digits := str[start..p];
    str[p] := 0;
    assert str[start..p] == digits;
    ReverseInPlace(str, start, p);
  }

  method Itoa(v: int, str: array<int>, base: nat) returns (len: nat)
    requires IsInt(v) && base >= 2 && |Text(v, base)| < str.Length
    modifies str
    ensures len == |Text(v, base)| && str[..len] == Text(v, base) && str[len] == 0
    ensures forall k :: len < k < str.Length ==> str[k] == old(str[k])
  {
    if v < 0 && base == 10 {
      str[0] := '-' as int;
      len := WriteNumeral(Wrap(-v), str, 1, base);
      assert str[..len] == [str[0]] + str[1..len];
    } else {
      len := WriteNumeral(v, str, 0, base);
      assert str[..len] == str[0..len];
    }
  }

  // ---------------------------------------------------------------------------
  // What the text denotes

  function DigitValue(c: int): int {
    if c >= 'A' as int then c - 'A' as int + 10 else c - '0' as int
  }

  function Value(s: seq<int>, base: nat): int {
    if s == [] then 0 else Value(s[..|s| - 1], base) * base + DigitValue(s[|s| - 1])
  }

  predicate IsDigitIn(c: int, base: nat) {
    0 <= DigitValue(c) < base && c == DigitChar(DigitValue(c))
  }

  predicate AllDigits(s: seq<int>, base: nat) {
    s != [] && forall i :: 0 <= i < |s| ==> IsDigitIn(s[i], base)
  }

  /** Positional notation: digits of the base, after a minus sign if the value is negative. */
  predicate Denotes(s: seq<int>, base: nat, v: int) {
    if s != [] && s[0] == '-' as int then AllDigits(s[1..], base) && v == -Value(s[1..], base)
    else AllDigits(s, base) && v == Value(s, base)
  }

  lemma {:induction false} NumeralDenotes(v: nat, base: nat)
    requires 2 <= base <= 36
    ensures Value(Numeral(v, base), base) == v && AllDigits(Numeral(v, base), base)
    ensures v > 0 ==> Numeral(v, base)[0] != '0' as int
    decreases v
  {
    QuotientShrinks(v, base);
    var q, s := CDiv(v, base), Numeral(v, base);
    if q != 0 {
      NumeralDenotes(q, base);
      assert s[..|s| - 1] == Numeral(q, base);
    } else {
      assert s[..|s| - 1] == [];
    }
  }

  /** The digits of a negative number come out below '0', or '0'; the first one below. */
  lemma {:induction false} NegativeNumeral(v: int, base: nat)
    requires v < 0 && base >= 2
    ensures Numeral(v, base)[0] < '0' as int
    ensures forall i :: 0 <= i < |Numeral(v, base)| ==> Numeral(v, base)[i] <= '0' as int
    decreases Abs(v)
  {
    QuotientShrinks(v, base);
    if CDiv(v, base) != 0 {
      NegativeNumeral(CDiv(v, base), base);
    }
  }

  lemma {:induction false} ZerosAreZero(s: seq<int>, base: nat)
    requires forall i :: 0 <= i < |s| ==> s[i] == '0' as int
    ensures Value(s, base) == 0
  {
    if s != [] {
      ZerosAreZero(s[..|s| - 1], base);
    }
  }

  /** The text denotes the number exactly if it is not negative, or the base is 10 and it is not
      the least integer. */
  lemma TextDenotesIff(v: int, base: nat)
    requires IsInt(v) && 2 <= base <= 36
    ensures Denotes(Text(v, base), base, v) <==> v >= 0 || (base == 10 && v != MIN_INT)
  {
    if v >= 0 {
      UnsignedDenotes(v, base);
    } else if base != 10 {
      NegativeDoesNotDenote(v, base);
    } else if v == MIN_INT {
      assert Wrap(-v) == v;
      SignedNegativeDoesNotDenote(v, v);
    } else {
      TextOfNegative(v);
      SignedDenotes(-v);
    }
  }

  lemma UnsignedDenotes(v: nat, base: nat)
    requires 2 <= base <= 36
    ensures Denotes(Numeral(v, base), base, v)
  {
    NumeralDenotes(v, base);
    assert IsDigitIn(Numeral(v, base)[0], base);
  }

  lemma TextOfNegative(v: int)
    requires MIN_INT < v < 0
    ensures Text(v, 10) == ['-' as int] + Numeral(-v, 10)
  {
    assert Wrap(-v) == -v;
  }

  lemma SignedDenotes(v: int)
    requires v >= 0
    ensures Denotes(['-' as int] + Numeral(v, 10), 10, -v)
  {
    var s := ['-' as int] + Numeral(v, 10);
    assert s[1..] == Numeral(v, 10);
    NumeralDenotes(v, 10);
  }

  lemma SignedNegativeDoesNotDenote(v: int, w: int)
    requires v < 0
    ensures !Denotes(['-' as int] + Numeral(v, 10), 10, w)
  {
    var s := ['-' as int] + Numeral(v, 10);
    assert s[1..] == Numeral(v, 10);
    NegativeNumeral(v, 10);
    assert !IsDigitIn(s[1..][0], 10);
  }

  lemma NegativeDoesNotDenote(v: int, base: nat)
    requires v < 0 && 2 <= base <= 36
    ensures !Denotes(Numeral(v, base), base, v)
  {
    var s := Numeral(v, base);
    NegativeNumeral(v, base);
    assert !IsDigitIn(s[0], base);
    if AllDigits(s[1..], base) {
      assert forall i :: 0 <= i < |s[1..]| ==> s[1..][i] == s[i + 1] && IsDigitIn(s[1..][i], base);
      ZerosAreZero(s[1..], base);
    }
  }

  // ---------------------------------------------------------------------------
  // Parsing

  predicate IsSpace(c: int) {
    c == ' ' as int || 9 <= c <= 13
  }

  predicate IsDigit(c: int) {
    '0' as int <= c <= '9' as int
  }

  /** One digit more. */
  function Shift(num: int, c: int): int {
    Wrap(num * 10 + c - '0' as int)
  }

  /** It makes no difference that the multiplication, the addition and the subtraction each
      overflow on their own. */
  lemma ShiftIsStepwise(num: int, c: int)
    ensures Shift(num, c) == Wrap(Wrap(Wrap(num * 10) + c) - '0' as int)
  {
    WrapOnce(num * 10, c);
    WrapOnce(num * 10 + c, -('0' as int));
  }

  lemma WrapOnce(v: int, w: int)
    ensures Wrap(Wrap(v) + w) == Wrap(v + w)
  {}

  function ReadDigits(s: seq<int>, num: int): int {
    if s == [] || !IsDigit(s[0]) then num else ReadDigits(s[1..], Shift(num, s[0]))
  }

  function SkipSpaces(s: seq<int>): seq<int> {
    if s != [] && IsSpace(s[0]) then SkipSpaces(s[1..]) else s
  }

  function Parsed(s: seq<int>): int {
    var t := SkipSpaces(s);
    if t != [] && t[0] == '-' as int then Wrap(ReadDigits(t[1..], 0) * -1)
    else if t != [] && t[0] == '+' as int then ReadDigits(t[1..], 0)
    else ReadDigits(t, 0)
  }

  method Atoi(str: array<int>) returns (r: int)
    requires 0 in str[..]
    ensures r == Parsed(str[..])
  {
    ghost var end :| 0 <= end < str.Length && str[end] == 0;
    var i := SkipBlanks(str, end);
    var sign := 1;
    if str[i] == '-' as int {
      i := i + 1;
      sign := -1;
    } else if str[i] == '+' as int {
      i := i + 1;
    }
    var num := ReadNumber(str, i, end);
    r := Wrap(num * sign);
  }

  method SkipBlanks(str: array<int>, ghost end: nat) returns (i: nat)
    requires end < str.Length && str[end] == 0
    ensures i <= end && SkipSpaces(str[..]) == str[i..]
  {
    i := 0;
    while IsSpace(str[i])
      invariant i <= end && SkipSpaces(str[i..]) == SkipSpaces(str[..])
      decreases end - i
    {
      assert str[i..][1..] == str[i + 1..];
      i := i + 1;
    }
  }

  method ReadNumber(str: array<int>, start: nat, ghost end: nat) returns (num: int)
    requires start <= end < str.Length && str[end] == 0
    ensures IsInt(num) && num == ReadDigits(str[start..], 0)
  {
    num := 0;
    var i := start;
    while str[i] != 0 && IsDigit(str[i])
      invariant i <= end && IsInt(num) && ReadDigits(str[i..], num) == ReadDigits(str[start..], 0)
      decreases end - i
    {
      assert str[i..][1..] == str[i + 1..];
      num := Shift(num, str[i]);
      i := i + 1;
    }
  }

  lemma ShiftIsExact(num: nat, d: nat)
    requires d < 10 && num * 10 + d <= MAX_INT
    ensures Shift(num, DigitChar(d)) == num * 10 + d && IsDigit(DigitChar(d))
  {}

  lemma {:induction false} ReadNumeral(v: nat, rest: seq<int>)
    requires v <= MAX_INT
    ensures ReadDigits(Numeral(v, 10) + rest, 0) == ReadDigits(rest, v)
    ensures IsDigit(Numeral(v, 10)[0])
    decreases v
  {
    QuotientShrinks(v, 10);
    var q, d := CDiv(v, 10), CMod(v, 10);
    var last := [DigitChar(d)] + rest;
    ShiftIsExact(q, d);
    ReadOne(DigitChar(d), rest, q);
    if q == 0 {
      assert Numeral(v, 10) + rest == last;
    } else {
      ReadNumeral(q, last);
      assert Numeral(v, 10) + rest == Numeral(q, 10) + last;
    }
  }

  lemma ReadOne(c: int, rest: seq<int>, num: int)
    requires IsDigit(c)
    ensures ReadDigits([c] + rest, num) == ReadDigits(rest, Shift(num, c))
  {
    assert ([c] + rest)[1..] == rest;
  }

  lemma ParseText(v: int, rest: seq<int>)
    requires IsInt(v)
    ensures Parsed(Text(v, 10) + ([0] + rest)) == if v == MIN_INT then 0 else v
  {
    if v >= 0 {
      ParseUnsigned(v, [0] + rest);
    } else if v == MIN_INT {
      ParseLeast([0] + rest);
    } else {
      ParseSigned(v, [0] + rest);
    }
  }

  lemma ParseUnsigned(v: nat, tail: seq<int>)
    requires v <= MAX_INT && tail != [] && tail[0] == 0
    ensures Parsed(Numeral(v, 10) + tail) == v
  {
    var s := Numeral(v, 10) + tail;
    ReadNumeral(v, tail);
    assert s[0] == Numeral(v, 10)[0];
    assert SkipSpaces(s) == s;
  }

  lemma SignSkipped(s: seq<int>)
    ensures Parsed(['-' as int] + s) == Wrap(ReadDigits(s, 0) * -1)
  {
    var t := ['-' as int] + s;
    assert SkipSpaces(t) == t && t[1..] == s;
  }

  lemma ParseSigned(v: int, tail: seq<int>)
    requires MIN_INT < v < 0 && tail != [] && tail[0] == 0
    ensures Parsed(Text(v, 10) + tail) == v
  {
    var digits := Numeral(-v, 10) + tail;
    TextOfNegative(v);
    assert Text(v, 10) + tail == ['-' as int] + digits;
    SignSkipped(digits);
    assert ReadDigits(digits, 0) == -v by {
      ReadNumeral(-v, tail);
    }
  }

  lemma ParseLeast(tail: seq<int>)
    ensures Parsed(Text(MIN_INT, 10) + tail) == 0
  {
    SignSkipped(Numeral(MIN_INT, 10) + tail);
    assert Text(MIN_INT, 10) + tail == ['-' as int] + (Numeral(MIN_INT, 10) + tail);
    NegativeNumeral(MIN_INT, 10);
  }

  /** Parsing what was printed gives the number back for every 32-bit value but the least,
      whose negation overflows. `rest` is whatever the buffer holds after the terminator. */
  lemma RoundTripIff(v: int, rest: seq<int>)
    requires IsInt(v)
    ensures Parsed(Text(v, 10) + ([0] + rest)) == v <==> v != MIN_INT
  {
    ParseText(v, rest);
  }

  predicate Canonical(digits: seq<int>) {
    && digits != []
    && (forall i :: 0 <= i < |digits| ==> IsDigit(digits[i]))
    && (|digits| > 1 ==> digits[0] != '0' as int)
  }

  /** And printing what was parsed gives the text back. */
  lemma {:induction false} NumeralOfValue(digits: seq<int>)
    requires Canonical(digits)
    ensures Value(digits, 10) >= 0 && Numeral(Value(digits, 10), 10) == digits
    ensures Value(digits, 10) == 0 ==> |digits| == 1
  {
    var front, d := digits[..|digits| - 1], digits[|digits| - 1] - '0' as int;
    assert digits == front + [DigitChar(d)];
    assert Value(digits, 10) == Value(front, 10) * 10 + d;
    if front != [] {
      NumeralOfValue(front);
      NumeralSnoc(Value(front, 10), d);
    } else {
      NumeralSnoc(0, d);
    }
  }

  lemma NumeralSnoc(q: nat, d: nat)
    requires d < 10
    ensures Numeral(q * 10 + d, 10) == (if q == 0 then [] else Numeral(q, 10)) + [DigitChar(d)]
  {
    assert (q * 10 + d) / 10 == q && (q * 10 + d) % 10 == d;
  }

  lemma PrintParsed(digits: seq<int>, rest: seq<int>)
    requires Canonical(digits) && Value(digits, 10) <= MAX_INT
    ensures Text(Parsed(digits + ([0] + rest)), 10) == digits
  {
    NumeralOfValue(digits);
    ParseText(Value(digits, 10), rest);
  }

  // ---------------------------------------------------------------------------
  // What atoi makes of any string

  lemma WrapIsPeriodic(v: int, k: int)
    ensures Wrap(v + k * 0x1_0000_0000) == Wrap(v)
  {}

  lemma WrapTimesTen(v: int, d: int)
    ensures Wrap(Wrap(v) * 10 + d) == Wrap(v * 10 + d)
  {
    var k := (v + 0x8000_0000) / 0x1_0000_0000;
    assert v == Wrap(v) + k * 0x1_0000_0000;
    WrapIsPeriodic(Wrap(v) * 10 + d, 10 * k);
  }

  lemma WrapOfNegative(v: int)
    ensures Wrap(Wrap(v) * -1) == Wrap(-v)
  {
    var k := (v + 0x8000_0000) / 0x1_0000_0000;
    assert v == Wrap(v) + k * 0x1_0000_0000;
    WrapIsPeriodic(-Wrap(v), -k);
  }

  predicate AllDecimal(s: seq<int>) {
    forall i :: 0 <= i < |s| ==> '0' as int <= s[i] <= '9' as int
  }

  /** Space, tab, line feed, vertical tab, form feed and carriage return. */
  predicate AllBlank(s: seq<int>) {
    forall i :: 0 <= i < |s| ==>
      s[i] == ' ' as int || s[i] == 9 || s[i] == 10 || s[i] == 11 || s[i] == 12 || s[i] == 13
  }

  lemma {:induction false} ReadAll(digits: seq<int>, tail: seq<int>)
    requires AllDecimal(digits)
    ensures ReadDigits(digits + tail, 0) == ReadDigits(tail, Wrap(Value(digits, 10)))
  {
    if digits == [] {
      assert digits + tail == tail;
    } else {
      var front, c := digits[..|digits| - 1], digits[|digits| - 1];
      ReadAll(front, [c] + tail);
      assert digits + tail == front + ([c] + tail);
      ReadOne(c, tail, Wrap(Value(front, 10)));
      WrapTimesTen(Value(front, 10), c - '0' as int);
    }
  }

  lemma {:induction false} SkipAll(blanks: seq<int>, rest: seq<int>)
    requires AllBlank(blanks) && (rest != [] ==> !AllBlank(rest[..1]))
    ensures SkipSpaces(blanks + rest) == rest
  {
    if blanks == [] {
      assert blanks + rest == rest;
      if rest != [] {
        assert rest[..1] == [rest[0]];
      }
    } else {
      assert (blanks + rest)[1..] == blanks[1..] + rest;
      SkipAll(blanks[1..], rest);
    }
  }

  /** How atoi cuts a string up. */
  datatype Cut = Cut(blanks: seq<int>, sign: seq<int>, digits: seq<int>, tail: seq<int>)

  function Joined(cut: Cut): seq<int> {
    cut.blanks + (cut.sign + (cut.digits + cut.tail))
  }

  predicate ValidCut(cut: Cut) {
    && AllBlank(cut.blanks) && AllDecimal(cut.digits)
    && cut.sign in {[], ['-' as int], ['+' as int]}
    && (cut.tail != [] ==> !AllDecimal(cut.tail[..1]))
    && (cut.tail != [] && cut.sign == [] && cut.digits == [] ==>
         !AllBlank(cut.tail[..1]) && cut.tail[0] != '-' as int && cut.tail[0] != '+' as int)
  }

  lemma {:induction false} CutDigits(s: seq<int>) returns (digits: seq<int>, tail: seq<int>)
    ensures s == digits + tail && AllDecimal(digits) && (tail != [] ==> !AllDecimal(tail[..1]))
  {
    if s == [] || !AllDecimal(s[..1]) {
      digits, tail := [], s;
    } else {
      var ds, rest := CutDigits(s[1..]);
      digits, tail := [s[0]] + ds, rest;
      assert s[..1] == [s[0]];
    }
  }

  /** Every string can be cut up like that. */
  lemma {:induction false} CutExists(s: seq<int>) returns (cut: Cut)
    ensures ValidCut(cut) && Joined(cut) == s
  {
    if s != [] && AllBlank(s[..1]) {
      var c := CutExists(s[1..]);
      cut := c.(blanks := [s[0]] + c.blanks);
      assert s[..1] == [s[0]] && s == [s[0]] + s[1..];
      Associative([s[0]], c.blanks, c.sign + (c.digits + c.tail));
    } else {
      var signed := s != [] && (s[0] == '-' as int || s[0] == '+' as int);
      var digits, tail := CutDigits(if signed then s[1..] else s);
      cut := Cut([], if signed then [s[0]] else [], digits, tail);
      assert !signed && digits == [] ==> tail == s;
    }
  }

  /** Any string is blanks, a sign or none, digits and a tail. atoi gives the value of the digits
      with that sign, modulo 32 bits, and ignores the tail. */
  lemma ParsedIs(cut: Cut)
    requires ValidCut(cut)
    ensures Parsed(Joined(cut)) ==
              if cut.sign == ['-' as int] then Wrap(-Value(cut.digits, 10)) else Wrap(Value(cut.digits, 10))
  {
    var Cut(blanks, sign, digits, tail) := cut;
    var body := digits + tail;
    var rest := sign + body;
    var v := Value(digits, 10);
    assert ReadDigits(body, 0) == Wrap(v) by {
      ReadAll(digits, tail);
      assert tail != [] ==> tail[..1] == [tail[0]];
    }
    assert rest != [] ==> rest[..1] == [rest[0]];
    SkipAll(blanks, rest);
    if sign == [] {
      assert rest == body;
    } else {
      assert rest[1..] == body;
      WrapOfNegative(v);
    }
  }
}
