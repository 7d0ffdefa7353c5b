/** Float notation of the historical node: shortest digits are kept, only their notation changes.
    The text printed is proved to denote the value and to be spelled
    in the one way the node spells it. */
module JiffyNumber {
  import opened Decimals
  import opened Wrappers

  const PADDING: nat := 20
  const MIN_FIXED: int := -6
  const MAX_FIXED: int := 21

  // ----- decimal values -----

  function Pow10(k: int): (p: real)
    ensures p > 0.0
    decreases if k < 0 then -k else k
  {
    if k == 0 then 1.0 else if k > 0 then 10.0 * Pow10(k - 1) else Pow10(k + 1) / 10.0
  }

  lemma PowStep(k: int)
    ensures Pow10(k + 1) == 10.0 * Pow10(k)
  {
  }

  /** The value of digits with the decimal point after the first `point` of them. */
  function Value(digits: string, point: int): real
    requires AllDigits(digits)
  {
    Number(digits) as real * Pow10(point - |digits|)
  }

  // ----- reading decimal text -----

  /** Position of the first `c`, or the length. */
  function Find(s: string, c: char): (k: nat)
    ensures k <= |s| && (k < |s| ==> s[k] == c) && forall i | 0 <= i < k :: s[i] != c
  {
    if s == "" || s[0] == c then 0 else 1 + Find(s[1..], c)
  }

  /** Unsigned decimal text cut at its point and its exponent mark. */
  datatype Parts = Parts(whole: string, point: bool, fraction: string, exponent: Option<int>)

  function Split(text: string): Parts {
    var e := Find(text, 'e');
    var mantissa := text[..e];
    var dot := Find(mantissa, '.');
    Parts(mantissa[..dot], dot < |mantissa|, if dot < |mantissa| then mantissa[dot + 1..] else "",
          if e < |text| then ReadInteger(text[e + 1..]) else Some(0))
  }

  predicate WellFormed(p: Parts) {
    && AllDigits(p.whole) && AllDigits(p.fraction) && p.whole != ""
    && (p.point ==> p.fraction != "") && p.exponent.Some?
  }

  function PartsValue(p: Parts): real
    requires WellFormed(p)
  {
    Value(p.whole + p.fraction, |p.whole| + p.exponent.value)
  }

  /** What unsigned decimal text denotes: digits, an optional fraction, an optional signed
      exponent. */
  ghost function ReadUnsigned(text: string): Option<real> {
    var p := Split(text);
    if WellFormed(p) then Some(PartsValue(p)) else None
  }

  function ReadInteger(text: string): Option<int> {
    if text == "" then None
    else if text[0] == '+' || text[0] == '-' then
      if |text| > 1 && AllDigits(text[1..]) then
        Some(if text[0] == '-' then -(Number(text[1..]) as int) else Number(text[1..]))
      else None
    else if AllDigits(text) then Some(Number(text)) else None
  }

  /** Decimal text with an optional minus sign. */
  ghost function Read(text: string): Option<real> {
    if text != "" && text[0] == '-' then
      match ReadUnsigned(text[1..]) case Some(v) => Some(-v) case None => None
    else ReadUnsigned(text)
  }

  /** With the sign always written. */
  function ShowSigned(n: int): string {
    if n < 0 then "-" + Decimal(-n) else "+" + Decimal(n)
  }

  // ----- zeros at either end -----

  /** Products kept apart from other arithmetic. */
  ghost function Times(p: real, q: real): real {
    p * q
  }

  lemma TimesTen(p: real, q: real)
    ensures Times(p, 10.0 * q) == 10.0 * Times(p, q)
  {
  }

  lemma InReal(n: nat, d: nat)
    ensures (10 * n + d) as real == 10.0 * (n as real) + d as real
  {
  }

  lemma {:induction false} ConcatTimes(a: string, b: string)
    requires AllDigits(a) && AllDigits(b)
    ensures AllDigits(a + b)
    ensures Number(a + b) as real == Times(Number(a) as real, Pow10(|b|)) + Number(b) as real
  {
    if b == "" {
      assert a + b == a;
    } else {
      hide Pow10, Times;
      var front := b[..|b| - 1];
      ConcatTimes(a, front);
      assert (a + b)[..|a + b| - 1] == a + front;
      var d := DigitValue(b[|b| - 1]);
      PowStep(|front|);
      InReal(Number(a + front), d);
      InReal(Number(front), d);
      TimesTen(Number(a) as real, Pow10(|front|));
    }
  }

  lemma NumberConcat(a: string, b: string)
    requires AllDigits(a) && AllDigits(b)
    ensures AllDigits(a + b)
    ensures Number(a + b) as real == Number(a) as real * Pow10(|b|) + Number(b) as real
  {
    hide Pow10, Number;
    ConcatTimes(a, b);
  }

  ghost predicate Zeros(s: string) {
    forall i | 0 <= i < |s| :: s[i] == '0'
  }

  lemma {:induction false} ZerosNumber(s: string)
    requires Zeros(s)
    ensures AllDigits(s) && Number(s) == 0
  {
    if s != "" {
      ZerosNumber(s[..|s| - 1]);
    }
  }

  /** Leading zeros move the point, trailing zeros change nothing. */
  lemma LeadingZeros(zeros: string, digits: string, point: int)
    requires Zeros(zeros) && AllDigits(digits)
    ensures AllDigits(zeros + digits) && Value(zeros + digits, point) == Value(digits, point - |zeros|)
  {
    ZerosNumber(zeros);
    NumberConcat(zeros, digits);
  }

  lemma {:induction false} PowTimes(a: int, b: nat)
    ensures Pow10(a + b) == Times(Pow10(a), Pow10(b))
  {
    if b > 0 {
      hide Pow10, Times;
      PowTimes(a, b - 1);
      PowStep(a + b - 1);
      PowStep(b - 1);
      TimesTen(Pow10(a), Pow10(b - 1));
    }
  }

  lemma PowSum(a: int, b: nat)
    ensures Pow10(a + b) == Pow10(a) * Pow10(b)
  {
    hide Pow10;
    PowTimes(a, b);
  }

  lemma Regroup(n: real, p: real, q: real)
    ensures (n * p) * q == n * (q * p)
  {
  }

  lemma TrailingZeros(digits: string, zeros: string, point: int)
    requires Zeros(zeros) && AllDigits(digits)
    ensures AllDigits(digits + zeros) && Value(digits + zeros, point) == Value(digits, point)
  {
    hide Pow10, Number;
    ZerosNumber(zeros);
    NumberConcat(digits, zeros);
    var scale := point - |digits| - |zeros|;
    PowSum(scale, |zeros|);
    Regroup(Number(digits) as real, Pow10(|zeros|), Pow10(scale));
    assert Value(digits + zeros, point) == Number(digits + zeros) as real * Pow10(scale);
    assert Value(digits, point) == Number(digits) as real * Pow10(scale + |zeros|);
  }

  // ----- laying out digits -----

  const ZEROS := "00000000000000000000"

  /** Digits without zeros at either end. */
  ghost predicate Trimmed(digits: string) {
    AllDigits(digits) && digits != "" && digits[0] != '0' && digits[|digits| - 1] != '0'
  }

  /** The text for digits whose point stands after the first `point` of them. */
  function Layout(digits: string, point: int): string
    requires digits != ""
  {
    var exponent := point - 1;
    if !(MIN_FIXED <= exponent < MAX_FIXED) then
      Mantissa(digits) + "e" + ShowSigned(exponent)
    else if point <= 0 then "0." + ZEROS[..-point] + digits
    else if point >= |digits| then digits + ZEROS[..point - |digits|] + ".0"
    else digits[..point] + "." + digits[point..]
  }

  lemma {:induction false} FindAfter(a: string, c: char, b: string)
    requires c !in a
    ensures Find(a + [c] + b, c) == |a|
  {
    if a != "" {
      assert (a + [c] + b)[1..] == a[1..] + [c] + b;
      FindAfter(a[1..], c, b);
    }
  }

  lemma FindNone(a: string, c: char)
    requires c !in a
    ensures Find(a, c) == |a|
  {
  }

  lemma SplitFixed(whole: string, fraction: string)
    requires AllDigits(whole) && AllDigits(fraction)
    ensures Split(whole + "." + fraction) == Parts(whole, true, fraction, Some(0))
    ensures 'e' !in whole + "." + fraction
  {
    var text := whole + "." + fraction;
    FindNone(text, 'e');
    assert text[..|text|] == text;
    FindAfter(whole, '.', fraction);
    assert text[..|whole|] == whole && text[|whole| + 1..] == fraction;
  }

  /** Plain text with a point reads as its digits. */
  lemma ReadsFixed(whole: string, fraction: string)
    requires AllDigits(whole) && AllDigits(fraction) && whole != "" && fraction != ""
    ensures AllDigits(whole + fraction)
    ensures ReadUnsigned(whole + "." + fraction) == Some(Value(whole + fraction, |whole|))
    ensures 'e' !in whole + "." + fraction
  {
    hide Split, Value;
    SplitFixed(whole, fraction);
  }

  /** One digit, then the others behind a point. */
  function Mantissa(digits: string): string
    requires digits != ""
  {
    digits[..1] + if |digits| > 1 then "." + digits[1..] else ""
  }

  lemma SplitScientific(digits: string, exponent: int)
    requires AllDigits(digits) && digits != ""
    ensures Split(Mantissa(digits) + "e" + ShowSigned(exponent))
         == Parts(digits[..1], |digits| > 1, digits[1..], Some(exponent))
  {
    hide ReadInteger, ShowSigned;
    var mantissa := Mantissa(digits);
    var text := mantissa + "e" + ShowSigned(exponent);
    FindAfter(mantissa, 'e', ShowSigned(exponent));
    assert text[..|mantissa|] == mantissa && text[|mantissa| + 1..] == ShowSigned(exponent);
    SignedReads(exponent);
    if |digits| > 1 {
      FindAfter(digits[..1], '.', digits[1..]);
      assert mantissa[..1] == digits[..1] && mantissa[2..] == digits[1..];
    } else {
      FindNone(mantissa, '.');
      assert mantissa[..|mantissa|] == digits[..1];
    }
  }

  lemma ReadsScientific(digits: string, exponent: int)
    requires AllDigits(digits) && digits != ""
    ensures var text := Mantissa(digits) + "e" + ShowSigned(exponent);
            ReadUnsigned(text) == Some(Value(digits, 1 + exponent)) && 'e' in text
  {
    hide Split, Value, ShowSigned, Mantissa;
    SplitScientific(digits, exponent);
    assert digits[..1] + digits[1..] == digits;
    assert (Mantissa(digits) + "e" + ShowSigned(exponent))[|Mantissa(digits)|] == 'e';
  }

  lemma SignedReads(n: int)
    ensures ReadInteger(ShowSigned(n)) == Some(n)
  {
    assert ShowSigned(n)[1..] == if n < 0 then Decimal(-n) else Decimal(n);
  }

  lemma ZerosDigits(n: nat)
    requires n <= PADDING
    ensures |ZEROS| == PADDING && Zeros(ZEROS[..n])
  {
  }

  lemma SmallReads(digits: string, gap: nat)
    requires Trimmed(digits) && gap <= PADDING
    ensures ReadUnsigned("0." + ZEROS[..gap] + digits) == Some(Value(digits, 0 - gap))
    ensures 'e' !in "0." + ZEROS[..gap] + digits
  {
    hide Value, ReadUnsigned;
    var zeros := ZEROS[..gap];
    ZerosDigits(gap);
    ZerosNumber(zeros);
    LeadingZeros("0" + zeros, digits, 1);
    ReadsFixed("0", zeros + digits);
    assert "0" + "." + (zeros + digits) == "0." + zeros + digits;
    assert "0" + (zeros + digits) == "0" + zeros + digits;
  }

  lemma LargeReads(digits: string, gap: nat)
    requires Trimmed(digits) && gap <= PADDING
    ensures ReadUnsigned(digits + ZEROS[..gap] + ".0") == Some(Value(digits, |digits| + gap))
    ensures 'e' !in digits + ZEROS[..gap] + ".0"
  {
    hide Value, ReadUnsigned;
    var zeros := ZEROS[..gap];
    ZerosDigits(gap);
    ZerosNumber(zeros);
    TrailingZeros(digits, zeros + "0", |digits| + gap);
    ReadsFixed(digits + zeros, "0");
    assert digits + zeros + "." + "0" == digits + zeros + ".0";
    assert digits + zeros + "0" == digits + (zeros + "0");
  }

  /** Whatever the notation, the text denotes the value of the digits, and it is fixed
      exactly for exponents from -6 to 20. */
  lemma LayoutReads(digits: string, point: int)
    requires Trimmed(digits)
    ensures ReadUnsigned(Layout(digits, point)) == Some(Value(digits, point))
    ensures 'e' !in Layout(digits, point) <==> MIN_FIXED <= point - 1 < MAX_FIXED
    ensures Layout(digits, point) != "" && Layout(digits, point)[0] != '-'
  {
    hide Value, ReadUnsigned, ShowSigned;
    if !(MIN_FIXED <= point - 1 < MAX_FIXED) {
      ReadsScientific(digits, point - 1);
    } else if point <= 0 {
      SmallReads(digits, -point);
    } else if point >= |digits| {
      LargeReads(digits, point - |digits|);
    } else {
      ReadsFixed(digits[..point], digits[point..]);
      assert digits[..point] + digits[point..] == digits;
    }
  }

  // ----- the size of a value -----

  lemma {:induction false} NumberBounds(digits: string)
    requires AllDigits(digits)
    ensures Number(digits) as real + 1.0 <= Pow10(|digits|)
    ensures digits != "" && digits[0] != '0' ==> Pow10(|digits| - 1) <= Number(digits) as real
  {
    if digits != "" {
      NumberBounds(digits[..|digits| - 1]);
      PowStep(|digits| - 1);
      if |digits| > 1 {
        PowStep(|digits| - 2);
      }
    }
  }

  lemma Scale(a: real, b: real, c: real)
    requires c > 0.0
    ensures a <= b ==> Times(c, a) <= Times(c, b)
    ensures a < b ==> Times(c, a) < Times(c, b)
  {
  }

  lemma {:induction false} PowMono(a: int, b: int)
    requires a <= b
    ensures Pow10(a) <= Pow10(b)
    decreases b - a
  {
    if a < b {
      PowMono(a, b - 1);
      PowStep(b - 1);
    }
  }

  /** The point gives the power of ten of the value. */
  lemma ValueBounds(digits: string, point: int)
    requires Trimmed(digits)
    ensures Pow10(point - 1) <= Value(digits, point) < Pow10(point)
  {
    hide Pow10, Number, Times;
    NumberBounds(digits);
    var scale := point - |digits|;
    PowTimes(scale, |digits| - 1);
    PowTimes(scale, |digits|);
    assert scale + (|digits| - 1) == point - 1 && scale + |digits| == point;
    var n := Number(digits) as real;
    Scale(Pow10(|digits| - 1), n, Pow10(scale));
    Scale(n, Pow10(|digits|), Pow10(scale));
    ValueIsTimes(digits, point);
  }

  lemma ValueIsTimes(digits: string, point: int)
    requires AllDigits(digits)
    ensures Value(digits, point) == Times(Pow10(point - |digits|), Number(digits) as real)
  {
    hide Pow10, Number;
  }

  /** Fixed notation is used exactly for values from 1e-6 up to 1e21. */
  lemma FixedRange(digits: string, point: int)
    requires Trimmed(digits)
    ensures MIN_FIXED <= point - 1 < MAX_FIXED <==> Pow10(MIN_FIXED) <= Value(digits, point) < Pow10(MAX_FIXED)
  {
    ValueBounds(digits, point);
    if point - 1 < MIN_FIXED {
      PowMono(point, MIN_FIXED);
    } else {
      PowMono(MIN_FIXED, point - 1);
    }
    if point <= MAX_FIXED {
      PowMono(point, MAX_FIXED);
    } else {
      PowMono(MAX_FIXED, point - 1);
    }
  }

  // ----- the form of the text -----

  /** What the text is made of. */
  datatype Shape =
    | Fixed(whole: string, fraction: string)
    | Scientific(digits: string, negative: bool, exponent: string)

  ghost function Spelled(s: Shape): string {
    match s
    case Fixed(whole, fraction) => whole + "." + fraction
    case Scientific(digits, negative, exponent) =>
      (if |digits| > 1 then [digits[0]] + "." + digits[1..] else digits) + "e" + [if negative then '-' else '+'] + exponent
  }

  /** Fixed: digits on both sides of a point, no needless zero in front, a zero at the end only as a single one behind
      the point. Scientific: digits without zeros at either end, and an exponent without zeros in front. */
  ghost predicate Normal(s: Shape) {
    match s
    case Fixed(whole, fraction) =>
      && AllDigits(whole) && whole != "" && (whole[0] != '0' || |whole| == 1)
      && AllDigits(fraction) && fraction != "" && (fraction[|fraction| - 1] != '0' || |fraction| == 1)
    case Scientific(digits, _, exponent) =>
      Trimmed(digits) && AllDigits(exponent) && exponent != "" && exponent[0] != '0'
  }

  /** The text is spelled the way the node spells floats. */
  ghost predicate WellSpelled(text: string) {
    exists s :: Normal(s) && text == Spelled(s)
  }

  ghost function ExponentOf(s: Shape): int
    requires s.Scientific? && AllDigits(s.exponent)
  {
    if s.negative then -(Number(s.exponent) as int) else Number(s.exponent)
  }

  lemma {:induction false} DecimalLeads(n: nat)
    requires n > 0
    ensures Decimal(n)[0] != '0'
  {
    if n >= 10 {
      DecimalLeads(n / 10);
    }
  }

  /** The mantissa and exponent as they are laid out. */
  lemma SpelledScientific(digits: string, n: int)
    requires digits != "" && n != 0
    ensures var size := if n < 0 then -n else n;
            Spelled(Scientific(digits, n < 0, Decimal(size))) == Mantissa(digits) + "e" + ShowSigned(n)
  {
    var size := if n < 0 then -n else n;
    var mantissa := if |digits| > 1 then [digits[0]] + "." + digits[1..] else digits;
    assert digits[..1] == [digits[0]];
    assert mantissa == Mantissa(digits) by {
      if |digits| > 1 {
        assert [digits[0]] + "." + digits[1..] == digits[..1] + ("." + digits[1..]);
      } else {
        assert digits == digits[..1] + "";
      }
    }
    assert [if n < 0 then '-' else '+'] + Decimal(size) == ShowSigned(n);
    assert mantissa + "e" + [if n < 0 then '-' else '+'] + Decimal(size)
        == mantissa + "e" + ([if n < 0 then '-' else '+'] + Decimal(size));
  }

  /** The text laid out is well spelled. */
  lemma LayoutWellSpelled(digits: string, point: int)
    requires Trimmed(digits)
    ensures WellSpelled(Layout(digits, point))
  {
    var s := ShapeOf(digits, point);
    hide Trimmed;
  }

  lemma ShapeOf(digits: string, point: int) returns (s: Shape)
    requires Trimmed(digits)
    ensures Normal(s) && Layout(digits, point) == Spelled(s)
  {
    hide Normal, Spelled, Number, Mantissa, ShowSigned;
    var exponent := point - 1;
    if !(MIN_FIXED <= exponent < MAX_FIXED) {
      SpelledScientific(digits, exponent);
      s := NormalScientific(digits, exponent);
    } else if point <= 0 {
      ZerosDigits(-point);
      ZerosNumber(ZEROS[..-point]);
      s := Fixed("0", ZEROS[..-point] + digits);
      FixedSmall(digits, -point);
    } else if point >= |digits| {
      s := FixedLarge(digits, point - |digits|);
    } else {
      s := FixedMiddle(digits, point);
    }
  }

  lemma NormalScientific(digits: string, n: int) returns (s: Shape)
    requires Trimmed(digits) && n != 0
    ensures s == Scientific(digits, n < 0, Decimal(if n < 0 then -n else n)) && Normal(s)
  {
    hide Number, Trimmed;
    var size := if n < 0 then -n else n;
    DecimalLeads(size);
    s := Scientific(digits, n < 0, Decimal(size));
  }

  lemma FixedLarge(digits: string, gap: nat) returns (s: Shape)
    requires Trimmed(digits) && gap <= PADDING
    ensures Normal(s) && Spelled(s) == digits + ZEROS[..gap] + ".0"
  {
    ZerosDigits(gap);
    ZerosNumber(ZEROS[..gap]);
    hide Number;
    s := Fixed(digits + ZEROS[..gap], "0");
    assert digits + ZEROS[..gap] + ".0" == (digits + ZEROS[..gap]) + "." + "0";
  }

  lemma FixedMiddle(digits: string, point: int) returns (s: Shape)
    requires Trimmed(digits) && 0 < point < |digits|
    ensures Normal(s) && Spelled(s) == digits[..point] + "." + digits[point..]
  {
    s := Fixed(digits[..point], digits[point..]);
  }

  lemma FixedSmall(digits: string, gap: nat)
    requires Trimmed(digits) && gap <= PADDING && AllDigits(ZEROS[..gap])
    ensures Normal(Fixed("0", ZEROS[..gap] + digits))
    ensures "0." + ZEROS[..gap] + digits == Spelled(Fixed("0", ZEROS[..gap] + digits))
  {
    var fraction := ZEROS[..gap] + digits;
    assert fraction[|fraction| - 1] == digits[|digits| - 1];
    assert "0" + "." + fraction == "0." + ZEROS[..gap] + digits;
  }

  // ----- one text for one value -----

  ghost function Tens(k: nat): nat {
    if k == 0 then 1 else 10 * Tens(k - 1)
  }

  lemma {:induction false} TensReal(k: nat)
    ensures Tens(k) as real == Pow10(k)
  {
    if k > 0 {
      TensReal(k - 1);
    }
  }

  /** Digits of one length are determined by their number. */
  lemma {:induction false} SameNumber(a: string, b: string)
    requires AllDigits(a) && AllDigits(b) && |a| == |b| && Number(a) == Number(b)
    ensures a == b
    decreases |a|
  {
    if a != "" {
      var n := |a| - 1;
      LastDigit(a);
      LastDigit(b);
      SameNumber(a[..n], b[..n]);
      assert a == a[..n] + [a[n]] && b == b[..n] + [b[n]];
    }
  }

  lemma LastDigit(a: string)
    requires AllDigits(a) && a != ""
    ensures Number(a) % 10 == DigitValue(a[|a| - 1]) && Number(a) / 10 == Number(a[..|a| - 1])
  {
    var front, last := Number(a[..|a| - 1]), DigitValue(a[|a| - 1]);
    assert Number(a) == 10 * front + last;
    hide Number;
  }

  /** A number of more digits, the first of them not zero, is larger. */
  lemma LongerIsLarger(a: string, b: string)
    requires AllDigits(a) && AllDigits(b) && |a| < |b| && b[0] != '0'
    ensures Number(a) < Number(b)
  {
    hide Number, Pow10;
    NumberBounds(a);
    NumberBounds(b);
    PowMono(|a|, |b| - 1);
  }

  lemma Cancel(x: real, y: real, p: real)
    requires p > 0.0 && x * p == y * p
    ensures x == y
  {
  }

  /** The same value with more digits behind the point: the last of them is a zero. */
  lemma LongerEndsInZero(a: string, p: int, b: string, q: int)
    requires AllDigits(a) && AllDigits(b) && b != ""
    requires |a| - p < |b| - q && Value(a, p) == Value(b, q)
    ensures b[|b| - 1] == '0'
  {
    hide Pow10, Number;
    var k := (|b| - q) - (|a| - p);
    PowSum(q - |b|, k);
    assert q - |b| + k == p - |a|;
    Regroup(Number(a) as real, Pow10(k), Pow10(q - |b|));
    Cancel(Number(b) as real, Number(a) as real * Pow10(k), Pow10(q - |b|));
    TensReal(k);
    assert Number(b) == Number(a) * Tens(k);
    TenDivides(Number(a), Tens(k - 1));
    assert Tens(k) == 10 * Tens(k - 1);
    LastDigit(b);
  }

  lemma TenDivides(a: nat, t: nat)
    ensures (a * (10 * t)) % 10 == 0
  {
    assert a * (10 * t) == 10 * (a * t);
  }

  /** The same value with as many digits behind the point: the same number. */
  lemma SameScale(a: string, p: int, b: string, q: int)
    requires AllDigits(a) && AllDigits(b) && |a| - p == |b| - q && Value(a, p) == Value(b, q)
    ensures Number(a) == Number(b)
  {
    hide Pow10, Number;
    Cancel(Number(a) as real, Number(b) as real, Pow10(p - |a|));
  }

  lemma FixedUnique(a: Shape, b: Shape)
    requires a.Fixed? && b.Fixed? && Normal(a) && Normal(b)
    requires Value(a.whole + a.fraction, |a.whole|) == Value(b.whole + b.fraction, |b.whole|)
    ensures a == b
  {
    hide Value, Number;
    var d, e := a.whole + a.fraction, b.whole + b.fraction;
    if |a.fraction| < |b.fraction| {
      LongerEndsInZero(d, |a.whole|, e, |b.whole|);
    } else if |b.fraction| < |a.fraction| {
      LongerEndsInZero(e, |b.whole|, d, |a.whole|);
    } else {
      SameScale(d, |a.whole|, e, |b.whole|);
      if |a.whole| < |b.whole| {
        LongerIsLarger(d, e);
      } else if |b.whole| < |a.whole| {
        LongerIsLarger(e, d);
      } else {
        SameNumber(d, e);
        assert a.whole == d[..|a.whole|] && a.fraction == d[|a.whole|..];
        assert b.whole == e[..|b.whole|] && b.fraction == e[|b.whole|..];
      }
    }
  }

  /** Digits without zeros at either end, and their point, are determined by their value. */
  lemma TrimmedUnique(d: string, p: int, e: string, q: int)
    requires Trimmed(d) && Trimmed(e) && Value(d, p) == Value(e, q)
    ensures d == e && p == q
  {
    SamePoint(d, p, e, q);
    hide Value, Number;
    if |d| < |e| {
      LongerEndsInZero(d, p, e, q);
    } else if |e| < |d| {
      LongerEndsInZero(e, q, d, p);
    } else {
      SameScale(d, p, e, q);
      SameNumber(d, e);
    }
  }

  lemma SamePoint(d: string, p: int, e: string, q: int)
    requires Trimmed(d) && Trimmed(e) && Value(d, p) == Value(e, q)
    ensures p == q
  {
    hide Value, Pow10;
    ValueBounds(d, p);
    ValueBounds(e, q);
    if p < q {
      PowMono(p, q - 1);
    } else if q < p {
      PowMono(q, p - 1);
    }
  }

  lemma ScientificUnique(a: Shape, b: Shape)
    requires a.Scientific? && b.Scientific? && Normal(a) && Normal(b)
    requires Value(a.digits, 1 + ExponentOf(a)) == Value(b.digits, 1 + ExponentOf(b))
    ensures a == b
  {
    TrimmedUnique(a.digits, 1 + ExponentOf(a), b.digits, 1 + ExponentOf(b));
    hide Value, Number;
    LongerIsLarger("", a.exponent);
    LongerIsLarger("", b.exponent);
    if |a.exponent| < |b.exponent| {
      LongerIsLarger(a.exponent, b.exponent);
    } else if |b.exponent| < |a.exponent| {
      LongerIsLarger(b.exponent, a.exponent);
    } else {
      SameNumber(a.exponent, b.exponent);
    }
  }

  /** What a shape reads as, and its notation. */
  lemma ShapeReads(s: Shape)
    requires Normal(s)
    ensures s.Fixed? ==> ReadUnsigned(Spelled(s)) == Some(Value(s.whole + s.fraction, |s.whole|)) && 'e' !in Spelled(s)
    ensures s.Scientific? ==> ReadUnsigned(Spelled(s)) == Some(Value(s.digits, 1 + ExponentOf(s))) && 'e' in Spelled(s)
  {
    hide ReadUnsigned, Value;
    match s
    case Fixed(whole, fraction) => ReadsFixed(whole, fraction);
    case Scientific(digits, negative, exponent) => ShapeScientific(s);
  }

  lemma ShapeScientific(s: Shape)
    requires s.Scientific? && Normal(s)
    ensures ReadUnsigned(Spelled(s)) == Some(Value(s.digits, 1 + ExponentOf(s))) && 'e' in Spelled(s)
  {
    hide ReadUnsigned, Value, Number, Spelled, Mantissa, ShowSigned, ExponentOf;
    ExponentShown(s);
    SpelledScientific(s.digits, ExponentOf(s));
    ReadsScientific(s.digits, ExponentOf(s));
  }

  lemma ExponentShown(s: Shape)
    requires s.Scientific? && Normal(s)
    ensures var n := ExponentOf(s);
            n != 0 && s == Scientific(s.digits, n < 0, Decimal(if n < 0 then -n else n))
  {
    hide Number, Trimmed;
    LongerIsLarger("", s.exponent);
    assert Number("") == 0 by { ZerosNumber(""); }
    var size := Number(s.exponent);
    DecimalLeads(size);
    DecimalUnique(s.exponent, Decimal(size));
  }

  lemma DecimalUnique(a: string, b: string)
    requires AllDigits(a) && AllDigits(b) && a != "" && b != "" && a[0] != '0' && b[0] != '0' && Number(a) == Number(b)
    ensures a == b
  {
    hide Number;
    if |a| < |b| {
      LongerIsLarger(a, b);
    } else if |b| < |a| {
      LongerIsLarger(b, a);
    } else {
      SameNumber(a, b);
    }
  }

  /** Two well spelled texts of one value in one notation are one text. */
  lemma SpellingUnique(a: string, b: string)
    requires WellSpelled(a) && WellSpelled(b) && ReadUnsigned(a) == ReadUnsigned(b) && ('e' in a <==> 'e' in b)
    ensures a == b
  {
    var s :| Normal(s) && a == Spelled(s);
    var t :| Normal(t) && b == Spelled(t);
    ShapeReads(s);
    ShapeReads(t);
    hide ReadUnsigned, Value, Normal, Spelled;
    if s.Fixed? {
      FixedUnique(s, t);
    } else {
      ScientificUnique(s, t);
    }
  }

  // ----- the formatter -----

  /** A shortest rendering of a positive number: at most 32 characters of decimal text with
      a digit other than zero. */
  ghost predicate Shortest(text: string) {
    |text| <= 32 && ReadUnsigned(text).Some? && ReadUnsigned(text).value > 0.0
  }

  /** The digits of a mantissa without its point. */
  ghost function Digits(mantissa: string): string {
    if mantissa == "" then "" else (if mantissa[0] == '.' then "" else [mantissa[0]]) + Digits(mantissa[1..])
  }

  lemma {:induction false} DigitsConcat(a: string, b: string)
    ensures Digits(a + b) == Digits(a) + Digits(b)
  {
    if a == "" {
      assert a + b == b;
    } else {
      assert (a + b)[1..] == a[1..] + b;
      DigitsConcat(a[1..], b);
    }
  }

  lemma {:induction false} DigitsOfDigits(a: string)
    requires AllDigits(a)
    ensures Digits(a) == a
  {
    if a != "" {
      DigitsOfDigits(a[1..]);
    }
  }

  lemma NoDigits()
    ensures Digits(['.']) == ""
  {
  }

  /** Dropping the point keeps the digits on both sides. */
  lemma MantissaDigits(mantissa: string)
    requires var dot := Find(mantissa, '.');
             AllDigits(mantissa[..dot]) && (dot < |mantissa| ==> AllDigits(mantissa[dot + 1..]))
    ensures var dot := Find(mantissa, '.');
            Digits(mantissa) == mantissa[..dot] + (if dot < |mantissa| then mantissa[dot + 1..] else "")
  {
    hide Digits, AllDigits, Find;
    var dot := Find(mantissa, '.');
    if dot < |mantissa| {
      PointDropped(mantissa[..dot], mantissa[dot + 1..]);
      CutAt(mantissa, dot);
    } else {
      WholePrefix(mantissa);
      DigitsOfDigits(mantissa);
    }
  }

  lemma CutAt(s: string, k: nat)
    requires k < |s|
    ensures s == s[..k] + ([s[k]] + s[k + 1..])
  {
  }

  lemma WholePrefix(s: string)
    ensures s[..|s|] == s && s + "" == s
  {
  }

  lemma PointDropped(whole: string, fraction: string)
    requires AllDigits(whole) && AllDigits(fraction)
    ensures Digits(whole + (['.'] + fraction)) == whole + fraction
  {
    hide Digits, AllDigits;
    DigitsOfDigits(whole);
    DigitsOfDigits(fraction);
    DigitsConcat(whole, ['.'] + fraction);
    DigitsConcat(['.'], fraction);
    NoDigits();
  }

  lemma PositiveHasDigit(all: string, point: int)
    requires AllDigits(all) && Value(all, point) > 0.0
    ensures !Zeros(all)
  {
    if Zeros(all) {
      ZerosNumber(all);
    }
  }

  /** First and last digit other than zero. */
  method TrimBounds(all: string) returns (start: nat, end: nat)
    requires !Zeros(all)
    ensures start < end <= |all| && all[start] != '0' && all[end - 1] != '0'
    ensures Zeros(all[..start]) && Zeros(all[end..])
  {
    start := 0;
    while start < |all| && all[start] == '0'
      invariant start <= |all| && forall i | 0 <= i < start :: all[i] == '0'
    {
      start := start + 1;
    }
    end := |all|;
    while all[end - 1] == '0'
      invariant start < end <= |all| && forall i | end <= i < |all| :: all[i] == '0'
      decreases end
    {
      end := end - 1;
    }
  }

  /** Cuts zeros at both ends of the digit buffer and moves the point accordingly. */
  method Trim(all: string, point: int) returns (digits: string, moved: int)
    requires AllDigits(all) && Value(all, point) > 0.0
    ensures Trimmed(digits) && Value(digits, moved) == Value(all, point)
  {
    hide Value, Zeros;
    PositiveHasDigit(all, point);
    var start, end := TrimBounds(all);
    digits, moved := all[start..end], point - start;
    assert all == all[..start] + all[start..];
    LeadingZeros(all[..start], all[start..], point);
    assert all[start..] == digits + all[end..];
    TrailingZeros(digits, all[end..], moved);
  }

  /** Copies the mantissa without its point into the digit buffer. */
  method DropPoint(mantissa: string) returns (all: string)
    ensures all == Digits(mantissa)
  {
    all := "";
    for i := 0 to |mantissa|
      invariant all == Digits(mantissa[..i])
    {
      assert mantissa[..i + 1] == mantissa[..i] + [mantissa[i]];
      DigitsConcat(mantissa[..i], [mantissa[i]]);
      if mantissa[i] != '.' {
        all := all + [mantissa[i]];
      }
    }
    assert mantissa[..|mantissa|] == mantissa;
  }

  /** The digits of the mantissa and where the point stands among them. */
  method Collect(shortest: string) returns (all: string, point: int)
    requires Shortest(shortest)
    ensures AllDigits(all) && Value(all, point) == ReadUnsigned(shortest).value
  {
    hide Value, ReadInteger, Digits, Find;
    var e := Find(shortest, 'e');
    var mantissa := shortest[..e];
    var shift := if e < |shortest| then ReadInteger(shortest[e + 1..]).value else 0;
    point := Find(mantissa, '.') + shift;
    all := DropPoint(mantissa);
    MantissaDigits(mantissa);
  }

  lemma ZeroReads()
    ensures Read("0.0") == Some(0.0)
  {
    ReadsFixed("0", "0");
    assert "0" + "." + "0" == "0.0";
    ZerosNumber("00");
    assert "0" + "0" == "00";
  }

  /** A float as its formatter sees it; `shortest` is the shortest rendering of its magnitude. */
  datatype Float = Float(finite: bool, negative: bool, zero: bool, shortest: string)

  ghost predicate FloatOk(f: Float) {
    f.finite && !f.zero ==> Shortest(f.shortest)
  }

  /** The text denotes exactly the value of the shortest digits; floats that are not finite have none. */
  ghost predicate Renders(f: Float, r: Result<string>)
    requires FloatOk(f)
  {
    && (r.Ok? <==> f.finite)
    && (f.finite && f.zero ==> r == Ok("0.0") && Read(r.value) == Some(0.0))
    && (f.finite && !f.zero ==>
          var v := ReadUnsigned(f.shortest).value;
          && Read(r.value) == Some(if f.negative then -v else v)
          && (f.negative <==> r.value != "" && r.value[0] == '-')
          && WellSpelled(Magnitude(r.value))
          && ('e' !in r.value <==> Pow10(-6) <= v < Pow10(21)))
  }

  /** The text without its minus sign. */
  ghost function Magnitude(text: string): string {
    if text != "" && text[0] == '-' then text[1..] else text
  }

  /** This leaves one text for every float. */
  lemma RendersOnce(f: Float, a: string, b: string)
    requires FloatOk(f) && Renders(f, Ok(a)) && Renders(f, Ok(b))
    ensures a == b
  {
    hide ReadUnsigned, WellSpelled, Pow10;
    if !f.zero {
      SignApart(a);
      SignApart(b);
      SpellingUnique(Magnitude(a), Magnitude(b));
    }
  }

  lemma SignApart(a: string)
    ensures a == if a != "" && a[0] == '-' then "-" + Magnitude(a) else Magnitude(a)
    ensures 'e' in a <==> 'e' in Magnitude(a)
  {
  }

  method WriteFloat(f: Float) returns (r: Result<string>)
    requires FloatOk(f)
    ensures Renders(f, r)
  {
    hide Value, ReadUnsigned, Layout, Pow10, WellSpelled;
    if !f.finite {
      return Err;
    }
    if f.zero {
      ZeroReads();
      return Ok("0.0");
    }
    var all, point := Collect(f.shortest);
    var digits, moved := Trim(all, point);
    LayoutReads(digits, moved);
    FixedRange(digits, moved);
    LayoutWellSpelled(digits, moved);
    var out := "";
    if f.negative {
      out := "-";
    }
    out := out + Layout(digits, moved);
    assert if f.negative then out[1..] == Layout(digits, moved) else out == Layout(digits, moved);
    r := Ok(out);
  }

  /** Integers of any size are kept as written, except that minus zero becomes zero. Everything else is what it
      parses to, written as a float, or refused. */
  method WriteNumber(value: string, parsed: Option<Float>) returns (r: Result<string>)
    requires parsed.Some? ==> FloatOk(parsed.value)
    ensures IsInteger(value) ==> r.Ok? && ReadInteger(r.value) == ReadInteger(value) && (value != "-0" ==> r.value == value)
    ensures !IsInteger(value) && parsed.Some? ==> Renders(parsed.value, r)
    ensures !IsInteger(value) && parsed.None? ==> r.Err?
  {
    hide Renders;
    var digits := if value != "" && value[0] == '-' then value[1..] else value;
    if digits != "" && AllDigits(digits) {
      if value == "-0" {
        ZerosNumber("0");
        assert value[1..] == "0";
        return Ok("0");
      }
      return Ok(value);
    }
    if parsed.None? {
      return Err;
    }
    r := WriteFloat(parsed.value);
  }

  predicate IsInteger(value: string) {
    var digits := if value != "" && value[0] == '-' then value[1..] else value;
    digits != "" && AllDigits(digits)
  }
}
