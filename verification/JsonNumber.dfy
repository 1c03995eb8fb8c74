/**
  The canonical text of a JSON number literal (section 6 of RFC 8259): plain decimal digits,
  no exponent, the fraction digits the literal implies, no sign on zero.
 */
module JsonNumber {
  import opened Basics
  import D = Decimal

  const MAX_SCALE := 16383
  const MAX_INTEGER_DIGITS := 131072
  const EXPONENT_CAP := 0x4000_0000
  const MAX_INT64 := 0x7FFF_FFFF_FFFF_FFFF

  // ----- Literals

  datatype Exponent = Exponent(letter: char, sign: string, digits: string)

  datatype Literal = Literal(negative: bool, integer: string, fraction: string, exponent: Option<Exponent>)

  predicate ValidLiteral(l: Literal)
  {
    && D.Canonical(l.integer)
    && D.Digits(l.fraction)
    && (l.exponent.Some? ==>
          && (l.exponent.value.letter == 'e' || l.exponent.value.letter == 'E')
          && (l.exponent.value.sign == "" || l.exponent.value.sign == "+" || l.exponent.value.sign == "-")
          && l.exponent.value.digits != "" && D.Digits(l.exponent.value.digits))
  }

  function PrintExponent(l: Literal): string
  {
    if l.exponent.None? then ""
    else [l.exponent.value.letter] + l.exponent.value.sign + l.exponent.value.digits
  }

  function PrintMantissa(l: Literal): string
  {
    l.integer + if l.fraction == "" then "" else "." + l.fraction
  }

  function Print(l: Literal): string
  {
    (if l.negative then "-" else "") + PrintMantissa(l) + PrintExponent(l)
  }

  function ExponentOf(l: Literal): int
    requires ValidLiteral(l)
  {
    if l.exponent.None? then 0
    else if l.exponent.value.sign == "-" then -(D.Value(l.exponent.value.digits) as int)
    else D.Value(l.exponent.value.digits)
  }

  function Pow10(k: int): real
  {
    if k >= 0 then D.Pow10(k) as real else 1.0 / D.Pow10(-k) as real
  }

  function Magnitude(l: Literal): real
    requires ValidLiteral(l)
  {
    Scaled(D.Value(l.integer + l.fraction), ExponentOf(l) - |l.fraction|)
  }

  /** The number a literal denotes. */
  function Denotes(l: Literal): real
    requires ValidLiteral(l)
  {
    if l.negative then -Magnitude(l) else Magnitude(l)
  }

  predicate IsZero(l: Literal)
  {
    forall i | 0 <= i < |l.integer + l.fraction| :: (l.integer + l.fraction)[i] == '0'
  }

  // ----- The parsed number

  datatype Number = Number(negative: bool, integer: string, fraction: string, first: int, point: int, scale: int) {

    function DigitCount(): int { |integer| + |fraction| }

    predicate Zero() { first == DigitCount() }

    function IntegerDigits(): int
    {
      if Zero() then 0 else if point - first > 0 then point - first else 0
    }

    predicate Storable()
    {
      scale <= MAX_SCALE && IntegerDigits() <= MAX_INTEGER_DIGITS
    }

    function CanonicalLength(): int
    {
      (if IntegerDigits() > 1 then IntegerDigits() else 1)
      + (if negative && !Zero() then 1 else 0)
      + (if scale > 0 then 1 + scale else 0)
    }

    /** The digit at a position of the shifted number: zero outside the written digits. */
    function Digit(index: int): char
    {
      if index < 0 || index >= DigitCount() then '0'
      else if index < |integer| then integer[index]
      else fraction[index - |integer|]
    }

    function Range(from: int, to: int): (s: string)
      requires from <= to
      ensures |s| == to - from && forall i | 0 <= i < |s| :: s[i] == Digit(from + i)
    {
      seq(to - from, i requires 0 <= i < to - from => Digit(from + i))
    }

    function IntegerText(): string
    {
      if IntegerDigits() == 0 then "0" else Range(first, point)
    }

    function FractionText(): string
    {
      if scale > 0 then Range(point, point + scale) else ""
    }

    function All(): string { integer + fraction }

    /** What every parsed number satisfies. */
    predicate Sound()
    {
      D.Digits(All()) && first == FirstNonZero(All()) && scale >= 0
    }

    /** The canonical text. */
    function Text(): string
    {
      (if negative && !Zero() then "-" else "") + IntegerText() + (if scale > 0 then "." + FractionText() else "")
    }
  }

  /** The position of the first digit that is not zero, or the digit count. */
  function FirstNonZero(s: string): (k: nat)
    ensures k <= |s|
    ensures forall i | 0 <= i < k :: s[i] == '0'
    ensures k < |s| ==> s[k] != '0'
  {
    if s == "" || s[0] != '0' then 0 else 1 + FirstNonZero(s[1..])
  }

  /** A literal split into parts under a given exponent. */
  function NumberOf(l: Literal, exponent: int): Number
  {
    Number(l.negative, l.integer, l.fraction, FirstNonZero(l.integer + l.fraction), |l.integer| + exponent,
           if |l.fraction| - exponent > 0 then |l.fraction| - exponent else 0)
  }

  function Saturate(value: nat): nat
  {
    if value < EXPONENT_CAP then value else EXPONENT_CAP
  }

  function SaturatedExponent(l: Literal): int
    requires ValidLiteral(l)
  {
    if l.exponent.None? then 0
    else if l.exponent.value.sign == "-" then -(Saturate(D.Value(l.exponent.value.digits)) as int)
    else Saturate(D.Value(l.exponent.value.digits))
  }

  /** What the source's parser makes of a literal. */
  function Parsed(l: Literal): Number
    requires ValidLiteral(l)
  {
    NumberOf(l, SaturatedExponent(l))
  }

  // ----- Saturation is harmless

  /** Within the digit bound, saturating the exponent changes neither the verdict nor the text. */
  lemma {:induction false} SaturationIsHarmless(l: Literal)
    requires ValidLiteral(l) && |l.integer + l.fraction| < EXPONENT_CAP - MAX_INTEGER_DIGITS
    ensures Parsed(l).Storable() <==> NumberOf(l, ExponentOf(l)).Storable()
    ensures Parsed(l).Storable() ==> Parsed(l).Text() == NumberOf(l, ExponentOf(l)).Text()
  {
    if SaturatedExponent(l) != ExponentOf(l) {
      FarExponent(l, SaturatedExponent(l));
      FarExponent(l, ExponentOf(l));
    }
  }

  /** With an exponent at the cap or past it, only a zero with a positive one can be stored, and as 0. */
  lemma {:induction false} FarExponent(l: Literal, e: int)
    requires ValidLiteral(l) && |l.integer + l.fraction| < EXPONENT_CAP - MAX_INTEGER_DIGITS
    requires e <= -EXPONENT_CAP || EXPONENT_CAP <= e
    ensures NumberOf(l, e).Storable() <==> e > 0 && NumberOf(l, e).Zero()
    ensures NumberOf(l, e).Storable() ==> NumberOf(l, e).Text() == "0"
  {}

  /** Past the bound it is not: a long run of zeros hides the saturated part of the exponent. */
  lemma {:induction false} SaturationMisreadsHugeLiterals(digits: string)
    requires digits != "" && D.Digits(digits) && D.Value(digits) > EXPONENT_CAP + MAX_INTEGER_DIGITS
    ensures var l := Literal(false, "0", D.Zeros(EXPONENT_CAP) + "1", Some(Exponent('e', "", digits)));
            ValidLiteral(l) && Parsed(l).Storable() && !NumberOf(l, ExponentOf(l)).Storable()
  {
    var l := Literal(false, "0", D.Zeros(EXPONENT_CAP) + "1", Some(Exponent('e', "", digits)));
    var all := l.integer + l.fraction;
    assert all[EXPONENT_CAP + 1] == '1';
    assert forall i | 0 <= i <= EXPONENT_CAP :: all[i] == '0';
    assert FirstNonZero(all) == EXPONENT_CAP + 1;
  }

  /** No intermediate value of the parser leaves 64 bits for texts shorter than 2^62 bytes. */
  lemma {:induction false} FitsInt64(l: Literal, saturated: nat, c: char)
    requires ValidLiteral(l) && |l.integer + l.fraction| < 0x4000_0000_0000_0000
    requires saturated <= EXPONENT_CAP && D.IsDigit(c)
    ensures saturated * 10 + D.DigitValue(c) <= MAX_INT64
    ensures -MAX_INT64 <= Parsed(l).point <= MAX_INT64 && Parsed(l).scale <= MAX_INT64
    ensures -MAX_INT64 <= |l.fraction| - SaturatedExponent(l) <= MAX_INT64
    ensures -MAX_INT64 <= Parsed(l).point - Parsed(l).first <= MAX_INT64
    ensures Parsed(l).Storable() ==>
            0 <= Parsed(l).CanonicalLength() <= MAX_INT64 && Parsed(l).point + Parsed(l).scale <= MAX_INT64
  {}

  // ----- The canonical literal

  function CanonicalLiteral(l: Literal): Literal
    requires ValidLiteral(l)
  {
    var n := Parsed(l);
    Literal(l.negative && !n.Zero(), n.IntegerText(), n.FractionText(), None)
  }

  lemma {:induction false} DigitIsDigit(n: Number, index: int)
    requires n.Sound()
    ensures D.IsDigit(n.Digit(index))
    ensures n.Digit(index) == if 0 <= index < |n.All()| then n.All()[index] else '0'
  {
    if 0 <= index < |n.All()| { assert D.IsDigit(n.All()[index]); }
  }

  lemma {:induction false} RangeIsDigits(n: Number, from: int, to: int)
    requires n.Sound() && from <= to
    ensures D.Digits(n.Range(from, to))
  {
    forall i | 0 <= i < to - from ensures D.IsDigit(n.Range(from, to)[i]) { DigitIsDigit(n, from + i); }
  }

  lemma {:induction false} IntegerTextIsCanonical(n: Number)
    requires n.Sound()
    ensures D.Canonical(n.IntegerText())
    ensures |n.IntegerText()| == if n.IntegerDigits() > 1 then n.IntegerDigits() else 1
  {
    if n.IntegerDigits() > 0 {
      RangeIsDigits(n, n.first, n.point);
      DigitIsDigit(n, n.first);
      assert n.IntegerText()[0] == n.Digit(n.first);
    }
  }

  lemma {:induction false} FractionTextIsDigits(n: Number)
    requires n.Sound()
    ensures D.Digits(n.FractionText()) && |n.FractionText()| == n.scale
  {
    if n.scale > 0 { RangeIsDigits(n, n.point, n.point + n.scale); }
  }

  /** The canonical text is a well-formed literal, of the precomputed length. */
  lemma {:induction false} CanonicalIsValid(l: Literal)
    requires ValidLiteral(l)
    ensures ValidLiteral(CanonicalLiteral(l))
    ensures Print(CanonicalLiteral(l)) == Parsed(l).Text()
    ensures |Parsed(l).Text()| == Parsed(l).CanonicalLength()
    ensures |CanonicalLiteral(l).fraction| ==
            if |l.fraction| > SaturatedExponent(l) then |l.fraction| - SaturatedExponent(l) else 0
    ensures CanonicalLiteral(l).negative ==> !IsZero(l)
  {
    IntegerTextIsCanonical(Parsed(l));
    FractionTextIsDigits(Parsed(l));
  }

  /** A literal is refused exactly when its canonical text has too many digits on a side of the point. */
  lemma {:induction false} StorableExactly(l: Literal)
    requires ValidLiteral(l)
    ensures Parsed(l).Storable() <==>
            |CanonicalLiteral(l).fraction| <= 16383 && |CanonicalLiteral(l).integer| <= 131072
  {
    CanonicalIsValid(l);
  }

  // ----- The canonical text denotes the same number

  lemma {:induction false} PaddedValue(all: string, lead: nat, tail: nat)
    requires D.Digits(all)
    ensures D.Digits(D.Zeros(lead) + (all + D.Zeros(tail)))
    ensures D.Value(D.Zeros(lead) + (all + D.Zeros(tail))) == D.Value(all) * D.Pow10(tail)
  {
    D.ZerosAreNothing(D.Zeros(lead));
    D.ZerosAreNothing(D.Zeros(tail));
    D.ValueAppend(all, D.Zeros(tail));
    D.ValueAppend(D.Zeros(lead), all + D.Zeros(tail));
  }

  lemma {:induction false} TrimmedValue(all: string, from: nat)
    requires D.Digits(all) && from <= |all| && forall i | 0 <= i < from :: all[i] == '0'
    ensures D.Value(all[from..]) == D.Value(all)
  {
    D.ZerosAreNothing(all[..from]);
    assert all == all[..from] + all[from..];
    D.ValueAppend(all[..from], all[from..]);
  }

  /** A range that starts before the first non-zero digit and ends after the last digit. */
  lemma {:induction false} RangeValue(n: Number, from: int, to: int)
    requires n.Sound() && from <= to && from <= n.first && |n.All()| <= to
    ensures D.Digits(n.Range(from, to))
    ensures D.Value(n.Range(from, to)) == D.Value(n.All()) * D.Pow10(to - |n.All()|)
  {
    var all := n.All();
    var lead, cut := if from <= 0 then -from else 0, if from <= 0 then 0 else from;
    RangePadded(n, from, to, lead, cut);
    TrimmedValue(all, cut);
    PaddedValue(all[cut..], lead, to - |all|);
  }

  lemma {:induction false} RangePadded(n: Number, from: int, to: int, lead: nat, cut: nat)
    requires n.Sound() && from <= to && from <= n.first && |n.All()| <= to
    requires lead == (if from <= 0 then -from else 0) && cut == if from <= 0 then 0 else from
    ensures cut <= |n.All()|
    ensures n.Range(from, to) == D.Zeros(lead) + (n.All()[cut..] + D.Zeros(to - |n.All()|))
  {}

  lemma {:induction false} RangeSplit(n: Number, from: int, mid: int, to: int)
    requires from <= mid <= to
    ensures n.Range(from, to) == n.Range(from, mid) + n.Range(mid, to)
  {}

  /** All the canonical digits together: the written digits, shifted when the exponent exceeds the fraction. */
  lemma {:induction false} TextValue(n: Number)
    requires n.Sound() && n.point + n.scale == if n.point > |n.All()| then n.point else |n.All()|
    ensures D.Digits(n.IntegerText() + n.FractionText())
    ensures D.Value(n.IntegerText() + n.FractionText()) == D.Value(n.All()) * D.Pow10(n.point + n.scale - |n.All()|)
  {
    IntegerTextIsCanonical(n);
    FractionTextIsDigits(n);
    var end := n.point + n.scale;
    if n.IntegerDigits() > 0 {
      RangeSplit(n, n.first, n.point, end);
      assert n.IntegerText() + n.FractionText() == n.Range(n.first, end);
      RangeValue(n, n.first, end);
    } else if n.Zero() {
      ZeroText(n);
    } else {
      RangeValue(n, n.point, end);
      D.ValueAppend("0", n.FractionText());
      D.ZerosAreNothing("0");
    }
  }

  lemma {:induction false} ZeroText(n: Number)
    requires n.Sound() && n.Zero()
    ensures D.Value(n.All()) == 0
    ensures D.Digits(n.IntegerText() + n.FractionText()) && D.Value(n.IntegerText() + n.FractionText()) == 0
  {
    D.ZerosAreNothing(n.All());
    forall index: int ensures n.Digit(index) == '0' { DigitIsDigit(n, index); }
    D.ZerosAreNothing(n.IntegerText() + n.FractionText());
  }

  lemma {:induction false} CanonicalDigitsValue(l: Literal)
    requires ValidLiteral(l)
    ensures ValidLiteral(CanonicalLiteral(l))
    ensures var c, e := CanonicalLiteral(l), SaturatedExponent(l);
            D.Value(c.integer + c.fraction) ==
            D.Value(l.integer + l.fraction) * D.Pow10(if e > |l.fraction| then e - |l.fraction| else 0)
  {
    CanonicalIsValid(l);
    TextValue(Parsed(l));
  }

  function Scaled(value: nat, k: int): real { value as real * Pow10(k) }

  lemma {:induction false} ShiftedMagnitude(value: nat, shifted: nat, e: int, f: nat)
    requires shifted == value * D.Pow10(if e > f then e - f else 0)
    ensures Scaled(value, e - f) == Scaled(shifted, if e > f then 0 else e - f)
  {}

  lemma {:induction false} ZeroMagnitude(l: Literal)
    requires ValidLiteral(l) && D.Value(l.integer + l.fraction) == 0
    ensures Magnitude(l) == 0.0
  {}

  // ----- When the canonical text denotes the same number

  lemma {:induction false} Pow10Step(k: int)
    ensures Pow10(k) > 0.0 && Pow10(k + 1) == 10.0 * Pow10(k)
  {
    if k < 0 {
      var p := D.Pow10(-k - 1) as real;
      assert D.Pow10(-k) as real == 10.0 * p;
      assert 10.0 * (1.0 / (10.0 * p)) == 1.0 / p;
    }
  }

  lemma {:induction false} Pow10Rises(a: int, b: int)
    requires a < b
    ensures Pow10(a) < Pow10(b)
    decreases b - a
  {
    Pow10Step(b - 1);
    if a < b - 1 { Pow10Rises(a, b - 1); }
  }

  lemma {:induction false} ProductRises(v: real, x: real, y: real)
    requires v > 0.0 && x < y
    ensures v * x < v * y
  {}

  lemma {:induction false} ScaledRises(value: nat, a: int, b: int)
    requires value > 0 && a < b
    ensures Scaled(value, a) < Scaled(value, b)
  {
    Pow10Rises(a, b);
    ProductRises(value as real, Pow10(a), Pow10(b));
  }

  lemma {:induction false} ScaledAlike(value: nat, a: int, b: int)
    ensures Scaled(value, a) == Scaled(value, b) <==> value == 0 || a == b
  {
    if value > 0 && a < b { ScaledRises(value, a, b); }
    if value > 0 && b < a { ScaledRises(value, b, a); }
  }

  lemma {:induction false} CanonicalMagnitude(l: Literal)
    requires ValidLiteral(l)
    ensures ValidLiteral(CanonicalLiteral(l))
    ensures Magnitude(CanonicalLiteral(l)) ==
            Scaled(D.Value(l.integer + l.fraction), SaturatedExponent(l) - |l.fraction|)
  {
    CanonicalIsValid(l);
    CanonicalDigitsValue(l);
    var c := CanonicalLiteral(l);
    ShiftedMagnitude(D.Value(l.integer + l.fraction), D.Value(c.integer + c.fraction), SaturatedExponent(l),
                     |l.fraction|);
  }

  /** The parser keeps the literal's number: its exponent is not cut off, or there is nothing to scale. */
  predicate Exact(l: Literal)
    requires ValidLiteral(l)
  {
    IsZero(l) || SaturatedExponent(l) == ExponentOf(l)
  }

  /** The canonical literal denotes the same number exactly when the parser keeps it. */
  lemma {:induction false} CanonicalDenotesTheSame(l: Literal)
    requires ValidLiteral(l)
    ensures ValidLiteral(CanonicalLiteral(l))
    ensures Denotes(CanonicalLiteral(l)) == Denotes(l) <==> Exact(l)
  {
    var value := D.Value(l.integer + l.fraction);
    ZeroExactly(l.integer + l.fraction);
    CanonicalMagnitude(l);
    ScaledAlike(value, SaturatedExponent(l) - |l.fraction|, ExponentOf(l) - |l.fraction|);
    if value == 0 {
      ZeroMagnitude(l);
    } else {
      SameSign(l);
    }
  }

  /** Every literal within the digit bound that can be stored is kept. */
  lemma {:induction false} StorableIsExact(l: Literal)
    requires ValidLiteral(l) && Parsed(l).Storable()
    requires |l.integer + l.fraction| < EXPONENT_CAP - MAX_INTEGER_DIGITS
    ensures Exact(l)
  {}

  /**
    A zero is written "0" exactly when its exponent covers its fraction digits, and is refused
    exactly when the digits that are left exceed the scale.
   */
  lemma {:induction false} ZeroKeepsItsScale(l: Literal)
    requires ValidLiteral(l) && IsZero(l)
    ensures Parsed(l).Text() == "0" <==> |l.fraction| <= SaturatedExponent(l)
    ensures Parsed(l).Storable() <==> |l.fraction| - SaturatedExponent(l) <= MAX_SCALE
  {
    CanonicalIsValid(l);
  }

  /** 0e-5 is a zero that is not written "0". */
  lemma {:induction false} SmallZeroKeepsDigits()
    ensures var l := Literal(false, "0", "", Some(Exponent('e', "-", "5")));
            ValidLiteral(l) && IsZero(l) && Print(l) == "0e-5" && Parsed(l).Storable() && Parsed(l).Text() == "0.00000"
  {
    var l := Literal(false, "0", "", Some(Exponent('e', "-", "5")));
    D.ValueSnoc("", '5');
    assert "" + "5" == "5";
    var n := Parsed(l);
    assert n.point == -4 && n.scale == 5;
    assert n.Range(-4, 1) == "00000";
  }

  /** 0e-20000 is a zero that is refused. */
  lemma {:induction false} TinyZeroIsRefused()
    ensures var l := Literal(false, "0", "", Some(Exponent('e', "-", "20000")));
            ValidLiteral(l) && IsZero(l) && Print(l) == "0e-20000" && !Parsed(l).Storable()
  {
    var l := Literal(false, "0", "", Some(Exponent('e', "-", "20000")));
    Twenty();
    ZeroKeepsItsScale(l);
  }

  lemma {:induction false} Twenty()
    ensures D.Digits("20000") && D.Value("20000") == 20000
  {
    D.ValueSnoc("", '2');
    D.ValueSnoc("2", '0');
    D.ValueSnoc("20", '0');
    D.ValueSnoc("200", '0');
    D.ValueSnoc("2000", '0');
    assert "" + "2" == "2" && "2" + "0" == "20" && "20" + "0" == "200" && "200" + "0" == "2000"
      && "2000" + "0" == "20000";
  }

  lemma {:induction false} SameSign(l: Literal)
    requires ValidLiteral(l) && D.Value(l.integer + l.fraction) != 0
    ensures CanonicalLiteral(l).negative == l.negative
  {
    var all := l.integer + l.fraction;
    if FirstNonZero(all) == |all| { D.ZerosAreNothing(all); }
  }

  // ----- What is already canonical

  /** The source's test for a literal whose text would change. */
  predicate Changes(l: Literal)
  {
    l.exponent.Some? || (l.negative && IsZero(l))
  }

  /** A literal the test passes over is its own canonical form. */
  lemma {:induction false} UnchangedIsCanonical(l: Literal)
    requires ValidLiteral(l) && !Changes(l)
    ensures CanonicalLiteral(l) == l
  {}

  /** The text changes exactly when the test says so. */
  lemma {:induction false} ChangesExactly(l: Literal)
    requires ValidLiteral(l)
    ensures Parsed(l).Text() == Print(l) <==> !Changes(l)
  {
    CanonicalIsValid(l);
    if !Changes(l) {
      UnchangedIsCanonical(l);
    } else if l.exponent.Some? {
      NoLetter(CanonicalLiteral(l));
      var at := |Print(l)| - |PrintExponent(l)|;
      assert Print(l)[at] == l.exponent.value.letter;
    } else {
      assert Print(l)[0] == '-';
      assert D.IsDigit(CanonicalLiteral(l).integer[0]);
    }
  }

  lemma {:induction false} NoLetter(c: Literal)
    requires ValidLiteral(c) && c.exponent.None?
    ensures forall i | 0 <= i < |Print(c)| :: Print(c)[i] != 'e' && Print(c)[i] != 'E'
  {}

  /** The canonical form is a fixed point, and stays storable. */
  lemma {:induction false} CanonicalIsFixed(l: Literal)
    requires ValidLiteral(l)
    ensures ValidLiteral(CanonicalLiteral(l)) && !Changes(CanonicalLiteral(l))
    ensures CanonicalLiteral(CanonicalLiteral(l)) == CanonicalLiteral(l)
    ensures Parsed(l).Storable() ==> Parsed(CanonicalLiteral(l)).Storable()
  {
    CanonicalIsValid(l);
    var c := CanonicalLiteral(l);
    if c.negative { CanonicalStaysNonZero(l); }
    UnchangedIsCanonical(c);
    assert Parsed(c).scale == Parsed(l).scale;
  }

  lemma {:induction false} ZeroExactly(s: string)
    requires D.Digits(s)
    ensures D.Value(s) == 0 <==> forall i | 0 <= i < |s| :: s[i] == '0'
  {
    if D.Value(s) == 0 { D.ZeroValueMeansZeros(s); }
    if forall i | 0 <= i < |s| :: s[i] == '0' { D.ZerosAreNothing(s); }
  }

  lemma {:induction false} NonZeroProduct(x: nat, p: nat)
    requires x > 0 && p > 0
    ensures x * p > 0
  {}

  lemma {:induction false} CanonicalStaysNonZero(l: Literal)
    requires ValidLiteral(l) && !IsZero(l)
    ensures ValidLiteral(CanonicalLiteral(l)) && !IsZero(CanonicalLiteral(l))
  {
    CanonicalDigitsValue(l);
    var c, e := CanonicalLiteral(l), SaturatedExponent(l);
    ZeroExactly(l.integer + l.fraction);
    ZeroExactly(c.integer + c.fraction);
    NonZeroProduct(D.Value(l.integer + l.fraction), D.Pow10(if e > |l.fraction| then e - |l.fraction| else 0));
  }

  // ----- The loops

  /** Reads an optionally signed exponent, saturating at the cap. */
  lemma {:induction false} SaturateSnoc(value: nat, digit: nat)
    ensures Saturate(value * 10 + digit) == Saturate(Saturate(value) * 10 + digit)
  {}

  method ParseExponent(text: string, ghost x: Exponent) returns (exponent: int)
    requires text == x.sign + x.digits && D.Digits(x.digits)
    requires x.sign == "" || x.sign == "+" || x.sign == "-"
    ensures exponent == if x.sign == "-" then -(Saturate(D.Value(x.digits)) as int) else Saturate(D.Value(x.digits))
  {
    var negative, digits := false, text;
    if |text| > 0 && (text[0] == '+' || text[0] == '-') {
      negative, digits := text[0] == '-', text[1..];
    }
    assert digits == x.digits && (negative <==> x.sign == "-");
    var value: nat := 0;
    for i := 0 to |digits|
      invariant value == Saturate(D.Value(digits[..i]))
    {
      assert digits[..i + 1] == digits[..i] + [digits[i]];
      D.ValueSnoc(digits[..i], digits[i]);
      SaturateSnoc(D.Value(digits[..i]), D.DigitValue(digits[i]));
      var next := value * 10 + D.DigitValue(digits[i]);
      value := if next < EXPONENT_CAP then next else EXPONENT_CAP;
    }
    assert digits[..|digits|] == digits;
    exponent := if negative then -(value as int) else value;
  }

  /** The position of the first char that satisfies the test, or the length. */
  function Find(s: string, test: char -> bool): (k: nat)
    ensures k <= |s|
    ensures forall i | 0 <= i < k :: !test(s[i])
    ensures k < |s| ==> test(s[k])
  {
    if s == "" || test(s[0]) then 0 else 1 + Find(s[1..], test)
  }

  lemma {:induction false} FindSplit(a: string, c: char, b: string, test: char -> bool)
    requires forall i | 0 <= i < |a| :: !test(a[i])
    ensures test(c) ==> Find(a + [c] + b, test) == |a|
    ensures Find(a, test) == |a|
  {
    var s := a + [c] + b;
    assert s[|a|] == c;
    assert forall i | 0 <= i < |a| :: s[i] == a[i];
  }

  predicate IsE(c: char) { c == 'e' || c == 'E' }
  predicate IsPoint(c: char) { c == '.' }

  lemma {:induction false} SplitsAtLetter(l: Literal)
    requires ValidLiteral(l)
    ensures var text := PrintMantissa(l) + PrintExponent(l);
            Find(text, IsE) == |PrintMantissa(l)|
  {
    var m := PrintMantissa(l);
    NoLetter(l.(exponent := None, negative := false));
    assert Print(l.(exponent := None, negative := false)) == m;
    if l.exponent.None? {
      FindSplit(m, 'e', "", IsE);
      assert m + PrintExponent(l) == m;
    } else {
      var x := l.exponent.value;
      FindSplit(m, x.letter, x.sign + x.digits, IsE);
      assert m + PrintExponent(l) == m + [x.letter] + (x.sign + x.digits);
    }
  }

  /** A literal's text holds an exponent letter exactly when it has an exponent. */
  lemma {:induction false} ExponentShows(l: Literal)
    requires ValidLiteral(l)
    ensures Find(Print(l), IsE) < |Print(l)| <==> l.exponent.Some?
  {
    if l.exponent.None? {
      NoLetter(l);
    } else {
      var at := |Print(l)| - |PrintExponent(l)|;
      assert Print(l)[at] == l.exponent.value.letter;
    }
  }

  lemma {:induction false} SplitsAtPoint(l: Literal)
    requires ValidLiteral(l)
    ensures Find(PrintMantissa(l), IsPoint) == |l.integer|
  {
    FindSplit(l.integer, '.', l.fraction, IsPoint);
    if l.fraction != "" { assert PrintMantissa(l) == l.integer + ['.'] + l.fraction; }
  }

  /** Splits the unsigned text into mantissa and exponent. */
  method SplitExponent(text: string, ghost l: Literal) returns (mantissa: string, exponent: int)
    requires ValidLiteral(l) && text == PrintMantissa(l) + PrintExponent(l)
    ensures mantissa == PrintMantissa(l) && exponent == SaturatedExponent(l)
  {
    SplitsAtLetter(l);
    var at := Find(text, IsE);
    mantissa, exponent := text[..at], 0;
    if at < |text| {
      assert text[at + 1..] == l.exponent.value.sign + l.exponent.value.digits;
      exponent := ParseExponent(text[at + 1..], l.exponent.value);
    }
  }

  /** Splits the mantissa at its decimal point. */
  method SplitMantissa(mantissa: string, ghost l: Literal) returns (integer: string, fraction: string)
    requires ValidLiteral(l) && mantissa == PrintMantissa(l)
    ensures integer == l.integer && fraction == l.fraction
  {
    SplitsAtPoint(l);
    var at := Find(mantissa, IsPoint);
    integer, fraction := mantissa[..at], if at < |mantissa| then mantissa[at + 1..] else "";
  }

  method FirstDigit(all: string) returns (first: int)
    ensures first == FirstNonZero(all)
  {
    first := 0;
    while first < |all| && all[first] == '0'
      invariant 0 <= first <= |all| && forall i | 0 <= i < first :: all[i] == '0'
    {
      first := first + 1;
    }
  }

  /** A text is the text of one literal only. */
  lemma {:induction false} PrintIsInjective(a: Literal, b: Literal)
    requires ValidLiteral(a) && ValidLiteral(b) && Print(a) == Print(b)
    ensures a == b
  {
    SignIsFirst(a);
    SignIsFirst(b);
    SameParts(a, b);
    SameExponent(a, b);
    SameMantissa(a, b);
  }

  lemma {:induction false} SameParts(a: Literal, b: Literal)
    requires ValidLiteral(a) && ValidLiteral(b)
    requires PrintMantissa(a) + PrintExponent(a) == PrintMantissa(b) + PrintExponent(b)
    ensures PrintMantissa(a) == PrintMantissa(b) && PrintExponent(a) == PrintExponent(b)
  {
    SplitsAtLetter(a);
    SplitsAtLetter(b);
    SplitAt(PrintMantissa(a), PrintExponent(a), PrintMantissa(b), PrintExponent(b));
  }

  lemma {:induction false} SplitAt(a: string, b: string, c: string, d: string)
    requires a + b == c + d && |a| == |c|
    ensures a == c && b == d
  {
    assert (a + b)[..|a|] == a && (c + d)[..|c|] == c;
    assert (a + b)[|a|..] == b && (c + d)[|c|..] == d;
  }

  lemma {:induction false} SameMantissa(a: Literal, b: Literal)
    requires ValidLiteral(a) && ValidLiteral(b) && PrintMantissa(a) == PrintMantissa(b)
    ensures a.integer == b.integer && a.fraction == b.fraction
  {
    SplitsAtPoint(a);
    SplitsAtPoint(b);
    SplitAt(a.integer, PrintMantissa(a)[|a.integer|..], b.integer, PrintMantissa(b)[|b.integer|..]);
    var tail := PrintMantissa(a)[|a.integer|..];
    assert tail == if a.fraction == "" then "" else "." + a.fraction;
    assert tail == if b.fraction == "" then "" else "." + b.fraction;
    if tail != "" { assert tail[1..] == a.fraction == b.fraction; }
  }

  lemma {:induction false} SameExponent(a: Literal, b: Literal)
    requires ValidLiteral(a) && ValidLiteral(b) && PrintExponent(a) == PrintExponent(b)
    ensures a.exponent == b.exponent
  {
    if a.exponent.Some? && b.exponent.Some? {
      var x, y := a.exponent.value, b.exponent.value;
      assert PrintExponent(a)[0] == x.letter == y.letter;
      assert PrintExponent(a)[1..] == x.sign + x.digits == y.sign + y.digits;
      assert (x.sign + x.digits)[0] == if x.sign == "" then x.digits[0] else x.sign[0];
      assert (y.sign + y.digits)[0] == if y.sign == "" then y.digits[0] else y.sign[0];
      assert |x.sign| == |y.sign|;
      SplitAt(x.sign, x.digits, y.sign, y.digits);
    }
  }

  method ParseJSONNumber(literal: string, ghost l: Literal) returns (number: Number)
    requires ValidLiteral(l) && literal == Print(l)
    ensures number == Parsed(l)
  {
    SignIsFirst(l);
    var negative := |literal| > 0 && literal[0] == '-';
    var text := if negative then literal[1..] else literal;
    var mantissa, exponent := SplitExponent(text, l);
    var integer, fraction := SplitMantissa(mantissa, l);
    var first := FirstDigit(integer + fraction);
    number := Number(negative, integer, fraction, first, |integer| + exponent,
                     if |fraction| - exponent > 0 then |fraction| - exponent else 0);
  }

  lemma {:induction false} SignIsFirst(l: Literal)
    requires ValidLiteral(l)
    ensures Print(l) != "" && (Print(l)[0] == '-' <==> l.negative)
    ensures (if l.negative then Print(l)[1..] else Print(l)) == PrintMantissa(l) + PrintExponent(l)
  {}

  method AppendRange(n: Number, out: string, from: int, to: int) returns (r: string)
    requires from <= to
    ensures r == out + n.Range(from, to)
  {
    r := out;
    var index := from;
    while index < to
      invariant from <= index <= to && r == out + n.Range(from, index)
    {
      assert n.Range(from, index + 1) == n.Range(from, index) + [n.Digit(index)];
      r := r + [n.Digit(index)];
      index := index + 1;
    }
  }

  method AppendInteger(n: Number, out: string) returns (r: string)
    ensures r == out + n.IntegerText()
  {
    if n.IntegerDigits() == 0 {
      r := out + "0";
    } else {
      r := AppendRange(n, out, n.first, n.point);
    }
  }

  method AppendCanonical(n: Number, out: string) returns (r: string)
    requires n.scale >= 0
    ensures r == out + n.Text()
  {
    var sign := if n.negative && !n.Zero() then "-" else "";
    r := AppendInteger(n, out + sign);
    if n.scale > 0 {
      r := AppendRange(n, r + ".", n.point, n.point + n.scale);
    }
    Regroup(out, sign, n.IntegerText(), if n.scale > 0 then "." else "", n.FractionText());
  }

  lemma {:induction false} Regroup(a: string, b: string, c: string, d: string, e: string)
    ensures a + b + c + d + e == a + (b + c + (d + e))
    ensures a + b + c == a + (b + c)
  {}
}
