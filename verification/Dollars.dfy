/**
 The budget field: reading a decimal USD string into cents without floating point, and printing
 cents back.
 */
module Dollars {
  import opened Prelude
  import opened Text

  datatype ParseError = NotANumber | TooManyDecimals | OutOfRange

  const MAX_DOLLARS: int := 1_000_000
  const MAX_CENTS: int := MAX_DOLLARS * 100
  const MAX_INT64: int := 0x7FFF_FFFF_FFFF_FFFF

  newtype Int64 = x: int | -MAX_INT64 - 1 <= x <= MAX_INT64

  // ----- decimal notation -----

  predicate IsDigit(c: char) {
    '0' <= c <= '9'
  }

  predicate AllDigits(s: string) {
    forall i :: 0 <= i < |s| ==> IsDigit(s[i])
  }

  /** The number a digit string denotes. */
  function Decimal(s: string): nat
    requires AllDigits(s)
  {
    if s == [] then 0 else Decimal(s[..|s| - 1]) * 10 + (s[|s| - 1] as int - '0' as int)
  }

  function DigitChar(d: nat): (c: char)
    requires d < 10
    ensures IsDigit(c) && c as int - '0' as int == d
  {
    ('0' as int + d) as char
  }

  /** %d of a non-negative number. */
  function Digits(n: nat): (s: string)
    ensures s != [] && AllDigits(s)
  {
    if n < 10 then [DigitChar(n)] else Digits(n / 10) + [DigitChar(n % 10)]
  }

  lemma {:induction false} DigitsDenote(n: nat)
    ensures Decimal(Digits(n)) == n
  {
    if n >= 10 {
      DigitsDenote(n / 10);
      assert Digits(n)[..|Digits(n)| - 1] == Digits(n / 10);
    }
  }

  // ----- the parser -----

  function TrimDollar(s: string): string {
    if |s| > 0 && s[0] == '$' then s[1..] else s
  }

  /** What is left to read once outer space and one leading dollar sign are gone. */
  function Body(s: string): string {
    TrimSpace(TrimDollar(TrimSpace(s)))
  }

  function DotAt(s: string): (i: nat)
    ensures i <= |s| && (i < |s| ==> s[i] == '.') && forall j :: 0 <= j < i ==> s[j] != '.'
  {
    if s == [] || s[0] == '.' then 0 else 1 + DotAt(s[1..])
  }

  /** strconv.ParseInt(s, 10, 64) on a string of digits. */
  function ParseInt64(s: string): (r: Option<Int64>)
    requires AllDigits(s)
    ensures r.None? <==> Decimal(s) > MAX_INT64
    ensures r.Some? ==> r.value as int == Decimal(s)
  {
    if Decimal(s) <= MAX_INT64 then Some(Decimal(s) as Int64) else None
  }

  function Padded(frac: string): string {
    if |frac| == 0 then "00" else if |frac| == 1 then frac + "0" else frac
  }

  function ParseAmount(dollars: string, frac: string, hasDot: bool): Result<int, ParseError> {
    if dollars == "" || !AllDigits(dollars) then Failure(NotANumber)
    else if hasDot && (frac == "" || !AllDigits(frac)) then Failure(NotANumber)
    else if hasDot && |frac| > 2 then Failure(TooManyDecimals)
    else if ParseInt64(dollars).None? then Failure(NotANumber)
    else if Decimal(dollars) > MAX_DOLLARS then Failure(OutOfRange)
    else
      var cents := Decimal(dollars) * 100 + if hasDot then Decimal(Padded(frac)) else 0;
      if cents > MAX_CENTS then Failure(OutOfRange) else Success(cents)
  }

  function Parse(s: string): Result<int, ParseError> {
    var t := Body(s);
    var dot := DotAt(t);
    if t == "" then Failure(NotANumber)
    else ParseAmount(t[..dot], if dot < |t| then t[dot + 1..] else "", dot < |t|)
  }

  method IsAllASCIIDigits(s: string) returns (ok: bool)
    ensures ok <==> AllDigits(s)
  {
    for i := 0 to |s|
      invariant forall j :: 0 <= j < i ==> IsDigit(s[j])
    {
      if s[i] < '0' || '9' < s[i] { return false; }
    }
    return true;
  }

  method PadFraction(fracStr: string) returns (frac: string)
    requires |fracStr| <= 2 && AllDigits(fracStr)
    ensures frac == Padded(fracStr) && |frac| == 2 && AllDigits(frac)
  {
    frac := fracStr;
    while |frac| < 2
      invariant |frac| <= 2 && AllDigits(frac) && Padded(frac) == Padded(fracStr)
    {
      frac := frac + "0";
    }
  }

  /** Once the dollars are known to be small, neither the product nor the sum leaves int64. */
  lemma NothingOverflows(dollars: string, frac: string)
    requires AllDigits(dollars) && AllDigits(frac) && |frac| == 2 && Decimal(dollars) <= MAX_DOLLARS
    ensures Decimal(dollars) * 100 <= MAX_INT64 && Decimal(frac) <= 99
    ensures Decimal(dollars) * 100 + Decimal(frac) <= MAX_INT64
  {
    PaddedIsSmall(frac);
  }

  /** The arithmetic is that of int64: an overflow anywhere would not verify. */
  method ParseUSDCents(input: string) returns (r: Result<Int64, ParseError>)
    ensures Parse(input) == if r.Success? then Success(r.value as int) else Failure(r.error)
  {
    var s := TrimSpace(input);
    s := TrimDollar(s);
    s := TrimSpace(s);
    if s == "" { return Failure(NotANumber); }
    var dot := DotAt(s);
    var hasDot := dot < |s|;
    var dollarsStr := s[..dot];
    var fracStr := if hasDot then s[dot + 1..] else "";
    var wholeOk := IsAllASCIIDigits(dollarsStr);
    if dollarsStr == "" || !wholeOk { return Failure(NotANumber); }
    if hasDot {
      var fracOk := IsAllASCIIDigits(fracStr);
      if fracStr == "" || !fracOk { return Failure(NotANumber); }
      if |fracStr| > 2 { return Failure(TooManyDecimals); }
    }
    var parsed := ParseInt64(dollarsStr);
    if parsed.None? { return Failure(NotANumber); }
    var dollars: Int64 := parsed.value;
    if dollars > MAX_DOLLARS as Int64 { return Failure(OutOfRange); }
    var frac := PadFraction(fracStr);
    NothingOverflows(dollarsStr, frac);
    var parsedFrac := ParseInt64(frac);
    if parsedFrac.None? { return Failure(NotANumber); }
    var fracCents: Int64 := parsedFrac.value;
    var cents: Int64 := dollars * 100 + fracCents;
    if cents > MAX_CENTS as Int64 { return Failure(OutOfRange); }
    return Success(cents);
  }

  lemma PaddedIsSmall(f: string)
    requires |f| == 2 && AllDigits(f)
    ensures Decimal(f) == (f[0] as int - '0' as int) * 10 + (f[1] as int - '0' as int) <= 99
  {
    assert f[..1][..0] == [];
    assert Decimal(f[..1]) == f[0] as int - '0' as int;
  }

  // ----- what is accepted, and what it means -----

  /** The grammar: digits, and optionally a dot followed by more digits. */
  ghost predicate Reads(t: string, dollars: string, frac: string) {
    && dollars != "" && AllDigits(dollars) && AllDigits(frac)
    && t == if frac == "" then dollars else dollars + "." + frac
  }

  lemma ReadsUniquely(t: string, dollars: string, frac: string)
    requires Reads(t, dollars, frac)
    ensures var dot := DotAt(t);
      && t != "" && t[..dot] == dollars && (dot < |t| <==> frac != "") && (frac != "" ==> t[dot + 1..] == frac)
  {
    var dot := DotAt(t);
    if frac == "" {
      assert dot < |t| ==> IsDigit(t[dot]);
    } else {
      assert t[|dollars|] == '.';
      assert dot < |dollars| ==> t[dot] == dollars[dot] && IsDigit(dollars[dot]);
    }
  }

  lemma AcceptedParts(t: string, dot: nat)
    requires dot <= |t| && (dot < |t| ==> t[dot] == '.')
    requires var r := ParseAmount(t[..dot], if dot < |t| then t[dot + 1..] else "", dot < |t|);
      r.Success? || r.error != NotANumber
    ensures Reads(t, t[..dot], if dot < |t| then t[dot + 1..] else "")
  {
    if dot < |t| {
      assert t == t[..dot] + "." + t[dot + 1..];
    } else {
      assert t == t[..dot];
    }
  }

  lemma AcceptedReads(s: string)
    requires Parse(s).Success? || Parse(s).error != NotANumber
    ensures exists dollars, frac :: Reads(Body(s), dollars, frac)
  {
    AcceptedParts(Body(s), DotAt(Body(s)));
  }

  lemma AmountMeans(dollars: string, frac: string)
    requires dollars != "" && AllDigits(dollars) && AllDigits(frac)
    ensures ParseAmount(dollars, frac, frac != "") ==
      if |frac| > 2 then Failure(TooManyDecimals)
      else if Decimal(dollars) > MAX_INT64 then Failure(NotANumber)
      else if Decimal(dollars) * 100 + Decimal(Padded(frac)) > MAX_CENTS then Failure(OutOfRange)
      else Success(Decimal(dollars) * 100 + Decimal(Padded(frac)))
  {
    if frac == "" { PaddedIsSmall("00"); }
  }

  /** On a string of the grammar, the outcome is decided by its digits alone: the exact value in
      cents, too many decimals, too large, or (beyond int64) unreadable. */
  lemma ParseMeans(s: string, dollars: string, frac: string)
    requires Reads(Body(s), dollars, frac)
    ensures Parse(s) ==
      if |frac| > 2 then Failure(TooManyDecimals)
      else if Decimal(dollars) > MAX_INT64 then Failure(NotANumber)
      else if Decimal(dollars) * 100 + Decimal(Padded(frac)) > MAX_CENTS then Failure(OutOfRange)
      else Success(Decimal(dollars) * 100 + Decimal(Padded(frac)))
  {
    ReadsUniquely(Body(s), dollars, frac);
    AmountMeans(dollars, frac);
  }

  /** A string is rejected as unreadable exactly when it is outside the grammar, or its dollars do
      not fit int64 and its decimals were not already too many. */
  lemma UnreadableIff(s: string)
    ensures Parse(s) == Failure(NotANumber) <==>
      forall dollars, frac :: Reads(Body(s), dollars, frac) ==> |frac| <= 2 && Decimal(dollars) > MAX_INT64
  {
    forall dollars, frac | Reads(Body(s), dollars, frac)
      ensures Parse(s) == Failure(NotANumber) <==> |frac| <= 2 && Decimal(dollars) > MAX_INT64
    {
      ParseMeans(s, dollars, frac);
    }
    if Parse(s) != Failure(NotANumber) {
      AcceptedReads(s);
      var dollars, frac :| Reads(Body(s), dollars, frac);
      ParseMeans(s, dollars, frac);
    }
  }

  lemma DecimalSnoc(a: string, c: char)
    requires AllDigits(a) && IsDigit(c)
    ensures AllDigits(a + [c]) && Decimal(a + [c]) == Decimal(a) * 10 + (c as int - '0' as int)
  {
  }

  /** What one unit of the last written decimal place is worth, in cents. */
  function UnitInCents(decimals: nat): nat {
    if decimals == 0 then 100 else if decimals == 1 then 10 else 1
  }

  lemma AppendTwo(a: string, b: string)
    requires AllDigits(a) && AllDigits(b) && |b| == 2
    ensures AllDigits(a + b) && Decimal(a + b) == Decimal(a) * 100 + Decimal(b)
  {
    PaddedIsSmall(b);
    DecimalSnoc(a, b[0]);
    DecimalSnoc(a + [b[0]], b[1]);
    assert a + b == a + [b[0]] + [b[1]];
  }

  lemma SingleDigit(c: char)
    requires IsDigit(c)
    ensures AllDigits([c]) && Decimal([c]) == c as int - '0' as int
  {
    assert [c][..0] == [];
  }

  lemma AppendOne(a: string, b: string)
    requires AllDigits(a) && AllDigits(b) && |b| == 1
    ensures AllDigits(a + b) && Decimal(a + b) == Decimal(a) * 10 + Decimal(b)
  {
    assert b == [b[0]];
    SingleDigit(b[0]);
    DecimalSnoc(a, b[0]);
  }

  lemma PaddedDenotes(frac: string)
    requires |frac| <= 2 && AllDigits(frac)
    ensures Decimal(Padded(frac)) == Decimal(frac) * UnitInCents(|frac|)
  {
    if |frac| == 0 {
      PaddedIsSmall("00");
    } else if |frac| == 1 {
      DecimalSnoc(frac, '0');
    }
  }

  lemma DollarsThenCents(dollars: string, frac: string)
    requires |frac| <= 2 && AllDigits(dollars) && AllDigits(frac)
    ensures AllDigits(dollars + frac)
    ensures Decimal(dollars) * 100 + Decimal(Padded(frac)) == Decimal(dollars + frac) * UnitInCents(|frac|)
  {
    PaddedDenotes(frac);
    if |frac| == 0 {
      assert dollars + frac == dollars;
    } else if |frac| == 1 {
      AppendOne(dollars, frac);
    } else {
      AppendTwo(dollars, frac);
    }
  }

  /** The cents accepted are the decimal value written: all the digits read as one number, times
      what a unit of the last place is worth, so "25.5" and "25.50" agree. */
  lemma AcceptedValueIsExact(s: string, dollars: string, frac: string)
    requires Reads(Body(s), dollars, frac) && Parse(s).Success?
    ensures |frac| <= 2 && AllDigits(dollars + frac)
    ensures 0 <= Parse(s).value <= MAX_CENTS
    ensures Parse(s).value == Decimal(dollars + frac) * UnitInCents(|frac|)
  {
    ParseMeans(s, dollars, frac);
    DollarsThenCents(dollars, frac);
  }

  // ----- the dollar sign -----

  /** A text that starts and ends with neither space nor a dollar sign in front. */
  ghost predicate Plain(t: string) {
    t != "" && !IsSpace(t[0]) && !IsSpace(t[|t| - 1]) && t[0] != '$'
  }

  /** One dollar sign in front, and space before it, after it and at the end, make no difference. */
  lemma DollarSignIsOptional(a: string, b: string, t: string, c: string)
    requires Blank(a) && Blank(b) && Blank(c) && Plain(t)
    ensures Body(a + "$" + b + t + c) == t && Body(a + t + c) == t
    ensures Parse(a + "$" + b + t + c) == Parse(t) == Parse(a + t + c)
  {
    var x := "$" + b + t;
    assert a + "$" + b + t + c == a + x + c && x[0] == '$' && x[|x| - 1] == t[|t| - 1];
    TrimAround(a, x, c, IsSpace);
    assert x[1..] == b + t && b + t == b + t + "";
    TrimAround(b, t, "", IsSpace);
    TrimAround(a, t, c, IsSpace);
    TrimFixpoint(t, IsSpace);
  }

  /** A second one is not a number, and neither is nothing at all. */
  lemma OneDollarSignOnly(s: string)
    requires Body(s) == "" || Body(s)[0] == '$'
    ensures Parse(s) == Failure(NotANumber)
  {
    assert Body(s) != "" ==> !IsDigit(Body(s)[0]);
    assert forall dollars, frac :: Reads(Body(s), dollars, frac) ==> Body(s)[0] == dollars[0];
    UnreadableIff(s);
  }

  lemma DoubleDollarSign(a: string, b: string, t: string, c: string)
    requires Blank(a) && Blank(b) && Blank(c) && Plain(t)
    ensures Parse(a + "$" + b + "$" + t + c) == Failure(NotANumber)
  {
    var y := "$" + t;
    var x := "$" + b + y;
    assert a + "$" + b + "$" + t + c == a + x + c && x[0] == '$' && x[|x| - 1] == t[|t| - 1];
    TrimAround(a, x, c, IsSpace);
    assert x[1..] == b + y && b + y == b + y + "" && y[|y| - 1] == t[|t| - 1];
    TrimAround(b, y, "", IsSpace);
    OneDollarSignOnly(a + "$" + b + "$" + t + c);
  }

  // ----- the printer -----

  function TwoDigits(n: nat): (s: string)
    requires n < 100
    ensures |s| == 2 && AllDigits(s)
  {
    [DigitChar(n / 10), DigitChar(n % 10)]
  }

  function FormatUSDCents(cents: int): string {
    var abs := if cents < 0 then -cents else cents;
    (if cents < 0 then "-" else "") + Digits(abs / 100) + "." + TwoDigits(abs % 100)
  }

  lemma BodyOfPlain(s: string)
    requires s != "" && !IsSpace(s[0]) && !IsSpace(s[|s| - 1]) && s[0] != '$'
    ensures Body(s) == s
  {
  }

  lemma PrintedReads(cents: nat)
    ensures var s := FormatUSDCents(cents);
      Body(s) == s && Reads(s, Digits(cents / 100), TwoDigits(cents % 100))
  {
    var s := FormatUSDCents(cents);
    assert s == Digits(cents / 100) + "." + TwoDigits(cents % 100);
    assert IsDigit(s[0]) && IsDigit(s[|s| - 1]);
    BodyOfPlain(s);
  }

  lemma NegativesAreUnreadable(cents: int)
    requires cents < 0
    ensures Parse(FormatUSDCents(cents)) == Failure(NotANumber)
  {
    var s := FormatUSDCents(cents);
    assert s == "-" + Digits((-cents) / 100) + "." + TwoDigits((-cents) % 100);
    assert s[0] == '-' && IsDigit(s[|s| - 1]);
    BodyOfPlain(s);
    assert forall dollars, frac :: Reads(s, dollars, frac) ==> dollars[0] == s[0];
    UnreadableIff(s);
  }

  lemma PrintedValue(cents: nat)
    ensures var d, f := Digits(cents / 100), TwoDigits(cents % 100);
      Padded(f) == f && Decimal(d) * 100 + Decimal(f) == cents && Decimal(d) == cents / 100
  {
    DigitsDenote(cents / 100);
    PaddedIsSmall(TwoDigits(cents % 100));
  }

  lemma ReadsBack(s: string, dollars: string, frac: string, cents: nat)
    requires Reads(Body(s), dollars, frac) && |frac| == 2
    requires Decimal(dollars) * 100 + Decimal(Padded(frac)) == cents
    ensures Parse(s) == Success(cents) <==> cents <= MAX_CENTS
  {
    ParseMeans(s, dollars, frac);
  }

  /** Printing and reading back gives the same cents exactly on the range a cap may have. */
  lemma RoundTripIff(cents: int)
    ensures Parse(FormatUSDCents(cents)) == Success(cents) <==> 0 <= cents <= MAX_CENTS
  {
    if cents < 0 {
      NegativesAreUnreadable(cents);
    } else {
      PrintedReads(cents);
      PrintedValue(cents);
      ReadsBack(FormatUSDCents(cents), Digits(cents / 100), TwoDigits(cents % 100), cents);
    }
  }
}
