// Printing fixed-point numbers as decimals, and reading them back.
module Fix16Str {
  import opened Words
  import opened Fix16
  import opened Fix16Div

  const SCALES: seq<nat> := [1, 10, 100, 1000, 10000, 100000, 100000, 100000]

  // decimals & 7
  function Scale(decimals: int): (s: nat)
    ensures 1 <= s <= 100000
  {
    SCALES[decimals % 8]
  }

  // How many decimals that are.
  function Places(decimals: int): nat { if decimals % 8 > 5 then 5 else decimals % 8 }

  // ----- decimal digits -----

  predicate IsDigit(c: char) { '0' <= c <= '9' }

  predicate IsSpace(c: char) { c == ' ' || '\t' <= c <= '\r' }

  function DigitOf(c: char): int { if IsDigit(c) then c as int - '0' as int else 0 }

  ghost predicate AllDigits(s: string) { forall i :: 0 <= i < |s| ==> IsDigit(s[i]) }

  // The number that digits stand for.
  function NumberOf(s: string): nat {
    if |s| == 0 then 0 else 10 * NumberOf(s[..|s| - 1]) + DigitOf(s[|s| - 1])
  }

  lemma NumberSnoc(s: string, c: char)
    ensures NumberOf(s + [c]) == 10 * NumberOf(s) + DigitOf(c)
  {
    assert (s + [c])[..|s|] == s;
  }

  function Pow10(k: nat): (p: nat)
    ensures 0 < p
  {
    if k == 0 then 1 else 10 * Pow10(k - 1)
  }

  lemma {:induction false} NumberBelow(s: string)
    ensures NumberOf(s) < Pow10(|s|)
  {
    if |s| > 0 { NumberBelow(s[..|s| - 1]); }
  }

  // ----- printing -----

  // The scale of a digit with m more to come, counted down to none.
  function ScaleAt(m: nat): nat
    requires m <= 5
  {
    if m == 0 then 0 else if m == 1 then 1 else if m == 2 then 10 else if m == 3 then 100 else if m == 4 then 1000
      else 10000
  }

  // So far the digits d, with m more to come for the rest of the value.
  ghost predicate Printing(total: nat, d: string, m: nat, value: nat, skip: bool) {
    && m <= 5 && AllDigits(d)
    && total == NumberOf(d) * (if m == 0 then 1 else 10 * ScaleAt(m)) + value
    && value < (if m == 0 then 1 else 10 * ScaleAt(m))
    && (skip ==> d == "" && m > 0)
  }

  // No zero leads a number of more than one digit.
  ghost predicate Leads(d: string, m: nat) { |d| > 0 && (d[0] != '0' || (|d| == 1 && m == 0)) }

  // All that holds in the loop, started with skip0 for a number of so many places.
  ghost predicate Looping(buf0: string, skip0: bool, places: nat, total: nat, buf: string, d: string, m: nat,
                          value: nat, skip: bool)
  {
    && Printing(total, d, m, value, skip) && buf == buf0 + d
    && m + |d| <= places && (if skip0 then skip || Leads(d, m) else m + |d| == places && !skip)
  }

  // itoa_loop. With skip, no zeros lead; without, there is a digit for every place.
  method ItoaLoop(buf0: string, scale0: nat, value0: nat, skip0: bool, ghost places: nat) returns (buf: string)
    requires 1 <= places <= 5 && scale0 == ScaleAt(places) && value0 < 10 * scale0
    ensures buf0 <= buf && AllDigits(buf[|buf0|..]) && NumberOf(buf[|buf0|..]) == value0
    ensures var d := buf[|buf0|..]; if skip0 then |d| <= places && Leads(d, 0) else |d| == places
  {
    var scale: nat, value: nat, skip := scale0, value0, skip0;
    buf := buf0;
    ghost var d, m: nat := "", places;
    while scale != 0
      invariant m <= places && scale == ScaleAt(m) && Looping(buf0, skip0, places, value0, buf, d, m, value, skip)
      decreases m
    {
      buf, value, skip, d := ItoaStep(buf, scale, value, skip, buf0, skip0, places, value0, d, m);
      DivideByScale(0, m);
      scale, m := scale / 10, m - 1;
    }
    assert buf[|buf0|..] == d;
  }

  // The digit at one place.
  method ItoaStep(buf0: string, scale: nat, value0: nat, skip0: bool,
          ghost start: string, ghost skipAll: bool, ghost places: nat, ghost total: nat, ghost d0: string, ghost m: nat)
    returns (buf: string, value: nat, skip: bool, ghost d: string)
    requires 1 <= m <= 5 && scale == ScaleAt(m) && Looping(start, skipAll, places, total, buf0, d0, m, value0, skip0)
    ensures Looping(start, skipAll, places, total, buf, d, m - 1, value, skip)
  {
    buf, value, skip, d := buf0, value0, skip0, d0;
    DivideByScale(value, m);
    var digit := value / scale;
    if !skip || digit != 0 || scale == 1 {
      d := PrintedDigit(total, d0, m, value, digit, skip);
      skip := false;
      buf := buf + [(digit + '0' as int) as char];
      value := value % scale;
    }
  }

  lemma DivideByScale(value: nat, m: nat)
    requires 1 <= m <= 5 && value < 10 * ScaleAt(m)
    ensures var s := ScaleAt(m); 0 <= value / s < 10 && value == value / s * s + value % s && 0 <= value % s < s
    ensures ScaleAt(m) == if m == 1 then 1 else 10 * ScaleAt(m - 1)
    ensures ScaleAt(m) / 10 == ScaleAt(m - 1)
  {
  }

  lemma PrintedDigit(total: nat, d0: string, m: nat, value: nat, digit: nat, skip: bool) returns (d: string)
    requires Printing(total, d0, m, value, skip) && 1 <= m && digit == value / ScaleAt(m)
    requires skip ==> digit != 0 || m == 1
    ensures digit < 10 && d == d0 + [(digit + '0' as int) as char]
    ensures Printing(total, d, m - 1, value % ScaleAt(m), false)
    ensures skip || Leads(d0, m) ==> Leads(d, m - 1)
  {
    DivideByScale(value, m);
    var c := (digit + '0' as int) as char;
    d := d0 + [c];
    NumberSnoc(d0, c);
    NextDigitIs(NumberOf(d0), ScaleAt(m), digit, value % ScaleAt(m));
  }

  lemma NextDigitIs(n: nat, s: nat, digit: nat, rest: nat)
    ensures n * (10 * s) + (digit * s + rest) == (10 * n + digit) * s + rest
  {
  }

  // The decimal printed: sign, digits of the whole part without leading zeros, and all
  // places after the point; together the magnitude rounded to so many places.
  ghost predicate IsPrinted(value: int, decimals: int, buf: string) {
    exists whole, frac :: PrintedAs(value, decimals, buf, whole, frac)
  }

  ghost predicate PrintedAs(value: int, decimals: int, buf: string, whole: string, frac: string) {
    && buf == (if value < 0 then "-" else "") + whole + (if Scale(decimals) > 1 then "." + frac else "")
    && AllDigits(whole) && Leads(whole, 0) && |whole| <= 5 && AllDigits(frac) && |frac| == Places(decimals)
    && NumberOf(whole) * Scale(decimals) + NumberOf(frac) == RoundedAway(Magnitude(value) * Scale(decimals), ONE)
  }

  // The fraction times the scale, rounded; a carry goes to the whole part.
  lemma FractionCarries(whole: nat, frac: nat, scale: nat)
    requires frac < ONE && 0 < scale
    ensures var f := RoundedAway(frac * scale, ONE);
      0 <= f <= scale && whole * scale + f == RoundedAway((whole * ONE + frac) * scale, ONE)
  {
    Arith.Distribute(whole * ONE, frac, scale);
    Arith.MulMono(0, frac, scale);
    Arith.MulMono(frac, ONE - 1, scale);
    var w := whole * scale;
    assert whole * ONE * scale == w * ONE;
    Arith.MulMono(0, whole, scale);
    CarryRound(w, frac * scale, scale);
  }

  lemma CarryRound(w: nat, y: nat, scale: nat)
    requires y <= 0xFFFF * scale && 0 < scale
    ensures RoundedAway(w * ONE + y, ONE) == w + RoundedAway(y, ONE) && 0 <= RoundedAway(y, ONE) <= scale
  {
  }

  // The multiplication of fix16_to_str never wraps around.
  lemma ScaleFits(frac: int, scale: int)
    requires 0 <= frac < ONE && 1 <= scale <= 100000
    ensures IsFix16(MixedSum(frac, scale)) && Product(frac * scale) == RoundedAway(frac * scale, ONE)
  {
    var hi := scale / ONE;
    assert hi == 0 || hi == 1;
    assert frac / ONE == 0 && frac % ONE == frac;
    assert 0 * (scale % ONE) == 0;
    assert hi * frac == if hi == 0 then 0 else frac;
    Arith.MulMono(0, frac, scale);
    Arith.MulMono(frac, ONE - 1, scale);
    CarryRound(0, frac * scale, scale);
  }

  lemma Places10(decimals: int)
    ensures Scale(decimals) > 1 ==> 1 <= Places(decimals) && Scale(decimals) / 10 == ScaleAt(Places(decimals))
    ensures Scale(decimals) > 1 ==> Scale(decimals) == 10 * ScaleAt(Places(decimals))
    ensures Scale(decimals) == 1 ==> Places(decimals) == 0
  {
    var k := decimals % 8;
    assert 0 <= k < 8;
  }

  // fix16_to_str
  method ToStr(value: int, decimals: int) returns (buf: string)
    requires IsFix16(value)
    ensures IsPrinted(value, decimals, buf) && |buf| <= 12
  {
    var sign := if value < 0 then "-" else "";
    var intpart, fracpart := DecimalParts(value, decimals);
    buf := ItoaLoop(sign, 10000, intpart, true, 5);
    ghost var whole, frac := buf[|sign|..], "";
    Places10(decimals);
    if Scale(decimals) != 1 {
      var before := buf + ".";
      buf := ItoaLoop(before, Scale(decimals) / 10, fracpart, false, Places(decimals));
      frac := buf[|before|..];
    }
    assert PrintedAs(value, decimals, buf, whole, frac);
  }

  // The whole and the decimal part, rounded together.
  method DecimalParts(value: int, decimals: int) returns (intpart: nat, fracpart: nat)
    requires IsFix16(value)
    ensures intpart < 100000 && fracpart < Scale(decimals)
    ensures intpart * Scale(decimals) + fracpart == RoundedAway(Magnitude(value) * Scale(decimals), ONE)
  {
    var uvalue, scale := Magnitude(value), Scale(decimals);
    var f: int := uvalue % ONE;
    intpart := uvalue / ONE;
    ScaleFits(f, scale);
    FractionCarries(intpart, f, scale);
    f := Mul(f, scale);
    if f >= scale {
      Arith.Distribute(intpart, 1, scale);
      intpart := intpart + 1;
      f := f - scale;
    }
    fracpart := f;
  }

  // ----- reading -----

  // The character at i; at the end, the end mark.
  function At(s: string, i: nat): char { if i < |s| then s[i] else '\0' }

  function SpacesEnd(s: string, i: nat): (j: nat)
    ensures i <= j && (i <= |s| ==> j <= |s|)
    decreases |s| - i
  {
    if i < |s| && IsSpace(s[i]) then SpacesEnd(s, i + 1) else i
  }

  function DigitsEnd(s: string, i: nat): (j: nat)
    ensures i <= j && (i <= |s| ==> j <= |s|)
    ensures forall k :: i <= k < j ==> k < |s| && IsDigit(s[k])
    decreases |s| - i
  {
    if i < |s| && IsDigit(s[i]) then DigitsEnd(s, i + 1) else i
  }

  // Only digits and spaces are left before the end mark.
  predicate Clean(s: string, i: nat)
    decreases |s| - i
  {
    At(s, i) == '\0' || ((IsDigit(At(s, i)) || IsSpace(At(s, i))) && Clean(s, i + 1))
  }

  // Where the sign ends, if there is one.
  function SignEnd(s: string, i: nat): (j: nat)
    ensures i <= |s| ==> j <= |s|
  {
    if At(s, i) == '+' || At(s, i) == '-' then i + 1 else i
  }

  function Min(a: int, b: int): int { if a < b then a else b }

  // Where the fraction ends: at most five digits after a point or comma count.
  function FractionEnd(s: string, to: nat): (end: nat)
    requires to <= |s|
    ensures to <= end <= |s|
  {
    if At(s, to) == '.' || At(s, to) == ',' then Min(DigitsEnd(s, to + 1), to + 6) else to
  }

  function Fraction(s: string, to: nat, end: nat): string
    requires to <= end <= |s|
  {
    if to < end then s[to + 1..end] else ""
  }

  // The whole part n and the fraction q put together in 32 bits.
  function Composed(negative: bool, n: nat, q: int): int {
    if n > 32768 || (!negative && n > 32767) then OVERFLOW else
      var value := Wrap32(Wrap32(n * ONE) + q);
      if negative then Wrap32(-value) else value
  }

  // The value of what was read: one to five digits up to 32768, and a fraction.
  function Answer(negative: bool, whole: string, frac: string): int {
    if |whole| == 0 || |whole| > 5 then OVERFLOW
    else Composed(negative, NumberOf(whole), Quotient(NumberOf(frac), Pow10(|frac|)))
  }

  // What is read of s: spaces, a sign, digits, a fraction; digits or spaces may follow.
  datatype Parts = Parts(negative: bool, whole: string, frac: string, clean: bool)

  function PartsOf(s: string): Parts {
    var i := SpacesEnd(s, 0);
    var from := SignEnd(s, i);
    var to := DigitsEnd(s, from);
    var end := FractionEnd(s, to);
    Parts(At(s, i) == '-', s[from..to], Fraction(s, to, end), Clean(s, end))
  }

  // The number written in s.
  function Parsed(s: string): int {
    var p := PartsOf(s);
    if !p.clean then OVERFLOW else Answer(p.negative, p.whole, p.frac)
  }

  // One digit more of a number read.
  lemma ReadDigit(s: string, from: nat, i: nat)
    requires from <= i < |s|
    ensures NumberOf(s[from..i + 1]) == 10 * NumberOf(s[from..i]) + DigitOf(s[i])
  {
    assert s[from..i + 1] == s[from..i] + [s[i]];
    NumberSnoc(s[from..i], s[i]);
  }

  lemma FewDigits(s: string)
    requires |s| <= 5
    ensures NumberOf(s) < 100000 && (|s| <= 4 ==> NumberOf(s) < 10000)
  {
    NumberBelow(s);
    assert Pow10(2) == 100 && Pow10(3) == 1000;
    assert Pow10(4) == 10000 && Pow10(5) == 100000;
  }

  method ReadWhole(s: string, from: nat) returns (to: nat, intpart: nat, count: nat)
    requires from <= |s|
    ensures to == DigitsEnd(s, from) <= |s| && count == to - from && intpart < HALF
    ensures count <= 5 ==> intpart == NumberOf(s[from..to])
  {
    to, intpart, count := from, 0, 0;
    while IsDigit(At(s, to))
      invariant from <= to <= |s| && DigitsEnd(s, to) == DigitsEnd(s, from) && count == to - from && intpart < HALF
      invariant count <= 5 ==> intpart == NumberOf(s[from..to])
      decreases |s| - to
    {
      intpart := NextWhole(s, from, to, intpart);
      to, count := to + 1, count + 1;
    }
  }

  method NextWhole(s: string, from: nat, to: nat, intpart0: nat) returns (intpart: nat)
    requires from <= to < |s| && intpart0 < HALF && IsDigit(s[to])
    requires to - from <= 5 ==> intpart0 == NumberOf(s[from..to])
    ensures intpart < HALF && (to - from <= 4 ==> intpart == NumberOf(s[from..to + 1]))
  {
    ReadDigit(s, from, to);
    if to - from <= 4 { FewDigits(s[from..to]); }
    intpart := intpart0 * 10 % HALF;
    intpart := (intpart + DigitOf(s[to])) % HALF;
  }

  method ReadFraction(s: string, from: nat) returns (end: nat, fracpart: nat, scale: nat)
    requires from <= |s|
    ensures end == Min(DigitsEnd(s, from), from + 5) && from <= end <= |s|
    ensures fracpart == NumberOf(s[from..end]) < 100000 && scale == Pow10(end - from) <= 100000
  {
    end, fracpart, scale := from, 0, 1;
    ghost var m := 0;
    assert Pow10(2) == 100 && Pow10(3) == 1000;
    assert Pow10(4) == 10000 && Pow10(5) == 100000;
    while IsDigit(At(s, end)) && scale < 100000
      invariant from <= end <= |s| && m == end - from <= 5 && DigitsEnd(s, end) == DigitsEnd(s, from)
      invariant fracpart == NumberOf(s[from..end]) && scale == Pow10(m)
      decreases |s| - end
    {
      ReadDigit(s, from, end);
      scale := scale * 10;
      fracpart := fracpart * 10;
      fracpart := fracpart + DigitOf(s[end]);
      end, m := end + 1, m + 1;
    }
    FewDigits(s[from..end]);
  }

  method OnlyDigitsAndSpaces(s: string, from: nat) returns (clean: bool)
    ensures clean == Clean(s, from)
  {
    var i := from;
    while At(s, i) != '\0'
      invariant from <= i && Clean(s, i) == Clean(s, from)
      decreases |s| - i
    {
      if !IsDigit(s[i]) && !IsSpace(s[i]) { return false; }
      i := i + 1;
    }
    clean := true;
  }

  method SkipSpaces(s: string) returns (i: nat)
    ensures i == SpacesEnd(s, 0) <= |s|
  {
    i := 0;
    while IsSpace(At(s, i))
      invariant i <= |s| && SpacesEnd(s, i) == SpacesEnd(s, 0)
      decreases |s| - i
    {
      i := i + 1;
    }
  }

  // fix16_from_str
  method FromStr(s: string) returns (r: int)
    ensures r == Parsed(s)
  {
    var i := SkipSpaces(s);
    var negative := At(s, i) == '-';
    if At(s, i) == '+' || At(s, i) == '-' { i := i + 1; }
    var to, intpart, count := ReadWhole(s, i);
    r := FromWhole(s, negative, to, intpart, count, s[i..to]);
  }

  // The checks of the whole part, and the rest of the text.
  method FromWhole(s: string, negative: bool, to: nat, intpart: nat, count: nat, ghost whole: string) returns (r: int)
    requires to <= |s| && count == |whole| && (count <= 5 ==> intpart == NumberOf(whole))
    ensures var end := FractionEnd(s, to);
      r == if !Clean(s, end) then OVERFLOW else Answer(negative, whole, Fraction(s, to, end))
  {
    if count == 0 || count > 5 || intpart > 32768 || (!negative && intpart > 32767) { return OVERFLOW; }
    var value := Wrap32(intpart * ONE);
    var end, d := AddFraction(s, to);
    value := Wrap32(value + d);
    var clean := OnlyDigitsAndSpaces(s, end);
    if !clean { return OVERFLOW; }
    r := if negative then Wrap32(-value) else value;
  }

  // What the fraction adds, if there is one.
  method AddFraction(s: string, to: nat) returns (end: nat, d: int)
    requires to <= |s|
    ensures end == FractionEnd(s, to) && d == Quotient(NumberOf(Fraction(s, to, end)), Pow10(|Fraction(s, to, end)|))
  {
    end, d := to, 0;
    if At(s, to) == '.' || At(s, to) == ',' {
      var fracpart, scale;
      end, fracpart, scale := ReadFraction(s, to + 1);
      d := Div(fracpart, scale);
    }
  }

  // ----- what is printed is read back -----

  lemma {:induction false} DigitsRun(s: string, i: nat, j: nat)
    requires i <= j <= |s| && AllDigits(s[i..j]) && !IsDigit(At(s, j))
    ensures DigitsEnd(s, i) == j
    decreases j - i
  {
    if i < j {
      assert s[i] == s[i..j][0] && s[i + 1..j] == s[i..j][1..];
      DigitsRun(s, i + 1, j);
    }
  }

  // Clean means what it says: all up to the end mark are digits or spaces.
  lemma {:induction false} CleanIff(s: string, i: nat)
    requires i <= |s| && forall k :: i <= k < |s| ==> s[k] != '\0'
    ensures Clean(s, i) <==> forall k :: i <= k < |s| ==> IsDigit(s[k]) || IsSpace(s[k])
    decreases |s| - i
  {
    if i < |s| { CleanIff(s, i + 1); }
  }

  // The parts of a text: spaces, a sign, digits, at most five more after a point or comma,
  // each as long as can be, and the rest.
  ghost predicate Splits(s: string, spaces: string, sign: string, whole: string, point: string, frac: string,
                         rest: string) {
    && s == spaces + (sign + (whole + (point + (frac + rest))))
    && (forall i :: 0 <= i < |spaces| ==> IsSpace(spaces[i]))
    && (sign == "" || sign == "+" || sign == "-") && (point == "" || point == "." || point == ",")
    && AllDigits(whole) && AllDigits(frac) && |frac| <= 5
    && var next := At(whole + (point + (frac + rest)), 0);
    && (sign == "" ==> !IsSpace(next) && next != '+' && next != '-')
    && !IsDigit(At(point + (frac + rest), 0))
    && (point == "" ==> frac == "" && At(rest, 0) != '.' && At(rest, 0) != ',')
    && (point != "" && |frac| < 5 ==> !IsDigit(At(rest, 0)))
  }

  lemma {:induction false} SpacesFrom(s: string, i: nat, j: nat)
    requires i <= j <= |s| && (forall k :: i <= k < j ==> IsSpace(s[k])) && !IsSpace(At(s, j))
    ensures SpacesEnd(s, i) == j
    decreases j - i
  {
    if i < j { SpacesFrom(s, i + 1, j); }
  }

  // The number read from any text, part by part: it is that of the digits if digits and
  // spaces are all that is left.
  lemma ParsedText(s: string, spaces: string, sign: string, whole: string, point: string, frac: string, rest: string)
    requires Splits(s, spaces, sign, whole, point, frac, rest)
    requires forall i :: 0 <= i < |rest| ==> rest[i] != '\0'
    ensures Parsed(s) == if DigitsAndSpaces(rest) then Answer(sign == "-", whole, frac) else OVERFLOW
  {
    TextParts(s, spaces, sign, whole, point, frac, rest);
  }

  lemma TextParts(s: string, spaces: string, sign: string, whole: string, point: string, frac: string, rest: string)
    requires Splits(s, spaces, sign, whole, point, frac, rest)
    requires forall i :: 0 <= i < |rest| ==> rest[i] != '\0'
    ensures PartsOf(s) == Parts(sign == "-", whole, frac, DigitsAndSpaces(rest))
  {
    var i := |spaces|;
    var from := i + |sign|;
    var to := from + |whole|;
    var end := to + |point| + |frac|;
    var next := whole + (point + (frac + rest));
    Suffix(s, 0, spaces, sign + next);
    SignRuns(s, i, from, sign, next);
    SpacesRun(s, i, spaces);
    WholeRuns(s, from, to, whole, point + (frac + rest));
    FractionRuns(s, to, end, point, frac, rest);
    CleanRest(s, end, rest);
  }

  ghost predicate DigitsAndSpaces(s: string) { forall i :: 0 <= i < |s| ==> IsDigit(s[i]) || IsSpace(s[i]) }

  lemma Suffix(s: string, i: nat, p: string, q: string)
    requires i <= |s| && s[i..] == p + q
    ensures i + |p| <= |s| && s[i..i + |p|] == p && s[i + |p|..] == q && At(s, i + |p|) == At(q, 0)
    ensures |p| > 0 ==> At(s, i) == p[0]
  {
    assert s == s[..i] + p + q;
    assert |p| > 0 ==> s[i] == s[i..][0];
  }

  lemma SpacesRun(s: string, j: nat, spaces: string)
    requires j <= |s| && s[..j] == spaces && (forall k :: 0 <= k < j ==> IsSpace(spaces[k])) && !IsSpace(At(s, j))
    ensures SpacesEnd(s, 0) == j
  {
    assert forall k :: 0 <= k < j ==> s[k] == spaces[k];
    SpacesFrom(s, 0, j);
  }

  lemma SignRuns(s: string, i: nat, from: nat, sign: string, next: string)
    requires i <= |s| && from == i + |sign| && s[i..] == sign + next && (sign == "" || sign == "+" || sign == "-")
    requires sign == "" ==> !IsSpace(At(next, 0)) && At(next, 0) != '+' && At(next, 0) != '-'
    ensures SignEnd(s, i) == from <= |s| && (At(s, i) == '-' <==> sign == "-") && !IsSpace(At(s, i))
    ensures s[from..] == next
  {
    Suffix(s, i, sign, next);
  }

  lemma WholeRuns(s: string, from: nat, to: nat, whole: string, next: string)
    requires from <= |s| && to == from + |whole| && s[from..] == whole + next
    requires AllDigits(whole) && !IsDigit(At(next, 0))
    ensures DigitsEnd(s, from) == to <= |s| && s[from..to] == whole && s[to..] == next
  {
    Suffix(s, from, whole, next);
    DigitsRun(s, from, to);
  }

  lemma CleanRest(s: string, end: nat, rest: string)
    requires end <= |s| && s[end..] == rest && forall i :: 0 <= i < |rest| ==> rest[i] != '\0'
    ensures Clean(s, end) <==> DigitsAndSpaces(rest)
  {
    assert forall k :: end <= k < |s| ==> s[k] == rest[k - end];
    assert forall i :: 0 <= i < |rest| ==> rest[i] == s[end + i];
    CleanIff(s, end);
  }

  lemma FractionRuns(s: string, to: nat, end: nat, point: string, frac: string, rest: string)
    requires to <= |s| && s[to..] == point + (frac + rest) && end == to + |point| + |frac|
    requires (point == "" || point == "." || point == ",") && AllDigits(frac) && |frac| <= 5
    requires point == "" ==> frac == "" && At(rest, 0) != '.' && At(rest, 0) != ','
    requires point != "" && |frac| < 5 ==> !IsDigit(At(rest, 0))
    ensures end <= |s| && FractionEnd(s, to) == end && Fraction(s, to, end) == frac && s[end..] == rest
  {
    Suffix(s, to, point, frac + rest);
    Suffix(s, to + |point|, frac, rest);
    if point != "" {
      if |frac| < 5 {
        DigitsRun(s, to + 1, end);
      } else {
        DigitsAtLeast(s, to + 1, end);
      }
    }
  }

  lemma {:induction false} DigitsAtLeast(s: string, i: nat, j: nat)
    requires i <= j <= |s| && AllDigits(s[i..j])
    ensures DigitsEnd(s, i) >= j
    decreases j - i
  {
    if i < j {
      assert s[i] == s[i..j][0] && s[i + 1..j] == s[i..j][1..];
      DigitsAtLeast(s, i + 1, j);
    }
  }

  // What the parser makes of a number written without spaces, with up to five decimals: the
  // nearest fixed-point number, as long as it is not beyond -32768.
  lemma ParsedDecimal(negative: bool, whole: string, frac: string, s: string)
    requires s == (if negative then "-" else "") + whole + "." + frac
    requires AllDigits(whole) && 1 <= |whole| && AllDigits(frac) && |frac| <= 5
    ensures Parsed(s) == Answer(negative, whole, frac)
  {
    var from := if negative then 1 else 0;
    var to := from + |whole|;
    Pieces(negative, whole, frac, s);
    DigitsRun(s, from, to);
    DigitsRun(s, to + 1, |s|);
  }

  lemma Pieces(negative: bool, whole: string, frac: string, s: string)
    requires s == (if negative then "-" else "") + whole + "." + frac && |whole| > 0
    ensures var from := if negative then 1 else 0; var to := from + |whole|;
      && |s| == to + 1 + |frac| && s[from..to] == whole && s[to] == '.' && s[to + 1..|s|] == frac
      && (if negative then s[0] == '-' else s[0] == whole[0])
  {
  }

  // Five decimals are enough: for every number, reading what was printed gives it back.
  lemma RoundTrip(v: int, decimals: int, s: string)
    requires IsFix16(v) && Places(decimals) == 5 && IsPrinted(v, decimals, s)
    ensures Parsed(s) == v
  {
    var whole, frac :| PrintedAs(v, decimals, s, whole, frac);
    var n, f := Magnitude(v) / ONE, Magnitude(v) % ONE;
    PartsBack(v, n, f, NumberOf(whole), NumberOf(frac), frac);
    FractionBack(f);
    ParsedDecimal(v < 0, whole, frac, s);
    Pow10Five();
    SignsBack(v, n, f);
  }

  lemma PartsBack(v: int, n: nat, f: nat, n': nat, g': nat, frac: string)
    requires Magnitude(v) == n * ONE + f && f < ONE && |frac| == 5 && g' == NumberOf(frac)
    requires n' * 100000 + g' == RoundedAway(Magnitude(v) * 100000, ONE)
    ensures n' == n && g' == RoundedAway(f * 100000, ONE)
  {
    FewDigits(frac);
    FractionCarries(n, f, 100000);
    FractionBack(f);
  }

  lemma Pow10Five()
    ensures Pow10(5) == 100000
  {
    assert Pow10(3) == 1000;
  }

  lemma FractionBack(f: int)
    requires 0 <= f < ONE
    ensures var g := RoundedAway(f * 100000, ONE); 0 <= g < 100000 && Quotient(g, 100000) == f
  {
  }

  lemma SignsBack(v: int, n: int, f: int)
    requires IsFix16(v) && Magnitude(v) == n * ONE + f && 0 <= f < ONE
    ensures n <= 32768 && (v >= 0 ==> n <= 32767)
    ensures v == Composed(v < 0, n, f)
  {
  }

  // What is read is the nearest number exactly when it is within range; a negative one beyond
  // -32768, whose whole part still passes the checks, wraps around and comes out positive.
  lemma AnswerRightIff(negative: bool, whole: string, frac: string)
    requires AllDigits(whole) && AllDigits(frac) && |frac| <= 5
    ensures |whole| == 0 || |whole| > 5 ==> Answer(negative, whole, frac) == OVERFLOW
    ensures 1 <= |whole| <= 5 ==>
      var n, q := NumberOf(whole), Quotient(NumberOf(frac), Pow10(|frac|));
      && 0 <= q <= ONE
      && (n > 32768 || (!negative && n == 32768) ==> Answer(negative, whole, frac) == OVERFLOW)
      && (Answer(negative, whole, frac) == (if negative then -(n * ONE + q) else n * ONE + q) <==>
           n * ONE + q <= if negative then 0x8000_0000 else 0x7FFF_FFFF)
      && (negative && n == 32768 && q > 0 ==> Answer(negative, whole, frac) > 0)
  {
    FractionOfOne(frac);
    InRange(negative, NumberOf(whole), Quotient(NumberOf(frac), Pow10(|frac|)));
  }

  lemma InRange(negative: bool, n: nat, q: nat)
    requires q < ONE
    ensures var exact := if negative then -(n * ONE + q) else n * ONE + q;
      && (Composed(negative, n, q) == exact <==> n * ONE + q <= if negative then 0x8000_0000 else 0x7FFF_FFFF)
      && (negative && n == 32768 && q > 0 ==> Composed(negative, n, q) > 0)
  {
  }

  lemma FractionOfOne(frac: string)
    requires |frac| <= 5 && AllDigits(frac)
    ensures 0 <= Quotient(NumberOf(frac), Pow10(|frac|)) < ONE
  {
    NumberBelow(frac);
    Pow10AtMost(|frac|);
    QuotientBelow(NumberOf(frac), Pow10(|frac|));
  }

  lemma Pow10AtMost(k: nat)
    requires k <= 5
    ensures Pow10(k) <= 100000
  {
    assert Pow10(2) == 100 && Pow10(3) == 1000;
    assert Pow10(4) == 10000 && Pow10(5) == 100000;
  }

  lemma QuotientBelow(g: nat, p: nat)
    requires g < p <= 100000
    ensures 0 <= Quotient(g, p) < ONE
  {
    Arith.Twice(ONE, p);
    Arith.DivBelow(2 * (g * ONE) + p, 2 * p, ONE);
  }

  lemma DigitsOf(a: char, b: char, c: char, d: char, e: char)
    ensures NumberOf([a, b, c, d, e]) ==
      10000 * DigitOf(a) + 1000 * DigitOf(b) + 100 * DigitOf(c) + 10 * DigitOf(d) + DigitOf(e)
    ensures NumberOf([e]) == DigitOf(e)
  {
    NumberSnoc([], a);
    NumberSnoc([], e);
    NumberSnoc([a], b);
    NumberSnoc([a, b], c);
    NumberSnoc([a, b, c], d);
    NumberSnoc([a, b, c, d], e);
    assert [] + [a] == [a] && [] + [e] == [e] && [a] + [b] == [a, b] && [a, b] + [c] == [a, b, c];
    assert [a, b, c] + [d] == [a, b, c, d] && [a, b, c, d] + [e] == [a, b, c, d, e];
  }

  lemma TooNegative()
    ensures Parsed("-32768.5") == 0x7FFF_8000
  {
    AnswerTooNegative();
    ParsedDecimal(true, ['3', '2', '7', '6', '8'], ['5'], "-32768.5");
  }

  lemma AnswerTooNegative()
    ensures Answer(true, ['3', '2', '7', '6', '8'], ['5']) == 0x7FFF_8000
  {
    DigitsOf('3', '2', '7', '6', '8');
    DigitsOf('0', '0', '0', '0', '5');
    assert Pow10(1) == 10 && Quotient(5, 10) == 0x8000;
  }
}
