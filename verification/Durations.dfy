/** parseDurationString: week, day, month and year counts in int64 nanoseconds. */
module Durations {
  import opened Options

  const HOUR := 3_600_000_000_000
  const TWO24 := 0x100_0000
  const TWO63 := 0x8000_0000_0000_0000
  const TWO64 := 0x1_0000_0000_0000_0000
  const MAX_HOURS := 2_562_047

  /** What is left to the Go library and to the machine: number texts that are not plain decimal integers (with the
      hours of the unit), clock units, and the value of a float conversion outside int64. */
  datatype Platform = Platform(scaled: (string, nat) -> Option<int>, clock: string -> Option<int>, overflow: int)

  ghost predicate Sane(p: Platform) {
    -TWO63 <= p.overflow < TWO63
  }

  predicate IsSpace(c: char) {
    c in {'\t', '\n', '\U{0B}', '\U{0C}', '\r', ' ', '\U{85}', '\U{A0}', '\U{1680}', '\U{2028}', '\U{2029}',
          '\U{202F}', '\U{205F}', '\U{3000}'} || '\U{2000}' <= c <= '\U{200A}'
  }

  function Trim(s: string, space: char -> bool): string {
    if s == [] then s
    else if space(s[0]) then Trim(s[1..], space)
    else if space(s[|s| - 1]) then Trim(s[..|s| - 1], space)
    else s
  }

  /** strings.TrimSpace. */
  function TrimSpace(s: string): string {
    Trim(s, IsSpace)
  }

  predicate IsDecimal(s: string) {
    s != [] && forall i :: 0 <= i < |s| ==> '0' <= s[i] <= '9'
  }

  function Decimal(s: string): nat
    requires forall i :: 0 <= i < |s| ==> '0' <= s[i] <= '9'
  {
    if s == [] then 0 else 10 * Decimal(s[..|s| - 1]) + (s[|s| - 1] as int - '0' as int)
  }

  /** The spacing of float32 values around k: 24 significant bits. */
  function Ulp(k: nat): (u: nat)
    ensures u >= 1
  {
    if k < TWO24 then 1 else 2 * Ulp(k / 2)
  }

  /** q + r / u to the nearest integer, ties to even. */
  function HalfEven(q: nat, r: nat, u: nat): nat {
    if 2 * r > u || (2 * r == u && q % 2 == 1) then q + 1 else q
  }

  /** strconv.ParseFloat(.., 32) on an integer. */
  function Float32(k: nat): nat {
    HalfEven(k / Ulp(k), k % Ulp(k), Ulp(k)) * Ulp(k)
  }

  /** The largest float32; a value that rounds beyond it is a range error. */
  const MAX_FLOAT32 := 0xFF_FFFF * 0x1_0000_0000_0000_0000_0000_0000_00

  function Wrap(x: int): int {
    (x + TWO63) % TWO64 - TWO63
  }

  /** `hours` hours per unit, k units. The float64 products are exact: 24 bits times at most 14. */
  function Scale(k: nat, hours: nat, p: Platform): Option<int> {
    var f := Float32(k);
    if f > MAX_FLOAT32 then None
    else
      var h := if f * hours < TWO63 then f * hours else p.overflow;
      Some(Wrap(h * HOUR))
  }

  function UnitHours(c: char): Option<nat> {
    if c == 'w' || c == 'W' then Some(7 * 24)
    else if c == 'd' || c == 'D' then Some(24)
    else if c == 'M' then Some(24 * 30)
    else if c == 'y' || c == 'Y' then Some(24 * 365)
    else None
  }

  function ParseDuration(text: string, p: Platform): Option<int> {
    var s := TrimSpace(text);
    if s == [] then Some(0)
    else
      var number, unit := s[..|s| - 1], s[|s| - 1];
      if UnitHours(unit).Some? then
        if IsDecimal(number) then Scale(Decimal(number), UnitHours(unit).value, p)
        else p.scaled(number, UnitHours(unit).value)
      else if unit in {'s', 'S', 'm', 'h', 'H'} then p.clock(s)
      else None
  }

  method ParseDurationString(text: string, p: Platform) returns (duration: Option<int>)
    ensures duration == ParseDuration(text, p)
  {
    var dstr := TrimSpace(text);
    duration := Some(0);
    if |dstr| == 0 {
      return;
    }
    var number, unit := dstr[..|dstr| - 1], dstr[|dstr| - 1];
    if unit == 'w' || unit == 'W' {
      duration := if IsDecimal(number) then Scale(Decimal(number), 7 * 24, p) else p.scaled(number, 7 * 24);
    } else if unit == 'd' || unit == 'D' {
      duration := if IsDecimal(number) then Scale(Decimal(number), 24, p) else p.scaled(number, 24);
    } else if unit == 'M' {
      duration := if IsDecimal(number) then Scale(Decimal(number), 24 * 30, p) else p.scaled(number, 24 * 30);
    } else if unit == 'y' || unit == 'Y' {
      duration := if IsDecimal(number) then Scale(Decimal(number), 24 * 365, p) else p.scaled(number, 24 * 365);
    } else if unit in {'s', 'S', 'm', 'h', 'H'} {
      duration := p.clock(dstr);
    } else {
      duration := None;
    }
  }

  lemma {:induction false} WrapInRange(x: int)
    ensures -TWO63 <= Wrap(x) < TWO63
    ensures -TWO63 <= x < TWO63 ==> Wrap(x) == x
  {
  }

  lemma SmallIsExact(k: nat, hours: nat)
    requires hours >= 24 && k * hours <= MAX_HOURS
    ensures Float32(k) == k
  {
    assert k * 24 <= k * hours;
    assert Ulp(k) == 1;
  }

  lemma ScaleIsInt64(k: nat, hours: nat, p: Platform)
    ensures var r := Scale(k, hours, p); r.Some? ==> -TWO63 <= r.value < TWO63
  {
    var f := Float32(k);
    WrapInRange((if f * hours < TWO63 then f * hours else p.overflow) * HOUR);
  }

  lemma ScaleExact(k: nat, hours: nat, p: Platform)
    requires hours in {24, 168, 720, 8760} && Sane(p)
    ensures Scale(k, hours, p) == Some(k * hours * HOUR) <==> k * hours <= MAX_HOURS
  {
    if k * hours <= MAX_HOURS {
      SmallIsExact(k, hours);
      WrapInRange(k * hours * HOUR);
    } else {
      ScaleIsInt64(k, hours, p);
    }
  }

  lemma NothingToTrim(digits: string, unit: char)
    requires IsDecimal(digits) && UnitHours(unit).Some?
    ensures var s := digits + [unit]; TrimSpace(s) == s && s[..|s| - 1] == digits && s[|s| - 1] == unit
  {
  }

  /** For a decimal integer k and a unit, the duration is exact if and only if its hours fit:
      2562047 hours, that is 15250 weeks, 106751 days, 3558 months or 292 years. */
  lemma ExactIffInRange(digits: string, unit: char, p: Platform)
    requires IsDecimal(digits) && UnitHours(unit).Some? && Sane(p)
    ensures var exact := Decimal(digits) * UnitHours(unit).value;
            ParseDuration(digits + [unit], p) == Some(exact * HOUR) <==> exact <= MAX_HOURS
  {
    NothingToTrim(digits, unit);
    var k, hours := Decimal(digits), UnitHours(unit).value;
    ScaleExact(k, hours, p);
  }

  function Hours(digits: string, unit: char): nat
    requires IsDecimal(digits) && UnitHours(unit).Some?
  {
    Decimal(digits) * UnitHours(unit).value
  }

  /** In range, durations compare as their hours do, across units: more of a unit is longer, and so
      k weeks are 7k days, k months 30k days, k years 365k days. */
  lemma DurationsCompare(a: string, u: char, b: string, v: char, p: Platform)
    requires IsDecimal(a) && IsDecimal(b) && UnitHours(u).Some? && UnitHours(v).Some? && Sane(p)
    requires Hours(a, u) <= MAX_HOURS && Hours(b, v) <= MAX_HOURS
    ensures var x, y := ParseDuration(a + [u], p), ParseDuration(b + [v], p);
            && x.Some? && y.Some?
            && (x.value == y.value <==> Hours(a, u) == Hours(b, v))
            && (x.value < y.value <==> Hours(a, u) < Hours(b, v))
  {
    ExactIffInRange(a, u, p);
    ExactIffInRange(b, v, p);
  }

  // ---- The units in nanoseconds ----

  lemma UnitIs(digits: string, unit: char, hours: nat, p: Platform)
    requires IsDecimal(digits) && UnitHours(unit) == Some(hours) && Sane(p)
    ensures ParseDuration(digits + [unit], p) == Some(Decimal(digits) * hours * HOUR) <==>
              Decimal(digits) * hours <= MAX_HOURS
  {
    ExactIffInRange(digits, unit, p);
  }

  /** Weeks, in either letter case. */
  lemma Weeks(digits: string, p: Platform)
    requires IsDecimal(digits) && Sane(p)
    ensures ParseDuration(digits + "w", p) == ParseDuration(digits + "W", p)
    ensures ParseDuration(digits + "w", p) == Some(Decimal(digits) * 604_800_000_000_000) <==> Decimal(digits) <= 15_250
  {
    UnitIs(digits, 'w', 168, p);
    NothingToTrim(digits, 'w');
    NothingToTrim(digits, 'W');
  }

  /** Days, in either letter case. */
  lemma Days(digits: string, p: Platform)
    requires IsDecimal(digits) && Sane(p)
    ensures ParseDuration(digits + "d", p) == ParseDuration(digits + "D", p)
    ensures ParseDuration(digits + "d", p) == Some(Decimal(digits) * 86_400_000_000_000) <==> Decimal(digits) <= 106_751
  {
    UnitIs(digits, 'd', 24, p);
    NothingToTrim(digits, 'd');
    NothingToTrim(digits, 'D');
  }

  /** Months of 30 days; only the capital letter. */
  lemma Months(digits: string, p: Platform)
    requires IsDecimal(digits) && Sane(p)
    ensures ParseDuration(digits + "M", p) == Some(Decimal(digits) * 2_592_000_000_000_000) <==>
              Decimal(digits) <= 3_558
  {
    UnitIs(digits, 'M', 720, p);
  }

  /** Years of 365 days, in either letter case. */
  lemma Years(digits: string, p: Platform)
    requires IsDecimal(digits) && Sane(p)
    ensures ParseDuration(digits + "y", p) == ParseDuration(digits + "Y", p)
    ensures ParseDuration(digits + "y", p) == Some(Decimal(digits) * 31_536_000_000_000_000) <==> Decimal(digits) <= 292
  {
    UnitIs(digits, 'y', 8760, p);
    NothingToTrim(digits, 'y');
    NothingToTrim(digits, 'Y');
  }

  /** A week is 7 days, a month 30 and a year 365, as far as the days are in range. */
  lemma WeekIsSevenDays(a: string, b: string, p: Platform)
    requires IsDecimal(a) && IsDecimal(b) && Sane(p) && Decimal(b) == 7 * Decimal(a) <= 106_751
    ensures ParseDuration(a + "w", p) == ParseDuration(b + "d", p)
  {
    var k, d := Decimal(a), Decimal(b);
    assert k <= 15_250 && k * 604_800_000_000_000 == d * 86_400_000_000_000;
    Weeks(a, p);
    Days(b, p);
  }

  lemma MonthIsThirtyDays(a: string, b: string, p: Platform)
    requires IsDecimal(a) && IsDecimal(b) && Sane(p) && Decimal(b) == 30 * Decimal(a) <= 106_751
    ensures ParseDuration(a + "M", p) == ParseDuration(b + "d", p)
  {
    var k, d := Decimal(a), Decimal(b);
    assert k <= 3_558 && k * 2_592_000_000_000_000 == d * 86_400_000_000_000;
    Months(a, p);
    Days(b, p);
  }

  lemma YearIs365Days(a: string, b: string, p: Platform)
    requires IsDecimal(a) && IsDecimal(b) && Sane(p) && Decimal(b) == 365 * Decimal(a) <= 106_751
    ensures ParseDuration(a + "y", p) == ParseDuration(b + "d", p)
  {
    var k, d := Decimal(a), Decimal(b);
    assert k <= 292 && k * 31_536_000_000_000_000 == d * 86_400_000_000_000;
    Years(a, p);
    Days(b, p);
  }

  // ---- Decimal numbers ----

  /** The decimal digits of a number. */
  function Digits(n: nat): (s: string)
    ensures IsDecimal(s)
  {
    var last := ['0' + (n % 10) as char];
    if n < 10 then last else Digits(n / 10) + last
  }

  /** Every number is read from its digits, so the statements about durations cover every count. */
  lemma {:induction false} DecimalOfDigits(n: nat)
    ensures Decimal(Digits(n)) == n
  {
    var s := Digits(n);
    if n < 10 {
      assert s[..0] == "";
    } else {
      DecimalOfDigits(n / 10);
      assert s[..|s| - 1] == Digits(n / 10);
    }
  }

  lemma DecimalPlaces(s: string, c: char)
    requires forall i :: 0 <= i < |s| ==> '0' <= s[i] <= '9'
    requires '0' <= c <= '9'
    ensures forall i :: 0 <= i < |s + [c]| ==> '0' <= (s + [c])[i] <= '9'
    ensures Decimal(s + [c]) == 10 * Decimal(s) + Decimal([c]) && Decimal([c]) == c as int - '0' as int
  {
    assert (s + [c])[..|s|] == s && [c][..0] == "";
  }

  // ---- Spaces ----

  predicate AllSpace(s: string, space: char -> bool) {
    forall i :: 0 <= i < |s| ==> space(s[i])
  }

  lemma AllSpaceConcat(a: string, b: string, space: char -> bool)
    requires AllSpace(a, space) && AllSpace(b, space)
    ensures AllSpace(a + b, space)
  {
  }

  lemma FrontTrimmed(s: string, space: char -> bool, i: nat, j: nat)
    requires s != [] && space(s[0]) && i <= j <= |s| - 1
    requires AllSpace(s[1..][..i], space) && AllSpace(s[1..][j..], space)
    ensures s[1..][i..j] == s[i + 1..j + 1] && AllSpace(s[..i + 1], space) && AllSpace(s[j + 1..], space)
  {
    AllSpaceConcat([s[0]], s[1..][..i], space);
    assert s[..i + 1] == [s[0]] + s[1..][..i] && s[j + 1..] == s[1..][j..];
  }

  lemma BackTrimmed(s: string, space: char -> bool, i: nat, j: nat)
    requires s != [] && space(s[|s| - 1]) && i <= j <= |s| - 1
    requires AllSpace(s[..|s| - 1][..i], space) && AllSpace(s[..|s| - 1][j..], space)
    ensures s[..|s| - 1][i..j] == s[i..j] && AllSpace(s[..i], space) && AllSpace(s[j..], space)
  {
    var init := s[..|s| - 1];
    AllSpaceConcat(init[j..], [s[|s| - 1]], space);
    assert s[..i] == init[..i] && s[j..] == init[j..] + [s[|s| - 1]];
  }

  /** What is trimmed: spaces at both ends, and all of them. */
  lemma {:induction false} TrimmedEnds(s: string, space: char -> bool) returns (i: nat, j: nat)
    ensures i <= j <= |s| && Trim(s, space) == s[i..j] && AllSpace(s[..i], space) && AllSpace(s[j..], space)
    ensures i < j ==> !space(s[i]) && !space(s[j - 1])
    decreases |s|
  {
    if s == [] {
      i, j := 0, 0;
    } else if space(s[0]) {
      i, j := TrimmedEnds(s[1..], space);
      FrontTrimmed(s, space, i, j);
      i, j := i + 1, j + 1;
    } else if space(s[|s| - 1]) {
      i, j := TrimmedEnds(s[..|s| - 1], space);
      BackTrimmed(s, space, i, j);
    } else {
      i, j := 0, |s|;
    }
  }

  lemma AsciiSpaces(c: char)
    requires c as int < 128
    ensures IsSpace(c) <==> c as int in {9, 10, 11, 12, 13, 32}
  {
  }

  lemma NothingToTrimAfter(digits: string, unit: char)
    requires IsDecimal(digits) && !IsSpace(unit)
    ensures var s := digits + [unit]; TrimSpace(s) == s && s[|s| - 1] == unit
  {
  }

  lemma {:induction false} BlankTrims(s: string, space: char -> bool)
    requires AllSpace(s, space)
    ensures Trim(s, space) == ""
  {
    if s != [] {
      BlankTrims(s[1..], space);
    }
  }

  /** A text without anything but spaces means no limit. */
  lemma BlankIsZero(s: string, p: Platform)
    requires AllSpace(s, IsSpace)
    ensures ParseDuration(s, p) == Some(0)
  {
    BlankTrims(s, IsSpace);
  }

  /** The last letter decides: a day count, a clock text for the Go library, or an error. */
  lemma UnitsKnown(s: string, unit: char, p: Platform)
    requires TrimSpace(s + [unit]) == s + [unit]
    ensures unit in "sSmhH" ==> ParseDuration(s + [unit], p) == p.clock(s + [unit])
    ensures unit !in "wWdDMyYsSmhH" ==> ParseDuration(s + [unit], p) == None
  {
  }

  /** A number text that is not a plain decimal integer is scaled by the same hours. */
  lemma OtherNumbers(number: string, unit: char, p: Platform)
    requires !IsDecimal(number) && TrimSpace(number + [unit]) == number + [unit]
    ensures unit in "wW" ==> ParseDuration(number + [unit], p) == p.scaled(number, 168)
    ensures unit in "dD" ==> ParseDuration(number + [unit], p) == p.scaled(number, 24)
    ensures unit == 'M' ==> ParseDuration(number + [unit], p) == p.scaled(number, 720)
    ensures unit in "yY" ==> ParseDuration(number + [unit], p) == p.scaled(number, 8760)
  {
    var s := number + [unit];
    assert s[..|s| - 1] == number && s[|s| - 1] == unit;
  }

  // ---- Rounding and overflow ----

  /** The hours that int64 nanoseconds can hold. */
  lemma LargestHours()
    ensures MAX_HOURS * HOUR < 9_223_372_036_854_775_808 <= (MAX_HOURS + 1) * HOUR && HOUR == 3_600 * 1_000_000_000
  {
  }

  lemma Distribute(a: int, b: int, d: int)
    ensures (a - b) * d == a * d - b * d
  {
  }

  lemma AtLeastOnce(n: int, d: nat)
    requires n >= 1
    ensures n * d >= d
  {
  }

  lemma QuotientUnique(d: nat, q: int, r: int, q': int, r': int)
    requires q * d + r == q' * d + r' && 0 <= r < d && 0 <= r' < d
    ensures q == q' && r == r'
  {
    Distribute(q, q', d);
    Distribute(q', q, d);
    if q > q' {
      AtLeastOnce(q - q', d);
    } else if q < q' {
      AtLeastOnce(q' - q, d);
    }
  }

  lemma DivMod(k: nat, d: nat)
    requires d > 0
    ensures k == (k / d) * d + k % d && 0 <= k % d < d
  {
  }

  lemma Quotient(k: nat, d: nat, q: nat, r: nat)
    requires k == q * d + r && r < d
    ensures k / d == q && k % d == r
  {
    DivMod(k, d);
    QuotientUnique(d, k / d, k % d, q, r);
  }

  lemma HalfEvenIsNearest(k: nat, u: nat, q: nat, r: nat)
    requires k == q * u + r && r < u
    ensures var m := HalfEven(q, r, u);
            && 2 * (m * u - k) <= u && 2 * (k - m * u) <= u
            && (2 * (m * u - k) == u || 2 * (k - m * u) == u ==> m % 2 == 0)
  {
    Distribute(q + 1, q, u);
  }

  /** The float32 value is a multiple of its spacing, at most half a spacing away, and an even one in a tie. */
  lemma Nearest(k: nat) returns (m: nat)
    ensures var u, f := Ulp(k), Float32(k);
            && f == m * u && 2 * (f - k) <= u && 2 * (k - f) <= u
            && (2 * (f - k) == u || 2 * (k - f) == u ==> m % 2 == 0)
  {
    var u := Ulp(k);
    m := HalfEven(k / u, k % u, u);
    DivMod(k, u);
    HalfEvenIsNearest(k, u, k / u, k % u);
  }

  lemma HalfTwice(k: nat, u: nat)
    requires u > 0
    ensures k / (2 * u) == (k / 2) / u
  {
    var q, r := (k / 2) / u, (k / 2) % u;
    DivMod(k / 2, u);
    assert q * (2 * u) == 2 * (q * u);
    Quotient(k, 2 * u, q, 2 * r + k % 2);
  }

  /** 24 significant bits. */
  lemma {:induction false} Spacing(k: nat)
    ensures k < 16_777_216 ==> Ulp(k) == 1
    ensures k >= 16_777_216 ==> 8_388_608 <= k / Ulp(k) < 16_777_216
  {
    if k >= TWO24 {
      Spacing(k / 2);
      HalfTwice(k, Ulp(k / 2));
    }
  }

  lemma WrapModulo(x: int)
    ensures -9_223_372_036_854_775_808 <= Wrap(x) <= 9_223_372_036_854_775_807
    ensures (x - Wrap(x)) % 18_446_744_073_709_551_616 == 0
  {
  }

  /** A value beyond float32 is an error; otherwise the hours, if they fit int64, come out as what int64 leaves of
      their nanoseconds. */
  lemma OutOfRange(k: nat, hours: nat, p: Platform)
    ensures Scale(k, hours, p).None? <==> Float32(k) > 340_282_346_638_528_859_811_704_183_484_516_925_440
    ensures Scale(k, hours, p).Some? ==>
              Scale(k, hours, p).value ==
              Wrap((if Float32(k) * hours < 9_223_372_036_854_775_808 then Float32(k) * hours else p.overflow) *
                   3_600_000_000_000)
  {
  }
}
