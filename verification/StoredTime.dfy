/**
 Timestamps as the store writes them: `formatTime` drops trailing zeros of the
 fraction, `formatFixedTime` keeps nine digits. SQLite compares both as text.

 An instant is a number of nanoseconds since 0000-01-01T00:00:00Z. Its date is
 derived from that number, so the order of two texts can be compared with the order of
 two instants.
 */
module StoredTime {
  import opened Calendar
  import opened TextOrder

  const NANOS: nat := 1_000_000_000
  const DAY_SECONDS: nat := 86_400

  // ---------- whole seconds ----------

  // Seconds since year 0 whose year still has four digits.
  predicate InRange(seconds: nat) {
    DateOf(seconds / DAY_SECONDS).year <= 9999
  }

  // 2006-01-02T15:04:05, with the last mark left to the fraction.
  function SecondFields(seconds: nat): seq<Field> {
    var d := DateOf(seconds / DAY_SECONDS);
    var s := seconds % DAY_SECONDS;
    [Field(d.year, 4, '-'), Field(d.month, 2, '-'), Field(d.day, 2, 'T'),
     Field(s / 3600, 2, ':'), Field(s / 60 % 60, 2, ':')]
  }

  function SecondText(seconds: nat): string {
    FieldsText(SecondFields(seconds)) + Pad(seconds % 60, 2)
  }

  lemma ClockBounds(s: nat)
    requires s < DAY_SECONDS
    ensures s / 3600 < 24 && s / 60 % 60 < 60
  {}

  lemma SecondLayout(a: nat, b: nat)
    requires InRange(a) && InRange(b)
    ensures SameLayout(SecondFields(a), SecondFields(b))
  {
    assert Pow10(2) == 100 && Pow10(4) == 10000;
    ClockBounds(a % DAY_SECONDS);
    ClockBounds(b % DAY_SECONDS);
    DateOfInverse(a / DAY_SECONDS);
    DateOfInverse(b / DAY_SECONDS);
    FiveFieldsLayout(SecondFields(a), SecondFields(b));
  }

  lemma FiveFieldsLayout(fs: seq<Field>, gs: seq<Field>)
    requires |fs| == |gs| == 5
    requires forall i :: 0 <= i < 5 ==> SameField(fs[i], gs[i])
    ensures SameLayout(fs, gs)
  {
    assert SameLayout(fs[5..], gs[5..]);
    forall i | 0 <= i < 5
      ensures fs[i..][1..] == fs[i + 1..] && gs[i..][1..] == gs[i + 1..] && fs[i..][0] == fs[i] && gs[i..][0] == gs[i]
    {}
    assert SameLayout(fs[4..], gs[4..]);
    assert SameLayout(fs[3..], gs[3..]);
    assert SameLayout(fs[2..], gs[2..]);
    assert SameLayout(fs[1..], gs[1..]);
  }

  lemma ClockOrder(s: nat, t: nat)
    requires s < t < DAY_SECONDS
    ensures
      || s / 3600 < t / 3600
      || (s / 3600 == t / 3600 && s / 60 % 60 < t / 60 % 60)
      || (s / 3600 == t / 3600 && s / 60 % 60 == t / 60 % 60 && s % 60 < t % 60)
  {
    assert s / 60 / 60 == s / 3600 && t / 60 / 60 == t / 3600;
  }

  // The calendar reading is monotone: some field grows before any field shrinks.
  lemma ReadingOrder(a: nat, b: nat)
    requires a < b
    ensures FieldsBefore(SecondFields(a), SecondFields(b))
         || (SecondFields(a) == SecondFields(b) && a % 60 < b % 60)
  {
    var fs, gs := SecondFields(a), SecondFields(b);
    var c, d := DateOf(a / DAY_SECONDS), DateOf(b / DAY_SECONDS);
    assert a / DAY_SECONDS <= b / DAY_SECONDS;
    DateOfInverse(a / DAY_SECONDS);
    DateOfInverse(b / DAY_SECONDS);
    if DateBefore(d, c) { DayNumberMonotone(d, c); }
    if c == d {
      assert a / DAY_SECONDS == b / DAY_SECONDS;
      ClockOrder(a % DAY_SECONDS, b % DAY_SECONDS);
      MinuteSecond(a);
      MinuteSecond(b);
      if fs[3].value == gs[3].value && fs[4].value == gs[4].value {
        assert fs == gs;
        return;
      }
    }
    FiveFieldsBefore(fs, gs);
  }

  lemma MinuteSecond(a: nat)
    ensures a % DAY_SECONDS % 60 == a % 60
  {}

  // Earlier seconds have smaller texts.
  lemma SecondOrder(a: nat, b: nat) returns (k: nat)
    requires InRange(a) && InRange(b) && a < b
    ensures LessAt(SecondText(a), SecondText(b), k)
  {
    SecondLayout(a, b);
    ReadingOrder(a, b);
    var p, q := FieldsText(SecondFields(a)), FieldsText(SecondFields(b));
    if FieldsBefore(SecondFields(a), SecondFields(b)) {
      k := FieldsOrder(SecondFields(a), SecondFields(b));
      JoinOrder(p, Pad(a % 60, 2), q, Pad(b % 60, 2), k);
    } else {
      assert Pow10(2) == 100;
      var j := PadOrder(a % 60, b % 60, 2);
      SamePrefixOrder(p, Pad(a % 60, 2), Pad(b % 60, 2), j);
      k := |p| + j;
    }
  }

  lemma FiveFieldsBefore(fs: seq<Field>, gs: seq<Field>)
    requires |fs| == |gs| == 5
    requires
      || fs[0].value < gs[0].value
      || (fs[0].value == gs[0].value && fs[1].value < gs[1].value)
      || (fs[0].value == gs[0].value && fs[1].value == gs[1].value && fs[2].value < gs[2].value)
      || (fs[0].value == gs[0].value && fs[1].value == gs[1].value && fs[2].value == gs[2].value && fs[3].value < gs[3].value)
      || (fs[0].value == gs[0].value && fs[1].value == gs[1].value && fs[2].value == gs[2].value && fs[3].value == gs[3].value && fs[4].value < gs[4].value)
    ensures FieldsBefore(fs, gs)
  {
    assert fs[1..][1..] == fs[2..] && gs[1..][1..] == gs[2..];
    assert fs[2..][1..] == fs[3..] && gs[2..][1..] == gs[3..];
    assert fs[3..][1..] == fs[4..] && gs[3..][1..] == gs[4..];
    assert FieldsBefore(fs[4..], gs[4..]) <==> fs[4].value < gs[4].value;
    assert FieldsBefore(fs[3..], gs[3..]) <==> fs[3].value < gs[3].value || (fs[3].value == gs[3].value && FieldsBefore(fs[4..], gs[4..]));
    assert FieldsBefore(fs[2..], gs[2..]) <==> fs[2].value < gs[2].value || (fs[2].value == gs[2].value && FieldsBefore(fs[3..], gs[3..]));
    assert FieldsBefore(fs[1..], gs[1..]) <==> fs[1].value < gs[1].value || (fs[1].value == gs[1].value && FieldsBefore(fs[2..], gs[2..]));
  }

  // ---------- fractions of a second ----------

  function TrimZeros(s: string): (r: string)
    ensures r <= s
    ensures r == "" || r[|r| - 1] != '0'
    ensures forall i :: |r| <= i < |s| ==> s[i] == '0'
  {
    if s == "" || s[|s| - 1] != '0' then s else TrimZeros(s[..|s| - 1])
  }

  // The significant digits of a fraction given in nanoseconds.
  function Digits(n: nat): string { TrimZeros(Pad(n, 9)) }

  function DotDigits(digits: string): string {
    if digits == "" then "Z" else "." + (digits + "Z")
  }

  function TrimmedFraction(n: nat): string { DotDigits(Digits(n)) }

  function FixedFraction(n: nat): string { "." + Pad(n, 9) + "Z" }

  lemma PowNine()
    ensures Pow10(9) == NANOS
  {
    assert Pow10(3) == 1000;
    assert Pow10(6) == 1_000_000;
  }

  lemma FixedFractionOrder(n: nat, m: nat) returns (k: nat)
    requires n < m < NANOS
    ensures LessAt(FixedFraction(n), FixedFraction(m), k)
  {
    PowNine();
    var j := PadOrder(n, m, 9);
    JoinOrder(Pad(n, 9), "Z", Pad(m, 9), "Z", j);
    SamePrefixOrder(".", Pad(n, 9) + "Z", Pad(m, 9) + "Z", j);
    assert FixedFraction(n) == "." + (Pad(n, 9) + "Z") && FixedFraction(m) == "." + (Pad(m, 9) + "Z");
    k := 1 + j;
  }

  // Dropping zeros reverses two fractions exactly when one is a prefix of the other.
  lemma DotDigitsOrder(x: string, y: string, j: nat) returns (k: nat)
    requires j < |y|
    requires j < |x| ==> LessAt(x, y, j)
    requires j >= |x| ==> x == y[..|x|]
    requires forall i :: 0 <= i < |y| ==> '0' <= y[i] <= '9'
    ensures if x <= y then LessAt(DotDigits(y), DotDigits(x), k) else LessAt(DotDigits(x), DotDigits(y), k)
  {
    if j < |x| {
      JoinOrder(x, "Z", y, "Z", j);
      SamePrefixOrder(".", x + "Z", y + "Z", j);
      k := j + 1;
    } else if x == "" {
      k := 0;
    } else {
      k := |x| + 1;
      assert DotDigits(y)[..k] == DotDigits(x)[..k];
    }
  }

  lemma TrimmedFractionOrder(n: nat, m: nat) returns (k: nat)
    requires n < m < NANOS
    ensures if Digits(n) <= Digits(m) then LessAt(TrimmedFraction(m), TrimmedFraction(n), k)
            else LessAt(TrimmedFraction(n), TrimmedFraction(m), k)
  {
    PowNine();
    var j := PadOrder(n, m, 9);
    k := TrimmedOrder(Pad(n, 9), Pad(m, 9), j);
  }

  lemma TrimmedOrder(a: string, b: string, j: nat) returns (k: nat)
    requires |a| == |b| && LessAt(a, b, j)
    requires forall i :: 0 <= i < |b| ==> '0' <= a[i] <= '9' && '0' <= b[i] <= '9'
    ensures var x, y := TrimZeros(a), TrimZeros(b);
            if x <= y then LessAt(DotDigits(y), DotDigits(x), k) else LessAt(DotDigits(x), DotDigits(y), k)
  {
    var x, y := TrimZeros(a), TrimZeros(b);
    assert j < |y|;
    if j < |x| {
      assert x[..j] == a[..j] && y[..j] == b[..j];
    } else {
      assert x == a[..|x|] == a[..j][..|x|] == b[..j][..|x|] == b[..|x|] == y[..|x|];
    }
    k := DotDigitsOrder(x, y, j);
  }

  // ---------- stored instants ----------

  // An instant, in nanoseconds since the start of year 0.
  type Moment = nat

  // The years 0 to 9999, where the year takes four digits.
  predicate Stored(t: Moment) { InRange(t / NANOS) }

  function Second(t: Moment): nat { t / NANOS }

  function Nano(t: Moment): nat { t % NANOS }

  // formatTime: RFC3339Nano, trailing zeros dropped.
  function FormatTime(t: Moment): string {
    SecondText(Second(t)) + TrimmedFraction(Nano(t))
  }

  // formatFixedTime: always nine digits.
  function FormatFixedTime(t: Moment): string {
    SecondText(Second(t)) + FixedFraction(Nano(t))
  }

  // Different seconds: every mix of the two formats sorts like the instants.
  lemma SecondsDecide(a: Moment, b: Moment)
    requires Stored(a) && Stored(b) && Second(a) < Second(b)
    ensures Less(FormatTime(a), FormatTime(b)) && !Less(FormatTime(b), FormatTime(a))
    ensures Less(FormatFixedTime(a), FormatFixedTime(b)) && !Less(FormatFixedTime(b), FormatFixedTime(a))
    ensures Less(FormatTime(a), FormatFixedTime(b)) && !Less(FormatFixedTime(b), FormatTime(a))
    ensures Less(FormatFixedTime(a), FormatTime(b)) && !Less(FormatTime(b), FormatFixedTime(a))
    ensures FormatTime(a) != FormatTime(b) && FormatFixedTime(a) != FormatFixedTime(b)
  {
    var k := SecondOrder(Second(a), Second(b));
    var p, q := SecondText(Second(a)), SecondText(Second(b));
    var xt, yt := TrimmedFraction(Nano(a)), TrimmedFraction(Nano(b));
    var xf, yf := FixedFraction(Nano(a)), FixedFraction(Nano(b));
    JoinOrder(p, xt, q, yt, k);
    LessFromPlace(p + xt, q + yt, k);
    JoinOrder(p, xf, q, yf, k);
    LessFromPlace(p + xf, q + yf, k);
    JoinOrder(p, xt, q, yf, k);
    LessFromPlace(p + xt, q + yf, k);
    JoinOrder(p, xf, q, yt, k);
    LessFromPlace(p + xf, q + yt, k);
  }

  lemma SameSecond(a: Moment, b: Moment)
    requires a < b && !(Second(a) < Second(b))
    ensures Second(a) == Second(b) && Nano(a) < Nano(b) < NANOS
  {}

  lemma FixedTextLess(a: Moment, b: Moment)
    requires Stored(a) && Stored(b) && a < b
    ensures Less(FormatFixedTime(a), FormatFixedTime(b)) && !Less(FormatFixedTime(b), FormatFixedTime(a))
    ensures FormatFixedTime(a) != FormatFixedTime(b)
  {
    if Second(a) < Second(b) {
      SecondsDecide(a, b);
    } else {
      SameSecond(a, b);
      var k := FixedFractionOrder(Nano(a), Nano(b));
      var p := SecondText(Second(a));
      SamePrefixOrder(p, FixedFraction(Nano(a)), FixedFraction(Nano(b)), k);
      LessFromPlace(FormatFixedTime(a), FormatFixedTime(b), |p| + k);
    }
  }

  // The nine-digit text sorts exactly like the instant it writes.
  lemma FixedTextOrder(a: Moment, b: Moment)
    requires Stored(a) && Stored(b)
    ensures Less(FormatFixedTime(a), FormatFixedTime(b)) <==> a < b
    ensures FormatFixedTime(a) == FormatFixedTime(b) <==> a == b
  {
    if a < b { FixedTextLess(a, b); }
    else if b < a { FixedTextLess(b, a); }
    else { LessIrreflexive(FormatFixedTime(a)); }
  }

  // Same second, and the digits of the earlier fraction are a prefix of the later
  // ones: the one situation in which trimmed texts sort backwards.
  predicate Misordered(a: Moment, b: Moment) {
    Second(a) == Second(b) && a < b && Digits(Nano(a)) <= Digits(Nano(b))
  }

  lemma FractionDecides(p: string, n: nat, m: nat)
    requires n < m < NANOS
    ensures Less(p + TrimmedFraction(m), p + TrimmedFraction(n)) <==> Digits(n) <= Digits(m)
    ensures Less(p + TrimmedFraction(n), p + TrimmedFraction(m)) <==> !(Digits(n) <= Digits(m))
    ensures p + TrimmedFraction(n) != p + TrimmedFraction(m)
  {
    var k := TrimmedFractionOrder(n, m);
    if Digits(n) <= Digits(m) {
      SamePrefixOrder(p, TrimmedFraction(m), TrimmedFraction(n), k);
      LessFromPlace(p + TrimmedFraction(m), p + TrimmedFraction(n), |p| + k);
    } else {
      SamePrefixOrder(p, TrimmedFraction(n), TrimmedFraction(m), k);
      LessFromPlace(p + TrimmedFraction(n), p + TrimmedFraction(m), |p| + k);
    }
  }

  lemma TrimmedTextOrder(a: Moment, b: Moment)
    requires Stored(a) && Stored(b) && a < b
    ensures Less(FormatTime(b), FormatTime(a)) <==> Misordered(a, b)
    ensures Less(FormatTime(a), FormatTime(b)) <==> !Misordered(a, b)
    ensures FormatTime(a) != FormatTime(b)
  {
    if Second(a) < Second(b) {
      SecondsDecide(a, b);
    } else {
      SameSecond(a, b);
      FractionDecides(SecondText(Second(a)), Nano(a), Nano(b));
    }
  }

  // `column <= ?` on two trimmed texts.
  predicate TextAtMost(a: Moment, b: Moment) {
    FormatTime(a) == FormatTime(b) || Less(FormatTime(a), FormatTime(b))
  }

  // What a text comparison of stored times decides, in terms of the instants.
  lemma TextAtMostMeaning(a: Moment, b: Moment)
    requires Stored(a) && Stored(b)
    ensures TextAtMost(a, b) <==> (a <= b && !Misordered(a, b)) || Misordered(b, a)
    ensures Second(a) != Second(b) ==> (TextAtMost(a, b) <==> a <= b)
    ensures TextAtMost(a, b) ==> Second(a) <= Second(b)
  {
    AtMostExact(a, b);
    SecondsFollow(a, b);
    SecondsFollow(b, a);
  }

  lemma AtMostExact(a: Moment, b: Moment)
    requires Stored(a) && Stored(b)
    ensures TextAtMost(a, b) <==> (a <= b && !Misordered(a, b)) || Misordered(b, a)
  {
    if a < b { TrimmedTextOrder(a, b); }
    else if b < a { TrimmedTextOrder(b, a); }
  }

  lemma SecondsFollow(a: Moment, b: Moment)
    ensures a <= b ==> Second(a) <= Second(b)
    ensures Misordered(a, b) ==> a <= b && Second(a) == Second(b)
  {}

  // The text of a whole second sorts after every other text of that second.
  lemma WholeSecondSortsLast(t: Moment, u: Moment)
    requires Stored(t) && Nano(t) == 0 && t <= u < t + NANOS
    ensures TextAtMost(u, t)
  {
    WithinSecond(t, u);
    ZeroPad(9);
    assert Digits(Nano(t)) == "";
    if t < u { TrimmedTextOrder(t, u); }
  }

  lemma WithinSecond(t: Moment, u: Moment)
    requires Nano(t) == 0 && t <= u < t + NANOS
    ensures Second(u) == Second(t) == u / NANOS
  {}

  lemma FirstNonZero(d: string, i: nat) returns (k: nat)
    requires i < |d| && d[|d| - 1] != '0' && forall j :: 0 <= j < |d| ==> '0' <= d[j] <= '9'
    requires forall j :: 0 <= j < i ==> d[j] == '0'
    ensures k < |d| && d[k] > '0' && forall j :: 0 <= j < k ==> d[j] == '0'
    decreases |d| - i
  {
    if d[i] != '0' { k := i; } else { k := FirstNonZero(d, i + 1); }
  }

  // Nine zeros sort before every trimmed fraction.
  lemma ZeroFractionFirst(n: nat) returns (k: nat)
    ensures LessAt(FixedFraction(0), TrimmedFraction(n), k)
  {
    ZeroPad(9);
    var d := Digits(n);
    if d == "" {
      k := 0;
    } else {
      var j := FirstNonZero(d, 0);
      k := j + 1;
      ZerosBelow(Pad(0, 9), d, j);
      SamePrefixOrder(".", Pad(0, 9) + "Z", d + "Z", j);
      assert FixedFraction(0) == "." + (Pad(0, 9) + "Z");
    }
  }

  lemma ZerosBelow(zeros: string, d: string, j: nat)
    requires j < |d| <= |zeros| && d[j] > '0' && forall i :: 0 <= i < |zeros| ==> zeros[i] == '0'
    requires forall i :: 0 <= i < j ==> d[i] == '0'
    ensures LessAt(zeros + "Z", d + "Z", j)
  {
    assert (zeros + "Z")[..j] == (d + "Z")[..j];
  }

  // A nine-digit text of a whole second sorts before the trimmed text of every instant
  // that is not earlier, the same instant included.
  lemma FixedBeforeTrimmed(t: Moment, c: Moment)
    requires Stored(t) && Stored(c) && Nano(t) == 0
    ensures Less(FormatFixedTime(t), FormatTime(c)) <==> t <= c
  {
    if Second(t) < Second(c) {
      SecondsDecide(t, c);
    } else if Second(c) < Second(t) {
      SecondsDecide(c, t);
    } else {
      var p := SecondText(Second(t));
      var k := ZeroFractionFirst(Nano(c));
      SamePrefixOrder(p, FixedFraction(0), TrimmedFraction(Nano(c)), k);
      LessFromPlace(p + FixedFraction(0), p + TrimmedFraction(Nano(c)), |p| + k);
    }
  }

  // A trimmed fraction before a nine-digit one: where they differ in a digit.
  lemma MixedDigits(n: nat, m: nat, j: nat)
    requires j < |Digits(n)| && j < 9 && (LessAt(Digits(n), Pad(m, 9), j) || LessAt(Pad(m, 9), Digits(n), j))
    ensures LessAt(Digits(n), Pad(m, 9), j) ==> LessAt(TrimmedFraction(n), FixedFraction(m), j + 1)
    ensures LessAt(Pad(m, 9), Digits(n), j) ==> LessAt(FixedFraction(m), TrimmedFraction(n), j + 1)
  {
    var d, z := Digits(n), Pad(m, 9);
    assert FixedFraction(m) == "." + (z + "Z");
    if LessAt(d, z, j) {
      JoinOrder(d, "Z", z, "Z", j);
      SamePrefixOrder(".", d + "Z", z + "Z", j);
    }
    if LessAt(z, d, j) {
      JoinOrder(z, "Z", d, "Z", j);
      SamePrefixOrder(".", z + "Z", d + "Z", j);
    }
  }

  // ... and where the trimmed digits are the first of the nine.
  lemma MixedPrefix(n: nat, m: nat)
    requires n < NANOS && m < NANOS && Digits(n) <= Pad(m, 9)
    ensures TrimmedFraction(n) == FixedFraction(m) || exists k :: LessAt(FixedFraction(m), TrimmedFraction(n), k)
  {
    var d, z := Digits(n), Pad(m, 9);
    assert FixedFraction(m) == "." + (z + "Z");
    if d == "" {
      assert LessAt(FixedFraction(m), TrimmedFraction(n), 0);
    } else if |d| < 9 {
      assert (z + "Z")[..|d|] == (d + "Z")[..|d|];
      SamePrefixOrder(".", z + "Z", d + "Z", |d|);
    }
  }

  lemma DigitsWhere(a: string, b: string, d: string, j: nat)
    requires |a| == |b| && d <= a && (LessAt(a, b, j) || LessAt(b, a, j)) && !(d <= b)
    ensures j < |d| && (LessAt(a, b, j) ==> LessAt(d, b, j)) && (LessAt(b, a, j) ==> LessAt(b, d, j))
  {
    if j >= |d| { PrefixShared(a, b, d, j); } else { assert d[..j] == a[..j]; }
  }

  lemma PrefixShared(a: string, b: string, d: string, j: nat)
    requires d <= a && |d| <= j <= |a| && j <= |b| && a[..j] == b[..j]
    ensures d <= b
  {
    assert d == a[..j][..|d|] == b[..j][..|d|];
  }

  // A trimmed text against a nine-digit one, as retention compares columns with cutoffs:
  // exact, except that within one second an instant whose digits begin the cutoff's sorts
  // behind it.
  lemma TrimmedBeforeFixed(t: Moment, c: Moment)
    requires Stored(t) && Stored(c)
    ensures Less(FormatTime(t), FormatFixedTime(c))
       <==> t < c && !(Second(t) == Second(c) && Digits(Nano(t)) <= Pad(Nano(c), 9))
  {
    if Second(t) < Second(c) {
      SecondsDecide(t, c);
    } else if Second(c) < Second(t) {
      SecondsDecide(c, t);
    } else {
      MixedSecond(SecondText(Second(t)), Nano(t), Nano(c));
    }
  }

  lemma MixedSecond(p: string, n: nat, m: nat)
    requires n < NANOS && m < NANOS
    ensures Less(p + TrimmedFraction(n), p + FixedFraction(m)) <==> n < m && !(Digits(n) <= Pad(m, 9))
  {
    var x, y := TrimmedFraction(n), FixedFraction(m);
    if Digits(n) <= Pad(m, 9) {
      MixedPrefix(n, m);
      if x == y {
        LessIrreflexive(p + x);
      } else {
        var k :| LessAt(y, x, k);
        SamePrefixOrder(p, y, x, k);
        LessFromPlace(p + y, p + x, |p| + k);
      }
    } else {
      MixedDiffer(n, m);
      if n < m {
        var k :| LessAt(x, y, k);
        SamePrefixOrder(p, x, y, k);
        LessFromPlace(p + x, p + y, |p| + k);
      } else {
        var k :| LessAt(y, x, k);
        SamePrefixOrder(p, y, x, k);
        LessFromPlace(p + y, p + x, |p| + k);
      }
    }
  }

  lemma MixedDiffer(n: nat, m: nat)
    requires n < NANOS && m < NANOS && !(Digits(n) <= Pad(m, 9))
    ensures n < m ==> exists k :: LessAt(TrimmedFraction(n), FixedFraction(m), k)
    ensures n >= m ==> exists k :: LessAt(FixedFraction(m), TrimmedFraction(n), k)
  {
    PowNine();
    var j;
    if n < m { j := PadOrder(n, m, 9); } else { j := PadOrder(m, n, 9); }
    DigitsWhere(Pad(n, 9), Pad(m, 9), Digits(n), j);
    MixedDigits(n, m, j);
  }

  lemma {:induction false} ZeroPad(w: nat)
    ensures TrimZeros(Pad(0, w)) == "" && forall i :: 0 <= i < w ==> Pad(0, w)[i] == '0'
  {
    if w > 0 {
      ZeroPad(w - 1);
      assert Pad(0, w)[..w - 1] == Pad(0, w - 1);
    }
  }
}
