/** What the stored time texts say: each is read back to the instant it was written from. */
module TimeTexts {
  import opened Common
  import opened Calendar
  import opened TextOrder
  import opened StoredTime

  // What follows a whole second: nothing, or a point and up to nine digits.
  predicate Fraction(rest: string) { rest == "Z" || (2 < |rest| <= 11 && rest[0] == '.' && rest[|rest| - 1] == 'Z') }

  // Digits followed by k zeros.
  function Scale(digits: string, k: nat): nat { Number(digits) * Pow10(k) }

  function FractionNanos(rest: string): nat
    requires Fraction(rest)
  {
    if rest == "Z" then 0 else Scale(rest[1..|rest| - 1], 11 - |rest|)
  }

  predicate Marks(s: string) {
    |s| >= 19 && s[4] == '-' && s[7] == '-' && s[10] == 'T' && s[13] == ':' && s[16] == ':' && Fraction(s[19..])
  }

  function ReadDate(s: string): Date
    requires |s| >= 19
  {
    Date(Number(s[0..4]), Number(s[5..7]), Number(s[8..10]))
  }

  function ReadClock(s: string): nat
    requires |s| >= 19
  {
    Number(s[11..13]) * 3600 + Number(s[14..16]) * 60 + Number(s[17..19])
  }

  function TimeOf(d: Date, clock: nat, rest: string): int
    requires ValidDate(d) && Fraction(rest)
  {
    (DayNumber(d) * 86_400 + clock) * 1_000_000_000 + FractionNanos(rest)
  }

  // Reads a UTC text in the layout of RFC 3339, with up to nine digits of a second.
  function ReadTime(s: string): Option<int> {
    if !Marks(s) || !ValidDate(ReadDate(s)) then None
    else Some(TimeOf(ReadDate(s), ReadClock(s), s[19..]))
  }

  // Six fields and five marks in their places.
  function Six(y: string, m: string, d: string, h: string, n: string, s: string): string {
    y + (['-'] + (m + (['-'] + (d + (['T'] + (h + ([':'] + (n + ([':'] + s)))))))))
  }

  // The text t has these fields, and then the rest.
  predicate Places(t: string, y: string, m: string, d: string, h: string, n: string, s: string, rest: string) {
    && |t| == 19 + |rest| && t[0..4] == y && t[5..7] == m && t[8..10] == d && t[11..13] == h && t[14..16] == n && t[17..19] == s
    && t[4] == '-' && t[7] == '-' && t[10] == 'T' && t[13] == ':' && t[16] == ':' && t[19..] == rest
  }

  // A field, its mark, and what follows.
  lemma Peel(a: string, c: char, u: string, t: string, i: nat)
    requires i + |a| + 1 <= |t| && t[i..] == a + ([c] + u)
    ensures t[i..i + |a|] == a && t[i + |a|] == c && t[i + |a| + 1..] == u
  {
    assert t[i..][..|a|] == a && t[i..][|a|] == c && t[i..][|a| + 1..] == u;
  }

  lemma Regroup(a: string, c: char, u: string, rest: string)
    ensures (a + ([c] + u)) + rest == a + ([c] + (u + rest))
  {}

  lemma SixPlaces(y: string, m: string, d: string, h: string, n: string, s: string, rest: string)
    requires |y| == 4 && |m| == 2 && |d| == 2 && |h| == 2 && |n| == 2 && |s| == 2
    ensures Places(Six(y, m, d, h, n, s) + rest, y, m, d, h, n, s, rest)
  {
    var t, u4 := Six(y, m, d, h, n, s) + rest, n + ([':'] + s);
    var u3 := h + ([':'] + u4);
    var u2 := d + (['T'] + u3);
    var u1 := m + (['-'] + u2);
    Regroup(y, '-', u1, rest);
    Regroup(m, '-', u2, rest);
    Regroup(d, 'T', u3, rest);
    Regroup(h, ':', u4, rest);
    Regroup(n, ':', s, rest);
    assert t[0..] == t;
    Peel(y, '-', u1 + rest, t, 0);
    Peel(m, '-', u2 + rest, t, 5);
    Peel(d, 'T', u3 + rest, t, 8);
    Peel(h, ':', u4 + rest, t, 11);
    Peel(n, ':', s + rest, t, 14);
    assert t[17..][..2] == s && t[17..][2..] == rest;
  }

  function Nested(fs: seq<Field>, last: string): string {
    if fs == [] then last else Pad(fs[0].value, fs[0].width) + ([fs[0].mark] + Nested(fs[1..], last))
  }

  lemma {:induction false} FieldsNested(fs: seq<Field>, last: string)
    ensures FieldsText(fs) + last == Nested(fs, last)
  {
    if fs != [] {
      FieldsNested(fs[1..], last);
      var x, rest := Pad(fs[0].value, fs[0].width), FieldsText(fs[1..]);
      assert (x + ([fs[0].mark] + rest)) + last == x + ([fs[0].mark] + (rest + last));
    } else {
      assert "" + last == last;
    }
  }

  lemma FiveNested(a: Field, b: Field, c: Field, d: Field, e: Field, last: string)
    ensures Nested([a, b, c, d, e], last) ==
              Pad(a.value, a.width) + ([a.mark] + (Pad(b.value, b.width) + ([b.mark] + (Pad(c.value, c.width) + ([c.mark]
              + (Pad(d.value, d.width) + ([d.mark] + (Pad(e.value, e.width) + ([e.mark] + last)))))))))
  {
    assert [a, b, c, d, e][1..] == [b, c, d, e] && [b, c, d, e][1..] == [c, d, e] && [c, d, e][1..] == [d, e] && [d, e][1..] == [e] && [e][1..] == [];
    assert Nested([e], last) == Pad(e.value, e.width) + ([e.mark] + last);
    assert Nested([d, e], last) == Pad(d.value, d.width) + ([d.mark] + Nested([e], last));
    assert Nested([c, d, e], last) == Pad(c.value, c.width) + ([c.mark] + Nested([d, e], last));
    assert Nested([b, c, d, e], last) == Pad(b.value, b.width) + ([b.mark] + Nested([c, d, e], last));
  }

  // The text of a whole second: the fields of its date and its clock.
  lemma SecondSays(seconds: nat)
    ensures var d, s := DateOf(seconds / 86_400), seconds % 86_400;
            SecondText(seconds) == ClockText(d, s)
  {
    var d, s := DateOf(seconds / 86_400), seconds % 86_400;
    assert seconds % 60 == s % 60;
    FieldsNested(SecondFields(seconds), Pad(s % 60, 2));
    FiveNested(Field(d.year, 4, '-'), Field(d.month, 2, '-'), Field(d.day, 2, 'T'), Field(s / 3600, 2, ':'), Field(s / 60 % 60, 2, ':'), Pad(s % 60, 2));
  }

  // Reading a text by its places.
  lemma PlacesRead(t: string, date: Date, clock: nat, y: string, m: string, d: string, h: string, n: string, s: string, rest: string)
    requires Places(t, y, m, d, h, n, s, rest) && ValidDate(date) && Fraction(rest)
    requires Number(y) == date.year && Number(m) == date.month && Number(d) == date.day
    requires Number(h) * 3600 + Number(n) * 60 + Number(s) == clock
    ensures ReadTime(t) == Some(TimeOf(date, clock, rest))
  {
    PlacesDate(t, date, y, m, d, h, n, s, rest);
    PlacesClock(t, clock, y, m, d, h, n, s, rest);
  }

  lemma PlacesDate(t: string, date: Date, y: string, m: string, d: string, h: string, n: string, s: string, rest: string)
    requires Places(t, y, m, d, h, n, s, rest) && Number(y) == date.year && Number(m) == date.month && Number(d) == date.day
    ensures ReadDate(t) == date
  {}

  lemma PlacesClock(t: string, clock: nat, y: string, m: string, d: string, h: string, n: string, s: string, rest: string)
    requires Places(t, y, m, d, h, n, s, rest) && Number(h) * 3600 + Number(n) * 60 + Number(s) == clock
    ensures ReadClock(t) == clock
  {}

  // The text of a date and a second of its day.
  function ClockText(d: Date, s: nat): string {
    Six(Pad(d.year, 4), Pad(d.month, 2), Pad(d.day, 2), Pad(s / 3600, 2), Pad(s / 60 % 60, 2), Pad(s % 60, 2))
  }

  lemma DateNumbers(d: Date)
    requires ValidDate(d) && d.year <= 9999
    ensures Number(Pad(d.year, 4)) == d.year && Number(Pad(d.month, 2)) == d.month && Number(Pad(d.day, 2)) == d.day
  {
    SmallNumber(d.year);
    SmallNumber(d.month);
    SmallNumber(d.day);
  }

  lemma ClockNumbers(s: nat)
    requires s < 86_400
    ensures Number(Pad(s / 3600, 2)) * 3600 + Number(Pad(s / 60 % 60, 2)) * 60 + Number(Pad(s % 60, 2)) == s
  {
    ClockBounds(s);
    SmallNumber(s / 3600);
    SmallNumber(s / 60 % 60);
    SmallNumber(s % 60);
    ClockSplit(s);
  }

  lemma ClockReads(d: Date, s: nat, rest: string)
    requires ValidDate(d) && d.year <= 9999 && s < 86_400 && Fraction(rest)
    ensures ReadTime(ClockText(d, s) + rest) == Some(TimeOf(d, s, rest))
  {
    DateNumbers(d);
    ClockNumbers(s);
    SixRead(d, s, Pad(d.year, 4), Pad(d.month, 2), Pad(d.day, 2), Pad(s / 3600, 2), Pad(s / 60 % 60, 2), Pad(s % 60, 2), rest);
  }

  lemma SixRead(date: Date, clock: nat, y: string, m: string, d: string, h: string, n: string, s: string, rest: string)
    requires |y| == 4 && |m| == 2 && |d| == 2 && |h| == 2 && |n| == 2 && |s| == 2 && ValidDate(date) && Fraction(rest)
    requires Number(y) == date.year && Number(m) == date.month && Number(d) == date.day
    requires Number(h) * 3600 + Number(n) * 60 + Number(s) == clock
    ensures ReadTime(Six(y, m, d, h, n, s) + rest) == Some(TimeOf(date, clock, rest))
  {
    SixPlaces(y, m, d, h, n, s, rest);
    PlacesRead(Six(y, m, d, h, n, s) + rest, date, clock, y, m, d, h, n, s, rest);
  }

  // A whole second in front of any fraction is read back.
  lemma SecondReads(seconds: nat, rest: string)
    requires InRange(seconds) && Fraction(rest)
    ensures ReadTime(SecondText(seconds) + rest) == Some(seconds * 1_000_000_000 + FractionNanos(rest))
  {
    SecondSays(seconds);
    DateOfInverse(seconds / 86_400);
    var d := DateOf(seconds / 86_400);
    ClockReads(d, seconds % 86_400, rest);
    assert TimeOf(d, seconds % 86_400, rest) == seconds * 1_000_000_000 + FractionNanos(rest);
  }

  lemma SmallNumber(n: nat)
    ensures n < 10_000 ==> Number(Pad(n, 4)) == n
    ensures n < 100 ==> Number(Pad(n, 2)) == n
  {
    assert Pow10(2) == 100 && Pow10(4) == 10000;
    if n < 10_000 { NumberPad(n, 4); }
    if n < 100 { NumberPad(n, 2); }
  }

  lemma ClockSplit(s: nat)
    ensures s / 3600 * 3600 + s / 60 % 60 * 60 + s % 60 == s
  {
    assert s / 60 / 60 == s / 3600;
  }

  lemma FixedFractionReads(n: nat)
    requires n < NANOS
    ensures Fraction(FixedFraction(n)) && FractionNanos(FixedFraction(n)) == n
  {
    var rest := FixedFraction(n);
    PowNine();
    NumberPad(n, 9);
    assert rest[1..|rest| - 1] == Pad(n, 9);
    assert Pow10(0) == 1;
  }

  lemma DigitsNumber(n: nat)
    requires n < NANOS
    ensures |Digits(n)| <= 9 && Scale(Digits(n), 9 - |Digits(n)|) == n
  {
    PowNine();
    NumberPad(n, 9);
    NumberZeros(Pad(n, 9), |Digits(n)|);
    assert Pad(n, 9)[..|Digits(n)|] == Digits(n);
  }

  lemma DotDigitsReads(d: string)
    requires |d| <= 9
    ensures Fraction(DotDigits(d))
    ensures FractionNanos(DotDigits(d)) == if d == "" then 0 else Scale(d, 9 - |d|)
  {
    if d != "" {
      var rest := DotDigits(d);
      assert rest == "." + (d + "Z") && |rest| == |d| + 2;
      assert rest[1..] == d + "Z";
      assert rest[1..|rest| - 1] == d && rest[0] == '.' && rest[|rest| - 1] == 'Z';
      assert 11 - |rest| == 9 - |d|;
    }
  }

  lemma TrimmedFractionReads(n: nat)
    requires n < NANOS
    ensures Fraction(TrimmedFraction(n)) && FractionNanos(TrimmedFraction(n)) == n
  {
    DigitsNumber(n);
    DotDigitsReads(Digits(n));
  }

  // Both formats are read back to the instant they were written from.
  lemma ReadsBack(t: Moment)
    requires Stored(t)
    ensures ReadTime(FormatFixedTime(t)) == Some(t) && ReadTime(FormatTime(t)) == Some(t)
  {
    FixedFractionReads(Nano(t));
    TrimmedFractionReads(Nano(t));
    TextReads(t, FixedFraction(Nano(t)));
    TextReads(t, TrimmedFraction(Nano(t)));
  }

  lemma TextReads(t: Moment, rest: string)
    requires Stored(t) && Fraction(rest) && FractionNanos(rest) == Nano(t)
    ensures ReadTime(SecondText(Second(t)) + rest) == Some(t)
  {
    SecondReads(Second(t), rest);
  }
}
