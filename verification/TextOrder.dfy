/** Byte order of texts, and of fixed-width decimal fields inside them. */
module TextOrder {

  function Pow10(w: nat): nat {
    if w == 0 then 1 else 10 * Pow10(w - 1)
  }

  function Digit(n: nat): (c: char)
    requires n < 10
    ensures '0' <= c <= '9'
  {
    '0' + n as char
  }

  // The last w decimal digits of n, most significant first.
  function Pad(n: nat, w: nat): (s: string)
    ensures |s| == w
    ensures forall i :: 0 <= i < w ==> '0' <= s[i] <= '9'
  {
    if w == 0 then "" else Pad(n / 10, w - 1) + [Digit(n % 10)]
  }

  function DigitValue(c: char): nat { if '0' <= c <= '9' then c as nat - '0' as nat else 0 }

  // The number a text of decimal digits writes.
  function Number(s: string): nat { if s == "" then 0 else 10 * Number(s[..|s| - 1]) + DigitValue(s[|s| - 1]) }

  lemma {:induction false} NumberPad(n: nat, w: nat)
    requires n < Pow10(w)
    ensures Number(Pad(n, w)) == n
  {
    if w > 0 {
      NumberPad(n / 10, w - 1);
      assert Pad(n, w)[..w - 1] == Pad(n / 10, w - 1);
    }
  }

  // Trailing zeros multiply by ten.
  lemma {:induction false} NumberZeros(s: string, k: nat)
    requires k <= |s| && forall i :: k <= i < |s| ==> s[i] == '0'
    ensures Number(s) == Number(s[..k]) * Pow10(|s| - k)
    decreases |s|
  {
    if k == |s| {
      assert s[..k] == s;
    } else {
      var init := s[..|s| - 1];
      NumberZeros(init, k);
      assert init[..k] == s[..k];
      TimesTen(Number(s[..k]), Pow10(|init| - k));
    }
  }

  lemma TimesTen(a: nat, b: nat)
    ensures 10 * (a * b) == a * (10 * b)
  {}

  // Byte-wise text order, the collation SQLite uses for TEXT columns.
  predicate Less(a: string, b: string) {
    if b == "" then false
    else if a == "" then true
    else a[0] < b[0] || (a[0] == b[0] && Less(a[1..], b[1..]))
  }

  // The two texts agree on k places and a is smaller at place k.
  ghost predicate LessAt(a: string, b: string, k: nat) {
    k < |a| && k < |b| && a[..k] == b[..k] && a[k] < b[k]
  }

  lemma {:induction false} LessFromPlace(a: string, b: string, k: nat)
    requires LessAt(a, b, k)
    ensures Less(a, b) && !Less(b, a) && a != b
  {
    if k > 0 {
      assert a[0] == a[..k][0] == b[..k][0] == b[0];
      assert a[1..][..k - 1] == a[..k][1..] == b[..k][1..] == b[1..][..k - 1];
      LessFromPlace(a[1..], b[1..], k - 1);
    }
  }

  lemma LessIrreflexive(a: string)
    ensures !Less(a, a)
  {}

  lemma JoinOrder(p: string, x: string, q: string, y: string, k: nat)
    requires LessAt(p, q, k)
    ensures LessAt(p + x, q + y, k)
  {
    assert (p + x)[..k] == p[..k] && (q + y)[..k] == q[..k];
  }

  lemma SamePrefixOrder(p: string, x: string, y: string, k: nat)
    requires LessAt(x, y, k)
    ensures LessAt(p + x, p + y, |p| + k)
  {
    assert (p + x)[..|p| + k] == p + x[..k] && (p + y)[..|p| + k] == p + y[..k];
  }

  lemma {:induction false} PadOrder(n: nat, m: nat, w: nat) returns (k: nat)
    requires n < m < Pow10(w)
    ensures LessAt(Pad(n, w), Pad(m, w), k)
  {
    if n / 10 < m / 10 {
      k := PadOrder(n / 10, m / 10, w - 1);
      assert Pad(n, w)[..k] == Pad(n / 10, w - 1)[..k];
      assert Pad(m, w)[..k] == Pad(m / 10, w - 1)[..k];
    } else {
      k := w - 1;
      assert n / 10 == m / 10;
    }
  }

  // Fixed-width fields, each followed by one separator character.
  datatype Field = Field(value: nat, width: nat, mark: char)

  function FieldsText(fs: seq<Field>): string {
    if fs == [] then "" else Pad(fs[0].value, fs[0].width) + ([fs[0].mark] + FieldsText(fs[1..]))
  }

  ghost predicate SameField(f: Field, g: Field) {
    f.width == g.width && f.mark == g.mark && f.value < Pow10(f.width) && g.value < Pow10(g.width)
  }

  ghost predicate SameLayout(fs: seq<Field>, gs: seq<Field>) {
    |fs| == |gs| && (fs != [] ==> SameField(fs[0], gs[0]) && SameLayout(fs[1..], gs[1..]))
  }

  ghost predicate FieldsBefore(fs: seq<Field>, gs: seq<Field>)
    requires |fs| == |gs|
  {
    fs != [] && (fs[0].value < gs[0].value || (fs[0].value == gs[0].value && FieldsBefore(fs[1..], gs[1..])))
  }

  lemma {:induction false} FieldsOrder(fs: seq<Field>, gs: seq<Field>) returns (k: nat)
    requires SameLayout(fs, gs) && FieldsBefore(fs, gs)
    ensures LessAt(FieldsText(fs), FieldsText(gs), k)
  {
    var x, y := Pad(fs[0].value, fs[0].width), Pad(gs[0].value, gs[0].width);
    var restF, restG := FieldsText(fs[1..]), FieldsText(gs[1..]);
    if fs[0].value < gs[0].value {
      k := PadOrder(fs[0].value, gs[0].value, fs[0].width);
      JoinOrder(x, [fs[0].mark] + restF, y, [gs[0].mark] + restG, k);
    } else {
      var j := FieldsOrder(fs[1..], gs[1..]);
      SamePrefixOrder([fs[0].mark], restF, restG, j);
      SamePrefixOrder(x, [fs[0].mark] + restF, [fs[0].mark] + restG, 1 + j);
      k := |x| + 1 + j;
    }
  }
}
