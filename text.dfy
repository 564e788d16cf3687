/**
 * String helpers shared by the appointment listing, the user search and the
 * appointment form: ASCII case folding and case-insensitive substring search
 * (what an `ILIKE '%term%'` filter does with a term free of wildcards), the
 * code-point order on strings (how the store compares the fixed-width
 * `yyyy-MM-dd` dates and `HH:MM:SS` times), and decimal digit strings.
 */
module Text {

  // ---------------------------------------------------------------------------
  // Case folding and substring search
  // ---------------------------------------------------------------------------

  function LowerChar(c: char): char {
    if 'A' <= c <= 'Z' then (c as int + 32) as char else c
  }

  /** The string with every ASCII upper-case letter replaced by its lower-case form. */
  function Lower(s: string): string {
    seq(|s|, i requires 0 <= i < |s| => LowerChar(s[i]))
  }

  /** `t` occurs in `s` starting at index `i`. */
  ghost predicate OccursAt(s: string, t: string, i: int) {
    0 <= i && i + |t| <= |s| && s[i..i + |t|] == t
  }

  /** Substring search, scanning `s` from the left. */
  function Contains(s: string, t: string): bool
    decreases |s|
  {
    if |t| <= |s| && s[..|t|] == t then true
    else if s == [] then false
    else Contains(s[1..], t)
  }

  /** The search reports exactly the strings that occur somewhere in `s`. */
  lemma {:induction false} ContainsIffOccurs(s: string, t: string)
    ensures Contains(s, t) <==> exists i :: OccursAt(s, t, i)
    decreases |s|
  {
    if |t| <= |s| && s[..|t|] == t {
      assert OccursAt(s, t, 0);
    } else if s == [] {
    } else {
      ContainsIffOccurs(s[1..], t);
      if exists i :: OccursAt(s[1..], t, i) {
        var i :| OccursAt(s[1..], t, i);
        assert s[1..][i..i + |t|] == s[i + 1..i + 1 + |t|];
        assert OccursAt(s, t, i + 1);
      }
      if exists i :: OccursAt(s, t, i) {
        var i :| OccursAt(s, t, i);
        assert i != 0;
        assert s[i..i + |t|] == s[1..][i - 1..i - 1 + |t|];
        assert OccursAt(s[1..], t, i - 1);
      }
    }
  }

  /** Case-insensitive substring test: `s ILIKE '%t%'`. */
  function ContainsIgnoringCase(s: string, t: string): bool {
    Contains(Lower(s), Lower(t))
  }

  /** The empty term occurs in every string. */
  lemma EmptyTermMatchesEverything(s: string)
    ensures ContainsIgnoringCase(s, "")
  {
    assert Lower("") == "";
    assert OccursAt(Lower(s), "", 0);
    ContainsIffOccurs(Lower(s), "");
  }

  lemma {:induction false} LowerOfSlice(s: string, i: nat, j: nat)
    requires i <= j <= |s|
    ensures Lower(s[i..j]) == Lower(s)[i..j]
  {
  }

  /** A term that occurs verbatim also occurs ignoring case. */
  lemma {:induction false} ExactOccurrenceMatches(s: string, t: string)
    requires Contains(s, t)
    ensures ContainsIgnoringCase(s, t)
  {
    ContainsIffOccurs(s, t);
    var i :| OccursAt(s, t, i);
    LowerOfSlice(s, i, i + |t|);
    assert OccursAt(Lower(s), Lower(t), i);
    ContainsIffOccurs(Lower(s), Lower(t));
  }

  // ---------------------------------------------------------------------------
  // Code-point order on strings
  // ---------------------------------------------------------------------------

  /** Strict lexicographic order on strings, a proper prefix coming first. */
  predicate Below(a: string, b: string)
    decreases |a|
  {
    if a == [] then b != []
    else if b == [] then false
    else a[0] < b[0] || (a[0] == b[0] && Below(a[1..], b[1..]))
  }

  lemma {:induction false} BelowIrreflexive(a: string)
    ensures !Below(a, a)
    decreases |a|
  {
    if a != [] {
      BelowIrreflexive(a[1..]);
    }
  }

  /** Any two strings are equal or one is below the other. */
  lemma {:induction false} BelowTrichotomy(a: string, b: string)
    ensures Below(a, b) || a == b || Below(b, a)
    decreases |a|
  {
    if a != [] && b != [] && a[0] == b[0] {
      BelowTrichotomy(a[1..], b[1..]);
      if a[1..] == b[1..] {
        assert a == [a[0]] + a[1..] && b == [b[0]] + b[1..];
      }
    }
  }

  lemma {:induction false} BelowAsymmetric(a: string, b: string)
    requires Below(a, b)
    ensures !Below(b, a)
    decreases |a|
  {
    if a != [] && b != [] && a[0] == b[0] {
      BelowAsymmetric(a[1..], b[1..]);
    }
  }

  lemma {:induction false} BelowTransitive(a: string, b: string, c: string)
    requires Below(a, b) && Below(b, c)
    ensures Below(a, c)
    decreases |a|
  {
    if a != [] && b != [] && c != [] && a[0] == b[0] == c[0] {
      BelowTransitive(a[1..], b[1..], c[1..]);
    }
  }

  // ---------------------------------------------------------------------------
  // Decimal digit strings
  // ---------------------------------------------------------------------------

  predicate IsDigit(c: char) {
    '0' <= c <= '9'
  }

  predicate AllDigits(s: string) {
    forall i :: 0 <= i < |s| ==> IsDigit(s[i])
  }

  function DigitChar(d: nat): char
    requires d < 10
  {
    (48 + d) as char
  }

  function DigitValue(c: char): nat
    requires IsDigit(c)
  {
    c as int - 48
  }

  /** The shortest decimal rendering of `n` (no leading zeros, "0" for zero). */
  function Decimal(n: nat): (r: string)
    ensures 1 <= |r| && AllDigits(r)
    decreases n
  {
    if n < 10 then [DigitChar(n)] else Decimal(n / 10) + [DigitChar(n % 10)]
  }

  /** The number a digit string denotes. */
  function Value(s: string): nat
    requires AllDigits(s)
    decreases |s|
  {
    if s == [] then 0 else Value(s[..|s| - 1]) * 10 + DigitValue(s[|s| - 1])
  }

  function Zeros(k: nat): string {
    seq(k, _ => '0')
  }

  /** `n` in decimal, left-padded with zeros to at least `width` digits. */
  function Padded(n: nat, width: nat): (r: string)
    ensures AllDigits(r)
  {
    var d := Decimal(n);
    if |d| < width then Zeros(width - |d|) + d else d
  }

  function Pow10(k: nat): nat {
    if k == 0 then 1 else 10 * Pow10(k - 1)
  }

  lemma {:induction false} ValueOfDecimal(n: nat)
    ensures Value(Decimal(n)) == n
    decreases n
  {
    if n >= 10 {
      ValueOfDecimal(n / 10);
      var d := Decimal(n);
      assert d[..|d| - 1] == Decimal(n / 10);
    }
  }

  lemma {:induction false} ValueOfZeros(k: nat)
    ensures Value(Zeros(k)) == 0
  {
    if k > 0 {
      assert Zeros(k)[..k - 1] == Zeros(k - 1);
      ValueOfZeros(k - 1);
    }
  }

  lemma {:induction false} LeadingZerosAddNothing(k: nat, s: string)
    requires AllDigits(s)
    ensures Value(Zeros(k) + s) == Value(s)
    decreases |s|
  {
    if s == [] {
      assert Zeros(k) + s == Zeros(k);
      ValueOfZeros(k);
    } else {
      var z := Zeros(k) + s;
      assert z[..|z| - 1] == Zeros(k) + s[..|s| - 1];
      LeadingZerosAddNothing(k, s[..|s| - 1]);
    }
  }

  /** Reading a zero-padded number back gives the number. */
  lemma PaddedRoundTrip(n: nat, width: nat)
    ensures Value(Padded(n, width)) == n
  {
    ValueOfDecimal(n);
    var d := Decimal(n);
    if |d| < width {
      LeadingZerosAddNothing(width - |d|, d);
    }
  }

  lemma {:induction false} DecimalLength(n: nat, k: nat)
    requires 1 <= k && n < Pow10(k)
    ensures |Decimal(n)| <= k
    decreases n
  {
    if n >= 10 {
      assert Pow10(1) == 10;
      assert n / 10 < Pow10(k - 1);
      DecimalLength(n / 10, k - 1);
    }
  }

  /** A number below 10^width pads to exactly `width` digits. */
  lemma PaddedLength(n: nat, width: nat)
    requires 1 <= width && n < Pow10(width)
    ensures |Padded(n, width)| == width
  {
    DecimalLength(n, width);
  }

  // ---------------------------------------------------------------------------
  // Equal-width digit strings compare like the numbers they denote
  // ---------------------------------------------------------------------------

  lemma {:induction false} ValueBelowPow10(s: string)
    requires AllDigits(s)
    ensures Value(s) < Pow10(|s|)
    decreases |s|
  {
    if s != [] {
      ValueBelowPow10(s[..|s| - 1]);
    }
  }

  /** Reading a digit string from the left: the first digit weighs 10^(|s|-1). */
  lemma {:induction false} ValueFromFront(s: string)
    requires AllDigits(s) && |s| >= 1
    ensures Value(s) == DigitValue(s[0]) * Pow10(|s| - 1) + Value(s[1..])
    decreases |s|
  {
    var n := |s|;
    if n == 1 {
      assert s[..0] == [] && s[1..] == [];
    } else {
      var init := s[..n - 1];
      ValueFromFront(init);
      assert init[0] == s[0];
      assert init[1..] == s[1..][..n - 2];
      var d0, p := DigitValue(s[0]), Pow10(n - 2);
      assert Value(s) == Value(init) * 10 + DigitValue(s[n - 1]);
      assert Value(init) == d0 * p + Value(init[1..]);
      assert Value(s[1..]) == Value(init[1..]) * 10 + DigitValue(s[n - 1]);
      assert Pow10(n - 1) == 10 * p;
      assert (d0 * p + Value(init[1..])) * 10 == d0 * (10 * p) + Value(init[1..]) * 10;
    }
  }

  /** A larger leading digit outweighs whatever follows it. */
  lemma LeadingDigitDecides(x: nat, y: nat, rx: nat, ry: nat, p: nat)
    requires x < y && rx < p
    ensures x * p + rx < y * p + ry
  {
    assert (x + 1) * p <= y * p;
  }

  /** Two digit strings of one width are in string order exactly when their numbers are. */
  lemma {:induction false} DigitsOrder(a: string, b: string)
    requires AllDigits(a) && AllDigits(b) && |a| == |b|
    ensures Below(a, b) <==> Value(a) < Value(b)
    decreases |a|
  {
    if a != [] {
      var p := Pow10(|a| - 1);
      ValueFromFront(a);
      ValueFromFront(b);
      ValueBelowPow10(a[1..]);
      ValueBelowPow10(b[1..]);
      var da, db := DigitValue(a[0]), DigitValue(b[0]);
      var ra, rb := Value(a[1..]), Value(b[1..]);
      if a[0] < b[0] {
        LeadingDigitDecides(da, db, ra, rb, p);
      } else if a[0] > b[0] {
        LeadingDigitDecides(db, da, rb, ra, p);
      } else {
        DigitsOrder(a[1..], b[1..]);
      }
    }
  }

  /** Strings built from pieces of equal widths compare piece by piece. */
  lemma {:induction false} BelowConcat(x: string, y: string, u: string, v: string)
    requires |x| == |u|
    ensures Below(x + y, u + v) <==> Below(x, u) || (x == u && Below(y, v))
    decreases |x|
  {
    if x == [] {
      assert x + y == y && u + v == v;
    } else {
      assert (x + y)[0] == x[0] && (u + v)[0] == u[0];
      assert (x + y)[1..] == x[1..] + y && (u + v)[1..] == u[1..] + v;
      BelowConcat(x[1..], y, u[1..], v);
      if x[0] == u[0] && x[1..] == u[1..] {
        assert x == [x[0]] + x[1..] && u == [u[0]] + u[1..];
      }
      if x == u {
        assert x[1..] == u[1..];
      }
    }
  }

  /** Zero-padded numbers of one width compare like the numbers; equal padding means equal numbers. */
  lemma PaddedOrder(m: nat, n: nat, width: nat)
    requires 1 <= width && m < Pow10(width) && n < Pow10(width)
    ensures Below(Padded(m, width), Padded(n, width)) <==> m < n
    ensures Padded(m, width) == Padded(n, width) <==> m == n
  {
    PaddedLength(m, width);
    PaddedLength(n, width);
    PaddedRoundTrip(m, width);
    PaddedRoundTrip(n, width);
    DigitsOrder(Padded(m, width), Padded(n, width));
  }
}
