/** Decimal numerals: which keys are array indices, and in which order objects visit them. */
module Numerals {
  import opened Utf16
  import opened Records
  import opened JsonText

  ghost predicate AllDigits(t: Text) { forall i :: 0 <= i < |t| ==> IsDigit(t[i]) }

  function Power(k: nat): (p: nat)
    ensures p > 0
  {
    if k == 0 then 1 else 10 * Power(k - 1)
  }

  /** The size of a number is the length of its digits. */
  lemma {:induction false} ValueBounds(ds: Text)
    requires AllDigits(ds)
    ensures NatValue(ds) < Power(|ds|)
    ensures |ds| > 0 && ds[0] != 48 ==> Power(|ds| - 1) <= NatValue(ds)
  {
    if |ds| > 0 {
      var k := |ds| - 1;
      assert IsDigit(ds[k]);
      ValueBounds(ds[..k]);
      if k > 0 { assert ds[..k][0] == ds[0]; } else { assert ds[..k] == []; }
    }
  }

  lemma {:induction false} PowerGrows(m: nat, n: nat)
    requires m <= n
    ensures Power(m) <= Power(n)
  {
    if m < n { PowerGrows(m, n - 1); }
  }

  lemma {:induction false} LessLast(a: Text, b: Text, x: CodeUnit, y: CodeUnit)
    requires |a| == |b|
    ensures Less(a + [x], b + [y]) <==> Less(a, b) || (a == b && x < y)
  {
    if |a| == 0 {
      assert a + [x] == [x] && b + [y] == [y];
    } else {
      assert (a + [x])[1..] == a[1..] + [x] && (b + [y])[1..] == b[1..] + [y];
      LessLast(a[1..], b[1..], x, y);
      assert a == [a[0]] + a[1..] && b == [b[0]] + b[1..];
    }
  }

  lemma ValueLast(a: Text, x: CodeUnit)
    requires AllDigits(a) && IsDigit(x)
    ensures AllDigits(a + [x]) && NatValue(a + [x]) == 10 * NatValue(a) + (x - 48)
  {
    assert (a + [x])[..|a|] == a;
  }

  /** Numerals of one length compare as texts the way they compare as numbers. */
  lemma {:induction false} SameLength(a: Text, b: Text)
    requires AllDigits(a) && AllDigits(b) && |a| == |b|
    ensures Less(a, b) <==> NatValue(a) < NatValue(b)
    ensures a == b <==> NatValue(a) == NatValue(b)
  {
    hide Less, NatValue;
    if |a| == 0 {
      NothingLess(a, b);
    } else {
      var k := |a| - 1;
      var c, d, x, y := a[..k], b[..k], a[k], b[k];
      assert a == c + [x] && b == d + [y];
      assert IsDigit(x) && IsDigit(y);
      SameLength(c, d);
      LessLast(c, d, x, y);
      ValueLast(c, x);
      ValueLast(d, y);
      SameLast(c, d, x, y);
    }
  }

  lemma NothingLess(a: Text, b: Text)
    requires |a| == |b| == 0
    ensures !Less(a, b) && NatValue(a) == NatValue(b)
  {
  }

  lemma SameLast(c: Text, d: Text, x: CodeUnit, y: CodeUnit)
    ensures c + [x] == d + [y] <==> c == d && x == y
  {
    assert |c| == |d| ==> (c + [x])[..|c|] == c && (d + [y])[..|c|] == d;
    assert (c + [x])[|c|] == x && (d + [y])[|d|] == y;
    if c + [x] == d + [y] { assert |c + [x]| == |d + [y]|; }
  }

  /** The decimal numeral of a number has no leading zero. */
  predicate NoLeadingZero(t: Text) { |t| > 0 && (t[0] == 48 ==> |t| == 1) }

  lemma {:induction false} NumeralOrder(a: Text, b: Text)
    requires AllDigits(a) && AllDigits(b) && NoLeadingZero(a) && NoLeadingZero(b)
    ensures IndexLess(a, b) <==> NatValue(a) < NatValue(b)
  {
    if |a| == |b| {
      SameLength(a, b);
    } else if |a| < |b| {
      ValueBounds(a);
      ValueBounds(b);
      PowerGrows(|a|, |b| - 1);
    } else {
      ValueBounds(a);
      ValueBounds(b);
      PowerGrows(|b|, |a| - 1);
    }
  }

  lemma DigitsNumeral(n: nat)
    ensures AllDigits(Digits(n)) && NoLeadingZero(Digits(n)) && NatValue(Digits(n)) == n
  {
    DigitsValue(n);
    DigitsSize(n);
  }

  lemma {:induction false} NumeralUnique(a: Text, b: Text)
    requires AllDigits(a) && AllDigits(b) && NoLeadingZero(a) && NoLeadingZero(b) && NatValue(a) == NatValue(b)
    ensures a == b
  {
    NumeralOrder(a, b);
    NumeralOrder(b, a);
    SameLength(a, if |a| == |b| then b else a);
  }

  /** Array indices are the decimal numerals of the numbers below 2^32 - 1. */
  lemma IndexExactly(key: Text)
    ensures IsIndex(key) <==> exists n: nat :: n < 4294967295 && key == Digits(n)
  {
    var limit := Ascii("4294967295");
    LimitValue();
    if IsIndex(key) {
      var n := NatValue(key);
      ValueBounds(key);
      DigitsNumeral(n);
      NumeralUnique(key, Digits(n));
      if |key| == 10 { SameLength(key, limit); } else { PowerGrows(|key|, 9); PowerNine(); }
    }
    if exists n: nat :: n < 4294967295 && key == Digits(n) {
      var n: nat :| n < 4294967295 && key == Digits(n);
      DigitsNumeral(n);
      NumeralOrder(key, limit);
    }
  }

  lemma PowerNine()
    ensures Power(9) == 1_000_000_000
  {
    assert Power(3) == 1000;
    assert Power(6) == 1_000_000;
  }

  lemma LimitUnits()
    ensures Ascii("4294967295") == [52, 50, 57, 52, 57, 54, 55, 50, 57, 53]
  {
  }

  lemma LimitValue()
    ensures var limit := Ascii("4294967295");
            AllDigits(limit) && NoLeadingZero(limit) && |limit| == 10 && NatValue(limit) == 4294967295
  {
    LimitUnits();
    hide Ascii, NatValue;
    var t := Ascii("4294967295");
    NoValue(t[..0]);
    ValueAt(t, 1);
    ValueAt(t, 2);
    ValueAt(t, 3);
    ValueAt(t, 4);
    ValueAt(t, 5);
    ValueAt(t, 6);
    ValueAt(t, 7);
    ValueAt(t, 8);
    ValueAt(t, 9);
    ValueAt(t, 10);
    assert t[..10] == t;
  }

  lemma NoValue(t: Text)
    requires |t| == 0
    ensures NatValue(t) == 0
  {
  }

  lemma ValueAt(t: Text, k: nat)
    requires AllDigits(t) && 0 < k <= |t|
    ensures NatValue(t[..k]) == 10 * NatValue(t[..k - 1]) + (t[k - 1] - 48)
  {
    assert t[..k][..k - 1] == t[..k - 1];
  }

  /** An object visits its array indices first, in the order of the numbers that they stand for. */
  lemma IndexOrderExactly(m: nat, n: nat)
    requires m < 4294967295 && n < 4294967295
    ensures Precedes(Digits(m), Digits(n)) <==> m < n
  {
    IndexExactly(Digits(m));
    IndexExactly(Digits(n));
    DigitsNumeral(m);
    DigitsNumeral(n);
    NumeralOrder(Digits(m), Digits(n));
  }
}
