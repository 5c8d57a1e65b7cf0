/** JavaScript strings: sequences of UTF-16 code units, with the comparison that
    Array.prototype.sort applies to strings. */
module Utf16 {
  type CodeUnit = n: int | 0 <= n < 0x1_0000

  type Text = seq<CodeUnit>

  const NEWLINE: CodeUnit := 10
  const SPACE: CodeUnit := 32
  const QUOTE: CodeUnit := 34
  const STAR: CodeUnit := 42
  const COMMA: CodeUnit := 44
  const MINUS: CodeUnit := 45
  const COLON: CodeUnit := 58
  const OPEN_BRACKET: CodeUnit := 91
  const BACKSLASH: CodeUnit := 92
  const CLOSE_BRACKET: CodeUnit := 93
  const OPEN_BRACE: CodeUnit := 123
  const CLOSE_BRACE: CodeUnit := 125

  /** The code units of an ASCII literal. */
  function Ascii(s: string): (t: Text)
    requires forall i :: 0 <= i < |s| ==> s[i] as int < 128
    ensures |t| == |s| && forall i :: 0 <= i < |s| ==> t[i] == s[i] as int
  {
    seq(|s|, i requires 0 <= i < |s| => s[i] as CodeUnit)
  }

  /** The parts put together, with a text between each two. */
  function JoinWith(parts: seq<Text>, between: Text): Text {
    if |parts| == 0 then [] else if |parts| == 1 then parts[0] else parts[0] + between + JoinWith(parts[1..], between)
  }

  predicate IsHighSurrogate(u: CodeUnit) { 0xD800 <= u < 0xDC00 }

  predicate IsLowSurrogate(u: CodeUnit) { 0xDC00 <= u < 0xE000 }

  predicate IsDigit(u: CodeUnit) { 48 <= u <= 57 }

  /** A surrogate at this position is half of a pair. */
  predicate PairedAt(t: Text, i: nat)
    requires i < |t|
  {
    && (IsHighSurrogate(t[i]) ==> i + 1 < |t| && IsLowSurrogate(t[i + 1]))
    && (IsLowSurrogate(t[i]) ==> 0 < i && IsHighSurrogate(t[i - 1]))
  }

  /** Every surrogate is half of a pair, so that encoding to UTF-8 loses nothing. */
  ghost predicate WellFormed(t: Text) {
    forall i :: 0 <= i < |t| ==> PairedAt(t, i)
  }

  /** Strict lexicographic order on code units. */
  predicate Less(a: Text, b: Text) {
    if |b| == 0 then false
    else if |a| == 0 then true
    else a[0] < b[0] || (a[0] == b[0] && Less(a[1..], b[1..]))
  }

  lemma {:induction false} LessTotal(a: Text, b: Text)
    ensures Less(a, b) || a == b || Less(b, a)
    ensures !(Less(a, b) && Less(b, a)) && !Less(a, a)
  {
    if |a| > 0 && |b| > 0 {
      LessTotal(a[1..], b[1..]);
      LessTotal(a[1..], a[1..]);
      assert a == [a[0]] + a[1..] && b == [b[0]] + b[1..];
    } else if |a| > 0 {
      LessTotal(a[1..], a[1..]);
    }
  }

  lemma {:induction false} LessTransitive(a: Text, b: Text, c: Text)
    requires Less(a, b) && Less(b, c)
    ensures Less(a, c)
  {
    if |a| > 0 && a[0] == b[0] == c[0] {
      LessTransitive(a[1..], b[1..], c[1..]);
    }
  }

  /** The order by the first difference: a is a proper prefix of b, or has the smaller unit where the
      two first differ. */
  ghost predicate Before(a: Text, b: Text) {
    exists k :: 0 <= k <= |a| && k <= |b| && a[..k] == b[..k] &&
      ((k == |a| && k < |b|) || (k < |a| && k < |b| && a[k] < b[k]))
  }

  lemma BeforeCons(a: Text, b: Text)
    requires |a| > 0 && |b| > 0
    ensures Before(a, b) <==> a[0] < b[0] || (a[0] == b[0] && Before(a[1..], b[1..]))
  {
    if a[0] < b[0] { assert a[..0] == b[..0]; }
    if a[0] == b[0] && Before(a[1..], b[1..]) {
      var k :| 0 <= k <= |a[1..]| && k <= |b[1..]| && a[1..][..k] == b[1..][..k] &&
        ((k == |a[1..]| && k < |b[1..]|) || (k < |a[1..]| && k < |b[1..]| && a[1..][k] < b[1..][k]));
      assert a[..k + 1] == [a[0]] + a[1..][..k] && b[..k + 1] == [b[0]] + b[1..][..k];
    }
    if Before(a, b) {
      var k :| 0 <= k <= |a| && k <= |b| && a[..k] == b[..k] &&
        ((k == |a| && k < |b|) || (k < |a| && k < |b| && a[k] < b[k]));
      if k > 0 {
        assert a[..k][0] == b[..k][0];
        assert a[1..][..k - 1] == a[..k][1..] && b[1..][..k - 1] == b[..k][1..];
      }
    }
  }

  lemma {:induction false} LessExactly(a: Text, b: Text)
    ensures Less(a, b) <==> Before(a, b)
  {
    if |a| > 0 && |b| > 0 {
      LessExactly(a[1..], b[1..]);
      BeforeCons(a, b);
    } else if |b| > 0 {
      assert a[..0] == b[..0];
    }
  }

  // ----- Sorting distinct texts -----

  ghost predicate Ascending(ts: seq<Text>) {
    forall i, j :: 0 <= i < j < |ts| ==> Less(ts[i], ts[j])
  }

  function Insert(t: Text, ts: seq<Text>): (r: seq<Text>)
    ensures |r| == |ts| + 1 && forall k :: k in r <==> k == t || k in ts
  {
    if |ts| == 0 || Less(t, ts[0]) then [t] + ts
    else [ts[0]] + Insert(t, ts[1..])
  }

  /** Array.prototype.sort without a comparator. */
  function Sort(ts: seq<Text>): (r: seq<Text>)
    ensures |r| == |ts| && forall k :: k in r <==> k in ts
  {
    if |ts| == 0 then [] else Insert(ts[0], Sort(ts[1..]))
  }

  ghost predicate Distinct<T>(xs: seq<T>) {
    forall i, j :: 0 <= i < j < |xs| ==> xs[i] != xs[j]
  }

  ghost function Elements<T>(xs: seq<T>): set<T> { set x | x in xs }

  lemma {:induction false} InsertAscending(t: Text, ts: seq<Text>)
    requires Ascending(ts) && t !in ts
    ensures Ascending(Insert(t, ts))
  {
    if |ts| > 0 {
      LessTotal(t, ts[0]);
      if Less(t, ts[0]) {
        forall j | 0 <= j < |ts| ensures Less(t, ts[j]) {
          if j > 0 { LessTransitive(t, ts[0], ts[j]); }
        }
      } else {
        InsertAscending(t, ts[1..]);
        forall k | k in Insert(t, ts[1..]) ensures Less(ts[0], k) {
          assert k == t || k in ts[1..];
        }
      }
    }
  }

  lemma {:induction false} SortAscending(ts: seq<Text>)
    requires Distinct(ts)
    ensures Ascending(Sort(ts))
  {
    if |ts| > 0 {
      SortAscending(ts[1..]);
      assert forall k :: k in ts[1..] ==> ts[0] != k;
      InsertAscending(ts[0], Sort(ts[1..]));
    }
  }

  lemma FirstElement<T>(xs: seq<T>)
    ensures xs == [] || xs[0] in xs
  {
  }

  /** An ascending sequence is determined by its elements. */
  lemma {:induction false} AscendingUnique(a: seq<Text>, b: seq<Text>)
    requires Ascending(a) && Ascending(b) && forall k :: k in a <==> k in b
    ensures a == b
  {
    if |a| == 0 {
      FirstElement(b);
    } else {
      assert a[0] in b;
      assert b[0] in a;
      LessTotal(a[0], b[0]);
      forall k ensures k in a[1..] <==> k in b[1..] {
        LessTotal(k, k);
        assert k in a <==> k == a[0] || k in a[1..];
        assert k in b <==> k == b[0] || k in b[1..];
      }
      AscendingUnique(a[1..], b[1..]);
      assert a == [a[0]] + a[1..] && b == [b[0]] + b[1..];
    }
  }
}
