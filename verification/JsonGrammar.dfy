/** The texts that JSON.parse accepts, and the values that they stand for, as a grammar (RFC 8259
    without fractions and exponents). */
module JsonGrammar {
  import opened Utf16
  import opened Wrappers
  import opened Records
  import opened JsonText
  import opened Numerals

  // ----- The grammar -----

  ghost predicate Spaces(w: Text) { forall i :: 0 <= i < |w| ==> w[i] == 32 || w[i] == 9 || w[i] == 10 || w[i] == 13 }

  /** A hexadecimal digit, in either case, and its value. */
  ghost predicate Hex(u: CodeUnit, d: int) {
    (0 <= d <= 9 && u == 48 + d) || (10 <= d <= 15 && (u == 97 + d - 10 || u == 65 + d - 10))
  }

  /** The ways to write one unit of a string: as it is, with a letter, or with four digits. */
  ghost predicate UnitSpelled(a: Text, u: CodeUnit) {
    || (a == [u] && u >= 32 && u != 34 && u != 92)
    || (|a| == 2 && a[0] == 92 && Letter(a[1], u))
    || (|a| == 6 && a[0] == 92 && a[1] == 117 &&
        exists d, e, f, g :: Hex(a[2], d) && Hex(a[3], e) && Hex(a[4], f) && Hex(a[5], g) &&
          u == 4096 * d + 256 * e + 16 * f + g)
  }

  ghost predicate Letter(letter: CodeUnit, u: CodeUnit) {
    || (u == letter && (u == 34 || u == 92 || u == 47))
    || (letter == 98 && u == 8) || (letter == 102 && u == 12) || (letter == 110 && u == 10)
    || (letter == 114 && u == 13) || (letter == 116 && u == 9)
  }

  ghost predicate BodyText(t: Text, s: Text)
    decreases |s|
  {
    if |s| == 0 then t == []
    else exists a, b :: t == a + b && UnitSpelled(a, s[0]) && BodyText(b, s[1..])
  }

  ghost predicate StringText(t: Text, s: Text) { exists b :: t == [34] + b + [34] && BodyText(b, s) }

  ghost predicate Numeral(t: Text) { AllDigits(t) && NoLeadingZero(t) }

  ghost predicate NumberText(t: Text, n: int) {
    || (Numeral(t) && n == NatValue(t))
    || (|t| > 0 && t[0] == 45 && Numeral(t[1..]) && n == 0 - NatValue(t[1..]))
  }

  /** The text of a value, without spaces around it. */
  ghost predicate ValueText(t: Text, v: Json)
    decreases |t|, 1
  {
    match v
    case Null => t == Ascii("null")
    case Bool(b) => t == if b then Ascii("true") else Ascii("false")
    case Num(n) => NumberText(t, n)
    case Str(s) => StringText(t, s)
    case Arr(items) => exists w, b :: Bracketed(t, w, b, items)
    case Obj(ps) => exists w, b, entries :: Braced(t, w, b, entries) && ps == PutAll([], entries)
  }

  /** Elements in brackets, with spaces before the first one. */
  ghost predicate Bracketed(t: Text, w: Text, b: Text, items: seq<Json>)
    decreases |t|, 0
  {
    t == [91] + w + b + [93] && Spaces(w) && if items == [] then b == [] else ElementsText(b, items)
  }

  ghost predicate Braced(t: Text, w: Text, b: Text, entries: Props<Json>)
    decreases |t|, 0
  {
    t == [123] + w + b + [125] && Spaces(w) && if entries == [] then b == [] else EntriesText(b, entries)
  }

  /** Elements with commas between them, and spaces after each and after each comma. */
  ghost predicate ElementsText(t: Text, items: seq<Json>)
    requires |items| > 0
    decreases |t|, 2
  {
    exists a, w, more ::
      t == a + w + more && ValueText(a, items[0]) && Spaces(w) && MoreElements(more, items[1..])
  }

  ghost predicate MoreElements(t: Text, items: seq<Json>)
    decreases |t|, 0
  {
    if |items| == 0 then t == []
    else exists x, b :: t == [44] + x + b && Spaces(x) && ElementsText(b, items)
  }

  /** Entries: a name, a colon and a value each. */
  ghost predicate EntriesText(t: Text, entries: Props<Json>)
    requires |entries| > 0
    decreases |t|, 2
  {
    exists k, a, w, more ::
      t == k + a + w + more && NameText(k, entries[0].0) && ValueText(a, entries[0].1) && Spaces(w) &&
      MoreEntries(more, entries[1..])
  }

  ghost predicate MoreEntries(t: Text, entries: Props<Json>)
    decreases |t|, 0
  {
    if |entries| == 0 then t == []
    else exists x, b :: t == [44] + x + b && Spaces(x) && EntriesText(b, entries)
  }

  ghost predicate NameText(t: Text, name: Text) {
    exists q, w, x :: t == q + w + [58] + x && StringText(q, name) && Spaces(w) && Spaces(x)
  }

  ghost predicate JsonTextOf(s: Text, v: Json) {
    exists w, t, x :: s == w + t + x && Spaces(w) && Spaces(x) && ValueText(t, v)
  }

  // ----- Spaces -----

  lemma SpaceExactly(u: CodeUnit)
    ensures IsSpace(u) <==> Spaces([u])
  {
    assert [u][0] == u;
  }

  lemma {:induction false} SplitSpaces(s: Text) returns (w: Text)
    ensures s == w + SkipSpace(s) && Spaces(w)
    ensures |SkipSpace(s)| > 0 ==> !IsSpace(SkipSpace(s)[0])
  {
    if |s| > 0 && IsSpace(s[0]) {
      var x := SplitSpaces(s[1..]);
      w := [s[0]] + x;
      assert s == [s[0]] + s[1..];
    } else {
      w := [];
    }
  }

  lemma {:induction false} SkipSpaces(w: Text, s: Text)
    requires Spaces(w) && (|s| > 0 ==> !IsSpace(s[0]))
    ensures SkipSpace(w + s) == s
  {
    if |w| > 0 {
      assert (w + s)[1..] == w[1..] + s;
      SkipSpaces(w[1..], s);
    } else {
      assert w + s == s;
    }
  }

  // ----- Strings -----

  lemma HexExactly(u: CodeUnit, d: int)
    ensures HexValue(u) == Some(d) <==> Hex(u, d)
  {
  }

  lemma LetterExactly(letter: CodeUnit, u: CodeUnit)
    ensures Unescape(letter) == Some(u) <==> Letter(letter, u)
  {
  }

  lemma FourExactly(a: Text, u: CodeUnit)
    requires |a| == 4
    ensures ParseHex(a) == Some(u) <==>
              exists d, e, f, g ::
                Hex(a[0], d) && Hex(a[1], e) && Hex(a[2], f) && Hex(a[3], g) && u == 4096 * d + 256 * e + 16 * f + g
  {
    hide HexValue, Hex;
    if ParseHex(a) == Some(u) {
      var d, e, f, g := HexValue(a[0]).value, HexValue(a[1]).value, HexValue(a[2]).value, HexValue(a[3]).value;
      HexExactly(a[0], d);
      HexExactly(a[1], e);
      HexExactly(a[2], f);
      HexExactly(a[3], g);
    }
    if d, e, f, g :|
      Hex(a[0], d) && Hex(a[1], e) && Hex(a[2], f) && Hex(a[3], g) && u == 4096 * d + 256 * e + 16 * f + g
    {
      HexExactly(a[0], d);
      HexExactly(a[1], e);
      HexExactly(a[2], f);
      HexExactly(a[3], g);
    }
  }

  lemma UnitSound(s: Text) returns (a: Text)
    requires ReadUnit(s).Success?
    ensures s == a + ReadUnit(s).rest && UnitSpelled(a, ReadUnit(s).value)
  {
    hide ParseHex, Unescape, Hex, Letter;
    var u := ReadUnit(s).value;
    if s[0] != 92 {
      a := [s[0]];
    } else if Unescape(s[1]).Some? {
      a := s[..2];
      LetterExactly(s[1], u);
    } else {
      a := s[..6];
      FourExactly(s[2..6], u);
    }
  }

  lemma UnitComplete(a: Text, u: CodeUnit, rest: Text)
    requires UnitSpelled(a, u)
    ensures ReadUnit(a + rest) == Success(u, rest) && |a| > 0 && (a + rest)[0] != 34
  {
    hide ParseHex, Unescape, Hex, Letter;
    var s := a + rest;
    assert s[|a|..] == rest;
    if |a| == 2 {
      LetterExactly(a[1], u);
    } else if |a| == 6 {
      assert s[2..6] == a[2..6];
      FourExactly(a[2..6], u);
      NoLetter();
    }
  }

  lemma NoLetter()
    ensures Unescape(117).None?
  {
  }

  lemma {:induction false} BodySound(s: Text) returns (t: Text)
    requires ParseBody(s).Success?
    ensures s == t + [34] + ParseBody(s).rest && BodyText(t, ParseBody(s).value)
    decreases |s|
  {
    hide UnitSpelled, ReadUnit;
    if s[0] == 34 {
      t := [];
      assert s == [s[0]] + s[1..];
    } else {
      var a := UnitSound(s);
      var unit := ReadUnit(s);
      var b := BodySound(unit.rest);
      t := a + b;
      var value := ParseBody(s).value;
      assert value == [unit.value] + ParseBody(unit.rest).value;
      assert value[1..] == ParseBody(unit.rest).value;
      assert s == a + (b + [34] + ParseBody(s).rest);
    }
  }

  lemma {:induction false} BodyComplete(t: Text, s: Text, rest: Text)
    requires BodyText(t, s)
    ensures ParseBody(t + [34] + rest) == Success(s, rest)
    decreases |s|
  {
    hide UnitSpelled, ReadUnit;
    if |s| == 0 {
      assert (t + [34] + rest)[1..] == rest;
    } else {
      var a, b :| t == a + b && UnitSpelled(a, s[0]) && BodyText(b, s[1..]);
      BodyComplete(b, s[1..], rest);
      UnitComplete(a, s[0], b + [34] + rest);
      assert t + [34] + rest == a + (b + [34] + rest);
      assert s == [s[0]] + s[1..];
    }
  }

  // ----- Numbers -----

  lemma NumeralSound(s: Text) returns (t: Text)
    requires ParseNat(s).Success?
    ensures s == t + ParseNat(s).rest && Numeral(t) && NatValue(t) == ParseNat(s).value
    ensures EndsNumber(ParseNat(s).rest)
  {
    hide EndsNumber, NatValue;
    t := s[..DigitRun(s)];
    assert s == t + s[DigitRun(s)..];
  }

  lemma NumeralComplete(t: Text, rest: Text)
    requires Numeral(t) && EndsNumber(rest)
    ensures ParseNat(t + rest) == Success(NatValue(t), rest)
  {
    hide NatValue;
    DigitRunAll(t, rest);
    assert (t + rest)[..|t|] == t && (t + rest)[|t|..] == rest;
  }

  lemma NumberSound(s: Text) returns (t: Text)
    requires |s| > 0 && ParseNumber(s).Success?
    ensures ParseNumber(s).value.Num? && s == t + ParseNumber(s).rest
    ensures NumberText(t, ParseNumber(s).value.n) && EndsNumber(ParseNumber(s).rest)
  {
    hide EndsNumber, NatValue, ParseNat, Numeral;
    if s[0] == 45 {
      var d := NumeralSound(s[1..]);
      t := [45] + d;
      assert t[1..] == d && s == [s[0]] + s[1..];
    } else {
      t := NumeralSound(s);
    }
  }

  lemma NumberComplete(t: Text, n: int, rest: Text)
    requires NumberText(t, n) && EndsNumber(rest)
    ensures |t| > 0 && ParseNumber(t + rest) == Success(Num(n), rest)
    ensures t[0] == 45 || IsDigit(t[0])
  {
    hide EndsNumber, NatValue, ParseNat;
    if Numeral(t) && n == NatValue(t) {
      NumeralComplete(t, rest);
    } else {
      NumeralComplete(t[1..], rest);
      assert (t + rest)[1..] == t[1..] + rest;
    }
  }

  // ----- Whatever is parsed is in the grammar -----

  lemma WordSound(s: Text, word: Text)
    requires word <= s
    ensures s == word + s[|word|..]
  {
  }

  lemma ScalarSound(s: Text) returns (t: Text)
    requires |s| > 0 && ParseScalar(s).Success?
    ensures var v := ParseScalar(s).value;
            s == t + ParseScalar(s).rest && ValueText(t, v) && (v.Num? ==> EndsNumber(ParseScalar(s).rest))
  {
    hide ParseBody, BodyText, ParseNumber, NumberText, EndsNumber;
    if s[0] == 34 {
      var b := BodySound(s[1..]);
      t := [34] + b + [34];
      assert s == [s[0]] + s[1..];
      assert s == t + ParseBody(s[1..]).rest;
    } else if s[0] == 110 {
      t := Ascii("null");
      WordSound(s, t);
    } else if s[0] == 116 {
      t := Ascii("true");
      WordSound(s, t);
    } else if s[0] == 102 {
      t := Ascii("false");
      WordSound(s, t);
    } else {
      t := NumberSound(s);
    }
  }

  lemma {:induction false} ValueSound(s: Text) returns (t: Text)
    requires ParseValue(s).Success?
    ensures var v := ParseValue(s).value;
            s == t + ParseValue(s).rest && ValueText(t, v) && (v.Num? ==> EndsNumber(ParseValue(s).rest))
    decreases |s|, 0
  {
    hide ParseScalar, ValueText, ElementsText, EntriesText, ParseItems, ParseMembers, SkipSpace, PutAll, Spaces;
    assert s == [s[0]] + s[1..];
    if s[0] == 91 {
      var w := SplitSpaces(s[1..]);
      var inner := SkipSpace(s[1..]);
      var b := ItemsSound(inner, true);
      t := [91] + w + b + [93];
      assert s == t + ParseItems(inner, true).rest;
      ArrayTextOf(w, b, ParseItems(inner, true).value);
    } else if s[0] == 123 {
      var w := SplitSpaces(s[1..]);
      var inner := SkipSpace(s[1..]);
      var b := MembersSound(inner, true);
      t := [123] + w + b + [125];
      assert s == t + ParseMembers(inner, true).rest;
      ObjectTextOf(w, b, ParseMembers(inner, true).value);
    } else {
      t := ScalarSound(s);
    }
  }

  lemma ArrayTextOf(w: Text, b: Text, items: seq<Json>)
    requires Spaces(w) && if items == [] then b == [] else ElementsText(b, items)
    ensures ValueText([91] + w + b + [93], Arr(items))
  {
    hide ElementsText, Spaces;
    assert Bracketed([91] + w + b + [93], w, b, items);
  }

  lemma ObjectTextOf(w: Text, b: Text, entries: Props<Json>)
    requires Spaces(w) && if entries == [] then b == [] else EntriesText(b, entries)
    ensures ValueText([123] + w + b + [125], Obj(PutAll([], entries)))
  {
    hide EntriesText, Spaces, PutAll;
    assert Braced([123] + w + b + [125], w, b, entries);
  }

  /** After an element or member: spaces, and then the closing unit, or a comma and more spaces. */
  lemma NextSound(s: Text, close: CodeUnit) returns (w: Text, x: Text)
    requires !ParseNext(s, close).Bad?
    ensures Spaces(w) && Spaces(x)
    ensures match ParseNext(s, close)
            case Close(rest) => s == w + [close] + rest
            case More(rest) => s == w + [44] + x + rest
            case Bad => false
  {
    hide SkipSpace, Spaces;
    w := SplitSpaces(s);
    var t := SkipSpace(s);
    assert t == [t[0]] + t[1..];
    if t[0] == close {
      x := [];
      NoSpaces();
    } else {
      x := SplitSpaces(t[1..]);
    }
  }

  lemma NoSpaces()
    ensures Spaces([])
  {
  }

  lemma {:induction false} ItemsSound(s: Text, whole: bool) returns (b: Text)
    requires ParseItems(s, whole).Success?
    ensures var items := ParseItems(s, whole).value;
            s == b + [93] + ParseItems(s, whole).rest && if items == [] then b == [] else ElementsText(b, items)
    decreases |s|, 1
  {
    hide ParseValue, ParseNext, ValueText, ElementsText, MoreElements, Spaces;
    if whole && s[0] == 93 {
      b := [];
      assert s == [s[0]] + s[1..];
    } else {
      var a := ValueSound(s);
      var first := ParseValue(s);
      var w, x := NextSound(first.rest, 93);
      var next := ParseNext(first.rest, 93);
      if next.Close? {
        b := a + w + [];
        assert s == b + [93] + next.rest;
        NoMoreElements();
        OneMoreElement(a, w, [], first.value, []);
        assert [first.value] + [] == [first.value];
      } else {
        var c := ItemsSound(next.rest, false);
        var more := ParseItems(next.rest, false).value;
        SomeItems(next.rest);
        CommaElements(x, c, more);
        b := a + w + ([44] + x + c);
        assert s == b + [93] + ParseItems(next.rest, false).rest;
        OneMoreElement(a, w, [44] + x + c, first.value, more);
      }
    }
  }

  lemma NoMoreElements()
    ensures MoreElements([], [])
  {
  }

  lemma CommaElements(x: Text, b: Text, items: seq<Json>)
    requires Spaces(x) && |items| > 0 && ElementsText(b, items)
    ensures MoreElements([44] + x + b, items)
  {
    hide ElementsText, Spaces;
  }

  lemma OneMoreElement(a: Text, w: Text, more: Text, v: Json, items: seq<Json>)
    requires ValueText(a, v) && Spaces(w) && MoreElements(more, items)
    ensures ElementsText(a + w + more, [v] + items)
  {
    hide ValueText, Spaces, MoreElements;
    assert ([v] + items)[1..] == items;
  }

  lemma SomeItems(s: Text)
    requires ParseItems(s, false).Success?
    ensures |ParseItems(s, false).value| > 0
  {
    hide ParseValue, ParseNext;
  }

  lemma NameSound(s: Text) returns (k: Text)
    requires ParseName(s).Success?
    ensures s == k + ParseName(s).rest && NameText(k, ParseName(s).value)
  {
    hide ParseBody, SkipSpace, BodyText, Spaces;
    var b := BodySound(s[1..]);
    var after := ParseBody(s[1..]).rest;
    var w := SplitSpaces(after);
    var c := SkipSpace(after);
    var x := SplitSpaces(c[1..]);
    var q := [34] + b + [34];
    k := q + w + [58] + x;
    assert s == [s[0]] + s[1..] && c == [c[0]] + c[1..];
    assert s == k + ParseName(s).rest;
    assert StringText(q, ParseName(s).value);
  }

  lemma {:induction false} MembersSound(s: Text, whole: bool) returns (b: Text)
    requires ParseMembers(s, whole).Success?
    ensures var entries := ParseMembers(s, whole).value;
            s == b + [125] + ParseMembers(s, whole).rest && if entries == [] then b == [] else EntriesText(b, entries)
    decreases |s|, 1
  {
    hide ParseValue, ParseNext, ParseName, ValueText, NameText, EntriesText, MoreEntries, Spaces;
    if whole && s[0] == 125 {
      b := [];
      assert s == [s[0]] + s[1..];
    } else {
      var k := NameSound(s);
      var name := ParseName(s);
      var a := ValueSound(name.rest);
      var value := ParseValue(name.rest);
      var w, x := NextSound(value.rest, 125);
      var next := ParseNext(value.rest, 125);
      if next.Close? {
        b := k + a + w + [];
        assert s == b + [125] + next.rest;
        NoMoreEntries();
        OneMoreEntry(k, a, w, [], name.value, value.value, []);
        assert [(name.value, value.value)] + [] == [(name.value, value.value)];
      } else {
        var c := MembersSound(next.rest, false);
        var more := ParseMembers(next.rest, false).value;
        SomeMembers(next.rest);
        CommaEntries(x, c, more);
        b := k + a + w + ([44] + x + c);
        assert s == b + [125] + ParseMembers(next.rest, false).rest;
        OneMoreEntry(k, a, w, [44] + x + c, name.value, value.value, more);
      }
    }
  }

  lemma NoMoreEntries()
    ensures MoreEntries([], [])
  {
  }

  lemma CommaEntries(x: Text, b: Text, entries: Props<Json>)
    requires Spaces(x) && |entries| > 0 && EntriesText(b, entries)
    ensures MoreEntries([44] + x + b, entries)
  {
    hide EntriesText, Spaces;
  }

  lemma OneMoreEntry(k: Text, a: Text, w: Text, more: Text, name: Text, v: Json, entries: Props<Json>)
    requires NameText(k, name) && ValueText(a, v) && Spaces(w) && MoreEntries(more, entries)
    ensures EntriesText(k + a + w + more, [(name, v)] + entries)
  {
    hide NameText, ValueText, Spaces, MoreEntries;
    assert ([(name, v)] + entries)[1..] == entries;
  }

  lemma SomeMembers(s: Text)
    requires ParseMembers(s, false).Success?
    ensures |ParseMembers(s, false).value| > 0
  {
    hide ParseValue, ParseNext, ParseName;
  }

  // ----- Whatever is in the grammar is parsed -----

  lemma ValueStart(t: Text, v: Json)
    requires ValueText(t, v)
    ensures |t| > 0 && !IsSpace(t[0]) && t[0] != 93 && t[0] != 125
  {
    hide ElementsText, EntriesText, BodyText, NatValue, PutAll;
    if v.Num? && |t| > 0 { assert t[0] == 45 || IsDigit(t[0]); }
  }

  lemma ScalarComplete(t: Text, v: Json, rest: Text)
    requires ValueText(t, v) && !v.Arr? && !v.Obj? && (v.Num? ==> EndsNumber(rest))
    ensures ParseValue(t + rest) == Success(v, rest)
  {
    hide ParseBody, BodyText, ParseNumber, NumberText, EndsNumber;
    match v
    case Num(n) =>
      NumberComplete(t, n, rest);
    case Str(s) =>
      var b :| t == [34] + b + [34] && BodyText(b, s);
      BodyComplete(b, s, rest);
      assert (t + rest)[1..] == b + [34] + rest;
    case _ =>
      WordReadBack(t, rest);
  }

  lemma {:induction false} ValueComplete(t: Text, v: Json, rest: Text)
    requires ValueText(t, v) && (v.Num? ==> EndsNumber(rest))
    ensures ParseValue(t + rest) == Success(v, rest)
    decreases |t|, 0
  {
    hide ParseValue, ElementsText, EntriesText, PutAll, Spaces;
    match v
    case Arr(items) =>
      var w, b :| Bracketed(t, w, b, items);
      if items != [] { ItemsComplete(b, items, rest, true); }
      ArrayComplete(t, w, b, items, rest);
    case Obj(ps) =>
      var w, b, entries :| Braced(t, w, b, entries) && ps == PutAll([], entries);
      if entries != [] { MembersComplete(b, entries, rest, true); }
      ObjectComplete(t, w, b, entries, rest);
    case _ => ScalarComplete(t, v, rest);
  }

  lemma ArrayComplete(t: Text, w: Text, b: Text, items: seq<Json>, rest: Text)
    requires t == [91] + w + b + [93] && Spaces(w)
    requires if items == [] then b == []
             else |b| > 0 && !IsSpace(b[0]) && ParseItems(b + [93] + rest, true) == Success(items, rest)
    ensures ParseValue(t + rest) == Success(Arr(items), rest)
  {
    hide ParseItems, ParseValue, SkipSpace, Spaces;
    var inner := b + [93] + rest;
    if items == [] {
      EmptySteps(rest);
      assert inner == [93] + rest;
    }
    assert (t + rest)[1..] == w + inner;
    SkipSpaces(w, inner);
    ArrayStep(t + rest, items, rest);
  }

  lemma ObjectComplete(t: Text, w: Text, b: Text, entries: Props<Json>, rest: Text)
    requires t == [123] + w + b + [125] && Spaces(w)
    requires if entries == [] then b == []
             else |b| > 0 && !IsSpace(b[0]) && ParseMembers(b + [125] + rest, true) == Success(entries, rest)
    ensures ParseValue(t + rest) == Success(Obj(PutAll([], entries)), rest)
  {
    hide ParseMembers, ParseValue, SkipSpace, PutAll, Spaces;
    var inner := b + [125] + rest;
    if entries == [] {
      EmptySteps(rest);
      assert inner == [125] + rest;
    }
    assert (t + rest)[1..] == w + inner;
    SkipSpaces(w, inner);
    ObjectStep(t + rest, entries, rest);
  }

  lemma NextCloses(w: Text, close: CodeUnit, rest: Text)
    requires Spaces(w) && (close == 93 || close == 125)
    ensures ParseNext(w + [close] + rest, close) == Close(rest)
    ensures EndsNumber(w + [close] + rest)
  {
    hide SkipSpace;
    var t := [close] + rest;
    SkipSpaces(w, t);
    assert w + [close] + rest == w + t && t[1..] == rest;
  }

  lemma NextContinues(w: Text, x: Text, close: CodeUnit, rest: Text)
    requires Spaces(w) && Spaces(x) && (close == 93 || close == 125) && |rest| > 0 && !IsSpace(rest[0])
    ensures ParseNext(w + [44] + x + rest, close) == More(rest)
    ensures EndsNumber(w + [44] + x + rest)
  {
    hide SkipSpace;
    var t := [44] + (x + rest);
    SkipSpaces(w, t);
    SkipSpaces(x, rest);
    assert w + [44] + x + rest == w + t && t[1..] == x + rest;
  }

  lemma FirstElementText(b: Text, items: seq<Json>) returns (a: Text, w: Text, more: Text)
    requires |items| > 0 && ElementsText(b, items)
    ensures b == a + w + more && ValueText(a, items[0]) && Spaces(w) && MoreElements(more, items[1..])
    ensures |b| > 0 && !IsSpace(b[0])
  {
    hide ValueText, Spaces, MoreElements;
    a, w, more :| b == a + w + more && ValueText(a, items[0]) && Spaces(w) && MoreElements(more, items[1..]);
    ValueStart(a, items[0]);
  }

  lemma {:induction false} ItemsComplete(b: Text, items: seq<Json>, rest: Text, whole: bool)
    requires |items| > 0 && ElementsText(b, items)
    ensures |b| > 0 && !IsSpace(b[0])
    ensures ParseItems(b + [93] + rest, whole) == Success(items, rest)
    decreases |b|, 1
  {
    hide ParseValue, ParseItems, ParseNext, ValueText, Spaces, ElementsText, EndsNumber;
    var a, w, more := FirstElementText(b, items);
    var after := w + more + [93] + rest;
    var s := b + [93] + rest;
    assert s == a + after;
    ValueStart(a, items[0]);
    if |items| == 1 {
      assert after == w + [93] + rest;
      NextCloses(w, 93, rest);
    } else {
      var x, c :| more == [44] + x + c && Spaces(x) && ElementsText(c, items[1..]);
      ItemsComplete(c, items[1..], rest, false);
      var tail := c + [93] + rest;
      assert after == w + [44] + x + tail;
      NextContinues(w, x, 93, tail);
    }
    ValueComplete(a, items[0], after);
    assert items == [items[0]] + items[1..];
    ItemsStep(s, items[0], after, items[1..], rest, whole);
  }

  lemma NameComplete(k: Text, name: Text, rest: Text)
    requires NameText(k, name) && |rest| > 0 && !IsSpace(rest[0])
    ensures ParseName(k + rest) == Success(name, rest) && |k| > 0 && k[0] == 34
  {
    hide ParseBody, SkipSpace, BodyText, Spaces;
    var q, w, x :| k == q + w + [58] + x && StringText(q, name) && Spaces(w) && Spaces(x);
    var b :| q == [34] + b + [34] && BodyText(b, name);
    assert k + rest == [34] + b + [34] + w + [58] + x + rest;
    NameParses(b, w, x, name, rest);
  }

  lemma NameParses(b: Text, w: Text, x: Text, name: Text, rest: Text)
    requires BodyText(b, name) && Spaces(w) && Spaces(x) && |rest| > 0 && !IsSpace(rest[0])
    ensures ParseName([34] + b + [34] + w + [58] + x + rest) == Success(name, rest)
  {
    hide ParseBody, SkipSpace, BodyText, Spaces;
    var s := [34] + b + [34] + w + [58] + x + rest;
    var c := [58] + (x + rest);
    BodyComplete(b, name, w + c);
    assert s[1..] == b + [34] + (w + c);
    SkipSpaces(w, c);
    assert c[1..] == x + rest;
    SkipSpaces(x, rest);
  }

  lemma FirstEntryText(b: Text, entries: Props<Json>) returns (k: Text, a: Text, w: Text, more: Text)
    requires |entries| > 0 && EntriesText(b, entries)
    ensures b == k + a + w + more && NameText(k, entries[0].0) && ValueText(a, entries[0].1) && Spaces(w)
    ensures MoreEntries(more, entries[1..])
    ensures |b| > 0 && b[0] == 34 && |k| > 0
  {
    hide ValueText, Spaces, MoreEntries, NameText;
    k, a, w, more :| b == k + a + w + more && NameText(k, entries[0].0) && ValueText(a, entries[0].1) && Spaces(w) &&
      MoreEntries(more, entries[1..]);
    NameStart(k, entries[0].0);
  }

  lemma NameStart(k: Text, name: Text)
    requires NameText(k, name)
    ensures |k| > 0 && k[0] == 34
  {
    hide BodyText, Spaces;
  }

  lemma {:induction false} MembersComplete(b: Text, entries: Props<Json>, rest: Text, whole: bool)
    requires |entries| > 0 && EntriesText(b, entries)
    ensures |b| > 0 && !IsSpace(b[0])
    ensures ParseMembers(b + [125] + rest, whole) == Success(entries, rest)
    decreases |b|, 1
  {
    hide ParseValue, ParseMembers, ParseName, ParseNext, ValueText, NameText, Spaces, EntriesText, EndsNumber;
    var k, a, w, more := FirstEntryText(b, entries);
    var after := w + more + [125] + rest;
    var s := b + [125] + rest;
    var key, v := entries[0].0, entries[0].1;
    assert s == k + (a + after);
    ValueStart(a, v);
    if |entries| == 1 {
      assert after == w + [125] + rest;
      NextCloses(w, 125, rest);
    } else {
      var x, c :| more == [44] + x + c && Spaces(x) && EntriesText(c, entries[1..]);
      MembersComplete(c, entries[1..], rest, false);
      var tail := c + [125] + rest;
      assert after == w + [44] + x + tail;
      NextContinues(w, x, 125, tail);
    }
    NameComplete(k, key, a + after);
    ValueComplete(a, v, after);
    assert entries == [(key, v)] + entries[1..];
    MembersStep(s, key, a + after, v, after, entries[1..], rest, whole);
  }

  /** A text parses to a value exactly if it is a text of this value with spaces around it. */
  lemma ParseExactly(s: Text, v: Json)
    ensures Parse(s) == Some(v) <==> JsonTextOf(s, v)
  {
    hide ParseValue, ValueText, SkipSpace, Spaces;
    if Parse(s) == Some(v) {
      var w := SplitSpaces(s);
      var t := ValueSound(SkipSpace(s));
      var x := ParseValue(SkipSpace(s)).rest;
      var y := SplitSpaces(x);
      assert y == x + [] && s == w + t + x;
    }
    if JsonTextOf(s, v) {
      var w, t, x :| s == w + t + x && Spaces(w) && Spaces(x) && ValueText(t, v);
      ValueStart(t, v);
      SpacesEnd(x);
      SkipSpaces(w, t + x);
      assert s == w + (t + x);
      ValueComplete(t, v, x);
    }
  }

  lemma SpacesEnd(x: Text)
    requires Spaces(x)
    ensures EndsNumber(x) && SkipSpace(x) == []
  {
    SkipSpaces(x, []);
    assert x + [] == x;
  }
}
