/** What JSON.stringify writes, unit by unit and element by element. */
module JsonSpelling {
  import opened Utf16
  import opened Records
  import opened JsonText

  // ----- Strings -----

  function Flatten(texts: seq<Text>): Text {
    if |texts| == 0 then [] else texts[0] + Flatten(texts[1..])
  }

  const HEX: Text := Ascii("0123456789abcdef")

  /** The four hexadecimal digits of a unit. */
  function Hex4(u: CodeUnit): Text {
    [HEX[u / 16 / 16 / 16], HEX[u / 16 / 16 % 16], HEX[u / 16 % 16], HEX[u % 16]]
  }

  /** Whether the unit at this position is half of a surrogate pair. */
  predicate InPair(t: Text, i: nat)
    requires i < |t|
  {
    || (0xD800 <= t[i] <= 0xDBFF && i + 1 < |t| && 0xDC00 <= t[i + 1] <= 0xDFFF)
    || (0xDC00 <= t[i] <= 0xDFFF && i > 0 && 0xD800 <= t[i - 1] <= 0xDBFF)
  }

  /** How a unit is written: quote and backslash after a backslash, the control characters that have a
      letter as backslash and b, t, n, f or r, other control characters and lone surrogates as
      backslash, u and four digits, and every other unit as it is. */
  function UnitText(u: CodeUnit, paired: bool): Text {
    if u == 34 then [92, 34]
    else if u == 92 then [92, 92]
    else if u == 8 then [92, 98]
    else if u == 9 then [92, 116]
    else if u == 10 then [92, 110]
    else if u == 12 then [92, 102]
    else if u == 13 then [92, 114]
    else if u < 32 || (0xD800 <= u <= 0xDFFF && !paired) then [92, 117] + Hex4(u)
    else [u]
  }

  /** How the unit at this position of a string is written. */
  function Spelling(t: Text, i: nat): Text
    requires i < |t|
  {
    UnitText(t[i], InPair(t, i))
  }

  function Spellings(t: Text, from: nat): (r: seq<Text>)
    requires from <= |t|
    ensures |r| == |t| - from && forall i :: from <= i < |t| ==> r[i - from] == Spelling(t, i)
    decreases |t| - from
  {
    if from == |t| then [] else [Spelling(t, from)] + Spellings(t, from + 1)
  }

  lemma HexDigitExactly(d: int)
    requires 0 <= d < 16
    ensures HexDigit(d) == HEX[d]
  {
    var units := Ascii("0123456789abcdef");
    assert forall i :: 0 <= i < 10 ==> units[i] == 48 + i;
    assert forall i :: 10 <= i < 16 ==> units[i] == 87 + i;
  }

  lemma UnicodeExactly(u: CodeUnit)
    ensures UnicodeEscape(u) == [92, 117] + Hex4(u)
  {
    HexDigitExactly(u / 16 / 16 / 16);
    HexDigitExactly(u / 16 / 16 % 16);
    HexDigitExactly(u / 16 % 16);
    HexDigitExactly(u % 16);
    hide HEX;
  }

  lemma UnitExactly(u: CodeUnit)
    ensures EscapeUnit(u) == UnitText(u, false)
  {
    UnicodeExactly(u);
    hide UnicodeEscape, Hex4;
  }

  lemma UnitSpelling(t: Text, i: nat)
    requires i < |t| && !InPair(t, i)
    ensures EscapeUnit(t[i]) == Spelling(t, i)
  {
    hide EscapeUnit, UnitText;
    UnitExactly(t[i]);
  }

  lemma PairSpelling(t: Text, i: nat)
    requires i < |t| && InPair(t, i)
    ensures Spelling(t, i) == [t[i]]
  {
  }

  lemma {:induction false} EscapeFrom(t: Text, from: nat)
    requires from <= |t|
    requires from > 0 && from < |t| ==> !(0xD800 <= t[from - 1] <= 0xDBFF && 0xDC00 <= t[from] <= 0xDFFF)
    ensures Escape(t[from..]) == Flatten(Spellings(t, from))
    decreases |t| - from
  {
    hide EscapeUnit, Spelling;
    var s := t[from..];
    if from < |t| {
      if StartsWithPair(s) {
        assert s[0] == t[from] && s[1] == t[from + 1];
        assert s[2..] == t[from + 2..];
        EscapeFrom(t, from + 2);
        PairSpelling(t, from);
        PairSpelling(t, from + 1);
        assert s[..2] == [t[from]] + [t[from + 1]];
        TwoMore(Spelling(t, from), Spelling(t, from + 1), Spellings(t, from + 2));
      } else {
        assert |s| > 1 ==> s[1] == t[from + 1];
        assert s[1..] == t[from + 1..];
        EscapeFrom(t, from + 1);
        UnitSpelling(t, from);
      }
    }
  }

  lemma TwoMore(a: Text, b: Text, rest: seq<Text>)
    ensures Flatten([a] + ([b] + rest)) == a + b + Flatten(rest)
  {
    assert ([a] + ([b] + rest))[1..] == [b] + rest && ([b] + rest)[1..] == rest;
    assert a + (b + Flatten(rest)) == a + b + Flatten(rest);
  }

  /** A string is written between quotes, each unit by its spelling. */
  lemma QuoteExactly(t: Text)
    ensures Stringify(Str(t)) == Quote(t) == [34] + Flatten(Spellings(t, 0)) + [34]
  {
    EscapeFrom(t, 0);
    assert t[0..] == t;
  }

  // ----- Other values -----

  /** null, true, false, and a number as its sign and the numeral of its size. */
  lemma ScalarsExactly(n: int)
    ensures Stringify(Null) == Ascii("null")
    ensures Stringify(Bool(true)) == Ascii("true") && Stringify(Bool(false)) == Ascii("false")
    ensures Stringify(Num(n)) == if n < 0 then [45] + Digits(0 - n) else Digits(n)
  {
  }

  function Texts(items: seq<Json>): (r: seq<Text>)
    ensures |r| == |items| && forall i :: 0 <= i < |r| ==> r[i] == Stringify(items[i])
  {
    seq(|items|, i requires 0 <= i < |items| => Stringify(items[i]))
  }

  function MemberTexts(ps: Props<Json>): (r: seq<Text>)
    ensures |r| == |ps| && forall i :: 0 <= i < |r| ==> r[i] == Quote(ps[i].0) + [58] + Stringify(ps[i].1)
  {
    seq(|ps|, i requires 0 <= i < |ps| => Quote(ps[i].0) + [58] + Stringify(ps[i].1))
  }

  lemma {:induction false} ItemsJoined(items: seq<Json>)
    ensures Items(items) == JoinWith(Texts(items), [44])
  {
    hide Stringify;
    if |items| > 0 {
      ItemsJoined(items[1..]);
      assert Texts(items)[1..] == Texts(items[1..]);
      if |items| == 1 { assert Items(items[1..]) == []; }
      assert Separator(|items|) + Items(items[1..]) == if |items| > 1 then [44] + Items(items[1..]) else [];
    }
  }

  lemma {:induction false} MembersJoined(ps: Props<Json>)
    ensures Members(ps) == JoinWith(MemberTexts(ps), [44])
  {
    hide Stringify, Quote;
    if |ps| > 0 {
      MembersJoined(ps[1..]);
      assert MemberTexts(ps)[1..] == MemberTexts(ps[1..]);
      MemberText(ps[0]);
      if |ps| == 1 { assert Members(ps[1..]) == []; }
      assert Separator(|ps|) + Members(ps[1..]) == if |ps| > 1 then [44] + Members(ps[1..]) else [];
    }
  }

  lemma MemberText(p: (Text, Json))
    ensures Member(p) == Quote(p.0) + [58] + Stringify(p.1)
  {
    hide Stringify, Quote;
    assert Quote(p.0) + ([58] + Stringify(p.1)) == Quote(p.0) + [58] + Stringify(p.1);
  }

  /** Elements and members are written in their order with single commas between them, and nothing
      else. */
  lemma ContainersExactly(items: seq<Json>, ps: Props<Json>)
    ensures Stringify(Arr(items)) == [91] + JoinWith(Texts(items), [44]) + [93]
    ensures Stringify(Obj(ps)) == [123] + JoinWith(MemberTexts(ps), [44]) + [125]
  {
    ItemsJoined(items);
    MembersJoined(ps);
  }
}
