/** JSON values and the texts that JSON.stringify writes and JSON.parse reads
    (RFC 8259; escaping as in section 7, well-formed in the sense of ECMAScript 2019). */
module JsonText {
  import opened Utf16
  import opened Wrappers
  import opened Records

  datatype Json =
    | Null
    | Bool(b: bool)
    | Num(n: int)
    | Str(s: Text)
    | Arr(items: seq<Json>)
    | Obj(props: Props<Json>)

  /** Every object, at every depth, keeps its properties in visiting order. */
  ghost predicate Valid(v: Json) {
    match v
    case Arr(items) => forall i :: 0 <= i < |items| ==> Valid(items[i])
    case Obj(ps) => Ordered(ps) && forall i :: 0 <= i < |ps| ==> Valid(ps[i].1)
    case _ => true
  }

  // ----- JSON.stringify -----

  function HexDigit(d: int): CodeUnit
    requires 0 <= d < 16
  {
    if d < 10 then 48 + d else 87 + d
  }

  /** The six units of a backslash-u escape. */
  function UnicodeEscape(u: CodeUnit): Text {
    [BACKSLASH, 117, HexDigit(u / 16 / 16 / 16), HexDigit(u / 16 / 16 % 16), HexDigit(u / 16 % 16), HexDigit(u % 16)]
  }

  /** The letter of a two-unit escape, when the unit has one. */
  function ShortEscape(u: CodeUnit): Option<CodeUnit> {
    if u == 8 then Some(98)
    else if u == 9 then Some(116)
    else if u == 10 then Some(110)
    else if u == 12 then Some(102)
    else if u == 13 then Some(114)
    else if u == QUOTE || u == BACKSLASH then Some(u)
    else None
  }

  function EscapeUnit(u: CodeUnit): Text {
    if ShortEscape(u).Some? then [BACKSLASH, ShortEscape(u).value]
    else if u < 32 || IsHighSurrogate(u) || IsLowSurrogate(u) then UnicodeEscape(u)
    else [u]
  }

  predicate StartsWithPair(t: Text) {
    |t| >= 2 && IsHighSurrogate(t[0]) && IsLowSurrogate(t[1])
  }

  /** How the first one or two units of a string are written: a surrogate pair stands for
      itself, a lone surrogate is escaped. */
  function EscapeHead(t: Text): Text
    requires |t| > 0
  {
    if StartsWithPair(t) then t[..2] else EscapeUnit(t[0])
  }

  function HeadSize(t: Text): nat { if StartsWithPair(t) then 2 else 1 }

  function Escape(t: Text): Text {
    if |t| == 0 then [] else EscapeHead(t) + Escape(t[HeadSize(t)..])
  }

  function Quote(t: Text): Text { [QUOTE] + Escape(t) + [QUOTE] }

  function Digits(n: nat): (t: Text)
    ensures |t| > 0 && forall i :: 0 <= i < |t| ==> IsDigit(t[i])
    ensures t[0] == 48 <==> n == 0
  {
    if n < 10 then [48 + n] else Digits(n / 10) + [48 + n % 10]
  }

  function Decimal(n: int): Text {
    if n < 0 then [MINUS] + Digits(-n) else Digits(n)
  }

  function Stringify(v: Json): Text
    decreases v, 1
  {
    match v
    case Null => Ascii("null")
    case Bool(b) => if b then Ascii("true") else Ascii("false")
    case Num(n) => Decimal(n)
    case Str(s) => Quote(s)
    case Arr(items) => [OPEN_BRACKET] + Items(items) + [CLOSE_BRACKET]
    case Obj(ps) => [OPEN_BRACE] + Members(ps) + [CLOSE_BRACE]
  }

  function Items(items: seq<Json>): Text
    decreases items, 0
  {
    if |items| == 0 then []
    else Stringify(items[0]) + Separator(|items|) + Items(items[1..])
  }

  /** The comma after an element or member that is not the last of the n that remain. */
  function Separator(n: nat): Text { if n > 1 then [COMMA] else [] }

  function Member(p: (Text, Json)): Text
    decreases p, 0
  {
    match p case (key, v) => Quote(key) + ([COLON] + Stringify(v))
  }

  function Members(ps: Props<Json>): Text
    decreases ps, 0
  {
    if |ps| == 0 then [] else Member(ps[0]) + Separator(|ps|) + Members(ps[1..])
  }

  // ----- JSON.parse -----

  datatype Parsed<+T> = Fail | Success(value: T, rest: Text)

  predicate IsSpace(u: CodeUnit) { u == SPACE || u == 9 || u == 10 || u == 13 }

  function SkipSpace(s: Text): (r: Text)
    ensures |r| <= |s|
  {
    if |s| > 0 && IsSpace(s[0]) then SkipSpace(s[1..]) else s
  }

  function HexValue(u: CodeUnit): (d: Option<int>)
    ensures d.Some? ==> 0 <= d.value < 16
  {
    if IsDigit(u) then Some(u - 48)
    else if 97 <= u <= 102 then Some(u - 87)
    else if 65 <= u <= 70 then Some(u - 55)
    else None
  }

  function ParseHex(s: Text): (r: Option<CodeUnit>)
    requires |s| >= 4
  {
    match (HexValue(s[0]), HexValue(s[1]), HexValue(s[2]), HexValue(s[3]))
    case (Some(a), Some(b), Some(c), Some(d)) =>
      Some(a * 4096 + b * 256 + c * 16 + d)
    case _ => None
  }

  /** The unit that a two-unit escape stands for. */
  function Unescape(letter: CodeUnit): Option<CodeUnit> {
    if letter == QUOTE || letter == BACKSLASH || letter == 47 then Some(letter)
    else if letter == 98 then Some(8)
    else if letter == 116 then Some(9)
    else if letter == 110 then Some(10)
    else if letter == 102 then Some(12)
    else if letter == 114 then Some(13)
    else None
  }

  /** The first unit of the rest of a string, and the text after it. */
  function ReadUnit(s: Text): (r: Parsed<CodeUnit>)
    ensures r.Success? ==> |r.rest| < |s|
  {
    if |s| == 0 || s[0] < 32 || s[0] == QUOTE then Fail
    else if s[0] != BACKSLASH then Success(s[0], s[1..])
    else if |s| >= 2 && Unescape(s[1]).Some? then Success(Unescape(s[1]).value, s[2..])
    else if |s| >= 6 && s[1] == 117 && ParseHex(s[2..6]).Some? then Success(ParseHex(s[2..6]).value, s[6..])
    else Fail
  }

  function Prepend(u: CodeUnit, p: Parsed<Text>): Parsed<Text> {
    if p.Success? then Success([u] + p.value, p.rest) else Fail
  }

  /** The rest of a string, after its opening quote. */
  function ParseBody(s: Text): (r: Parsed<Text>)
    ensures r.Success? ==> |r.rest| < |s|
    decreases |s|
  {
    if |s| > 0 && s[0] == QUOTE then Success([], s[1..])
    else
      var unit := ReadUnit(s);
      if unit.Success? then Prepend(unit.value, ParseBody(unit.rest)) else Fail
  }

  function DigitRun(s: Text): (k: nat)
    ensures k <= |s| && forall i :: 0 <= i < k ==> IsDigit(s[i])
    ensures k < |s| ==> !IsDigit(s[k])
  {
    if |s| == 0 || !IsDigit(s[0]) then 0 else 1 + DigitRun(s[1..])
  }

  function NatValue(ds: Text): (n: nat)
    requires forall i :: 0 <= i < |ds| ==> IsDigit(ds[i])
  {
    if |ds| == 0 then 0 else
      assert IsDigit(ds[|ds| - 1]);
      NatValue(ds[..|ds| - 1]) * 10 + (ds[|ds| - 1] - 48)
  }

  /** No fraction or exponent follows: the model has integers only. */
  predicate EndsNumber(rest: Text) {
    |rest| == 0 || !(IsDigit(rest[0]) || rest[0] == 46 || rest[0] == 69 || rest[0] == 101)
  }

  function ParseNat(s: Text): (r: Parsed<nat>)
    ensures r.Success? ==> |r.rest| < |s|
  {
    var k := DigitRun(s);
    if k == 0 || (s[0] == 48 && k > 1) || !EndsNumber(s[k..]) then Fail
    else Success(NatValue(s[..k]), s[k..])
  }

  function ParseNumber(s: Text): (r: Parsed<Json>)
    requires |s| > 0
    ensures r.Success? ==> |r.rest| < |s|
  {
    if s[0] == MINUS then
      match ParseNat(s[1..])
      case Fail => Fail
      case Success(n, rest) => var m: int := n; Success(Num(0 - m), rest)
    else
      match ParseNat(s)
      case Fail => Fail
      case Success(n, rest) => Success(Num(n), rest)
  }

  function ParseWord(s: Text, word: Text, v: Json): (r: Parsed<Json>)
    requires |word| > 0
    ensures r.Success? ==> |r.rest| < |s|
  {
    if word <= s then Success(v, s[|word|..]) else Fail
  }

  /** null, a boolean, a number or a string. */
  function ParseScalar(s: Text): (r: Parsed<Json>)
    requires |s| > 0
    ensures r.Success? ==> |r.rest| < |s|
  {
    if s[0] == QUOTE then
      match ParseBody(s[1..])
      case Fail => Fail
      case Success(t, rest) => Success(Str(t), rest)
    else if s[0] == 110 then ParseWord(s, Ascii("null"), Null)
    else if s[0] == 116 then ParseWord(s, Ascii("true"), Bool(true))
    else if s[0] == 102 then ParseWord(s, Ascii("false"), Bool(false))
    else ParseNumber(s)
  }

  function ParseValue(s: Text): (r: Parsed<Json>)
    ensures r.Success? ==> |r.rest| < |s|
    decreases |s|, 0
  {
    if |s| == 0 then Fail
    else if s[0] == OPEN_BRACKET then
      match ParseItems(SkipSpace(s[1..]), true)
      case Fail => Fail
      case Success(items, rest) => Success(Arr(items), rest)
    else if s[0] == OPEN_BRACE then
      match ParseMembers(SkipSpace(s[1..]), true)
      case Fail => Fail
      case Success(entries, rest) => Success(Obj(PutAll([], entries)), rest)
    else ParseScalar(s)
  }

  /** What follows an element or member: the closing unit, or a comma and at least one more. */
  datatype Next = Close(rest: Text) | More(rest: Text) | Bad

  function ParseNext(s: Text, close: CodeUnit): (n: Next)
    ensures !n.Bad? ==> |n.rest| < |s|
  {
    var t := SkipSpace(s);
    if |t| > 0 && t[0] == close then Close(t[1..])
    else if |t| > 0 && t[0] == COMMA then More(SkipSpace(t[1..]))
    else Bad
  }

  /** The elements of an array up to and with its closing bracket; only a whole array may be
      empty. */
  function ParseItems(s: Text, whole: bool): (r: Parsed<seq<Json>>)
    ensures r.Success? ==> |r.rest| < |s|
    decreases |s|, 1
  {
    if whole && |s| > 0 && s[0] == CLOSE_BRACKET then Success([], s[1..])
    else
      match ParseValue(s)
      case Fail => Fail
      case Success(v, afterValue) =>
        match ParseNext(afterValue, CLOSE_BRACKET)
        case Bad => Fail
        case Close(rest) => Success([v], rest)
        case More(t) =>
          match ParseItems(t, false)
          case Fail => Fail
          case Success(items, rest) => Success([v] + items, rest)
  }

  /** A member's name and colon, and the text from its value on. */
  function ParseName(s: Text): (r: Parsed<Text>)
    ensures r.Success? ==> |r.rest| < |s|
  {
    if |s| == 0 || s[0] != QUOTE then Fail
    else
      match ParseBody(s[1..])
      case Fail => Fail
      case Success(key, afterKey) =>
        var c := SkipSpace(afterKey);
        if |c| == 0 || c[0] != COLON then Fail else Success(key, SkipSpace(c[1..]))
  }

  /** The members of an object up to and with its closing brace, as for ParseItems. */
  function ParseMembers(s: Text, whole: bool): (r: Parsed<Props<Json>>)
    ensures r.Success? ==> |r.rest| < |s|
    decreases |s|, 1
  {
    if whole && |s| > 0 && s[0] == CLOSE_BRACE then Success([], s[1..])
    else
      match ParseName(s)
      case Fail => Fail
      case Success(key, atValue) =>
        match ParseValue(atValue)
        case Fail => Fail
        case Success(v, afterValue) =>
          match ParseNext(afterValue, CLOSE_BRACE)
          case Bad => Fail
          case Close(rest) => Success([(key, v)], rest)
          case More(t) =>
            match ParseMembers(t, false)
            case Fail => Fail
            case Success(entries, rest) => Success([(key, v)] + entries, rest)
  }

  /** JSON.parse; None stands for a SyntaxError. */
  function Parse(s: Text): Option<Json> {
    match ParseValue(SkipSpace(s))
    case Fail => None
    case Success(v, rest) => if |SkipSpace(rest)| == 0 then Some(v) else None
  }

  // ----- Reading back what was written -----

  lemma {:induction false} EscapeReadBack(t: Text, rest: Text)
    ensures ParseBody(Escape(t) + ([QUOTE] + rest)) == Success(t, rest)
  {
    var end := [QUOTE] + rest;
    if |t| == 0 {
      assert Escape(t) + end == end;
      assert end[1..] == rest;
    } else {
      var after := t[HeadSize(t)..];
      EscapeReadBack(after, rest);
      HeadReadBack(t, Escape(after) + end);
      ConcatAssociative(EscapeHead(t), Escape(after), end);
      assert t == t[..HeadSize(t)] + after;
    }
  }

  lemma ConcatAssociative<T>(a: seq<T>, b: seq<T>, c: seq<T>)
    ensures (a + b) + c == a + (b + c)
  {
  }

  lemma HeadReadBack(t: Text, tail: Text)
    requires |t| > 0
    ensures ParseBody(tail).Success? ==>
              ParseBody(EscapeHead(t) + tail) ==
              Success(t[..HeadSize(t)] + ParseBody(tail).value, ParseBody(tail).rest)
  {
    if StartsWithPair(t) {
      RawReadBack(t[1], tail);
      RawReadBack(t[0], [t[1]] + tail);
      assert t[..2] + tail == [t[0]] + ([t[1]] + tail);
      if ParseBody(tail).Success? {
        assert t[..2] + ParseBody(tail).value == [t[0]] + ([t[1]] + ParseBody(tail).value);
      }
    } else {
      UnitReadBack(t[0], tail);
      assert t[..1] == [t[0]];
    }
  }

  lemma RawReadBack(u: CodeUnit, tail: Text)
    requires u >= 32 && u != QUOTE && u != BACKSLASH
    ensures ParseBody([u] + tail) == Prepend(u, ParseBody(tail))
  {
    assert ([u] + tail)[1..] == tail;
  }

  lemma UnitReadBack(u: CodeUnit, tail: Text)
    ensures ParseBody(EscapeUnit(u) + tail) == Prepend(u, ParseBody(tail))
  {
    ReadUnitBack(u, tail);
  }

  lemma ReadUnitBack(u: CodeUnit, tail: Text)
    ensures ReadUnit(EscapeUnit(u) + tail) == Success(u, tail)
    ensures (EscapeUnit(u) + tail)[0] != QUOTE
  {
    var s := EscapeUnit(u) + tail;
    if ShortEscape(u).Some? {
      assert s[2..] == tail;
    } else if u < 32 || IsHighSurrogate(u) || IsLowSurrogate(u) {
      HexReadBack(u);
      assert s[2..6] == UnicodeEscape(u)[2..6];
      assert s[6..] == tail;
    } else {
      assert s[1..] == tail;
    }
  }

  lemma HexDigitValue(d: int)
    requires 0 <= d < 16
    ensures HexValue(HexDigit(d)) == Some(d)
  {
  }

  lemma HexReadBack(u: CodeUnit)
    ensures ParseHex(UnicodeEscape(u)[2..6]) == Some(u)
  {
    var a, b, c, d := u / 16 / 16 / 16, u / 16 / 16 % 16, u / 16 % 16, u % 16;
    HexDigitValue(a);
    HexDigitValue(b);
    HexDigitValue(c);
    HexDigitValue(d);
    assert u == a * 4096 + b * 256 + c * 16 + d;
    assert UnicodeEscape(u)[2..6] == [HexDigit(a), HexDigit(b), HexDigit(c), HexDigit(d)];
  }

  lemma {:induction false} DigitsValue(n: nat)
    ensures NatValue(Digits(n)) == n
  {
    if n < 10 {
      assert Digits(n)[..0] == [];
    } else {
      DigitsValue(n / 10);
      assert Digits(n)[..|Digits(n)| - 1] == Digits(n / 10);
    }
  }

  lemma {:induction false} DigitRunAll(ds: Text, rest: Text)
    requires forall i :: 0 <= i < |ds| ==> IsDigit(ds[i])
    requires |rest| == 0 || !IsDigit(rest[0])
    ensures DigitRun(ds + rest) == |ds|
  {
    if |ds| == 0 {
      assert ds + rest == rest;
    } else {
      DigitRunAll(ds[1..], rest);
      assert (ds + rest)[1..] == ds[1..] + rest;
    }
  }

  lemma {:induction false} DigitsSize(n: nat)
    ensures |Digits(n)| == 1 <==> n < 10
  {
    if n >= 10 { DigitsSize(n / 10); }
  }

  lemma NatReadBack(n: nat, rest: Text)
    requires EndsNumber(rest)
    ensures ParseNat(Digits(n) + rest) == Success(n, rest)
  {
    DigitRunAll(Digits(n), rest);
    DigitsValue(n);
    DigitsSize(n);
    assert (Digits(n) + rest)[|Digits(n)|..] == rest;
    assert (Digits(n) + rest)[..|Digits(n)|] == Digits(n);
  }

  lemma StringifyStart(v: Json)
    ensures |Stringify(v)| > 0
    ensures var u := Stringify(v)[0]; !IsSpace(u) && u != CLOSE_BRACKET && u != CLOSE_BRACE
    ensures Stringify(v)[0] == OPEN_BRACE <==> v.Obj?
  {
  }

  lemma ItemsText(items: seq<Json>, end: Text)
    ensures Items(items) + end ==
            if |items| == 0 then end
            else Stringify(items[0]) + (Separator(|items|) + (Items(items[1..]) + end))
  {
  }

  lemma MembersText(ps: Props<Json>, end: Text)
    ensures Members(ps) + end ==
            if |ps| == 0 then end
            else Member(ps[0]) + (Separator(|ps|) + (Members(ps[1..]) + end))
  {
  }

  lemma EmptySteps(rest: Text)
    ensures ParseItems([CLOSE_BRACKET] + rest, true) == Success([], rest)
    ensures ParseMembers([CLOSE_BRACE] + rest, true) == Success([], rest)
  {
    assert ([CLOSE_BRACKET] + rest)[1..] == rest;
    assert ([CLOSE_BRACE] + rest)[1..] == rest;
  }

  // One step of each parser, as lemmas: the proofs below need no other unfolding.

  lemma ArrayStep(s: Text, items: seq<Json>, rest: Text)
    requires |s| > 0 && s[0] == OPEN_BRACKET && ParseItems(SkipSpace(s[1..]), true) == Success(items, rest)
    ensures ParseValue(s) == Success(Arr(items), rest)
  {
  }

  lemma ObjectStep(s: Text, entries: Props<Json>, rest: Text)
    requires |s| > 0 && s[0] == OPEN_BRACE && ParseMembers(SkipSpace(s[1..]), true) == Success(entries, rest)
    ensures ParseValue(s) == Success(Obj(PutAll([], entries)), rest)
  {
  }

  lemma ItemsStep(s: Text, v: Json, after: Text, items: seq<Json>, rest: Text, whole: bool)
    requires !(|s| > 0 && s[0] == CLOSE_BRACKET) && ParseValue(s) == Success(v, after)
    requires match ParseNext(after, CLOSE_BRACKET)
             case Bad => false
             case Close(r) => r == rest && items == []
             case More(t) => ParseItems(t, false) == Success(items, rest)
    ensures ParseItems(s, whole) == Success([v] + items, rest)
  {
    assert [v] + [] == [v];
  }

  lemma MembersStep(s: Text, key: Text, atValue: Text, v: Json, after: Text,
                    entries: Props<Json>, rest: Text, whole: bool)
    requires !(|s| > 0 && s[0] == CLOSE_BRACE)
    requires ParseName(s) == Success(key, atValue) && ParseValue(atValue) == Success(v, after)
    requires match ParseNext(after, CLOSE_BRACE)
             case Bad => false
             case Close(r) => r == rest && entries == []
             case More(t) => ParseMembers(t, false) == Success(entries, rest)
    ensures ParseMembers(s, whole) == Success([(key, v)] + entries, rest)
  {
    assert [(key, v)] + [] == [(key, v)];
  }

  lemma {:induction false} ReadBack(v: Json, rest: Text)
    requires Valid(v) && EndsNumber(rest)
    ensures ParseValue(Stringify(v) + rest) == Success(v, rest)
    decreases v, 1
  {
    hide ParseValue, ParseItems, ParseMembers, PutAll, Stringify, Items, Members, SkipSpace;
    match v
    case Arr(items) =>
      ItemsReadBack(items, rest, true);
      ArrayText(items, rest);
      ArrayStep(Stringify(v) + rest, items, rest);
    case Obj(ps) =>
      MembersReadBack(ps, rest, true);
      ObjectText(ps, rest);
      PutAllSame([], ps);
      assert [] + ps == ps;
      ObjectStep(Stringify(v) + rest, ps, rest);
    case _ => ScalarReadBack(v, rest);
  }

  lemma ItemsStart(items: seq<Json>)
    ensures |items| > 0 ==> |Items(items)| > 0 && !IsSpace(Items(items)[0]) && Items(items)[0] != CLOSE_BRACKET
  {
    if |items| > 0 { StringifyStart(items[0]); }
  }

  lemma ArrayText(items: seq<Json>, rest: Text)
    ensures var s := Stringify(Arr(items)) + rest;
            |s| > 0 && s[0] == OPEN_BRACKET && SkipSpace(s[1..]) == Items(items) + ([CLOSE_BRACKET] + rest)
  {
    var s := Stringify(Arr(items)) + rest;
    assert s[1..] == Items(items) + ([CLOSE_BRACKET] + rest);
    ItemsStart(items);
  }

  lemma ObjectText(ps: Props<Json>, rest: Text)
    ensures var s := Stringify(Obj(ps)) + rest;
            |s| > 0 && s[0] == OPEN_BRACE && SkipSpace(s[1..]) == Members(ps) + ([CLOSE_BRACE] + rest)
  {
    var s := Stringify(Obj(ps)) + rest;
    assert s[1..] == Members(ps) + ([CLOSE_BRACE] + rest);
    MembersStart(ps);
  }

  lemma MembersStart(ps: Props<Json>)
    ensures |ps| > 0 ==> |Members(ps)| > 0 && Members(ps)[0] == QUOTE
  {
    if |ps| > 0 { match ps[0] case (key, v) => assert Member(ps[0])[0] == QUOTE; }
  }

  lemma ScalarReadBack(v: Json, rest: Text)
    requires !v.Arr? && !v.Obj? && EndsNumber(rest)
    ensures ParseValue(Stringify(v) + rest) == Success(v, rest)
  {
    hide ParseItems, ParseMembers, ParseNumber, ParseBody, Escape, Decimal;
    StringifyStart(v);
    match v
    case Null => WordReadBack(Ascii("null"), rest);
    case Bool(b) => WordReadBack(if b then Ascii("true") else Ascii("false"), rest);
    case Num(n) => NumberReadBack(n, rest);
    case Str(t) =>
      EscapeReadBack(t, rest);
      assert (Quote(t) + rest)[1..] == Escape(t) + ([QUOTE] + rest);
  }

  lemma WordReadBack(word: Text, rest: Text)
    ensures (word + rest)[|word|..] == rest && word <= word + rest
  {
  }

  lemma NumberReadBack(n: int, rest: Text)
    requires EndsNumber(rest)
    ensures var s := Decimal(n) + rest;
            ParseNumber(s) == Success(Num(n), rest) && (s[0] == MINUS || IsDigit(s[0]))
  {
    hide ParseNat, Digits;
    if n < 0 {
      NatReadBack(-n, rest);
      assert (Decimal(n) + rest)[1..] == Digits(-n) + rest;
    } else {
      NatReadBack(n, rest);
      assert IsDigit(Digits(n)[0]);
    }
  }

  lemma NextReadBack(n: nat, close: CodeUnit, more: Text, rest: Text)
    requires !IsSpace(close) && close != COMMA
    requires n > 1 ==> |more| > 0 && !IsSpace(more[0])
    requires n <= 1 ==> more == [close] + rest
    ensures ParseNext(Separator(n) + more, close) == (if n > 1 then More(more) else Close(rest))
    ensures EndsNumber([close]) ==> EndsNumber(Separator(n) + more)
  {
    if n > 1 {
      assert (Separator(n) + more)[1..] == more;
    } else {
      assert Separator(n) + more == more;
      assert more[1..] == rest;
    }
  }

  lemma {:induction false} ItemsReadBack(items: seq<Json>, rest: Text, whole: bool)
    requires (whole || |items| > 0) && forall i :: 0 <= i < |items| ==> Valid(items[i])
    ensures ParseItems(Items(items) + ([CLOSE_BRACKET] + rest), whole) == Success(items, rest)
    decreases items, 0
  {
    hide ParseValue, ParseItems, ParseMembers, ParseNext, Items, Stringify, Separator;
    var end := [CLOSE_BRACKET] + rest;
    ItemsText([], end);
    if |items| == 0 {
      EmptySteps(rest);
    } else {
      var more := Items(items[1..]) + end;
      ItemsStart(items[1..]);
      ItemsStart(items);
      if |items| > 1 {
        ItemsReadBack(items[1..], rest, false);
      }
      NextReadBack(|items|, CLOSE_BRACKET, more, rest);
      ReadBack(items[0], Separator(|items|) + more);
      ItemsText(items, end);
      ItemsStep(Items(items) + end, items[0], Separator(|items|) + more, items[1..], rest, whole);
      assert items == [items[0]] + items[1..];
    }
  }

  lemma NameReadBack(key: Text, value: Text)
    requires |value| > 0 && !IsSpace(value[0])
    ensures ParseName(Quote(key) + ([COLON] + value)) == Success(key, value)
  {
    hide Escape, ParseBody;
    var s, tail := Quote(key) + ([COLON] + value), [COLON] + value;
    EscapeReadBack(key, tail);
    assert s[0] == QUOTE && s[1..] == Escape(key) + ([QUOTE] + tail);
    assert tail[0] == COLON && tail[1..] == value;
    assert SkipSpace(tail) == tail && SkipSpace(value) == value;
  }

  /** Reading one member's name, then its value, leaves the text after the member. */
  lemma {:induction false} MemberReadBack(p: (Text, Json), after: Text)
    requires Valid(p.1) && EndsNumber(after)
    ensures ParseName(Member(p) + after) == Success(p.0, Stringify(p.1) + after)
    ensures ParseValue(Stringify(p.1) + after) == Success(p.1, after)
    decreases p, 0
  {
    match p
    case (key, v) =>
      ReadBack(v, after);
      StringifyStart(v);
      NameReadBack(key, Stringify(v) + after);
      assert Member(p) + after == Quote(key) + ([COLON] + (Stringify(v) + after));
  }

  lemma {:induction false} MembersReadBack(ps: Props<Json>, rest: Text, whole: bool)
    requires (whole || |ps| > 0) && forall i :: 0 <= i < |ps| ==> Valid(ps[i].1)
    ensures ParseMembers(Members(ps) + ([CLOSE_BRACE] + rest), whole) == Success(ps, rest)
    decreases ps, 0
  {
    hide ParseValue, ParseItems, ParseMembers, ParseName, ParseNext, Members, Member, Stringify, Separator;
    var end := [CLOSE_BRACE] + rest;
    MembersText([], end);
    if |ps| == 0 {
      EmptySteps(rest);
    } else {
      var more := Members(ps[1..]) + end;
      MembersStart(ps[1..]);
      MembersStart(ps);
      if |ps| > 1 {
        MembersReadBack(ps[1..], rest, false);
      }
      NextReadBack(|ps|, CLOSE_BRACE, more, rest);
      var after := Separator(|ps|) + more;
      MemberReadBack(ps[0], after);
      MembersText(ps, end);
      MembersStep(Members(ps) + end, ps[0].0, Stringify(ps[0].1) + after, ps[0].1, after, ps[1..], rest, whole);
      assert ps == [(ps[0].0, ps[0].1)] + ps[1..];
    }
  }

  /** JSON.parse undoes JSON.stringify, at every nesting depth. */
  lemma RoundTrip(v: Json)
    requires Valid(v)
    ensures Parse(Stringify(v)) == Some(v)
  {
    ReadBack(v, []);
    assert Stringify(v) + [] == Stringify(v);
    StringifyStart(v);
  }

  // ----- What JSON.parse returns keeps the object invariant -----

  lemma {:induction false} ParseValueValid(s: Text)
    ensures ParseValue(s).Success? ==> Valid(ParseValue(s).value)
    decreases |s|, 0
  {
    if |s| > 0 && s[0] == OPEN_BRACKET {
      ParseItemsValid(SkipSpace(s[1..]), true);
    } else if |s| > 0 && s[0] == OPEN_BRACE {
      ParseMembersValid(SkipSpace(s[1..]), true);
      var r := ParseMembers(SkipSpace(s[1..]), true);
      if r.Success? { ObjectValid(r.value); }
    }
  }

  lemma ObjectValid(entries: Props<Json>)
    requires forall i :: 0 <= i < |entries| ==> Valid(entries[i].1)
    ensures Valid(Obj(PutAll([], entries)))
  {
    PutAllOrdered([], entries);
    PutAllValues([], entries);
    var ps := PutAll([], entries);
    forall i | 0 <= i < |ps| ensures Valid(ps[i].1) {
      assert ps[i] in ps;
      var q :| (q in [] || q in entries) && q.1 == ps[i].1;
      assert q in entries;
    }
  }

  ghost predicate AllValid(items: seq<Json>) { forall i :: 0 <= i < |items| ==> Valid(items[i]) }

  ghost predicate ValuesValid(ps: Props<Json>) { forall i :: 0 <= i < |ps| ==> Valid(ps[i].1) }

  lemma AllValidCons(v: Json, items: seq<Json>)
    requires Valid(v) && AllValid(items)
    ensures AllValid([v] + items) && AllValid([v]) && AllValid([])
  {
    hide Valid;
  }

  lemma ValuesValidCons(key: Text, v: Json, ps: Props<Json>)
    requires Valid(v) && ValuesValid(ps)
    ensures ValuesValid([(key, v)] + ps) && ValuesValid([(key, v)]) && ValuesValid([])
  {
    hide Valid;
  }

  lemma {:induction false} ParseItemsValid(s: Text, whole: bool)
    ensures ParseItems(s, whole).Success? ==> AllValid(ParseItems(s, whole).value)
    decreases |s|, 1
  {
    hide Valid, AllValid, ParseValue, ParseNext;
    AnyValid();
    if !(whole && |s| > 0 && s[0] == CLOSE_BRACKET) {
      ParseValueValid(s);
      var v := ParseValue(s);
      if v.Success? {
        AllValidCons(v.value, []);
        var next := ParseNext(v.rest, CLOSE_BRACKET);
        if next.More? {
          ParseItemsValid(next.rest, false);
          var items := ParseItems(next.rest, false);
          if items.Success? { AllValidCons(v.value, items.value); }
        }
      }
    }
  }

  lemma AnyValid()
    ensures Valid(Null) && AllValid([]) && ValuesValid([])
  {
  }

  lemma {:induction false} ParseMembersValid(s: Text, whole: bool)
    ensures ParseMembers(s, whole).Success? ==> ValuesValid(ParseMembers(s, whole).value)
    decreases |s|, 1
  {
    hide Valid, ValuesValid, ParseValue, ParseNext, ParseName;
    AnyValid();
    if !(whole && |s| > 0 && s[0] == CLOSE_BRACE) {
      var name := ParseName(s);
      if name.Success? {
        ParseValueValid(name.rest);
        var v := ParseValue(name.rest);
        if v.Success? {
          ValuesValidCons(name.value, v.value, []);
          var next := ParseNext(v.rest, CLOSE_BRACE);
          if next.More? {
            ParseMembersValid(next.rest, false);
            var members := ParseMembers(next.rest, false);
            if members.Success? { ValuesValidCons(name.value, v.value, members.value); }
          }
        }
      }
    }
  }

  lemma ParseValid(s: Text)
    ensures Parse(s).Some? ==> Valid(Parse(s).value)
  {
    ParseValueValid(SkipSpace(s));
  }

  // ----- What the texts never contain -----

  ghost predicate Printable(t: Text) { forall i :: 0 <= i < |t| ==> t[i] >= SPACE }

  lemma {:induction false} EscapePrintable(t: Text)
    ensures Printable(Escape(t))
  {
    if |t| > 0 {
      EscapePrintable(t[HeadSize(t)..]);
    }
  }

  /** No control unit, and so no newline, appears in a JSON text. */
  lemma {:induction false} StringifyPrintable(v: Json)
    ensures Printable(Stringify(v))
    decreases v, 1
  {
    match v
    case Str(t) => EscapePrintable(t);
    case Arr(items) => ItemsPrintable(items);
    case Obj(ps) => MembersPrintable(ps);
    case _ =>
  }

  lemma {:induction false} ItemsPrintable(items: seq<Json>)
    ensures Printable(Items(items))
    decreases items, 0
  {
    if |items| > 0 {
      StringifyPrintable(items[0]);
      ItemsPrintable(items[1..]);
    }
  }

  lemma {:induction false} MembersPrintable(ps: Props<Json>)
    ensures Printable(Members(ps))
    decreases ps, 0
  {
    if |ps| > 0 {
      MemberPrintable(ps[0]);
      MembersPrintable(ps[1..]);
    }
  }

  lemma {:induction false} MemberPrintable(p: (Text, Json))
    ensures Printable(Member(p))
    decreases p, 0
  {
    match p
    case (key, v) =>
      EscapePrintable(key);
      StringifyPrintable(v);
  }

  lemma WellFormedConcat(a: Text, b: Text)
    requires WellFormed(a) && WellFormed(b)
    ensures WellFormed(a + b)
  {
    forall i | 0 <= i < |a + b| ensures PairedAt(a + b, i) {
      if i < |a| { assert PairedAt(a, i); } else { assert PairedAt(b, i - |a|); }
    }
  }

  lemma PlainWellFormed(t: Text)
    requires forall i :: 0 <= i < |t| ==> !IsHighSurrogate(t[i]) && !IsLowSurrogate(t[i])
    ensures WellFormed(t)
  {
  }

  lemma PairWellFormed(high: CodeUnit, low: CodeUnit)
    requires IsHighSurrogate(high) && IsLowSurrogate(low)
    ensures WellFormed([high, low])
  {
  }

  lemma HeadWellFormed(t: Text)
    requires |t| > 0
    ensures WellFormed(EscapeHead(t))
  {
    if StartsWithPair(t) {
      assert EscapeHead(t) == [t[0], t[1]];
      PairWellFormed(t[0], t[1]);
    } else {
      PlainWellFormed(EscapeUnit(t[0]));
    }
  }

  lemma {:induction false} EscapeWellFormed(t: Text)
    ensures WellFormed(Escape(t))
  {
    if |t| > 0 {
      HeadWellFormed(t);
      EscapeWellFormed(t[HeadSize(t)..]);
      WellFormedConcat(EscapeHead(t), Escape(t[HeadSize(t)..]));
    }
  }

  lemma BracketWellFormed(open: CodeUnit, t: Text, close: CodeUnit)
    requires WellFormed(t) && open < 0xD800 && close < 0xD800
    ensures WellFormed([open] + t + [close])
  {
    PlainWellFormed([open]);
    PlainWellFormed([close]);
    WellFormedConcat([open], t);
    WellFormedConcat([open] + t, [close]);
  }

  /** A JSON text has no lone surrogate, whatever strings the value holds: distinct JSON texts
      have distinct UTF-8 encodings. */
  lemma {:induction false} StringifyWellFormed(v: Json)
    ensures WellFormed(Stringify(v))
    decreases v, 1
  {
    match v
    case Str(t) =>
      EscapeWellFormed(t);
      BracketWellFormed(QUOTE, Escape(t), QUOTE);
    case Arr(items) =>
      ItemsWellFormed(items);
      BracketWellFormed(OPEN_BRACKET, Items(items), CLOSE_BRACKET);
    case Obj(ps) =>
      MembersWellFormed(ps);
      BracketWellFormed(OPEN_BRACE, Members(ps), CLOSE_BRACE);
    case _ => PlainWellFormed(Stringify(v));
  }

  lemma {:induction false} ItemsWellFormed(items: seq<Json>)
    ensures WellFormed(Items(items))
    decreases items, 0
  {
    if |items| > 0 {
      StringifyWellFormed(items[0]);
      ItemsWellFormed(items[1..]);
      PlainWellFormed(Separator(|items|));
      WellFormedConcat(Stringify(items[0]), Separator(|items|));
      WellFormedConcat(Stringify(items[0]) + Separator(|items|), Items(items[1..]));
    }
  }

  lemma {:induction false} MemberWellFormed(p: (Text, Json))
    ensures WellFormed(Member(p))
    decreases p, 0
  {
    match p
    case (key, v) =>
      EscapeWellFormed(key);
      BracketWellFormed(QUOTE, Escape(key), QUOTE);
      StringifyWellFormed(v);
      PlainWellFormed([COLON]);
      WellFormedConcat([COLON], Stringify(v));
      WellFormedConcat(Quote(key), [COLON] + Stringify(v));
  }

  lemma {:induction false} MembersWellFormed(ps: Props<Json>)
    ensures WellFormed(Members(ps))
    decreases ps, 0
  {
    if |ps| > 0 {
      MemberWellFormed(ps[0]);
      MembersWellFormed(ps[1..]);
      PlainWellFormed(Separator(|ps|));
      WellFormedConcat(Member(ps[0]), Separator(|ps|));
      WellFormedConcat(Member(ps[0]) + Separator(|ps|), Members(ps[1..]));
    }
  }
}
