/** Secret placeholders, redaction and the exfiltration guard. */
module Credentials {
  import opened Utf16
  import opened Wrappers
  import opened Records
  import opened JsonText
  import opened Canonical

  // ----- Placeholders in a string -----

  const OPENING: Text := Ascii("{{secret:")

  predicate IsNameUnit(u: CodeUnit) { IsDigit(u) || 65 <= u <= 90 || 97 <= u <= 122 || u == 95 }

  /** How many name units a text starts with. */
  function NameRun(s: Text): (n: nat)
    ensures n <= |s| && (forall i :: 0 <= i < n ==> IsNameUnit(s[i])) && (n < |s| ==> !IsNameUnit(s[n]))
  {
    if |s| == 0 || !IsNameUnit(s[0]) then 0 else 1 + NameRun(s[1..])
  }

  /** The name in the placeholder that a text starts with, if it starts with one. */
  function PlaceholderAt(s: Text): (name: Option<Text>)
    ensures name.Some? ==> 0 < |name.value| && |name.value| + 11 <= |s|
  {
    if !(OPENING <= s) then None
    else
      var n := NameRun(s[9..]);
      if n > 0 && 11 + n <= |s| && s[9 + n] == CLOSE_BRACE && s[10 + n] == CLOSE_BRACE then Some(s[9..9 + n])
      else None
  }

  datatype Piece = Plain(u: CodeUnit) | Hole(name: Text)

  /** The leftmost non-overlapping placeholders of a text, and the units between them. */
  function Pieces(s: Text): seq<Piece> {
    if |s| == 0 then []
    else
      match PlaceholderAt(s)
      case None => [Plain(s[0])] + Pieces(s[1..])
      case Some(name) => [Hole(name)] + Pieces(s[|name| + 11..])
  }

  type Vault = Text -> Option<Text>

  function Fill(pieces: seq<Piece>, vault: Vault): Option<Text> {
    if |pieces| == 0 then Some([])
    else
      var text := match pieces[0] case Plain(u) => Some([u]) case Hole(name) => vault(name);
      match (text, Fill(pieces[1..], vault))
      case (Some(t), Some(rest)) => Some(t + rest)
      case _ => None
  }

  /** String.prototype.replace with the placeholder expression; None when a secret is absent and
      the replacer throws. */
  function ResolveString(s: Text, vault: Vault): Option<Text> { Fill(Pieces(s), vault) }

  function HoleNames(pieces: seq<Piece>): seq<Text> {
    if |pieces| == 0 then []
    else
      match pieces[0]
      case Plain(_) => HoleNames(pieces[1..])
      case Hole(name) => [name] + HoleNames(pieces[1..])
  }

  /** The text that pieces were read from. */
  function PieceText(p: Piece): Text {
    match p
    case Plain(u) => [u]
    case Hole(name) => OPENING + name + [CLOSE_BRACE, CLOSE_BRACE]
  }

  function PiecesText(pieces: seq<Piece>): Text {
    if |pieces| == 0 then [] else PieceText(pieces[0]) + PiecesText(pieces[1..])
  }

  lemma PlaceholderText(s: Text)
    requires PlaceholderAt(s).Some?
    ensures var name := PlaceholderAt(s).value;
            s == PieceText(Hole(name)) + s[|name| + 11..] && forall i :: 0 <= i < |name| ==> IsNameUnit(name[i])
  {
    var name := PlaceholderAt(s).value;
    assert s[..9] == OPENING;
    assert s[9 + |name|..11 + |name|] == [CLOSE_BRACE, CLOSE_BRACE];
    assert s == s[..9] + s[9..9 + |name|] + s[9 + |name|..11 + |name|] + s[11 + |name|..];
  }

  /** No text is lost or invented in reading the pieces. */
  lemma {:induction false} PiecesReadAll(s: Text)
    ensures PiecesText(Pieces(s)) == s
  {
    if |s| > 0 {
      match PlaceholderAt(s)
      case None => PiecesReadAll(s[1..]);
      case Some(name) =>
        PlaceholderText(s);
        PiecesReadAll(s[|name| + 11..]);
    }
  }

  /** Inside a placeholder no other one starts. */
  lemma NoOverlap(s: Text, i: nat)
    requires PlaceholderAt(s).Some? && 0 < i < |PlaceholderAt(s).value| + 11
    ensures PlaceholderAt(s[i..]).None?
  {
    hide PlaceholderAt, OPENING;
    var name := PlaceholderAt(s).value;
    PlaceholderText(s);
    OpeningUnits();
    BracesOnlyAtStart(s, name, s[|name| + 11..], i);
    NoOpening(s[i..]);
  }

  lemma OpeningUnits()
    ensures OPENING == [123, 123, 115, 101, 99, 114, 101, 116, 58]
  {
  }

  lemma BracesOnlyAtStart(s: Text, name: Text, rest: Text, i: nat)
    requires OPENING == [123, 123, 115, 101, 99, 114, 101, 116, 58]
    requires s == PieceText(Hole(name)) + rest && (forall k :: 0 <= k < |name| ==> IsNameUnit(name[k]))
    requires 0 < i < |name| + 11
    ensures s[i] != 123 || (i + 1 < |s| && s[i + 1] != 123)
  {
    hide OPENING;
    assert s == OPENING + name + [CLOSE_BRACE, CLOSE_BRACE] + rest;
    assert 9 <= i < 9 + |name| ==> s[i] == name[i - 9];
    assert 9 + |name| <= i ==> s[i] == CLOSE_BRACE;
    assert i < 9 ==> s[i] == OPENING[i];
    assert i == 1 ==> s[2] == OPENING[2];
  }

  lemma NoOpening(t: Text)
    requires |t| > 0 && (t[0] != 123 || (1 < |t| && t[1] != 123))
    ensures PlaceholderAt(t).None?
  {
    OpeningUnits();
  }

  /** The number of units before piece k. */
  function Offset(pieces: seq<Piece>, k: nat): nat
    requires k <= |pieces|
  {
    if k == 0 then 0 else |PieceText(pieces[0])| + Offset(pieces[1..], k - 1)
  }

  ghost predicate HoleAt(pieces: seq<Piece>, i: nat) {
    exists k :: 0 <= k < |pieces| && pieces[k].Hole? && Offset(pieces, k) == i
  }

  lemma HoleAtNext(pieces: seq<Piece>, i: nat)
    requires |pieces| > 0
    ensures HoleAt(pieces, i) <==>
              (i == 0 && pieces[0].Hole?) ||
              (i >= |PieceText(pieces[0])| && HoleAt(pieces[1..], i - |PieceText(pieces[0])|))
  {
    var n := |PieceText(pieces[0])|;
    assert n > 0;
    if k :| 0 <= k < |pieces| && pieces[k].Hole? && Offset(pieces, k) == i {
      if k > 0 { assert pieces[1..][k - 1].Hole? && Offset(pieces[1..], k - 1) == i - n; }
    }
    if i >= n && HoleAt(pieces[1..], i - n) {
      var k :| 0 <= k < |pieces[1..]| && pieces[1..][k].Hole? && Offset(pieces[1..], k) == i - n;
      assert pieces[k + 1].Hole? && Offset(pieces, k + 1) == i;
    }
    if pieces[0].Hole? { assert Offset(pieces, 0) == 0; }
  }

  /** Every occurrence of a placeholder is a hole, and every hole is an occurrence. */
  lemma {:induction false} HolesAreOccurrences(s: Text, i: nat)
    requires i < |s|
    ensures HoleAt(Pieces(s), i) <==> PlaceholderAt(s[i..]).Some?
  {
    hide PlaceholderAt, HoleAt;
    var pieces := Pieces(s);
    HoleAtNext(pieces, i);
    var n := |PieceText(pieces[0])|;
    assert s[0..] == s;
    match PlaceholderAt(s)
    case None =>
      assert pieces[1..] == Pieces(s[1..]);
      if i > 0 {
        HolesAreOccurrences(s[1..], i - 1);
        assert s[1..][i - 1..] == s[i..];
      }
    case Some(name) =>
      assert pieces[1..] == Pieces(s[n..]);
      if 0 < i < n {
        NoOverlap(s, i);
      } else if i >= n {
        HolesAreOccurrences(s[n..], i - n);
        assert s[n..][i - n..] == s[i..];
      }
  }

  lemma {:induction false} FillExactly(pieces: seq<Piece>, vault: Vault)
    ensures Fill(pieces, vault).Some? <==> forall name :: name in HoleNames(pieces) ==> vault(name).Some?
    ensures HoleNames(pieces) == [] ==> Fill(pieces, vault) == Some(PiecesText(pieces))
  {
    if |pieces| > 0 { FillExactly(pieces[1..], vault); }
  }

  // ----- Placeholders in a value -----

  /** The names in a value in the order of the walk, with repetitions. */
  function Names(v: Json): seq<Text>
    decreases v, 1
  {
    match v
    case Str(s) => HoleNames(Pieces(s))
    case Arr(items) => ItemNames(items)
    case Obj(ps) => PropNames(ps)
    case _ => []
  }

  function ItemNames(items: seq<Json>): seq<Text>
    decreases items, 0
  {
    if |items| == 0 then [] else Names(items[0]) + ItemNames(items[1..])
  }

  function NamesOf(p: (Text, Json)): seq<Text>
    decreases p, 0
  {
    match p case (_, v) => Names(v)
  }

  function PropNames(ps: Props<Json>): seq<Text>
    decreases ps, 0
  {
    if |ps| == 0 then [] else NamesOf(ps[0]) + PropNames(ps[1..])
  }

  /** Adding to a JavaScript set, kept in insertion order. */
  function Add(found: seq<Text>, name: Text): seq<Text> { if name in found then found else found + [name] }

  function AddAll(found: seq<Text>, names: seq<Text>): seq<Text>
    decreases |names|
  {
    if |names| == 0 then found else AddAll(Add(found, names[0]), names[1..])
  }

  /** The distinct names, in order of first appearance. */
  function FindPlaceholders(v: Json): seq<Text> { AddAll([], Names(v)) }

  lemma {:induction false} AddAllElements(found: seq<Text>, names: seq<Text>)
    requires Distinct(found)
    ensures Distinct(AddAll(found, names))
    ensures forall n :: n in AddAll(found, names) <==> n in found || n in names
    decreases |names|
  {
    if |names| > 0 {
      AddAllElements(Add(found, names[0]), names[1..]);
      assert forall n :: n in names <==> n == names[0] || n in names[1..];
    }
  }

  /** Rebuilding a value with every string replaced; assigning the properties of a fresh object
      loses a __proto__ key. None when a replacement throws. */
  function MapStrings(v: Json, f: Text -> Option<Text>): Option<Json>
    decreases v, 1
  {
    match v
    case Str(s) => (match f(s) case None => None case Some(t) => Some(Str(t)))
    case Arr(items) => (match MapItems(items, f) case None => None case Some(r) => Some(Arr(r)))
    case Obj(ps) => (match MapProps(ps, f) case None => None case Some(r) => Some(Obj(PutAll([], r))))
    case _ => Some(v)
  }

  function MapItems(items: seq<Json>, f: Text -> Option<Text>): (r: Option<seq<Json>>)
    decreases items, 0
  {
    if |items| == 0 then Some([])
    else
      match (MapStrings(items[0], f), MapItems(items[1..], f))
      case (Some(a), Some(b)) => Some([a] + b)
      case _ => None
  }

  function MapProp(p: (Text, Json), f: Text -> Option<Text>): Option<Props<Json>>
    decreases p, 0
  {
    match p
    case (key, v) =>
      match MapStrings(v, f)
      case None => None
      case Some(w) => Some(if key == PROTO then [] else [(key, w)])
  }

  function MapProps(ps: Props<Json>, f: Text -> Option<Text>): Option<Props<Json>>
    decreases ps, 0
  {
    if |ps| == 0 then Some([])
    else
      match (MapProp(ps[0], f), MapProps(ps[1..], f))
      case (Some(a), Some(b)) => Some(a + b)
      case _ => None
  }

  function ResolvePlaceholders(v: Json, vault: Vault): Option<Json> {
    MapStrings(v, s => ResolveString(s, vault))
  }

  // ----- Resolution -----

  /** Resolution succeeds exactly when the vault holds every name that occurs. */
  lemma ResolvesExactly(v: Json, vault: Vault)
    ensures ResolvePlaceholders(v, vault).Some? <==>
              forall name :: name in FindPlaceholders(v) ==> vault(name).Some?
  {
    AddAllElements([], Names(v));
    MapExactly(v, vault);
  }

  lemma {:induction false} MapExactly(v: Json, vault: Vault)
    ensures MapStrings(v, s => ResolveString(s, vault)).Some? <==>
              forall name :: name in Names(v) ==> vault(name).Some?
    decreases v, 1
  {
    match v
    case Str(s) => FillExactly(Pieces(s), vault);
    case Arr(items) => MapItemsExactly(items, vault);
    case Obj(ps) => MapPropsExactly(ps, vault);
    case _ =>
  }

  lemma {:induction false} MapItemsExactly(items: seq<Json>, vault: Vault)
    ensures MapItems(items, s => ResolveString(s, vault)).Some? <==>
              forall name :: name in ItemNames(items) ==> vault(name).Some?
    decreases items, 0
  {
    if |items| > 0 {
      MapExactly(items[0], vault);
      MapItemsExactly(items[1..], vault);
    }
  }

  lemma {:induction false} MapPropExactly(p: (Text, Json), vault: Vault)
    ensures MapProp(p, s => ResolveString(s, vault)).Some? <==>
              forall name :: name in NamesOf(p) ==> vault(name).Some?
    decreases p, 0
  {
    match p case (_, v) => MapExactly(v, vault);
  }

  lemma {:induction false} MapPropsExactly(ps: Props<Json>, vault: Vault)
    ensures MapProps(ps, s => ResolveString(s, vault)).Some? <==>
              forall name :: name in PropNames(ps) ==> vault(name).Some?
    decreases ps, 0
  {
    if |ps| > 0 {
      MapPropExactly(ps[0], vault);
      MapPropsExactly(ps[1..], vault);
    }
  }

  /** r is v with every string s replaced by f(s): arrays keep their length and order, objects
      their keys and their order, and everything else is untouched. */
  ghost predicate Mapped(v: Json, r: Json, f: Text -> Option<Text>) {
    match v
    case Str(s) => r.Str? && f(s) == Some(r.s)
    case Arr(items) =>
      r.Arr? && |r.items| == |items| && forall i :: 0 <= i < |items| ==> Mapped(items[i], r.items[i], f)
    case Obj(ps) =>
      r.Obj? && |r.props| == |ps| &&
      forall i :: 0 <= i < |ps| ==> ps[i].0 == r.props[i].0 && Mapped(ps[i].1, r.props[i].1, f)
    case _ => r == v
  }

  /** Rebuilding changes strings only, apart from the __proto__ keys it drops. */
  lemma {:induction false} MapKeepsStructure(v: Json, f: Text -> Option<Text>)
    requires Valid(v) && MapStrings(v, f).Some?
    ensures Mapped(Strip(v), MapStrings(v, f).value, f)
    decreases v, 1
  {
    match v
    case Arr(items) => MapItemsKeep(items, f);
    case Obj(ps) =>
      MapPropsKeep(ps, f);
      var r := MapProps(ps, f).value;
      StripOrdered(ps);
      SameKeysOrdered(StripProps(ps), r);
      PutAllSame([], r);
      assert [] + r == r;
    case _ =>
  }

  lemma {:induction false} MapItemsKeep(items: seq<Json>, f: Text -> Option<Text>)
    requires MapItems(items, f).Some? && forall i :: 0 <= i < |items| ==> Valid(items[i])
    ensures var r := MapItems(items, f).value;
            |r| == |items| && forall i :: 0 <= i < |items| ==> Mapped(Strip(items[i]), r[i], f)
    decreases items, 0
  {
    if |items| > 0 {
      MapKeepsStructure(items[0], f);
      MapItemsKeep(items[1..], f);
    }
  }

  lemma {:induction false} MapPropKeeps(p: (Text, Json), f: Text -> Option<Text>)
    requires MapProp(p, f).Some? && Valid(p.1)
    ensures MapProp(p, f).value == [] <==> p.0 == PROTO
    ensures var r := MapProp(p, f).value;
            p.0 != PROTO ==> |r| == 1 && r[0].0 == p.0 && Mapped(StripProp(p).1, r[0].1, f)
    decreases p, 0
  {
    match p case (_, v) => MapKeepsStructure(v, f);
  }

  lemma {:induction false} MapPropsKeep(ps: Props<Json>, f: Text -> Option<Text>)
    requires MapProps(ps, f).Some? && forall i :: 0 <= i < |ps| ==> Valid(ps[i].1)
    ensures var r, stripped := MapProps(ps, f).value, StripProps(ps);
            |r| == |stripped| &&
            forall i :: 0 <= i < |r| ==> stripped[i].0 == r[i].0 && Mapped(stripped[i].1, r[i].1, f)
    decreases ps, 0
  {
    if |ps| > 0 {
      hide Mapped, StripProp, MapProp;
      MapPropKeeps(ps[0], f);
      MapPropsKeep(ps[1..], f);
      var a, b := MapProp(ps[0], f).value, MapProps(ps[1..], f).value;
      StripKey(ps[0]);
      if ps[0].0 == PROTO {
        assert a + b == b;
      } else {
        assert a + b == [a[0]] + b;
        assert StripProps(ps) == [StripProp(ps[0])] + StripProps(ps[1..]);
      }
    }
  }

  lemma StripKey(p: (Text, Json))
    ensures StripProp(p).0 == p.0
  {
  }

  lemma {:induction false} MappedIdentity(v: Json, r: Json, f: Text -> Option<Text>)
    requires Mapped(v, r, f) && forall s, t :: f(s) == Some(t) && StringIn(v, s) ==> s == t
    ensures r == v
  {
    match v
    case Str(s) => assert StringIn(v, s);
    case Arr(items) =>
      forall i | 0 <= i < |items| ensures r.items[i] == items[i] {
        assert forall s :: StringIn(items[i], s) ==> StringIn(v, s);
        MappedIdentity(items[i], r.items[i], f);
      }
    case Obj(ps) =>
      forall i | 0 <= i < |ps| ensures r.props[i] == ps[i] {
        assert forall s :: StringIn(ps[i].1, s) ==> StringIn(v, s);
        MappedIdentity(ps[i].1, r.props[i].1, f);
      }
    case _ =>
  }

  /** s is one of the strings that the walk visits. */
  ghost predicate StringIn(v: Json, s: Text) {
    match v
    case Str(t) => s == t
    case Arr(items) => exists i :: 0 <= i < |items| && StringIn(items[i], s)
    case Obj(ps) => exists i :: 0 <= i < |ps| && StringIn(ps[i].1, s)
    case _ => false
  }

  /** Without placeholders resolution is the identity. */
  lemma NothingToResolve(v: Json, vault: Vault)
    requires Valid(v) && FindPlaceholders(v) == []
    ensures ResolvePlaceholders(v, vault) == Some(Strip(v))
  {
    ResolvesExactly(v, vault);
    var f := s => ResolveString(s, vault);
    MapKeepsStructure(v, f);
    AddAllElements([], Names(v));
    forall s, t | f(s) == Some(t) && StringIn(Strip(v), s) ensures s == t {
      StrippedStrings(v, s);
      StringNames(v, s);
      FirstElement(HoleNames(Pieces(s)));
      FillExactly(Pieces(s), vault);
      PiecesReadAll(s);
    }
    MappedIdentity(Strip(v), MapStrings(v, f).value, f);
  }

  lemma {:induction false} StrippedStrings(v: Json, s: Text)
    requires StringIn(Strip(v), s)
    ensures StringIn(v, s)
  {
    match v
    case Arr(items) =>
      var i :| 0 <= i < |items| && StringIn(Strip(items[i]), s);
      StrippedStrings(items[i], s);
    case Obj(ps) =>
      var stripped := StripProps(ps);
      var i :| 0 <= i < |stripped| && StringIn(stripped[i].1, s);
      assert stripped[i] in stripped;
      var q :| q in ps && stripped[i] == StripProp(q);
      var k :| 0 <= k < |ps| && ps[k] == q;
      StrippedStrings(ps[k].1, s);
    case _ =>
  }

  lemma {:induction false} StringNames(v: Json, s: Text)
    requires StringIn(v, s)
    ensures forall n :: n in HoleNames(Pieces(s)) ==> n in Names(v)
    decreases v, 1
  {
    match v
    case Arr(items) =>
      var i :| 0 <= i < |items| && StringIn(items[i], s);
      ItemStringNames(items, i, s);
    case Obj(ps) =>
      var i :| 0 <= i < |ps| && StringIn(ps[i].1, s);
      PropStringNames(ps, i, s);
    case _ =>
  }

  lemma {:induction false} ItemStringNames(items: seq<Json>, i: nat, s: Text)
    requires i < |items| && StringIn(items[i], s)
    ensures forall n :: n in HoleNames(Pieces(s)) ==> n in ItemNames(items)
    decreases items, 0
  {
    if i == 0 { StringNames(items[0], s); } else { ItemStringNames(items[1..], i - 1, s); }
  }

  lemma {:induction false} PropStringNames(ps: Props<Json>, i: nat, s: Text)
    requires i < |ps| && StringIn(ps[i].1, s)
    ensures forall n :: n in HoleNames(Pieces(s)) ==> n in PropNames(ps)
    decreases ps, 0
  {
    if i == 0 { PropNamesFirst(ps[0], s); } else { PropStringNames(ps[1..], i - 1, s); }
  }

  lemma {:induction false} PropNamesFirst(p: (Text, Json), s: Text)
    requires StringIn(p.1, s)
    ensures forall n :: n in HoleNames(Pieces(s)) ==> n in NamesOf(p)
    decreases p, 0
  {
    match p case (_, v) => StringNames(v, s);
  }

  // ----- The walks as the source writes them -----

  lemma {:induction false} AddAllConcat(found: seq<Text>, a: seq<Text>, b: seq<Text>)
    ensures AddAll(found, a + b) == AddAll(AddAll(found, a), b)
    decreases |a|
  {
    if |a| == 0 {
      assert a + b == b;
    } else {
      assert (a + b)[1..] == a[1..] + b;
      AddAllConcat(Add(found, a[0]), a[1..], b);
    }
  }

  lemma {:induction false} ItemNamesLast(items: seq<Json>, v: Json)
    ensures ItemNames(items + [v]) == ItemNames(items) + Names(v)
  {
    if |items| > 0 {
      assert (items + [v])[1..] == items[1..] + [v];
      ItemNamesLast(items[1..], v);
    }
  }

  lemma {:induction false} PropNamesLast(ps: Props<Json>, p: (Text, Json))
    ensures PropNames(ps + [p]) == PropNames(ps) + NamesOf(p)
  {
    if |ps| > 0 {
      assert (ps + [p])[1..] == ps[1..] + [p];
      PropNamesLast(ps[1..], p);
    }
  }

  /** The walk of findPlaceholders, which adds to one set. */
  method CollectPlaceholders(v: Json, found: seq<Text>) returns (r: seq<Text>)
    ensures r == AddAll(found, Names(v))
    decreases v, 1
  {
    r := found;
    match v
    case Str(s) =>
      var names := HoleNames(Pieces(s));
      for i := 0 to |names|
        invariant r == AddAll(found, names[..i])
      {
        assert names[..i + 1] == names[..i] + [names[i]];
        AddAllConcat(found, names[..i], [names[i]]);
        r := Add(r, names[i]);
      }
      assert names[..|names|] == names;
    case Arr(items) =>
      for i := 0 to |items|
        invariant r == AddAll(found, ItemNames(items[..i]))
      {
        assert items[..i + 1] == items[..i] + [items[i]];
        ItemNamesLast(items[..i], items[i]);
        AddAllConcat(found, ItemNames(items[..i]), Names(items[i]));
        r := CollectPlaceholders(items[i], r);
      }
      assert items[..|items|] == items;
    case Obj(ps) =>
      for i := 0 to |ps|
        invariant r == AddAll(found, PropNames(ps[..i]))
      {
        assert ps[..i + 1] == ps[..i] + [ps[i]];
        PropNamesLast(ps[..i], ps[i]);
        AddAllConcat(found, PropNames(ps[..i]), NamesOf(ps[i]));
        r := CollectInProperty(ps[i], r);
      }
      assert ps[..|ps|] == ps;
    case _ =>
  }

  method CollectInProperty(p: (Text, Json), found: seq<Text>) returns (r: seq<Text>)
    ensures r == AddAll(found, NamesOf(p))
    decreases p, 0
  {
    match p case (_, v) => r := CollectPlaceholders(v, found);
  }

  lemma {:induction false} MapItemsLast(items: seq<Json>, v: Json, f: Text -> Option<Text>)
    ensures MapItems(items + [v], f) ==
            if MapItems(items, f).Some? && MapStrings(v, f).Some?
            then Some(MapItems(items, f).value + [MapStrings(v, f).value]) else None
  {
    if |items| == 0 {
      assert items + [v] == [v] && [v][1..] == [];
      if MapStrings(v, f).Some? {
        var w := MapStrings(v, f).value;
        assert [w] + [] == [] + [w];
      }
    } else {
      assert (items + [v])[1..] == items[1..] + [v];
      MapItemsLast(items[1..], v, f);
      if MapStrings(items[0], f).Some? && MapItems(items[1..], f).Some? && MapStrings(v, f).Some? {
        ConcatAssociative([MapStrings(items[0], f).value], MapItems(items[1..], f).value, [MapStrings(v, f).value]);
      }
    }
  }

  lemma {:induction false} MapPropsLast(ps: Props<Json>, p: (Text, Json), f: Text -> Option<Text>)
    ensures MapProps(ps + [p], f) ==
            if MapProps(ps, f).Some? && MapProp(p, f).Some?
            then Some(MapProps(ps, f).value + MapProp(p, f).value) else None
  {
    hide MapProp;
    if |ps| == 0 {
      assert ps + [p] == [p] && [p][1..] == [];
      if MapProp(p, f).Some? {
        var w := MapProp(p, f).value;
        assert w + [] == [] + w;
      }
    } else {
      assert (ps + [p])[1..] == ps[1..] + [p];
      MapPropsLast(ps[1..], p, f);
      if MapProp(ps[0], f).Some? && MapProps(ps[1..], f).Some? && MapProp(p, f).Some? {
        ConcatAssociative(MapProp(ps[0], f).value, MapProps(ps[1..], f).value, MapProp(p, f).value);
      }
    }
  }

  /** A failure in one part fails the whole. */
  lemma {:induction false} MapItemsFails(items: seq<Json>, i: nat, f: Text -> Option<Text>)
    requires i < |items| && MapStrings(items[i], f).None?
    ensures MapItems(items, f).None?
  {
    if i > 0 { MapItemsFails(items[1..], i - 1, f); }
  }

  lemma {:induction false} MapPropsFails(ps: Props<Json>, i: nat, f: Text -> Option<Text>)
    requires i < |ps| && MapProp(ps[i], f).None?
    ensures MapProps(ps, f).None?
  {
    if i > 0 { MapPropsFails(ps[1..], i - 1, f); }
  }

  /** resolvePlaceholders and the walk of redactSecrets: the properties of an object are assigned
      one after the other to a fresh object. */
  method MapStringsLoop(v: Json, f: Text -> Option<Text>) returns (r: Option<Json>)
    ensures r == MapStrings(v, f)
    decreases v, 1
  {
    match v
    case Str(s) => r := match f(s) case None => None case Some(t) => Some(Str(t));
    case Arr(items) =>
      var out: seq<Json> := [];
      for i := 0 to |items|
        invariant MapItems(items[..i], f) == Some(out)
      {
        var item := MapStringsLoop(items[i], f);
        if item.None? {
          MapItemsFails(items, i, f);
          return None;
        }
        assert items[..i + 1] == items[..i] + [items[i]];
        MapItemsLast(items[..i], items[i], f);
        out := out + [item.value];
      }
      assert items[..|items|] == items;
      r := Some(Arr(out));
    case Obj(ps) =>
      var out := MapPropsLoop(ps, f);
      r := if out.None? then None else Some(Obj(out.value));
    case _ => r := Some(v);
  }

  method MapPropsLoop(ps: Props<Json>, f: Text -> Option<Text>) returns (r: Option<Props<Json>>)
    ensures r == match MapProps(ps, f) case None => None case Some(entries) => Some(PutAll([], entries))
    decreases ps, 1
  {
    var out: Props<Json> := [];
    ghost var entries: Props<Json> := [];
    for i := 0 to |ps|
      invariant MapProps(ps[..i], f) == Some(entries) && out == PutAll([], entries)
    {
      var value := MapPropertyLoop(ps[i], f);
      if value.None? {
        MapPropsFails(ps, i, f);
        return None;
      }
      assert ps[..i + 1] == ps[..i] + [ps[i]];
      MapPropsLast(ps[..i], ps[i], f);
      if ps[i].0 != PROTO {
        PutAllLast([], entries, (ps[i].0, value.value));
        out := Put(out, ps[i].0, value.value);
        entries := entries + [(ps[i].0, value.value)];
      } else {
        assert entries + [] == entries;
      }
    }
    assert ps[..|ps|] == ps;
    r := Some(out);
  }

  method MapPropertyLoop(p: (Text, Json), f: Text -> Option<Text>) returns (r: Option<Json>)
    ensures MapProp(p, f) ==
            if r.None? then None else Some(if p.0 == PROTO then [] else [(p.0, r.value)])
    decreases p, 0
  {
    match p case (_, v) => r := MapStringsLoop(v, f);
  }
}
