/** What resolving and redacting do to a text and to a value, told without the code: where
    placeholders are, what stands in their places, and how a text splits at a secret. */
module Substitution {
  import opened Utf16
  import opened Wrappers
  import opened Records
  import opened JsonText
  import opened Canonical
  import opened Credentials
  import opened Redaction

  // ----- Placeholders -----

  /** One or more of A-Z, a-z, 0-9 and _. */
  ghost predicate NameText(name: Text) {
    |name| > 0 &&
    forall i :: 0 <= i < |name| ==>
      48 <= name[i] <= 57 || 65 <= name[i] <= 90 || 97 <= name[i] <= 122 || name[i] == 95
  }

  /** The placeholder of a name: "{{secret:", the name, "}}". */
  function Marked(name: Text): Text { Ascii("{{secret:") + name + Ascii("}}") }

  ghost predicate StartsMarked(s: Text) { exists name :: NameText(name) && Marked(name) <= s }

  lemma MarkedUnits(name: Text)
    ensures Marked(name) == OPENING + name + [CLOSE_BRACE, CLOSE_BRACE] && |Marked(name)| == |name| + 11
    ensures Marked(name) == PieceText(Hole(name))
  {
    assert Ascii("}}") == [CLOSE_BRACE, CLOSE_BRACE];
  }

  lemma NameUnits(name: Text)
    ensures NameText(name) <==> |name| > 0 && forall i :: 0 <= i < |name| ==> IsNameUnit(name[i])
  {
  }

  lemma NameRunIs(s: Text, n: nat)
    requires n <= |s| && (forall i :: 0 <= i < n ==> IsNameUnit(s[i])) && (n < |s| ==> !IsNameUnit(s[n]))
    ensures NameRun(s) == n
  {
  }

  /** A text starts with the placeholder of a name exactly if it starts with these units. */
  lemma PlaceholderExactly(s: Text, name: Text)
    ensures PlaceholderAt(s) == Some(name) <==> NameText(name) && Marked(name) <= s
  {
    hide IsNameUnit, OPENING;
    MarkedUnits(name);
    NameUnits(name);
    OpeningUnits();
    if PlaceholderAt(s) == Some(name) {
      PlaceholderText(s);
      assert s == Marked(name) + s[|name| + 11..];
    }
    if NameText(name) && Marked(name) <= s {
      var m := Marked(name);
      assert s[..|m|] == m && m[..9] == OPENING;
      assert OPENING <= s by { assert s[..9] == s[..|m|][..9]; }
      assert forall i :: 0 <= i < |name| ==> s[9..][i] == m[9 + i] == name[i];
      assert s[9 + |name|] == m[9 + |name|] == CLOSE_BRACE && s[10 + |name|] == m[10 + |name|] == CLOSE_BRACE;
      BraceIsNoName();
      NameRunIs(s[9..], |name|);
      assert s[9..9 + |name|] == name;
    }
  }

  lemma BraceIsNoName()
    ensures !IsNameUnit(CLOSE_BRACE)
  {
  }

  lemma StartsExactly(s: Text)
    ensures StartsMarked(s) <==> PlaceholderAt(s).Some?
  {
    hide PlaceholderAt, NameText, Marked;
    if PlaceholderAt(s).Some? { PlaceholderExactly(s, PlaceholderAt(s).value); }
    if StartsMarked(s) {
      var name :| NameText(name) && Marked(name) <= s;
      PlaceholderExactly(s, name);
    }
  }

  // ----- Resolution of a text -----

  /** A placeholder becomes the value that the vault holds under its name. */
  lemma MarkedLaw(name: Text, rest: Text, vault: Vault)
    requires NameText(name)
    ensures ResolveString(Marked(name) + rest, vault) ==
            match (vault(name), ResolveString(rest, vault))
            case (Some(v), Some(r)) => Some(v + r)
            case _ => None
  {
    hide PlaceholderAt, NameText, Marked, OPENING;
    var s := Marked(name) + rest;
    MarkedUnits(name);
    PlaceholderExactly(s, name);
    assert s[|name| + 11..] == rest;
    var pieces := Pieces(s);
    assert pieces == [Hole(name)] + Pieces(rest);
    assert pieces[1..] == Pieces(rest);
  }

  /** A unit where no placeholder starts stays. */
  lemma UnitLaw(u: CodeUnit, rest: Text, vault: Vault)
    requires !StartsMarked([u] + rest)
    ensures ResolveString([u] + rest, vault) ==
            match ResolveString(rest, vault) case Some(r) => Some([u] + r) case None => None
  {
    hide PlaceholderAt, StartsMarked;
    var s := [u] + rest;
    StartsExactly(s);
    assert s[1..] == rest;
    assert Pieces(s) == [Plain(u)] + Pieces(rest);
    assert Pieces(s)[1..] == Pieces(rest);
  }

  /** t is s with every placeholder replaced by the value of its name. */
  ghost predicate Filled(s: Text, t: Text, vault: Vault)
    decreases |s|
  {
    || (s == [] && t == [])
    || (exists name, v, rest, r ::
          NameText(name) && s == Marked(name) + rest && vault(name) == Some(v) && t == v + r && Filled(rest, r, vault))
    || (!StartsMarked(s) && |s| > 0 && |t| > 0 && t[0] == s[0] && Filled(s[1..], t[1..], vault))
  }

  lemma {:induction false} FilledExactly(s: Text, t: Text, vault: Vault)
    ensures ResolveString(s, vault) == Some(t) <==> Filled(s, t, vault)
    decreases |s|
  {
    hide ResolveString, Marked, NameText, StartsMarked;
    if |s| == 0 {
      EmptyResolves(vault);
      forall name, rest | s == Marked(name) + rest ensures false { MarkedUnits(name); }
    } else if StartsMarked(s) {
      MarkedPart(s, t, vault);
    } else {
      forall name, rest | NameText(name) && s == Marked(name) + rest ensures false {
        StartsHere(s, name);
      }
      assert s == [s[0]] + s[1..];
      UnitLaw(s[0], s[1..], vault);
      if |t| > 0 { FilledExactly(s[1..], t[1..], vault); }
      if ResolveString(s[1..], vault).Some? {
        var r := ResolveString(s[1..], vault).value;
        assert ([s[0]] + r)[1..] == r;
        assert |t| > 0 && t[0] == s[0] ==> t == [t[0]] + t[1..];
      }
    }
  }

  lemma EmptyResolves(vault: Vault)
    ensures ResolveString([], vault) == Some([])
  {
  }

  lemma StartsHere(s: Text, name: Text)
    requires NameText(name) && Marked(name) <= s
    ensures StartsMarked(s)
  {
  }

  lemma {:induction false} MarkedPart(s: Text, t: Text, vault: Vault)
    requires StartsMarked(s)
    ensures ResolveString(s, vault) == Some(t) <==> Filled(s, t, vault)
    decreases |s|, 0
  {
    hide ResolveString, Marked, NameText;
    var name :| NameText(name) && Marked(name) <= s;
    MarkedUnits(name);
    var rest := s[|Marked(name)|..];
    assert s == Marked(name) + rest;
    MarkedLaw(name, rest, vault);
    if ResolveString(s, vault) == Some(t) {
      var v, r := vault(name).value, ResolveString(rest, vault).value;
      FilledExactly(rest, r, vault);
      assert t == v + r && Filled(rest, r, vault);
    }
    if Filled(s, t, vault) {
      var other, v, rest', r :| NameText(other) && s == Marked(other) + rest' && vault(other) == Some(v) &&
        t == v + r && Filled(rest', r, vault);
      PlaceholderExactly(s, name);
      PlaceholderExactly(s, other);
      assert rest' == rest;
      FilledExactly(rest, r, vault);
    }
  }

  // ----- The names in a value -----

  /** The placeholder of this name occurs in the text. */
  ghost predicate MarkedIn(s: Text, name: Text) {
    NameText(name) && exists i :: 0 <= i <= |s| && Marked(name) <= s[i..]
  }

  /** Some string of the value holds the placeholder of this name. */
  ghost predicate Mentions(v: Json, name: Text) { exists s :: StringIn(v, s) && MarkedIn(s, name) }

  lemma {:induction false} HoleIn(pieces: seq<Piece>, name: Text)
    ensures name in HoleNames(pieces) <==> exists k :: 0 <= k < |pieces| && pieces[k] == Hole(name)
  {
    if |pieces| > 0 {
      HoleIn(pieces[1..], name);
      if name in HoleNames(pieces[1..]) {
        var k :| 0 <= k < |pieces[1..]| && pieces[1..][k] == Hole(name);
        assert pieces[k + 1] == Hole(name);
      }
      if k :| 0 <= k < |pieces| && pieces[k] == Hole(name) {
        if k > 0 { assert pieces[1..][k - 1] == Hole(name); }
      }
    }
  }

  lemma {:induction false} TextNames(s: Text, name: Text)
    ensures name in HoleNames(Pieces(s)) <==> exists i :: 0 <= i <= |s| && PlaceholderAt(s[i..]) == Some(name)
    decreases |s|
  {
    hide PlaceholderAt;
    if |s| == 0 {
      NoPlaceholder(s);
    } else {
      assert s[0..] == s;
      var n := if PlaceholderAt(s).Some? then |PlaceholderAt(s).value| + 11 else 1;
      var rest := s[n..];
      TextNames(rest, name);
      assert Pieces(s)[1..] == Pieces(rest);
      assert forall i :: 0 <= i <= |rest| ==> rest[i..] == s[n + i..];
      forall i | 0 < i < n ensures PlaceholderAt(s[i..]).None? {
        if PlaceholderAt(s).Some? { NoOverlap(s, i); }
      }
      if i :| 0 <= i <= |s| && PlaceholderAt(s[i..]) == Some(name) {
        if i >= n { assert rest[i - n..] == s[i..]; }
      }
    }
  }

  lemma NoPlaceholder(s: Text)
    requires |s| == 0
    ensures forall i :: 0 <= i <= |s| ==> PlaceholderAt(s[i..]).None?
  {
  }

  lemma {:induction false} NamesFromStrings(v: Json, name: Text)
    ensures name in Names(v) <==> exists s :: StringIn(v, s) && name in HoleNames(Pieces(s))
    decreases v, 1
  {
    hide HoleNames, Pieces;
    if s :| StringIn(v, s) && name in HoleNames(Pieces(s)) { StringNames(v, s); }
    match v
    case Str(s) => assert StringIn(v, s);
    case Arr(items) => ItemNamesFrom(items, name);
    case Obj(ps) => PropNamesFrom(ps, name);
    case _ =>
  }

  lemma {:induction false} ItemNamesFrom(items: seq<Json>, name: Text)
    ensures name in ItemNames(items) ==>
              exists i, s :: 0 <= i < |items| && StringIn(items[i], s) && name in HoleNames(Pieces(s))
    decreases items, 0
  {
    hide HoleNames, Pieces, StringIn;
    if name in ItemNames(items) {
      NamesFromStrings(items[0], name);
      if name !in Names(items[0]) {
        ItemNamesFrom(items[1..], name);
        var i, s :| 0 <= i < |items[1..]| && StringIn(items[1..][i], s) && name in HoleNames(Pieces(s));
        assert items[i + 1] == items[1..][i];
      }
    }
  }

  lemma {:induction false} PropNamesFrom(ps: Props<Json>, name: Text)
    ensures name in PropNames(ps) ==>
              exists i, s :: 0 <= i < |ps| && StringIn(ps[i].1, s) && name in HoleNames(Pieces(s))
    decreases ps, 0
  {
    hide HoleNames, Pieces, StringIn;
    if name in PropNames(ps) {
      MemberNamesFrom(ps[0], name);
      if name !in NamesOf(ps[0]) {
        PropNamesFrom(ps[1..], name);
        var i, s :| 0 <= i < |ps[1..]| && StringIn(ps[1..][i].1, s) && name in HoleNames(Pieces(s));
        assert ps[i + 1] == ps[1..][i];
      }
    }
  }

  lemma {:induction false} MemberNamesFrom(p: (Text, Json), name: Text)
    ensures name in NamesOf(p) ==> exists s :: StringIn(p.1, s) && name in HoleNames(Pieces(s))
    decreases p, 0
  {
    match p case (_, v) => NamesFromStrings(v, name);
  }

  lemma MarkedInExactly(s: Text, name: Text)
    ensures MarkedIn(s, name) <==> name in HoleNames(Pieces(s))
  {
    hide PlaceholderAt, NameText, Marked, Pieces, HoleNames;
    TextNames(s, name);
    if MarkedIn(s, name) {
      var i :| 0 <= i <= |s| && Marked(name) <= s[i..];
      PlaceholderExactly(s[i..], name);
    }
    if name in HoleNames(Pieces(s)) {
      var i :| 0 <= i <= |s| && PlaceholderAt(s[i..]) == Some(name);
      PlaceholderExactly(s[i..], name);
      assert Marked(name) <= s[i..];
    }
  }

  /** The found names are exactly the names whose placeholders occur in the strings of the value. */
  lemma FindExactly(v: Json, name: Text)
    ensures name in FindPlaceholders(v) <==> Mentions(v, name)
  {
    hide MarkedIn, Pieces, HoleNames, Names, AddAll, StringIn;
    AddAllElements([], Names(v));
    NamesFromStrings(v, name);
    if name in Names(v) {
      var s :| StringIn(v, s) && name in HoleNames(Pieces(s));
      MarkedInExactly(s, name);
    }
    if Mentions(v, name) {
      var s :| StringIn(v, s) && MarkedIn(s, name);
      MarkedInExactly(s, name);
    }
  }

  lemma {:induction false} AddAllPrefix(found: seq<Text>, names: seq<Text>)
    ensures found <= AddAll(found, names)
    decreases |names|
  {
    if |names| > 0 { AddAllPrefix(Add(found, names[0]), names[1..]); }
  }

  /** Names are listed in the order in which they first occur: what is found in the first elements of
      an array comes first. */
  lemma FoundInOrder(items: seq<Json>, v: Json)
    ensures FindPlaceholders(Arr(items)) <= FindPlaceholders(Arr(items + [v]))
  {
    ItemNamesLast(items, v);
    AddAllConcat([], ItemNames(items), Names(v));
    AddAllPrefix(AddAll([], ItemNames(items)), Names(v));
  }

  // ----- Occurrences and replacement -----

  predicate OccursAt(s: Text, i: nat, part: Text) { i + |part| <= |s| && s[i..i + |part|] == part }

  /** Includes finds the part at whatever position it occurs. */
  lemma {:induction false} IncludesExactly(s: Text, part: Text)
    ensures Includes(s, part) <==> exists i: nat :: OccursAt(s, i, part)
  {
    if Includes(s, part) {
      if part <= s {
        assert OccursAt(s, 0, part);
      } else {
        IncludesExactly(s[1..], part);
        var i: nat :| OccursAt(s[1..], i, part);
        assert s[1..][i..i + |part|] == s[i + 1..i + 1 + |part|];
        assert OccursAt(s, i + 1, part);
      }
    }
    if i: nat :| OccursAt(s, i, part) {
      assert s[i..][..|part|] == part;
      IncludesLater(s, i, part);
    }
  }

  /** The part before an occurrence of the secret that is the first one. */
  ghost predicate UpToFirst(part: Text, secret: Text) {
    forall p :: 0 <= p < |part| ==> !(secret <= (part + secret)[p..])
  }

  /** The parts between the occurrences of the secret, taken one after the other from the left. */
  ghost predicate IsSplit(parts: seq<Text>, s: Text, secret: Text) {
    && |parts| > 0 && JoinWith(parts, secret) == s
    && (forall i :: 0 <= i < |parts| - 1 ==> UpToFirst(parts[i], secret))
    && !Includes(parts[|parts| - 1], secret)
  }

  lemma SplitAlone(s: Text, secret: Text)
    requires |secret| > 0 && !Includes(s, secret)
    ensures IsSplit([s], s, secret) && JoinWith([s], Ascii("***")) == s
  {
  }

  lemma JoinCons(part: Text, parts: seq<Text>, between: Text)
    requires |parts| > 0
    ensures JoinWith([part] + parts, between) == part + between + JoinWith(parts, between)
  {
    assert ([part] + parts)[1..] == parts;
  }

  lemma Stars()
    ensures REDACTION == Ascii("***")
  {
  }

  /** A replaced text is the parts of the text with "***" between them. */
  lemma {:induction false} ReplaceAllSplits(s: Text, secret: Text) returns (parts: seq<Text>)
    requires |secret| > 0
    ensures IsSplit(parts, s, secret) && ReplaceAll(s, secret) == JoinWith(parts, Ascii("***"))
    decreases |s|
  {
    hide JoinWith, Ascii, REDACTION;
    Stars();
    if !Includes(s, secret) {
      NothingReplaced(s, secret);
      SplitAlone(s, secret);
      parts := [s];
    } else if secret <= s {
      var rest := s[|secret|..];
      assert s == secret + rest;
      var more := ReplaceAllSplits(rest, secret);
      parts := [[]] + more;
      JoinCons([], more, secret);
      JoinCons([], more, Ascii("***"));
      assert [] + secret + rest == s;
      assert [] + Ascii("***") + JoinWith(more, Ascii("***")) == REDACTION + ReplaceAll(rest, secret);
      MorePart([], more, secret);
    } else {
      var more := ReplaceAllSplits(s[1..], secret);
      parts := FirstUnit(s, secret, more);
    }
  }

  lemma MorePart(part: Text, more: seq<Text>, secret: Text)
    requires |more| > 0 && UpToFirst(part, secret)
    requires forall i :: 0 <= i < |more| - 1 ==> UpToFirst(more[i], secret)
    ensures var parts := [part] + more;
            parts[|parts| - 1] == more[|more| - 1] && forall i :: 0 <= i < |parts| - 1 ==> UpToFirst(parts[i], secret)
  {
    hide UpToFirst;
  }

  /** One more unit in front of the first part. */
  lemma FirstUnit(s: Text, secret: Text, more: seq<Text>) returns (parts: seq<Text>)
    requires |s| > 0 && |secret| > 0 && !(secret <= s) && Includes(s, secret)
    requires IsSplit(more, s[1..], secret) && ReplaceAll(s[1..], secret) == JoinWith(more, Ascii("***"))
    ensures IsSplit(parts, s, secret) && ReplaceAll(s, secret) == JoinWith(parts, Ascii("***"))
  {
    hide Ascii;
    var u := [s[0]];
    parts := [u + more[0]] + more[1..];
    assert s == u + s[1..];
    UnitInFront(u, more, secret);
    UnitInFront(u, more, Ascii("***"));
    if |more| > 1 {
      assert JoinWith(more, secret) == more[0] + secret + JoinWith(more[1..], secret);
      StillFirst(u, more[0], secret, s);
    }
  }

  lemma UnitInFront(u: Text, more: seq<Text>, between: Text)
    requires |more| > 0
    ensures JoinWith([u + more[0]] + more[1..], between) == u + JoinWith(more, between)
  {
    var parts := [u + more[0]] + more[1..];
    assert parts[1..] == more[1..];
    if |more| > 1 {
      var rest := JoinWith(more[1..], between);
      assert u + more[0] + between + rest == u + (more[0] + between + rest);
    }
  }

  lemma StillFirst(u: Text, part: Text, secret: Text, s: Text)
    requires |u| == 1 && UpToFirst(part, secret) && u + part + secret <= s && !(secret <= s) && |secret| > 0
    ensures UpToFirst(u + part, secret)
  {
    forall p | 0 <= p < |u + part| ensures !(secret <= (u + part + secret)[p..]) {
      if p == 0 {
        assert (u + part + secret)[0..] == u + part + secret;
      } else {
        assert (u + part + secret)[p..] == (part + secret)[p - 1..];
      }
    }
  }

  /** There is only one way to split a text. */
  lemma {:induction false} SplitUnique(s: Text, secret: Text, a: seq<Text>, b: seq<Text>)
    requires |secret| > 0 && IsSplit(a, s, secret) && IsSplit(b, s, secret)
    ensures a == b
    decreases |a|
  {
    SplitHead(s, secret, a);
    SplitHead(s, secret, b);
    if |a| > 1 {
      SameHead(s, secret, a[0], b[0]);
      var rest := s[|a[0]| + |secret|..];
      SplitTail(s, secret, a);
      SplitTail(s, secret, b);
      SplitUnique(rest, secret, a[1..], b[1..]);
      assert a == [a[0]] + a[1..] && b == [b[0]] + b[1..];
    } else {
      assert a == [s] && b == [s];
    }
  }

  lemma SplitHead(s: Text, secret: Text, parts: seq<Text>)
    requires |secret| > 0 && IsSplit(parts, s, secret)
    ensures |parts| == 1 ==> parts[0] == s && !Includes(s, secret)
    ensures |parts| > 1 ==> parts[0] + secret <= s && Includes(s, secret)
  {
    if |parts| > 1 {
      var t := JoinWith(parts[1..], secret);
      assert s == parts[0] + secret + t;
      assert secret <= s[|parts[0]|..];
      IncludesLater(s, |parts[0]|, secret);
    }
  }

  lemma SplitTail(s: Text, secret: Text, parts: seq<Text>)
    requires |secret| > 0 && IsSplit(parts, s, secret) && |parts| > 1
    ensures |parts[0]| + |secret| <= |s| && IsSplit(parts[1..], s[|parts[0]| + |secret|..], secret)
  {
    hide UpToFirst, Includes;
    var tail := parts[1..];
    assert s == parts[0] + secret + JoinWith(tail, secret);
    assert forall i :: 0 <= i < |tail| ==> tail[i] == parts[i + 1];
    forall i | 0 <= i < |tail| - 1 ensures UpToFirst(tail[i], secret) { assert UpToFirst(parts[i + 1], secret); }
  }

  lemma SameHead(s: Text, secret: Text, a: Text, b: Text)
    requires |secret| > 0 && a + secret <= s && b + secret <= s && UpToFirst(a, secret) && UpToFirst(b, secret)
    ensures a == b
  {
    NotShorter(s, secret, a, b);
    NotShorter(s, secret, b, a);
    assert a == s[..|a|] && b == s[..|b|];
  }

  lemma NotShorter(s: Text, secret: Text, a: Text, b: Text)
    requires a + secret <= s && b + secret <= s && UpToFirst(b, secret)
    ensures |b| <= |a|
  {
    if |a| < |b| { EarlierStart(s, secret, a, b); }
  }

  lemma EarlierStart(s: Text, secret: Text, a: Text, b: Text)
    requires a + secret <= s && b + secret <= s && |a| < |b|
    ensures secret <= (b + secret)[|a|..]
  {
    assert (b + secret)[|a|..][..|secret|] == s[|a|..|a| + |secret|] == secret;
  }

  /** Replacing a secret: the text is split at its occurrences from the left, and "***" put between
      the parts. */
  lemma ReplaceAllExactly(s: Text, secret: Text, t: Text)
    requires |secret| > 0
    ensures ReplaceAll(s, secret) == t <==>
              exists parts :: IsSplit(parts, s, secret) && t == JoinWith(parts, Ascii("***"))
  {
    hide IsSplit, JoinWith, Ascii, ReplaceAll;
    var parts := ReplaceAllSplits(s, secret);
    if other :| IsSplit(other, s, secret) && t == JoinWith(other, Ascii("***")) {
      SplitUnique(s, secret, parts, other);
    }
  }

  /** Secrets are replaced in the order of the list, each in what the earlier ones have left. */
  lemma {:induction false} RedactLast(s: Text, secrets: seq<Text>, last: Text)
    requires NoneEmpty(secrets) && |last| > 0
    ensures NoneEmpty(secrets + [last])
    ensures RedactString(s, secrets + [last]) == ReplaceAll(RedactString(s, secrets), last)
    decreases |secrets|
  {
    if |secrets| == 0 {
      assert secrets + [last] == [last] && [last][1..] == [];
    } else {
      assert (secrets + [last])[1..] == secrets[1..] + [last];
      RedactLast(ReplaceAll(s, secrets[0]), secrets[1..], last);
    }
  }

  /** Empty secrets are left out and the others keep their order. */
  lemma {:induction false} NonEmptyLast(secrets: seq<Text>, last: Text)
    ensures NonEmpty(secrets + [last]) == NonEmpty(secrets) + if |last| > 0 then [last] else []
  {
    if |secrets| == 0 {
      assert secrets + [last] == [last] && [last][1..] == [];
      assert [] + [last] == [last];
    } else {
      assert (secrets + [last])[1..] == secrets[1..] + [last];
      NonEmptyLast(secrets[1..], last);
    }
  }

  /** A redacted value has the strings of the value redacted, and is otherwise the same, apart from
      dropped __proto__ keys. */
  lemma RedactedStrings(v: Json, secrets: seq<Text>)
    requires Valid(v) && |NonEmpty(secrets)| > 0
    ensures var f := Redactor(NonEmpty(secrets));
            && Mapped(Strip(v), RedactSecrets(v, secrets), f)
            && forall s :: f(s) == Some(RedactString(s, NonEmpty(secrets)))
  {
    var f := Redactor(NonEmpty(secrets));
    MapTotal(v, f);
    MapKeepsStructure(v, f);
  }
}
