/** Redaction of secrets in tool output, and the guard that refuses to let a secret pass. */
module Redaction {
  import opened Utf16
  import opened Wrappers
  import opened Records
  import opened JsonText
  import opened Canonical
  import opened Credentials

  const REDACTION: Text := [STAR, STAR, STAR]

  /** String.prototype.includes. */
  predicate Includes(s: Text, part: Text) { part <= s || (|s| > 0 && Includes(s[1..], part)) }

  /** s.split(secret).join("***"). */
  function ReplaceAll(s: Text, secret: Text): Text
    requires |secret| > 0
    decreases |s|
  {
    if |s| == 0 then []
    else if secret <= s then REDACTION + ReplaceAll(s[|secret|..], secret)
    else [s[0]] + ReplaceAll(s[1..], secret)
  }

  predicate NoneEmpty(secrets: seq<Text>) { forall i :: 0 <= i < |secrets| ==> |secrets[i]| > 0 }

  function NonEmpty(secrets: seq<Text>): (r: seq<Text>)
    ensures NoneEmpty(r) && forall t :: t in r <==> t in secrets && |t| > 0
  {
    if |secrets| == 0 then []
    else if |secrets[0]| > 0 then [secrets[0]] + NonEmpty(secrets[1..])
    else NonEmpty(secrets[1..])
  }

  /** One secret after the other. */
  function RedactString(s: Text, secrets: seq<Text>): Text
    requires NoneEmpty(secrets)
    decreases |secrets|
  {
    if |secrets| == 0 then s else RedactString(ReplaceAll(s, secrets[0]), secrets[1..])
  }

  function Redactor(secrets: seq<Text>): Text -> Option<Text>
    requires NoneEmpty(secrets)
  {
    s => Some(RedactString(s, secrets))
  }

  function RedactSecrets(v: Json, secrets: seq<Text>): Json {
    var nonEmpty := NonEmpty(secrets);
    if |nonEmpty| == 0 then v
    else
      MapTotal(v, Redactor(nonEmpty));
      MapStrings(v, Redactor(nonEmpty)).value
  }

  lemma {:induction false} MapTotal(v: Json, f: Text -> Option<Text>)
    requires forall s :: f(s).Some?
    ensures MapStrings(v, f).Some?
    decreases v, 1
  {
    match v
    case Arr(items) => MapItemsTotal(items, f);
    case Obj(ps) => MapPropsTotal(ps, f);
    case _ =>
  }

  lemma {:induction false} MapItemsTotal(items: seq<Json>, f: Text -> Option<Text>)
    requires forall s :: f(s).Some?
    ensures MapItems(items, f).Some?
    decreases items, 0
  {
    if |items| > 0 {
      MapTotal(items[0], f);
      MapItemsTotal(items[1..], f);
    }
  }

  lemma {:induction false} MapPropTotal(p: (Text, Json), f: Text -> Option<Text>)
    requires forall s :: f(s).Some?
    ensures MapProp(p, f).Some?
    decreases p, 0
  {
    match p case (_, v) => MapTotal(v, f);
  }

  lemma {:induction false} MapPropsTotal(ps: Props<Json>, f: Text -> Option<Text>)
    requires forall s :: f(s).Some?
    ensures MapProps(ps, f).Some?
    decreases ps, 0
  {
    if |ps| > 0 {
      MapPropTotal(ps[0], f);
      MapPropsTotal(ps[1..], f);
    }
  }

  /** The loop that redacts one string. */
  method RedactStringLoop(s: Text, secrets: seq<Text>) returns (out: Text)
    requires NoneEmpty(secrets)
    ensures out == RedactString(s, secrets)
  {
    out := s;
    for i := 0 to |secrets|
      invariant RedactString(out, secrets[i..]) == RedactString(s, secrets)
    {
      assert secrets[i..][1..] == secrets[i + 1..];
      out := ReplaceAll(out, secrets[i]);
    }
  }

  // ----- The guard -----

  /** A known secret appears in one of the strings of the value. */
  ghost predicate Leaks(v: Json, secrets: seq<Text>) {
    exists s, t :: StringIn(v, s) && t in secrets && |t| > 0 && Includes(s, t)
  }

  ghost predicate StringLeaks(s: Text, secrets: seq<Text>) {
    exists t :: t in secrets && |t| > 0 && Includes(s, t)
  }

  /** assertNoSecretValues; the result says whether it throws. */
  method AssertNoSecretValues(v: Json, secrets: seq<Text>) returns (throws: bool)
    ensures throws <==> Leaks(v, secrets)
  {
    var nonEmpty := NonEmpty(secrets);
    if |nonEmpty| == 0 {
      assert forall t :: t in secrets && |t| > 0 ==> t in nonEmpty;
      return false;
    }
    throws := ScanValue(v, nonEmpty);
    assert forall s :: StringLeaks(s, nonEmpty) <==> StringLeaks(s, secrets);
    assert Leaks(v, secrets) <==> exists s :: StringIn(v, s) && StringLeaks(s, secrets);
  }

  method ScanValue(v: Json, secrets: seq<Text>) returns (throws: bool)
    ensures throws <==> exists s :: StringIn(v, s) && StringLeaks(s, secrets)
    decreases v, 1
  {
    match v
    case Str(s) =>
      assert StringIn(v, s);
      for i := 0 to |secrets|
        invariant forall k :: 0 <= k < i ==> |secrets[k]| == 0 || !Includes(s, secrets[k])
      {
        if |secrets[i]| > 0 && Includes(s, secrets[i]) {
          assert secrets[i] in secrets;
          return true;
        }
      }
      throws := false;
    case Arr(items) =>
      for i := 0 to |items|
        invariant forall k, s :: 0 <= k < i && StringIn(items[k], s) ==> !StringLeaks(s, secrets)
      {
        var bad := ScanValue(items[i], secrets);
        if bad {
          ghost var s :| StringIn(items[i], s) && StringLeaks(s, secrets);
          assert StringIn(v, s);
          return true;
        }
      }
      throws := false;
    case Obj(ps) =>
      for i := 0 to |ps|
        invariant forall k, s :: 0 <= k < i && StringIn(ps[k].1, s) ==> !StringLeaks(s, secrets)
      {
        var bad := ScanValue(ps[i].1, secrets);
        if bad {
          ghost var s :| StringIn(ps[i].1, s) && StringLeaks(s, secrets);
          assert StringIn(v, s);
          return true;
        }
      }
      throws := false;
    case _ => throws := false;
  }

  // ----- Which secrets redaction removes for good -----

  /** The secret neither begins nor ends with a star and has no three stars in a row, so that no
      replacement can take part in a new occurrence of it. */
  ghost predicate Sound(t: Text) { (|t| > 0 ==> t[0] != STAR) && EndsSound(t) }

  ghost predicate EndsSound(t: Text) { (|t| > 0 ==> t[|t| - 1] != STAR) && !Includes(t, REDACTION) }

  lemma EndsSoundTail(t: Text)
    requires |t| > 0 && EndsSound(t)
    ensures EndsSound(t[1..])
  {
  }

  lemma StarPrefix(w: Text, rest: Text)
    requires |w| > 0 && w <= REDACTION + rest
    ensures !EndsSound(w)
  {
    var r := REDACTION + rest;
    if |w| >= 3 {
      assert w[..3] == r[..3] == REDACTION && REDACTION <= w;
    } else {
      assert w[|w| - 1] == r[|w| - 1];
    }
  }

  lemma StarsSkipped(rest: Text, u: Text)
    requires |u| > 0 && u[0] != STAR
    ensures Includes(REDACTION + rest, u) <==> Includes(rest, u)
  {
    SkipStar([STAR, STAR] + rest, u);
    SkipStar([STAR] + rest, u);
    SkipStar(rest, u);
    assert REDACTION + rest == [STAR] + ([STAR, STAR] + rest);
    assert [STAR, STAR] + rest == [STAR] + ([STAR] + rest);
  }

  lemma SkipStar(rest: Text, u: Text)
    requires |u| > 0 && u[0] != STAR
    ensures Includes([STAR] + rest, u) <==> Includes(rest, u)
  {
    assert ([STAR] + rest)[1..] == rest;
  }

  /** A prefix of the redacted text that ends soundly was a prefix of the text. */
  lemma {:induction false} PrefixSurvives(s: Text, secret: Text, w: Text)
    requires |secret| > 0 && EndsSound(w) && w <= ReplaceAll(s, secret)
    ensures w <= s
    decreases |s|
  {
    if |s| > 0 && |w| > 0 {
      if secret <= s { StarPrefix(w, ReplaceAll(s[|secret|..], secret)); }
      EndsSoundTail(w);
      assert ReplaceAll(s, secret)[1..] == ReplaceAll(s[1..], secret);
      PrefixSurvives(s[1..], secret, w[1..]);
      assert w == [w[0]] + w[1..] && s == [s[0]] + s[1..];
    }
  }

  /** Redaction creates no occurrence of a sound text. */
  lemma {:induction false} NothingAppears(s: Text, secret: Text, u: Text)
    requires |secret| > 0 && |u| > 0 && Sound(u) && Includes(ReplaceAll(s, secret), u)
    ensures Includes(s, u)
    decreases |s|
  {
    var r := ReplaceAll(s, secret);
    if u <= r {
      PrefixSurvives(s, secret, u);
    } else if |s| > 0 && secret <= s {
      StarsSkipped(ReplaceAll(s[|secret|..], secret), u);
      NothingAppears(s[|secret|..], secret, u);
      IncludesLater(s, |secret|, u);
    } else if |s| > 0 {
      assert r[1..] == ReplaceAll(s[1..], secret);
      NothingAppears(s[1..], secret, u);
    }
  }

  lemma {:induction false} IncludesLater(s: Text, i: nat, u: Text)
    requires i <= |s| && Includes(s[i..], u)
    ensures Includes(s, u)
  {
    if i == 0 {
      assert s[0..] == s;
    } else {
      assert s[1..][i - 1..] == s[i..];
      IncludesLater(s[1..], i - 1, u);
    }
  }

  /** Replacing a sound secret removes it. */
  lemma {:induction false} SecretGone(s: Text, secret: Text)
    requires |secret| > 0 && Sound(secret)
    ensures !Includes(ReplaceAll(s, secret), secret)
    decreases |s|
  {
    var r := ReplaceAll(s, secret);
    if |s| > 0 && secret <= s {
      StarsSkipped(ReplaceAll(s[|secret|..], secret), secret);
      SecretGone(s[|secret|..], secret);
    } else if |s| > 0 {
      SecretGone(s[1..], secret);
      assert r[1..] == ReplaceAll(s[1..], secret);
      if secret <= r { PrefixSurvives(s, secret, secret); }
    }
  }

  lemma {:induction false} NoneAppear(s: Text, secrets: seq<Text>, u: Text)
    requires NoneEmpty(secrets) && |u| > 0 && Sound(u) && !Includes(s, u)
    ensures !Includes(RedactString(s, secrets), u)
    decreases |secrets|
  {
    if |secrets| > 0 {
      if Includes(ReplaceAll(s, secrets[0]), u) { NothingAppears(s, secrets[0], u); }
      NoneAppear(ReplaceAll(s, secrets[0]), secrets[1..], u);
    }
  }

  lemma {:induction false} AllGone(s: Text, secrets: seq<Text>, u: Text)
    requires NoneEmpty(secrets) && u in secrets && Sound(u)
    ensures !Includes(RedactString(s, secrets), u)
    decreases |secrets|
  {
    var next := ReplaceAll(s, secrets[0]);
    if u == secrets[0] {
      SecretGone(s, u);
      NoneAppear(next, secrets[1..], u);
    } else {
      assert u in secrets[1..];
      AllGone(next, secrets[1..], u);
    }
  }

  lemma {:induction false} MappedStrings(v: Json, r: Json, f: Text -> Option<Text>, t: Text)
    requires Mapped(v, r, f) && StringIn(r, t)
    ensures exists s :: StringIn(v, s) && f(s) == Some(t)
  {
    match v
    case Str(s) => assert StringIn(v, s);
    case Arr(items) =>
      var i :| 0 <= i < |items| && StringIn(r.items[i], t);
      MappedStrings(items[i], r.items[i], f, t);
      var s :| StringIn(items[i], s) && f(s) == Some(t);
      assert StringIn(v, s);
    case Obj(ps) =>
      var i :| 0 <= i < |ps| && StringIn(r.props[i].1, t);
      MappedStrings(ps[i].1, r.props[i].1, f, t);
      var s :| StringIn(ps[i].1, s) && f(s) == Some(t);
      assert StringIn(v, s);
    case _ =>
  }

  /** What redactSecrets returns holds no sound secret, whatever the other secrets are and whatever
      their overlaps and their order. */
  lemma SoundSecretGone(v: Json, secrets: seq<Text>, t: Text)
    requires Valid(v) && t in secrets && |t| > 0 && Sound(t)
    ensures !Leaks(RedactSecrets(v, secrets), [t])
  {
    var nonEmpty := NonEmpty(secrets);
    assert t in nonEmpty;
    var f := Redactor(nonEmpty);
    var r := RedactSecrets(v, secrets);
    MapTotal(v, f);
    MapKeepsStructure(v, f);
    forall s | StringIn(r, s) ensures !Includes(s, t) {
      MappedStrings(Strip(v), r, f, s);
      var origin :| StringIn(Strip(v), origin) && f(origin) == Some(s);
      AllGone(origin, nonEmpty, t);
    }
  }

  /** So it passes the guard for the same secrets when all of them are sound. A secret without a
      star is sound. */
  lemma RedactedPasses(v: Json, secrets: seq<Text>)
    requires Valid(v) && forall t :: t in secrets ==> Sound(t)
    ensures !Leaks(RedactSecrets(v, secrets), secrets)
  {
    hide RedactSecrets, Sound, Valid, StringIn, Includes;
    forall s, t | StringIn(RedactSecrets(v, secrets), s) && t in secrets && |t| > 0 ensures !Includes(s, t) {
      SoundSecretGone(v, secrets, t);
      assert t in [t];
    }
  }

  lemma {:induction false} StarlessSound(t: Text)
    requires STAR !in t
    ensures Sound(t)
  {
    if |t| > 0 { StarlessSound(t[1..]); }
  }

  // ----- A value that passes is left alone -----

  lemma {:induction false} NothingReplaced(s: Text, secret: Text)
    requires |secret| > 0 && !Includes(s, secret)
    ensures ReplaceAll(s, secret) == s
    decreases |s|
  {
    if |s| > 0 { NothingReplaced(s[1..], secret); }
  }

  lemma {:induction false} NothingRedacted(s: Text, secrets: seq<Text>)
    requires NoneEmpty(secrets) && forall t :: t in secrets ==> !Includes(s, t)
    ensures RedactString(s, secrets) == s
    decreases |secrets|
  {
    if |secrets| > 0 {
      NothingReplaced(s, secrets[0]);
      NothingRedacted(s, secrets[1..]);
    }
  }

  /** For any secrets, a value that passes the guard is left unchanged, up to the __proto__ keys
      that rebuilding drops. */
  lemma PassingUnchanged(v: Json, secrets: seq<Text>)
    requires Valid(v) && !Leaks(v, secrets)
    ensures RedactSecrets(v, secrets) == if |NonEmpty(secrets)| == 0 then v else Strip(v)
  {
    var nonEmpty := NonEmpty(secrets);
    if |nonEmpty| > 0 {
      var f := Redactor(nonEmpty);
      MapTotal(v, f);
      MapKeepsStructure(v, f);
      forall s, t | f(s) == Some(t) && StringIn(Strip(v), s) ensures s == t {
        StrippedStrings(v, s);
        NothingRedacted(s, nonEmpty);
      }
      MappedIdentity(Strip(v), RedactSecrets(v, secrets), f);
    }
  }

  // ----- The condition on a secret is exact -----

  /** The text of which redaction leaves the secret behind, when the secret is not sound. */
  ghost function Survivor(t: Text): Text
    requires |t| > 0 && !Sound(t)
  {
    if t[0] == STAR then t + t[1..]
    else if t[|t| - 1] == STAR then t[..|t| - 1] + t
    else var q := FirstAt(t, REDACTION); t[..q] + t + t[q + 3..]
  }

  /** The first position at which the part occurs. */
  ghost function FirstAt(s: Text, part: Text): (i: nat)
    requires Includes(s, part)
    ensures i <= |s| && part <= s[i..] && forall k :: 0 <= k < i ==> !(part <= s[k..])
  {
    if part <= s then
      assert s[0..] == s;
      0
    else
      var i := FirstAt(s[1..], part);
      assert s[0..] == s;
      assert forall k :: 0 < k <= |s| ==> s[1..][k - 1..] == s[k..];
      i + 1
  }

  lemma {:induction false} IncludesAt(s: Text, i: nat, part: Text)
    requires i <= |s| && part <= s[i..]
    ensures Includes(s, part)
  {
    IncludesLater(s, i, part);
  }

  /** Replacement in a text whose first occurrence of the secret is known. */
  lemma {:induction false} ReplaceFirst(a: Text, t: Text, b: Text)
    requires |t| > 0 && |b| < |t|
    requires forall p :: 0 <= p < |a| ==> !(t <= (a + t + b)[p..])
    ensures ReplaceAll(a + t + b, t) == a + REDACTION + b
    decreases |a|
  {
    var s := a + t + b;
    if |a| == 0 {
      assert s == t + b && s[|t|..] == b;
      TooShort(b, t);
      NothingReplaced(b, t);
    } else {
      assert s[0..] == s;
      assert s[1..] == a[1..] + t + b;
      assert forall p :: 0 <= p < |a[1..]| ==> s[1..][p..] == s[p + 1..];
      ReplaceFirst(a[1..], t, b);
      assert a == [a[0]] + a[1..];
    }
  }

  lemma {:induction false} TooShort(b: Text, t: Text)
    requires |b| < |t|
    ensures !Includes(b, t)
  {
    if |b| > 0 { TooShort(b[1..], t); }
  }

  lemma StarInFront(t: Text)
    requires |t| > 0 && t[0] == STAR
    ensures Includes(ReplaceAll(t + t[1..], t), t)
  {
    hide ReplaceAll, Includes;
    var r := [] + REDACTION + t[1..];
    assert [] + t + t[1..] == t + t[1..];
    ReplaceFirst([], t, t[1..]);
    assert r[2..] == t;
    IncludesAt(r, 2, t);
  }

  lemma Mismatch(s: Text, p: nat, t: Text, k: nat)
    requires p + k < |s| && k < |t| && s[p + k] != t[k]
    ensures !(t <= s[p..])
  {
    assert s[p..][k] == s[p + k];
  }

  lemma StarAtEnd(t: Text)
    requires |t| > 0 && t[0] != STAR && t[|t| - 1] == STAR
    ensures Includes(ReplaceAll(t[..|t| - 1] + t, t), t)
  {
    hide ReplaceAll, Includes;
    var n := |t|;
    var a := t[..n - 1];
    var s := a + t + [];
    assert s == a + t;
    forall p | 0 <= p < |a| ensures !(t <= s[p..]) {
      assert s[p] == t[p] && s[p + n - 1] == t[p];
      Mismatch(s, p, t, if t[p] == STAR then 0 else n - 1);
    }
    ReplaceFirst(a, t, []);
    var r := a + REDACTION + [];
    assert t == a + [STAR];
    assert r[0..] == r && t <= r;
    IncludesAt(r, 0, t);
  }

  lemma StarsInside(t: Text)
    requires |t| > 0 && Includes(t, REDACTION)
    ensures var q := FirstAt(t, REDACTION); Includes(ReplaceAll(t[..q] + t + t[q + 3..], t), t)
  {
    hide ReplaceAll, Includes, FirstAt;
    var q := FirstAt(t, REDACTION);
    var a, b := t[..q], t[q + 3..];
    assert t[q..][..3] == REDACTION;
    forall p | 0 <= p < |a| ensures !(t <= (a + t + b)[p..]) { NotEarlier(t, q, b, p); }
    ReplaceFirst(a, t, b);
    assert a + REDACTION + b == t;
    assert t[0..] == t;
    IncludesAt(t, 0, t);
  }

  /** No occurrence of t starts inside the copy of its first q units that stands before it. */
  lemma NotEarlier(t: Text, q: nat, b: Text, p: nat)
    requires p < q && q + 3 <= |t| && REDACTION <= t[q..]
    requires forall k :: 0 <= k < q ==> !(REDACTION <= t[k..])
    ensures !(t <= (t[..q] + t + b)[p..])
  {
    var s := t[..q] + t + b;
    assert t[p..][0] == t[p] && t[p..][1] == t[p + 1] && t[p..][2] == t[p + 2];
    assert t[q..][0] == t[q] && t[q..][1] == t[q + 1] && t[q..][2] == t[q + 2];
    assert s[p + q] == t[p] && s[p + q + 1] == t[p + 1] && s[p + q + 2] == t[p + 2];
    assert !(REDACTION <= t[p..]);
    Mismatch(s, p, t, if t[p] != STAR then q else if t[p + 1] != STAR then q + 1 else q + 2);
  }

  lemma RedactOne(s: Text, t: Text)
    requires |t| > 0
    ensures RedactSecrets(Str(s), [t]) == Str(ReplaceAll(s, t))
  {
    assert [t][1..] == [];
    assert NonEmpty([t]) == [t];
    var f := Redactor([t]);
    assert f(s) == Some(RedactString(s, [t]));
    assert RedactString(s, [t]) == RedactString(ReplaceAll(s, t), []);
    assert MapStrings(Str(s), f) == Some(Str(ReplaceAll(s, t)));
  }

  /** Redacting with a single secret always passes the guard exactly when the secret is sound. */
  lemma SingleSecretExactly(t: Text)
    requires |t| > 0
    ensures Sound(t) <==> forall v :: Valid(v) ==> !Leaks(RedactSecrets(v, [t]), [t])
  {
    if Sound(t) {
      forall v | Valid(v) ensures !Leaks(RedactSecrets(v, [t]), [t]) { RedactedPasses(v, [t]); }
    } else {
      if t[0] == STAR {
        StarInFront(t);
      } else if t[|t| - 1] == STAR {
        StarAtEnd(t);
      } else {
        StarsInside(t);
      }
      var v := Str(Survivor(t));
      var r := RedactSecrets(v, [t]);
      RedactOne(Survivor(t), t);
      assert StringIn(r, r.s) && t in [t];
      assert Leaks(r, [t]);
      assert Valid(v);
    }
  }
}
