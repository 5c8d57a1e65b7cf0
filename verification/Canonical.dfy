/** Canonical JSON: the texts that the journal hashes and signs. */
module Canonical {
  import opened Utf16
  import opened Wrappers
  import opened Records
  import opened JsonText

  // ----- sortDeep and canonicalJson -----

  function SortDeep(v: Json): Json
    decreases v, 1
  {
    match v
    case Arr(items) => Arr(SortItems(items))
    case Obj(ps) => Obj(Arrange(SortValues(ps)))
    case _ => v
  }

  function SortItems(items: seq<Json>): (r: seq<Json>)
    ensures |r| == |items| && forall i :: 0 <= i < |r| ==> r[i] == SortDeep(items[i])
    decreases items, 0
  {
    if |items| == 0 then [] else [SortDeep(items[0])] + SortItems(items[1..])
  }

  function SortValue(p: (Text, Json)): (Text, Json)
    decreases p, 0
  {
    match p case (key, v) => (key, SortDeep(v))
  }

  function SortValues(ps: Props<Json>): (r: Props<Json>)
    ensures |r| == |ps| && forall i :: 0 <= i < |r| ==> r[i] == SortValue(ps[i])
    decreases ps, 0
  {
    if |ps| == 0 then [] else [SortValue(ps[0])] + SortValues(ps[1..])
  }

  /** The keys that assignment turns into properties. */
  function Assignable(ks: seq<Text>): (r: seq<Text>)
    ensures forall k :: k in r <==> k in ks && k != PROTO
  {
    if |ks| == 0 then []
    else if ks[0] == PROTO then Assignable(ks[1..])
    else [ks[0]] + Assignable(ks[1..])
  }

  function Pick<V>(ps: Props<V>, ks: seq<Text>): (r: Props<V>)
    requires forall k :: k in ks ==> k in Keys(ps)
    ensures |r| == |ks| && forall i :: 0 <= i < |r| ==> r[i].0 == ks[i] && Get(ps, ks[i]) == Some(r[i].1)
  {
    KeysPresent(ps);
    seq(|ks|, i requires 0 <= i < |ks| => (ks[i], Get(ps, ks[i]).value))
  }

  lemma KeysPresent<V>(ps: Props<V>)
    ensures forall k :: k in Keys(ps) <==> Get(ps, k).Some?
  {
    forall k ensures k in Keys(ps) <==> Get(ps, k).Some? { GetSome(ps, k); }
  }

  /** The order in which sortDeep assigns the properties of one object. */
  function AssignOrder<V>(ps: Props<V>): (ks: seq<Text>)
    ensures forall k :: k in ks <==> k in Keys(ps) && k != PROTO
  {
    Assignable(Sort(Keys(ps)))
  }

  lemma AssignOrderAscending<V>(ps: Props<V>)
    requires Distinct(Keys(ps))
    ensures Ascending(AssignOrder(ps))
  {
    SortAscending(Keys(ps));
    AssignableAscending(Sort(Keys(ps)));
  }

  lemma {:induction false} AssignableAscending(ks: seq<Text>)
    requires Ascending(ks)
    ensures Ascending(Assignable(ks))
  {
    if |ks| > 0 {
      AssignableAscending(ks[1..]);
      forall k | k in Assignable(ks[1..]) ensures Less(ks[0], k) {
        var j :| 0 <= j < |ks[1..]| && ks[1..][j] == k;
        assert ks[j + 1] == k;
      }
    }
  }

  /** A fresh object whose properties are assigned in sorted order. */
  function Arrange<V>(ps: Props<V>): Props<V> {
    PutAll([], Pick(ps, AssignOrder(ps)))
  }

  function CanonicalJson(v: Json): Text { Stringify(SortDeep(v)) }

  /** sortDeep as the source writes it. */
  method SortDeepLoop(v: Json) returns (r: Json)
    ensures r == SortDeep(v)
    decreases v, 1
  {
    match v
    case Arr(items) =>
      var out: seq<Json> := [];
      for i := 0 to |items|
        invariant |out| == i && forall k :: 0 <= k < i ==> out[k] == SortDeep(items[k])
      {
        hide SortDeep, SortItems;
        var item := SortDeepLoop(items[i]);
        out := out + [item];
      }
      assert out == SortItems(items);
      r := Arr(out);
    case Obj(ps) =>
      var out := AssignSorted(ps);
      r := Obj(out);
    case _ => r := v;
  }

  /** The assignment loop over the sorted keys of one object. */
  method AssignSorted(ps: Props<Json>) returns (out: Props<Json>)
    ensures out == Arrange(SortValues(ps))
    decreases ps, 2
  {
    hide Put, Get, SortValues, Assignable, Sort, IsIndex, Precedes;
    ghost var values := SortValues(ps);
    SameKeys(ps, values);
    NothingPicked(values);
    out := [];
    var keys := Sort(Keys(ps));
    for i := 0 to |keys|
      invariant out == PutAll([], Pick(values, Assignable(keys[..i])))
    {
      var value := SortDeepProperty(ps, keys[i]);
      AssignableNext(keys, i);
      if keys[i] != PROTO {
        ghost var before := Pick(values, Assignable(keys[..i]));
        PickNext(values, Assignable(keys[..i]), keys[i], value);
        PutAllLast([], before, (keys[i], value));
        out := Put(out, keys[i], value);
      }
    }
    assert keys[..|keys|] == keys;
  }

  /** The sorted value of the property with the given key. */
  method SortDeepProperty(ps: Props<Json>, key: Text) returns (r: Json)
    requires key in Keys(ps)
    ensures Get(SortValues(ps), key) == Some(r)
    decreases ps, 1
  {
    if ps[0].0 == key {
      r := SortDeepMember(ps[0]);
    } else {
      assert Keys(ps)[1..] == Keys(ps[1..]);
      r := SortDeepProperty(ps[1..], key);
    }
  }

  method SortDeepMember(p: (Text, Json)) returns (r: Json)
    ensures SortValue(p) == (p.0, r)
    decreases p, 0
  {
    match p case (key, v) => r := SortDeepLoop(v);
  }

  lemma NothingPicked(values: Props<Json>)
    ensures Assignable([]) == [] && PutAll([], Pick(values, [])) == []
  {
  }

  lemma PickNext<V>(ps: Props<V>, ks: seq<Text>, key: Text, value: V)
    requires (forall k :: k in ks ==> k in Keys(ps)) && key in Keys(ps) && Get(ps, key) == Some(value)
    ensures Pick(ps, ks + [key]) == Pick(ps, ks) + [(key, value)]
  {
    hide Get;
  }

  lemma SameKeys(ps: Props<Json>, values: Props<Json>)
    requires values == SortValues(ps)
    ensures Keys(values) == Keys(ps)
  {
  }

  lemma {:induction false} AssignableNext(ks: seq<Text>, i: nat)
    requires i < |ks|
    ensures Assignable(ks[..i + 1]) == if ks[i] == PROTO then Assignable(ks[..i]) else Assignable(ks[..i]) + [ks[i]]
  {
    if i == 0 {
      assert ks[..1] == [ks[0]];
    } else {
      AssignableNext(ks[1..], i - 1);
      assert ks[..i][1..] == ks[1..][..i - 1] && ks[..i + 1][1..] == ks[1..][..i];
    }
  }

  lemma {:induction false} PutAllLast<V>(ps: Props<V>, entries: Props<V>, last: (Text, V))
    ensures PutAll(ps, entries + [last]) == Put(PutAll(ps, entries), last.0, last.1)
    decreases |entries|
  {
    if |entries| > 0 {
      PutAllLast(Put(ps, entries[0].0, entries[0].1), entries[1..], last);
      assert (entries + [last])[1..] == entries[1..] + [last];
    }
  }

  // ----- Agreement of values -----

  /** The properties with keys outside ignored form the same key-to-value map, at every depth. */
  ghost predicate Agree(a: Json, b: Json, ignored: set<Text>) {
    match a
    case Arr(items) =>
      b.Arr? && |items| == |b.items| && forall i :: 0 <= i < |items| ==> Agree(items[i], b.items[i], ignored)
    case Obj(ps) =>
      b.Obj? &&
      (forall i :: 0 <= i < |ps| && ps[i].0 !in ignored ==>
        Get(b.props, ps[i].0).Some? && Agree(ps[i].1, Get(b.props, ps[i].0).value, ignored)) &&
      (forall i :: 0 <= i < |b.props| && b.props[i].0 !in ignored ==> Get(ps, b.props[i].0).Some?)
    case _ => a == b
  }

  /** Equality of plain JSON values, with objects read as key-to-value maps. */
  ghost predicate Same(a: Json, b: Json) { Agree(a, b, {}) }

  lemma ArrangeValid<V>(ps: Props<V>)
    ensures Ordered(Arrange(ps))
  {
    PutAllOrdered([], Pick(ps, AssignOrder(ps)));
  }

  lemma ArrangeGet<V>(ps: Props<V>, key: Text)
    requires Distinct(Keys(ps))
    ensures Get(Arrange(ps), key) == if key == PROTO then None else Get(ps, key)
  {
    var ks := AssignOrder(ps);
    var picked := Pick(ps, ks);
    AssignOrderAscending(ps);
    assert Keys(picked) == ks;
    forall i, j | 0 <= i < j < |ks| ensures ks[i] != ks[j] { LessTotal(ks[i], ks[j]); }
    PutAllGet([], picked, key);
    KeysPresent(ps);
    KeysPresent(picked);
    if key in ks {
      var i :| 0 <= i < |ks| && ks[i] == key;
      GetAt(picked, i);
    }
  }

  /** sortDeep keeps the visiting-order invariant. */
  lemma {:induction false} SortDeepValid(v: Json)
    requires Valid(v)
    ensures Valid(SortDeep(v))
  {
    match v
    case Arr(items) =>
      forall i | 0 <= i < |items| ensures Valid(SortDeep(items[i])) { SortDeepValid(items[i]); }
    case Obj(ps) =>
      var values := SortValues(ps);
      ArrangeValid(values);
      SameKeys(ps, values);
      var sorted := Arrange(values);
      forall i | 0 <= i < |sorted| ensures Valid(sorted[i].1) {
        ArrangeGet(values, sorted[i].0);
        GetAt(sorted, i);
        GetSome(values, sorted[i].0);
        var j :| 0 <= j < |values| && values[j] == (sorted[i].0, sorted[i].1);
        SortDeepValid(ps[j].1);
      }
    case _ =>
  }

  /** Values that agree outside __proto__ are sorted to one and the same value. */
  lemma {:induction false} SortDeepCanonical(a: Json, b: Json)
    requires Valid(a) && Valid(b) && Agree(a, b, {PROTO})
    ensures SortDeep(a) == SortDeep(b)
  {
    match a
    case Arr(items) =>
      forall i | 0 <= i < |items| ensures SortDeep(items[i]) == SortDeep(b.items[i]) {
        SortDeepCanonical(items[i], b.items[i]);
      }
      assert SortItems(items) == SortItems(b.items);
    case Obj(ps) =>
      var qs := b.props;
      var us, vs := SortValues(ps), SortValues(qs);
      SameKeys(ps, us);
      SameKeys(qs, vs);
      forall key | key != PROTO ensures Get(us, key) == Get(vs, key) {
        AgreeSortedProperty(ps, qs, key);
      }
      SameArrangement(us, vs);
    case _ =>
  }

  lemma {:induction false} SortedGet(ps: Props<Json>, key: Text)
    ensures Get(SortValues(ps), key) ==
            match Get(ps, key) case None => None case Some(v) => Some(SortDeep(v))
  {
    if |ps| > 0 { SortedGet(ps[1..], key); }
  }

  lemma {:induction false} AgreeSortedProperty(ps: Props<Json>, qs: Props<Json>, key: Text)
    requires Valid(Obj(ps)) && Valid(Obj(qs)) && Agree(Obj(ps), Obj(qs), {PROTO}) && key != PROTO
    ensures Get(SortValues(ps), key) == Get(SortValues(qs), key)
    decreases ps, 0
  {
    SortedGet(ps, key);
    SortedGet(qs, key);
    GetSome(ps, key);
    GetSome(qs, key);
    if Get(ps, key).Some? {
      var i :| 0 <= i < |ps| && ps[i] == (key, Get(ps, key).value);
      GetSome(qs, key);
      SortDeepCanonical(ps[i].1, Get(qs, key).value);
    }
  }

  lemma SameArrangement<V>(us: Props<V>, vs: Props<V>)
    requires Distinct(Keys(us)) && Distinct(Keys(vs))
    requires forall key :: key != PROTO ==> Get(us, key) == Get(vs, key)
    ensures Arrange(us) == Arrange(vs)
  {
    AssignOrderAscending(us);
    AssignOrderAscending(vs);
    KeysPresent(us);
    KeysPresent(vs);
    AscendingUnique(AssignOrder(us), AssignOrder(vs));
    assert Pick(us, AssignOrder(us)) == Pick(vs, AssignOrder(vs));
  }

  /** Values that are sorted to the same value agree outside __proto__. */
  lemma {:induction false} SortDeepInjective(a: Json, b: Json)
    requires Valid(a) && Valid(b) && SortDeep(a) == SortDeep(b)
    ensures Agree(a, b, {PROTO})
  {
    match a
    case Arr(items) =>
      forall i | 0 <= i < |items| ensures Agree(items[i], b.items[i], {PROTO}) {
        assert SortItems(items)[i] == SortItems(b.items)[i];
        SortDeepInjective(items[i], b.items[i]);
      }
    case Obj(ps) =>
      var qs := b.props;
      SameKeys(ps, SortValues(ps));
      SameKeys(qs, SortValues(qs));
      forall key | key != PROTO
        ensures Get(SortValues(ps), key) == Get(SortValues(qs), key)
      {
        ArrangeGet(SortValues(ps), key);
        ArrangeGet(SortValues(qs), key);
      }
      forall i | 0 <= i < |ps| && ps[i].0 != PROTO
        ensures Get(qs, ps[i].0).Some? && Agree(ps[i].1, Get(qs, ps[i].0).value, {PROTO})
      {
        SortedGet(ps, ps[i].0);
        SortedGet(qs, ps[i].0);
        GetAt(ps, i);
        GetSome(qs, ps[i].0);
        SortDeepInjective(ps[i].1, Get(qs, ps[i].0).value);
      }
      forall i | 0 <= i < |qs| && qs[i].0 != PROTO ensures Get(ps, qs[i].0).Some? {
        SortedGet(ps, qs[i].0);
        SortedGet(qs, qs[i].0);
        GetAt(qs, i);
      }
    case _ =>
  }

  /** The canonical text determines the value, and the value determines the canonical text: two
      values have the same text exactly when they agree outside __proto__, at every depth. */
  lemma CanonicalExactly(a: Json, b: Json)
    requires Valid(a) && Valid(b)
    ensures CanonicalJson(a) == CanonicalJson(b) <==> Agree(a, b, {PROTO})
  {
    if CanonicalJson(a) == CanonicalJson(b) {
      SortDeepValid(a);
      SortDeepValid(b);
      RoundTrip(SortDeep(a));
      RoundTrip(SortDeep(b));
      SortDeepInjective(a, b);
    }
    if Agree(a, b, {PROTO}) { SortDeepCanonical(a, b); }
  }

  // ----- Which text is the canonical one -----

  /** At every depth: no key is __proto__, and the keys that are no array indices ascend. */
  ghost predicate InOrder(v: Json) {
    match v
    case Arr(items) => forall i :: 0 <= i < |items| ==> InOrder(items[i])
    case Obj(ps) =>
      (forall i, j :: 0 <= i < j < |ps| && !IsIndex(ps[i].0) && !IsIndex(ps[j].0) ==> Before(ps[i].0, ps[j].0)) &&
      forall i :: 0 <= i < |ps| ==> ps[i].0 != PROTO && InOrder(ps[i].1)
    case _ => true
  }

  /** The order in which a canonical object visits its keys. */
  predicate Visited(a: Text, b: Text) {
    if IsIndex(a) then IsIndex(b) ==> IndexLess(a, b) else !IsIndex(b) && Less(a, b)
  }

  ghost predicate AllVisited(ks: seq<Text>) {
    forall i, j :: 0 <= i < j < |ks| ==> Visited(ks[i], ks[j])
  }

  lemma VisitedTotal(a: Text, b: Text)
    ensures Visited(a, b) || a == b || Visited(b, a)
    ensures !(Visited(a, b) && Visited(b, a)) && !Visited(a, a)
  {
    LessTotal(a, b);
    LessTotal(a, a);
  }

  lemma {:induction false} VisitedUnique(a: seq<Text>, b: seq<Text>)
    requires AllVisited(a) && AllVisited(b) && forall k :: k in a <==> k in b
    ensures a == b
  {
    hide Visited;
    if |a| == 0 {
      FirstElement(b);
    } else {
      assert a[0] in b;
      assert b[0] in a;
      VisitedTotal(a[0], b[0]);
      forall k ensures k in a[1..] <==> k in b[1..] {
        VisitedTotal(k, k);
        assert k in a <==> k == a[0] || k in a[1..];
        assert k in b <==> k == b[0] || k in b[1..];
      }
      VisitedUnique(a[1..], b[1..]);
      assert a == [a[0]] + a[1..] && b == [b[0]] + b[1..];
    }
  }

  ghost predicate Climbing(ks: seq<Text>) {
    forall i, j :: 0 <= i < j < |ks| && !IsIndex(ks[i]) && !IsIndex(ks[j]) ==> Less(ks[i], ks[j])
  }

  lemma VisitedExactly(ks: seq<Text>)
    requires InVisitingOrder(ks) && Climbing(ks)
    ensures AllVisited(ks)
  {
    hide IsIndex, IndexLess;
    assert forall i, j :: 0 <= i < j < |ks| && IsIndex(ks[j]) ==> Precedes(ks[i], ks[j]);
  }

  lemma {:induction false} InsertKeyPlace(ks: seq<Text>, key: Text) returns (p: nat)
    requires key !in ks
    ensures p <= |ks| && InsertKey(ks, key) == ks[..p] + [key] + ks[p..]
    ensures !IsIndex(key) ==> p == |ks|
  {
    hide IsIndex;
    if |ks| == 0 || Precedes(key, ks[0]) {
      p := 0;
    } else {
      var q := InsertKeyPlace(ks[1..], key);
      p := q + 1;
      assert ks[..p] == [ks[0]] + ks[1..][..q] && ks[p..] == ks[1..][q..];
    }
  }

  lemma ClimbingInsert(ks: seq<Text>, key: Text)
    requires Climbing(ks) && key !in ks
    requires forall k :: k in ks ==> Less(k, key)
    ensures Climbing(InsertKey(ks, key))
    ensures forall k :: k in InsertKey(ks, key) <==> k in ks || k == key
  {
    hide IsIndex;
    var p := InsertKeyPlace(ks, key);
  }

  /** Keys assigned in ascending order end up climbing. */
  lemma {:induction false} VisitingClimbs(ks: seq<Text>)
    requires Ascending(ks)
    ensures Climbing(VisitingOrder(ks)) && forall k :: k in VisitingOrder(ks) <==> k in ks
  {
    hide InsertKey, Climbing;
    if |ks| > 0 {
      var front, last := ks[..|ks| - 1], ks[|ks| - 1];
      VisitingClimbs(front);
      forall k | k in VisitingOrder(front) ensures Less(k, last) {
        var i :| 0 <= i < |front| && front[i] == k;
        assert ks[i] == k;
      }
      LessTotal(last, last);
      ClimbingInsert(VisitingOrder(front), last);
      assert ks == front + [last];
    } else {
      NothingClimbs();
    }
  }

  lemma NothingClimbs()
    ensures Climbing([]) && VisitingOrder([]) == []
  {
  }

  lemma {:induction false} PutAllKeys<V>(entries: Props<V>)
    ensures Keys(PutAll([], entries)) == VisitingOrder(Keys(entries))
  {
    if |entries| > 0 {
      var front, last := entries[..|entries| - 1], entries[|entries| - 1];
      PutAllKeys(front);
      PutAllLast([], front, last);
      assert front + [last] == entries;
      assert Keys(entries)[..|entries| - 1] == Keys(front);
      PutKeyOrder(PutAll([], front), last.0, last.1);
    }
  }

  lemma ArrangeVisited<V>(ps: Props<V>)
    requires Distinct(Keys(ps))
    ensures AllVisited(Keys(Arrange(ps)))
    ensures forall k :: k in Keys(Arrange(ps)) <==> k in Keys(ps) && k != PROTO
  {
    hide Visited, Less, Pick, Get, PutAll, IsIndex, Precedes, VisitingOrder, AllVisited, InVisitingOrder;
    var ks := AssignOrder(ps);
    AssignOrderAscending(ps);
    PutAllKeys(Pick(ps, ks));
    assert Keys(Pick(ps, ks)) == ks;
    VisitingClimbs(ks);
    VisitingOrderOrder(ks);
    VisitedExactly(VisitingOrder(ks));
  }

  lemma VisitedInOrder(ps: Props<Json>)
    requires AllVisited(Keys(ps))
    requires forall i :: 0 <= i < |ps| ==> ps[i].0 != PROTO && InOrder(ps[i].1)
    ensures InOrder(Obj(ps))
  {
    hide IsIndex, Less, Before, PROTO;
    forall i, j | 0 <= i < j < |ps| && !IsIndex(ps[i].0) && !IsIndex(ps[j].0) ensures Before(ps[i].0, ps[j].0) {
      assert Visited(Keys(ps)[i], Keys(ps)[j]);
      LessExactly(ps[i].0, ps[j].0);
    }
  }

  lemma {:induction false} SortDeepInOrder(v: Json)
    requires Valid(v)
    ensures InOrder(SortDeep(v))
  {
    match v
    case Arr(items) =>
      forall i | 0 <= i < |items| ensures InOrder(SortDeep(items[i])) { SortDeepInOrder(items[i]); }
    case Obj(ps) =>
      var values := SortValues(ps);
      SameKeys(ps, values);
      ArrangeVisited(values);
      var sorted := Arrange(values);
      ArrangeValid(values);
      forall i | 0 <= i < |sorted| ensures sorted[i].0 != PROTO && InOrder(sorted[i].1) {
        assert Keys(sorted)[i] in Keys(sorted);
        ArrangeGet(values, sorted[i].0);
        GetAt(sorted, i);
        GetSome(values, sorted[i].0);
        var j :| 0 <= j < |values| && values[j] == (sorted[i].0, sorted[i].1);
        SortDeepInOrder(ps[j].1);
      }
      VisitedInOrder(sorted);
    case _ =>
  }

  lemma SameProps<V>(ps: Props<V>, qs: Props<V>)
    requires Distinct(Keys(ps)) && Keys(ps) == Keys(qs)
    requires forall key :: key in Keys(ps) ==> Get(ps, key) == Get(qs, key)
    ensures ps == qs
  {
    hide Get, Distinct;
    forall i | 0 <= i < |ps| ensures ps[i] == qs[i] {
      var key := Keys(ps)[i];
      assert key in Keys(ps) && key == ps[i].0 && key == Keys(qs)[i] == qs[i].0;
      GetAt(ps, i);
      GetAt(qs, i);
    }
  }

  /** Sorting leaves a value in order as it is. */
  lemma {:induction false} SortDeepSame(v: Json)
    requires Valid(v) && InOrder(v)
    ensures SortDeep(v) == v
  {
    match v
    case Arr(items) =>
      forall i | 0 <= i < |items| ensures SortDeep(items[i]) == items[i] { SortDeepSame(items[i]); }
      assert SortItems(items) == items;
    case Obj(ps) =>
      forall i | 0 <= i < |ps| ensures SortValue(ps[i]) == ps[i] { SortDeepSame(ps[i].1); }
      assert SortValues(ps) == ps;
      ArrangeSame(ps);
    case _ =>
  }

  lemma ArrangeSame(ps: Props<Json>)
    requires Ordered(ps) && InOrder(Obj(ps))
    ensures Arrange(ps) == ps
  {
    hide IsIndex, Less, Get, Arrange, Before, PROTO;
    OrderedExactly(ps);
    ArrangeVisited(ps);
    forall i, j | 0 <= i < j < |ps| && !IsIndex(Keys(ps)[i]) && !IsIndex(Keys(ps)[j])
      ensures Less(Keys(ps)[i], Keys(ps)[j])
    {
      LessExactly(ps[i].0, ps[j].0);
    }
    VisitedExactly(Keys(ps));
    VisitedUnique(Keys(Arrange(ps)), Keys(ps));
    forall key | key in Keys(ps) ensures Get(ps, key) == Get(Arrange(ps), key) { ArrangeGet(ps, key); }
    SameProps(ps, Arrange(ps));
  }

  /** The canonical text of a value is the text of the value that agrees with it outside __proto__
      and has at every depth its array indices first and then its other keys in ascending order. */
  lemma CanonicalTextExactly(v: Json, w: Json)
    requires Valid(v) && Valid(w)
    ensures CanonicalJson(v) == Stringify(w) <==> Agree(v, w, {PROTO}) && InOrder(w)
  {
    hide Stringify, Parse, SortDeep, Agree, InOrder, Valid;
    var u := SortDeep(v);
    SortDeepValid(v);
    SortDeepInOrder(v);
    SortDeepSame(u);
    SortDeepInjective(v, u);
    if CanonicalJson(v) == Stringify(w) {
      RoundTrip(u);
      RoundTrip(w);
    }
    if Agree(v, w, {PROTO}) && InOrder(w) {
      SortDeepCanonical(v, w);
      SortDeepSame(w);
    }
  }

  // ----- What __proto__ keys cost -----

  /** No object, at any depth, has a property called __proto__. */
  ghost predicate Plain(v: Json) {
    match v
    case Arr(items) => forall i :: 0 <= i < |items| ==> Plain(items[i])
    case Obj(ps) => forall i :: 0 <= i < |ps| ==> ps[i].0 != PROTO && Plain(ps[i].1)
    case _ => true
  }

  /** Keys are sorted by their first difference; and the keys of a sorted object come in this order
      exactly if that is an order in which objects visit keys: every array index must come after array
      indices below it only. */
  lemma KeyOrderExactly<V>(ps: Props<V>)
    requires Distinct(Keys(ps))
    ensures AllBefore(AssignOrder(ps))
    ensures Keys(Arrange(ps)) == AssignOrder(ps) <==> InVisitingOrder(AssignOrder(ps))
  {
    SortedBefore(ps);
    hide AllBefore, Put, InVisitingOrder, AssignOrder, Ordered, Less;
    var ks := AssignOrder(ps);
    var entries := Pick(ps, ks);
    assert Keys(entries) == ks;
    ArrangeValid(ps);
    OrderedExactly(Arrange(ps));
    AssignOrderAscending(ps);
    AscendingDistinct(ks);
    OrderedExactly(entries);
    assert [] + entries == entries;
    if InVisitingOrder(ks) { PutAllSame([], entries); }
  }

  /** Each key comes before the later ones by their first difference. */
  ghost predicate AllBefore(ks: seq<Text>) {
    forall i, j :: 0 <= i < j < |ks| ==> Before(ks[i], ks[j])
  }

  lemma SortedBefore<V>(ps: Props<V>)
    requires Distinct(Keys(ps))
    ensures AllBefore(AssignOrder(ps))
  {
    hide Before, Less;
    AssignOrderAscending(ps);
    var ks := AssignOrder(ps);
    forall i, j | 0 <= i < j < |ks| ensures Before(ks[i], ks[j]) { LessExactly(ks[i], ks[j]); }
  }

  lemma AscendingDistinct(ks: seq<Text>)
    requires Ascending(ks)
    ensures Distinct(ks)
  {
    forall i, j | 0 <= i < j < |ks| ensures ks[i] != ks[j] { LessTotal(ks[i], ks[j]); }
  }

  /** The keys "-" and "1" sort in this order, but the sorted object visits the array index first. */
  lemma KeyOrderExample()
    ensures var ps := [(Ascii("-"), Json.Null), (Ascii("1"), Json.Null)];
            AssignOrder(ps) == [Ascii("-"), Ascii("1")] && Keys(Arrange(ps)) != AssignOrder(ps)
  {
    var minus, one := Ascii("-"), Ascii("1");
    var ps := [(minus, Json.Null), (one, Json.Null)];
    assert minus == [45] && one == [49] && |PROTO| == 9;
    assert Keys(ps) == [minus, one];
    var ks := AssignOrder(ps);
    AssignOrderAscending(ps);
    assert forall k :: k in ks <==> k in [minus, one];
    assert Ascending([minus, one]);
    AscendingUnique(ks, [minus, one]);
    KeyOrderExactly(ps);
    assert IsIndex(ks[1]) && !Precedes(ks[0], ks[1]);
  }

  /** On plain values canonicalJson is canonical and injective. */
  lemma PlainExactly(a: Json, b: Json)
    requires Valid(a) && Valid(b) && Plain(a) && Plain(b)
    ensures CanonicalJson(a) == CanonicalJson(b) <==> Same(a, b)
  {
    CanonicalExactly(a, b);
    PlainAgree(a, b);
  }

  lemma {:induction false} PlainAgree(a: Json, b: Json)
    requires Plain(a) && Plain(b)
    ensures Agree(a, b, {PROTO}) <==> Same(a, b)
  {
    match a
    case Arr(items) =>
      if b.Arr? && |items| == |b.items| {
        forall i | 0 <= i < |items| ensures Agree(items[i], b.items[i], {PROTO}) <==> Same(items[i], b.items[i]) {
          PlainAgree(items[i], b.items[i]);
        }
      }
    case Obj(ps) =>
      if b.Obj? {
        forall i | 0 <= i < |ps| && Get(b.props, ps[i].0).Some?
          ensures var v := Get(b.props, ps[i].0).value; Agree(ps[i].1, v, {PROTO}) <==> Same(ps[i].1, v)
        {
          GetSome(b.props, ps[i].0);
          PlainAgree(ps[i].1, Get(b.props, ps[i].0).value);
        }
      }
    case _ =>
  }

  /** The value without its __proto__ properties. */
  function Strip(v: Json): Json
    decreases v, 1
  {
    match v
    case Arr(items) => Arr(StripItems(items))
    case Obj(ps) => Obj(StripProps(ps))
    case _ => v
  }

  function StripItems(items: seq<Json>): (r: seq<Json>)
    ensures |r| == |items| && forall i :: 0 <= i < |r| ==> r[i] == Strip(items[i])
    decreases items, 0
  {
    if |items| == 0 then [] else [Strip(items[0])] + StripItems(items[1..])
  }

  function StripProp(p: (Text, Json)): (Text, Json)
    decreases p, 0
  {
    match p case (key, v) => (key, Strip(v))
  }

  function StripProps(ps: Props<Json>): (r: Props<Json>)
    ensures forall p :: p in r ==> p.0 != PROTO && exists q :: q in ps && p == StripProp(q)
    decreases ps, 0
  {
    if |ps| == 0 then []
    else
      assert forall q :: q in ps[1..] ==> q in ps;
      if ps[0].0 == PROTO then StripProps(ps[1..])
      else
        assert ps[0] in ps && StripProp(ps[0]).0 != PROTO;
        [StripProp(ps[0])] + StripProps(ps[1..])
  }

  lemma {:induction false} StripOrdered(ps: Props<Json>)
    requires Ordered(ps)
    ensures Ordered(StripProps(ps))
  {
    if |ps| > 0 {
      StripOrdered(ps[1..]);
      var rest := StripProps(ps[1..]);
      forall j | 0 <= j < |rest|
        ensures ps[0].0 != rest[j].0 && (IsIndex(rest[j].0) ==> Precedes(ps[0].0, rest[j].0))
      {
        assert rest[j] in rest;
        var q :| q in ps[1..] && rest[j] == StripProp(q);
        var k :| 0 <= k < |ps[1..]| && ps[1..][k] == q;
        assert ps[k + 1] == q;
      }
    }
  }

  lemma {:induction false} StripGet(ps: Props<Json>, key: Text)
    ensures Get(StripProps(ps), key) ==
            if key == PROTO then None
            else match Get(ps, key) case None => None case Some(v) => Some(Strip(v))
  {
    if |ps| > 0 { StripGet(ps[1..], key); }
  }

  lemma {:induction false} StripValid(v: Json)
    requires Valid(v)
    ensures Valid(Strip(v))
  {
    match v
    case Arr(items) =>
      forall i | 0 <= i < |items| ensures Valid(Strip(items[i])) { StripValid(items[i]); }
    case Obj(ps) =>
      StripOrdered(ps);
      var stripped := StripProps(ps);
      forall i | 0 <= i < |stripped| ensures Valid(stripped[i].1) {
        assert stripped[i] in stripped;
        var q :| q in ps && stripped[i] == StripProp(q);
        var k :| 0 <= k < |ps| && ps[k] == q;
        StripValid(ps[k].1);
      }
    case _ =>
  }

  lemma {:induction false} StripAgrees(v: Json)
    requires Valid(v)
    ensures Agree(v, Strip(v), {PROTO})
    ensures Same(v, Strip(v)) <==> Plain(v)
  {
    match v
    case Arr(items) =>
      forall i | 0 <= i < |items|
        ensures Agree(items[i], Strip(items[i]), {PROTO}) && (Same(items[i], Strip(items[i])) <==> Plain(items[i]))
      {
        StripAgrees(items[i]);
      }
    case Obj(ps) =>
      var stripped := StripProps(ps);
      forall i | 0 <= i < |ps|
        ensures Get(stripped, ps[i].0) == if ps[i].0 == PROTO then None else Some(Strip(ps[i].1))
        ensures Agree(ps[i].1, Strip(ps[i].1), {PROTO}) && (Same(ps[i].1, Strip(ps[i].1)) <==> Plain(ps[i].1))
      {
        StripGet(ps, ps[i].0);
        GetAt(ps, i);
        StripAgrees(ps[i].1);
      }
      forall i | 0 <= i < |stripped| ensures Get(ps, stripped[i].0).Some? && stripped[i].0 != PROTO {
        assert stripped[i] in stripped;
        StripGet(ps, stripped[i].0);
        GetSome(stripped, stripped[i].0);
      }
    case _ =>
  }

  /** The canonical text tells a value from the same value without its __proto__ properties
      only when there are none: they are not covered by the hash and the signature. */
  lemma ProtoUncovered(v: Json)
    requires Valid(v)
    ensures Valid(Strip(v)) && CanonicalJson(Strip(v)) == CanonicalJson(v)
    ensures Same(v, Strip(v)) <==> Plain(v)
  {
    StripValid(v);
    StripAgrees(v);
    CanonicalExactly(v, Strip(v));
  }

  lemma ProtoExample()
    ensures var v := Obj([(PROTO, Obj([]))]);
            Valid(v) && CanonicalJson(v) == CanonicalJson(Obj([])) && !Same(v, Obj([]))
  {
    var v := Obj([(PROTO, Obj([]))]);
    ProtoUncovered(v);
    assert Strip(v) == Obj([]);
  }
}
