/** The texts that are hashed and signed, and the texts that are written to the journal and its head
    file, property by property. */
module SignedTexts {
  import opened Utf16
  import opened Wrappers
  import opened Records
  import opened JsonText
  import opened Canonical
  import opened Events

  /** The properties of the hashed text, in their order. */
  const HASHED_NAMES: seq<Text> := [
    Ascii("actor"), Ascii("approval_binding_type"), Ascii("correlation_id"), Ascii("gsb_receipt_tip_hash"),
    Ascii("intendant_identity_uri"), Ascii("kind"), Ascii("on_behalf_of"), Ascii("payload"), Ascii("prevHash"),
    Ascii("seq"), Ascii("signing_key_id"), Ascii("tenant_id"), Ascii("ts"), Ascii("v")]

  function HashedValues(e: Event): (r: seq<Json>)
    ensures |r| == 14
  {
    [Str(ActorText(e.actor)), Nullable(e.approvalBindingType), Nullable(e.correlationId),
     Nullable(e.gsbReceiptTipHash), Nullable(e.intendantIdentityUri), Str(e.kind), Nullable(e.onBehalfOf),
     SortDeep(Obj(e.payload)), Nullable(e.prevHash), Num(e.seqNo), Nullable(e.signingKeyId),
     Nullable(e.tenantId), Str(e.ts), Num(2)]
  }

  /** The place among BODY_NAMES of each of these properties. */
  const PLACES: seq<nat> := [5, 9, 12, 13, 10, 4, 11, 6, 3, 1, 8, 7, 2, 0]

  lemma HashedPlaces()
    ensures |HASHED_NAMES| == |PLACES| == |BODY_NAMES| == 14
    ensures forall i :: 0 <= i < 14 ==> PLACES[i] < 14 && HASHED_NAMES[i] == BODY_NAMES[PLACES[i]]
  {
    hide Ascii;
  }

  /** The first two units of the names tell that they ascend. */
  const HEADS: seq<(int, int)> := [
    (97, 99), (97, 112), (99, 111), (103, 115), (105, 110), (107, 105), (111, 110), (112, 97), (112, 114),
    (115, 101), (115, 105), (116, 101), (116, 115), (118, -1)]

  predicate HasHead(t: Text, head: (int, int)) {
    |t| > 0 && t[0] == head.0 && (if |t| > 1 then t[1] == head.1 else head.1 == -1)
  }

  lemma HashedHeads()
    ensures |HASHED_NAMES| == |HEADS| == 14
    ensures forall i :: 0 <= i < 14 ==> HasHead(HASHED_NAMES[i], HEADS[i])
  {
  }

  lemma HeadsAscend()
    ensures forall i, j :: 0 <= i < j < |HEADS| ==>
              HEADS[i].0 < HEADS[j].0 || (HEADS[i].0 == HEADS[j].0 && -1 < HEADS[i].1 < HEADS[j].1)
  {
  }

  lemma HeadBefore(a: Text, b: Text, x: (int, int), y: (int, int))
    requires HasHead(a, x) && HasHead(b, y)
    requires x.0 < y.0 || (x.0 == y.0 && -1 < x.1 < y.1)
    ensures Before(a, b)
  {
    if x.0 < y.0 {
      assert a[..0] == b[..0];
    } else {
      assert a[..1] == [a[0]] && b[..1] == [b[0]];
    }
  }

  lemma HashedBefore(i: nat, j: nat)
    requires i < j < 14
    ensures |HASHED_NAMES| == 14 && Before(HASHED_NAMES[i], HASHED_NAMES[j])
  {
    hide HASHED_NAMES, Before, HasHead;
    HashedHeads();
    HeadsAscend();
    HeadBefore(HASHED_NAMES[i], HASHED_NAMES[j], HEADS[i], HEADS[j]);
  }

  function HashedProps(e: Event): (ps: Props<Json>)
    ensures |ps| == 14
  {
    HashedPlaces();
    Zip(HASHED_NAMES, HashedValues(e))
  }

  lemma SortedAgrees(v: Json)
    requires Valid(v)
    ensures Agree(v, SortDeep(v), {PROTO}) && Valid(SortDeep(v)) && InOrder(SortDeep(v))
  {
    hide SortDeep, Agree, Valid, InOrder;
    SortDeepValid(v);
    SortDeepInOrder(v);
    SortDeepSame(SortDeep(v));
    SortDeepInjective(v, SortDeep(v));
  }

  /** Value by value: the hashed object has what the event has. */
  lemma ValuesAgree(e: Event, j: nat)
    requires Valid(Obj(e.payload)) && j < 14
    ensures |PLACES| == 14 && PLACES[j] < 14
    ensures Agree(BodyValues(e)[PLACES[j]], HashedValues(e)[j], {PROTO})
    ensures Valid(HashedValues(e)[j]) && InOrder(HashedValues(e)[j])
  {
    SortedAgrees(Obj(e.payload));
    hide SortDeep, PROTO, ActorText;
    if j == 7 {
      assert BodyValues(e)[6] == Obj(e.payload);
    } else {
      assert BodyValues(e)[PLACES[j]] == HashedValues(e)[j] && !HashedValues(e)[j].Obj? && !HashedValues(e)[j].Arr?;
    }
  }

  lemma PlaceOf(i: nat) returns (j: nat)
    requires i < 14
    ensures j < 14 && |PLACES| == 14 && PLACES[j] == i
  {
    j := [13, 9, 12, 8, 5, 0, 7, 11, 10, 1, 4, 6, 2, 3][i];
  }

  lemma HashedNames()
    ensures |HASHED_NAMES| == 14 && Distinct(HASHED_NAMES) && PROTO !in HASHED_NAMES
    ensures forall i :: 0 <= i < 14 ==> !IsIndex(HASHED_NAMES[i])
    ensures forall i :: 0 <= i < 14 ==> HASHED_NAMES[i] != PROTO
  {
    HashedPlaces();
    BodyNames();
    hide HASHED_NAMES, BODY_NAMES, PROTO, IsIndex, Before;
    forall i, j | 0 <= i < j < 14 ensures HASHED_NAMES[i] != HASHED_NAMES[j] {
      HashedBefore(i, j);
      NotBeforeItself(HASHED_NAMES[i]);
    }
    forall i | 0 <= i < 14 ensures HASHED_NAMES[i] != PROTO { assert BODY_NAMES[PLACES[i]] in BODY_NAMES; }
  }

  lemma NotBeforeItself(t: Text)
    ensures !Before(t, t)
  {
    LessExactly(t, t);
    LessTotal(t, t);
  }

  lemma HashedInOrder(e: Event)
    requires Valid(Obj(e.payload))
    ensures Valid(Obj(HashedProps(e))) && InOrder(Obj(HashedProps(e)))
  {
    hide HASHED_NAMES, HashedValues, IsIndex, Before, PROTO;
    HashedNames();
    ZipOrdered(HASHED_NAMES, HashedValues(e));
    var ps := HashedProps(e);
    forall i | 0 <= i < 14 ensures Valid(ps[i].1) && InOrder(ps[i].1) && ps[i].0 != PROTO { ValuesAgree(e, i); }
    forall i, j | 0 <= i < j < 14 ensures Before(ps[i].0, ps[j].0) { HashedBefore(i, j); }
  }

  lemma HashedAgrees(e: Event)
    requires Valid(Obj(e.payload))
    ensures Agree(Body(e), Obj(HashedProps(e)), {PROTO})
  {
    hide HASHED_NAMES, BODY_NAMES, HashedValues, BodyValues, PROTO, PLACES;
    HashedNames();
    HashedPlaces();
    BodyNames();
    var ps, qs := Zip(BODY_NAMES, BodyValues(e)), HashedProps(e);
    ZipGet(HASHED_NAMES, HashedValues(e));
    ZipGet(BODY_NAMES, BodyValues(e));
    forall i | 0 <= i < 14
      ensures Get(qs, ps[i].0).Some? && Agree(ps[i].1, Get(qs, ps[i].0).value, {PROTO})
    {
      var j := PlaceOf(i);
      ValuesAgree(e, j);
      assert HASHED_NAMES[j] == BODY_NAMES[i];
    }
    forall j | 0 <= j < 14 ensures Get(ps, qs[j].0).Some? {
      assert qs[j].0 == HASHED_NAMES[j] == BODY_NAMES[PLACES[j]];
    }
  }

  /** What is hashed and signed for an event: the previous hash, if there is one, and then the object
      with these properties in this order, the payload sorted at every depth. */
  lemma BytesExactly(e: Event)
    requires Valid(Obj(e.payload))
    ensures Bytes(e) == (if e.prevHash.Some? then e.prevHash.value else []) + Stringify(Obj(HashedProps(e)))
  {
    hide HashedProps, Body, CanonicalJson, Stringify;
    BodyValid(e);
    HashedInOrder(e);
    HashedAgrees(e);
    CanonicalTextExactly(Body(e), Obj(HashedProps(e)));
  }

  lemma HeadUnits()
    ensures Ascii("hash") == [104, 97, 115, 104] && Ascii("seq") == [115, 101, 113]
    ensures Ascii("hash") != PROTO && Ascii("seq") != PROTO
    ensures !IsIndex(Ascii("hash")) && !IsIndex(Ascii("seq"))
  {
    assert |PROTO| == 9;
  }

  /** Two properties in either order. */
  lemma TwoAgree(first: Text, second: Text, n: int, t: Text)
    requires first != second && first != PROTO && second != PROTO
    ensures Agree(Obj([(second, Num(n)), (first, Str(t))]), Obj([(first, Str(t)), (second, Num(n))]), {PROTO})
  {
    hide PROTO;
    var ps, qs := [(second, Num(n)), (first, Str(t))], [(first, Str(t)), (second, Num(n))];
    assert ps[1..] == [(first, Str(t))] && qs[1..] == [(second, Num(n))];
    assert Get(qs, first) == Some(Str(t)) && Get(qs[1..], second) == Some(Num(n));
    assert Get(ps, second) == Some(Num(n)) && Get(ps[1..], first) == Some(Str(t));
    assert Agree(Num(n), Num(n), {PROTO}) && Agree(Str(t), Str(t), {PROTO});
  }

  lemma TwoInOrder(first: Text, second: Text, n: int, t: Text)
    requires first != PROTO && second != PROTO && !IsIndex(first) && !IsIndex(second) && Before(first, second)
    requires first != second
    ensures var v := Obj([(first, Str(t)), (second, Num(n))]); Valid(v) && InOrder(v)
  {
    hide PROTO, Before, IsIndex;
    assert Valid(Str(t)) && Valid(Num(n)) && InOrder(Str(t)) && InOrder(Num(n));
  }

  /** What is signed for a head: its hash and its number. */
  lemma HeadBytesExactly(n: int, hash: Text)
    ensures HeadBytes(Some(Num(n)), Some(Str(hash))) ==
            Stringify(Obj([(Ascii("hash"), Str(hash)), (Ascii("seq"), Num(n))]))
  {
    HeadObjectValid(Some(Num(n)), Some(Str(hash)));
    HeadNames(n, hash);
    HeadUnits();
    hide Ascii, PROTO, CanonicalJson, Stringify, HeadObject, Agree, InOrder, Valid, Get, IsIndex;
    var first, second := Ascii("hash"), Ascii("seq");
    assert first[..0] == second[..0] && first[0] != second[0];
    assert Before(first, second);
    TwoAgree(first, second, n, hash);
    TwoInOrder(first, second, n, hash);
    CanonicalTextExactly(HeadObject(Some(Num(n)), Some(Str(hash))), Obj([(first, Str(hash)), (second, Num(n))]));
  }

  /** What is written to the journal for an event, in the order of the schema. */
  lemma LineExactly(e: Event)
    ensures LineText(e) == Stringify(Obj(WrittenFirst(e) + WrittenColumns(e)))
  {
    hide Stringify;
    FieldNames();
    ColumnNames();
    hide NAMES, Ascii;
    var ps, qs := LineProps(e), WrittenFirst(e) + WrittenColumns(e);
    assert forall i :: 0 <= i < 16 ==> ps[i] == qs[i];
    assert ps == qs;
  }

  function WrittenFirst(e: Event): (ps: Props<Json>)
    ensures |ps| == 9
  {
    [(Ascii("v"), Num(2)), (Ascii("seq"), Num(e.seqNo)), (Ascii("ts"), Str(e.ts)),
     (Ascii("prevHash"), Nullable(e.prevHash)), (Ascii("hash"), Str(e.hash)), (Ascii("kind"), Str(e.kind)),
     (Ascii("actor"), Str(ActorText(e.actor))), (Ascii("payload"), Obj(e.payload)),
     (Ascii("signature"), Str(e.signature))]
  }

  function WrittenColumns(e: Event): (ps: Props<Json>)
    ensures |ps| == 7
  {
    [(Ascii("tenant_id"), Nullable(e.tenantId)), (Ascii("signing_key_id"), Nullable(e.signingKeyId)),
     (Ascii("approval_binding_type"), Nullable(e.approvalBindingType)),
     (Ascii("intendant_identity_uri"), Nullable(e.intendantIdentityUri)),
     (Ascii("on_behalf_of"), Nullable(e.onBehalfOf)), (Ascii("correlation_id"), Nullable(e.correlationId)),
     (Ascii("gsb_receipt_tip_hash"), Nullable(e.gsbReceiptTipHash))]
  }
}
