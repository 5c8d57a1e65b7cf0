/** Journal events: the schema, the text written for an event, and the bytes that its hash and
    signature cover. */
module Events {
  import opened Utf16
  import opened Wrappers
  import opened Records
  import opened JsonText
  import opened Canonical

  /** The primitives the journal is built on: SHA-256 in hex, Ed25519 signing and verification
      under one key pair, and the syntax of timestamps. */
  datatype Primitives = Primitives(
    hash: Text -> Text,
    sign: Text -> Text,
    verify: (Text, Text) -> bool,
    isTimestamp: Text -> bool)
  {
    /** Digests and signatures have their fixed forms. */
    ghost predicate WellFormed() {
      forall b :: IsHash(hash(b)) && IsSignature(sign(b))
    }

    /** The signatures that were made for released bytes verify. */
    ghost predicate Verifies(released: iset<Text>) {
      forall b :: b in released ==> verify(b, sign(b))
    }

    /** Only released bytes verify, whatever signature is presented. */
    ghost predicate Unforgeable(released: iset<Text>) {
      forall b, s :: verify(b, s) ==> b in released
    }

    /** Signatures as they are meant to be: released bytes verify and no others do. */
    ghost predicate Ideal(released: iset<Text>) { Verifies(released) && Unforgeable(released) }
  }

  datatype Actor = SessionOwner | ClaudeProcess

  datatype Event = Event(
    seqNo: int,
    ts: Text,
    prevHash: Option<Text>,
    kind: Text,
    actor: Actor,
    payload: Props<Json>,
    tenantId: Option<Text>,
    signingKeyId: Option<Text>,
    approvalBindingType: Option<Text>,
    intendantIdentityUri: Option<Text>,
    onBehalfOf: Option<Text>,
    correlationId: Option<Text>,
    gsbReceiptTipHash: Option<Text>,
    hash: Text,
    signature: Text)

  predicate IsLowerHex(u: CodeUnit) { IsDigit(u) || 97 <= u <= 102 }

  predicate IsHash(t: Text) { |t| == 64 && forall i :: 0 <= i < |t| ==> IsLowerHex(t[i]) }

  predicate IsBase64(u: CodeUnit) {
    IsDigit(u) || 65 <= u <= 90 || 97 <= u <= 122 || u == 43 || u == 47
  }

  predicate IsSignature(t: Text) {
    |t| == 88 && (forall i :: 0 <= i < 86 ==> IsBase64(t[i])) && t[86] == 61 && t[87] == 61
  }

  /** The checks of the schema, beyond the types. */
  predicate Accepts(c: Primitives, e: Event) {
    && e.seqNo > 0
    && c.isTimestamp(e.ts)
    && (e.prevHash.Some? ==> IsHash(e.prevHash.value))
    && IsHash(e.hash)
    && |e.kind| > 0
    && IsSignature(e.signature)
    && (e.correlationId.Some? ==> |e.correlationId.value| > 0)
    && (e.gsbReceiptTipHash.Some? ==> IsHash(e.gsbReceiptTipHash.value))
  }

  /** What the schema requires of an event; its payload is a JavaScript object. */
  ghost predicate SchemaOk(c: Primitives, e: Event) { Accepts(c, e) && Valid(Obj(e.payload)) }

  // ----- Events as JSON -----

  /** The fields that the hash and the signature cover. */
  const BODY_NAMES: seq<Text> := [
    Ascii("v"), Ascii("seq"), Ascii("ts"), Ascii("prevHash"), Ascii("kind"), Ascii("actor"),
    Ascii("payload"), Ascii("tenant_id"), Ascii("signing_key_id"), Ascii("approval_binding_type"),
    Ascii("intendant_identity_uri"), Ascii("on_behalf_of"), Ascii("correlation_id"),
    Ascii("gsb_receipt_tip_hash")]

  const NAMES: seq<Text> := BODY_NAMES + [Ascii("hash"), Ascii("signature")]

  function ActorText(a: Actor): Text {
    match a
    case SessionOwner => Ascii("session_owner")
    case ClaudeProcess => Ascii("claude_process")
  }

  function Nullable(t: Option<Text>): Json {
    match t
    case None => Null
    case Some(s) => Str(s)
  }

  function BodyValues(e: Event): (r: seq<Json>)
    ensures |r| == 14
  {
    [Num(2), Num(e.seqNo), Str(e.ts), Nullable(e.prevHash), Str(e.kind), Str(ActorText(e.actor)),
     Obj(e.payload), Nullable(e.tenantId), Nullable(e.signingKeyId), Nullable(e.approvalBindingType),
     Nullable(e.intendantIdentityUri), Nullable(e.onBehalfOf), Nullable(e.correlationId),
     Nullable(e.gsbReceiptTipHash)]
  }

  function Values(e: Event): (r: seq<Json>)
    ensures |r| == 16
  {
    BodyValues(e) + [Str(e.hash), Str(e.signature)]
  }

  function Zip(names: seq<Text>, values: seq<Json>): (ps: Props<Json>)
    requires |names| == |values|
    ensures |ps| == |names| && forall i :: 0 <= i < |ps| ==> ps[i] == (names[i], values[i])
  {
    seq(|names|, i requires 0 <= i < |names| => (names[i], values[i]))
  }

  /** The event without its hash and signature. */
  function Body(e: Event): Json { Obj(Zip(BODY_NAMES, BodyValues(e))) }

  /** The schema writes the hash after prevHash and the signature after the payload: the place among
      NAMES of the field at position j of a line. */
  function Place(j: nat): (i: nat)
    requires j < 16
    ensures i < 16
  {
    if j < 4 then j else if j == 4 then 14 else if j < 8 then j - 1 else if j == 8 then 15 else j - 2
  }

  function InLineOrder<T>(xs: seq<T>): (r: seq<T>)
    requires |xs| == 16
    ensures |r| == 16 && forall j :: 0 <= j < 16 ==> r[j] == xs[Place(j)]
  {
    seq(16, j requires 0 <= j < 16 => xs[Place(j)])
  }

  function ToJson(e: Event): Json { Obj(LineProps(e)) }

  function LineProps(e: Event): Props<Json> { Zip(InLineOrder(NAMES), InLineOrder(Values(e))) }

  // ----- Names are distinct and no array indices -----

  function Tag(t: Text): int
    requires |t| > 0
  {
    |t| * 0x1_0000 + t[0]
  }

  const TAGS: seq<int> := [
    0x1_0076, 0x3_0073, 0x2_0074, 0x8_0070, 0x4_006B, 0x5_0061, 0x7_0070, 0x9_0074,
    0xE_0073, 0x15_0061, 0x16_0069, 0xC_006F, 0xE_0063, 0x14_0067, 0x4_0068, 0x9_0073]

  lemma NameTags()
    ensures |NAMES| == |TAGS| == 16
    ensures forall i :: 0 <= i < |TAGS| ==> |NAMES[i]| > 0 && Tag(NAMES[i]) == TAGS[i]
    ensures Tag(PROTO) == 0x9_005F
  {
  }

  lemma TagsDistinct()
    ensures Distinct(TAGS) && 0x9_005F !in TAGS
    ensures forall i :: 0 <= i < |TAGS| ==> TAGS[i] % 0x1_0000 >= 0x61
  {
  }

  /** The names are distinct, none is an array index and none is __proto__. */
  lemma NamesDistinct()
    ensures forall i :: 0 <= i < |NAMES| ==> |NAMES[i]| > 0 && !IsIndex(NAMES[i])
    ensures |NAMES| == 16 && Distinct(NAMES) && PROTO !in NAMES
  {
    hide NAMES, TAGS;
    NameTags();
    TagsDistinct();
    forall i | 0 <= i < |NAMES| ensures !IsIndex(NAMES[i]) && NAMES[i] != PROTO {
      assert Tag(NAMES[i]) % 0x1_0000 == NAMES[i][0];
    }
  }

  lemma {:induction false} ZipGet(names: seq<Text>, values: seq<Json>)
    requires Distinct(names) && |names| == |values|
    ensures forall i :: 0 <= i < |names| ==> Get(Zip(names, values), names[i]) == Some(values[i])
  {
    var ps := Zip(names, values);
    assert Keys(ps) == names;
    forall i | 0 <= i < |names| ensures Get(ps, names[i]) == Some(values[i]) { GetAt(ps, i); }
  }

  lemma ZipOrdered(names: seq<Text>, values: seq<Json>)
    requires Distinct(names) && |names| == |values| && forall i :: 0 <= i < |names| ==> !IsIndex(names[i])
    ensures Ordered(Zip(names, values))
  {
  }

  lemma BodyNames()
    ensures |BODY_NAMES| == 14 && Distinct(BODY_NAMES) && PROTO !in BODY_NAMES
    ensures forall i :: 0 <= i < |BODY_NAMES| ==> !IsIndex(BODY_NAMES[i])
  {
    NamesDistinct();
    assert forall i :: 0 <= i < |BODY_NAMES| ==> BODY_NAMES[i] == NAMES[i];
  }

  lemma BodyValid(e: Event)
    requires Valid(Obj(e.payload))
    ensures Valid(Body(e))
  {
    hide BODY_NAMES;
    BodyNames();
    ZipOrdered(BODY_NAMES, BodyValues(e));
  }

  lemma PlaceOnto(i: nat) returns (j: nat)
    requires i < 16
    ensures j < 16 && Place(j) == i
  {
    j := if i < 4 then i else if i < 7 then i + 1 else if i < 14 then i + 2 else if i == 14 then 4 else 8;
  }

  lemma LineDistinct()
    ensures |NAMES| == 16 && Distinct(InLineOrder(NAMES))
    ensures forall j :: 0 <= j < 16 ==> !IsIndex(InLineOrder(NAMES)[j])
  {
    hide NAMES, IsIndex;
    NamesDistinct();
    forall i, j | 0 <= i < j < 16 ensures InLineOrder(NAMES)[i] != InLineOrder(NAMES)[j] {
      assert Place(i) != Place(j);
    }
  }

  /** Each field of a line is found under its name, and no other names occur. */
  lemma LineGet(e: Event)
    ensures |NAMES| == 16 && forall i :: 0 <= i < 16 ==> Get(LineProps(e), NAMES[i]) == Some(Values(e)[i])
    ensures forall j :: 0 <= j < |LineProps(e)| ==> LineProps(e)[j].0 in NAMES
  {
    hide NAMES, Values, Get, IsIndex;
    LineDistinct();
    ZipGet(InLineOrder(NAMES), InLineOrder(Values(e)));
    forall i | 0 <= i < 16 ensures Get(LineProps(e), NAMES[i]) == Some(Values(e)[i]) {
      var j := PlaceOnto(i);
      assert InLineOrder(NAMES)[j] == NAMES[i] && InLineOrder(Values(e))[j] == Values(e)[i];
    }
  }

  lemma ToJsonValid(e: Event)
    requires Valid(Obj(e.payload))
    ensures Valid(ToJson(e))
  {
    hide NAMES, IsIndex;
    LineDistinct();
    ZipOrdered(InLineOrder(NAMES), InLineOrder(Values(e)));
    forall j | 0 <= j < 16 ensures Valid(InLineOrder(Values(e))[j]) {
      ValuesValid(e, Place(j));
    }
  }

  lemma ValuesValid(e: Event, i: nat)
    requires Valid(Obj(e.payload)) && i < 16
    ensures Valid(Values(e)[i])
  {
  }

  /** Equal in every field but the signature, with the payloads read as maps. */
  ghost predicate SameButSignature(e: Event, f: Event) {
    && e.(signature := f.signature, payload := f.payload) == f
    && Agree(Obj(e.payload), Obj(f.payload), {PROTO})
  }

  lemma {:induction false} ActorTextInjective(a: Actor, b: Actor)
    requires ActorText(a) == ActorText(b)
    ensures a == b
  {
    assert |Ascii("session_owner")| == 13 && |Ascii("claude_process")| == 14;
  }

  /** The covered fields can be recovered from the canonical text of the body. */
  lemma BodyDetermines(e: Event, f: Event)
    requires Valid(Obj(e.payload)) && Valid(Obj(f.payload))
    requires CanonicalJson(Body(e)) == CanonicalJson(Body(f))
    ensures SameButSignature(e, f.(hash := e.hash))
  {
    BodyValid(e);
    BodyValid(f);
    CanonicalExactly(Body(e), Body(f));
    BodyValuesAgree(e, f);
    ValuesDetermine(e, f);
  }

  lemma ValuesDetermine(e: Event, f: Event)
    requires forall i :: 0 <= i < 14 ==> Agree(BodyValues(e)[i], BodyValues(f)[i], {PROTO})
    ensures SameButSignature(e, f.(hash := e.hash))
  {
    hide ActorText, Ascii, PROTO;
    var u, w := BodyValues(e), BodyValues(f);
    assert Agree(u[1], w[1], {PROTO}) && Agree(u[2], w[2], {PROTO}) && Agree(u[3], w[3], {PROTO});
    assert Agree(u[4], w[4], {PROTO}) && Agree(u[5], w[5], {PROTO}) && Agree(u[6], w[6], {PROTO});
    assert Agree(u[7], w[7], {PROTO}) && Agree(u[8], w[8], {PROTO}) && Agree(u[9], w[9], {PROTO});
    assert Agree(u[10], w[10], {PROTO}) && Agree(u[11], w[11], {PROTO});
    assert Agree(u[12], w[12], {PROTO}) && Agree(u[13], w[13], {PROTO});
    ActorTextInjective(e.actor, f.actor);
  }

  lemma BodyValuesAgree(e: Event, f: Event)
    requires Agree(Body(e), Body(f), {PROTO})
    ensures forall i :: 0 <= i < 14 ==> Agree(BodyValues(e)[i], BodyValues(f)[i], {PROTO})
  {
    hide BODY_NAMES;
    BodyNames();
    var ps, qs := Zip(BODY_NAMES, BodyValues(e)), Zip(BODY_NAMES, BodyValues(f));
    ZipGet(BODY_NAMES, BodyValues(f));
    forall i | 0 <= i < 14 ensures Agree(BodyValues(e)[i], BodyValues(f)[i], {PROTO}) {
      assert ps[i] == (BODY_NAMES[i], BodyValues(e)[i]);
      assert BODY_NAMES[i] in BODY_NAMES;
      assert Get(qs, BODY_NAMES[i]) == Some(BodyValues(f)[i]);
    }
  }

  // ----- The covered bytes -----

  /** The previous hash, if there is one, followed by the canonical text. */
  function EventBytes(prevHash: Option<Text>, body: Json): Text {
    (if prevHash.Some? then prevHash.value else []) + CanonicalJson(body)
  }

  function Bytes(e: Event): Text { EventBytes(e.prevHash, Body(e)) }

  /** The bytes of a head checkpoint; a missing property is left out of the object. */
  function HeadBytes(seqNo: Option<Json>, hash: Option<Json>): Text {
    CanonicalJson(HeadObject(seqNo, hash))
  }

  function HeadObject(seqNo: Option<Json>, hash: Option<Json>): Json {
    Obj(Present(Ascii("seq"), seqNo) + Present(Ascii("hash"), hash))
  }

  function Present(name: Text, value: Option<Json>): Props<Json> {
    match value
    case None => []
    case Some(v) => [(name, v)]
  }

  lemma CanonicalObject(v: Json)
    requires v.Obj?
    ensures |CanonicalJson(v)| > 0 && CanonicalJson(v)[0] == OPEN_BRACE
  {
    StringifyStart(SortDeep(v));
  }

  /** A previous hash followed by a canonical object decodes in only one way. */
  lemma UniqueDecoding(p: Option<Text>, v: Json, q: Option<Text>, w: Json)
    requires v.Obj? && w.Obj?
    requires (p.Some? ==> IsHash(p.value)) && (q.Some? ==> IsHash(q.value))
    requires EventBytes(p, v) == EventBytes(q, w)
    ensures p == q && CanonicalJson(v) == CanonicalJson(w)
  {
    CanonicalObject(v);
    CanonicalObject(w);
    var b := EventBytes(p, v);
    assert p.None? ==> b == CanonicalJson(v);
    assert q.None? ==> b == CanonicalJson(w);
    assert p.Some? ==> p.value == b[..64] && CanonicalJson(v) == b[64..] && IsLowerHex(b[0]);
    assert q.Some? ==> q.value == b[..64] && CanonicalJson(w) == b[64..] && IsLowerHex(b[0]);
  }

  /** Two events with the same covered bytes agree in every covered field. */
  lemma BytesDetermine(c: Primitives, e: Event, f: Event)
    requires SchemaOk(c, e) && SchemaOk(c, f) && Bytes(e) == Bytes(f)
    ensures SameButSignature(e, f.(hash := e.hash))
  {
    UniqueDecoding(e.prevHash, Body(e), f.prevHash, Body(f));
    BodyDetermines(e, f);
  }

  ghost predicate ValidOption(v: Option<Json>) { v.Some? ==> Valid(v.value) }

  lemma HeadObjectValid(seqNo: Option<Json>, hash: Option<Json>)
    requires ValidOption(seqNo) && ValidOption(hash)
    ensures Valid(HeadObject(seqNo, hash))
    ensures Get(HeadObject(seqNo, hash).props, Ascii("seq")) == seqNo
    ensures Get(HeadObject(seqNo, hash).props, Ascii("hash")) == hash
    ensures Get(HeadObject(seqNo, hash).props, Ascii("v")) == None
  {
    var seqName, hashName, v := Ascii("seq"), Ascii("hash"), Ascii("v");
    assert |seqName| == 3 && |hashName| == 4 && |v| == 1;
    assert seqName[0] == 115 && hashName[0] == 104;
    assert !IsIndex(seqName) && !IsIndex(hashName);
    forall key ensures Get(HeadObject(seqNo, hash).props, key) ==
      if key == seqName && seqNo.Some? then seqNo else if key == hashName then hash else None
    {
      GetConcat(Present(seqName, seqNo), Present(hashName, hash), key);
    }
  }

  /** What agreement of two objects says about one property. */
  lemma AgreeAt(ps: Props<Json>, qs: Props<Json>, i: nat)
    requires Agree(Obj(ps), Obj(qs), {PROTO}) && i < |ps| && ps[i].0 != PROTO
    ensures Get(qs, ps[i].0).Some? && Agree(ps[i].1, Get(qs, ps[i].0).value, {PROTO})
    ensures !ps[i].1.Arr? && !ps[i].1.Obj? ==> Get(qs, ps[i].0) == Some(ps[i].1)
  {
    hide Get;
  }

  /** The bytes of a checkpoint of an event determine its fields. */
  lemma HeadBytesDetermine(seqNo: Option<Json>, hash: Option<Json>, n: int, h: Text)
    requires ValidOption(seqNo) && ValidOption(hash)
    requires HeadBytes(seqNo, hash) == HeadBytes(Some(Num(n)), Some(Str(h)))
    ensures seqNo == Some(Num(n)) && hash == Some(Str(h))
  {
    var a, b := HeadObject(Some(Num(n)), Some(Str(h))), HeadObject(seqNo, hash);
    HeadObjectValid(seqNo, hash);
    HeadObjectValid(Some(Num(n)), Some(Str(h)));
    CanonicalExactly(a, b);
    HeadNames(n, h);
    hide HeadObject, Agree, CanonicalJson, Get, Ascii, Valid, PROTO;
    AgreeAt(a.props, b.props, 0);
    AgreeAt(a.props, b.props, 1);
  }

  lemma HeadNames(n: int, h: Text)
    ensures HeadObject(Some(Num(n)), Some(Str(h))).props == [(Ascii("seq"), Num(n)), (Ascii("hash"), Str(h))]
    ensures Ascii("seq") != PROTO && Ascii("hash") != PROTO
  {
    assert |PROTO| == 9 && |Ascii("seq")| == 3 && |Ascii("hash")| == 4;
  }

  /** Event bytes and head bytes never coincide. */
  lemma BytesNeverHead(c: Primitives, e: Event, seqNo: Option<Json>, hash: Option<Json>)
    requires SchemaOk(c, e) && ValidOption(seqNo) && ValidOption(hash)
    ensures Bytes(e) != HeadBytes(seqNo, hash)
  {
    var head := HeadObject(seqNo, hash);
    BodyValid(e);
    HeadObjectValid(seqNo, hash);
    CanonicalExactly(Body(e), head);
    assert |PROTO| == 9 && |Ascii("v")| == 1;
    assert Body(e).props[0] == (Ascii("v"), Num(2));
    assert !Agree(Body(e), head, {PROTO});
    assert EventBytes(None, head) == HeadBytes(seqNo, hash);
    if Bytes(e) == HeadBytes(seqNo, hash) {
      UniqueDecoding(e.prevHash, Body(e), None, head);
    }
  }

  // ----- Reading events back -----

  function ReadText(v: Option<Json>): Option<Text> {
    match v
    case Some(Str(s)) => Some(s)
    case _ => None
  }

  function ReadInt(v: Option<Json>): Option<int> {
    match v
    case Some(Num(n)) => Some(n)
    case _ => None
  }

  function ReadObject(v: Option<Json>): Option<Props<Json>> {
    match v
    case Some(Obj(ps)) => Some(ps)
    case _ => None
  }

  /** A nullable field; the outer None stands for a field that the schema rejects. */
  function ReadNullable(v: Option<Json>): Option<Option<Text>> {
    match v
    case Some(Null) => Some(None)
    case Some(Str(s)) => Some(Some(s))
    case _ => None
  }

  /** A nullable field that defaults to null when it is missing. */
  function ReadDefaulted(v: Option<Json>): Option<Option<Text>> {
    if v.None? then Some(None) else ReadNullable(v)
  }

  function ReadActor(v: Option<Json>): Option<Actor> {
    if v == Some(Str(ActorText(SessionOwner))) then Some(SessionOwner)
    else if v == Some(Str(ActorText(ClaudeProcess))) then Some(ClaudeProcess)
    else None
  }

  datatype Reserved = Reserved(
    tenantId: Option<Text>,
    signingKeyId: Option<Text>,
    approvalBindingType: Option<Text>,
    intendantIdentityUri: Option<Text>,
    onBehalfOf: Option<Text>,
    correlationId: Option<Text>,
    gsbReceiptTipHash: Option<Text>)

  function ReadReserved(ps: Props<Json>): Option<Reserved> {
    match (ReadDefaulted(Get(ps, NAMES[7])), ReadDefaulted(Get(ps, NAMES[8])), ReadDefaulted(Get(ps, NAMES[9])),
           ReadDefaulted(Get(ps, NAMES[10])), ReadDefaulted(Get(ps, NAMES[11])),
           ReadDefaulted(Get(ps, NAMES[12])), ReadDefaulted(Get(ps, NAMES[13])))
    case (Some(a), Some(b), Some(c), Some(d), Some(e), Some(f), Some(g)) =>
      if (f.Some? ==> |f.value| > 0) && (g.Some? ==> IsHash(g.value))
      then Some(Reserved(a, b, c, d, e, f, g)) else None
    case _ => None
  }

  /** The schema check: the event that a JSON value stands for. Keys outside the schema are
      refused; missing reserved fields and pointers read as null. */
  function FromJson(c: Primitives, j: Json): Option<Event> {
    if j.Obj? then FromProps(c, j.props) else None
  }

  function FromProps(c: Primitives, ps: Props<Json>): Option<Event> {
    if !(forall i :: 0 <= i < |ps| ==> ps[i].0 in NAMES) || Get(ps, NAMES[0]) != Some(Num(2)) then None
    else
      match (ReadInt(Get(ps, NAMES[1])), ReadText(Get(ps, NAMES[2])), ReadNullable(Get(ps, NAMES[3])),
             ReadText(Get(ps, NAMES[4])), ReadActor(Get(ps, NAMES[5])), ReadObject(Get(ps, NAMES[6])),
             ReadReserved(ps), ReadText(Get(ps, NAMES[14])), ReadText(Get(ps, NAMES[15])))
      case (Some(n), Some(ts), Some(prev), Some(kind), Some(actor), Some(payload), Some(r), Some(hash),
            Some(signature)) =>
        if n > 0 && c.isTimestamp(ts) && (prev.Some? ==> IsHash(prev.value)) && |kind| > 0 &&
           IsHash(hash) && IsSignature(signature)
        then
          Some(Event(n, ts, prev, kind, actor, payload, r.tenantId, r.signingKeyId, r.approvalBindingType,
                     r.intendantIdentityUri, r.onBehalfOf, r.correlationId, r.gsbReceiptTipHash, hash, signature))
        else None
      case _ => None
  }

  lemma FromJsonOk(c: Primitives, j: Json)
    requires Valid(j) && FromJson(c, j).Some?
    ensures SchemaOk(c, FromJson(c, j).value)
  {
    hide NAMES, ReadActor, IsHash, IsSignature;
    NamesDistinct();
    GetSome(j.props, NAMES[6]);
  }

  /** The fields of an event, read one by one. */
  lemma FieldsReadBack(ps: Props<Json>, e: Event)
    requires |NAMES| == 16 && forall i :: 0 <= i < 16 ==> Get(ps, NAMES[i]) == Some(Values(e)[i])
    ensures Get(ps, NAMES[0]) == Some(Num(2)) && ReadInt(Get(ps, NAMES[1])) == Some(e.seqNo)
    ensures ReadText(Get(ps, NAMES[2])) == Some(e.ts) && ReadNullable(Get(ps, NAMES[3])) == Some(e.prevHash)
    ensures ReadText(Get(ps, NAMES[4])) == Some(e.kind) && Get(ps, NAMES[5]) == Some(Str(ActorText(e.actor)))
    ensures ReadObject(Get(ps, NAMES[6])) == Some(e.payload)
    ensures ReadText(Get(ps, NAMES[14])) == Some(e.hash) && ReadText(Get(ps, NAMES[15])) == Some(e.signature)
  {
    hide NAMES, ActorText, Get;
  }

  /** Reading an event that was written as JSON gives it back. */
  lemma ReadsBack(c: Primitives, e: Event)
    requires SchemaOk(c, e)
    ensures FromJson(c, ToJson(e)) == Some(e)
  {
    hide NAMES, ActorText, LineProps, ReadActor, ReadReserved, IsHash, IsSignature, ReadInt, ReadText, ReadNullable,
      ReadObject;
    LineGet(e);
    var ps := LineProps(e);
    FieldsReadBack(ps, e);
    ReservedReadsBack(ps, e);
    ActorReadsBack(e.actor);
    hide Values, Get;
  }

  lemma ActorReadsBack(a: Actor)
    ensures ReadActor(Some(Str(ActorText(a)))) == Some(a)
  {
    assert |ActorText(SessionOwner)| == 13 && |ActorText(ClaudeProcess)| == 14;
  }

  lemma ReservedReadsBack(ps: Props<Json>, e: Event)
    requires |NAMES| == 16 && forall i :: 7 <= i < 14 ==> Get(ps, NAMES[i]) == Some(Values(e)[i])
    requires e.correlationId.Some? ==> |e.correlationId.value| > 0
    requires e.gsbReceiptTipHash.Some? ==> IsHash(e.gsbReceiptTipHash.value)
    ensures ReadReserved(ps) ==
            Some(Reserved(e.tenantId, e.signingKeyId, e.approvalBindingType, e.intendantIdentityUri,
                          e.onBehalfOf, e.correlationId, e.gsbReceiptTipHash))
  {
    hide NAMES, IsHash;
    assert Get(ps, NAMES[7]) == Some(Nullable(e.tenantId)) && Get(ps, NAMES[8]) == Some(Nullable(e.signingKeyId));
    assert Get(ps, NAMES[9]) == Some(Nullable(e.approvalBindingType));
    assert Get(ps, NAMES[10]) == Some(Nullable(e.intendantIdentityUri));
    assert Get(ps, NAMES[11]) == Some(Nullable(e.onBehalfOf));
    assert Get(ps, NAMES[12]) == Some(Nullable(e.correlationId));
    assert Get(ps, NAMES[13]) == Some(Nullable(e.gsbReceiptTipHash));
  }

  // ----- What an event line is -----

  /** A digest is written as 64 of these units. */
  lemma HashExactly(t: Text)
    ensures IsHash(t) <==> |t| == 64 && forall i :: 0 <= i < |t| ==> t[i] in Ascii("0123456789abcdef")
  {
    forall i | 0 <= i < |t| ensures IsLowerHex(t[i]) <==> t[i] in Ascii("0123456789abcdef") { HexUnit(t[i]); }
    hide Ascii, IsLowerHex;
  }

  lemma HexUnit(u: CodeUnit)
    ensures IsLowerHex(u) <==> u in Ascii("0123456789abcdef")
  {
    var units := Ascii("0123456789abcdef");
    assert forall i :: 0 <= i < 10 ==> units[i] == 48 + i;
    assert forall i :: 10 <= i < 16 ==> units[i] == 87 + i;
    if IsDigit(u) {
      assert units[u - 48] == u;
    } else if IsLowerHex(u) {
      assert units[10 + (u - 97)] == u;
    }
  }

  const BASE64: Text :=
    Ascii("ABCDEFGHIJKLMNOPQRSTUVWXYZ") + Ascii("abcdefghijklmnopqrstuvwxyz") + Ascii("0123456789+/")

  /** A signature is written as 86 units of the base64 alphabet and two equals signs. */
  lemma SignatureExactly(t: Text)
    ensures IsSignature(t) <==>
              |t| == 88 && (forall i :: 0 <= i < 86 ==> t[i] in BASE64) && t[86..] == Ascii("==")
  {
    forall i | 0 <= i < |t| ensures IsBase64(t[i]) <==> t[i] in BASE64 { Base64Unit(t[i]); }
    hide BASE64, IsBase64;
    assert Ascii("==") == [61, 61];
    assert |t| == 88 ==> t[86..] == [t[86], t[87]];
  }

  lemma Base64Unit(u: CodeUnit)
    ensures IsBase64(u) <==> u in BASE64
  {
    var upper, lower := Ascii("ABCDEFGHIJKLMNOPQRSTUVWXYZ"), Ascii("abcdefghijklmnopqrstuvwxyz");
    var rest := Ascii("0123456789+/");
    assert forall i :: 0 <= i < 26 ==> upper[i] == 65 + i;
    assert forall i :: 0 <= i < 26 ==> lower[i] == 97 + i;
    assert forall i :: 0 <= i < 10 ==> rest[i] == 48 + i;
    assert rest[10] == 43 && rest[11] == 47;
    if IsDigit(u) {
      assert rest[u - 48] == u;
    } else if 65 <= u <= 90 {
      assert upper[u - 65] == u;
    } else if 97 <= u <= 122 {
      assert lower[u - 97] == u;
    }
  }

  /** A nullable property; a column may also be missing, which reads as null. */
  predicate NullableAt(ps: Props<Json>, name: Text, value: Option<Text>) {
    var v: Option<Json> := Get(ps, name);
    match v
    case Some(Null) => value == None
    case Some(Str(s)) => value == Some(s)
    case _ => false
  }

  predicate ColumnAt(ps: Props<Json>, name: Text, value: Option<Text>) {
    NullableAt(ps, name, value) || (Get(ps, name) == None && value == None)
  }

  ghost predicate OnlyNames(ps: Props<Json>) { forall i :: 0 <= i < |ps| ==> ps[i].0 in NAMES }

  /** The properties of a line are those of the event, one by one, and there are no others. */
  ghost predicate Spells(ps: Props<Json>, e: Event) {
    && OnlyNames(ps)
    && Get(ps, Ascii("v")) == Some(Num(2))
    && Get(ps, Ascii("seq")) == Some(Num(e.seqNo))
    && Get(ps, Ascii("ts")) == Some(Str(e.ts))
    && NullableAt(ps, Ascii("prevHash"), e.prevHash)
    && Get(ps, Ascii("hash")) == Some(Str(e.hash))
    && SpellsContent(ps, e)
    && SpellsColumns(ps, e)
  }

  ghost predicate SpellsContent(ps: Props<Json>, e: Event) {
    && Get(ps, Ascii("kind")) == Some(Str(e.kind))
    && Get(ps, Ascii("actor")) ==
       Some(Str(if e.actor == SessionOwner then Ascii("session_owner") else Ascii("claude_process")))
    && Get(ps, Ascii("payload")) == Some(Obj(e.payload))
    && Get(ps, Ascii("signature")) == Some(Str(e.signature))
  }

  ghost predicate SpellsColumns(ps: Props<Json>, e: Event) {
    && ColumnAt(ps, Ascii("tenant_id"), e.tenantId)
    && ColumnAt(ps, Ascii("signing_key_id"), e.signingKeyId)
    && ColumnAt(ps, Ascii("approval_binding_type"), e.approvalBindingType)
    && ColumnAt(ps, Ascii("intendant_identity_uri"), e.intendantIdentityUri)
    && ColumnAt(ps, Ascii("on_behalf_of"), e.onBehalfOf)
    && ColumnAt(ps, Ascii("correlation_id"), e.correlationId)
    && ColumnAt(ps, Ascii("gsb_receipt_tip_hash"), e.gsbReceiptTipHash)
  }

  lemma NullableExactly(ps: Props<Json>, name: Text, value: Option<Text>)
    ensures ReadNullable(Get(ps, name)) == Some(value) <==> NullableAt(ps, name, value)
    ensures ReadDefaulted(Get(ps, name)) == Some(value) <==> ColumnAt(ps, name, value)
  {
  }

  lemma ColumnsExactly(ps: Props<Json>, e: Event)
    ensures ReadReserved(ps) ==
              Some(Reserved(e.tenantId, e.signingKeyId, e.approvalBindingType, e.intendantIdentityUri,
                            e.onBehalfOf, e.correlationId, e.gsbReceiptTipHash)) <==>
            && SpellsColumns(ps, e)
            && (e.correlationId.Some? ==> |e.correlationId.value| > 0)
            && (e.gsbReceiptTipHash.Some? ==> IsHash(e.gsbReceiptTipHash.value))
  {
    ColumnNames();
    NullableExactly(ps, NAMES[7], e.tenantId);
    NullableExactly(ps, NAMES[8], e.signingKeyId);
    NullableExactly(ps, NAMES[9], e.approvalBindingType);
    NullableExactly(ps, NAMES[10], e.intendantIdentityUri);
    NullableExactly(ps, NAMES[11], e.onBehalfOf);
    NullableExactly(ps, NAMES[12], e.correlationId);
    NullableExactly(ps, NAMES[13], e.gsbReceiptTipHash);
    hide NAMES, Ascii, ReadDefaulted, ColumnAt, NullableAt, IsHash, Get;
  }

  lemma ColumnNames()
    ensures |NAMES| == 16
    ensures NAMES[7] == Ascii("tenant_id") && NAMES[8] == Ascii("signing_key_id")
    ensures NAMES[9] == Ascii("approval_binding_type") && NAMES[10] == Ascii("intendant_identity_uri")
    ensures NAMES[11] == Ascii("on_behalf_of") && NAMES[12] == Ascii("correlation_id")
    ensures NAMES[13] == Ascii("gsb_receipt_tip_hash")
  {
    hide Ascii;
  }

  lemma FieldNames()
    ensures |NAMES| == 16
    ensures NAMES[0] == Ascii("v") && NAMES[1] == Ascii("seq") && NAMES[2] == Ascii("ts")
    ensures NAMES[3] == Ascii("prevHash") && NAMES[4] == Ascii("kind") && NAMES[5] == Ascii("actor")
    ensures NAMES[6] == Ascii("payload") && NAMES[14] == Ascii("hash") && NAMES[15] == Ascii("signature")
  {
    hide Ascii;
  }

  lemma ActorExactly(v: Option<Json>, a: Actor)
    ensures ReadActor(v) == Some(a) <==>
              v == Some(Str(if a == SessionOwner then Ascii("session_owner") else Ascii("claude_process")))
  {
    assert |Ascii("session_owner")| == 13 && |Ascii("claude_process")| == 14;
  }

  lemma ScalarsExactly(v: Option<Json>)
    ensures forall n :: ReadInt(v) == Some(n) <==> v == Some(Num(n))
    ensures forall t :: ReadText(v) == Some(t) <==> v == Some(Str(t))
    ensures forall ps :: ReadObject(v) == Some(ps) <==> v == Some(Obj(ps))
  {
  }

  /** An object is read as an event exactly if it spells the event and the event fits the schema. */
  lemma FromPropsExactly(c: Primitives, ps: Props<Json>, e: Event)
    requires Valid(Obj(ps))
    ensures FromProps(c, ps) == Some(e) <==> Spells(ps, e) && SchemaOk(c, e)
  {
    FieldNames();
    PayloadValid(ps, e);
    ColumnsExactly(ps, e);
    ActorExactly(Get(ps, NAMES[5]), e.actor);
    NullableExactly(ps, NAMES[3], e.prevHash);
    ScalarsExactly(Get(ps, NAMES[1]));
    ScalarsExactly(Get(ps, NAMES[2]));
    ScalarsExactly(Get(ps, NAMES[4]));
    ScalarsExactly(Get(ps, NAMES[6]));
    ScalarsExactly(Get(ps, NAMES[14]));
    ScalarsExactly(Get(ps, NAMES[15]));
    hide NAMES, Ascii, Get, ReadReserved, SpellsColumns, ReadActor, ReadNullable, NullableAt, ReadInt, ReadText,
      ReadObject, IsHash, IsSignature, Valid;
  }

  lemma PayloadValid(ps: Props<Json>, e: Event)
    requires Valid(Obj(ps))
    ensures Get(ps, Ascii("payload")) == Some(Obj(e.payload)) ==> Valid(Obj(e.payload))
  {
    GetSome(ps, Ascii("payload"));
  }

  /** The text of one journal line, without its newline. */
  function LineText(e: Event): Text { Stringify(ToJson(e)) }

  /** What a journal line stands for; None when it is no JSON or no event of the schema. */
  function ParseLine(c: Primitives, line: Text): Option<Event> {
    match Parse(line)
    case None => None
    case Some(j) => FromJson(c, j)
  }

  /** What a line stands for, told without reading it: it is the JSON text of an object that spells an
      event of the schema. */
  ghost predicate ReadsAs(c: Primitives, line: Text, e: Event) {
    match Parse(line)
    case Some(Obj(ps)) => Spells(ps, e) && SchemaOk(c, e)
    case _ => false
  }

  /** A line is read as an event exactly if it spells this event, with no other property, and the event
      fits the schema. */
  lemma ParseLineExactly(c: Primitives, line: Text, e: Event)
    ensures ParseLine(c, line) == Some(e) <==> ReadsAs(c, line, e)
  {
    hide Parse, FromProps, Spells, SchemaOk, Valid;
    ParseValid(line);
    match Parse(line)
    case Some(Obj(ps)) => FromPropsExactly(c, ps, e);
    case _ =>
  }

  lemma ParseLineOk(c: Primitives, line: Text)
    ensures ParseLine(c, line).Some? ==> SchemaOk(c, ParseLine(c, line).value)
  {
    hide Parse, FromJson;
    ParseValid(line);
    if ParseLine(c, line).Some? { FromJsonOk(c, Parse(line).value); }
  }

  lemma LineReadsBack(c: Primitives, e: Event)
    requires SchemaOk(c, e)
    ensures ParseLine(c, LineText(e)) == Some(e)
  {
    hide Parse, FromJson, ToJson, Stringify;
    ToJsonValid(e);
    RoundTrip(ToJson(e));
    ReadsBack(c, e);
  }
}
