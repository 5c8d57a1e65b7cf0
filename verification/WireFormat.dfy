/** The messages on the wire, property by property: what is written for each kind, and which lines are
    read as which message. */
module WireFormat {
  import opened Utf16
  import opened Wrappers
  import opened Records
  import opened JsonText
  import opened Events
  import opened Policy
  import opened Protocol

  // ----- Which messages fit the schema -----

  /** The texts of a message that must not be empty. */
  function NeededTexts(m: Message): seq<Text> {
    [m.id, m.sessionId] +
    match m
    case ToolCallRequest(_, _, tool, _, _) => [tool]
    case VerdictMessage(_, _, verdict) => [verdict.reason]
    case ToolCallResult(_, _, _, _) => []
    case ErrorMessage(_, _, message) => [message]
  }

  /** No needed text is empty, and a verdict that requires a human names its rule. */
  ghost predicate Fits(m: Message) {
    && (forall i :: 0 <= i < |NeededTexts(m)| ==> |NeededTexts(m)[i]| > 0)
    && (m.VerdictMessage? && m.verdict.decision == Require ==> m.verdict.ruleId != None)
  }

  lemma FitsExactly(m: Message)
    ensures MessageAccepts(m) <==> Fits(m)
  {
    assert NeededTexts(m)[0] == m.id && NeededTexts(m)[1] == m.sessionId;
    assert !m.ToolCallResult? ==> |NeededTexts(m)| == 3;
    assert m.ToolCallRequest? ==> NeededTexts(m)[2] == m.tool;
    assert m.VerdictMessage? ==> NeededTexts(m)[2] == m.verdict.reason;
    assert m.ErrorMessage? ==> NeededTexts(m)[2] == m.message;
  }

  // ----- What is written -----

  function ActorName(a: Actor): Text { if a == SessionOwner then Ascii("session_owner") else Ascii("claude_process") }

  function EffectName(e: Effect): Text {
    if e == Allow then Ascii("allow") else if e == Deny then Ascii("deny") else Ascii("require")
  }

  function TierName(t: Tier): Text {
    match t
    case Default => Ascii("default")
    case Workspace => Ascii("workspace")
    case User => Ascii("user")
    case Admin => Ascii("admin")
  }

  function VerdictProps(v: Verdict): Props<Json> {
    [(Ascii("decision"), Str(EffectName(v.decision))), (Ascii("reason"), Str(v.reason)),
     (Ascii("ruleId"), if v.ruleId == None then Null else Str(v.ruleId.value)),
     (Ascii("tier"), if v.tier == None then Null else Str(TierName(v.tier.value)))]
  }

  function Opening(m: Message, kind: Text): Props<Json> {
    [(Ascii("id"), Str(m.id)), (Ascii("sessionId"), Str(m.sessionId)), (Ascii("kind"), Str(kind))]
  }

  /** The properties of a message in the order in which they are written. */
  function WireProps(m: Message): Props<Json> {
    match m
    case ToolCallRequest(_, _, tool, args, actor) =>
      Opening(m, Ascii("tool_call_request")) +
      [(Ascii("tool"), Str(tool)), (Ascii("args"), Obj(args)), (Ascii("actor"), Str(ActorName(actor)))]
    case VerdictMessage(_, _, verdict) =>
      Opening(m, Ascii("policy_verdict")) + [(Ascii("verdict"), Obj(VerdictProps(verdict)))]
    case ToolCallResult(_, _, ok, output) =>
      Opening(m, Ascii("tool_call_result")) + [(Ascii("ok"), Bool(ok))] +
      (if output == None then [] else [(Ascii("output"), output.value)])
    case ErrorMessage(_, _, message) => Opening(m, Ascii("error")) + [(Ascii("message"), Str(message))]
  }

  lemma WireNames()
    ensures |WIRE_NAMES| == 14
    ensures WIRE_NAMES[0] == Ascii("id") && WIRE_NAMES[1] == Ascii("sessionId") && WIRE_NAMES[2] == Ascii("kind")
    ensures WIRE_NAMES[3] == Ascii("tool") && WIRE_NAMES[4] == Ascii("args") && WIRE_NAMES[5] == Ascii("actor")
    ensures WIRE_NAMES[6] == Ascii("verdict") && WIRE_NAMES[7] == Ascii("ok") && WIRE_NAMES[8] == Ascii("output")
    ensures WIRE_NAMES[9] == Ascii("message")
  {
    hide Ascii;
  }

  lemma VerdictNames()
    ensures |WIRE_NAMES| == 14
    ensures WIRE_NAMES[10] == Ascii("decision") && WIRE_NAMES[11] == Ascii("reason")
    ensures WIRE_NAMES[12] == Ascii("ruleId") && WIRE_NAMES[13] == Ascii("tier")
  {
    hide Ascii;
  }

  lemma VerdictExactly(v: Verdict)
    ensures VerdictJson(v) == Obj(VerdictProps(v))
  {
    VerdictNames();
    hide WIRE_NAMES, Ascii;
    assert VerdictJson(v).props == VerdictProps(v);
  }

  lemma ObjectExactly(m: Message)
    ensures Protocol.ToJson(m) == Obj(WireProps(m))
  {
    WireNames();
    if m.VerdictMessage? { VerdictExactly(m.verdict); }
    hide WIRE_NAMES, Ascii, VerdictJson, VerdictProps;
    assert Protocol.ToJson(m).props == WireProps(m);
  }

  /** A message that fits is written as the text of its properties and a newline; another is not
      written. */
  lemma EncodeExactly(m: Message)
    ensures Encode(m) == if Fits(m) then Some(Stringify(Obj(WireProps(m))) + [10]) else None
  {
    hide Stringify, WireProps, Fits, MessageAccepts;
    ObjectExactly(m);
    FitsExactly(m);
  }

  // ----- What is read -----

  ghost predicate ReadsVerdict(ps: Props<Json>, v: Verdict) {
    && Get(ps, Ascii("decision")) == Some(Str(EffectName(v.decision)))
    && Get(ps, Ascii("reason")) == Some(Str(v.reason))
    && ColumnAt(ps, Ascii("ruleId"), v.ruleId)
    && (if v.tier == None then Get(ps, Ascii("tier")) in {None, Some(Null)}
        else Get(ps, Ascii("tier")) == Some(Str(TierName(v.tier.value))))
  }

  /** The properties hold the message; others are ignored. */
  ghost predicate Reads(ps: Props<Json>, m: Message) {
    && Get(ps, Ascii("id")) == Some(Str(m.id)) && Get(ps, Ascii("sessionId")) == Some(Str(m.sessionId))
    && ReadsKind(ps, m)
  }

  ghost predicate ReadsKind(ps: Props<Json>, m: Message) {
    match m
    case ToolCallRequest(_, _, tool, args, actor) =>
      && Get(ps, Ascii("kind")) == Some(Str(Ascii("tool_call_request")))
      && Get(ps, Ascii("tool")) == Some(Str(tool)) && Get(ps, Ascii("args")) == Some(Obj(args))
      && Get(ps, Ascii("actor")) == Some(Str(ActorName(actor)))
    case VerdictMessage(_, _, verdict) =>
      && Get(ps, Ascii("kind")) == Some(Str(Ascii("policy_verdict")))
      && exists vs :: Get(ps, Ascii("verdict")) == Some(Obj(vs)) && ReadsVerdict(vs, verdict)
    case ToolCallResult(_, _, ok, output) =>
      && Get(ps, Ascii("kind")) == Some(Str(Ascii("tool_call_result")))
      && Get(ps, Ascii("ok")) == Some(Bool(ok)) && Get(ps, Ascii("output")) == output
    case ErrorMessage(_, _, message) =>
      && Get(ps, Ascii("kind")) == Some(Str(Ascii("error")))
      && Get(ps, Ascii("message")) == Some(Str(message))
  }

  lemma EffectExactly(v: Option<Json>, e: Effect)
    ensures ReadEffect(v) == Some(e) <==> v == Some(Str(EffectName(e)))
  {
    assert |Ascii("allow")| == 5 && |Ascii("deny")| == 4 && |Ascii("require")| == 7;
  }

  lemma TierExactly(v: Option<Json>, t: Option<Tier>)
    ensures ReadTier(v) == Some(t) <==>
              if t == None then v in {None, Some(Null)} else v == Some(Str(TierName(t.value)))
  {
    assert |Ascii("default")| == 7 && |Ascii("workspace")| == 9 && |Ascii("user")| == 4 && |Ascii("admin")| == 5;
  }

  lemma ReadVerdictExactly(j: Option<Json>, v: Verdict)
    ensures ReadVerdict(j) == Some(v) <==>
              VerdictAccepts(v) && exists ps :: j == Some(Obj(ps)) && ReadsVerdict(ps, v)
  {
    VerdictNames();
    hide WIRE_NAMES, Ascii, ReadEffect, ReadTier, EffectName, TierName, ReadDefaulted, ColumnAt, VerdictAccepts, Get;
    ScalarsExactly(j);
    match j
    case Some(Obj(ps)) =>
      EffectExactly(Get(ps, Ascii("decision")), v.decision);
      ScalarsExactly(Get(ps, Ascii("reason")));
      NullableExactly(ps, Ascii("ruleId"), v.ruleId);
      TierExactly(Get(ps, Ascii("tier")), v.tier);
    case _ =>
  }

  lemma BoolExactly(v: Option<Json>, b: bool)
    ensures ReadBool(v) == Some(b) <==> v == Some(Bool(b))
  {
  }

  lemma KindExactly(ps: Props<Json>, kind: Text, id: Text, sessionId: Text, m: Message)
    requires m.id == id && m.sessionId == sessionId && MessageAccepts(m) && Get(ps, Ascii("kind")) == Some(Str(kind))
    ensures ReadKind(kind, id, sessionId, ps) == Some(m) <==> ReadsKind(ps, m)
  {
    WireNames();
    KindsDistinct();
    hide WIRE_NAMES, Ascii, ReadVerdict, ReadsVerdict, ActorName, ReadActor, Get, VerdictAccepts;
    match m
    case ToolCallRequest(_, _, tool, args, actor) =>
      ScalarsExactly(Get(ps, Ascii("tool")));
      ScalarsExactly(Get(ps, Ascii("args")));
      ActorExactly(Get(ps, Ascii("actor")), actor);
      ActorNames(actor);
    case VerdictMessage(_, _, verdict) =>
      ReadVerdictExactly(Get(ps, Ascii("verdict")), verdict);
    case ToolCallResult(_, _, ok, output) =>
      BoolExactly(Get(ps, Ascii("ok")), ok);
    case ErrorMessage(_, _, message) =>
      ScalarsExactly(Get(ps, Ascii("message")));
  }

  lemma ActorNames(a: Actor)
    ensures ActorName(a) == if a == SessionOwner then Ascii("session_owner") else Ascii("claude_process")
  {
  }

  lemma KeepsIds(kind: Text, id: Text, sessionId: Text, ps: Props<Json>)
    ensures var m := ReadKind(kind, id, sessionId, ps); m.Some? ==> m.value.id == id && m.value.sessionId == sessionId
  {
    hide WIRE_NAMES, Ascii, ReadVerdict, ReadActor, Get;
  }

  lemma FromPropsExactly(ps: Props<Json>, m: Message)
    ensures Protocol.FromProps(ps) == Some(m) <==> Reads(ps, m) && MessageAccepts(m)
  {
    WireNames();
    hide WIRE_NAMES, Ascii, ReadKind, ReadsKind, MessageAccepts, Get;
    ScalarsExactly(Get(ps, Ascii("id")));
    ScalarsExactly(Get(ps, Ascii("sessionId")));
    ScalarsExactly(Get(ps, Ascii("kind")));
    var kind := ReadText(Get(ps, Ascii("kind")));
    if kind.Some? {
      KeepsIds(kind.value, m.id, m.sessionId, ps);
      if MessageAccepts(m) { KindExactly(ps, kind.value, m.id, m.sessionId, m); }
      if ReadText(Get(ps, Ascii("id"))).Some? && ReadText(Get(ps, Ascii("sessionId"))).Some? {
        KeepsIds(kind.value, ReadText(Get(ps, Ascii("id"))).value, ReadText(Get(ps, Ascii("sessionId"))).value, ps);
      }
    } else if ReadsKind(ps, m) {
      NeedsKind(ps, m);
    }
  }

  lemma NeedsKind(ps: Props<Json>, m: Message)
    requires ReadsKind(ps, m)
    ensures ReadText(Get(ps, Ascii("kind"))).Some?
  {
    hide Ascii, Get, ReadsVerdict;
  }

  /** A line is read as a message exactly if it is the JSON text of an object that holds the message,
      and the message fits. */
  lemma DecodeExactly(line: Text, m: Message)
    ensures Decode(line) == Some(m) <==>
              exists ps :: Parse(line) == Some(Obj(ps)) && Reads(ps, m) && Fits(m)
  {
    hide Parse, Reads, Fits, MessageAccepts;
    FitsExactly(m);
    match Parse(line)
    case Some(Obj(ps)) => FromPropsExactly(ps, m);
    case _ =>
  }
}
