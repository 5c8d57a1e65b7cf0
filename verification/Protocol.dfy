/** The gateway wire protocol: newline-delimited JSON, one message a line, decoded from a stream
    that arrives in chunks. */
module Protocol {
  import opened Utf16
  import opened Wrappers
  import opened Records
  import opened JsonText
  import opened Lines
  import opened Events
  import opened Policy

  datatype Message =
    | ToolCallRequest(id: Text, sessionId: Text, tool: Text, args: Props<Json>, actor: Actor)
    | VerdictMessage(id: Text, sessionId: Text, verdict: Verdict)
    | ToolCallResult(id: Text, sessionId: Text, ok: bool, output: Option<Json>)
    | ErrorMessage(id: Text, sessionId: Text, message: Text)

  predicate VerdictAccepts(v: Verdict) { |v.reason| > 0 && (v.decision == Require ==> v.ruleId.Some?) }

  /** The checks of the message schema, beyond the types. */
  predicate MessageAccepts(m: Message) {
    |m.id| > 0 && |m.sessionId| > 0 &&
    match m
    case ToolCallRequest(_, _, tool, _, _) => |tool| > 0
    case VerdictMessage(_, _, verdict) => VerdictAccepts(verdict)
    case ToolCallResult(_, _, _, _) => true
    case ErrorMessage(_, _, message) => |message| > 0
  }

  /** The JavaScript values in a message are objects that keep their invariant. */
  ghost predicate MessageValid(m: Message) {
    match m
    case ToolCallRequest(_, _, _, args, _) => Valid(Obj(args))
    case ToolCallResult(_, _, _, output) => ValidOption(output)
    case _ => true
  }

  // ----- Messages as JSON -----

  const WIRE_NAMES: seq<Text> := [
    Ascii("id"), Ascii("sessionId"), Ascii("kind"), Ascii("tool"), Ascii("args"), Ascii("actor"),
    Ascii("verdict"), Ascii("ok"), Ascii("output"), Ascii("message"),
    Ascii("decision"), Ascii("reason"), Ascii("ruleId"), Ascii("tier")]

  /** Length and last unit tell the names apart. */
  function EndTag(t: Text): int
    requires |t| > 0
  {
    |t| * 0x1_0000 + t[|t| - 1]
  }

  const WIRE_TAGS: seq<int> := [
    0x2_0064, 0x9_0064, 0x4_0064, 0x4_006C, 0x4_0073, 0x5_0072, 0x7_0074, 0x2_006B, 0x6_0074, 0x7_0065,
    0x8_006E, 0x6_006E, 0x6_0064, 0x4_0072]

  lemma WireTags()
    ensures |WIRE_NAMES| == |WIRE_TAGS| == 14
    ensures forall i :: 0 <= i < |WIRE_TAGS| ==> |WIRE_NAMES[i]| > 0 && EndTag(WIRE_NAMES[i]) == WIRE_TAGS[i]
  {
  }

  lemma WireTagsDistinct()
    ensures Distinct(WIRE_TAGS)
    ensures forall i :: 0 <= i < |WIRE_TAGS| ==> WIRE_TAGS[i] % 0x1_0000 >= 0x61
  {
  }

  lemma WireNamesDistinct()
    ensures |WIRE_NAMES| == 14 && Distinct(WIRE_NAMES)
    ensures forall i :: 0 <= i < |WIRE_NAMES| ==> !IsIndex(WIRE_NAMES[i])
  {
    hide WIRE_NAMES, WIRE_TAGS;
    WireTags();
    WireTagsDistinct();
    forall i | 0 <= i < |WIRE_NAMES| ensures !IsIndex(WIRE_NAMES[i]) {
      assert EndTag(WIRE_NAMES[i]) % 0x1_0000 == WIRE_NAMES[i][|WIRE_NAMES[i]| - 1];
    }
  }

  /** An object with the wire names at the given indices. */
  function Named(indices: seq<nat>, values: seq<Json>): (ps: Props<Json>)
    requires |indices| == |values| && forall i :: 0 <= i < |indices| ==> indices[i] < 14
    ensures |ps| == |indices| && forall i :: 0 <= i < |ps| ==> ps[i] == (WIRE_NAMES[indices[i]], values[i])
  {
    seq(|indices|, i requires 0 <= i < |indices| => (WIRE_NAMES[indices[i]], values[i]))
  }

  lemma NamedGet(indices: seq<nat>, values: seq<Json>)
    requires |indices| == |values| && Distinct(indices) && forall i :: 0 <= i < |indices| ==> indices[i] < 14
    ensures Ordered(Named(indices, values))
    ensures forall i :: 0 <= i < |indices| ==> Get(Named(indices, values), WIRE_NAMES[indices[i]]) == Some(values[i])
    ensures forall k :: 0 <= k < 14 && k !in indices ==> Get(Named(indices, values), WIRE_NAMES[k]) == None
  {
    hide WIRE_NAMES;
    WireNamesDistinct();
    var ps := Named(indices, values);
    forall i, j | 0 <= i < j < |ps| ensures ps[i].0 != ps[j].0 && !IsIndex(ps[j].0) {
      assert indices[i] != indices[j];
      var x, y := indices[i], indices[j];
      assert ps[i].0 == WIRE_NAMES[x] && ps[j].0 == WIRE_NAMES[y];
    }
    forall i | 0 <= i < |ps| ensures Get(ps, WIRE_NAMES[indices[i]]) == Some(values[i]) { GetAt(ps, i); }
    forall k | 0 <= k < 14 && k !in indices ensures Get(ps, WIRE_NAMES[k]) == None {
      GetSome(ps, WIRE_NAMES[k]);
    }
  }

  function TierText(t: Tier): Text {
    match t
    case Default => Ascii("default")
    case Workspace => Ascii("workspace")
    case User => Ascii("user")
    case Admin => Ascii("admin")
  }

  function VerdictJson(v: Verdict): Json {
    Obj(Named([10, 11, 12, 13],
              [Str(EffectText(v.decision)), Str(v.reason), Nullable(v.ruleId),
               if v.tier.None? then Null else Str(TierText(v.tier.value))]))
  }

  function ToJson(m: Message): Json {
    match m
    case ToolCallRequest(id, sessionId, tool, args, actor) =>
      Obj(Named([0, 1, 2, 3, 4, 5],
                [Str(id), Str(sessionId), Str(Ascii("tool_call_request")), Str(tool), Obj(args),
                 Str(ActorText(actor))]))
    case VerdictMessage(id, sessionId, verdict) =>
      Obj(Named([0, 1, 2, 6], [Str(id), Str(sessionId), Str(Ascii("policy_verdict")), VerdictJson(verdict)]))
    case ToolCallResult(id, sessionId, ok, None) =>
      Obj(Named([0, 1, 2, 7], [Str(id), Str(sessionId), Str(Ascii("tool_call_result")), Bool(ok)]))
    case ToolCallResult(id, sessionId, ok, Some(output)) =>
      Obj(Named([0, 1, 2, 7, 8], [Str(id), Str(sessionId), Str(Ascii("tool_call_result")), Bool(ok), output]))
    case ErrorMessage(id, sessionId, message) =>
      Obj(Named([0, 1, 2, 9], [Str(id), Str(sessionId), Str(Ascii("error")), Str(message)]))
  }

  function ReadEffect(v: Option<Json>): Option<Effect> {
    if v == Some(Str(EffectText(Allow))) then Some(Allow)
    else if v == Some(Str(EffectText(Deny))) then Some(Deny)
    else if v == Some(Str(EffectText(Require))) then Some(Require)
    else None
  }

  /** A tier that is null or missing reads as null; the outer None stands for a refused value. */
  function ReadTier(v: Option<Json>): Option<Option<Tier>> {
    if v == None || v == Some(Null) then Some(None)
    else if v == Some(Str(TierText(Default))) then Some(Some(Default))
    else if v == Some(Str(TierText(Workspace))) then Some(Some(Workspace))
    else if v == Some(Str(TierText(User))) then Some(Some(User))
    else if v == Some(Str(TierText(Admin))) then Some(Some(Admin))
    else None
  }

  function ReadVerdict(v: Option<Json>): Option<Verdict> {
    match ReadObject(v)
    case None => None
    case Some(ps) =>
      match (ReadEffect(Get(ps, WIRE_NAMES[10])), ReadText(Get(ps, WIRE_NAMES[11])),
             ReadDefaulted(Get(ps, WIRE_NAMES[12])), ReadTier(Get(ps, WIRE_NAMES[13])))
      case (Some(decision), Some(reason), Some(ruleId), Some(tier)) =>
        var verdict := Verdict(decision, reason, ruleId, tier);
        if VerdictAccepts(verdict) then Some(verdict) else None
      case _ => None
  }

  function ReadBool(v: Option<Json>): Option<bool> {
    match v
    case Some(Bool(b)) => Some(b)
    case _ => None
  }

  /** The message of the given kind, before the checks beyond the types; unknown keys are
      ignored. */
  function ReadKind(kind: Text, id: Text, sessionId: Text, ps: Props<Json>): Option<Message> {
    if kind == Ascii("tool_call_request") then
      match (ReadText(Get(ps, WIRE_NAMES[3])), ReadObject(Get(ps, WIRE_NAMES[4])), ReadActor(Get(ps, WIRE_NAMES[5])))
      case (Some(tool), Some(args), Some(actor)) => Some(ToolCallRequest(id, sessionId, tool, args, actor))
      case _ => None
    else if kind == Ascii("policy_verdict") then
      match ReadVerdict(Get(ps, WIRE_NAMES[6]))
      case Some(verdict) => Some(VerdictMessage(id, sessionId, verdict))
      case None => None
    else if kind == Ascii("tool_call_result") then
      match ReadBool(Get(ps, WIRE_NAMES[7]))
      case Some(ok) => Some(ToolCallResult(id, sessionId, ok, Get(ps, WIRE_NAMES[8])))
      case None => None
    else if kind == Ascii("error") then
      match ReadText(Get(ps, WIRE_NAMES[9]))
      case Some(message) => Some(ErrorMessage(id, sessionId, message))
      case None => None
    else None
  }

  function FromProps(ps: Props<Json>): (m: Option<Message>)
    ensures m.Some? ==> MessageAccepts(m.value)
  {
    match (ReadText(Get(ps, WIRE_NAMES[0])), ReadText(Get(ps, WIRE_NAMES[1])), ReadText(Get(ps, WIRE_NAMES[2])))
    case (Some(id), Some(sessionId), Some(kind)) =>
      var m := ReadKind(kind, id, sessionId, ps);
      if m.Some? && MessageAccepts(m.value) then m else None
    case _ => None
  }

  /** decodeMessage; None when it throws. */
  function Decode(line: Text): Option<Message> {
    match Parse(line)
    case Some(Obj(ps)) => FromProps(ps)
    case _ => None
  }

  /** encodeMessage; None when the message does not fit the schema and it throws. */
  function Encode(m: Message): Option<Text> {
    if MessageAccepts(m) then Some(Stringify(ToJson(m)) + [NEWLINE]) else None
  }

  // ----- Decoding undoes encoding -----

  lemma VerdictReadsBack(v: Verdict)
    requires VerdictAccepts(v)
    ensures Valid(VerdictJson(v)) && ReadVerdict(Some(VerdictJson(v))) == Some(v)
  {
    hide WIRE_NAMES, Named, Get, EffectText, TierText;
    var values := [Str(EffectText(v.decision)), Str(v.reason), Nullable(v.ruleId),
                   if v.tier.None? then Null else Str(TierText(v.tier.value))];
    var indices: seq<nat> := [10, 11, 12, 13];
    NamedGet(indices, values);
    assert indices[0] == 10 && indices[1] == 11 && indices[2] == 12 && indices[3] == 13;
    EffectReadsBack(v.decision);
    if v.tier.Some? { TierReadsBack(v.tier.value); }
  }

  lemma EffectReadsBack(e: Effect)
    ensures ReadEffect(Some(Str(EffectText(e)))) == Some(e)
  {
    assert |EffectText(Allow)| == 5 && |EffectText(Deny)| == 4 && |EffectText(Require)| == 7;
  }

  lemma TierReadsBack(t: Tier)
    ensures ReadTier(Some(Str(TierText(t)))) == Some(Some(t))
  {
    assert |TierText(Default)| == 7 && |TierText(Workspace)| == 9 && |TierText(User)| == 4 && |TierText(Admin)| == 5;
  }

  lemma KindsDistinct()
    ensures |Ascii("tool_call_request")| == 17 && |Ascii("policy_verdict")| == 14
    ensures |Ascii("tool_call_result")| == 16 && |Ascii("error")| == 5
  {
  }

  lemma MessageReadsBack(m: Message)
    requires MessageAccepts(m) && MessageValid(m)
    ensures Valid(ToJson(m)) && FromProps(ToJson(m).props) == Some(m)
  {
    match m
    case ToolCallRequest(_, _, _, _, _) => RequestReadsBack(m);
    case VerdictMessage(_, _, _) => VerdictMessageReadsBack(m);
    case ToolCallResult(_, _, _, _) => ResultReadsBack(m);
    case ErrorMessage(_, _, _) => ErrorReadsBack(m);
  }

  lemma RequestReadsBack(m: Message)
    requires m.ToolCallRequest? && MessageAccepts(m) && MessageValid(m)
    ensures Valid(ToJson(m)) && FromProps(ToJson(m).props) == Some(m)
  {
    hide WIRE_NAMES, Named, Get, ActorText, FromProps, Ascii;
    var indices: seq<nat> := [0, 1, 2, 3, 4, 5];
    assert indices[0] == 0 && indices[1] == 1 && indices[2] == 2;
    assert indices[3] == 3 && indices[4] == 4 && indices[5] == 5;
    NamedGet(indices, [Str(m.id), Str(m.sessionId), Str(Ascii("tool_call_request")), Str(m.tool), Obj(m.args),
                       Str(ActorText(m.actor))]);
    WireNamesDistinct();
    RequestFromProps(ToJson(m).props, m);
  }

  lemma RequestFromProps(ps: Props<Json>, m: Message)
    requires m.ToolCallRequest? && MessageAccepts(m) && |WIRE_NAMES| == 14
    requires Get(ps, WIRE_NAMES[0]) == Some(Str(m.id)) && Get(ps, WIRE_NAMES[1]) == Some(Str(m.sessionId))
    requires Get(ps, WIRE_NAMES[2]) == Some(Str(Ascii("tool_call_request")))
    requires Get(ps, WIRE_NAMES[3]) == Some(Str(m.tool)) && Get(ps, WIRE_NAMES[4]) == Some(Obj(m.args))
    requires Get(ps, WIRE_NAMES[5]) == Some(Str(ActorText(m.actor)))
    ensures FromProps(ps) == Some(m)
  {
    hide WIRE_NAMES, Get, ActorText, ReadActor, Ascii;
    ActorReadsBack(m.actor);
  }

  lemma VerdictMessageReadsBack(m: Message)
    requires m.VerdictMessage? && MessageAccepts(m)
    ensures Valid(ToJson(m)) && FromProps(ToJson(m).props) == Some(m)
  {
    hide WIRE_NAMES, Named, Get, VerdictJson, ReadVerdict, ReadActor, Ascii;
    KindsDistinct();
    var indices: seq<nat> := [0, 1, 2, 6];
    assert indices[0] == 0 && indices[1] == 1 && indices[2] == 2 && indices[3] == 6;
    NamedGet(indices, [Str(m.id), Str(m.sessionId), Str(Ascii("policy_verdict")), VerdictJson(m.verdict)]);
    VerdictReadsBack(m.verdict);
  }

  lemma ResultReadsBack(m: Message)
    requires m.ToolCallResult? && MessageAccepts(m) && MessageValid(m)
    ensures Valid(ToJson(m)) && FromProps(ToJson(m).props) == Some(m)
  {
    hide WIRE_NAMES, Named, Get, ReadVerdict, ReadActor, Ascii;
    KindsDistinct();
    if m.output.None? {
      var indices: seq<nat> := [0, 1, 2, 7];
      assert indices[0] == 0 && indices[1] == 1 && indices[2] == 2 && indices[3] == 7 && 8 !in indices;
      NamedGet(indices, [Str(m.id), Str(m.sessionId), Str(Ascii("tool_call_result")), Bool(m.ok)]);
    } else {
      OutputReadsBack(m);
    }
  }

  lemma OutputReadsBack(m: Message)
    requires m.ToolCallResult? && m.output.Some? && MessageAccepts(m) && MessageValid(m)
    ensures Valid(ToJson(m)) && FromProps(ToJson(m).props) == Some(m)
  {
    hide WIRE_NAMES, Named, Get, ReadVerdict, ReadActor, Ascii;
    KindsDistinct();
    var indices: seq<nat> := [0, 1, 2, 7, 8];
    assert indices[0] == 0 && indices[1] == 1 && indices[2] == 2 && indices[3] == 7 && indices[4] == 8;
    NamedGet(indices, [Str(m.id), Str(m.sessionId), Str(Ascii("tool_call_result")), Bool(m.ok), m.output.value]);
  }

  lemma ErrorReadsBack(m: Message)
    requires m.ErrorMessage? && MessageAccepts(m)
    ensures Valid(ToJson(m)) && FromProps(ToJson(m).props) == Some(m)
  {
    hide WIRE_NAMES, Named, Get, ReadVerdict, ReadActor, Ascii;
    KindsDistinct();
    var indices: seq<nat> := [0, 1, 2, 9];
    assert indices[0] == 0 && indices[1] == 1 && indices[2] == 2 && indices[3] == 9;
    NamedGet(indices, [Str(m.id), Str(m.sessionId), Str(Ascii("error")), Str(m.message)]);
  }

  /** The frame of a message, without its newline. */
  function FrameText(m: Message): Text { Stringify(ToJson(m)) }

  /** Decoding undoes encoding, and a frame is one line. */
  lemma DecodeEncode(m: Message)
    requires MessageAccepts(m) && MessageValid(m)
    ensures Encode(m) == Some(FrameText(m) + [NEWLINE])
    ensures Decode(FrameText(m)) == Some(m) && NEWLINE !in FrameText(m) && !IsBlank(FrameText(m))
  {
    hide FromProps, Stringify, Parse;
    MessageReadsBack(m);
    RoundTrip(ToJson(m));
    StringifyPrintable(ToJson(m));
    StringifyStart(ToJson(m));
  }
}
