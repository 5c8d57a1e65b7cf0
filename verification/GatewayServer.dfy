/** The control-plane end of the gateway: the replay guard and one response per frame. Frames of
    all connections arrive, and their handlers finish, in any order. */
module GatewayServer {
  import opened Utf16
  import opened Wrappers
  import opened Records
  import opened JsonText
  import opened Protocol

  /** A dispatched frame and the response it has got; None while its handler runs. */
  datatype Frame = Frame(connection: nat, message: Message, response: Option<Message>)

  datatype Write = Write(frame: nat, connection: nat, message: Message)

  /** The processed ids, and what has happened: the frames dispatched, the ids the handler was
      called with and the responses written. */
  datatype Server = Server(processed: set<Text>, frames: seq<Frame>, calls: seq<Text>, writes: seq<Write>)

  /** A frame arrives, or the handler of a frame returns a message or throws. */
  datatype Happening =
    | Arrive(connection: nat, message: Message)
    | Finish(frame: nat, result: Result<Message, Text>)

  function Failure(m: Message, text: Text): Message { ErrorMessage(m.id, m.sessionId, text) }

  function KindText(m: Message): Text {
    match m
    case ToolCallRequest(_, _, _, _, _) => Ascii("tool_call_request")
    case VerdictMessage(_, _, _) => Ascii("policy_verdict")
    case ToolCallResult(_, _, _, _) => Ascii("tool_call_result")
    case ErrorMessage(_, _, _) => Ascii("error")
  }

  const MISUSE_TEXT: Text := Ascii("server expects tool_call_request, got '")

  function MisuseText(m: Message): Text { MISUSE_TEXT + KindText(m) + Ascii("'") }

  const REPLAY_TEXT: Text := Ascii("duplicate/replayed request id rejected")

  /** The response to a finished handler: a throw becomes an error message. */
  function ResponseTo(m: Message, result: Result<Message, Text>): Message {
    match result
    case Ok(response) => response
    case Err(text) => Failure(m, Ascii("mediation failed: ") + text)
  }

  /** Encoding throws on a message outside the schema, and then nothing is written. */
  function Respond(writes: seq<Write>, w: Write): seq<Write> {
    if MessageAccepts(w.message) then writes + [w] else writes
  }

  predicate Enabled(s: Server, h: Happening) {
    h.Finish? ==> h.frame < |s.frames| && s.frames[h.frame].response.None?
  }

  /** The response that a message gets at once, if it does not reach the handler. */
  function Refusal(processed: set<Text>, m: Message): Option<Message> {
    if !m.ToolCallRequest? then Some(Failure(m, MisuseText(m)))
    else if m.id in processed then Some(Failure(m, REPLAY_TEXT))
    else None
  }

  /** A handler that is not running cannot finish: such an entry of a run is skipped. */
  function Step(s: Server, h: Happening): Server {
    if !Enabled(s, h) then s
    else
      match h
      case Arrive(connection, m) =>
        var n := |s.frames|;
        var refusal := Refusal(s.processed, m);
        var next := s.(frames := s.frames + [Frame(connection, m, refusal)]);
        if refusal.Some? then next.(writes := Respond(s.writes, Write(n, connection, refusal.value)))
        else next.(processed := s.processed + {m.id}, calls := s.calls + [m.id])
      case Finish(n, result) =>
        var frame := s.frames[n];
        var response := ResponseTo(frame.message, result);
        s.(frames := s.frames[n := frame.(response := Some(response))],
           writes := Respond(s.writes, Write(n, frame.connection, response)))
  }

  const START: Server := Server({}, [], [], [])

  function After(hs: seq<Happening>): Server {
    if |hs| == 0 then START else Step(After(hs[..|hs| - 1]), hs[|hs| - 1])
  }

  /** The server object: dispatching is synchronous up to the handler call, and the rest runs when
      the handler has finished. */
  class GatewayServer {
    var processed: set<Text>
    var frames: seq<Frame>
    var calls: seq<Text>
    var writes: seq<Write>

    function View(): Server
      reads this
    {
      Server(processed, frames, calls, writes)
    }

    constructor ()
      ensures View() == START
    {
      processed, frames, calls, writes := {}, [], [], [];
    }

    method Dispatch(connection: nat, m: Message)
      modifies this
      ensures View() == Step(old(View()), Arrive(connection, m))
    {
      var n := |frames|;
      if !m.ToolCallRequest? {
        var misuse := Failure(m, MisuseText(m));
        frames := frames + [Frame(connection, m, Some(misuse))];
        writes := Respond(writes, Write(n, connection, misuse));
        return;
      }
      if m.id in processed {
        var replay := Failure(m, REPLAY_TEXT);
        frames := frames + [Frame(connection, m, Some(replay))];
        writes := Respond(writes, Write(n, connection, replay));
        return;
      }
      processed := processed + {m.id};
      frames := frames + [Frame(connection, m, None)];
      calls := calls + [m.id];
    }

    method HandlerFinished(n: nat, result: Result<Message, Text>)
      requires Enabled(View(), Finish(n, result))
      modifies this
      ensures View() == Step(old(View()), Finish(n, result))
      ensures var f := old(frames[n]);
              writes == old(writes) +
                match result
                case Ok(response) => Written(Write(n, f.connection, response))
                case Err(text) =>
                  var m := ErrorMessage(f.message.id, f.message.sessionId, Ascii("mediation failed: ") + text);
                  Written(Write(n, f.connection, m))
    {
      FinishExactly(View(), n, result);
      var response: Message;
      match result {
        case Ok(message) => response := message;
        case Err(text) =>
          response :=
            ErrorMessage(frames[n].message.id, frames[n].message.sessionId, Ascii("mediation failed: ") + text);
      }
      frames := frames[n := frames[n].(response := Some(response))];
      writes := Respond(writes, Write(n, frames[n].connection, response));
    }
  }

  // ----- What is written -----

  /** A message that encodes is written, and one that does not is not. */
  function Written(w: Write): seq<Write> { if Encode(w.message).Some? then [w] else [] }

  lemma RespondExactly(writes: seq<Write>, w: Write)
    ensures Respond(writes, w) == writes + Written(w)
  {
    hide Stringify, ToJson;
  }

  /** A finished handler adds to the writes just its own message, if that encodes, or an error with the
      id and the session of the request and the text of what was thrown. */
  lemma FinishExactly(s: Server, n: nat, result: Result<Message, Text>)
    requires Enabled(s, Finish(n, result))
    ensures var t := Step(s, Finish(n, result));
            var f := s.frames[n];
            && t.processed == s.processed && t.calls == s.calls
            && (forall k :: 0 <= k < |s.frames| && k != n ==> t.frames[k] == s.frames[k]) && |t.frames| == |s.frames|
            && t.writes == s.writes +
                 match result
                 case Ok(response) => Written(Write(n, f.connection, response))
                 case Err(text) =>
                   var m := ErrorMessage(f.message.id, f.message.sessionId, Ascii("mediation failed: ") + text);
                   Written(Write(n, f.connection, m))
  {
    hide Respond, Written;
    RespondExactly(s.writes, Write(n, s.frames[n].connection, ResponseTo(s.frames[n].message, result)));
  }

  /** The error text for a message that is no request names its kind on the wire, in single quotes. */
  function RefusalText(m: Message): Text {
    if m.ToolCallRequest? then REPLAY_TEXT else MISUSE_TEXT + TextOf(Get(ToJson(m).props, Ascii("kind"))) + [39]
  }

  function TextOf(v: Option<Json>): Text { if v.Some? && v.value.Str? then v.value.s else [] }

  lemma RefusalTexts(m: Message)
    ensures RefusalText(m) == if m.ToolCallRequest? then REPLAY_TEXT else MisuseText(m)
  {
    KindOnTheWire(m);
    hide ToJson, KindText, MISUSE_TEXT, REPLAY_TEXT;
    assert Ascii("'") == [39];
  }

  lemma KindOnTheWire(m: Message)
    ensures Get(ToJson(m).props, Ascii("kind")) == Some(Str(KindText(m)))
  {
    var ps := ToJson(m).props;
    KindName();
    WireNamesDistinct();
    hide WIRE_NAMES, Ascii, KindText, VerdictJson;
    assert ps[0].0 == WIRE_NAMES[0] && ps[1].0 == WIRE_NAMES[1] && ps[2] == (WIRE_NAMES[2], Str(KindText(m))) by {
      KindThird(m);
    }
    GetThird(ps, WIRE_NAMES[2]);
  }

  lemma KindName()
    ensures |WIRE_NAMES| == 14 && WIRE_NAMES[2] == Ascii("kind")
  {
    hide Ascii;
  }

  lemma KindThird(m: Message)
    ensures var ps := ToJson(m).props;
            |WIRE_NAMES| == 14 && |ps| > 2 && ps[0].0 == WIRE_NAMES[0] && ps[1].0 == WIRE_NAMES[1] &&
            ps[2] == (WIRE_NAMES[2], Str(KindText(m)))
  {
    hide Ascii, VerdictJson;
  }

  lemma GetThird(ps: Props<Json>, name: Text)
    requires |ps| > 2 && ps[0].0 != name && ps[1].0 != name && ps[2].0 == name
    ensures Get(ps, name) == Some(ps[2].1)
  {
    assert Get(ps, name) == Get(ps[1..], name);
    assert Get(ps[1..], name) == Get(ps[1..][1..], name);
  }

  /** An arriving frame is refused with one error, or it is the first request with its id, and then the
      handler is called and nothing is written. */
  lemma ArriveExactly(s: Server, connection: nat, m: Message)
    ensures var t := Step(s, Arrive(connection, m));
            && t.frames[..|s.frames|] == s.frames && |t.frames| == |s.frames| + 1
            && t.frames[|s.frames|].connection == connection && t.frames[|s.frames|].message == m
            && if m.ToolCallRequest? && m.id !in s.processed
               then t.processed == s.processed + {m.id} && t.calls == s.calls + [m.id] && t.writes == s.writes
               else
                 && t.processed == s.processed && t.calls == s.calls
                 && t.writes == s.writes +
                      Written(Write(|s.frames|, connection, ErrorMessage(m.id, m.sessionId, RefusalText(m))))
  {
    hide Respond, Written, RefusalText, MisuseText, REPLAY_TEXT;
    RefusalTexts(m);
    RespondExactly(s.writes, Write(|s.frames|, connection, ErrorMessage(m.id, m.sessionId, RefusalText(m))));
  }

  /** What an entry of a run writes for a frame. */
  ghost predicate Explains(before: Server, h: Happening, w: Write) {
    match h
    case Arrive(connection, m) =>
      && w == Write(|before.frames|, connection, ErrorMessage(m.id, m.sessionId, RefusalText(m)))
      && (!m.ToolCallRequest? || m.id in before.processed)
    case Finish(n, result) =>
      && Enabled(before, h)
      && w.frame == n && w.connection == before.frames[n].connection
      && match result
         case Ok(response) => w.message == response
         case Err(text) =>
           w.message == ErrorMessage(before.frames[n].message.id, before.frames[n].message.sessionId,
                                     Ascii("mediation failed: ") + text)
  }

  ghost predicate Explained(hs: seq<Happening>, w: Write) {
    exists k :: 0 <= k < |hs| && Explains(After(hs[..k]), hs[k], w)
  }

  /** Whatever is written in any run: it is the refusal of a frame or what the handler of its frame has
      returned, or the error that stands for what it has thrown, on the connection of the frame. */
  lemma {:induction false} WritesExplained(hs: seq<Happening>)
    ensures forall w :: w in After(hs).writes ==> Explained(hs, w)
  {
    hide After, Explains, Step;
    if |hs| > 0 {
      var k := |hs| - 1;
      var front := hs[..k];
      WritesExplained(front);
      AfterLast(hs);
      forall w | w in After(hs).writes ensures Explained(hs, w) {
        if w in After(front).writes {
          var i :| 0 <= i < |front| && Explains(After(front[..i]), front[i], w);
          assert front[..i] == hs[..i] && front[i] == hs[i];
        } else {
          NewWrite(After(front), hs[k], w);
        }
      }
    } else {
      NothingWritten(hs);
    }
  }

  lemma AfterLast(hs: seq<Happening>)
    requires |hs| > 0
    ensures After(hs) == Step(After(hs[..|hs| - 1]), hs[|hs| - 1])
  {
  }

  lemma NothingWritten(hs: seq<Happening>)
    requires |hs| == 0
    ensures After(hs).writes == []
  {
  }

  lemma NewWrite(s: Server, h: Happening, w: Write)
    requires w in Step(s, h).writes && w !in s.writes
    ensures Explains(s, h, w)
  {
    hide Step, Ascii, RefusalText, Stringify, ToJson, MessageAccepts;
    if !Enabled(s, h) {
      SkippedStep(s, h);
    } else {
      match h
      case Arrive(connection, m) => ArriveExactly(s, connection, m);
      case Finish(n, result) => FinishExactly(s, n, result);
    }
  }

  lemma SkippedStep(s: Server, h: Happening)
    requires !Enabled(s, h)
    ensures Step(s, h) == s
  {
  }

  // ----- Safety -----

  /** Ids of requests that were dispatched. */
  ghost predicate Requested(s: Server, id: Text) {
    exists n :: 0 <= n < |s.frames| && s.frames[n].message.ToolCallRequest? && s.frames[n].message.id == id
  }

  ghost predicate Safe(s: Server) {
    && Distinct(s.calls)
    && (forall id :: id in s.calls <==> id in s.processed)
    && (forall id :: id in s.processed <==> Requested(s, id))
    && (forall i, j :: 0 <= i < j < |s.writes| ==> s.writes[i].frame != s.writes[j].frame)
    && (forall i :: 0 <= i < |s.writes| ==> s.writes[i].frame < |s.frames|)
    && (forall n :: 0 <= n < |s.frames| ==> FrameSafe(s, n))
  }

  /** What is written for a frame is its response, on its own connection, as soon as it has one that
      encodes; and nothing else. */
  ghost predicate FrameSafe(s: Server, n: nat)
    requires n < |s.frames|
  {
    var f := s.frames[n];
    && (forall w :: w in s.writes && w.frame == n ==>
          f.response == Some(w.message) && w.connection == f.connection && MessageAccepts(w.message))
    && (f.response.Some? && MessageAccepts(f.response.value) ==>
          Write(n, f.connection, f.response.value) in s.writes)
  }

  lemma StepSafe(s: Server, h: Happening)
    requires Safe(s)
    ensures Safe(Step(s, h))
  {
    hide Respond, Refusal, MisuseText, ResponseTo, Failure, REPLAY_TEXT, MISUSE_TEXT;
    var t := Step(s, h);
    if !Enabled(s, h) { return; }
    match h
    case Arrive(connection, m) =>
      var n := |s.frames|;
      RefusalExactly(s, m);
      assert t.frames[n].message == m;
      forall id ensures Requested(t, id) <==> Requested(s, id) || (m.ToolCallRequest? && m.id == id) {
        if Requested(s, id) {
          var k :| 0 <= k < |s.frames| && s.frames[k].message.ToolCallRequest? && s.frames[k].message.id == id;
          assert t.frames[k] == s.frames[k];
        }
      }
      if t.frames[n].response.Some? {
        RespondSafe(s, t, n);
      } else {
        assert forall k :: 0 <= k < n ==> FrameSafe(s, k) ==> FrameSafe(t, k);
      }
    case Finish(n, result) =>
      forall id ensures Requested(t, id) <==> Requested(s, id) {
        assert forall k :: 0 <= k < |s.frames| ==> t.frames[k].message == s.frames[k].message;
      }
      assert FrameSafe(s, n);
      RespondSafe(s, t, n);
  }

  lemma RefusalExactly(s: Server, m: Message)
    ensures Refusal(s.processed, m).None? <==> m.ToolCallRequest? && m.id !in s.processed
  {
  }

  /** Writing the response of a frame that has had none keeps the responses apart. */
  lemma RespondSafe(s: Server, t: Server, n: nat)
    requires forall i, j :: 0 <= i < j < |s.writes| ==> s.writes[i].frame != s.writes[j].frame
    requires forall i :: 0 <= i < |s.writes| ==> s.writes[i].frame < |s.frames|
    requires forall k :: 0 <= k < |s.frames| ==> FrameSafe(s, k)
    requires n <= |s.frames| && |t.frames| == if n < |s.frames| then |s.frames| else n + 1
    requires n < |s.frames| ==> s.frames[n].response.None?
    requires forall k :: 0 <= k < |s.frames| && k != n ==> t.frames[k] == s.frames[k]
    requires t.frames[n].response.Some?
    requires t.writes == Respond(s.writes, Write(n, t.frames[n].connection, t.frames[n].response.value))
    ensures forall i, j :: 0 <= i < j < |t.writes| ==> t.writes[i].frame != t.writes[j].frame
    ensures forall i :: 0 <= i < |t.writes| ==> t.writes[i].frame < |t.frames|
    ensures forall k :: 0 <= k < |t.frames| ==> FrameSafe(t, k)
  {
    forall i | 0 <= i < |s.writes| ensures s.writes[i].frame != n {
      assert FrameSafe(s, s.writes[i].frame);
      assert s.writes[i] in s.writes;
    }
    forall k | 0 <= k < |t.frames| ensures FrameSafe(t, k) {
      if k != n { assert FrameSafe(s, k); }
    }
  }

  /** In every run the handler is called exactly once for each request id that arrives, whatever
      the connections and replays; every frame gets no response while its handler runs, and exactly
      one, on its own connection, once it has a response that encodes. */
  lemma {:induction false} RunSafe(hs: seq<Happening>)
    ensures Safe(After(hs))
  {
    hide Step, Safe;
    if |hs| > 0 {
      RunSafe(hs[..|hs| - 1]);
      StepSafe(After(hs[..|hs| - 1]), hs[|hs| - 1]);
    } else {
      StartSafe();
    }
  }

  lemma StartSafe()
    ensures Safe(START)
  {
  }

  /** A request whose id was processed before reaches no handler and is refused; so is any message
      that is not a request. */
  lemma RefusedAtOnce(hs: seq<Happening>, connection: nat, m: Message)
    requires MessageAccepts(m)
    requires !m.ToolCallRequest? || Requested(After(hs), m.id)
    ensures var s, t := After(hs), Step(After(hs), Arrive(connection, m));
            && t.calls == s.calls && t.processed == s.processed && t.frames[|s.frames|].response.Some?
            && |t.writes| == |s.writes| + 1
            && t.writes[|s.writes|].message.ErrorMessage? && t.writes[|s.writes|].message.id == m.id
            && t.writes[|s.writes|].frame == |s.frames|
  {
    RunSafe(hs);
    assert |MisuseText(m)| > 0 && |REPLAY_TEXT| > 0;
  }
}
