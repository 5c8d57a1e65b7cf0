/** A live session: the scripted harness process with its back-pressure, the adapter that turns hook
    events into requests and verdicts into hook decisions, and the driver that gates every call. */
module LiveSession {
  import opened Utf16
  import opened Wrappers
  import opened Records
  import opened JsonText
  import opened Events
  import opened Policy
  import opened Protocol
  import opened Governance
  import opened GovernanceSafety

  // ----- The harness process -----

  datatype ToolStep = ToolStep(tool: Text, args: Props<Json>)

  datatype HookDecision = Allowed | Blocked(reason: Text)

  datatype Response = Response(callId: Text, decision: HookDecision)

  /** The waiters are the ids of the hooks that block, in the order of the map. */
  datatype Process = Process(
    script: seq<ToolStep>, sessionId: Text, next: nat, waiters: seq<Text>, responses: seq<Response>, stopped: bool)

  function CallId(sessionId: Text, i: nat): Text { sessionId + Ascii("-call-") + Digits(i + 1) }

  function Without(waiters: seq<Text>, id: Text): (r: seq<Text>)
    ensures forall w :: w in r <==> w in waiters && w != id
  {
    if |waiters| == 0 then []
    else if waiters[0] == id then Without(waiters[1..], id)
    else [waiters[0]] + Without(waiters[1..], id)
  }

  function Respond(p: Process, callId: Text, decision: HookDecision): Process {
    p.(responses := p.responses + [Response(callId, decision)], waiters := Without(p.waiters, callId))
  }

  /** Every blocked hook is answered as a denial. */
  function Stopped(p: Process, callIds: seq<Text>): Process
    decreases |callIds|
  {
    if |callIds| == 0 then p.(stopped := true)
    else Stopped(Respond(p, callIds[0], Blocked(Ascii("session terminated"))), callIds[1..])
  }

  // ----- The adapter -----

  /** The hook decision that a delivered message stands for. */
  function DecisionFor(m: Message): Option<HookDecision> {
    match m
    case VerdictMessage(_, _, v) => Some(if v.decision == Deny then Blocked(v.reason) else Allowed)
    case ToolCallResult(_, _, _, _) => Some(Allowed)
    case ErrorMessage(_, _, text) => Some(Blocked(text))
    case ToolCallRequest(_, _, _, _, _) => None
  }

  function Deliver(p: Process, m: Message): Process {
    match DecisionFor(m)
    case None => p
    case Some(d) => Respond(p, m.id, d)
  }

  function RequestFor(sessionId: Text, i: nat, step: ToolStep): Request {
    ToolCallRequest(CallId(sessionId, i), sessionId, step.tool, step.args, ClaudeProcess)
  }

  /** What the process sees of the daemon's acts. */
  function Absorb(p: Process, acts: seq<Act>): Process {
    if |acts| == 0 then p
    else
      var a := acts[|acts| - 1];
      var before := Absorb(p, acts[..|acts| - 1]);
      if a.Delivered? then Deliver(before, a.message) else before
  }

  // ----- The driver -----

  datatype Phase = Running | Done | Crashed

  /** The outcomes are the calls whose continuation has run; failed says that a heartbeat in one of
      them threw; ended holds the count in session.ended. */
  datatype Live = Live(
    process: Process, loop: Loop, outcomes: seq<nat>, failed: bool, phase: Phase, ended: Option<nat>)

  /** The process emits its next hook event; a promise that a gate awaits settles; the continuation
      of a finished gate runs, with its heartbeat; the driver, whose process has run to its end, ends
      the session once all continuations have run, or throws if a heartbeat has thrown. */
  datatype Event =
    | Emit(passes: nat)
    | Settle(h: Happening)
    | Push(task: nat, renewed: bool)
    | End(ok: bool)

  predicate Enabled(l: Live, e: Event) {
    && l.phase == Running
    && match e
       case Emit(_) => l.process.next < |l.process.script| && l.process.waiters == [] && !l.process.stopped
       case Settle(h) => !h.Begin? && (h.DeliverDone? ==> h.ok)
       case Push(n, _) => At(l.loop, n, Finished) && n !in l.outcomes
       case End(_) =>
         && l.process.next == |l.process.script| && l.process.waiters == []
         && (l.failed || |l.outcomes| == |l.loop.tasks|)
  }

  /** The loop takes a step and the process absorbs what the daemon delivers in it. */
  function Advance(cfg: Setting, l: Live, process: Process, h: Happening): Live {
    var loop := Governance.Step(cfg, l.loop, h);
    StepExtends(cfg, l.loop, h);
    l.(loop := loop, process := Absorb(process, loop.trace[|l.loop.trace|..]))
  }

  lemma StepExtends(cfg: Setting, s: Loop, h: Happening)
    ensures s.trace <= Governance.Step(cfg, s, h).trace
  {
    hide Move;
  }

  function Step(cfg: Setting, l: Live, e: Event): Live {
    if !Enabled(l, e) then l
    else
      match e
      case Emit(passes) =>
        var p := l.process;
        var req := RequestFor(p.sessionId, p.next, p.script[p.next]);
        Advance(cfg, l, p.(next := p.next + 1, waiters := [req.id]), Begin(GateOnly, req, passes))
      case Settle(h) => Advance(cfg, l, l.process, h)
      case Push(n, renewed) => l.(outcomes := l.outcomes + [n], failed := l.failed || !renewed)
      case End(ok) =>
        if l.failed then l.(phase := Crashed)
        else
          var stopped := l.(process := Stopped(l.process, l.process.waiters));
          if ok then stopped.(phase := Done, ended := Some(|l.outcomes|)) else stopped.(phase := Crashed)
  }

  function Opened(sessionId: Text, script: seq<ToolStep>): Live {
    Live(Process(script, sessionId, 0, [], [], false), IDLE, [], false, Running, None)
  }

  function After(cfg: Setting, sessionId: Text, script: seq<ToolStep>, es: seq<Event>): Live {
    if |es| == 0 then Opened(sessionId, script)
    else Step(cfg, After(cfg, sessionId, script, es[..|es| - 1]), es[|es| - 1])
  }

  /** The session's journal: the events of the loop between session.started and session.ended. */
  datatype Entry = SessionStarted(sessionId: Text) | Within(note: Note) | SessionEnded(sessionId: Text, calls: nat)

  function Inside(notes: seq<Note>): (r: seq<Entry>)
    ensures |r| == |notes| && forall i :: 0 <= i < |r| ==> r[i] == Within(notes[i])
  {
    seq(|notes|, i requires 0 <= i < |notes| => Within(notes[i]))
  }

  function SessionJournal(l: Live): seq<Entry> {
    [SessionStarted(l.process.sessionId)] + Inside(JournalOf(l.loop.trace)) +
    (if l.ended.Some? then [SessionEnded(l.process.sessionId, l.ended.value)] else [])
  }

  // ----- The process and adapter objects -----

  class InMemoryClaudeProcess {
    const script: seq<ToolStep>
    var sessionId: Text
    var next: nat
    var waiters: seq<Text>
    var responses: seq<Response>
    var stopped: bool

    function View(): Process
      reads this
    {
      Process(script, sessionId, next, waiters, responses, stopped)
    }

    constructor (script: seq<ToolStep>)
      ensures View() == Process(script, [], 0, [], [], false)
    {
      this.script, sessionId, next, waiters, responses, stopped := script, [], 0, [], [], false;
    }

    method Start(sessionId: Text)
      modifies this
      ensures View() == old(View()).(sessionId := sessionId)
    {
      this.sessionId := sessionId;
    }

    method RespondTo(callId: Text, decision: HookDecision)
      modifies this
      ensures View() == Respond(old(View()), callId, decision)
    {
      responses := responses + [Response(callId, decision)];
      if callId in waiters {
        waiters := Without(waiters, callId);
      } else {
        AbsentWaiter(waiters, callId);
      }
    }

    /** One turn of the loop of run: the hook blocks, and the event goes to the adapter. */
    method EmitNext() returns (req: Request)
      requires next < |script| && waiters == [] && !stopped
      modifies this
      ensures req == RequestFor(sessionId, old(next), script[old(next)])
      ensures View() == old(View()).(next := old(next) + 1, waiters := [req.id])
    {
      var step := script[next];
      var callId := CallId(sessionId, next);
      waiters := waiters + [callId];
      req := ToolCallRequest(callId, sessionId, step.tool, step.args, ClaudeProcess);
      next := next + 1;
    }

    method StopAll()
      modifies this
      ensures View() == Stopped(old(View()), old(waiters))
    {
      stopped := true;
      var callIds := waiters;
      ghost var start := View();
      StopFirst(old(View()), callIds);
      for i := 0 to |callIds|
        invariant Stopped(View(), callIds[i..]) == Stopped(start, callIds) && stopped
      {
        assert callIds[i..][1..] == callIds[i + 1..];
        RespondTo(callIds[i], Blocked(Ascii("session terminated")));
      }
    }
  }

  lemma {:induction false} AbsentWaiter(waiters: seq<Text>, id: Text)
    requires id !in waiters
    ensures Without(waiters, id) == waiters
  {
    if |waiters| > 0 { AbsentWaiter(waiters[1..], id); }
  }

  lemma {:induction false} StopFirst(p: Process, callIds: seq<Text>)
    ensures Stopped(p.(stopped := true), callIds) == Stopped(p, callIds)
    decreases |callIds|
  {
    if |callIds| > 0 {
      StopFirst(Respond(p, callIds[0], Blocked(Ascii("session terminated"))), callIds[1..]);
    }
  }

  class ClaudeCodeIntendant {
    const process: InMemoryClaudeProcess

    constructor (process: InMemoryClaudeProcess)
      ensures this.process == process
    {
      this.process := process;
    }

    method StartSession(sessionId: Text)
      modifies process
      ensures process.View() == old(process.View()).(sessionId := sessionId)
    {
      process.Start(sessionId);
    }

    method DeliverMessage(m: Message)
      modifies process
      ensures process.View() == Deliver(old(process.View()), m)
    {
      match m
      case VerdictMessage(id, _, v) =>
        if v.decision == Deny {
          process.RespondTo(id, Blocked(v.reason));
        } else {
          process.RespondTo(id, Allowed);
        }
      case ToolCallResult(id, _, _, _) => process.RespondTo(id, Allowed);
      case ErrorMessage(id, _, text) => process.RespondTo(id, Blocked(text));
      case ToolCallRequest(_, _, _, _, _) =>
    }
  }

  // ----- The invariant -----

  predicate HasDelivered(t: Task) { t.stage == Delivering || t.stage == Finished }

  /** The words of the first k calls, one after the other. */
  function Words(cfg: Setting, tasks: seq<Task>, k: nat): seq<Act>
    requires k <= |tasks|
  {
    if k == 0 then [] else Words(cfg, tasks, k - 1) + Word(cfg, k - 1, tasks[k - 1])
  }

  function Responses(acts: seq<Act>): seq<Response> {
    if |acts| == 0 then []
    else
      var a := acts[|acts| - 1];
      Responses(acts[..|acts| - 1]) +
      if a.Delivered? && DecisionFor(a.message).Some?
      then [Response(a.message.id, DecisionFor(a.message).value)] else []
  }

  ghost predicate Asked(l: Live, i: nat)
    requires i < |l.loop.tasks| <= |l.process.script|
  {
    var t := l.loop.tasks[i];
    t.mode == GateOnly && t.req == RequestFor(l.process.sessionId, i, l.process.script[i])
  }

  /** At most the last call has not delivered; it alone blocks the process. */
  ghost predicate InOrder(cfg: Setting, l: Live) {
    var n := |l.loop.tasks|;
    var p := l.process;
    && n == p.next <= |p.script|
    && (forall i :: 0 <= i < n ==> Asked(l, i))
    && (forall i :: 0 <= i < n - 1 ==> HasDelivered(l.loop.tasks[i]))
    && p.waiters == (if n > 0 && !HasDelivered(l.loop.tasks[n - 1]) then [CallId(p.sessionId, n - 1)] else [])
    && (if n == 0 then l.loop.trace == []
        else l.loop.trace == Words(cfg, l.loop.tasks, n - 1) + By(l.loop.trace, n - 1))
    && p.responses == Responses(l.loop.trace)
  }

  ghost predicate Good(cfg: Setting, l: Live) {
    && Governance.Consistent(cfg, l.loop)
    && InOrder(cfg, l)
    && (forall i :: 0 <= i < |l.outcomes| ==> l.outcomes[i] < |l.loop.tasks|)
    && Distinct(l.outcomes)
    && (l.phase == Running ==> l.ended == None && !l.process.stopped)
    && (l.phase == Done ==>
          && !l.failed
          && l.process.next == |l.process.script| && l.process.waiters == [] && l.process.stopped
          && |l.outcomes| == |l.loop.tasks| && l.ended == Some(|l.outcomes|))
  }

  lemma {:induction false} ResponsesConcat(a: seq<Act>, b: seq<Act>)
    ensures Responses(a + b) == Responses(a) + Responses(b)
  {
    if |b| == 0 {
      assert a + b == a;
    } else {
      assert (a + b)[..|a + b| - 1] == a + b[..|b| - 1];
      ResponsesConcat(a, b[..|b| - 1]);
    }
  }

  predicate IsAnswer(a: Act, id: Text) { a.Delivered? && DecisionFor(a.message).Some? && a.message.id == id }

  predicate Answers(acts: seq<Act>, id: Text) {
    |acts| > 0 && (Answers(acts[..|acts| - 1], id) || IsAnswer(acts[|acts| - 1], id))
  }

  lemma WithoutOne(id: Text, other: Text)
    ensures Without([], other) == []
    ensures Without([id], other) == if other == id then [] else [id]
  {
  }

  lemma {:induction false} AbsorbOnly(p: Process, acts: seq<Act>, id: Text)
    requires p.waiters == [id] || p.waiters == []
    ensures var q := Absorb(p, acts);
            && q == p.(responses := p.responses + Responses(acts), waiters := q.waiters)
            && q.waiters == (if Answers(acts, id) then [] else p.waiters)
  {
    hide DecisionFor, Without;
    if |acts| == 0 {
      assert p.responses + [] == p.responses;
    } else {
      var front, a := acts[..|acts| - 1], acts[|acts| - 1];
      AbsorbOnly(p, front, id);
      var before := Absorb(p, front);
      if a.Delivered? {
        WithoutOne(id, a.message.id);
        assert before.waiters == [] || before.waiters == [id];
      }
      assert p.responses + (Responses(front) + []) == p.responses + Responses(front) + [];
    }
  }

  // ----- One step -----

  /** A call of the gate delivers once, in its last stretch. */
  lemma GateMove(cfg: Setting, s: Loop, h: Happening)
    requires Governance.Enabled(s, h) && Governance.Consistent(cfg, s) && (h.DeliverDone? ==> h.ok)
    requires if h.Begin? then h.mode == GateOnly else s.tasks[h.task].mode == GateOnly
    ensures var (acts, t) := Move(cfg, s, h);
            && t.mode == GateOnly
            && (if h.Begin? then t.req == h.req
                else var u := s.tasks[h.task];
                     && t.req == u.req && (HasDelivered(u) ==> acts == [] && t == u.(stage := Finished))
                     && !Answers([], t.req.id)
                     && (HasDelivered(t) <==> HasDelivered(u) || Answers(acts, t.req.id)))
            && (h.Begin? ==> (HasDelivered(t) <==> Answers(acts, t.req.id)))
  {
    hide Judge, Argv, EffectiveVerdict, By, Word, Opening, Resume;
    if !h.Begin? { NeverExecutes(cfg, s, h.task); }
    match h
    case Begin(mode, req, passes) => OpeningAnswers(cfg, |s.tasks|, req, passes);
    case Posted(n, ok) =>
    case Answered(n, answer, passes) => ResumeAnswers(cfg, n, s.tasks[n].req, answer, passes);
    case _ =>
  }

  lemma NeverExecutes(cfg: Setting, s: Loop, n: nat)
    requires Governance.Consistent(cfg, s) && n < |s.tasks| && s.tasks[n].mode == GateOnly
    ensures s.tasks[n].stage != Executing
  {
    hide By, Word, Judge, Argv;
    assert OnTrack(cfg, n, s.tasks[n], By(s.trace, n));
  }

  lemma ConcludeAnswers(cfg: Setting, n: nat, req: Request, v: Verdict, allow: bool, passes: nat, first: Act)
    requires first.Noted?
    ensures var r := Conclude(cfg, n, GateOnly, req, v, allow, passes);
            && (Answers([first] + r.acts, req.id) <==> r.stage == Delivering)
            && r.stage in {Delivering, Aborted}
  {
    hide EffectiveVerdict;
    var r := Conclude(cfg, n, GateOnly, req, v, allow, passes);
    if passes > 0 {
      var acts := [first] + r.acts;
      assert IsAnswer(acts[2], req.id);
      assert Answers(acts, req.id);
    } else {
      assert [first] + [] == [first];
      assert [first][..0] == [];
    }
  }

  lemma OneNote(first: Act, id: Text)
    requires first.Noted?
    ensures !Answers([first], id)
  {
    assert [first][..0] == [];
  }

  lemma OpeningAnswers(cfg: Setting, n: nat, req: Request, passes: nat)
    ensures var r := Opening(cfg, n, GateOnly, req, passes);
            (Answers(r.acts, req.id) <==> r.stage == Delivering) && r.stage != Finished
  {
    hide Judge, Conclude, Answers;
    assert !Answers([], req.id) by { NoAnswer(req.id); }
    if Judge(cfg, req).Ok? && passes > 0 {
      var v := Judge(cfg, req).value;
      var first := Noted(n, JudgedNote(req, v));
      OneNote(first, req.id);
      ConcludeAnswers(cfg, n, req, v, v.decision == Allow, passes - 1, first);
    }
  }

  lemma NoAnswer(id: Text)
    ensures !Answers([], id)
  {
  }

  lemma ResumeAnswers(cfg: Setting, n: nat, req: Request, answer: Answer, passes: nat)
    ensures var r := Resume(cfg, n, GateOnly, req, answer, passes);
            (Answers(r.acts, req.id) <==> r.stage == Delivering) && r.stage != Finished
  {
    hide Judge, Conclude, Answers;
    NoAnswer(req.id);
    if Judge(cfg, req).Ok? && passes > 0 {
      var first := Noted(n, Settled(req.id, answer));
      ConcludeAnswers(cfg, n, req, Judge(cfg, req).value, Approves(answer), passes - 1, first);
    }
  }

  /** Words depend on everything of the calls but their stages. */
  lemma {:induction false} WordsSame(cfg: Setting, tasks: seq<Task>, others: seq<Task>, k: nat)
    requires k <= |tasks| && k <= |others|
    requires forall i :: 0 <= i < k ==> others[i] == tasks[i].(stage := others[i].stage)
    ensures Words(cfg, tasks, k) == Words(cfg, others, k)
  {
    hide Word;
    if k > 0 {
      WordsSame(cfg, tasks, others, k - 1);
      WordIgnoresStage(cfg, k - 1, tasks[k - 1], others[k - 1]);
    }
  }

  lemma AbsorbStep(cfg: Setting, l: Live, process: Process, h: Happening, id: Text)
    requires Governance.Enabled(l.loop, h)
    requires process.waiters == [id] || process.waiters == []
    ensures var acts := Move(cfg, l.loop, h).0;
            var next := Advance(cfg, l, process, h);
            && next.loop == Governance.Step(cfg, l.loop, h)
            && next.loop.trace == l.loop.trace + acts
            && next == l.(loop := next.loop, process := next.process)
            && next.process ==
                 process.(responses := process.responses + Responses(acts), waiters := next.process.waiters)
            && next.process.waiters == (if Answers(acts, id) then [] else process.waiters)
  {
    hide Move, Absorb, Answers, Responses;
    var acts := Move(cfg, l.loop, h).0;
    assert Governance.Step(cfg, l.loop, h).trace[|l.loop.trace|..] == acts;
    AbsorbOnly(process, acts, id);
  }

  lemma SettleGood(cfg: Setting, l: Live, h: Happening)
    requires Good(cfg, l) && Enabled(l, Settle(h))
    ensures Good(cfg, Step(cfg, l, Settle(h)))
  {
    hide Governance.Consistent, Move, Advance, InOrder, Words;
    if Governance.Enabled(l.loop, h) {
      StepConsistent(cfg, l.loop, h);
      SettleInOrder(cfg, l, h);
    } else {
      NothingSettles(cfg, l, h);
    }
  }

  lemma SettleInOrder(cfg: Setting, l: Live, h: Happening)
    requires Good(cfg, l) && Enabled(l, Settle(h)) && Governance.Enabled(l.loop, h)
    ensures var next := Step(cfg, l, Settle(h));
            InOrder(cfg, next) && next == l.(loop := next.loop, process := next.process) &&
            next.loop == Governance.Step(cfg, l.loop, h) &&
            !next.process.stopped
  {
    hide Governance.Consistent, Move, Absorb, Answers, Responses, Word, By, Advance, Words;
    var n := |l.loop.tasks|;
    var m := h.task;
    var p := l.process;
    var (acts, u) := Move(cfg, l.loop, h);
    assert Asked(l, m);
    GateMove(cfg, l.loop, h);
    var last := CallId(p.sessionId, n - 1);
    AbsorbStep(cfg, l, p, h, last);
    var next := Step(cfg, l, Settle(h));
    assert next.loop.tasks == l.loop.tasks[m := u];
    NoAnswer(last);
    ResponsesConcat(l.loop.trace, acts);
    SettleTrace(cfg, l.loop, h, next.loop);
    forall i | 0 <= i < n ensures Asked(next, i) {
      assert Asked(l, i);
    }
  }

  /** Only the last call can still act. */
  lemma SettleTrace(cfg: Setting, s: Loop, h: Happening, next: Loop)
    requires Governance.Enabled(s, h) && !h.Begin? && next == Governance.Step(cfg, s, h)
    requires h.task < |s.tasks| - 1 ==> Move(cfg, s, h).0 == []
    requires var t := s.tasks[h.task];
             var u := Move(cfg, s, h).1;
             h.task < |s.tasks| - 1 ==> u == t.(stage := u.stage)
    requires var n := |s.tasks|; s.trace == Words(cfg, s.tasks, n - 1) + By(s.trace, n - 1)
    ensures var n := |next.tasks|;
            n == |s.tasks| && next.trace == Words(cfg, next.tasks, n - 1) + By(next.trace, n - 1)
  {
    hide Move, Word, By, Words;
    var n := |s.tasks|;
    var (acts, u) := Move(cfg, s, h);
    OwnActs(cfg, s, h);
    ByConcat(s.trace, acts, h.task, n - 1);
    WordsSame(cfg, s.tasks, next.tasks, n - 1);
    assert By(s.trace, n - 1) + [] == By(s.trace, n - 1);
    assert next.trace == s.trace + acts;
  }

  lemma NothingSettles(cfg: Setting, l: Live, h: Happening)
    requires !Governance.Enabled(l.loop, h)
    ensures Advance(cfg, l, l.process, h) == l
  {
    assert l.loop.trace[|l.loop.trace|..] == [];
  }

  lemma EmitGood(cfg: Setting, l: Live, passes: nat)
    requires Good(cfg, l) && Enabled(l, Emit(passes))
    ensures Good(cfg, Step(cfg, l, Emit(passes)))
  {
    hide Governance.Consistent, Move, Absorb, Answers, Responses, By, Word, Advance;
    var n := |l.loop.tasks|;
    var p := l.process;
    var req := RequestFor(p.sessionId, n, p.script[n]);
    var h := Begin(GateOnly, req, passes);
    var (acts, u) := Move(cfg, l.loop, h);
    GateMove(cfg, l.loop, h);
    StepConsistent(cfg, l.loop, h);
    AbsorbStep(cfg, l, p.(next := n + 1, waiters := [req.id]), h, req.id);
    ResponsesConcat(l.loop.trace, acts);
    OwnActs(cfg, l.loop, h);
    TracedCalls(cfg, l.loop);
    NewCall(l.loop.trace, acts, n);
    var next := Step(cfg, l, Emit(passes));
    assert next.loop.tasks == l.loop.tasks + [u];
    WordsSame(cfg, l.loop.tasks, next.loop.tasks, n);
    assert l.loop.trace == Words(cfg, l.loop.tasks, n) by { if n > 0 { LastWord(cfg, l.loop); } }
    forall i | 0 <= i < n + 1 ensures Asked(next, i) {
      assert i < n ==> Asked(l, i);
    }
  }

  lemma NewCall(trace: seq<Act>, acts: seq<Act>, n: nat)
    requires forall p :: 0 <= p < |trace| ==> trace[p].task < n
    requires forall i :: 0 <= i < |acts| ==> acts[i].task == n
    ensures By(trace + acts, n) == acts
  {
    hide By;
    ByNone(trace, n);
    ByConcat(trace, acts, n, n);
    assert [] + acts == acts;
  }

  lemma TracedCalls(cfg: Setting, s: Loop)
    requires Governance.Consistent(cfg, s)
    ensures forall p :: 0 <= p < |s.trace| ==> s.trace[p].task < |s.tasks|
  {
    hide OnTrack, By;
  }

  lemma LastWord(cfg: Setting, s: Loop)
    requires Governance.Consistent(cfg, s) && |s.tasks| > 0 && HasDelivered(s.tasks[|s.tasks| - 1])
    ensures By(s.trace, |s.tasks| - 1) == Word(cfg, |s.tasks| - 1, s.tasks[|s.tasks| - 1])
  {
    hide Word, By;
    assert OnTrack(cfg, |s.tasks| - 1, s.tasks[|s.tasks| - 1], By(s.trace, |s.tasks| - 1));
  }

  lemma StepGood(cfg: Setting, l: Live, e: Event)
    requires l.phase != Crashed && Good(cfg, l)
    ensures Step(cfg, l, e).phase != Crashed ==> Good(cfg, Step(cfg, l, e))
  {
    hide Governance.Consistent, Words, Responses, By;
    if Enabled(l, e) {
      match e
      case Emit(passes) => EmitGood(cfg, l, passes);
      case Settle(h) => SettleGood(cfg, l, h);
      case Push(n, renewed) =>
        var next := Step(cfg, l, e);
        assert forall i :: 0 <= i < |l.loop.tasks| ==> Asked(l, i) ==> Asked(next, i);
      case End(ok) =>
        var next := Step(cfg, l, e);
        assert forall i :: 0 <= i < |l.loop.tasks| ==> Asked(l, i) ==> Asked(next, i);
    }
  }

  lemma {:induction false} RunGood(cfg: Setting, sessionId: Text, script: seq<ToolStep>, es: seq<Event>)
    ensures var l := After(cfg, sessionId, script, es);
            && (l.phase != Crashed ==> Good(cfg, l))
            && l.process.sessionId == sessionId && l.process.script == script
  {
    hide Step, Good;
    if |es| == 0 {
      OpenedGood(cfg, sessionId, script);
    } else {
      RunGood(cfg, sessionId, script, es[..|es| - 1]);
      var before := After(cfg, sessionId, script, es[..|es| - 1]);
      StepKeeps(cfg, before, es[|es| - 1]);
      if before.phase != Crashed { StepGood(cfg, before, es[|es| - 1]); }
    }
  }

  lemma OpenedGood(cfg: Setting, sessionId: Text, script: seq<ToolStep>)
    ensures Good(cfg, Opened(sessionId, script))
  {
    IdleConsistent(cfg);
  }

  lemma {:induction false} AbsorbKeeps(p: Process, acts: seq<Act>)
    ensures Absorb(p, acts).script == p.script && Absorb(p, acts).sessionId == p.sessionId
  {
    if |acts| > 0 { AbsorbKeeps(p, acts[..|acts| - 1]); }
  }

  lemma {:induction false} StoppedKeeps(p: Process, callIds: seq<Text>)
    ensures Stopped(p, callIds).script == p.script && Stopped(p, callIds).sessionId == p.sessionId
    decreases |callIds|
  {
    if |callIds| > 0 { StoppedKeeps(Respond(p, callIds[0], Blocked(Ascii("session terminated"))), callIds[1..]); }
  }

  lemma StepKeeps(cfg: Setting, l: Live, e: Event)
    ensures Step(cfg, l, e).process.script == l.process.script
    ensures Step(cfg, l, e).process.sessionId == l.process.sessionId
    ensures l.phase == Crashed ==> Step(cfg, l, e).phase == Crashed
  {
    hide Absorb, Governance.Step, Stopped;
    if Enabled(l, e) {
      match e
      case Emit(passes) =>
        var p := l.process;
        var req := RequestFor(p.sessionId, p.next, p.script[p.next]);
        AdvanceKeeps(cfg, l, p.(next := p.next + 1, waiters := [req.id]), Begin(GateOnly, req, passes));
      case Settle(h) => AdvanceKeeps(cfg, l, l.process, h);
      case Push(n, renewed) =>
      case End(ok) => StoppedKeeps(l.process, l.process.waiters);
    }
  }

  lemma AdvanceKeeps(cfg: Setting, l: Live, process: Process, h: Happening)
    ensures Advance(cfg, l, process, h).process.script == process.script
    ensures Advance(cfg, l, process, h).process.sessionId == process.sessionId
  {
    hide Absorb, Governance.Step;
    StepExtends(cfg, l.loop, h);
    AbsorbKeeps(process, Governance.Step(cfg, l.loop, h).trace[|l.loop.trace|..]);
  }

  // ----- The whole trace -----

  /** The records of the first k calls, one after the other. */
  function CallRecords(cfg: Setting, tasks: seq<Task>, k: nat): seq<Note>
    requires k <= |tasks| && forall i :: 0 <= i < k ==> Judge(cfg, tasks[i].req).Ok?
  {
    if k == 0 then []
    else CallRecords(cfg, tasks, k - 1) + Record(cfg, tasks[k - 1], Judge(cfg, tasks[k - 1].req).value)
  }

  /** The response that a judged and answered call gets. */
  function ResponseTo(cfg: Setting, t: Task): Response
    requires Judge(cfg, t.req).Ok?
  {
    var v := Judge(cfg, t.req).value;
    var allow := Permitted(v, t.answer);
    Response(t.req.id, if allow then Allowed else Blocked(EffectiveVerdict(v, false).reason))
  }

  /** A call that has delivered was judged, was answered if it had to be, and did its whole word. */
  lemma DeliveredCall(cfg: Setting, n: nat, t: Task, acts: seq<Act>)
    requires OnTrack(cfg, n, t, acts) && HasDelivered(t) && t.mode == GateOnly
    ensures Judge(cfg, t.req).Ok? && (Judge(cfg, t.req).value.decision == Require ==> t.answer.Some?)
    ensures acts == Word(cfg, n, t)
    ensures Responses(acts) == [ResponseTo(cfg, t)]
    ensures JournalOf(acts) == Record(cfg, t, Judge(cfg, t.req).value)
  {
    hide JournalOf, Record, Argv, Judge;
    RecordExactly(cfg, n, t);
    var v := Judge(cfg, t.req).value;
    var ending := Ending(cfg, n, t, v);
    var k := |acts| - |ending|;
    assert acts == acts[..k] + ending;
    ResponsesConcat(acts[..k], ending);
    assert forall i :: 0 <= i < k ==> acts[i].Noted?;
    NotesOnly(acts[..k]);
    EndingResponse(cfg, n, t, v);
  }

  lemma {:induction false} NotesOnly(acts: seq<Act>)
    requires forall i :: 0 <= i < |acts| ==> acts[i].Noted?
    ensures Responses(acts) == []
  {
    if |acts| > 0 { NotesOnly(acts[..|acts| - 1]); }
  }

  lemma EndingResponse(cfg: Setting, n: nat, t: Task, v: Verdict)
    requires t.mode == GateOnly && Judge(cfg, t.req) == Ok(v)
    ensures Responses(Ending(cfg, n, t, v)) == [ResponseTo(cfg, t)]
  {
    hide Judge;
    var acts := Ending(cfg, n, t, v);
    assert acts[..1] == [acts[0]];
    NotesOnly([acts[0]]);
  }

  ghost predicate Complete(cfg: Setting, n: nat, t: Task) {
    HasDelivered(t) && t.mode == GateOnly && OnTrack(cfg, n, t, Word(cfg, n, t))
  }

  lemma {:induction false} WordsExactly(cfg: Setting, tasks: seq<Task>, k: nat)
    requires k <= |tasks| && forall i :: 0 <= i < k ==> Complete(cfg, i, tasks[i])
    ensures forall i :: 0 <= i < k ==> Judge(cfg, tasks[i].req).Ok?
    ensures |Responses(Words(cfg, tasks, k))| == k
    ensures forall i :: 0 <= i < k ==> Responses(Words(cfg, tasks, k))[i] == ResponseTo(cfg, tasks[i])
    ensures JournalOf(Words(cfg, tasks, k)) == CallRecords(cfg, tasks, k)
  {
    hide Word, Judge, Record, ResponseTo, OnTrack, Responses, JournalOf;
    if k > 0 {
      WordsExactly(cfg, tasks, k - 1);
      DeliveredCall(cfg, k - 1, tasks[k - 1], Word(cfg, k - 1, tasks[k - 1]));
      ResponsesConcat(Words(cfg, tasks, k - 1), Word(cfg, k - 1, tasks[k - 1]));
      JournalConcat(Words(cfg, tasks, k - 1), Word(cfg, k - 1, tasks[k - 1]));
    } else {
      EmptyJournal();
      NotesOnly([]);
    }
  }

  /** Every live session that ends: one response for each step of the script, in script order,
      allowing exactly what the policy allows or requires and a human approved; and the journal is
      session.started, the whole word of every step in order, and session.ended with the number of
      steps. It holds for every policy, script, channel behaviour and order of events. */
  lemma SessionTrace(cfg: Setting, sessionId: Text, script: seq<ToolStep>, es: seq<Event>)
    requires After(cfg, sessionId, script, es).phase == Done
    ensures var l := After(cfg, sessionId, script, es);
            var n := |script|;
            var tasks := l.loop.tasks;
            && |tasks| == n && |l.process.responses| == n
            && (forall i :: 0 <= i < n ==>
                  && tasks[i].req == RequestFor(sessionId, i, script[i]) && tasks[i].mode == GateOnly
                  && Judge(cfg, tasks[i].req).Ok?
                  && l.process.responses[i].callId == CallId(sessionId, i)
                  && (l.process.responses[i].decision.Allowed? <==>
                        Permitted(Judge(cfg, tasks[i].req).value, tasks[i].answer)))
            && SessionJournal(l) ==
                 [SessionStarted(sessionId)] + Inside(CallRecords(cfg, tasks, n)) + [SessionEnded(sessionId, n)]
            && (forall i :: 0 <= i < n ==>
                  var v := Judge(cfg, tasks[i].req).value;
                  Kinds(Record(cfg, tasks[i], v)) == WholeWord(GateOnly, v.decision, Granted(tasks[i])))
  {
    hide After, Word, Judge, Record, By, Responses, JournalOf, Words, WholeWord, Permitted, EffectiveVerdict;
    RunGood(cfg, sessionId, script, es);
    var l := After(cfg, sessionId, script, es);
    var n := |script|;
    forall i | 0 <= i < n ensures Asked(l, i) && Complete(cfg, i, l.loop.tasks[i]) {
      assert Asked(l, i);
      assert OnTrack(cfg, i, l.loop.tasks[i], By(l.loop.trace, i));
    }
    WordsExactly(cfg, l.loop.tasks, n);
    WordsWhole(cfg, l);
    forall i | 0 <= i < n
      ensures var v := Judge(cfg, l.loop.tasks[i].req).value;
              Kinds(Record(cfg, l.loop.tasks[i], v)) == WholeWord(GateOnly, v.decision, Granted(l.loop.tasks[i]))
    {
      var t := l.loop.tasks[i];
      assert Complete(cfg, i, t);
      DeliveredCall(cfg, i, t, Word(cfg, i, t));
      RecordKinds(cfg, t, Judge(cfg, t.req).value);
    }
  }

  lemma WordsWhole(cfg: Setting, l: Live)
    requires Good(cfg, l) && l.process.waiters == []
    ensures l.loop.trace == Words(cfg, l.loop.tasks, |l.loop.tasks|)
  {
    hide Governance.Consistent, Word, By;
    if |l.loop.tasks| > 0 { LastWord(cfg, l.loop); }
  }

  /** The hook ids of a session are distinct, so JournalWords applies to its calls. */
  lemma CallIdsDistinct(sessionId: Text, i: nat, j: nat)
    requires CallId(sessionId, i) == CallId(sessionId, j)
    ensures i == j
  {
    var front := sessionId + Ascii("-call-");
    assert CallId(sessionId, i)[|front|..] == Digits(i + 1);
    assert CallId(sessionId, j)[|front|..] == Digits(j + 1);
    DigitsValue(i + 1);
    DigitsValue(j + 1);
  }

  // ----- No session gets stuck -----

  lemma {:induction false} DistinctSize(xs: seq<nat>)
    requires Distinct(xs)
    ensures |Elements(xs)| == |xs|
  {
    if |xs| > 0 {
      var front := xs[..|xs| - 1];
      DistinctSize(front);
      assert Elements(xs) == Elements(front) + {xs[|xs| - 1]};
    }
  }

  ghost function Upto(n: nat): (r: set<nat>)
    ensures |r| == n && forall k :: k in r <==> 0 <= k < n
  {
    if n == 0 then {} else Upto(n - 1) + {n - 1}
  }

  lemma AllPushed(xs: seq<nat>, n: nat)
    requires Distinct(xs) && (forall i :: 0 <= i < |xs| ==> xs[i] < n) && forall k :: 0 <= k < n ==> k in xs
    ensures |xs| == n
  {
    DistinctSize(xs);
    assert Elements(xs) == Upto(n);
  }

  /** Outcomes are distinct calls, so there are no more of them than calls. */
  lemma FewOutcomes(xs: seq<nat>, n: nat)
    requires Distinct(xs) && forall i :: 0 <= i < |xs| ==> xs[i] < n
    ensures |xs| <= n
  {
    DistinctSize(xs);
    Subset(Elements(xs), Upto(n));
  }

  lemma {:induction false} Subset(a: set<nat>, b: set<nat>)
    requires a <= b
    ensures |a| <= |b|
  {
    if x :| x in a {
      Subset(a - {x}, b - {x});
    }
  }

  function Rank(t: Task): nat {
    match t.stage
    case Posting => 3
    case Deciding => 2
    case Executing => 2
    case Delivering => 1
    case Finished => 0
    case Aborted => 0
  }

  function Ranks(tasks: seq<Task>): nat {
    if |tasks| == 0 then 0 else Ranks(tasks[..|tasks| - 1]) + Rank(tasks[|tasks| - 1])
  }

  lemma {:induction false} RanksUpdate(tasks: seq<Task>, i: nat, t: Task)
    requires i < |tasks|
    ensures Ranks(tasks[i := t]) == Ranks(tasks) - Rank(tasks[i]) + Rank(t)
  {
    var n := |tasks| - 1;
    if i == n {
      assert tasks[i := t][..n] == tasks[..n];
    } else {
      assert tasks[i := t][..n] == tasks[..n][i := t];
      RanksUpdate(tasks[..n], i, t);
    }
  }

  /** The steps that a session has yet to take, at most. */
  function ToDo(l: Live): int {
    6 * (|l.process.script| - l.process.next) + Ranks(l.loop.tasks) + |l.loop.tasks| - |l.outcomes|
  }

  ghost predicate Judgeable(cfg: Setting, p: Process, i: nat)
    requires i < |p.script|
  {
    Judge(cfg, RequestFor(p.sessionId, i, p.script[i])).Ok?
  }

  /** A session in which nothing has gone wrong, and whose remaining steps the policy can judge. */
  ghost predicate Clean(cfg: Setting, l: Live) {
    && l.phase == Running && !l.failed
    && (forall i :: 0 <= i < |l.loop.tasks| ==> l.loop.tasks[i].stage != Aborted)
    && (forall i :: l.process.next <= i < |l.process.script| ==> Judgeable(cfg, l.process, i))
  }

  /** The calls of after are those of before and more, and those that were answered in between got
      the given answers. */
  ghost predicate Heeds(before: seq<Task>, after: seq<Task>, answers: nat -> Answer) {
    && |before| <= |after|
    && forall i :: 0 <= i < |after| ==>
         if i < |before| && before[i].answer.Some? then after[i].answer == before[i].answer
         else after[i].answer.Some? ==> after[i].answer.value == answers(i)
  }

  lemma CleanNext(cfg: Setting, l: Live, next: Live)
    requires Clean(cfg, l) && next.phase == Running && !next.failed
    requires next.process.script == l.process.script && next.process.sessionId == l.process.sessionId
    requires next.process.next >= l.process.next
    requires forall i :: 0 <= i < |next.loop.tasks| ==> next.loop.tasks[i].stage != Aborted
    ensures Clean(cfg, next)
  {
    hide Judgeable;
    SameJudgeable(cfg, l.process, next.process);
  }

  lemma RanksMore(tasks: seq<Task>, t: Task)
    ensures Ranks(tasks + [t]) == Ranks(tasks) + Rank(t)
  {
    assert (tasks + [t])[..|tasks|] == tasks;
  }

  lemma CleanFacts(cfg: Setting, l: Live)
    requires Clean(cfg, l)
    ensures l.phase == Running && !l.failed && forall i :: 0 <= i < |l.loop.tasks| ==> l.loop.tasks[i].stage != Aborted
    ensures l.process.next < |l.process.script| ==> Judgeable(cfg, l.process, l.process.next)
  {
    hide Judgeable;
  }

  /** A promise that settles well. */
  predicate GoesWell(h: Happening, answers: nat -> Answer) {
    match h
    case Posted(_, ok) => ok
    case Answered(n, answer, passes) => answer == answers(n) && passes == 2
    case DeliverDone(_, ok) => ok
    case _ => false
  }

  /** What it does to its call. */
  lemma MoveForward(cfg: Setting, s: Loop, h: Happening, answers: nat -> Answer)
    requires Governance.Enabled(s, h) && GoesWell(h, answers)
    requires s.tasks[h.task].mode == GateOnly && Judge(cfg, s.tasks[h.task].req).Ok?
    ensures var t, u := s.tasks[h.task], Move(cfg, s, h).1;
            && u.stage != Aborted && Rank(u) < Rank(t)
            && u.answer == if h.Answered? then Some(answers(h.task)) else t.answer
  {
    hide Judge, EffectiveVerdict;
  }

  lemma SettleForward(cfg: Setting, l: Live, h: Happening, answers: nat -> Answer)
    requires Good(cfg, l) && Clean(cfg, l)
    requires Governance.Enabled(l.loop, h) && GoesWell(h, answers)
    ensures var next := Step(cfg, l, Settle(h));
            && Clean(cfg, next) && ToDo(next) < ToDo(l) && Heeds(l.loop.tasks, next.loop.tasks, answers)
  {
    hide Governance.Consistent, Judge, Answers, Move, Rank, Judgeable, Advance, Clean, Words, Ranks, Responses, By;
    CleanFacts(cfg, l);
    var m := h.task;
    assert Asked(l, m);
    JudgedCall(cfg, l.loop, m);
    MoveForward(cfg, l.loop, h, answers);
    var u := Move(cfg, l.loop, h).1;
    RanksUpdate(l.loop.tasks, m, u);
    AbsorbStep(cfg, l, l.process, h, CallId(l.process.sessionId, |l.loop.tasks| - 1));
    var next := Step(cfg, l, Settle(h));
    assert next.loop.tasks == l.loop.tasks[m := u];
    CleanNext(cfg, l, next);
  }

  lemma SameJudgeable(cfg: Setting, p: Process, q: Process)
    requires q.script == p.script && q.sessionId == p.sessionId
    ensures forall i :: 0 <= i < |p.script| ==> (Judgeable(cfg, p, i) <==> Judgeable(cfg, q, i))
  {
    hide Judge;
  }

  lemma JudgedCall(cfg: Setting, s: Loop, n: nat)
    requires Governance.Consistent(cfg, s) && n < |s.tasks| && s.tasks[n].stage != Aborted
    ensures Judge(cfg, s.tasks[n].req).Ok?
    ensures s.tasks[n].stage in {Posting, Deciding} ==> s.tasks[n].answer.None?
  {
    hide By, Word, Judge;
    assert OnTrack(cfg, n, s.tasks[n], By(s.trace, n));
  }

  lemma EmitForward(cfg: Setting, l: Live, answers: nat -> Answer)
    requires Good(cfg, l) && Clean(cfg, l) && Enabled(l, Emit(2))
    ensures var next := Step(cfg, l, Emit(2));
            && Clean(cfg, next) && ToDo(next) < ToDo(l) && Heeds(l.loop.tasks, next.loop.tasks, answers)
  {
    hide Governance.Consistent, Judge, Answers, Opening, Judgeable, Advance, Clean, Words, Ranks, Responses, By, Digits;
    CleanFacts(cfg, l);
    var n := |l.loop.tasks|;
    var p := l.process;
    var req := RequestFor(p.sessionId, n, p.script[n]);
    var h := Begin(GateOnly, req, 2);
    JudgeableCall(cfg, p, n);
    OpeningForward(cfg, n, req);
    var u := Move(cfg, l.loop, h).1;
    RanksMore(l.loop.tasks, u);
    AbsorbStep(cfg, l, p.(next := n + 1, waiters := [req.id]), h, req.id);
    var next := Step(cfg, l, Emit(2));
    assert next.loop.tasks == l.loop.tasks + [u];
    CleanNext(cfg, l, next);
  }

  lemma JudgeableCall(cfg: Setting, p: Process, i: nat)
    requires i < |p.script| && Judgeable(cfg, p, i)
    ensures Judge(cfg, RequestFor(p.sessionId, i, p.script[i])).Ok?
  {
  }

  lemma OpeningForward(cfg: Setting, n: nat, req: Request)
    requires Judge(cfg, req).Ok?
    ensures Opening(cfg, n, GateOnly, req, 2).stage in {Posting, Delivering}
  {
    hide Judge, EffectiveVerdict;
  }

  lemma PushForward(cfg: Setting, l: Live, n: nat, answers: nat -> Answer)
    requires Good(cfg, l) && Clean(cfg, l) && Enabled(l, Push(n, true))
    ensures var next := Step(cfg, l, Push(n, true));
            && Clean(cfg, next) && ToDo(next) < ToDo(l) && Heeds(l.loop.tasks, next.loop.tasks, answers)
  {
    hide Good, Clean, Judgeable, Ranks;
    CleanFacts(cfg, l);
    CleanNext(cfg, l, Step(cfg, l, Push(n, true)));
  }

  ghost predicate WellChosen(l: Live, e: Event, answers: nat -> Answer) {
    && Enabled(l, e)
    && match e
       case Emit(passes) => passes == 2
       case Settle(h) => Governance.Enabled(l.loop, h) && GoesWell(h, answers)
       case Push(_, renewed) => renewed
       case End(ok) => ok
  }

  lemma Choose(cfg: Setting, l: Live, answers: nat -> Answer) returns (e: Event)
    requires Good(cfg, l) && Clean(cfg, l)
    ensures WellChosen(l, e, answers)
  {
    hide Governance.Consistent, Judgeable, Words, By, Responses;
    var n := |l.loop.tasks|;
    if l.process.waiters != [] {
      assert Asked(l, n - 1);
      NeverExecutes(cfg, l.loop, n - 1);
      e := Settle(if l.loop.tasks[n - 1].stage == Posting then Posted(n - 1, true)
                  else Answered(n - 1, answers(n - 1), 2));
    } else if n < |l.process.script| {
      e := Emit(2);
    } else if i :| 0 <= i < n && l.loop.tasks[i].stage == Delivering {
      e := Settle(DeliverDone(i, true));
    } else if i :| 0 <= i < n && i !in l.outcomes {
      assert HasDelivered(l.loop.tasks[i]);
      e := Push(i, true);
    } else {
      AllPushed(l.outcomes, n);
      e := End(true);
    }
  }

  /** A session in which nothing has gone wrong can go on, with any answer of the channel, and each
      step brings it nearer to its end. */
  lemma Progress(cfg: Setting, l: Live, answers: nat -> Answer) returns (e: Event)
    requires Good(cfg, l) && Clean(cfg, l)
    ensures Enabled(l, e)
    ensures var next := Step(cfg, l, e);
            && Heeds(l.loop.tasks, next.loop.tasks, answers)
            && (next.phase == Done || (Clean(cfg, next) && ToDo(next) < ToDo(l)))
  {
    hide Good, Clean, Step, ToDo, Heeds, Enabled;
    CleanFacts(cfg, l);
    e := Choose(cfg, l, answers);
    match e
    case Emit(_) => EmitForward(cfg, l, answers);
    case Settle(h) => SettleForward(cfg, l, h, answers);
    case Push(n, _) => PushForward(cfg, l, n, answers);
    case End(_) => EndForward(cfg, l, answers);
  }

  lemma EndForward(cfg: Setting, l: Live, answers: nat -> Answer)
    requires Enabled(l, End(true)) && !l.failed
    ensures Step(cfg, l, End(true)).phase == Done
    ensures Heeds(l.loop.tasks, Step(cfg, l, End(true)).loop.tasks, answers)
  {
  }

  lemma HeedsOn(a: seq<Task>, b: seq<Task>, c: seq<Task>, answers: nat -> Answer)
    requires Heeds(a, b, answers) && Heeds(b, c, answers)
    ensures Heeds(a, c, answers)
  {
  }

  /** From every point at which nothing has gone wrong, whatever the channel is going to answer, some
      continuation ends the session with these answers. */
  lemma {:induction false} Completes(cfg: Setting, sessionId: Text, script: seq<ToolStep>, es: seq<Event>,
                                     answers: nat -> Answer)
    returns (more: seq<Event>)
    requires Clean(cfg, After(cfg, sessionId, script, es))
    ensures After(cfg, sessionId, script, es + more).phase == Done
    ensures Heeds(After(cfg, sessionId, script, es).loop.tasks,
                  After(cfg, sessionId, script, es + more).loop.tasks, answers)
    decreases ToDo(After(cfg, sessionId, script, es)) + 1
  {
    hide After, Step, Clean, Good, ToDo, Heeds;
    var l := After(cfg, sessionId, script, es);
    CleanFacts(cfg, l);
    RunGood(cfg, sessionId, script, es);
    EnoughToDo(cfg, l);
    var e := Progress(cfg, l, answers);
    AfterOne(cfg, sessionId, script, es, e);
    if Step(cfg, l, e).phase == Done {
      more := [e];
    } else {
      var rest := Completes(cfg, sessionId, script, es + [e], answers);
      more := [e] + rest;
      assert es + more == (es + [e]) + rest;
      HeedsOn(l.loop.tasks, Step(cfg, l, e).loop.tasks, After(cfg, sessionId, script, es + more).loop.tasks, answers);
    }
  }

  lemma AfterOne(cfg: Setting, sessionId: Text, script: seq<ToolStep>, es: seq<Event>, e: Event)
    ensures After(cfg, sessionId, script, es + [e]) == Step(cfg, After(cfg, sessionId, script, es), e)
  {
    hide Step;
    assert (es + [e])[..|es|] == es;
  }

  lemma EnoughToDo(cfg: Setting, l: Live)
    requires Good(cfg, l)
    ensures ToDo(l) >= 0
  {
    hide Governance.Consistent, Words;
    FewOutcomes(l.outcomes, |l.loop.tasks|);
  }

  lemma StepSticks(cfg: Setting, l: Live, e: Event)
    ensures l.failed ==> Step(cfg, l, e).failed
    ensures |l.loop.tasks| <= |Step(cfg, l, e).loop.tasks|
    ensures forall i :: 0 <= i < |l.loop.tasks| && l.loop.tasks[i].stage == Aborted ==>
              Step(cfg, l, e).loop.tasks[i].stage == Aborted
  {
    hide Absorb, Opening, Resume, Report;
    if Enabled(l, e) && e.Settle? && Governance.Enabled(l.loop, e.h) {
      assert l.loop.tasks[e.h.task].stage != Aborted;
    }
  }

  lemma {:induction false} RunSticks(cfg: Setting, sessionId: Text, script: seq<ToolStep>, es: seq<Event>,
                                     more: seq<Event>)
    ensures var l, end := After(cfg, sessionId, script, es), After(cfg, sessionId, script, es + more);
            && (l.failed ==> end.failed)
            && |l.loop.tasks| <= |end.loop.tasks|
            && (forall i :: 0 <= i < |l.loop.tasks| && l.loop.tasks[i].stage == Aborted ==>
                  end.loop.tasks[i].stage == Aborted)
    decreases |more|
  {
    hide Step, After;
    if |more| == 0 {
      assert es + more == es;
    } else {
      var front := more[..|more| - 1];
      RunSticks(cfg, sessionId, script, es, front);
      assert es + more == (es + front) + [more[|more| - 1]];
      AfterOne(cfg, sessionId, script, es + front, more[|more| - 1]);
      StepSticks(cfg, After(cfg, sessionId, script, es + front), more[|more| - 1]);
    }
  }

  /** A session that has been run to its end was clean at every point at which it was running. */
  lemma EndedClean(cfg: Setting, sessionId: Text, script: seq<ToolStep>, es: seq<Event>, more: seq<Event>)
    requires After(cfg, sessionId, script, es).phase == Running
    requires After(cfg, sessionId, script, es + more).phase == Done
    ensures Clean(cfg, After(cfg, sessionId, script, es))
  {
    hide After, Judge, Good;
    var l, end := After(cfg, sessionId, script, es), After(cfg, sessionId, script, es + more);
    RunSticks(cfg, sessionId, script, es, more);
    RunGood(cfg, sessionId, script, es + more);
    RunGood(cfg, sessionId, script, es);
    DoneDelivered(cfg, end);
    DoneJudged(cfg, sessionId, script, es + more);
    forall i | l.process.next <= i < |l.process.script| ensures Judgeable(cfg, l.process, i) {
      assert Judge(cfg, RequestFor(sessionId, i, script[i])).Ok?;
    }
  }

  lemma DoneJudged(cfg: Setting, sessionId: Text, script: seq<ToolStep>, es: seq<Event>)
    requires After(cfg, sessionId, script, es).phase == Done
    ensures forall i :: 0 <= i < |script| ==> Judge(cfg, RequestFor(sessionId, i, script[i])).Ok?
  {
    hide After, Judge;
    SessionTrace(cfg, sessionId, script, es);
  }

  /** A running session can still be run to its end exactly if nothing has gone wrong in it: no call
      has aborted, no heartbeat has thrown, and the policy can judge the remaining steps. */
  lemma CanEndExactly(cfg: Setting, sessionId: Text, script: seq<ToolStep>, es: seq<Event>)
    requires After(cfg, sessionId, script, es).phase == Running
    ensures (exists more :: After(cfg, sessionId, script, es + more).phase == Done) <==>
            Clean(cfg, After(cfg, sessionId, script, es))
  {
    hide After, Clean;
    if Clean(cfg, After(cfg, sessionId, script, es)) {
      var more := Completes(cfg, sessionId, script, es, _ => NoDecision([]));
    }
    if more :| After(cfg, sessionId, script, es + more).phase == Done {
      EndedClean(cfg, sessionId, script, es, more);
    }
  }

  lemma DoneDelivered(cfg: Setting, l: Live)
    requires Good(cfg, l) && l.phase == Done
    ensures !l.failed && forall i :: 0 <= i < |l.loop.tasks| ==> l.loop.tasks[i].stage != Aborted
  {
    hide Governance.Consistent, Words, By, Responses;
    forall i | 0 <= i < |l.loop.tasks| ensures HasDelivered(l.loop.tasks[i]) {
    }
  }

  /** A script can be run to the end exactly if the policy can judge each of its steps; then it can
      be run to the end whatever the human answers to the calls that require one. */
  lemma CompletesExactly(cfg: Setting, sessionId: Text, script: seq<ToolStep>)
    ensures (exists es :: After(cfg, sessionId, script, es).phase == Done) <==>
            forall i :: 0 <= i < |script| ==> Judge(cfg, RequestFor(sessionId, i, script[i])).Ok?
  {
    hide After, Judge;
    if es :| After(cfg, sessionId, script, es).phase == Done {
      SessionTrace(cfg, sessionId, script, es);
    }
    if forall i :: 0 <= i < |script| ==> Judge(cfg, RequestFor(sessionId, i, script[i])).Ok? {
      OpenedClean(cfg, sessionId, script);
      var es := Completes(cfg, sessionId, script, [], _ => NoDecision([]));
      assert [] + es == es;
    }
  }

  lemma OpenedClean(cfg: Setting, sessionId: Text, script: seq<ToolStep>)
    requires forall i :: 0 <= i < |script| ==> Judge(cfg, RequestFor(sessionId, i, script[i])).Ok?
    ensures Clean(cfg, After(cfg, sessionId, script, []))
    ensures After(cfg, sessionId, script, []).loop.tasks == []
  {
  }

  /** For every policy, script and behaviour of the channel there is a run to the end in which the
      calls are answered so. */
  lemma EveryBehaviour(cfg: Setting, sessionId: Text, script: seq<ToolStep>, answers: nat -> Answer)
    returns (es: seq<Event>)
    requires forall i :: 0 <= i < |script| ==> Judge(cfg, RequestFor(sessionId, i, script[i])).Ok?
    ensures var l := After(cfg, sessionId, script, es);
            && l.phase == Done && |l.process.responses| == |script|
            && forall i :: 0 <= i < |script| ==>
                 var v := Judge(cfg, RequestFor(sessionId, i, script[i])).value;
                 && l.process.responses[i].callId == CallId(sessionId, i)
                 && (l.process.responses[i].decision.Allowed? <==>
                       v.decision == Allow || (v.decision == Require && Approves(answers(i))))
  {
    hide After, Judge;
    OpenedClean(cfg, sessionId, script);
    es := Completes(cfg, sessionId, script, [], answers);
    assert [] + es == es;
    SessionTrace(cfg, sessionId, script, es);
    AnsweredCalls(cfg, sessionId, script, es);
  }

  lemma AnsweredCalls(cfg: Setting, sessionId: Text, script: seq<ToolStep>, es: seq<Event>)
    requires After(cfg, sessionId, script, es).phase == Done
    ensures var tasks := After(cfg, sessionId, script, es).loop.tasks;
            forall i :: 0 <= i < |tasks| ==>
              Judge(cfg, tasks[i].req).Ok? &&
              (Judge(cfg, tasks[i].req).value.decision == Require ==> tasks[i].answer.Some?)
  {
    hide After, Judge, Word, By, Words;
    RunGood(cfg, sessionId, script, es);
    var l := After(cfg, sessionId, script, es);
    forall i | 0 <= i < |l.loop.tasks|
      ensures Judge(cfg, l.loop.tasks[i].req).Ok?
      ensures Judge(cfg, l.loop.tasks[i].req).value.decision == Require ==> l.loop.tasks[i].answer.Some?
    {
      assert Asked(l, i);
      assert OnTrack(cfg, i, l.loop.tasks[i], By(l.loop.trace, i));
    }
  }

  // ----- Without the lease -----

  function Renewing(e: Event): Event { if e.Push? then Push(e.task, true) else e }

  function AllRenewing(es: seq<Event>): (r: seq<Event>)
    ensures |r| == |es| && forall i :: 0 <= i < |r| ==> r[i] == Renewing(es[i])
  {
    seq(|es|, i requires 0 <= i < |es| => Renewing(es[i]))
  }

  /** Up to its end a live session gates its calls just as if every heartbeat had renewed the lease:
      unlike the scripted driver, it does not stop when it has lost it. This is about the driver's own
      code: no handler waits for a failed continuation before the script has run, and a runtime that
      ends the process on unhandled rejections may end it earlier. */
  lemma {:induction false} LostLeaseGoesOn(cfg: Setting, sessionId: Text, script: seq<ToolStep>, es: seq<Event>)
    requires forall i :: 0 <= i < |es| ==> !es[i].End?
    ensures var l, r := After(cfg, sessionId, script, es), After(cfg, sessionId, script, AllRenewing(es));
            l == r.(failed := l.failed) && l.phase == Running
  {
    hide Step;
    if |es| > 0 {
      var front := es[..|es| - 1];
      LostLeaseGoesOn(cfg, sessionId, script, front);
      assert AllRenewing(es)[..|es| - 1] == AllRenewing(front);
      var l, r := After(cfg, sessionId, script, front), After(cfg, sessionId, script, AllRenewing(front));
      StepIgnoresLease(cfg, l, r, es[|es| - 1]);
    }
  }

  lemma StepIgnoresLease(cfg: Setting, l: Live, r: Live, e: Event)
    requires l == r.(failed := l.failed) && l.phase == Running && !e.End?
    ensures Step(cfg, l, e) == Step(cfg, r, Renewing(e)).(failed := Step(cfg, l, e).failed)
    ensures Step(cfg, l, e).phase == Running
  {
    hide Absorb, Governance.Step;
    if Enabled(l, e) {
      match e
      case Settle(h) => StepExtends(cfg, l.loop, h);
      case _ =>
    }
  }

  /** But then it ends without session.ended: its driver throws. */
  lemma LostLeaseNeverEnds(cfg: Setting, sessionId: Text, script: seq<ToolStep>, es: seq<Event>, more: seq<Event>)
    requires After(cfg, sessionId, script, es).failed
    ensures After(cfg, sessionId, script, es + more).phase != Done
  {
    hide After, Step;
    RunSticks(cfg, sessionId, script, es, more);
    RunGood(cfg, sessionId, script, es + more);
    if After(cfg, sessionId, script, es + more).phase == Done {
      DoneDelivered(cfg, After(cfg, sessionId, script, es + more));
    }
  }

  // ----- How verdicts are read -----

  /** The adapter reads a verdict on a refused call as allowed exactly when a proxied call requires a
      human and none approved: mediate delivers the verdict of the policy, which says require. */
  lemma RefusedReadAsAllowedExactly(cfg: Setting, hs: seq<Happening>, p: nat)
    requires p < |Governance.After(cfg, hs).trace|
    requires var a := Governance.After(cfg, hs).trace[p]; a.Delivered? && a.message.VerdictMessage?
    ensures var s := Governance.After(cfg, hs);
            && s.trace[p].task < |s.tasks|
            && var t := s.tasks[s.trace[p].task];
            && Judge(cfg, t.req).Ok?
            && var v := Judge(cfg, t.req).value;
               DecisionFor(s.trace[p].message) == Some(Allowed) && !Agreed(v, t.answer) <==>
               t.mode == Proxied && v.decision == Require && !Agreed(v, t.answer)
  {
    hide Governance.After, Judge;
    RawRequireExactly(cfg, hs, p);
  }

  /** A rule that requires a human for one tool. */
  function AskAbout(id: Text, tool: Text, reason: Text): Rule {
    Rule(id, Require, tool, None, None, None, Some(reason))
  }

  lemma AskAboutJudges(cfg: Setting, req: Request, id: Text, reason: Text)
    requires cfg.rules == [AskAbout(id, req.tool, reason)] && |reason| > 0
    ensures Judge(cfg, req) == Ok(Verdict(Require, reason, Some(id), None))
  {
    var call := Policy.Call(req.tool, req.actor);
    assert Matches(cfg.rules[0], call);
    WinnerExactly(cfg.rules, call);
  }

  lemma LoopAfterOne(cfg: Setting, hs: seq<Happening>, h: Happening)
    ensures Governance.After(cfg, hs + [h]) == Governance.Step(cfg, Governance.After(cfg, hs), h)
  {
    assert (hs + [h])[..|hs|] == hs;
  }

  /** Such a call: the rule requires a human, the prompt is posted, the human declines, and the
      verdict that mediate delivers says require, which the adapter reads as allowed. Nothing is
      executed. */
  lemma RefusedReadAsAllowedExample(cfg: Setting, req: Request, id: Text, reason: Text, user: Text)
    requires cfg.rules == [AskAbout(id, req.tool, reason)] && |reason| > 0
    ensures var v := Verdict(Require, reason, Some(id), None);
            var answer := Decision(false, user);
            var verdict := VerdictMessage(req.id, req.sessionId, v);
            var hs := [Begin(Proxied, req, 1), Posted(0, true), Answered(0, answer, 1)];
            && Governance.After(cfg, hs).trace ==
                 [Noted(0, JudgedNote(req, v)), Noted(0, Settled(req.id, answer)), Delivered(0, verdict)]
            && DecisionFor(verdict) == Some(Allowed)
  {
    var v := Verdict(Require, reason, Some(id), None);
    AskAboutJudges(cfg, req, id, reason);
    hide Judge;
    var answer := Decision(false, user);
    var h1, h2, h3 := Begin(Proxied, req, 1), Posted(0, true), Answered(0, answer, 1);
    LoopAfterOne(cfg, [], h1);
    LoopAfterOne(cfg, [h1], h2);
    LoopAfterOne(cfg, [h1, h2], h3);
    assert [] + [h1] == [h1] && [h1] + [h2] == [h1, h2] && [h1, h2] + [h3] == [h1, h2, h3];
    var judged := [Noted(0, JudgedNote(req, v))];
    assert Governance.After(cfg, [h1]) == Loop([Task(Proxied, req, Posting, None, None)], judged);
    assert Governance.After(cfg, [h1, h2]) == Loop([Task(Proxied, req, Deciding, None, None)], judged);
  }
}
