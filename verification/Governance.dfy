/** The governance loop: gate and mediate calls in flight at the same time. A call gives way to
    others only where it awaits the channel, the sandbox or the intendant; between two awaits it
    runs to the end of its stretch, appending to the journal as it goes. */
module Governance {
  import opened Utf16
  import opened Wrappers
  import opened Records
  import opened JsonText
  import opened Events
  import opened Policy
  import opened Protocol
  import opened Credentials
  import opened Redaction

  type Request = m: Message | m.ToolCallRequest? witness ToolCallRequest([], [], [], [], SessionOwner)

  /** What the channel answers, or that awaiting it threw. */
  datatype Answer = Decision(approved: bool, decidedBy: Text) | NoDecision(message: Text)

  datatype ExecResult = ExecResult(exitCode: int, stdout: Text)

  /** The journal events of the loop with what their payloads hold. */
  datatype Note =
    | Judged(actor: Actor, id: Text, tool: Text, verdict: Verdict)
    | Settled(id: Text, answer: Answer)
    | Gated(actor: Actor, id: Text, tool: Text, allow: bool)
    | Executed(actor: Actor, id: Text, exitCode: int, secretsUsed: seq<Text>)

  predicate Approves(a: Answer) { a.Decision? && a.approved }

  function KindOf(n: Note): Text {
    match n
    case Judged(_, _, _, v) => Ascii("tool_call.") + EffectText(v.decision)
    case Settled(_, a) => if Approves(a) then Ascii("approval.granted") else Ascii("approval.denied")
    case Gated(_, _, _, allow) => if allow then Ascii("gate.allow") else Ascii("gate.deny")
    case Executed(_, _, _, _) => Ascii("tool_call.executed")
  }

  /** What a call does that others can see, with the number of the call. */
  datatype Act =
    | Noted(task: nat, note: Note)
    | Started(task: nat, id: Text, argv: Json)
    | Delivered(task: nat, message: Message)

  datatype Mode = GateOnly | Proxied

  datatype Stage = Posting | Deciding | Executing | Delivering | Finished | Aborted

  datatype Task = Task(mode: Mode, req: Request, stage: Stage, answer: Option<Answer>, exit: Option<ExecResult>)

  datatype Setting = Setting(rules: seq<Rule>, vault: Vault)

  datatype Loop = Loop(tasks: seq<Task>, trace: seq<Act>)

  /** A new call, or what an awaited promise does. An append throws when the screen refuses the
      event or the journal cannot be read: passes is how many appends of the stretch succeed. */
  datatype Happening =
    | Begin(mode: Mode, req: Request, passes: nat)
    | Posted(task: nat, ok: bool)
    | Answered(task: nat, answer: Answer, passes: nat)
    | Returned(task: nat, result: Option<ExecResult>, passes: nat)
    | DeliverDone(task: nat, ok: bool)

  // ----- The pieces of a call -----

  function Judge(cfg: Setting, req: Request): Result<Verdict, VerdictError> {
    Evaluate(cfg.rules, Call(req.tool, req.actor))
  }

  /** The argv of a call: a shell command if one is given, else the tool and its arguments. */
  function Command(req: Request): Json {
    var given: Option<Json> := Get(req.args, Ascii("command"));
    match given
    case Some(Str(command)) => Arr([Str(Ascii("sh")), Str(Ascii("-c")), Str(command)])
    case _ => Arr([Str(req.tool), Str(Stringify(Obj(req.args)))])
  }

  function Argv(cfg: Setting, req: Request): Option<Json> { ResolvePlaceholders(Command(req), cfg.vault) }

  function Present(names: seq<Text>, vault: Vault): seq<Text> {
    if |names| == 0 then []
    else
      var rest := Present(names[1..], vault);
      match vault(names[0])
      case Some(secret) => if |secret| > 0 then [secret] + rest else rest
      case None => rest
  }

  /** The distinct non-empty secrets that a command uses. */
  function SecretValues(v: Json, vault: Vault): seq<Text> { AddAll([], Present(FindPlaceholders(v), vault)) }

  function ResultMessage(cfg: Setting, req: Request, r: ExecResult): Message {
    ToolCallResult(req.id, req.sessionId, r.exitCode == 0,
                   Some(RedactSecrets(Str(r.stdout), SecretValues(Command(req), cfg.vault))))
  }

  /** The verdict that the hook sees: allow or deny, never require. */
  function EffectiveVerdict(v: Verdict, allow: bool): Verdict {
    var effective := if allow then Allow else Deny;
    var reason :=
      if effective == v.decision then v.reason
      else EffectText(v.decision) + Ascii(" ") + [0x2192] + Ascii(" ") + EffectText(effective) +
           Ascii(" (operator decision)");
    Verdict(effective, reason, v.ruleId, v.tier)
  }

  function JudgedNote(req: Request, v: Verdict): Note { Judged(req.actor, req.id, req.tool, v) }

  function GatedNote(req: Request, allow: bool): Note { Gated(req.actor, req.id, req.tool, allow) }

  function ExecutedNote(req: Request, r: ExecResult): Note {
    Executed(req.actor, req.id, r.exitCode, FindPlaceholders(Command(req)))
  }

  // ----- One stretch of a call -----

  datatype Stretch = Stretch(acts: seq<Act>, stage: Stage)

  /** From the effective decision to the next await. */
  function Conclude(cfg: Setting, n: nat, mode: Mode, req: Request, v: Verdict, allow: bool, passes: nat): Stretch {
    match mode
    case GateOnly =>
      if passes == 0 then Stretch([], Aborted)
      else
        Stretch([Noted(n, GatedNote(req, allow)),
                 Delivered(n, VerdictMessage(req.id, req.sessionId, EffectiveVerdict(v, allow)))], Delivering)
    case Proxied =>
      if !allow then Stretch([Delivered(n, VerdictMessage(req.id, req.sessionId, v))], Delivering)
      else
        match Argv(cfg, req)
        case None => Stretch([], Aborted)
        case Some(argv) => Stretch([Started(n, req.id, argv)], Executing)
  }

  function Opening(cfg: Setting, n: nat, mode: Mode, req: Request, passes: nat): Stretch {
    match Judge(cfg, req)
    case Err(_) => Stretch([], Aborted)
    case Ok(v) =>
      if passes == 0 then Stretch([], Aborted)
      else
        var judged := [Noted(n, JudgedNote(req, v))];
        if v.decision == Require then Stretch(judged, Posting)
        else
          var rest := Conclude(cfg, n, mode, req, v, v.decision == Allow, passes - 1);
          Stretch(judged + rest.acts, rest.stage)
  }

  function Resume(cfg: Setting, n: nat, mode: Mode, req: Request, answer: Answer, passes: nat): Stretch {
    match Judge(cfg, req)
    case Err(_) => Stretch([], Aborted)
    case Ok(v) =>
      if passes == 0 then Stretch([], Aborted)
      else
        var rest := Conclude(cfg, n, mode, req, v, Approves(answer), passes - 1);
        Stretch([Noted(n, Settled(req.id, answer))] + rest.acts, rest.stage)
  }

  function Report(cfg: Setting, n: nat, req: Request, r: ExecResult, passes: nat): Stretch {
    if passes == 0 then Stretch([], Aborted)
    else Stretch([Noted(n, ExecutedNote(req, r)), Delivered(n, ResultMessage(cfg, req, r))], Delivering)
  }

  // ----- Steps and runs -----

  predicate At(s: Loop, n: nat, stage: Stage) { n < |s.tasks| && s.tasks[n].stage == stage }

  predicate Enabled(s: Loop, h: Happening) {
    match h
    case Begin(_, _, _) => true
    case Posted(n, _) => At(s, n, Posting)
    case Answered(n, _, _) => At(s, n, Deciding)
    case Returned(n, _, _) => At(s, n, Executing)
    case DeliverDone(n, _) => At(s, n, Delivering)
  }

  /** The call that a happening concerns. */
  function TaskOf(s: Loop, h: Happening): nat { if h.Begin? then |s.tasks| else h.task }

  /** What the call does next, and how it then stands. */
  function Move(cfg: Setting, s: Loop, h: Happening): (r: (seq<Act>, Task))
    requires Enabled(s, h)
  {
    match h
    case Begin(mode, req, passes) =>
      var r := Opening(cfg, |s.tasks|, mode, req, passes);
      (r.acts, Task(mode, req, r.stage, None, None))
    case Posted(n, ok) => ([], s.tasks[n].(stage := if ok then Deciding else Aborted))
    case Answered(n, answer, passes) =>
      var t := s.tasks[n];
      var r := Resume(cfg, n, t.mode, t.req, answer, passes);
      (r.acts, t.(stage := r.stage, answer := Some(answer)))
    case Returned(n, result, passes) =>
      var t := s.tasks[n];
      if result.None? then ([], t.(stage := Aborted))
      else
        var r := Report(cfg, n, t.req, result.value, passes);
        (r.acts, t.(stage := r.stage, exit := result))
    case DeliverDone(n, ok) => ([], s.tasks[n].(stage := if ok then Finished else Aborted))
  }

  /** A promise that nobody awaits settles nothing: such an entry of a run is skipped. */
  function Step(cfg: Setting, s: Loop, h: Happening): Loop {
    if !Enabled(s, h) then s
    else
      var (acts, task) := Move(cfg, s, h);
      Loop(if h.Begin? then s.tasks + [task] else s.tasks[h.task := task], s.trace + acts)
  }

  const IDLE: Loop := Loop([], [])

  function After(cfg: Setting, hs: seq<Happening>): Loop {
    if |hs| == 0 then IDLE else Step(cfg, After(cfg, hs[..|hs| - 1]), hs[|hs| - 1])
  }

  // ----- The word of a call -----

  /** The acts of one call. */
  function By(trace: seq<Act>, n: nat): seq<Act> {
    if |trace| == 0 then []
    else By(trace[..|trace| - 1], n) + (if trace[|trace| - 1].task == n then [trace[|trace| - 1]] else [])
  }

  /** Whether a call may go ahead: the policy allows it, or requires a human, who approved. */
  predicate Permitted(v: Verdict, answer: Option<Answer>) {
    v.decision == Allow || (v.decision == Require && answer.Some? && Approves(answer.value))
  }

  /** Everything that a call does in the end, given what it has been answered so far. */
  function Word(cfg: Setting, n: nat, t: Task): seq<Act> {
    match Judge(cfg, t.req)
    case Err(_) => []
    case Ok(v) =>
      [Noted(n, Judged(t.req.actor, t.req.id, t.req.tool, v))] +
      if v.decision != Require then Ending(cfg, n, t, v)
      else if t.answer.None? then []
      else [Noted(n, Settled(t.req.id, t.answer.value))] + Ending(cfg, n, t, v)
  }

  function Ending(cfg: Setting, n: nat, t: Task, v: Verdict): seq<Act> {
    var allow := Permitted(v, t.answer);
    match t.mode
    case GateOnly =>
      [Noted(n, Gated(t.req.actor, t.req.id, t.req.tool, allow)),
       Delivered(n, VerdictMessage(t.req.id, t.req.sessionId, EffectiveVerdict(v, allow)))]
    case Proxied =>
      if !allow then [Delivered(n, VerdictMessage(t.req.id, t.req.sessionId, v))]
      else
        match Argv(cfg, t.req)
        case None => []
        case Some(argv) =>
          [Started(n, t.req.id, argv)] +
          if t.exit.None? then []
          else
            var names := FindPlaceholders(Command(t.req));
            [Noted(n, Executed(t.req.actor, t.req.id, t.exit.value.exitCode, names)),
             Delivered(n, ResultMessage(cfg, t.req, t.exit.value))]
  }

  /** Where a call stands says how much of its word it has done. */
  ghost predicate OnTrack(cfg: Setting, n: nat, t: Task, acts: seq<Act>) {
    && acts <= Word(cfg, n, t)
    && (t.stage != Aborted ==> acts == Word(cfg, n, t) && Judge(cfg, t.req).Ok?)
    && (t.stage in {Posting, Deciding} ==>
          Judge(cfg, t.req).value.decision == Require && t.answer.None? && t.exit.None?)
    && (t.stage == Executing ==> t.exit.None? && Going(cfg, t))
    && (t.stage in {Delivering, Finished} ==>
          (Judge(cfg, t.req).value.decision == Require ==> t.answer.Some?) &&
          (t.mode == Proxied && Permitted(Judge(cfg, t.req).value, t.answer) ==> Going(cfg, t) && t.exit.Some?))
  }

  predicate Going(cfg: Setting, t: Task)
  {
    && t.mode == Proxied && Judge(cfg, t.req).Ok?
    && Permitted(Judge(cfg, t.req).value, t.answer)
    && (Judge(cfg, t.req).value.decision == Require ==> t.answer.Some?)
    && Argv(cfg, t.req).Some?
  }

  ghost predicate Consistent(cfg: Setting, s: Loop) {
    && (forall n :: 0 <= n < |s.tasks| ==> OnTrack(cfg, n, s.tasks[n], By(s.trace, n)))
    && (forall p :: 0 <= p < |s.trace| ==> s.trace[p].task < |s.tasks|)
  }

  lemma {:induction false} ByConcat(trace: seq<Act>, acts: seq<Act>, m: nat, n: nat)
    requires forall i :: 0 <= i < |acts| ==> acts[i].task == m
    ensures By(trace + acts, n) == By(trace, n) + if n == m then acts else []
    decreases |acts|
  {
    if |acts| == 0 {
      assert trace + acts == trace;
    } else {
      ByConcat(trace, acts[..|acts| - 1], m, n);
      assert (trace + acts)[..|trace + acts| - 1] == trace + acts[..|acts| - 1];
      assert acts == acts[..|acts| - 1] + [acts[|acts| - 1]];
    }
  }

  lemma {:induction false} ByNone(trace: seq<Act>, n: nat)
    requires forall p :: 0 <= p < |trace| ==> trace[p].task < n
    ensures By(trace, n) == []
  {
    if |trace| > 0 { ByNone(trace[..|trace| - 1], n); }
  }

  lemma OwnActs(cfg: Setting, s: Loop, h: Happening)
    requires Enabled(s, h)
    ensures forall i :: 0 <= i < |Move(cfg, s, h).0| ==> Move(cfg, s, h).0[i].task == TaskOf(s, h)
  {
    hide Judge, Argv, EffectiveVerdict, ResultMessage, Command, FindPlaceholders;
  }

  lemma OpeningOnTrack(cfg: Setting, n: nat, mode: Mode, req: Request, passes: nat)
    ensures var r := Opening(cfg, n, mode, req, passes);
            OnTrack(cfg, n, Task(mode, req, r.stage, None, None), r.acts)
  {
    hide Judge, Argv, EffectiveVerdict, ResultMessage, Command, FindPlaceholders;
  }

  lemma ResumeOnTrack(cfg: Setting, n: nat, t: Task, acts: seq<Act>, answer: Answer, passes: nat)
    requires OnTrack(cfg, n, t, acts) && t.stage == Deciding
    ensures var r := Resume(cfg, n, t.mode, t.req, answer, passes);
            OnTrack(cfg, n, t.(stage := r.stage, answer := Some(answer)), acts + r.acts)
  {
    hide Judge, Argv, EffectiveVerdict, ResultMessage, Command, FindPlaceholders;
  }

  lemma ReportOnTrack(cfg: Setting, n: nat, t: Task, acts: seq<Act>, result: ExecResult, passes: nat)
    requires OnTrack(cfg, n, t, acts) && t.stage == Executing
    ensures var r := Report(cfg, n, t.req, result, passes);
            OnTrack(cfg, n, t.(stage := r.stage, exit := Some(result)), acts + r.acts)
  {
    hide Judge, Argv, EffectiveVerdict, ResultMessage, Command, FindPlaceholders;
  }

  lemma StageOnTrack(cfg: Setting, s: Loop, h: Happening, acts: seq<Act>)
    requires Enabled(s, h)
    requires if h.Begin? then acts == [] else OnTrack(cfg, h.task, s.tasks[h.task], acts)
    ensures OnTrack(cfg, TaskOf(s, h), Move(cfg, s, h).1, acts + Move(cfg, s, h).0)
  {
    hide Opening, Resume, Report, Judge, Argv, Word, Going;
    match h
    case Begin(mode, req, passes) =>
      OpeningOnTrack(cfg, |s.tasks|, mode, req, passes);
      assert [] + Move(cfg, s, h).0 == Move(cfg, s, h).0;
    case Posted(n, ok) => WordIgnoresStage(cfg, n, s.tasks[n], Move(cfg, s, h).1);
    case Answered(n, answer, passes) => ResumeOnTrack(cfg, n, s.tasks[n], acts, answer, passes);
    case Returned(n, result, passes) =>
      if result.None? { WordIgnoresStage(cfg, n, s.tasks[n], Move(cfg, s, h).1); }
      else { ReportOnTrack(cfg, n, s.tasks[n], acts, result.value, passes); }
    case DeliverDone(n, ok) => WordIgnoresStage(cfg, n, s.tasks[n], Move(cfg, s, h).1);
  }

  lemma WordIgnoresStage(cfg: Setting, n: nat, t: Task, u: Task)
    requires u == t.(stage := u.stage)
    ensures Word(cfg, n, u) == Word(cfg, n, t) && (Going(cfg, u) <==> Going(cfg, t))
  {
    hide Judge, Argv, EffectiveVerdict, ResultMessage, Command, FindPlaceholders, Permitted;
  }

  lemma StepConsistent(cfg: Setting, s: Loop, h: Happening)
    requires Consistent(cfg, s)
    ensures Consistent(cfg, Step(cfg, s, h))
  {
    hide OnTrack, Move, By;
    if Enabled(s, h) {
      var m := TaskOf(s, h);
      var (acts, task) := Move(cfg, s, h);
      OwnActs(cfg, s, h);
      if h.Begin? { ByNone(s.trace, m); }
      StageOnTrack(cfg, s, h, By(s.trace, m));
      var next := Step(cfg, s, h);
      forall n | 0 <= n < |next.tasks| ensures OnTrack(cfg, n, next.tasks[n], By(next.trace, n)) {
        ByConcat(s.trace, acts, m, n);
        assert By(s.trace, n) + [] == By(s.trace, n);
      }
    }
  }

  lemma {:induction false} RunConsistent(cfg: Setting, hs: seq<Happening>)
    ensures Consistent(cfg, After(cfg, hs))
  {
    hide Step, Consistent;
    if |hs| == 0 {
      IdleConsistent(cfg);
    } else {
      RunConsistent(cfg, hs[..|hs| - 1]);
      StepConsistent(cfg, After(cfg, hs[..|hs| - 1]), hs[|hs| - 1]);
    }
  }

  lemma IdleConsistent(cfg: Setting)
    ensures Consistent(cfg, IDLE)
  {
  }

  // ----- The daemon object -----

  /** Each method is what runs between two awaits of a call. */
  class Daemon {
    const cfg: Setting
    var tasks: seq<Task>
    var trace: seq<Act>

    function View(): Loop
      reads this
    {
      Loop(tasks, trace)
    }

    constructor (cfg: Setting)
      ensures View() == IDLE && this.cfg == cfg
    {
      this.cfg := cfg;
      tasks, trace := [], [];
    }

    method OpenCall(mode: Mode, req: Request, passes: nat)
      modifies this
      ensures View() == Step(cfg, old(View()), Begin(mode, req, passes))
    {
      hide Judge, Argv, EffectiveVerdict;
      var n := |tasks|;
      tasks := tasks + [Task(mode, req, Aborted, None, None)];
      var verdict := Judge(cfg, req);
      if verdict.Err? || passes == 0 { return; }
      var v := verdict.value;
      trace := trace + [Noted(n, JudgedNote(req, v))];
      if v.decision == Require {
        SetStage(n, Posting);
        return;
      }
      ConcludeCall(n, v, v.decision == Allow, passes - 1);
    }

    method SetStage(n: nat, stage: Stage)
      requires n < |tasks|
      modifies this`tasks
      ensures tasks == old(tasks)[n := old(tasks)[n].(stage := stage)]
    {
      tasks := tasks[n := tasks[n].(stage := stage)];
    }

    method ConcludeCall(n: nat, v: Verdict, allow: bool, passes: nat)
      requires n < |tasks|
      modifies this
      ensures var t := old(tasks)[n];
              var r := Conclude(cfg, n, t.mode, t.req, v, allow, passes);
              tasks == old(tasks)[n := t.(stage := r.stage)] && trace == old(trace) + r.acts
    {
      hide Argv, EffectiveVerdict;
      var t := tasks[n];
      if t.mode == GateOnly {
        if passes == 0 {
          SetStage(n, Aborted);
          return;
        }
        trace := trace + [Noted(n, GatedNote(t.req, allow))];
        trace := trace + [Delivered(n, VerdictMessage(t.req.id, t.req.sessionId, EffectiveVerdict(v, allow)))];
        SetStage(n, Delivering);
      } else if allow {
        var argv := Argv(cfg, t.req);
        if argv.None? {
          SetStage(n, Aborted);
          return;
        }
        trace := trace + [Started(n, t.req.id, argv.value)];
        SetStage(n, Executing);
      } else {
        trace := trace + [Delivered(n, VerdictMessage(t.req.id, t.req.sessionId, v))];
        SetStage(n, Delivering);
      }
    }

    method RequestPosted(n: nat, ok: bool)
      requires At(View(), n, Posting)
      modifies this
      ensures View() == Step(cfg, old(View()), Posted(n, ok))
    {
      SetStage(n, if ok then Deciding else Aborted);
    }

    method DecisionReached(n: nat, answer: Answer, passes: nat)
      requires At(View(), n, Deciding)
      modifies this
      ensures View() == Step(cfg, old(View()), Answered(n, answer, passes))
    {
      hide Argv, EffectiveVerdict, Judge, Conclude;
      var t := tasks[n];
      tasks := tasks[n := t.(answer := Some(answer))];
      var verdict := Judge(cfg, t.req);
      if verdict.Err? || passes == 0 {
        SetStage(n, Aborted);
        return;
      }
      trace := trace + [Noted(n, Settled(t.req.id, answer))];
      ConcludeCall(n, verdict.value, Approves(answer), passes - 1);
    }

    method ExecFinished(n: nat, result: Option<ExecResult>, passes: nat)
      requires At(View(), n, Executing)
      modifies this
      ensures View() == Step(cfg, old(View()), Returned(n, result, passes))
    {
      hide ExecutedNote, ResultMessage;
      var t := tasks[n];
      if result.None? {
        SetStage(n, Aborted);
        return;
      }
      tasks := tasks[n := t.(exit := result)];
      if passes == 0 {
        SetStage(n, Aborted);
        return;
      }
      trace := trace + [Noted(n, ExecutedNote(t.req, result.value))];
      trace := trace + [Delivered(n, ResultMessage(cfg, t.req, result.value))];
      SetStage(n, Delivering);
    }

    method DeliverFinished(n: nat, ok: bool)
      requires At(View(), n, Delivering)
      modifies this
      ensures View() == Step(cfg, old(View()), DeliverDone(n, ok))
    {
      SetStage(n, if ok then Finished else Aborted);
    }
  }
}
