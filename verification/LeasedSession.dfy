/** A live session under its lease: its heartbeats go to the store, on which other daemons and sweeps
    act at any moment between. */
module LeasedSession {
  import opened Utf16
  import opened Wrappers
  import opened Records
  import opened SessionStore
  import opened Ownership
  import L = LiveSession
  import Governance

  /** A session whose acquire returned grant number mine. */
  datatype Leased = Leased(live: L.Live, store: Store, mine: nat, ttl: int)

  /** Another party calls the store; the session takes a step of its own; a finished call is pushed
      and its heartbeat reads this time; the session ends and releases its lease. */
  datatype Event =
    | Other(action: Action)
    | Goes(event: L.Event)
    | Beats(task: nat, now: int)
    | Ends(now: int, ok: bool)

  predicate WellMade(d: Leased) { d.mine < |d.store.grants| }

  function SessionOf(d: Leased): Text
    requires WellMade(d)
  {
    d.store.grants[d.mine].lease.sessionId
  }

  /** What the session sees of an event. */
  function LivePart(d: Leased, e: Event): Option<L.Event>
    requires WellMade(d)
  {
    match e
    case Other(_) => None
    case Goes(x) => if x.Emit? || x.Settle? then Some(x) else None
    case Beats(n, now) =>
      if now < d.store.clock then None
      else Some(L.Push(n, HeartbeatResult(d.store.rec, d.store.grants[d.mine].lease, now, d.ttl).Ok?))
    case Ends(now, ok) => if now < d.store.clock then None else Some(L.End(ok))
  }

  /** What the store sees of an event. */
  function StorePart(cfg: Governance.Setting, d: Leased, e: Event): Option<Action>
    requires WellMade(d)
  {
    match e
    case Other(a) => Some(a)
    case Goes(_) => None
    case Beats(n, now) =>
      if L.Enabled(d.live, L.Push(n, true)) then Some(Beat(d.mine, now, d.ttl)) else None
    case Ends(now, ok) =>
      var l := L.Step(cfg, d.live, L.End(ok));
      if d.live.phase == L.Running && l.phase == L.Done then Some(Free(d.mine, now)) else None
  }

  function Next(cfg: Governance.Setting, d: Leased, e: Event): Leased
    requires WellMade(d)
  {
    d.(live := match LivePart(d, e) case Some(x) => L.Step(cfg, d.live, x) case None => d.live,
       store := match StorePart(cfg, d, e) case Some(a) => Step(d.store, a) case None => d.store)
  }

  lemma NextWellMade(cfg: Governance.Setting, d: Leased, e: Event)
    requires WellMade(d)
    ensures WellMade(Next(cfg, d, e)) && SessionOf(Next(cfg, d, e)) == SessionOf(d) && Next(cfg, d, e).mine == d.mine
    ensures Consistent(d.store) ==> Consistent(Next(cfg, d, e).store)
  {
    hide Step, L.Step, L.Enabled, Consistent;
    if StorePart(cfg, d, e).Some? {
      GrantsStay(d.store, StorePart(cfg, d, e).value);
      if Consistent(d.store) { StepConsistent(d.store, StorePart(cfg, d, e).value); }
    }
  }

  function Run(cfg: Governance.Setting, d: Leased, es: seq<Event>): Leased
    requires WellMade(d)
    decreases |es|
  {
    if |es| == 0 then d
    else
      NextWellMade(cfg, d, es[0]);
      Run(cfg, Next(cfg, d, es[0]), es[1..])
  }

  // ----- The session by itself -----

  function LiveParts(cfg: Governance.Setting, d: Leased, es: seq<Event>): seq<L.Event>
    requires WellMade(d)
    decreases |es|
  {
    if |es| == 0 then []
    else
      NextWellMade(cfg, d, es[0]);
      var rest := LiveParts(cfg, Next(cfg, d, es[0]), es[1..]);
      match LivePart(d, es[0]) case Some(x) => [x] + rest case None => rest
  }

  /** The session runs as live sessions do, with the heartbeats that the store grants or refuses; so
      what holds of all live sessions holds of it. */
  lemma {:induction false} RunsAlone(cfg: Governance.Setting, d: Leased, es: seq<Event>, sessionId: Text,
                                     script: seq<L.ToolStep>, before: seq<L.Event>)
    requires WellMade(d) && d.live == L.After(cfg, sessionId, script, before)
    ensures Run(cfg, d, es).live == L.After(cfg, sessionId, script, before + LiveParts(cfg, d, es))
    decreases |es|
  {
    hide L.Step, LivePart, StorePart, Step;
    if |es| == 0 {
      assert before + LiveParts(cfg, d, es) == before;
    } else {
      NextWellMade(cfg, d, es[0]);
      var next := Next(cfg, d, es[0]);
      match LivePart(d, es[0])
      case None => RunsAlone(cfg, next, es[1..], sessionId, script, before);
      case Some(x) =>
        L.AfterOne(cfg, sessionId, script, before, x);
        RunsAlone(cfg, next, es[1..], sessionId, script, before + [x]);
        assert before + [x] + LiveParts(cfg, next, es[1..]) == before + ([x] + LiveParts(cfg, next, es[1..]));
    }
  }

  // ----- The lease -----

  /** A heartbeat fails a session exactly when the session no longer holds its lease. */
  lemma FailsExactly(cfg: Governance.Setting, d: Leased, n: nat, now: int)
    requires WellMade(d) && Consistent(d.store) && SessionOf(d) != PROTO
    requires d.store.clock <= now && L.Enabled(d.live, L.Push(n, true))
    ensures var next := Next(cfg, d, Beats(n, now));
            && next.live.outcomes == d.live.outcomes + [n]
            && (next.live.failed <==> d.live.failed || !Holds(d.store, d.mine))
            && next.store == Step(d.store, Beat(d.mine, now, d.ttl))
  {
    hide Holds, Consistent, Step;
    HeartbeatExactly(d.store, d.mine, now, d.ttl);
  }

  lemma StaysLost(cfg: Governance.Setting, d: Leased, e: Event)
    requires WellMade(d) && Consistent(d.store) && SessionOf(d) != PROTO && !Holds(d.store, d.mine)
    ensures WellMade(Next(cfg, d, e)) && !Holds(Next(cfg, d, e).store, d.mine)
  {
    hide Consistent, Holds, Step, L.Step, L.Enabled;
    NextWellMade(cfg, d, e);
    if StorePart(cfg, d, e).Some? { LostForGood(d.store, StorePart(cfg, d, e).value, d.mine); }
  }

  /** What can change in a session that has lost its lease: a call that is pushed fails it. */
  lemma LostNext(cfg: Governance.Setting, d: Leased, e: Event)
    requires WellMade(d) && Consistent(d.store) && SessionOf(d) != PROTO && !Holds(d.store, d.mine)
    ensures var l, next := d.live, Next(cfg, d, e).live;
            && (l.failed ==> next.failed)
            && (next.failed || next.outcomes == l.outcomes)
            && (next.phase == L.Done && l.phase != L.Done ==> !next.failed)
            && (l.phase != L.Running ==> next == l)
  {
    hide Consistent, Holds, Step;
    if e.Beats? { HeartbeatExactly(d.store, d.mine, e.now, d.ttl); }
  }

  /** From the loss of its lease on, whatever else happens: a session ends with session.ended only if
      all its calls had been renewed before the loss; the first call that completes after it fails the
      session for good. */
  lemma {:induction false} AfterLoss(cfg: Governance.Setting, d: Leased, es: seq<Event>)
    requires WellMade(d) && Consistent(d.store) && SessionOf(d) != PROTO && !Holds(d.store, d.mine)
    ensures var l, end := d.live, Run(cfg, d, es).live;
            && (end.failed || end.outcomes == l.outcomes)
            && (l.failed ==> end.failed)
            && (l.phase != L.Running ==> end == l)
            && (end.phase == L.Done && l.phase != L.Done ==> l.phase == L.Running && !end.failed)
    decreases |es|
  {
    hide Consistent, Holds, Next;
    if |es| > 0 {
      NextWellMade(cfg, d, es[0]);
      StaysLost(cfg, d, es[0]);
      LostNext(cfg, d, es[0]);
      AfterLoss(cfg, Next(cfg, d, es[0]), es[1..]);
    }
  }

  /** Once another owner acquires the session, or a sweep reaps it, the session journals session.ended
      only if each call of its script had been renewed before that. */
  lemma TakenOver(cfg: Governance.Setting, d: Leased, a: Action, es: seq<Event>, sessionId: Text,
                  script: seq<L.ToolStep>, before: seq<L.Event>)
    requires WellMade(d) && Consistent(d.store) && SessionOf(d) != PROTO && Possible(d.store, a)
    requires d.live == L.After(cfg, sessionId, script, before) && d.live.phase == L.Running
    requires
      || (a.Take? && a.sessionId == SessionOf(d) &&
          AcquireResult(d.store.rec, a.sessionId, a.owner, a.now, a.ttl).Ok?)
      || (a.Sweep? && d.store.grants[d.mine].end <= a.now)
    ensures var taken := Next(cfg, d, Other(a));
            && WellMade(taken) && !Holds(taken.store, d.mine)
            && (Run(cfg, taken, es).live.phase == L.Done ==> |d.live.outcomes| == |script| && !d.live.failed)
  {
    hide Consistent, Holds, Step, L.Step, L.After, L.Good, Run, L.InOrder;
    NextWellMade(cfg, d, Other(a));
    LostBy(d.store, a, d.mine);
    var taken := Next(cfg, d, Other(a));
    AfterLoss(cfg, taken, es);
    RunsAlone(cfg, taken, es, sessionId, script, before);
    AllPushedAtEnd(cfg, sessionId, script, before + LiveParts(cfg, taken, es));
  }

  lemma AllPushedAtEnd(cfg: Governance.Setting, sessionId: Text, script: seq<L.ToolStep>, es: seq<L.Event>)
    ensures var l := L.After(cfg, sessionId, script, es);
            l.phase == L.Done ==> |l.outcomes| == |script| && !l.failed
  {
    hide L.After, Governance.Consistent;
    L.RunGood(cfg, sessionId, script, es);
  }
}
