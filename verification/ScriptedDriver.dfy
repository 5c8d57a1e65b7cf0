/** The scripted driver under its lease: one mediated call after the other, each followed by a
    heartbeat, while other daemons and sweeps act on the same store at any moment between. */
module ScriptedDriver {
  import opened Utf16
  import opened Wrappers
  import opened Records
  import opened SessionStore
  import opened Ownership

  datatype Phase = Running | Closing | Done | Crashed

  datatype Note =
    | SessionStarted(sessionId: Text)
    | SessionEnded(sessionId: Text, calls: nat)
    | SessionReaped(sessionId: Text, token: nat, reapedBy: Text)

  /** A driver whose acquire returned grant number mine, with total calls to mediate. */
  datatype Driver = Driver(
    store: Store, mine: nat, ttl: int, total: nat, completed: nat, phase: Phase, journal: seq<Note>)

  /** Another party calls the store; a mediate call of the driver finishes or throws; the sandbox is
      torn down, the intendant stopped and session.ended appended, or one of these throws. */
  datatype Event =
    | Other(action: Action)
    | Mediated(now: int, ok: bool)
    | Finish(now: int, ok: bool)

  predicate WellMade(d: Driver) { d.mine < |d.store.grants| && d.completed <= d.total }

  function SessionOf(d: Driver): Text
    requires WellMade(d)
  {
    d.store.grants[d.mine].lease.sessionId
  }

  function Opened(store: Store, mine: nat, ttl: int, total: nat): Driver
    requires mine < |store.grants|
  {
    Driver(store, mine, ttl, total, 0, if total == 0 then Closing else Running,
           [SessionStarted(store.grants[mine].lease.sessionId)])
  }

  /** Between two awaits nothing else runs: a call's completion and its heartbeat are one step, and
      so are session.ended and the release. */
  function Next(d: Driver, e: Event): Driver
    requires WellMade(d)
  {
    match e
    case Other(a) => d.(store := Step(d.store, a))
    case Mediated(now, ok) =>
      if d.phase != Running || now < d.store.clock || d.completed >= d.total then d
      else if !ok then d.(phase := Crashed)
      else
        var n := d.completed + 1;
        var beaten := d.(store := Step(d.store, Beat(d.mine, now, d.ttl)), completed := n);
        if HeartbeatResult(d.store.rec, d.store.grants[d.mine].lease, now, d.ttl).Err? then beaten.(phase := Crashed)
        else beaten.(phase := if n == d.total then Closing else Running)
    case Finish(now, ok) =>
      if d.phase != Closing || now < d.store.clock then d
      else if !ok then d.(phase := Crashed)
      else d.(phase := Done, store := Step(d.store, Free(d.mine, now)),
              journal := d.journal + [SessionEnded(SessionOf(d), d.completed)])
  }

  lemma NextWellMade(d: Driver, e: Event)
    requires WellMade(d)
    ensures WellMade(Next(d, e)) && SessionOf(Next(d, e)) == SessionOf(d)
    ensures Next(d, e).mine == d.mine && Next(d, e).total == d.total
  {
    hide Step;
    match e
    case Other(a) => GrantsStay(d.store, a);
    case Mediated(now, ok) => GrantsStay(d.store, Beat(d.mine, now, d.ttl));
    case Finish(now, ok) => GrantsStay(d.store, Free(d.mine, now));
  }

  function Run(d: Driver, es: seq<Event>): Driver
    requires WellMade(d)
    decreases |es|
  {
    if |es| == 0 then d
    else
      NextWellMade(d, es[0]);
      Run(Next(d, es[0]), es[1..])
  }

  // ----- The lease decides whether the driver goes on -----

  lemma NextConsistent(d: Driver, e: Event)
    requires WellMade(d) && Consistent(d.store)
    ensures Consistent(Next(d, e).store)
  {
    hide Step, Consistent;
    match e
    case Other(a) => StepConsistent(d.store, a);
    case Mediated(now, ok) => StepConsistent(d.store, Beat(d.mine, now, d.ttl));
    case Finish(now, ok) => StepConsistent(d.store, Free(d.mine, now));
  }

  /** A finished call is fenced exactly when the driver no longer holds its lease. */
  lemma FencedExactly(d: Driver, now: int)
    requires WellMade(d) && Consistent(d.store) && SessionOf(d) != PROTO
    requires d.phase == Running && d.store.clock <= now && d.completed < d.total
    ensures Next(d, Mediated(now, true)).phase == Crashed <==> !Holds(d.store, d.mine)
    ensures Next(d, Mediated(now, true)).completed == d.completed + 1
  {
    HeartbeatExactly(d.store, d.mine, now, d.ttl);
  }

  /** A driver without its lease changes nothing in the store. */
  lemma InertOnceLost(d: Driver, e: Event)
    requires WellMade(d) && Consistent(d.store) && SessionOf(d) != PROTO
    requires !Holds(d.store, d.mine) && !e.Other?
    ensures Next(d, e).store.rec == d.store.rec && Next(d, e).store.grants == d.store.grants
  {
    match e
    case Mediated(now, ok) => HeartbeatExactly(d.store, d.mine, now, d.ttl);
    case Finish(now, ok) => ReleaseExactly(d.store, d.mine);
    case _ =>
  }

  lemma StaysLost(d: Driver, e: Event)
    requires WellMade(d) && Consistent(d.store) && SessionOf(d) != PROTO && !Holds(d.store, d.mine)
    ensures WellMade(Next(d, e)) && !Holds(Next(d, e).store, d.mine)
  {
    hide Consistent, Holds, Step;
    NextWellMade(d, e);
    match e
    case Other(a) => LostForGood(d.store, a, d.mine);
    case Mediated(now, ok) => LostForGood(d.store, Beat(d.mine, now, d.ttl), d.mine);
    case Finish(now, ok) => LostForGood(d.store, Free(d.mine, now), d.mine);
  }

  /** From the loss of its lease on, whatever else happens: at most one more call completes, the
      heartbeat after it stops the driver, and session.ended is journaled only if every call had
      already been renewed before the loss. */
  lemma {:induction false} AfterLoss(d: Driver, es: seq<Event>)
    requires WellMade(d) && Consistent(d.store) && SessionOf(d) != PROTO && !Holds(d.store, d.mine)
    ensures var end := Run(d, es);
            && end.completed <= d.completed + 1
            && (end.completed > d.completed ==> d.phase == Running && end.phase == Crashed)
            && (d.phase == Running ==> end.phase in {Running, Crashed} && end.journal == d.journal)
            && (d.phase == Crashed ==> end.phase == Crashed && end.journal == d.journal)
            && (end.phase == Done ==> d.phase in {Closing, Done})
    decreases |es|
  {
    hide Consistent, Holds, Step;
    if |es| > 0 {
      NextWellMade(d, es[0]);
      NextConsistent(d, es[0]);
      StaysLost(d, es[0]);
      if es[0].Mediated? { LostBeat(d, es[0].now); }
      AfterLoss(Next(d, es[0]), es[1..]);
    }
  }

  lemma LostBeat(d: Driver, now: int)
    requires WellMade(d) && Consistent(d.store) && SessionOf(d) != PROTO && !Holds(d.store, d.mine)
    ensures HeartbeatResult(d.store.rec, d.store.grants[d.mine].lease, now, d.ttl).Err?
  {
    HeartbeatExactly(d.store, d.mine, now, d.ttl);
  }

  /** What the driver's phase says about its calls and its journal. */
  ghost predicate Orderly(d: Driver) {
    && WellMade(d)
    && (d.phase == Running ==> d.completed < d.total)
    && (d.phase in {Closing, Done} ==> d.completed == d.total)
    && d.journal == [SessionStarted(SessionOf(d))] +
                    if d.phase == Done then [SessionEnded(SessionOf(d), d.total)] else []
  }

  lemma NextOrderly(d: Driver, e: Event)
    requires Orderly(d)
    ensures Orderly(Next(d, e))
  {
    hide Step, HeartbeatResult;
    NextWellMade(d, e);
  }

  /** Every run of a driver: session.ended is written exactly when the driver is done, after all
      the calls of the script, and nothing follows it. */
  lemma {:induction false} RunOrderly(d: Driver, es: seq<Event>)
    requires Orderly(d)
    ensures Orderly(Run(d, es)) && SessionOf(Run(d, es)) == SessionOf(d) && Run(d, es).total == d.total
    decreases |es|
  {
    hide Next;
    if |es| > 0 {
      NextWellMade(d, es[0]);
      NextOrderly(d, es[0]);
      RunOrderly(Next(d, es[0]), es[1..]);
    }
  }

  /** Once another owner acquires the session, or a sweep reaps it, the driver is done for. */
  lemma TakenOver(d: Driver, a: Action, es: seq<Event>)
    requires Orderly(d) && Consistent(d.store) && SessionOf(d) != PROTO && Possible(d.store, a)
    requires
      || (a.Take? && a.sessionId == SessionOf(d) &&
          AcquireResult(d.store.rec, a.sessionId, a.owner, a.now, a.ttl).Ok?)
      || (a.Sweep? && d.store.grants[d.mine].end <= a.now)
    ensures WellMade(Next(d, Other(a)))
    ensures var end := Run(Next(d, Other(a)), es);
            && end.completed <= d.completed + 1
            && (end.completed > d.completed ==> end.phase == Crashed)
            && (d.phase == Running ==> end.journal == [SessionStarted(SessionOf(d))])
  {
    hide Consistent, Holds, Step;
    NextWellMade(d, Other(a));
    StepConsistent(d.store, a);
    LostBy(d.store, a, d.mine);
    AfterLoss(Next(d, Other(a)), es);
  }

  // ----- The driver object -----

  class Daemon {
    const store: InMemorySessionStore
    const ttl: int
    const total: nat
    var lease: Lease
    var completed: nat
    var phase: Phase
    var journal: seq<Note>
    ghost var view: Driver

    /** The object and the store hold what the abstract driver says. */
    ghost predicate Valid()
      reads this, store
    {
      && WellMade(view) && Consistent(view.store)
      && store.rec == view.store.rec && ttl == view.ttl && total == view.total
      && completed == view.completed && phase == view.phase && journal == view.journal
      && lease.sessionId == SessionOf(view) && lease.token == view.store.grants[view.mine].lease.token
    }

    constructor (store: InMemorySessionStore, lease: Lease, ttl: int, total: nat, ghost start: Driver)
      requires WellMade(start) && Consistent(start.store) && store.rec == start.store.rec
      requires lease == start.store.grants[start.mine].lease
      requires start == Opened(start.store, start.mine, ttl, total)
      ensures Valid() && view == start && this.store == store
    {
      this.store, this.lease, this.ttl, this.total := store, lease, ttl, total;
      completed, phase := 0, if total == 0 then Closing else Running;
      journal := [SessionStarted(lease.sessionId)];
      view := start;
    }

    /** What follows a mediate call, up to the next await. */
    method AfterMediate(now: int, ok: bool)
      requires Valid() && phase == Running && completed < total && view.store.clock <= now
      modifies this, store
      ensures Valid() && view == Next(old(view), Mediated(now, ok))
    {
      hide Consistent, HeartbeatResult, Assign;
      if !ok {
        phase := Crashed;
        view := Next(view, Mediated(now, false));
        return;
      }
      NextWellMade(view, Mediated(now, true));
      NextConsistent(view, Mediated(now, true));
      HandleMatters(view.store, view.mine, lease, now, ttl);
      completed := completed + 1;
      var renewed := store.Heartbeat(lease, now, ttl);
      view := Next(view, Mediated(now, true));
      match renewed
      case Err(_) => phase := Crashed;
      case Ok(l) =>
        lease := l;
        phase := if completed == total then Closing else Running;
    }

    /** The end of a session: session.ended, then the release. */
    method Close(now: int, ok: bool)
      requires Valid() && phase == Closing && view.store.clock <= now
      modifies this, store
      ensures Valid() && view == Next(old(view), Finish(now, ok))
    {
      hide Consistent, ReleaseResult, Assign;
      NextWellMade(view, Finish(now, ok));
      NextConsistent(view, Finish(now, ok));
      ReleaseHandle(view.store, view.mine, lease);
      view := Next(view, Finish(now, ok));
      if !ok {
        phase := Crashed;
        return;
      }
      journal := journal + [SessionEnded(lease.sessionId, completed)];
      store.Release(lease);
      phase := Done;
    }
  }

  /** The store looks only at the session and the token of a handle, and a renewed handle keeps both. */
  lemma HandleMatters(s: Store, g: nat, handle: Lease, now: int, ttl: int)
    requires Consistent(s) && g < |s.grants|
    requires handle.sessionId == s.grants[g].lease.sessionId && handle.token == s.grants[g].lease.token
    ensures var r := HeartbeatResult(s.rec, handle, now, ttl);
            && r == HeartbeatResult(s.rec, s.grants[g].lease, now, ttl)
            && (r.Ok? ==> r.value.sessionId == handle.sessionId && r.value.token == handle.token)
  {
    hide Consistent;
    HeartbeatExactly(s, g, now, ttl);
  }

  lemma ReleaseHandle(s: Store, g: nat, handle: Lease)
    requires g < |s.grants|
    requires handle.sessionId == s.grants[g].lease.sessionId && handle.token == s.grants[g].lease.token
    ensures ReleaseResult(s.rec, handle) == ReleaseResult(s.rec, s.grants[g].lease)
  {
  }

  // ----- Recovery at startup -----

  function ReapNotes(leases: seq<Lease>, instance: Text): (r: seq<Note>)
    ensures |r| == |leases|
    ensures forall i :: 0 <= i < |r| ==> r[i] == SessionReaped(leases[i].sessionId, leases[i].token, instance)
  {
    seq(|leases|, i requires 0 <= i < |leases| => SessionReaped(leases[i].sessionId, leases[i].token, instance))
  }

  /** recoverSessions: sweeps the store, then journals each reaped lease. The append after the first
      passes ones throws: the later leases then stay reaped without an event. */
  method RecoverSessions(store: InMemorySessionStore, now: int, instance: Text, passes: nat)
    returns (reaped: Option<seq<Lease>>, notes: seq<Note>)
    requires GoodRecord(store.rec)
    modifies store
    ensures store.rec == Swept(old(store.rec), now)
    ensures var all := ReapedBy(old(store.rec), now);
            && reaped == (if |all| <= passes then Some(all) else None)
            && notes == ReapNotes(if |all| <= passes then all else all[..passes], instance)
  {
    var all := store.ReapExpired(now);
    notes := [];
    for i := 0 to |all|
      invariant i <= passes && notes == ReapNotes(all[..i], instance)
    {
      if i == passes { return None, notes; }
      notes := notes + [SessionReaped(all[i].sessionId, all[i].token, instance)];
    }
    assert all[..|all|] == all;
    reaped := Some(all);
  }
}
