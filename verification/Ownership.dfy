/** Runs of the session store: which owner holds a session over which interval of time. Clocks do
    not run backwards; time-to-live values are arbitrary and may differ from call to call. */
module Ownership {
  import opened Utf16
  import opened Wrappers
  import opened Records
  import opened SessionStore

  /** A successful acquire: the handle it returned and the interval for which the session was
      granted, as later changed by heartbeats and a release. */
  datatype Grant = Grant(lease: Lease, start: int, end: int)

  datatype Store = Store(rec: Leases, clock: int, grants: seq<Grant>)

  /** One call on the store. Handles are named by the number of the grant that returned them. */
  datatype Action =
    | Take(sessionId: Text, owner: Text, now: int, ttl: int)
    | Beat(grant: nat, now: int, ttl: int)
    | Free(grant: nat, now: int)
    | Sweep(now: int)

  const EMPTY: Store := Store([], 0, [])

  /** An owner that takes a session again gives up the grants that it had. */
  function GivenUp(gs: seq<Grant>, sessionId: Text, owner: Text, now: int): (r: seq<Grant>)
    ensures |r| == |gs|
    ensures forall i :: 0 <= i < |gs| ==> r[i] == Cut(gs[i], sessionId, owner, now)
  {
    seq(|gs|, i requires 0 <= i < |gs| => Cut(gs[i], sessionId, owner, now))
  }

  function Cut(g: Grant, sessionId: Text, owner: Text, now: int): Grant {
    if g.lease.sessionId == sessionId && g.lease.owner == owner then EndedBy(g, now) else g
  }

  function EndedBy(g: Grant, now: int): Grant { g.(end := if g.end < now then g.end else now) }

  predicate Possible(s: Store, a: Action) {
    s.clock <= a.now && (a.Beat? || a.Free? ==> a.grant < |s.grants|)
  }

  /** One call; an action with an earlier clock or an unknown handle is skipped. */
  function Step(s: Store, a: Action): Store {
    if !Possible(s, a) then s
    else
      match a
      case Take(sessionId, owner, now, ttl) => TakeStep(s, sessionId, owner, now, ttl)
      case Beat(g, now, ttl) => BeatStep(s, g, now, ttl)
      case Free(g, now) => FreeStep(s, g, now)
      case Sweep(now) => Store(Swept(s.rec, now), now, s.grants)
  }

  function TakeStep(s: Store, sessionId: Text, owner: Text, now: int, ttl: int): Store {
    match AcquireResult(s.rec, sessionId, owner, now, ttl)
    case Err(_) => s.(clock := now)
    case Ok(l) =>
      Store(Assign(s.rec, sessionId, l), now,
            GivenUp(s.grants, sessionId, owner, now) + [Grant(l, now, l.expiresAt)])
  }

  function BeatStep(s: Store, g: nat, now: int, ttl: int): Store
    requires g < |s.grants|
  {
    var handle := s.grants[g].lease;
    match HeartbeatResult(s.rec, handle, now, ttl)
    case Err(_) => s.(clock := now)
    case Ok(l) => Store(Assign(s.rec, handle.sessionId, l), now, s.grants[g := s.grants[g].(end := l.expiresAt)])
  }

  function FreeStep(s: Store, g: nat, now: int): Store
    requires g < |s.grants|
  {
    var handle := s.grants[g].lease;
    match ReleaseResult(s.rec, handle)
    case None => s.(clock := now)
    case Some(l) => Store(Assign(s.rec, handle.sessionId, l), now, s.grants[g := EndedBy(s.grants[g], now)])
  }

  function After(s: Store, actions: seq<Action>): Store
    decreases |actions|
  {
    if |actions| == 0 then s else After(Step(s, actions[0]), actions[1..])
  }

  lemma GrantsStay(s: Store, a: Action)
    ensures |Step(s, a).grants| >= |s.grants|
    ensures forall i :: 0 <= i < |s.grants| ==> Step(s, a).grants[i].lease == s.grants[i].lease
  {
    hide AcquireResult, HeartbeatResult, ReleaseResult, Swept, Assign;
  }

  // ----- The invariant -----

  /** The last grant of a session. */
  function Newest(gs: seq<Grant>, sessionId: Text): (r: Option<nat>)
    ensures r.Some? ==> r.value < |gs| && gs[r.value].lease.sessionId == sessionId
    ensures forall j :: (if r.Some? then r.value + 1 else 0) <= j < |gs| ==> gs[j].lease.sessionId != sessionId
  {
    if |gs| == 0 then None
    else if gs[|gs| - 1].lease.sessionId == sessionId then Some(|gs| - 1)
    else Newest(gs[..|gs| - 1], sessionId)
  }

  /** Later grants of a session have greater tokens and begin no earlier than earlier ones end. */
  ghost predicate InTurn(gs: seq<Grant>) {
    forall i, j :: 0 <= i < j < |gs| && gs[i].lease.sessionId == gs[j].lease.sessionId != PROTO ==>
      gs[i].lease.token < gs[j].lease.token && gs[i].end <= gs[j].start
  }

  ghost predicate Begun(gs: seq<Grant>, clock: int) {
    forall i :: 0 <= i < |gs| ==> gs[i].start <= clock
  }

  /** What the store holds for a session is what its newest grant says. */
  ghost predicate Matches(stored: Option<Lease>, gs: seq<Grant>, sessionId: Text, clock: int) {
    match Newest(gs, sessionId)
    case None => stored == None
    case Some(k) =>
      && stored.Some?
      && stored.value.token == gs[k].lease.token
      && stored.value.owner == gs[k].lease.owner
      && (if stored.value.status == Active then stored.value.expiresAt == gs[k].end else gs[k].end <= clock)
  }

  ghost predicate Consistent(s: Store) {
    && GoodRecord(s.rec)
    && Begun(s.grants, s.clock)
    && InTurn(s.grants)
    && forall sessionId :: sessionId != PROTO ==> Matches(Get(s.rec, sessionId), s.grants, sessionId, s.clock)
  }

  // ----- The record under assignment and sweeps -----

  lemma AssignGood(rec: Leases, l: Lease)
    requires GoodRecord(rec)
    ensures GoodRecord(Assign(rec, l.sessionId, l))
  {
    if l.sessionId != PROTO {
      PutOrdered(rec, l.sessionId, l);
      PutValues(rec, l.sessionId, l);
      var r := Put(rec, l.sessionId, l);
      forall i | 0 <= i < |r| ensures r[i].1.sessionId == r[i].0 != PROTO {
        assert r[i] in r;
      }
    }
  }

  lemma AssignGet(rec: Leases, l: Lease, sessionId: Text)
    requires GoodRecord(rec) && sessionId != PROTO
    ensures Get(Assign(rec, l.sessionId, l), sessionId) ==
            if sessionId == l.sessionId then Some(l) else Get(rec, sessionId)
  {
    if l.sessionId != PROTO { PutGet(rec, l.sessionId, l, sessionId); }
  }

  lemma {:induction false} SweptGet(rec: Leases, now: int, sessionId: Text)
    ensures Get(Swept(rec, now), sessionId) ==
            match Get(rec, sessionId) case None => None case Some(l) => Some(ReapOne(l, now))
  {
    if |rec| > 0 {
      assert Swept(rec, now)[1..] == Swept(rec[1..], now);
      SweptGet(rec[1..], now, sessionId);
    }
  }

  lemma NeverProto(rec: Leases)
    requires GoodRecord(rec)
    ensures Get(rec, PROTO) == None
  {
    GetSome(rec, PROTO);
  }

  lemma StoredId(rec: Leases, sessionId: Text)
    requires GoodRecord(rec) && Get(rec, sessionId).Some?
    ensures Get(rec, sessionId).value.sessionId == sessionId
  {
    GetSome(rec, sessionId);
  }

  // ----- Newest grants under the changes a step makes -----

  /** The newest grants depend only on the handles. */
  lemma {:induction false} NewestSame(gs: seq<Grant>, hs: seq<Grant>, sessionId: Text)
    requires |gs| == |hs| && forall i :: 0 <= i < |gs| ==> gs[i].lease == hs[i].lease
    ensures Newest(gs, sessionId) == Newest(hs, sessionId)
  {
    if |gs| > 0 { NewestSame(gs[..|gs| - 1], hs[..|hs| - 1], sessionId); }
  }

  lemma NewestExtended(gs: seq<Grant>, g: Grant, sessionId: Text)
    ensures Newest(gs + [g], sessionId) == if g.lease.sessionId == sessionId then Some(|gs|) else Newest(gs, sessionId)
  {
    assert (gs + [g])[..|gs|] == gs;
  }

  lemma HasNewest(gs: seq<Grant>, g: nat)
    requires g < |gs|
    ensures Newest(gs, gs[g].lease.sessionId).Some? && g <= Newest(gs, gs[g].lease.sessionId).value
  {
  }

  // ----- One step -----

  /** A handle passes the store's checks exactly when its grant is the newest one of its session and
      the stored lease is active. */
  ghost predicate Holds(s: Store, g: nat)
    requires g < |s.grants|
  {
    var sessionId := s.grants[g].lease.sessionId;
    && Newest(s.grants, sessionId) == Some(g)
    && Get(s.rec, sessionId).Some?
    && Get(s.rec, sessionId).value.status == Active
  }

  lemma HeartbeatExactly(s: Store, g: nat, now: int, ttl: int)
    requires Consistent(s) && g < |s.grants|
    ensures var handle := s.grants[g].lease;
            var r := HeartbeatResult(s.rec, handle, now, ttl);
            && (handle.sessionId != PROTO ==> (r.Ok? <==> Holds(s, g)))
            && (handle.sessionId == PROTO ==> r == Err(Fenced))
            && (r.Ok? ==> r.value == Lease(handle.sessionId, handle.owner, handle.token, now, now + ttl, Active))
  {
    var handle := s.grants[g].lease;
    HasNewest(s.grants, g);
    if handle.sessionId == PROTO {
      NeverProto(s.rec);
    } else {
      assert Matches(Get(s.rec, handle.sessionId), s.grants, handle.sessionId, s.clock);
      StoredId(s.rec, handle.sessionId);
    }
  }

  lemma ReleaseExactly(s: Store, g: nat)
    requires Consistent(s) && g < |s.grants|
    ensures var handle := s.grants[g].lease;
            var r := ReleaseResult(s.rec, handle);
            && (handle.sessionId != PROTO ==> (r.Some? <==> Holds(s, g)))
            && (handle.sessionId == PROTO ==> r == None)
            && (r.Some? ==> r.value == Get(s.rec, handle.sessionId).value.(status := Released) &&
                            r.value.sessionId == handle.sessionId && r.value.token == handle.token &&
                            r.value.owner == handle.owner)
  {
    var handle := s.grants[g].lease;
    HasNewest(s.grants, g);
    if handle.sessionId == PROTO {
      NeverProto(s.rec);
    } else {
      assert Matches(Get(s.rec, handle.sessionId), s.grants, handle.sessionId, s.clock);
      StoredId(s.rec, handle.sessionId);
    }
  }

  /** Whether an owner gets a session: nobody else's grant may still be running. The lease runs from
      now for the time to live, and its token is one more than the newest. */
  lemma AcquireExactly(s: Store, sessionId: Text, owner: Text, now: int, ttl: int)
    requires Consistent(s) && s.clock <= now
    ensures var r := AcquireResult(s.rec, sessionId, owner, now, ttl);
            var newest := if sessionId == PROTO then None else Newest(s.grants, sessionId);
            && (r.Ok? <==>
                  && |sessionId| > 0 && |owner| > 0
                  && match newest
                     case None => true
                     case Some(k) => s.grants[k].lease.owner == owner || s.grants[k].end <= now)
            && (r.Ok? ==>
                  r.value == Lease(sessionId, owner,
                                   if newest.Some? then s.grants[newest.value].lease.token + 1 else 1,
                                   now, now + ttl, Active))
  {
    if sessionId == PROTO {
      NeverProto(s.rec);
    } else {
      assert Matches(Get(s.rec, sessionId), s.grants, sessionId, s.clock);
    }
  }

  lemma EarlierEnded(s: Store, sessionId: Text, owner: Text, now: int, ttl: int, i: nat)
    requires Consistent(s) && s.clock <= now && sessionId != PROTO
    requires AcquireResult(s.rec, sessionId, owner, now, ttl).Ok?
    requires i < |s.grants| && s.grants[i].lease.sessionId == sessionId
    ensures GivenUp(s.grants, sessionId, owner, now)[i].end <= now
    ensures s.grants[i].lease.token < AcquireResult(s.rec, sessionId, owner, now, ttl).value.token
  {
    hide Newest;
    AcquireExactly(s, sessionId, owner, now, ttl);
    assert Matches(Get(s.rec, sessionId), s.grants, sessionId, s.clock);
    HasNewest(s.grants, i);
  }

  lemma TakeConsistent(s: Store, sessionId: Text, owner: Text, now: int, ttl: int)
    requires Consistent(s) && s.clock <= now
    ensures Consistent(TakeStep(s, sessionId, owner, now, ttl))
  {
    hide Get, Newest, Assign, Ordered;
    var r := AcquireResult(s.rec, sessionId, owner, now, ttl);
    var next := TakeStep(s, sessionId, owner, now, ttl);
    if r.Ok? {
      var cut := GivenUp(s.grants, sessionId, owner, now);
      var g := Grant(r.value, now, r.value.expiresAt);
      AssignGood(s.rec, r.value);
      assert InTurn(next.grants) by {
        if sessionId != PROTO {
          forall i | 0 <= i < |cut| && cut[i].lease.sessionId == sessionId
            ensures cut[i].end <= now && cut[i].lease.token < r.value.token
          {
            EarlierEnded(s, sessionId, owner, now, ttl, i);
          }
        }
      }
      forall id | id != PROTO
        ensures Matches(Get(next.rec, id), next.grants, id, now)
      {
        assert Matches(Get(s.rec, id), s.grants, id, s.clock);
        AssignGet(s.rec, r.value, id);
        NewestSame(s.grants, cut, id);
        NewestExtended(cut, g, id);
      }
    } else {
      ClockConsistent(s, now);
    }
  }

  lemma ClockConsistent(s: Store, now: int)
    requires Consistent(s) && s.clock <= now
    ensures Consistent(s.(clock := now))
  {
    forall id | id != PROTO ensures Matches(Get(s.rec, id), s.grants, id, now) {
      assert Matches(Get(s.rec, id), s.grants, id, s.clock);
    }
  }

  /** Storing a new lease for the newest grant of a session, and setting the end of that grant. */
  lemma UpdateConsistent(s: Store, g: nat, l: Lease, end: int, now: int)
    requires Consistent(s) && s.clock <= now && g < |s.grants| && Holds(s, g)
    requires l.sessionId == s.grants[g].lease.sessionId != PROTO
    requires l.token == s.grants[g].lease.token && l.owner == s.grants[g].lease.owner
    requires if l.status == Active then l.expiresAt == end else end <= now
    ensures Consistent(Store(Assign(s.rec, l.sessionId, l), now, s.grants[g := s.grants[g].(end := end)]))
  {
    hide Get, Newest, Assign, Ordered;
    var gs := s.grants[g := s.grants[g].(end := end)];
    AssignGood(s.rec, l);
    forall id | id != PROTO
      ensures Matches(Get(Assign(s.rec, l.sessionId, l), id), gs, id, now)
    {
      assert Matches(Get(s.rec, id), s.grants, id, s.clock);
      AssignGet(s.rec, l, id);
      NewestSame(s.grants, gs, id);
    }
  }

  lemma BeatConsistent(s: Store, g: nat, now: int, ttl: int)
    requires Consistent(s) && s.clock <= now && g < |s.grants|
    ensures Consistent(BeatStep(s, g, now, ttl))
  {
    hide Get, Newest, Assign, Consistent;
    HeartbeatExactly(s, g, now, ttl);
    match HeartbeatResult(s.rec, s.grants[g].lease, now, ttl)
    case Err(_) => ClockConsistent(s, now);
    case Ok(l) => UpdateConsistent(s, g, l, l.expiresAt, now);
  }

  lemma FreeConsistent(s: Store, g: nat, now: int)
    requires Consistent(s) && s.clock <= now && g < |s.grants|
    ensures Consistent(FreeStep(s, g, now))
  {
    hide Get, Newest, Assign, Consistent;
    ReleaseExactly(s, g);
    match ReleaseResult(s.rec, s.grants[g].lease)
    case None => ClockConsistent(s, now);
    case Some(l) => UpdateConsistent(s, g, l, EndedBy(s.grants[g], now).end, now);
  }

  lemma SweepConsistent(s: Store, now: int)
    requires Consistent(s) && s.clock <= now
    ensures Consistent(Store(Swept(s.rec, now), now, s.grants))
  {
    hide Get, Newest;
    SameKeysOrdered(s.rec, Swept(s.rec, now));
    forall id | id != PROTO
      ensures Matches(Get(Swept(s.rec, now), id), s.grants, id, now)
    {
      assert Matches(Get(s.rec, id), s.grants, id, s.clock);
      SweptGet(s.rec, now, id);
    }
  }

  lemma StepConsistent(s: Store, a: Action)
    requires Consistent(s)
    ensures Consistent(Step(s, a))
  {
    hide Consistent, TakeStep, BeatStep, FreeStep;
    if Possible(s, a) {
      match a
      case Take(sessionId, owner, now, ttl) => TakeConsistent(s, sessionId, owner, now, ttl);
      case Beat(g, now, ttl) => BeatConsistent(s, g, now, ttl);
      case Free(g, now) => FreeConsistent(s, g, now);
      case Sweep(now) => SweepConsistent(s, now);
    }
  }

  lemma {:induction false} RunConsistent(s: Store, actions: seq<Action>)
    requires Consistent(s)
    ensures Consistent(After(s, actions))
    decreases |actions|
  {
    hide Consistent, Step;
    if |actions| > 0 {
      StepConsistent(s, actions[0]);
      RunConsistent(Step(s, actions[0]), actions[1..]);
    }
  }

  // ----- Whole runs -----

  /** Over every run of the store: owners of one session hold it one after the other, no token of a
      session is issued twice, and the store keeps the newest. */
  lemma OwnersTakeTurns(actions: seq<Action>, i: nat, j: nat)
    requires var gs := After(EMPTY, actions).grants;
             i < j < |gs| && gs[i].lease.sessionId == gs[j].lease.sessionId != PROTO
    ensures var s := After(EMPTY, actions);
            && s.grants[i].lease.token < s.grants[j].lease.token
            && s.grants[i].end <= s.grants[j].start
            && (forall time :: !(Owned(s.grants[i], time) && Owned(s.grants[j], time)))
            && Get(s.rec, s.grants[i].lease.sessionId).Some?
            && s.grants[j].lease.token <= Get(s.rec, s.grants[i].lease.sessionId).value.token
  {
    hide Step, Get;
    assert Consistent(EMPTY) by { EmptyConsistent(); }
    RunConsistent(EMPTY, actions);
    var s := After(EMPTY, actions);
    var sessionId := s.grants[i].lease.sessionId;
    assert Matches(Get(s.rec, sessionId), s.grants, sessionId, s.clock);
    HasNewest(s.grants, j);
  }

  predicate Owned(g: Grant, time: int) { g.start <= time < g.end }

  lemma EmptyConsistent()
    ensures Consistent(EMPTY)
  {
    assert forall id :: Newest(EMPTY.grants, id) == None;
  }

  /** No call makes a stored token smaller. */
  lemma TokensGrow(s: Store, a: Action, sessionId: Text)
    requires Consistent(s) && Get(s.rec, sessionId).Some?
    ensures var after := Get(Step(s, a).rec, sessionId);
            after.Some? && Get(s.rec, sessionId).value.token <= after.value.token
  {
    hide Newest, Get, Assign, Ordered;
    NeverProto(s.rec);
    if Possible(s, a) {
      match a
      case Take(id, owner, now, ttl) =>
        var r := AcquireResult(s.rec, id, owner, now, ttl);
        if r.Ok? { AssignGet(s.rec, r.value, sessionId); }
      case Beat(g, now, ttl) =>
        StoredHandle(s, g);
        var r := HeartbeatResult(s.rec, s.grants[g].lease, now, ttl);
        if r.Ok? { AssignGet(s.rec, r.value, sessionId); }
      case Free(g, now) =>
        StoredHandle(s, g);
        var r := ReleaseResult(s.rec, s.grants[g].lease);
        if r.Some? { AssignGet(s.rec, r.value, sessionId); }
      case Sweep(now) => SweptGet(s.rec, now, sessionId);
    }
  }

  lemma StoredHandle(s: Store, g: nat)
    requires Consistent(s) && g < |s.grants|
    ensures var id := s.grants[g].lease.sessionId;
            Get(s.rec, id).Some? ==> Get(s.rec, id).value.sessionId == id
  {
    if Get(s.rec, s.grants[g].lease.sessionId).Some? { StoredId(s.rec, s.grants[g].lease.sessionId); }
  }

  /** A lost handle stays lost, whatever is called afterwards. */
  lemma LostForGood(s: Store, a: Action, g: nat)
    requires Consistent(s) && g < |s.grants| && s.grants[g].lease.sessionId != PROTO && !Holds(s, g)
    ensures g < |Step(s, a).grants| && Step(s, a).grants[g].lease == s.grants[g].lease && !Holds(Step(s, a), g)
  {
    hide Newest, Get, Assign, Ordered, Matches;
    var sessionId := s.grants[g].lease.sessionId;
    if Possible(s, a) {
      match a
      case Take(id, owner, now, ttl) =>
        var r := AcquireResult(s.rec, id, owner, now, ttl);
        if r.Ok? {
          var cut := GivenUp(s.grants, id, owner, now);
          AssignGet(s.rec, r.value, sessionId);
          NewestSame(s.grants, cut, sessionId);
          NewestExtended(cut, Grant(r.value, now, r.value.expiresAt), sessionId);
        }
      case Beat(h, now, ttl) =>
        HeartbeatExactly(s, h, now, ttl);
        var r := HeartbeatResult(s.rec, s.grants[h].lease, now, ttl);
        NewestSame(s.grants, Step(s, a).grants, sessionId);
        if r.Ok? { AssignGet(s.rec, r.value, sessionId); }
      case Free(h, now) =>
        ReleaseExactly(s, h);
        var r := ReleaseResult(s.rec, s.grants[h].lease);
        NewestSame(s.grants, Step(s, a).grants, sessionId);
        if r.Some? { AssignGet(s.rec, r.value, sessionId); }
      case Sweep(now) => SweptGet(s.rec, now, sessionId);
    }
  }

  /** A handle is lost when anyone acquires its session or a sweep finds it expired. */
  lemma LostBy(s: Store, a: Action, g: nat)
    requires Consistent(s) && Possible(s, a) && g < |s.grants| && s.grants[g].lease.sessionId != PROTO
    requires
      || (a.Take? && a.sessionId == s.grants[g].lease.sessionId &&
          AcquireResult(s.rec, a.sessionId, a.owner, a.now, a.ttl).Ok?)
      || (a.Sweep? && s.grants[g].end <= a.now)
    ensures g < |Step(s, a).grants| && !Holds(Step(s, a), g)
  {
    hide Newest, Get, Assign, Ordered;
    var sessionId := s.grants[g].lease.sessionId;
    match a
    case Take(id, owner, now, ttl) =>
      var r := AcquireResult(s.rec, id, owner, now, ttl);
      NewestExtended(GivenUp(s.grants, id, owner, now), Grant(r.value, now, r.value.expiresAt), sessionId);
    case Sweep(now) =>
      SweptGet(s.rec, now, sessionId);
      assert Matches(Get(s.rec, sessionId), s.grants, sessionId, s.clock);
    case _ =>
  }

  /** Acquiring twice in a row gives a greater token unless the id names the prototype: then
      nothing is stored, two owners get the same token, and neither can renew. */
  lemma TokenAdvancesExactly(s: Store, sessionId: Text, now: int, ttl: int, a: Text, b: Text, later: int)
    requires Consistent(s) && |b| > 0
    requires AcquireResult(s.rec, sessionId, a, now, ttl).Ok? && s.clock <= now && later >= now && later >= now + ttl
    ensures var first := AcquireResult(s.rec, sessionId, a, now, ttl).value;
            var second := AcquireResult(Step(s, Take(sessionId, a, now, ttl)).rec, sessionId, b, later, ttl);
            && second.Ok?
            && (sessionId != PROTO <==> first.token < second.value.token)
            && (sessionId == PROTO ==> first.token == second.value.token)
  {
    hide Newest, Ordered;
    var first := AcquireResult(s.rec, sessionId, a, now, ttl).value;
    if sessionId == PROTO {
      NeverProto(s.rec);
    } else {
      AssignGet(s.rec, first, sessionId);
    }
  }
}
