/** Fenced session leases: who owns a session, until when, and under which token. Times are epoch
    milliseconds. */
module SessionStore {
  import opened Utf16
  import opened Wrappers
  import opened Records

  datatype Status = Active | Released | Reaped

  datatype Lease = Lease(
    sessionId: Text, owner: Text, token: nat, heartbeatAt: int, expiresAt: int, status: Status)

  /** Why an operation throws: another owner's lease is live, the token is superseded or the lease
      no longer active, or an id is empty. */
  datatype StoreError = Contended | Fenced | Invalid

  type Leases = Props<Lease>

  // ----- The operations as functions -----

  predicate Live(l: Lease, now: int) { l.status == Active && l.expiresAt > now }

  function AcquireResult(rec: Leases, sessionId: Text, owner: Text, now: int, ttl: int): Result<Lease, StoreError> {
    var existing := Get(rec, sessionId);
    if existing.Some? && existing.value.owner != owner && Live(existing.value, now) then Err(Contended)
    else if |sessionId| == 0 || |owner| == 0 then Err(Invalid)
    else
      var token := (if existing.Some? then existing.value.token else 0) + 1;
      Ok(Lease(sessionId, owner, token, now, now + ttl, Active))
  }

  function HeartbeatResult(rec: Leases, lease: Lease, now: int, ttl: int): Result<Lease, StoreError> {
    match Get(rec, lease.sessionId)
    case None => Err(Fenced)
    case Some(stored) =>
      if stored.token > lease.token || stored.status != Active then Err(Fenced)
      else Ok(stored.(heartbeatAt := now, expiresAt := now + ttl))
  }

  /** The released lease, or None when releasing is a no-op. */
  function ReleaseResult(rec: Leases, lease: Lease): Option<Lease> {
    match Get(rec, lease.sessionId)
    case None => None
    case Some(stored) =>
      if stored.token == lease.token && stored.status == Active then Some(stored.(status := Released)) else None
  }

  predicate Expired(l: Lease, now: int) { l.status == Active && l.expiresAt <= now }

  function ReapOne(l: Lease, now: int): Lease { if Expired(l, now) then l.(status := Reaped) else l }

  /** The record after a sweep. */
  function Swept(rec: Leases, now: int): (r: Leases)
    ensures |r| == |rec| && forall i :: 0 <= i < |rec| ==> r[i] == (rec[i].0, ReapOne(rec[i].1, now))
  {
    seq(|rec|, i requires 0 <= i < |rec| => (rec[i].0, ReapOne(rec[i].1, now)))
  }

  /** The leases that a sweep reaps, in the order of the record. */
  function ReapedBy(rec: Leases, now: int): seq<Lease> {
    if |rec| == 0 then []
    else if Expired(rec[0].1, now) then [ReapOne(rec[0].1, now)] + ReapedBy(rec[1..], now)
    else ReapedBy(rec[1..], now)
  }

  /** Records keep the order of JavaScript objects, one lease under each session's own id. */
  ghost predicate GoodRecord(rec: Leases) {
    Ordered(rec) && forall i :: 0 <= i < |rec| ==> rec[i].1.sessionId == rec[i].0 != PROTO
  }

  // ----- The store -----

  class InMemorySessionStore {
    var rec: Leases

    constructor ()
      ensures rec == []
    {
      rec := [];
    }

    method Acquire(sessionId: Text, owner: Text, now: int, ttl: int) returns (r: Result<Lease, StoreError>)
      modifies this
      ensures r == AcquireResult(old(rec), sessionId, owner, now, ttl)
      ensures rec == if r.Ok? then Assign(old(rec), sessionId, r.value) else old(rec)
    {
      var existing := Get(rec, sessionId);
      if existing.Some? && existing.value.status == Active && existing.value.owner != owner &&
         existing.value.expiresAt > now
      {
        return Err(Contended);
      }
      if |sessionId| == 0 || |owner| == 0 { return Err(Invalid); }
      var token := (if existing.Some? then existing.value.token else 0) + 1;
      var lease := Lease(sessionId, owner, token, now, now + ttl, Active);
      rec := Assign(rec, sessionId, lease);
      r := Ok(lease);
    }

    method Heartbeat(lease: Lease, now: int, ttl: int) returns (r: Result<Lease, StoreError>)
      modifies this
      ensures r == HeartbeatResult(old(rec), lease, now, ttl)
      ensures rec == if r.Ok? then Assign(old(rec), lease.sessionId, r.value) else old(rec)
    {
      var stored := Get(rec, lease.sessionId);
      if stored.None? || stored.value.token > lease.token || stored.value.status != Active { return Err(Fenced); }
      var next := stored.value.(heartbeatAt := now, expiresAt := now + ttl);
      rec := Assign(rec, lease.sessionId, next);
      r := Ok(next);
    }

    method Release(lease: Lease)
      modifies this
      ensures rec == match ReleaseResult(old(rec), lease)
                     case None => old(rec)
                     case Some(l) => Assign(old(rec), lease.sessionId, l)
    {
      var stored := Get(rec, lease.sessionId);
      if stored.Some? && stored.value.token == lease.token && stored.value.status == Active {
        rec := Assign(rec, lease.sessionId, stored.value.(status := Released));
      }
    }

    method ReapExpired(now: int) returns (reaped: seq<Lease>)
      requires GoodRecord(rec)
      modifies this
      ensures rec == Swept(old(rec), now) && reaped == ReapedBy(old(rec), now)
    {
      hide Ordered, Put, IsIndex, Precedes;
      var entries := rec;
      reaped := [];
      for i := 0 to |entries|
        invariant SweptTo(rec, entries, i, now)
        invariant reaped == ReapedBy(entries[..i], now)
      {
        var (sessionId, lease) := entries[i];
        SweepStep(rec, entries, i, now);
        assert entries[..i + 1] == entries[..i] + [entries[i]];
        if lease.status == Active && lease.expiresAt <= now {
          var r := lease.(status := Reaped);
          rec := Assign(rec, sessionId, r);
          reaped := reaped + [r];
        }
      }
      assert entries[..|entries|] == entries;
    }
  }

  /** The sweep has passed the first n entries. */
  ghost predicate SweptTo(rec: Leases, entries: Leases, n: nat, now: int)
    requires n <= |entries|
  {
    && |rec| == |entries|
    && (forall k :: 0 <= k < n ==> rec[k] == (entries[k].0, ReapOne(entries[k].1, now)))
    && (forall k :: n <= k < |entries| ==> rec[k] == entries[k])
  }

  lemma SweepStep(rec: Leases, entries: Leases, i: nat, now: int)
    requires i < |entries| && GoodRecord(entries) && SweptTo(rec, entries, i, now)
    ensures SweptTo(if Expired(entries[i].1, now) then Assign(rec, entries[i].0, ReapOne(entries[i].1, now)) else rec,
                    entries, i + 1, now)
    ensures ReapedBy(entries[..i] + [entries[i]], now) ==
            ReapedBy(entries[..i], now) + (if Expired(entries[i].1, now) then [ReapOne(entries[i].1, now)] else [])
  {
    hide IsIndex, Precedes, Put, ReapedBy;
    ReapedByLast(entries[..i], entries[i], now);
    SameKeysOrdered(entries, rec);
    PutInPlace(rec, i, ReapOne(entries[i].1, now));
  }

  lemma {:induction false} ReapedByLast(rec: Leases, p: (Text, Lease), now: int)
    ensures ReapedBy(rec + [p], now) == ReapedBy(rec, now) + (if Expired(p.1, now) then [ReapOne(p.1, now)] else [])
  {
    if |rec| == 0 {
      assert rec + [p] == [p] && [p][1..] == [];
    } else {
      assert (rec + [p])[1..] == rec[1..] + [p];
      ReapedByLast(rec[1..], p, now);
    }
  }

  /** A sweep returns the reaped form of exactly the leases that are active and past their expiry. */
  lemma {:induction false} ReapsExactly(rec: Leases, now: int, l: Lease)
    ensures l in ReapedBy(rec, now) <==>
              exists i :: 0 <= i < |rec| && Expired(rec[i].1, now) && l == ReapOne(rec[i].1, now)
  {
    if |rec| > 0 {
      ReapsExactly(rec[1..], now, l);
      assert rec == [rec[0]] + rec[1..];
    }
  }

  /** A second sweep at the same time, or one at an earlier time, finds nothing to reap. */
  lemma {:induction false} SweptOnce(rec: Leases, now: int, later: int)
    requires later <= now
    ensures ReapedBy(Swept(rec, now), later) == []
    ensures Swept(Swept(rec, now), later) == Swept(rec, now)
  {
    if |rec| > 0 {
      assert Swept(rec, now)[1..] == Swept(rec[1..], now);
      SweptOnce(rec[1..], now, later);
    }
  }
}
