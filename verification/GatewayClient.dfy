/** The sandbox end of the gateway: requests that wait for a correlated response, a timeout or the
    end of the connection. */
module GatewayClient {
  import opened Utf16
  import opened Events
  import opened Protocol

  datatype Outcome = Resolved(message: Message) | Rejected

  /** A request made: its id, whether it entered the map, whether it encodes, whether its timer runs,
      and the calls of its promise's resolve and reject so far. */
  datatype Request = Request(id: Text, entered: bool, encodes: bool, timer: bool, settled: seq<Outcome>)

  datatype Client = Client(connected: bool, pending: map<Text, nat>, requests: seq<Request>)

  datatype Happening =
    | Connect
    | Send(request: Message)
    | Receive(message: Message)
    | Timeout(n: nat)
    | Fail  // a bad frame, a closed or broken connection, or close()

  const START: Client := Client(false, map[], [])

  function Settle(r: Request, o: Outcome): Request { r.(timer := false, settled := r.settled + [o]) }

  /** A timer that does not run cannot fire. */
  predicate Enabled(c: Client, h: Happening) {
    match h
    case Timeout(n) => n < |c.requests| && c.requests[n].timer
    case Receive(_) => c.connected
    case Send(m) => m.ToolCallRequest?
    case _ => true
  }

  /** request: refused at once when there is no connection or the id is in flight. When the
      message does not encode, the promise rejects but the entry and its timer stay. */
  function Sent(c: Client, m: Message): Client {
    var encodes := MessageAccepts(m);
    if !c.connected || m.id in c.pending then
      c.(requests := c.requests + [Request(m.id, false, encodes, false, [Rejected])])
    else
      c.(pending := c.pending[m.id := |c.requests|],
         requests := c.requests + [Request(m.id, true, encodes, true, if encodes then [] else [Rejected])])
  }

  /** failAll: every pending request is rejected. */
  function Failed(c: Client): Client {
    Client(c.connected, map[], FailedRequests(c.pending, c.requests))
  }

  function FailedRequests(pending: map<Text, nat>, requests: seq<Request>): (r: seq<Request>)
    ensures |r| == |requests|
  {
    seq(|requests|, i requires 0 <= i < |requests| => FailedRequest(pending, requests[i], i))
  }

  function FailedRequest(pending: map<Text, nat>, r: Request, n: nat): Request {
    if r.id in pending && pending[r.id] == n then Settle(r, Rejected) else r
  }

  /** Request n is settled, and its id leaves the map. */
  function TakenOut(c: Client, n: nat, id: Text, o: Outcome): Client
    requires n < |c.requests|
  {
    c.(pending := c.pending - {id}, requests := c.requests[n := Settle(c.requests[n], o)])
  }

  function Step(c: Client, h: Happening): Client {
    if !Enabled(c, h) then c
    else
      match h
      case Connect => c.(connected := true)
      case Send(m) => Sent(c, m)
      case Receive(m) =>
        if m.id !in c.pending || c.pending[m.id] >= |c.requests| then c
        else
          var n := c.pending[m.id];
          TakenOut(c, n, m.id, Resolved(m))
      case Timeout(n) => TakenOut(c, n, c.requests[n].id, Rejected)
      case Fail => Failed(c)
  }

  function After(hs: seq<Happening>): Client {
    if |hs| == 0 then START else Step(After(hs[..|hs| - 1]), hs[|hs| - 1])
  }

  /** The client object. */
  class GatewayClient {
    var connected: bool
    var pending: map<Text, nat>
    var requests: seq<Request>

    function View(): Client
      reads this
    {
      Client(connected, pending, requests)
    }

    constructor ()
      ensures View() == START
    {
      connected, pending, requests := false, map[], [];
    }

    method Send(m: Message) returns (n: nat)
      requires m.ToolCallRequest?
      modifies this
      ensures n == old(|requests|) && View() == Step(old(View()), Happening.Send(m))
    {
      n := |requests|;
      if !connected || m.id in pending {
        requests := requests + [Request(m.id, false, MessageAccepts(m), false, [Rejected])];
        return;
      }
      pending := pending[m.id := n];
      var settled := if MessageAccepts(m) then [] else [Rejected];
      requests := requests + [Request(m.id, true, MessageAccepts(m), true, settled)];
    }

    /** onData, for each message that a chunk completes. */
    method Received(m: Message)
      requires connected && Consistent(View())
      modifies this
      ensures View() == Step(old(View()), Receive(m))
    {
      if m.id !in pending { return; }
      var n := pending[m.id];
      pending := pending - {m.id};
      requests := requests[n := Settle(requests[n], Resolved(m))];
    }

    method TimerFires(n: nat)
      requires Enabled(View(), Timeout(n))
      modifies this
      ensures View() == Step(old(View()), Timeout(n))
    {
      pending := pending - {requests[n].id};
      requests := requests[n := Settle(requests[n], Rejected)];
    }

    method FailAll()
      modifies this
      ensures View() == Step(old(View()), Fail)
    {
      ghost var before := requests;
      for i := 0 to |requests|
        modifies this
        invariant |requests| == |before| && pending == old(pending) && connected == old(connected)
        invariant forall k :: 0 <= k < i ==> requests[k] == FailedRequest(pending, before[k], k)
        invariant forall k :: i <= k < |before| ==> requests[k] == before[k]
      {
        if requests[i].id in pending && pending[requests[i].id] == i {
          requests := requests[i := Settle(requests[i], Rejected)];
        }
      }
      assert requests == FailedRequests(pending, before);
      pending := map[];
    }
  }

  // ----- Safety -----

  /** Pending ids and running timers are the same requests. */
  ghost predicate Consistent(c: Client) {
    && (forall id :: id in c.pending ==> c.pending[id] < |c.requests| && c.requests[c.pending[id]].id == id)
    && (forall n :: 0 <= n < |c.requests| ==> RequestSafe(c, n))
  }

  /** A running timer means that the request is in the map, and that nothing has settled it but a
      failure to encode. Once its timer is gone it has been settled once, or twice exactly if it had
      entered the map and did not encode. It resolves only with a message that carries its own id. */
  ghost predicate RequestSafe(c: Client, n: nat)
    requires n < |c.requests|
  {
    var r := c.requests[n];
    && (r.timer <==> r.id in c.pending && c.pending[r.id] == n)
    && (r.timer ==> r.entered && r.settled == if r.encodes then [] else [Rejected])
    && (!r.timer ==> |r.settled| == if r.entered && !r.encodes then 2 else 1)
    && (!r.encodes || !r.entered ==> r.settled[0] == Rejected)
    && (forall i :: 0 <= i < |r.settled| && r.settled[i].Resolved? ==> r.settled[i].message.id == r.id)
  }

  lemma SentConsistent(c: Client, m: Message)
    requires Consistent(c)
    ensures Consistent(Sent(c, m))
  {
    hide MessageAccepts;
    var t := Sent(c, m);
    forall n | 0 <= n < |t.requests| ensures RequestSafe(t, n) {
      if n < |c.requests| { assert RequestSafe(c, n); }
    }
  }

  lemma FailedConsistent(c: Client)
    requires Consistent(c)
    ensures Consistent(Failed(c))
  {
    var t := Failed(c);
    forall n | 0 <= n < |t.requests| ensures RequestSafe(t, n) {
      assert RequestSafe(c, n);
    }
  }

  /** The waiting request k leaves the map with one more call of resolve or reject. */
  lemma SettleConsistent(c: Client, k: nat, o: Outcome)
    requires Consistent(c) && k < |c.requests| && c.requests[k].timer
    requires o.Resolved? ==> o.message.id == c.requests[k].id
    ensures Consistent(TakenOut(c, k, c.requests[k].id, o))
  {
    var t := TakenOut(c, k, c.requests[k].id, o);
    assert RequestSafe(c, k);
    forall n | 0 <= n < |t.requests| ensures RequestSafe(t, n) {
      assert RequestSafe(c, n);
    }
  }

  lemma StepConsistent(c: Client, h: Happening)
    requires Consistent(c)
    ensures Consistent(Step(c, h))
  {
    hide Sent, Failed, Settle;
    if Enabled(c, h) {
      match h
      case Connect => assert forall n :: 0 <= n < |c.requests| ==> RequestSafe(c, n) ==> RequestSafe(Step(c, h), n);
      case Send(m) => SentConsistent(c, m);
      case Receive(m) =>
        if m.id in c.pending {
          assert RequestSafe(c, c.pending[m.id]);
          SettleConsistent(c, c.pending[m.id], Resolved(m));
        }
      case Timeout(n) => SettleConsistent(c, n, Rejected);
      case Fail => FailedConsistent(c);
    }
  }

  /** In every run requests settle as RequestSafe says. */
  lemma {:induction false} RunConsistent(hs: seq<Happening>)
    ensures Consistent(After(hs))
  {
    if |hs| > 0 {
      RunConsistent(hs[..|hs| - 1]);
      StepConsistent(After(hs[..|hs| - 1]), hs[|hs| - 1]);
    }
  }

  /** Nothing is left waiting when the connection is lost. */
  lemma FailSettlesAll(hs: seq<Happening>)
    ensures var c := After(hs + [Fail]);
            && c.pending == map[]
            && forall n :: 0 <= n < |c.requests| ==> c.requests[n].settled != [] && !c.requests[n].timer
  {
    assert (hs + [Fail])[..|hs|] == hs;
    RunConsistent(hs + [Fail]);
    var c := After(hs + [Fail]);
    forall n | 0 <= n < |c.requests| ensures c.requests[n].settled != [] && !c.requests[n].timer {
      assert RequestSafe(c, n);
    }
  }

  /** What happens to an id after its request is settled never touches that request again. */
  lemma SettledStays(hs: seq<Happening>, h: Happening, n: nat)
    requires n < |After(hs).requests| && !After(hs).requests[n].timer
    ensures After(hs + [h]).requests[n] == After(hs).requests[n]
  {
    assert (hs + [h])[..|hs|] == hs;
    RunConsistent(hs);
    assert RequestSafe(After(hs), n);
    if h.Receive? && h.message.id in After(hs).pending {
      assert RequestSafe(After(hs), After(hs).pending[h.message.id]);
    }
  }

  /** In every run, resolve and reject are called more than once for a request exactly if it entered
      the map, did not encode, and its entry has since been taken out by its timer, by a reply with
      its id or by the end of the connection. The promise keeps the first call. */
  lemma SettledTwiceExactly(hs: seq<Happening>, n: nat)
    requires n < |After(hs).requests|
    ensures var r := After(hs).requests[n];
            && (|r.settled| > 1 <==> r.entered && !r.encodes && !r.timer)
            && (|r.settled| > 1 ==> |r.settled| == 2 && r.settled[0] == Rejected)
  {
    hide Step;
    RunConsistent(hs);
    assert RequestSafe(After(hs), n);
  }

  /** A request without a tool name does not encode. Then its timer fires, or a reply comes. */
  lemma SettledTwiceExample()
    ensures var id, reply := Ascii("a"), ErrorMessage(Ascii("a"), Ascii("s"), Ascii("no"));
            var m := ToolCallRequest(id, Ascii("s"), [], [], SessionOwner);
            && !MessageAccepts(m) && MessageAccepts(reply)
            && After([Connect, Send(m), Timeout(0)]).requests ==
                 [Request(id, true, false, false, [Rejected, Rejected])]
            && After([Connect, Send(m), Receive(reply)]).requests ==
                 [Request(id, true, false, false, [Rejected, Resolved(reply)])]
  {
    var id, reply := Ascii("a"), ErrorMessage(Ascii("a"), Ascii("s"), Ascii("no"));
    var m := ToolCallRequest(id, Ascii("s"), [], [], SessionOwner);
    var connected, sent := [Connect], [Connect, Send(m)];
    assert connected[..0] == [] && sent[..1] == connected;
    var timedOut, replied := [Connect, Send(m), Timeout(0)], [Connect, Send(m), Receive(reply)];
    assert timedOut[..2] == sent && replied[..2] == sent;
    assert After(connected) == Step(START, Connect);
    assert After(sent) == Step(After(connected), Send(m));
    assert After(sent) == Client(true, map[id := 0], [Request(id, true, false, true, [Rejected])]);
    var first: seq<Outcome> := [Rejected];
    assert first + [Rejected] == [Rejected, Rejected] && first + [Resolved(reply)] == [Rejected, Resolved(reply)];
    assert After(timedOut).requests == [Settle(After(sent).requests[0], Rejected)];
    assert After(replied).requests == [Settle(After(sent).requests[0], Resolved(reply))];
  }
}
