/** The transactional outbox: durable delivery obligations, the relay that posts them, and crashes
    between any two operations on the store or the channel. One relay call runs at a time. */
module Outbox {
  import opened Utf16
  import opened Wrappers
  import opened Records

  datatype Status = Pending | Delivered

  datatype Delivery = Delivery(
    id: Text, eventKind: Text, summary: Text, status: Status, attempts: nat, enqueuedAt: Text,
    deliveredAt: Option<Text>)

  /** What a delivery is, apart from its progress. */
  predicate Same(d: Delivery, e: Delivery) {
    d.id == e.id && d.eventKind == e.eventKind && d.summary == e.summary && d.enqueuedAt == e.enqueuedAt
  }

  type Box = Props<Delivery>

  /** Properties that every plain object inherits: looking one up finds something that is no delivery. */
  const INHERITED: seq<Text> := [
    PROTO, Ascii("constructor"), Ascii("hasOwnProperty"), Ascii("isPrototypeOf"), Ascii("propertyIsEnumerable"),
    Ascii("toLocaleString"), Ascii("toString"), Ascii("valueOf"), Ascii("__defineGetter__"),
    Ascii("__defineSetter__"), Ascii("__lookupGetter__"), Ascii("__lookupSetter__")]

  // ----- The store -----

  function Enqueue(rec: Box, d: Delivery): Box {
    if d.id in INHERITED || Get(rec, d.id).Some? then rec else Put(rec, d.id, d)
  }

  function PendingOf(rec: Box): seq<Delivery> {
    if |rec| == 0 then []
    else if rec[0].1.status == Pending then [rec[0].1] + PendingOf(rec[1..])
    else PendingOf(rec[1..])
  }

  function Tried(d: Delivery): Delivery { d.(attempts := d.attempts + 1) }

  function Marked(d: Delivery, at: Text): Delivery { d.(status := Delivered, deliveredAt := Some(at)) }

  function RecordAttempt(rec: Box, id: Text): Box {
    match Get(rec, id)
    case None => rec
    case Some(d) => Put(rec, id, Tried(d))
  }

  function MarkDelivered(rec: Box, id: Text, at: Text): Box {
    match Get(rec, id)
    case None => rec
    case Some(d) => Put(rec, id, Marked(d, at))
  }

  class InMemoryOutboxStore {
    var rec: Box

    constructor ()
      ensures rec == []
    {
      rec := [];
    }

    method EnqueueDelivery(d: Delivery)
      modifies this
      ensures rec == Enqueue(old(rec), d)
    {
      if d.id in INHERITED || Get(rec, d.id).Some? { return; }
      rec := Put(rec, d.id, d);
    }

    /** Throws on an id that names an inherited property, since what it finds is no delivery. */
    method RecordOneAttempt(id: Text) returns (ok: bool)
      modifies this
      ensures ok <==> id !in INHERITED
      ensures rec == if ok then RecordAttempt(old(rec), id) else old(rec)
    {
      if id in INHERITED { return false; }
      ok := true;
      var d := Get(rec, id);
      if d.None? { return; }
      rec := Put(rec, id, d.value.(attempts := d.value.attempts + 1));
    }

    method MarkAsDelivered(id: Text, at: Text) returns (ok: bool)
      modifies this
      ensures ok <==> id !in INHERITED
      ensures rec == if ok then MarkDelivered(old(rec), id, at) else old(rec)
    {
      if id in INHERITED { return false; }
      ok := true;
      var d := Get(rec, id);
      if d.None? { return; }
      rec := Put(rec, id, d.value.(status := Delivered, deliveredAt := Some(at)));
    }
  }

  // ----- The relay, one operation at a time -----

  /** A call of the channel, and whether the channel took the event. */
  datatype Post = Post(id: Text, eventKind: Text, summary: Text, accepted: bool)

  datatype Next = ToRecord | ToPost | ToMark

  /** A relay call in progress: the deliveries still to attempt, what comes next for the first of
      them, and, for a drain, how many were pending at its start and how many it has marked. */
  datatype Activity =
    | Idle
    | Working(todo: seq<Delivery>, next: Next, drain: Option<nat>, marked: nat)

  datatype DrainResult = DrainResult(started: nat, delivered: int, stillPending: nat, marked: nat)

  /** The store is durable, and so is what the channel was sent; the activity is lost in a crash. */
  datatype Relay = Relay(
    rec: Box, posts: seq<Post>, activity: Activity, projected: seq<Delivery>, results: seq<DrainResult>)

  /** The channel answers true, or it answers false or throws, and may have taken the event anyway. */
  datatype Outcome = Confirmed | Unconfirmed(accepted: bool)

  datatype Event =
    | Project(id: Text, eventKind: Text, summary: Text, now: Text)
    | Drain
    | Record
    | Send(outcome: Outcome)
    | Mark(at: Text)
    | Crash

  predicate Enabled(s: Relay, e: Event) {
    match e
    case Project(id, eventKind, summary, now) =>
      s.activity.Idle? && |id| > 0 && |eventKind| > 0 && |summary| > 0 && |now| > 0 && id !in INHERITED
    case Drain => s.activity.Idle?
    case Record => s.activity.Working? && |s.activity.todo| > 0 && s.activity.next == ToRecord
    case Send(_) => s.activity.Working? && |s.activity.todo| > 0 && s.activity.next == ToPost
    case Mark(_) => s.activity.Working? && |s.activity.todo| > 0 && s.activity.next == ToMark
    case Crash => true
  }

  /** On to the next delivery, or to the end of the call. */
  function Advance(s: Relay): Relay
    requires s.activity.Working? && |s.activity.todo| > 0
  {
    var a := s.activity;
    if |a.todo| > 1 then s.(activity := a.(todo := a.todo[1..], next := ToRecord)) else Finish(s)
  }

  function Finish(s: Relay): Relay
    requires s.activity.Working?
  {
    var a := s.activity;
    match a.drain
    case None => s.(activity := Idle)
    case Some(n) =>
      var still := |PendingOf(s.rec)|;
      s.(activity := Idle, results := s.results + [DrainResult(n, n - still, still, a.marked)])
  }

  function Step(s: Relay, e: Event): Relay {
    if !Enabled(s, e) then s
    else
      match e
      case Project(id, eventKind, summary, now) =>
        var d := Delivery(id, eventKind, summary, Pending, 0, now, None);
        s.(rec := Enqueue(s.rec, d), projected := s.projected + [d], activity := Working([d], ToRecord, None, 0))
      case Drain =>
        var todo := PendingOf(s.rec);
        var working := s.(activity := Working(todo, ToRecord, Some(|todo|), 0));
        if |todo| == 0 then Finish(working) else working
      case Record =>
        s.(rec := RecordAttempt(s.rec, s.activity.todo[0].id), activity := s.activity.(next := ToPost))
      case Send(outcome) =>
        var d := s.activity.todo[0];
        var accepted := outcome == Confirmed || outcome.accepted;
        var sent := s.(posts := s.posts + [Post(d.id, d.eventKind, d.summary, accepted)]);
        if outcome == Confirmed then sent.(activity := s.activity.(next := ToMark)) else Advance(sent)
      case Mark(at) =>
        Advance(s.(rec := MarkDelivered(s.rec, s.activity.todo[0].id, at),
                   activity := s.activity.(marked := s.activity.marked + 1)))
      case Crash => s.(activity := Idle)
  }

  const EMPTY: Relay := Relay([], [], Idle, [], [])

  function After(es: seq<Event>): Relay {
    if |es| == 0 then EMPTY else Step(After(es[..|es| - 1]), es[|es| - 1])
  }

  // ----- Pending deliveries in a record -----

  ghost predicate GoodBox(rec: Box) {
    Ordered(rec) && forall i :: 0 <= i < |rec| ==> rec[i].1.id == rec[i].0 && rec[i].0 !in INHERITED
  }

  function One(d: Delivery): nat { if d.status == Pending then 1 else 0 }

  lemma {:induction false} PendingReplaced(rec: Box, i: nat, d: Delivery)
    requires i < |rec|
    ensures |PendingOf(rec[i := (rec[i].0, d)])| == |PendingOf(rec)| - One(rec[i].1) + One(d)
  {
    var r := rec[i := (rec[i].0, d)];
    if i == 0 {
      assert r[1..] == rec[1..];
    } else {
      assert r[1..] == rec[1..][i - 1 := (rec[i].0, d)];
      PendingReplaced(rec[1..], i - 1, d);
    }
  }

  lemma {:induction false} KeyAt(rec: Box, key: Text) returns (i: nat)
    requires Get(rec, key).Some?
    ensures i < |rec| && rec[i].0 == key && rec[i].1 == Get(rec, key).value
  {
    if rec[0].0 == key {
      i := 0;
    } else {
      i := KeyAt(rec[1..], key);
      i := i + 1;
    }
  }

  /** Replacing a stored delivery by another version of itself. */
  lemma Replaced(rec: Box, d: Delivery)
    requires GoodBox(rec) && Get(rec, d.id).Some?
    ensures GoodBox(Put(rec, d.id, d))
    ensures forall key :: Get(Put(rec, d.id, d), key) == if key == d.id then Some(d) else Get(rec, key)
    ensures |PendingOf(Put(rec, d.id, d))| == |PendingOf(rec)| - One(Get(rec, d.id).value) + One(d)
  {
    var i := KeyAt(rec, d.id);
    PutInPlace(rec, i, d);
    PutOrdered(rec, d.id, d);
    PendingReplaced(rec, i, d);
    forall key ensures Get(Put(rec, d.id, d), key) == if key == d.id then Some(d) else Get(rec, key) {
      PutGet(rec, d.id, d, key);
    }
  }

  lemma {:induction false} PendingEntries(rec: Box)
    requires Distinct(Keys(rec)) && forall i :: 0 <= i < |rec| ==> rec[i].1.id == rec[i].0
    ensures forall d :: d in PendingOf(rec) ==> d.status == Pending && Get(rec, d.id) == Some(d)
    ensures forall i, j :: 0 <= i < j < |PendingOf(rec)| ==> PendingOf(rec)[i].id != PendingOf(rec)[j].id
  {
    if |rec| > 0 {
      assert Keys(rec[1..]) == Keys(rec)[1..];
      PendingEntries(rec[1..]);
      var rest := PendingOf(rec[1..]);
      forall d | d in rest ensures d.id != rec[0].0 {
        GetSome(rec[1..], d.id);
        var i :| 0 <= i < |rec[1..]| && rec[1..][i].0 == d.id;
        assert Keys(rec)[0] != Keys(rec)[i + 1];
      }
    }
  }

  // ----- The invariant -----

  function Count(posts: seq<Post>, id: Text): nat {
    if |posts| == 0 then 0
    else Count(posts[..|posts| - 1], id) + if posts[|posts| - 1].id == id then 1 else 0
  }

  /** The channel has taken this very event. */
  ghost predicate Taken(posts: seq<Post>, d: Delivery) {
    exists k :: 0 <= k < |posts| && TakenAt(posts[k], d)
  }

  predicate TakenAt(p: Post, d: Delivery) {
    p.accepted && p.id == d.id && p.eventKind == d.eventKind && p.summary == d.summary
  }

  /** An attempt that has been recorded but not yet sent. */
  function Owed(a: Activity, id: Text): nat {
    if a.Working? && |a.todo| > 0 && a.next == ToPost && a.todo[0].id == id then 1 else 0
  }

  ghost predicate Kept(rec: Box, d: Delivery) {
    Get(rec, d.id).Some? && Same(Get(rec, d.id).value, d)
  }

  ghost predicate Tracked(s: Relay, key: Text) {
    var d := Get(s.rec, key);
    d.Some? ==>
      && (exists i :: 0 <= i < |s.projected| && s.projected[i].id == key)
      && Count(s.posts, key) + Owed(s.activity, key) <= d.value.attempts
      && (d.value.status == Delivered ==> Taken(s.posts, d.value))
  }

  ghost predicate Waiting(rec: Box, d: Delivery) {
    Kept(rec, d) && Get(rec, d.id).value.status == Pending
  }

  ghost predicate Busy(s: Relay) {
    var a := s.activity;
    a.Working? ==>
      && |a.todo| > 0
      && (forall i :: 0 <= i < |a.todo| ==> Waiting(s.rec, a.todo[i]))
      && (forall i, j :: 0 <= i < j < |a.todo| ==> a.todo[i].id != a.todo[j].id)
      && (a.next == ToMark ==> Taken(s.posts, a.todo[0]))
      && (a.drain.Some? ==> |PendingOf(s.rec)| + a.marked == a.drain.value)
  }

  predicate Balanced(r: DrainResult) { r.delivered == r.marked && r.delivered + r.stillPending == r.started }

  ghost predicate Consistent(s: Relay) {
    && GoodBox(s.rec)
    && (forall i :: 0 <= i < |s.projected| ==> Kept(s.rec, s.projected[i]))
    && (forall key :: Tracked(s, key))
    && (forall k :: 0 <= k < |s.posts| ==> Get(s.rec, s.posts[k].id).Some?)
    && Busy(s)
    && (forall i :: 0 <= i < |s.results| ==> Balanced(s.results[i]))
  }

  function Ids(ds: seq<Delivery>): (r: seq<Text>)
    ensures |r| == |ds| && forall i :: 0 <= i < |r| ==> r[i] == ds[i].id
  {
    seq(|ds|, i requires 0 <= i < |ds| => ds[i].id)
  }

  lemma CountMore(posts: seq<Post>, p: Post, id: Text)
    ensures Count(posts + [p], id) == Count(posts, id) + if p.id == id then 1 else 0
  {
    assert (posts + [p])[..|posts|] == posts;
  }

  lemma TakenMore(posts: seq<Post>, p: Post, d: Delivery)
    ensures Taken(posts, d) ==> Taken(posts + [p], d)
    ensures TakenAt(p, d) ==> Taken(posts + [p], d)
  {
    var more := posts + [p];
    if Taken(posts, d) {
      var k :| 0 <= k < |posts| && TakenAt(posts[k], d);
      assert TakenAt(more[k], d);
    }
    assert more[|posts|] == p;
  }

  lemma ProjectConsistent(s: Relay, e: Event)
    requires Consistent(s) && e.Project? && Enabled(s, e) && Distinct(Ids(Step(s, e).projected))
    ensures Consistent(Step(s, e))
  {
    hide Ordered, INHERITED, Put, Get;
    var t := Step(s, e);
    var d := Delivery(e.id, e.eventKind, e.summary, Pending, 0, e.now, None);
    assert Ids(t.projected)[|s.projected|] == e.id;
    assert forall i :: 0 <= i < |s.projected| ==> Ids(t.projected)[i] == s.projected[i].id;
    assert Tracked(s, e.id);
    assert Get(s.rec, e.id).None?;
    PutOrdered(s.rec, e.id, d);
    PutValues(s.rec, e.id, d);
    forall i | 0 <= i < |t.rec| ensures t.rec[i].1.id == t.rec[i].0 && t.rec[i].0 !in INHERITED {
      assert t.rec[i] in t.rec;
    }
    forall key ensures Get(t.rec, key) == if key == e.id then Some(d) else Get(s.rec, key) {
      PutGet(s.rec, e.id, d, key);
    }
    NothingSent(s.posts, e.id);
    forall key ensures Tracked(t, key) {
      assert Tracked(s, key);
      assert t.projected[|s.projected|].id == e.id;
      if Get(s.rec, key).Some? {
        var i :| 0 <= i < |s.projected| && s.projected[i].id == key;
        assert t.projected[i].id == key;
      }
    }
    assert forall i :: 0 <= i < |s.projected| ==> Kept(s.rec, s.projected[i]);
  }

  lemma {:induction false} NothingSent(posts: seq<Post>, id: Text)
    requires forall k :: 0 <= k < |posts| ==> posts[k].id != id
    ensures Count(posts, id) == 0
  {
    if |posts| > 0 { NothingSent(posts[..|posts| - 1], id); }
  }

  lemma RecordConsistent(s: Relay)
    requires Consistent(s) && Enabled(s, Record)
    ensures Consistent(Step(s, Record))
  {
    hide Ordered, Put, Get, PendingOf, Count, Taken;
    var t := Step(s, Record);
    var first := s.activity.todo[0];
    assert Waiting(s.rec, first);
    var d := Tried(Get(s.rec, first.id).value);
    Replaced(s.rec, d);
    forall i | 0 <= i < |s.projected| ensures Kept(t.rec, s.projected[i]) {
      assert Kept(s.rec, s.projected[i]);
    }
    forall i | 0 <= i < |s.activity.todo| ensures Waiting(t.rec, s.activity.todo[i]) {
      assert Waiting(s.rec, s.activity.todo[i]);
    }
    forall key ensures Tracked(t, key) {
      assert Tracked(s, key);
      TakenSame(s.posts, d, Get(s.rec, first.id).value);
    }
  }

  lemma TakenSame(posts: seq<Post>, d: Delivery, e: Delivery)
    requires Same(d, e)
    ensures Taken(posts, d) <==> Taken(posts, e)
  {
    assert forall k :: 0 <= k < |posts| ==> (TakenAt(posts[k], d) <==> TakenAt(posts[k], e));
  }

  /** The first delivery is done with; the others are still pending. */
  lemma AdvanceConsistent(s: Relay)
    requires s.activity.Working? && |s.activity.todo| > 0 && s.activity.next != ToPost
    requires Consistent(s.(activity := Idle))
    requires forall i :: 1 <= i < |s.activity.todo| ==> Waiting(s.rec, s.activity.todo[i])
    requires forall i, j :: 0 <= i < j < |s.activity.todo| ==> s.activity.todo[i].id != s.activity.todo[j].id
    requires s.activity.drain.Some? ==> |PendingOf(s.rec)| + s.activity.marked == s.activity.drain.value
    ensures Consistent(Advance(s))
  {
    hide GoodBox, Kept, Taken, Count, Get, PendingOf;
    var idle := s.(activity := Idle);
    var t := Advance(s);
    forall key ensures Tracked(t, key) {
      assert Tracked(idle, key);
    }
    if |s.activity.todo| > 1 {
      var todo := s.activity.todo[1..];
      assert forall i :: 0 <= i < |todo| ==> todo[i] == s.activity.todo[i + 1];
    }
  }

  lemma SendConsistent(s: Relay, outcome: Outcome)
    requires Consistent(s) && Enabled(s, Send(outcome))
    ensures Consistent(Step(s, Send(outcome)))
  {
    hide GoodBox, Get, PendingOf, Count, Taken, Same;
    var a := s.activity;
    var d := a.todo[0];
    var accepted := outcome == Confirmed || outcome.accepted;
    var p := Post(d.id, d.eventKind, d.summary, accepted);
    var sent := s.(posts := s.posts + [p]);
    assert Waiting(s.rec, d);
    var after := sent.(activity := if outcome == Confirmed then a.(next := ToMark) else Idle);
    forall key ensures Tracked(after, key) {
      assert Tracked(s, key);
      CountMore(s.posts, p, key);
      if Get(s.rec, key).Some? { TakenMore(s.posts, p, Get(s.rec, key).value); }
    }
    forall k | 0 <= k < |sent.posts| ensures Get(s.rec, sent.posts[k].id).Some? {
      assert k < |s.posts| ==> sent.posts[k] == s.posts[k];
    }
    TakenMore(s.posts, p, d);
    if outcome != Confirmed {
      AdvanceAnyway(sent, after);
    }
  }

  lemma AdvanceAnyway(s: Relay, idle: Relay)
    requires s.activity.Working? && |s.activity.todo| > 0 && idle == s.(activity := Idle) && Consistent(idle)
    requires forall i :: 1 <= i < |s.activity.todo| ==> Waiting(s.rec, s.activity.todo[i])
    requires forall i, j :: 0 <= i < j < |s.activity.todo| ==> s.activity.todo[i].id != s.activity.todo[j].id
    requires s.activity.drain.Some? ==> |PendingOf(s.rec)| + s.activity.marked == s.activity.drain.value
    ensures Consistent(Advance(s))
  {
    hide Consistent, PendingOf, Waiting;
    var done := s.(activity := s.activity.(next := ToRecord));
    AdvanceConsistent(done);
  }

  lemma MarkConsistent(s: Relay, at: Text)
    requires Consistent(s) && Enabled(s, Mark(at))
    ensures Consistent(Step(s, Mark(at)))
  {
    hide Ordered, Put, Get, PendingOf, Count, Taken;
    var a := s.activity;
    var first := a.todo[0];
    assert Waiting(s.rec, first);
    var stored := Get(s.rec, first.id).value;
    var d := Marked(stored, at);
    Replaced(s.rec, d);
    var rec := Put(s.rec, first.id, d);
    var marked := s.(rec := rec, activity := a.(marked := a.marked + 1));
    var idle := marked.(activity := Idle);
    forall i | 0 <= i < |s.projected| ensures Kept(rec, s.projected[i]) {
      assert Kept(s.rec, s.projected[i]);
    }
    forall i | 1 <= i < |a.todo| ensures Waiting(rec, a.todo[i]) {
      assert Waiting(s.rec, a.todo[i]);
    }
    TakenSame(s.posts, first, d);
    forall key ensures Tracked(idle, key) {
      assert Tracked(s, key);
      if key != first.id && Get(s.rec, key).Some? { assert Get(idle.rec, key) == Get(s.rec, key); }
    }
    AdvanceConsistent(marked);
  }

  lemma DrainConsistent(s: Relay)
    requires Consistent(s) && Enabled(s, Drain)
    ensures Consistent(Step(s, Drain))
  {
    hide Get, Count, Taken, PendingOf;
    var t := Step(s, Drain);
    OrderedDistinct(s.rec);
    PendingEntries(s.rec);
    forall key ensures Tracked(t, key) {
      assert Tracked(s, key);
    }
    var todo := PendingOf(s.rec);
    forall i | 0 <= i < |todo| ensures Waiting(s.rec, todo[i]) {
      assert todo[i] in todo;
    }
  }

  lemma CrashConsistent(s: Relay)
    requires Consistent(s)
    ensures Consistent(s.(activity := Idle))
  {
    hide GoodBox, Get, Count, Taken, PendingOf;
    forall key ensures Tracked(s.(activity := Idle), key) {
      assert Tracked(s, key);
    }
  }

  lemma StepConsistent(s: Relay, e: Event)
    requires Consistent(s) && Distinct(Ids(Step(s, e).projected))
    ensures Consistent(Step(s, e))
  {
    hide Consistent, RecordAttempt, MarkDelivered, Enqueue;
    if Enabled(s, e) {
      match e
      case Project(id, eventKind, summary, now) => ProjectConsistent(s, e);
      case Drain => DrainConsistent(s);
      case Record => RecordConsistent(s);
      case Send(outcome) => SendConsistent(s, outcome);
      case Mark(at) => MarkConsistent(s, at);
      case Crash => CrashConsistent(s);
    }
  }

  lemma ProjectedGrow(s: Relay, e: Event)
    ensures s.projected <= Step(s, e).projected
  {
    hide RecordAttempt, MarkDelivered, Enqueue, PendingOf;
  }

  lemma FewerDistinct(a: seq<Delivery>, b: seq<Delivery>)
    requires a <= b && Distinct(Ids(b))
    ensures Distinct(Ids(a))
  {
    assert forall i :: 0 <= i < |a| ==> Ids(a)[i] == Ids(b)[i];
  }

  lemma {:induction false} RunConsistent(es: seq<Event>)
    requires Distinct(Ids(After(es).projected))
    ensures Consistent(After(es))
  {
    hide Step, Consistent;
    if |es| == 0 {
      EmptyConsistent();
    } else {
      var before := After(es[..|es| - 1]);
      ProjectedGrow(before, es[|es| - 1]);
      FewerDistinct(before.projected, Step(before, es[|es| - 1]).projected);
      RunConsistent(es[..|es| - 1]);
      StepConsistent(before, es[|es| - 1]);
    }
  }

  lemma EmptyConsistent()
    ensures Consistent(EMPTY)
  {
  }

  // ----- What holds in every run -----

  /** Whatever crashes: no obligation is lost or altered, its attempts are no fewer than its posts,
      and one that is marked delivered was taken by the channel as it stands. */
  lemma NothingLost(es: seq<Event>, i: nat)
    requires Distinct(Ids(After(es).projected)) && i < |After(es).projected|
    ensures var s := After(es);
            var d := Get(s.rec, s.projected[i].id);
            && d.Some? && Same(d.value, s.projected[i])
            && Count(s.posts, d.value.id) <= d.value.attempts
            && (d.value.status == Delivered ==> Taken(s.posts, d.value))
  {
    hide After, Get;
    RunConsistent(es);
    var s := After(es);
    assert Kept(s.rec, s.projected[i]);
    assert Tracked(s, s.projected[i].id);
  }

  /** Every finished drain: delivered and stillPending add up to what was pending when it began, and
      delivered is the number of deliveries that it marked. */
  lemma DrainsBalance(es: seq<Event>, i: nat)
    requires Distinct(Ids(After(es).projected)) && i < |After(es).results|
    ensures var r := After(es).results[i];
            r.delivered == r.marked && r.delivered + r.stillPending == r.started
  {
    hide After;
    RunConsistent(es);
  }

  lemma StepFinal(s: Relay, e: Event, key: Text)
    requires Consistent(s) && Distinct(Ids(Step(s, e).projected))
    requires Get(s.rec, key).Some? && Get(s.rec, key).value.status == Delivered
    ensures Get(Step(s, e).rec, key) == Get(s.rec, key) && Count(Step(s, e).posts, key) == Count(s.posts, key)
  {
    hide Ordered, Put, Get, PendingOf, Count, Taken, INHERITED;
    if Enabled(s, e) {
      match e
      case Project(id, eventKind, summary, now) =>
        var t := Step(s, e);
        assert Tracked(s, key);
        var i :| 0 <= i < |s.projected| && s.projected[i].id == key;
        assert Ids(t.projected)[i] == key && Ids(t.projected)[|s.projected|] == id;
        PutGet(s.rec, id, Delivery(id, eventKind, summary, Pending, 0, now, None), key);
      case Record =>
        assert Waiting(s.rec, s.activity.todo[0]);
        Replaced(s.rec, Tried(Get(s.rec, s.activity.todo[0].id).value));
      case Send(outcome) =>
        var d := s.activity.todo[0];
        assert Waiting(s.rec, d);
        CountMore(s.posts, Post(d.id, d.eventKind, d.summary, outcome == Confirmed || outcome.accepted), key);
      case Mark(at) =>
        assert Waiting(s.rec, s.activity.todo[0]);
        Replaced(s.rec, Marked(Get(s.rec, s.activity.todo[0].id).value, at));
      case _ =>
    }
  }

  /** Once a delivery is marked, it never changes again and is never posted again. */
  lemma {:induction false} DeliveredIsFinal(es: seq<Event>, more: seq<Event>, key: Text)
    requires Distinct(Ids(After(es + more).projected))
    requires Get(After(es).rec, key).Some? && Get(After(es).rec, key).value.status == Delivered
    ensures Get(After(es + more).rec, key) == Get(After(es).rec, key)
    ensures Count(After(es + more).posts, key) == Count(After(es).posts, key)
    decreases |more|
  {
    hide Step, Get, Count, Consistent;
    if |more| == 0 {
      assert es + more == es;
    } else {
      var front := more[..|more| - 1];
      var last := more[|more| - 1];
      assert (es + more)[..|es + more| - 1] == es + front && (es + more)[|es + more| - 1] == last;
      var before := After(es + front);
      ProjectedGrow(before, last);
      FewerDistinct(before.projected, Step(before, last).projected);
      DeliveredIsFinal(es, front, key);
      RunConsistent(es + front);
      StepFinal(before, last, key);
    }
  }

  /** A new obligation is stored unless its id names a property that every object has. */
  lemma EnqueueExactly(rec: Box, d: Delivery)
    requires Ordered(rec) && Get(rec, d.id).None?
    ensures Get(Enqueue(rec, d), d.id) == Some(d) <==> d.id !in INHERITED
  {
    hide INHERITED;
    PutGet(rec, d.id, d, d.id);
  }

  /** The property that every object has as its constructor takes the place of an obligation. */
  lemma EnqueueExample(d: Delivery)
    requires d.id == Ascii("constructor")
    ensures Enqueue([], d) == []
  {
  }

  // ----- The order of deliveries -----

  lemma KeysReplaced(rec: Box, d: Delivery)
    requires GoodBox(rec) && Get(rec, d.id).Some?
    ensures Keys(Put(rec, d.id, d)) == Keys(rec)
  {
    var i := KeyAt(rec, d.id);
    PutInPlace(rec, i, d);
  }

  lemma StepKeys(s: Relay, e: Event)
    requires Consistent(s) && Keys(s.rec) == VisitingOrder(Ids(s.projected))
    requires Distinct(Ids(Step(s, e).projected))
    ensures Keys(Step(s, e).rec) == VisitingOrder(Ids(Step(s, e).projected))
  {
    hide Put, Get, PendingOf, Count, Taken, INHERITED, Precedes, IsIndex, InsertKey;
    if Enabled(s, e) {
      match e
      case Project(id, eventKind, summary, now) =>
        var d := Delivery(id, eventKind, summary, Pending, 0, now, None);
        var before, after := Ids(s.projected), Ids(Step(s, e).projected);
        assert after == before + [id];
        assert after[..|before|] == before;
        assert Tracked(s, id);
        assert forall i :: 0 <= i < |s.projected| ==> after[i] == s.projected[i].id;
        PutKeyOrder(s.rec, id, d);
      case Record =>
        assert Waiting(s.rec, s.activity.todo[0]);
        KeysReplaced(s.rec, Tried(Get(s.rec, s.activity.todo[0].id).value));
      case Mark(at) =>
        assert Waiting(s.rec, s.activity.todo[0]);
        KeysReplaced(s.rec, Marked(Get(s.rec, s.activity.todo[0].id).value, at));
      case _ =>
    }
  }

  lemma {:induction false} RunKeys(es: seq<Event>)
    requires Distinct(Ids(After(es).projected))
    ensures Keys(After(es).rec) == VisitingOrder(Ids(After(es).projected))
  {
    hide Step, Get, InsertKey;
    if |es| > 0 {
      var before := After(es[..|es| - 1]);
      ProjectedGrow(before, es[|es| - 1]);
      FewerDistinct(before.projected, After(es).projected);
      RunKeys(es[..|es| - 1]);
      RunConsistent(es[..|es| - 1]);
      StepKeys(before, es[|es| - 1]);
    }
  }

  /** list() gives all deliveries in the order of their enqueueing exactly if that is an order in
      which objects visit their ids. */
  lemma ListOrderExactly(es: seq<Event>)
    requires Distinct(Ids(After(es).projected))
    ensures Keys(After(es).rec) == Ids(After(es).projected) <==> InVisitingOrder(Ids(After(es).projected))
  {
    hide After;
    RunKeys(es);
    VisitingOrderExactly(Ids(After(es).projected));
  }

  /** The ids of the deliveries that are still pending. */
  ghost function PendingIds(rec: Box): set<Text> { set i | 0 <= i < |rec| && rec[i].1.status == Pending :: rec[i].0 }

  lemma {:induction false} PendingKept(rec: Box, keep: set<Text>)
    requires forall i :: 0 <= i < |rec| ==>
               rec[i].1.id == rec[i].0 && (rec[i].0 in keep <==> rec[i].1.status == Pending)
    ensures Ids(PendingOf(rec)) == KeepKeys(Keys(rec), keep)
  {
    if |rec| > 0 {
      assert Keys(rec)[1..] == Keys(rec[1..]);
      PendingKept(rec[1..], keep);
      if rec[0].1.status == Pending {
        assert Ids([rec[0].1] + PendingOf(rec[1..])) == [rec[0].0] + Ids(PendingOf(rec[1..]));
      }
    }
  }

  /** pending(), and so a drain, takes the pending deliveries in the order of their enqueueing exactly
      if that is an order in which objects visit their ids: always if none of these is an array
      index. */
  lemma PendingOrderExactly(es: seq<Event>)
    requires Distinct(Ids(After(es).projected))
    ensures var s := After(es);
            var queue := KeepKeys(Ids(s.projected), PendingIds(s.rec));
            Ids(PendingOf(s.rec)) == queue <==> InVisitingOrder(queue)
  {
    hide After, Precedes, IsIndex, InsertKey;
    RunConsistent(es);
    RunKeys(es);
    var s := After(es);
    OrderedDistinct(s.rec);
    var keep := PendingIds(s.rec);
    forall i | 0 <= i < |s.rec| ensures s.rec[i].0 in keep <==> s.rec[i].1.status == Pending {
      if s.rec[i].0 in keep {
        var j :| 0 <= j < |s.rec| && s.rec[j].1.status == Pending && s.rec[j].0 == s.rec[i].0;
        assert Keys(s.rec)[j] == Keys(s.rec)[i];
      }
    }
    PendingKept(s.rec, keep);
    KeepVisiting(Ids(s.projected), keep);
    KeepDistinct(Ids(s.projected), keep);
    VisitingOrderExactly(KeepKeys(Ids(s.projected), keep));
  }

  lemma {:induction false} KeepDistinct(ks: seq<Text>, keep: set<Text>)
    requires Distinct(ks)
    ensures Distinct(KeepKeys(ks, keep))
  {
    if |ks| > 0 {
      KeepDistinct(ks[1..], keep);
      assert forall k :: k in ks[1..] ==> k != ks[0];
    }
  }

  /** Enqueued as "a" and then "1", a drain takes "1" first. */
  lemma PendingOrderExample()
    ensures var a, one := Ascii("a"), Ascii("1");
            var es := [Project(a, a, a, a), Crash, Project(one, a, a, a), Crash];
            Ids(After(es).projected) == [a, one] && Ids(PendingOf(After(es).rec)) == [one, a]
  {
    var a, one := Ascii("a"), Ascii("1");
    var es := [Project(a, a, a, a), Crash, Project(one, a, a, a), Crash];
    NotInherited(a);
    NotInherited(one);
    hide INHERITED;
    var d, e := Delivery(a, a, a, Pending, 0, a, None), Delivery(one, a, a, Pending, 0, a, None);
    assert |es[..1]| == 1;
    assert After(es[..1]) == Relay([(a, d)], [], Working([d], ToRecord, None, 0), [d], []);
    assert es[..2][..1] == es[..1];
    assert After(es[..2]) == Relay([(a, d)], [], Idle, [d], []);
    assert es[..3][..2] == es[..2];
    assert Precedes(one, a);
    assert After(es[..3]) == Relay([(one, e), (a, d)], [], Working([e], ToRecord, None, 0), [d, e], []);
    assert After(es) == Relay([(one, e), (a, d)], [], Idle, [d, e], []);
    var rec := After(es).rec;
    assert rec[1..] == [(a, d)];
    assert PendingOf(rec) == [e, d];
  }

  lemma NotInherited(id: Text)
    requires |id| == 1
    ensures id !in INHERITED
  {
  }

  // ----- The relay object -----

  function AttemptRec(rec: Box, d: Delivery, outcome: Outcome, at: Text): Box {
    var tried := RecordAttempt(rec, d.id);
    if outcome == Confirmed then MarkDelivered(tried, d.id, at) else tried
  }

  function PostOf(d: Delivery, outcome: Outcome): Post {
    Post(d.id, d.eventKind, d.summary, outcome == Confirmed || outcome.accepted)
  }

  /** An attempt that is not interrupted is one Record, one Send and, if confirmed, one Mark. */
  lemma AttemptSteps(s: Relay, outcome: Outcome, at: Text)
    requires Enabled(s, Record)
    ensures var sent := Step(Step(s, Record), Send(outcome));
            var t := if outcome == Confirmed then Step(sent, Mark(at)) else sent;
            t.rec == AttemptRec(s.rec, s.activity.todo[0], outcome, at) &&
            t.posts == s.posts + [PostOf(s.activity.todo[0], outcome)]
  {
    hide RecordAttempt, MarkDelivered, PendingOf;
  }

  function Confirmations(outcomes: seq<Outcome>): nat {
    if |outcomes| == 0 then 0
    else Confirmations(outcomes[..|outcomes| - 1]) + if outcomes[|outcomes| - 1] == Confirmed then 1 else 0
  }

  function AfterAttempt(d: Delivery, outcome: Outcome, at: Text): Delivery {
    if outcome == Confirmed then Marked(Tried(d), at) else Tried(d)
  }

  /** One delivery has been attempted; all others are as before. */
  lemma AttemptEffect(rec: Box, d: Delivery, outcome: Outcome, at: Text)
    requires GoodBox(rec) && Get(rec, d.id) == Some(d) && d.status == Pending
    ensures var r := AttemptRec(rec, d, outcome, at);
            && GoodBox(r)
            && (forall key :: Get(r, key) == if key == d.id then Some(AfterAttempt(d, outcome, at)) else Get(rec, key))
            && |PendingOf(r)| == |PendingOf(rec)| - if outcome == Confirmed then 1 else 0
  {
    hide Ordered, Put, Get, PendingOf;
    Replaced(rec, Tried(d));
    if outcome == Confirmed { Replaced(RecordAttempt(rec, d.id), Marked(Tried(d), at)); }
  }

  lemma StoredId(rec: Box, id: Text)
    requires GoodBox(rec) && Get(rec, id).Some?
    ensures id !in INHERITED
  {
    hide INHERITED;
    var i := KeyAt(rec, id);
  }

  /** How far a drain has come: the first n of its deliveries have been attempted. */
  ghost predicate DrainedTo(before: Box, rec: Box, todo: seq<Delivery>, outcomes: seq<Outcome>, at: Text, n: nat)
    requires n <= |todo| == |outcomes|
  {
    && GoodBox(rec)
    && (forall k :: 0 <= k < n ==> Get(rec, todo[k].id) == Some(AfterAttempt(todo[k], outcomes[k], at)))
    && (forall k :: n <= k < |todo| ==> Get(rec, todo[k].id) == Some(todo[k]))
    && (forall key :: key !in Ids(todo) ==> Get(rec, key) == Get(before, key))
    && |PendingOf(rec)| + Confirmations(outcomes[..n]) == |todo|
  }

  lemma DrainStart(rec: Box, outcomes: seq<Outcome>, at: Text)
    requires GoodBox(rec) && |outcomes| == |PendingOf(rec)|
    ensures DrainedTo(rec, rec, PendingOf(rec), outcomes, at, 0)
    ensures Distinct(Ids(PendingOf(rec)))
    ensures forall d :: d in PendingOf(rec) ==> d.status == Pending
  {
    OrderedDistinct(rec);
    PendingEntries(rec);
    assert forall k :: 0 <= k < |PendingOf(rec)| ==> PendingOf(rec)[k] in PendingOf(rec);
  }

  lemma DrainNext(before: Box, rec: Box, todo: seq<Delivery>, outcomes: seq<Outcome>, at: Text, n: nat)
    requires n < |todo| == |outcomes| && DrainedTo(before, rec, todo, outcomes, at, n)
    requires Distinct(Ids(todo)) && todo[n].status == Pending
    ensures DrainedTo(before, AttemptRec(rec, todo[n], outcomes[n], at), todo, outcomes, at, n + 1)
    ensures todo[n].id !in INHERITED
  {
    StoredId(rec, todo[n].id);
    hide INHERITED, GoodBox, Get, PendingOf, AttemptRec, AfterAttempt;
    AttemptEffect(rec, todo[n], outcomes[n], at);
    assert outcomes[..n + 1][..n] == outcomes[..n];
    assert forall k :: 0 <= k < |todo| && k != n ==> Ids(todo)[k] != Ids(todo)[n];
    assert Ids(todo)[n] in Ids(todo);
  }

  class OutboxRelay {
    const store: InMemoryOutboxStore
    var posts: seq<Post>

    constructor (store: InMemoryOutboxStore)
      ensures this.store == store && posts == []
    {
      this.store, posts := store, [];
    }

    /** Only the first operation can throw out of an attempt. */
    method Attempt(d: Delivery, outcome: Outcome, at: Text) returns (ok: bool)
      modifies this, store
      ensures ok <==> d.id !in INHERITED
      ensures store.rec == if ok then AttemptRec(old(store.rec), d, outcome, at) else old(store.rec)
      ensures posts == old(posts) + if ok then [PostOf(d, outcome)] else []
    {
      ok := store.RecordOneAttempt(d.id);
      if !ok { return; }
      posts := posts + [PostOf(d, outcome)];
      if outcome == Confirmed {
        var _ := store.MarkAsDelivered(d.id, at);
      }
    }

    /** A drain without a crash, given what the channel does at each attempt: every pending delivery
        is posted once, in the order of the store, and marked if the channel confirms it; nothing
        else changes. */
    method DrainAll(outcomes: seq<Outcome>, at: Text) returns (delivered: int, stillPending: nat)
      requires GoodBox(store.rec) && |outcomes| == |PendingOf(store.rec)|
      modifies this, store
      ensures DrainedTo(old(store.rec), store.rec, PendingOf(old(store.rec)), outcomes, at, |outcomes|)
      ensures stillPending == |PendingOf(store.rec)|
      ensures delivered == Confirmations(outcomes) && delivered + stillPending == |outcomes|
      ensures |posts| == |old(posts)| + |outcomes| && old(posts) <= posts
      ensures forall i :: 0 <= i < |outcomes| ==>
                posts[|old(posts)| + i] == PostOf(PendingOf(old(store.rec))[i], outcomes[i])
    {
      hide GoodBox, PendingOf, AttemptRec, AfterAttempt, DrainedTo;
      var pending := PendingOf(store.rec);
      DrainStart(store.rec, outcomes, at);
      for i := 0 to |pending|
        invariant DrainedTo(old(store.rec), store.rec, pending, outcomes, at, i)
        invariant |posts| == |old(posts)| + i && old(posts) <= posts
        invariant forall k :: 0 <= k < i ==> posts[|old(posts)| + k] == PostOf(pending[k], outcomes[k])
      {
        DrainNext(old(store.rec), store.rec, pending, outcomes, at, i);
        var _ := Attempt(pending[i], outcomes[i], at);
      }
      DrainTotals(old(store.rec), store.rec, pending, outcomes, at);
      stillPending := |PendingOf(store.rec)|;
      delivered := |pending| - stillPending;
    }
  }

  lemma DrainTotals(before: Box, rec: Box, todo: seq<Delivery>, outcomes: seq<Outcome>, at: Text)
    requires |todo| == |outcomes| && DrainedTo(before, rec, todo, outcomes, at, |todo|)
    ensures |PendingOf(rec)| + Confirmations(outcomes) == |todo|
  {
    assert outcomes[..|todo|] == outcomes;
  }
}
