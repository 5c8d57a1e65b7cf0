/** One-time approvals: nonces, the Socket Mode receiver and the Slack channel, with clicks,
    timeouts, closes and continuations in any order. */
module Approvals {
  import opened Utf16
  import opened Wrappers
  import opened Records
  import opened JsonText

  // ----- Clicks -----

  datatype Interaction = Interaction(nonce: Text, approved: bool, userId: Text, isBot: bool)

  const ACTION_APPROVE: Text := Ascii("agp_approve")
  const ACTION_DENY: Text := Ascii("agp_deny")

  function Property(v: Json, name: Text): Option<Json> { if v.Obj? then Get(v.props, name) else None }

  function TextOf(v: Option<Json>): Text { if v.Some? && v.value.Str? then v.value.s else [] }

  function FirstOf(v: Option<Json>): Json {
    if v.Some? && v.value.Arr? && |v.value.items| > 0 then v.value.items[0] else Null
  }

  /** The click in a block_actions payload; None for anything else. */
  function ParseBlockAction(payload: Json): (r: Option<Interaction>)
    ensures r.Some? ==> |r.value.nonce| > 0 && |r.value.userId| > 0
  {
    var action := FirstOf(Property(payload, Ascii("actions")));
    var actionId := Property(action, Ascii("action_id"));
    var nonce := TextOf(Property(action, Ascii("value")));
    var user := Property(payload, Ascii("user"));
    if Property(payload, Ascii("type")) != Some(Str(Ascii("block_actions"))) then None
    else if actionId != Some(Str(ACTION_APPROVE)) && actionId != Some(Str(ACTION_DENY)) then None
    else if |nonce| == 0 || user.None? then None
    else
      var userId := TextOf(Property(user.value, Ascii("id")));
      if |userId| == 0 then None
      else
        Some(Interaction(nonce, actionId == Some(Str(ACTION_APPROVE)), userId,
                         Property(user.value, Ascii("is_bot")) == Some(Bool(true))))
  }

  /** The payload holds this click: it is an object of the right type whose first action approves or
      denies with a nonce as its value, and whose user has an id. */
  ghost predicate Holds(payload: Json, click: Interaction) {
    && payload.Obj? && Get(payload.props, Ascii("type")) == Some(Str(Ascii("block_actions")))
    && |click.nonce| > 0 && |click.userId| > 0
    && (exists items ::
          Get(payload.props, Ascii("actions")) == Some(Arr(items)) && |items| > 0 && HoldsAction(items[0], click))
    && (exists user :: Get(payload.props, Ascii("user")) == Some(Obj(user)) && HoldsUser(user, click))
  }

  ghost predicate HoldsAction(action: Json, click: Interaction) {
    && action.Obj?
    && Get(action.props, Ascii("action_id")) ==
       Some(Str(if click.approved then Ascii("agp_approve") else Ascii("agp_deny")))
    && Get(action.props, Ascii("value")) == Some(Str(click.nonce))
  }

  ghost predicate HoldsUser(user: Props<Json>, click: Interaction) {
    Get(user, Ascii("id")) == Some(Str(click.userId)) &&
    (click.isBot <==> Get(user, Ascii("is_bot")) == Some(Bool(true)))
  }

  lemma TextExactly(v: Option<Json>, t: Text)
    requires |t| > 0
    ensures TextOf(v) == t <==> v == Some(Str(t))
  {
  }

  /** A payload parses to a click exactly if it holds the click. */
  lemma ParseBlockExactly(payload: Json, click: Interaction)
    ensures ParseBlockAction(payload) == Some(click) <==> Holds(payload, click)
  {
    assert |ACTION_APPROVE| == 11 && |ACTION_DENY| == 8;
    assert ACTION_APPROVE == Ascii("agp_approve") && ACTION_DENY == Ascii("agp_deny");
    hide Ascii, ACTION_APPROVE, ACTION_DENY, Get, TextOf;
    var action := FirstOf(Property(payload, Ascii("actions")));
    var user := Property(payload, Ascii("user"));
    if |click.nonce| > 0 { TextExactly(Property(action, Ascii("value")), click.nonce); }
    if user.Some? && |click.userId| > 0 { TextExactly(Property(user.value, Ascii("id")), click.userId); }
    if ParseBlockAction(payload) == Some(click) {
      assert action.Obj? && payload.Obj? && user.value.Obj? by { NonEmptyText(action, user.value, click); }
      var items := Property(payload, Ascii("actions")).value.items;
      assert action == items[0] && HoldsAction(items[0], click) && HoldsUser(user.value.props, click);
    }
  }

  lemma NonEmptyText(action: Json, user: Json, click: Interaction)
    requires |click.nonce| > 0 && TextOf(Property(action, Ascii("value"))) == click.nonce
    requires |click.userId| > 0 && TextOf(Property(user, Ascii("id"))) == click.userId
    ensures action.Obj? && user.Obj?
  {
    hide Ascii;
  }

  /** The payload that Slack sends for a click. */
  function ClickPayload(click: Interaction): Json {
    Obj([(Ascii("type"), Str(Ascii("block_actions"))),
         (Ascii("user"), Obj([(Ascii("id"), Str(click.userId)), (Ascii("is_bot"), Bool(click.isBot))])),
         (Ascii("actions"), Arr([Obj([
            (Ascii("action_id"), Str(if click.approved then ACTION_APPROVE else ACTION_DENY)),
            (Ascii("value"), Str(click.nonce))])]))])
  }

  lemma ClickParsesBack(click: Interaction)
    requires |click.nonce| > 0 && |click.userId| > 0
    ensures ParseBlockAction(ClickPayload(click)) == Some(click)
  {
    var ps := ClickPayload(click).props;
    var who, action := ps[1].1.props, ps[2].1.items[0].props;
    var kind, user, actions := Ascii("type"), Ascii("user"), Ascii("actions");
    assert |kind| == 4 && |user| == 4 && |actions| == 7 && kind[0] != user[0];
    assert |Ascii("id")| == 2 && |Ascii("is_bot")| == 6 && |Ascii("action_id")| == 9 && |Ascii("value")| == 5;
    assert Keys(ps) == [kind, user, actions];
    assert Keys(who) == [Ascii("id"), Ascii("is_bot")] && Keys(action) == [Ascii("action_id"), Ascii("value")];
    GetAt(ps, 0);
    GetAt(ps, 1);
    GetAt(ps, 2);
    GetAt(who, 0);
    GetAt(who, 1);
    GetAt(action, 0);
    GetAt(action, 1);
    assert |ACTION_APPROVE| == 11 && |ACTION_DENY| == 8;
  }

  // ----- Nonces -----

  datatype Entry = Entry(messageId: Text, sessionId: Text, expiresAt: int, consumed: bool)

  datatype Consumption = Consumed | UnknownNonce | AlreadyUsed | Expired | WrongRequest

  function Consume(entries: map<Text, Entry>, nonce: Text, messageId: Text, now: int): Consumption {
    if nonce !in entries then UnknownNonce
    else if entries[nonce].consumed then AlreadyUsed
    else if now > entries[nonce].expiresAt then Expired
    else if entries[nonce].messageId != messageId then WrongRequest
    else Consumed
  }

  function AfterConsume(entries: map<Text, Entry>, nonce: Text, messageId: Text, now: int): map<Text, Entry> {
    if Consume(entries, nonce, messageId, now) == Consumed
    then assert nonce in entries; entries[nonce := entries[nonce].(consumed := true)]
    else entries
  }

  // ----- The receiver -----

  /** What the resolve or reject function of a waiter was called with. */
  datatype Settlement = Clicked(click: Interaction) | TimedOut | SocketClosed | ReceiverStopped

  /** An awaited nonce; ticking while its timer is set. */
  datatype Waiter = Waiter(nonce: Text, ticking: bool, calls: seq<Settlement>)

  /** A click that matched no waiter, reported as a replay or as an unknown nonce. */
  datatype Stray = Stray(replay: bool, nonce: Text, userId: Text)

  datatype Source = Source(
    waiters: seq<Waiter>, pending: map<Text, nat>, resolved: set<Text>, strays: seq<Stray>, stopped: bool)

  function Await(s: Source, nonce: Text): Source {
    s.(waiters := s.waiters + [Waiter(nonce, true, [])], pending := s.pending[nonce := |s.waiters|])
  }

  function Call(w: Waiter, c: Settlement): Waiter { w.(ticking := false, calls := w.calls + [c]) }

  function Click(s: Source, click: Interaction): Source {
    if click.nonce !in s.pending then
      s.(strays := s.strays + [Stray(click.nonce in s.resolved, click.nonce, click.userId)])
    else
      var i := s.pending[click.nonce];
      s.(waiters := if i < |s.waiters| then s.waiters[i := Call(s.waiters[i], Clicked(click))] else s.waiters,
         pending := s.pending - {click.nonce},
         resolved := s.resolved + {click.nonce})
  }

  function Frame(s: Source, payload: Json): Source {
    match ParseBlockAction(payload)
    case None => s
    case Some(click) => Click(s, click)
  }

  /** A timer fires: it gives up its own waiter, and takes out whatever waits for the nonce. */
  function Timeout(s: Source, i: nat): Source {
    if i < |s.waiters| && s.waiters[i].ticking then
      s.(waiters := s.waiters[i := Call(s.waiters[i], TimedOut)], pending := s.pending - {s.waiters[i].nonce})
    else s
  }

  predicate IsPending(s: Source, i: nat)
    requires i < |s.waiters|
  {
    s.waiters[i].nonce in s.pending && s.pending[s.waiters[i].nonce] == i
  }

  function RejectAll(s: Source, why: Settlement): (r: Source)
    ensures |r.waiters| == |s.waiters| && r == Source(r.waiters, map[], s.resolved, s.strays, s.stopped)
    ensures forall i :: 0 <= i < |s.waiters| ==>
              r.waiters[i] == if IsPending(s, i) then Call(s.waiters[i], why) else s.waiters[i]
  {
    var waiters := seq(|s.waiters|, i requires 0 <= i < |s.waiters| =>
                     if IsPending(s, i) then Call(s.waiters[i], why) else s.waiters[i]);
    s.(waiters := waiters, pending := map[])
  }

  function CloseSocket(s: Source): Source { if s.stopped then s else RejectAll(s, SocketClosed) }

  function Stop(s: Source): Source { RejectAll(s.(stopped := true), ReceiverStopped) }

  /** A waiter's resolve and reject have been called once in all if its timer is off, and not at all
      if it is on; a waiter in the map is on. A waiter that is on is in the map, unless another
      waiter awaits the same nonce. */
  ghost predicate Sound(s: Source) {
    && (forall n :: n in s.pending ==>
          s.pending[n] < |s.waiters| && s.waiters[s.pending[n]].nonce == n && s.waiters[s.pending[n]].ticking)
    && (forall i :: 0 <= i < |s.waiters| ==> |s.waiters[i].calls| == if s.waiters[i].ticking then 0 else 1)
    && (forall i :: 0 <= i < |s.waiters| && s.waiters[i].ticking && Alone(s, i) ==> IsPending(s, i))
  }

  ghost predicate Alone(s: Source, i: nat)
    requires i < |s.waiters|
  {
    forall j :: 0 <= j < |s.waiters| && j != i ==> s.waiters[j].nonce != s.waiters[i].nonce
  }

  lemma AloneSame(s: Source, t: Source, i: nat)
    requires i < |t.waiters| <= |s.waiters|
    requires forall j :: 0 <= j < |t.waiters| ==> s.waiters[j].nonce == t.waiters[j].nonce
    requires Alone(s, i)
    ensures Alone(t, i)
  {
  }

  lemma AwaitSound(s: Source, nonce: Text)
    requires Sound(s)
    ensures Sound(Await(s, nonce))
  {
    var r := Await(s, nonce);
    forall i | 0 <= i < |r.waiters| && r.waiters[i].ticking && Alone(r, i) ensures IsPending(r, i) {
      if i < |s.waiters| {
        AloneSame(r, s, i);
        assert r.waiters[|s.waiters|].nonce == nonce;
      }
    }
  }

  lemma ClickSound(s: Source, click: Interaction)
    requires Sound(s)
    ensures Sound(Click(s, click))
  {
    var r := Click(s, click);
    forall i | 0 <= i < |r.waiters| && r.waiters[i].ticking && Alone(r, i) ensures IsPending(r, i) {
      AloneSame(r, s, i);
    }
  }

  lemma TimeoutSound(s: Source, i: nat)
    requires Sound(s)
    ensures Sound(Timeout(s, i))
  {
    var r := Timeout(s, i);
    forall k | 0 <= k < |r.waiters| && r.waiters[k].ticking && Alone(r, k) ensures IsPending(r, k) {
      AloneSame(r, s, k);
    }
  }

  lemma RejectAllSound(s: Source, why: Settlement)
    requires Sound(s)
    ensures Sound(RejectAll(s, why))
  {
    var r := RejectAll(s, why);
    forall i | 0 <= i < |r.waiters| && Alone(r, i) ensures !r.waiters[i].ticking {
      AloneSame(r, s, i);
    }
  }

  /** A click settles a waiter exactly if the waiter is in the map under the nonce. */
  lemma ClickReachesExactly(s: Source, i: nat, click: Interaction)
    requires Sound(s) && i < |s.waiters| && s.waiters[i].ticking && click.nonce == s.waiters[i].nonce
    ensures Click(s, click).waiters[i] == if IsPending(s, i) then Call(s.waiters[i], Clicked(click)) else s.waiters[i]
  {
  }

  /** What can happen to a receiver. */
  datatype SourceEvent =
    | Awaits(nonce: Text)
    | Clicks(click: Interaction)
    | Fires(waiter: nat)
    | Closes
    | Halts

  function SourceStep(s: Source, e: SourceEvent): Source {
    match e
    case Awaits(nonce) => Await(s, nonce)
    case Clicks(click) => Click(s, click)
    case Fires(i) => Timeout(s, i)
    case Closes => CloseSocket(s)
    case Halts => Stop(s)
  }

  function SourceRun(s: Source, es: seq<SourceEvent>): Source
    decreases |es|
  {
    if |es| == 0 then s else SourceRun(SourceStep(s, es[0]), es[1..])
  }

  /** A waiter that still waits is settled by a click on its nonce. */
  ghost predicate InReach(s: Source, i: nat) {
    i < |s.waiters| &&
    (s.waiters[i].ticking ==>
       forall click: Interaction :: click.nonce == s.waiters[i].nonce ==>
         Click(s, click).waiters[i].calls == [Clicked(click)])
  }

  predicate NeverAwaits(es: seq<SourceEvent>, nonce: Text) {
    forall k :: 0 <= k < |es| ==> es[k] != Awaits(nonce)
  }

  predicate NoneTicks(s: Source, nonce: Text) {
    forall j :: 0 <= j < |s.waiters| && s.waiters[j].nonce == nonce ==> !s.waiters[j].ticking
  }

  /** A waiter in the map, or done, and no other one that ticks for its nonce. */
  ghost predicate Unrivalled(s: Source, i: nat) {
    && Sound(s) && i < |s.waiters|
    && (s.waiters[i].ticking ==> IsPending(s, i))
    && forall j :: 0 <= j < |s.waiters| && j != i && s.waiters[j].nonce == s.waiters[i].nonce ==> !s.waiters[j].ticking
  }

  lemma AwaitUnrivalled(s: Source, i: nat, nonce: Text)
    requires Unrivalled(s, i) && nonce != s.waiters[i].nonce
    ensures Unrivalled(Await(s, nonce), i)
  {
    AwaitSound(s, nonce);
    hide Sound;
  }

  lemma ClickUnrivalled(s: Source, i: nat, click: Interaction)
    requires Unrivalled(s, i)
    ensures Unrivalled(Click(s, click), i) && Click(s, click).waiters[i].nonce == s.waiters[i].nonce
  {
    ClickSound(s, click);
    hide Alone;
  }

  lemma TimeoutUnrivalled(s: Source, i: nat, k: nat)
    requires Unrivalled(s, i)
    ensures Unrivalled(Timeout(s, k), i) && Timeout(s, k).waiters[i].nonce == s.waiters[i].nonce
  {
    TimeoutSound(s, k);
    hide Sound;
  }

  lemma RejectUnrivalled(s: Source, i: nat, why: Settlement)
    requires Unrivalled(s, i)
    ensures Unrivalled(RejectAll(s, why), i) && RejectAll(s, why).waiters[i].nonce == s.waiters[i].nonce
  {
    RejectAllSound(s, why);
    hide Sound;
  }

  lemma StepUnrivalled(s: Source, i: nat, e: SourceEvent)
    requires Unrivalled(s, i) && e != Awaits(s.waiters[i].nonce)
    ensures Unrivalled(SourceStep(s, e), i) && SourceStep(s, e).waiters[i].nonce == s.waiters[i].nonce
  {
    hide Sound, Click, Timeout, RejectAll;
    match e
    case Awaits(nonce) => AwaitUnrivalled(s, i, nonce);
    case Clicks(click) => ClickUnrivalled(s, i, click);
    case Fires(k) => TimeoutUnrivalled(s, i, k);
    case Closes => RejectUnrivalled(s, i, SocketClosed);
    case Halts =>
      StoppedSound(s);
      RejectUnrivalled(s.(stopped := true), i, ReceiverStopped);
  }

  lemma {:induction false} RunUnrivalled(s: Source, i: nat, es: seq<SourceEvent>)
    requires Unrivalled(s, i) && NeverAwaits(es, s.waiters[i].nonce)
    ensures InReach(SourceRun(s, es), i)
    decreases |es|
  {
    hide SourceStep, Sound;
    if |es| > 0 {
      StepUnrivalled(s, i, es[0]);
      RunUnrivalled(SourceStep(s, es[0]), i, es[1..]);
    } else {
      UnrivalledInReach(s, i);
    }
  }

  lemma UnrivalledInReach(s: Source, i: nat)
    requires Unrivalled(s, i)
    ensures InReach(s, i)
  {
  }

  /** A new wait stays within reach of clicks for as long as it waits, whatever happens short of
      another wait for the same nonce, exactly if no earlier wait for the nonce still ticks. */
  lemma ReachExactly(s: Source, nonce: Text)
    requires Sound(s)
    ensures (forall es :: NeverAwaits(es, nonce) ==> InReach(SourceRun(Await(s, nonce), es), |s.waiters|)) <==>
            NoneTicks(s, nonce)
  {
    hide Click;
    var i := |s.waiters|;
    var next := Await(s, nonce);
    AwaitSound(s, nonce);
    if NoneTicks(s, nonce) {
      forall es | NeverAwaits(es, nonce) ensures InReach(SourceRun(next, es), i) {
        RunUnrivalled(next, i, es);
      }
    } else {
      var j :| 0 <= j < |s.waiters| && s.waiters[j].nonce == nonce && s.waiters[j].ticking;
      var es := [Fires(j)];
      assert NeverAwaits(es, nonce);
      assert es[1..] == [];
      var late := Timeout(next, j);
      assert SourceRun(next, es) == late;
      TimeoutSound(next, j);
      var click := Interaction(nonce, true, [], false);
      ClickReachesExactly(late, i, click);
    }
  }

  /** A later wait for the same nonce takes a waiting one out of reach at once. */
  lemma LaterWaitHides(s: Source, i: nat)
    requires Sound(s) && i < |s.waiters| && s.waiters[i].ticking
    ensures var next := Await(s, s.waiters[i].nonce); next.waiters[i] == s.waiters[i] && !InReach(next, i)
  {
    hide Click;
    var next := Await(s, s.waiters[i].nonce);
    AwaitSound(s, s.waiters[i].nonce);
    var click := Interaction(s.waiters[i].nonce, true, [], false);
    ClickReachesExactly(next, i, click);
  }

  // ----- The channel -----

  datatype Mint = Mint(nonce: Text, messageId: Text, at: int)

  /** A prompt on its way to Slack. */
  datatype Post = Post(messageId: Text, nonce: Text, arrived: bool)

  /** A call of awaitDecision, which awaits the nonce as the waiter of the same number. */
  datatype Ask = Ask(messageId: Text, answered: bool)

  /** A returned decision; used says whether it consumed its nonce. */
  datatype Decision = Decision(messageId: Text, ask: nat, nonce: Text, approved: bool, used: bool, at: int)

  datatype Channel = Channel(
    ttl: int,
    entries: map<Text, Entry>,
    shown: map<Text, Text>,
    source: Source,
    mints: seq<Mint>,
    posts: seq<Post>,
    asks: seq<Ask>,
    clicks: seq<Interaction>,
    decisions: seq<Decision>)

  /** The minted nonce comes from a generator outside the channel. */
  datatype Event =
    | Request(messageId: Text, sessionId: Text, nonce: Text, now: int)
    | Posted(post: nat, ok: bool)
    | AwaitDecision(messageId: Text)
    | Received(payload: Json)
    | TimerFires(waiter: nat)
    | SocketCloses
    | Stops
    | Resumes(ask: nat, now: int)

  predicate Enabled(c: Channel, e: Event) {
    match e
    case Posted(k, _) => k < |c.posts| && !c.posts[k].arrived
    case AwaitDecision(messageId) => messageId in c.shown
    case Resumes(i, _) =>
      i < |c.asks| && i < |c.source.waiters| && !c.asks[i].answered &&
      |c.source.waiters[i].calls| > 0 && c.source.waiters[i].calls[0].Clicked?
    case _ => true
  }

  /** The rest of awaitDecision, once a click has resolved its promise. */
  function Decide(c: Channel, i: nat, now: int): Decision
    requires Enabled(c, Resumes(i, now))
  {
    var click := c.source.waiters[i].calls[0].click;
    var messageId := c.asks[i].messageId;
    if click.isBot then Decision(messageId, i, click.nonce, false, false, now)
    else
      var used := Consume(c.entries, click.nonce, messageId, now) == Consumed;
      Decision(messageId, i, click.nonce, used && click.approved, used, now)
  }

  function Step(c: Channel, e: Event): Channel {
    if !Enabled(c, e) then c
    else
      match e
      case Request(messageId, sessionId, nonce, now) =>
        c.(entries := c.entries[nonce := Entry(messageId, sessionId, now + c.ttl, false)],
           mints := c.mints + [Mint(nonce, messageId, now)],
           posts := c.posts + [Post(messageId, nonce, false)])
      case Posted(k, ok) =>
        var post := c.posts[k];
        c.(posts := c.posts[k := post.(arrived := true)],
           shown := if ok then c.shown[post.messageId := post.nonce] else c.shown)
      case AwaitDecision(messageId) =>
        c.(source := Await(c.source, c.shown[messageId]), asks := c.asks + [Ask(messageId, false)])
      case Received(payload) =>
        var click := ParseBlockAction(payload);
        c.(source := Frame(c.source, payload),
           clicks := c.clicks + if click.Some? then [click.value] else [])
      case TimerFires(i) => c.(source := Timeout(c.source, i))
      case SocketCloses => c.(source := CloseSocket(c.source))
      case Stops => c.(source := Stop(c.source))
      case Resumes(i, now) =>
        var d := Decide(c, i, now);
        var click := c.source.waiters[i].calls[0].click;
        c.(entries := if click.isBot then c.entries else AfterConsume(c.entries, click.nonce, c.asks[i].messageId, now),
           asks := c.asks[i := c.asks[i].(answered := true)],
           decisions := c.decisions + [d])
  }

  function Fresh(ttl: int): Channel {
    Channel(ttl, map[], map[], Source([], map[], {}, [], false), [], [], [], [], [])
  }

  function After(ttl: int, es: seq<Event>): Channel {
    if |es| == 0 then Fresh(ttl) else Step(After(ttl, es[..|es| - 1]), es[|es| - 1])
  }

  // ----- The invariant -----

  function Nonces(mints: seq<Mint>): (r: seq<Text>)
    ensures |r| == |mints| && forall i :: 0 <= i < |r| ==> r[i] == mints[i].nonce
  {
    seq(|mints|, i requires 0 <= i < |mints| => mints[i].nonce)
  }

  /** The entry of a nonce says when and for which message it was minted. */
  ghost predicate Minted(c: Channel, nonce: Text) {
    nonce in c.entries &&
    exists k :: 0 <= k < |c.mints| && MintOf(c.mints[k], nonce, c.entries[nonce], c.ttl)
  }

  predicate MintOf(m: Mint, nonce: Text, e: Entry, ttl: int) {
    m.nonce == nonce && m.messageId == e.messageId && e.expiresAt == m.at + ttl
  }

  ghost predicate FromClick(c: Channel, i: nat)
    requires i < |c.source.waiters|
  {
    var w := c.source.waiters[i];
    |w.calls| > 0 && w.calls[0].Clicked? ==> w.calls[0].click.nonce == w.nonce && w.calls[0].click in c.clicks
  }

  /** A decision that used its nonce did so in time, for the message that it was minted for, and an
      approval comes from an Approve click of a human. */
  ghost predicate Justified(c: Channel, d: Decision) {
    && (d.approved ==> d.used)
    && (d.used ==>
          && d.nonce in c.entries && c.entries[d.nonce].consumed
          && c.entries[d.nonce].messageId == d.messageId && d.at <= c.entries[d.nonce].expiresAt
          && exists k :: 0 <= k < |c.clicks| &&
               ClickFor(c.clicks[k], d))
  }

  predicate ClickFor(click: Interaction, d: Decision) {
    click.nonce == d.nonce && !click.isBot && (d.approved ==> click.approved)
  }

  ghost predicate UsedOnce(ds: seq<Decision>) {
    forall i, j :: 0 <= i < j < |ds| && ds[i].used && ds[j].used ==> ds[i].nonce != ds[j].nonce
  }

  ghost predicate Consistent(c: Channel) {
    && Sound(c.source)
    && |c.asks| == |c.source.waiters|
    && (forall nonce :: nonce in c.entries ==> Minted(c, nonce))
    && (forall i :: 0 <= i < |c.source.waiters| ==> FromClick(c, i))
    && (forall k :: 0 <= k < |c.decisions| ==> Justified(c, c.decisions[k]))
    && UsedOnce(c.decisions)
  }

  lemma SourceConsistent(c: Channel, d: Channel)
    requires Consistent(c)
    requires d == c.(source := d.source, clicks := d.clicks) && c.clicks <= d.clicks
    requires Sound(d.source) && |d.source.waiters| == |c.source.waiters|
    requires forall i :: 0 <= i < |d.source.waiters| ==> FromClick(d, i)
    ensures Consistent(d)
  {
    hide Sound, FromClick;
    forall nonce | nonce in d.entries ensures Minted(d, nonce) {
      assert Minted(c, nonce);
    }
    forall k | 0 <= k < |d.decisions| ensures Justified(d, d.decisions[k]) {
      assert Justified(c, c.decisions[k]);
      if d.decisions[k].used {
        var j :| 0 <= j < |c.clicks| && ClickFor(c.clicks[j], c.decisions[k]);
        assert d.clicks[j] == c.clicks[j];
      }
    }
  }

  lemma RequestConsistent(c: Channel, e: Event)
    requires Consistent(c) && e.Request? && Distinct(Nonces(Step(c, e).mints))
    ensures Consistent(Step(c, e))
  {
    hide Sound;
    var d := Step(c, e);
    assert Nonces(d.mints)[|c.mints|] == e.nonce;
    assert forall k :: 0 <= k < |c.mints| ==> Nonces(d.mints)[k] == c.mints[k].nonce;
    assert e.nonce in c.entries ==> Minted(c, e.nonce);
    forall nonce | nonce in d.entries ensures Minted(d, nonce) {
      if nonce == e.nonce {
        assert MintOf(d.mints[|c.mints|], nonce, d.entries[nonce], d.ttl);
      } else {
        assert Minted(c, nonce);
        var k :| 0 <= k < |c.mints| && MintOf(c.mints[k], nonce, c.entries[nonce], c.ttl);
        assert MintOf(d.mints[k], nonce, d.entries[nonce], d.ttl);
      }
    }
    assert forall i :: 0 <= i < |d.source.waiters| ==> FromClick(c, i) ==> FromClick(d, i);
    assert forall k :: 0 <= k < |d.decisions| ==> Justified(c, c.decisions[k]) ==> Justified(d, d.decisions[k]);
  }

  lemma ResumesConsistent(c: Channel, e: Event)
    requires Consistent(c) && e.Resumes? && Enabled(c, e)
    ensures Consistent(Step(c, e))
  {
    hide Sound;
    var next := Step(c, e);
    var d := Decide(c, e.ask, e.now);
    var click := c.source.waiters[e.ask].calls[0].click;
    assert FromClick(c, e.ask);
    forall nonce | nonce in next.entries ensures Minted(next, nonce) {
      assert Minted(c, nonce);
      var k :| 0 <= k < |c.mints| && MintOf(c.mints[k], nonce, c.entries[nonce], c.ttl);
      assert MintOf(next.mints[k], nonce, next.entries[nonce], next.ttl);
    }
    assert forall i :: 0 <= i < |next.source.waiters| ==> FromClick(c, i) ==> FromClick(next, i);
    forall k | 0 <= k < |next.decisions| ensures Justified(next, next.decisions[k]) {
      if k < |c.decisions| {
        assert Justified(c, c.decisions[k]);
      } else if d.used {
        var j :| 0 <= j < |c.clicks| && c.clicks[j] == click;
        assert ClickFor(next.clicks[j], d);
      }
    }
    forall i | 0 <= i < |c.decisions| && c.decisions[i].used && d.used
      ensures c.decisions[i].nonce != d.nonce
    {
      assert Justified(c, c.decisions[i]);
    }
  }

  lemma StepConsistent(c: Channel, e: Event)
    requires Consistent(c) && Distinct(Nonces(Step(c, e).mints))
    ensures Consistent(Step(c, e))
  {
    if Enabled(c, e) {
      match e
      case Request(messageId, sessionId, nonce, now) => RequestConsistent(c, e);
      case Posted(k, ok) => PostedConsistent(c, e);
      case AwaitDecision(messageId) => AskConsistent(c, e);
      case Received(payload) => ReceivedConsistent(c, payload);
      case TimerFires(i) =>
        TimeoutSound(c.source, i);
        TimerConsistent(c, i);
      case SocketCloses => RejectConsistent(c, CloseSocket(c.source), SocketClosed);
      case Stops => RejectConsistent(c, Stop(c.source), ReceiverStopped);
      case Resumes(i, now) => ResumesConsistent(c, e);
    }
  }

  lemma PostedConsistent(c: Channel, e: Event)
    requires Consistent(c) && e.Posted? && Enabled(c, e)
    ensures Consistent(Step(c, e))
  {
    hide Sound;
    var d := Step(c, e);
    assert forall nonce :: nonce in d.entries ==> Minted(c, nonce) ==> Minted(d, nonce);
    assert forall i :: 0 <= i < |d.source.waiters| ==> FromClick(c, i) ==> FromClick(d, i);
    assert forall k :: 0 <= k < |d.decisions| ==> Justified(c, c.decisions[k]) ==> Justified(d, d.decisions[k]);
  }

  lemma AskConsistent(c: Channel, e: Event)
    requires Consistent(c) && e.AwaitDecision? && Enabled(c, e)
    ensures Consistent(Step(c, e))
  {
    hide Sound;
    var d := Step(c, e);
    AwaitSound(c.source, c.shown[e.messageId]);
    assert forall nonce :: nonce in d.entries ==> Minted(c, nonce) ==> Minted(d, nonce);
    forall i | 0 <= i < |d.source.waiters| ensures FromClick(d, i) {
      if i < |c.source.waiters| { assert FromClick(c, i); }
    }
    assert forall k :: 0 <= k < |d.decisions| ==> Justified(c, c.decisions[k]) ==> Justified(d, d.decisions[k]);
  }

  lemma ReceivedConsistent(c: Channel, payload: Json)
    requires Consistent(c)
    ensures Consistent(Step(c, Received(payload)))
  {
    hide ParseBlockAction;
    var d := Step(c, Received(payload));
    match ParseBlockAction(payload)
    case None =>
      assert d.clicks == c.clicks;
    case Some(click) =>
      ClickSound(c.source, click);
      forall i | 0 <= i < |d.source.waiters| ensures FromClick(d, i) {
        assert FromClick(c, i);
        assert click in d.clicks;
        assert forall x :: x in c.clicks ==> x in d.clicks;
      }
      SourceConsistent(c, d);
  }

  lemma TimerConsistent(c: Channel, i: nat)
    requires Consistent(c) && Sound(Timeout(c.source, i))
    ensures Consistent(Step(c, TimerFires(i)))
  {
    var d := Step(c, TimerFires(i));
    forall k | 0 <= k < |d.source.waiters| ensures FromClick(d, k) {
      assert FromClick(c, k);
    }
    SourceConsistent(c, d);
  }

  lemma RejectConsistent(c: Channel, s: Source, why: Settlement)
    requires Consistent(c) && !why.Clicked?
    requires s == c.source || s == RejectAll(c.source, why) || s == RejectAll(c.source.(stopped := true), why)
    ensures Consistent(c.(source := s))
  {
    var stopped := c.source.(stopped := true);
    RejectAllSound(c.source, why);
    StoppedSound(c.source);
    RejectAllSound(stopped, why);
    var d := c.(source := s);
    forall k | 0 <= k < |d.source.waiters| ensures FromClick(d, k) {
      assert FromClick(c, k);
    }
    SourceConsistent(c, d);
  }

  lemma MintsGrow(c: Channel, e: Event)
    requires Distinct(Nonces(Step(c, e).mints))
    ensures Distinct(Nonces(c.mints))
  {
    var before, after := Nonces(c.mints), Nonces(Step(c, e).mints);
    assert forall i :: 0 <= i < |before| ==> before[i] == after[i];
  }

  lemma {:induction false} RunConsistent(ttl: int, es: seq<Event>)
    requires Distinct(Nonces(After(ttl, es).mints))
    ensures Consistent(After(ttl, es)) && After(ttl, es).ttl == ttl
  {
    hide Step, Consistent;
    if |es| == 0 {
      FreshConsistent(ttl);
    } else {
      var front := es[..|es| - 1];
      MintsGrow(After(ttl, front), es[|es| - 1]);
      RunConsistent(ttl, front);
      StepConsistent(After(ttl, front), es[|es| - 1]);
      SameTtl(After(ttl, front), es[|es| - 1]);
    }
  }

  lemma SameTtl(c: Channel, e: Event)
    ensures Step(c, e).ttl == c.ttl
  {
  }

  lemma FreshConsistent(ttl: int)
    ensures Consistent(Fresh(ttl))
  {
  }

  // ----- What holds in every run -----

  /** Whatever happens in whatever order, with fresh nonces: an approved decision comes from an
      Approve click of a human, in time, on a nonce minted for that very message; no two decisions
      use the same nonce; and every waiter settles at most once. */
  lemma ApprovalsAreOneTime(ttl: int, es: seq<Event>, k: nat)
    requires Distinct(Nonces(After(ttl, es).mints))
    requires k < |After(ttl, es).decisions| && After(ttl, es).decisions[k].approved
    ensures var c := After(ttl, es);
            var d := c.decisions[k];
            && (exists m :: m in c.mints && m.nonce == d.nonce && m.messageId == d.messageId && d.at <= m.at + ttl)
            && (exists click :: click in c.clicks && click.nonce == d.nonce && click.approved && !click.isBot)
            && (forall j :: 0 <= j < |c.decisions| && j != k && c.decisions[j].used ==> c.decisions[j].nonce != d.nonce)
  {
    hide After, Sound;
    RunConsistent(ttl, es);
    var c := After(ttl, es);
    var d := c.decisions[k];
    assert Justified(c, d);
    assert Minted(c, d.nonce);
    var i :| 0 <= i < |c.mints| && MintOf(c.mints[i], d.nonce, c.entries[d.nonce], ttl);
    assert c.mints[i] in c.mints;
    var j :| 0 <= j < |c.clicks| && ClickFor(c.clicks[j], d);
    assert c.clicks[j] in c.clicks;
  }

  lemma StepSound(c: Channel, e: Event)
    requires Sound(c.source)
    ensures Sound(Step(c, e).source)
  {
    hide Sound, ParseBlockAction, Click, Await, Timeout;
    if Enabled(c, e) {
      match e
      case AwaitDecision(messageId) => AwaitSound(c.source, c.shown[messageId]);
      case Received(payload) =>
        if ParseBlockAction(payload).Some? { ClickSound(c.source, ParseBlockAction(payload).value); }
      case TimerFires(i) => TimeoutSound(c.source, i);
      case SocketCloses => RejectAllSound(c.source, SocketClosed);
      case Stops =>
        StoppedSound(c.source);
        RejectAllSound(c.source.(stopped := true), ReceiverStopped);
      case _ =>
    }
  }

  /** Whatever happens in whatever order, even with repeated nonces: every waiter is settled exactly
      once or still has its timer running, and while one waiter alone awaits a nonce, a click on it
      arrives. */
  lemma {:induction false} SettledOnce(ttl: int, es: seq<Event>)
    ensures Sound(After(ttl, es).source)
  {
    hide Sound, Step;
    if |es| > 0 {
      SettledOnce(ttl, es[..|es| - 1]);
      StepSound(After(ttl, es[..|es| - 1]), es[|es| - 1]);
    } else {
      FreshConsistent(ttl);
    }
  }

  // ----- Two prompts for one message -----

  lemma AfterOne(ttl: int, es: seq<Event>, e: Event)
    ensures After(ttl, es + [e]) == Step(After(ttl, es), e)
  {
    assert (es + [e])[..|es|] == es;
  }

  function TwoPrompts(m: Text, first: Text, second: Text): seq<Event> {
    [Request(m, m, first, 0), Request(m, m, second, 0), Posted(0, true), Posted(1, true)]
  }

  lemma TwoPromptsState(ttl: int, m: Text, first: Text, second: Text)
    requires first != second
    ensures var c := After(ttl, TwoPrompts(m, first, second));
            c.shown == map[m := second] && c.source == Fresh(ttl).source && c.asks == [] && c.clicks == [] &&
            c.mints == [Mint(first, m, 0), Mint(second, m, 0)]
  {
    var none: seq<Event> := [];
    var e1, e2 := [Request(m, m, first, 0)], [Request(m, m, first, 0), Request(m, m, second, 0)];
    AfterOne(ttl, none, e1[0]);
    assert none + [e1[0]] == e1 && e1 + [e2[1]] == e2;
    AfterOne(ttl, e1, e2[1]);
    var c := After(ttl, e2);
    assert c.posts == [Post(m, first, false), Post(m, second, false)];
    AfterOne(ttl, e2, Posted(0, true));
    AfterOne(ttl, e2 + [Posted(0, true)], Posted(1, true));
    assert e2 + [Posted(0, true)] + [Posted(1, true)] == TwoPrompts(m, first, second);
  }

  /** Two prompts are posted for one message, and the second replaces the first: both calls of
      awaitDecision then await its nonce. When the first one times out, the Approve click that comes
      later finds nobody, although the second one still waits. */
  lemma ClickLostExample(ttl: int, m: Text, first: Text, second: Text, user: Text)
    requires first != second && |second| > 0 && |user| > 0
    ensures var click := Interaction(second, true, user, false);
            var es := TwoPrompts(m, first, second) +
                      [AwaitDecision(m), AwaitDecision(m), TimerFires(0), Received(ClickPayload(click))];
            var c := After(ttl, es);
            && Distinct(Nonces(c.mints))
            && c.source.waiters == [Waiter(second, false, [TimedOut]), Waiter(second, true, [])]
            && c.source.strays == [Stray(false, second, user)]
  {
    var click := Interaction(second, true, user, false);
    ClickParsesBack(click);
    TwoPromptsState(ttl, m, first, second);
    hide ParseBlockAction, ClickPayload, TwoPrompts, After;
    var es := TwoPrompts(m, first, second);
    var e5 := es + [AwaitDecision(m)];
    var e6 := e5 + [AwaitDecision(m)];
    var e7 := e6 + [TimerFires(0)];
    var received := Received(ClickPayload(click));
    AfterOne(ttl, es, AwaitDecision(m));
    AfterOne(ttl, e5, AwaitDecision(m));
    AfterOne(ttl, e6, TimerFires(0));
    AfterOne(ttl, e7, received);
    assert es + [AwaitDecision(m), AwaitDecision(m), TimerFires(0), received] == e7 + [received];
    var waiting, done := Waiter(second, true, []), Waiter(second, false, [TimedOut]);
    assert Call(waiting, TimedOut) == done;
    assert After(ttl, e6).source == Source([waiting, waiting], map[second := 1], {}, [], false);
    assert After(ttl, e7).source == Source([done, waiting], map[], {}, [], false);
  }

  // ----- The objects -----

  class NonceStore {
    var entries: map<Text, Entry>
    const ttl: int

    constructor (ttl: int)
      ensures entries == map[] && this.ttl == ttl
    {
      this.ttl := ttl;
      entries := map[];
    }

    method MintNonce(messageId: Text, sessionId: Text, nonce: Text, now: int)
      modifies this
      ensures entries == old(entries)[nonce := Entry(messageId, sessionId, now + ttl, false)]
      ensures forall m, t :: Consume(entries, nonce, m, t) == Consumed <==> m == messageId && t <= now + ttl
      ensures forall other, m, t :: other != nonce ==>
                Consume(entries, other, m, t) == Consume(old(entries), other, m, t)
    {
      entries := entries[nonce := Entry(messageId, sessionId, now + ttl, false)];
    }

    method ConsumeNonce(nonce: Text, messageId: Text, now: int) returns (r: Consumption)
      modifies this
      ensures r == Consume(old(entries), nonce, messageId, now)
      ensures entries == AfterConsume(old(entries), nonce, messageId, now)
      ensures r != Consumed ==> entries == old(entries)
      ensures r == Consumed ==> forall m, t :: Consume(entries, nonce, m, t) == AlreadyUsed
    {
      if nonce !in entries { return UnknownNonce; }
      var entry := entries[nonce];
      if entry.consumed { return AlreadyUsed; }
      if now > entry.expiresAt { return Expired; }
      if entry.messageId != messageId { return WrongRequest; }
      entries := entries[nonce := entry.(consumed := true)];
      r := Consumed;
    }
  }

  class SocketModeInteractionSource {
    var waiters: seq<Waiter>
    var pending: map<Text, nat>
    var resolved: set<Text>
    var strays: seq<Stray>
    var stopped: bool

    function View(): Source
      reads this
    {
      Source(waiters, pending, resolved, strays, stopped)
    }

    constructor ()
      ensures View() == Source([], map[], {}, [], false)
    {
      waiters, pending, resolved, strays, stopped := [], map[], {}, [], false;
    }

    method AwaitInteraction(nonce: Text)
      modifies this
      ensures View() == Await(old(View()), nonce)
    {
      pending := pending[nonce := |waiters|];
      waiters := waiters + [Waiter(nonce, true, [])];
    }

    method HandleFrame(payload: Json)
      requires Sound(View())
      modifies this
      ensures View() == Frame(old(View()), payload) && Sound(View())
    {
      hide ParseBlockAction;
      var parsed := ParseBlockAction(payload);
      if parsed.None? { return; }
      var click := parsed.value;
      ClickSound(View(), click);
      if click.nonce !in pending {
        strays := strays + [Stray(click.nonce in resolved, click.nonce, click.userId)];
        return;
      }
      var i := pending[click.nonce];
      pending := pending - {click.nonce};
      resolved := resolved + {click.nonce};
      waiters := waiters[i := Call(waiters[i], Clicked(click))];
    }

    method TimerFired(i: nat)
      requires Sound(View()) && i < |waiters| && waiters[i].ticking
      modifies this
      ensures View() == Timeout(old(View()), i) && Sound(View())
    {
      TimeoutSound(View(), i);
      pending := pending - {waiters[i].nonce};
      waiters := waiters[i := Call(waiters[i], TimedOut)];
    }

    method HandleClose()
      requires Sound(View())
      modifies this
      ensures View() == CloseSocket(old(View())) && Sound(View())
    {
      if stopped { return; }
      RejectAllPending(SocketClosed);
    }

    method StopReceiver()
      requires Sound(View())
      modifies this
      ensures View() == Stop(old(View())) && Sound(View())
    {
      stopped := true;
      StoppedSound(old(View()));
      RejectAllPending(ReceiverStopped);
    }

    /** Every pending waiter is rejected, one after the other in any order. */
    method RejectAllPending(why: Settlement)
      requires Sound(View())
      modifies this
      ensures View() == RejectAll(old(View()), why) && Sound(View())
    {
      RejectAllSound(View(), why);
      ghost var s := View();
      var left := pending.Keys;
      while left != {}
        invariant left <= pending.Keys && pending == s.pending
        invariant resolved == s.resolved && strays == s.strays && stopped == s.stopped
        invariant |waiters| == |s.waiters|
        invariant forall i :: 0 <= i < |waiters| ==>
          waiters[i] == if IsPending(s, i) && s.waiters[i].nonce !in left then Call(s.waiters[i], why) else s.waiters[i]
        decreases |left|
      {
        var nonce :| nonce in left;
        var i := pending[nonce];
        waiters := waiters[i := Call(waiters[i], why)];
        left := left - {nonce};
      }
      pending := map[];
      assert waiters == RejectAll(s, why).waiters;
    }
  }

  lemma StoppedSound(s: Source)
    requires Sound(s)
    ensures Sound(s.(stopped := true))
  {
    var t := s.(stopped := true);
    forall i | 0 <= i < |t.waiters| && t.waiters[i].ticking && Alone(t, i) ensures IsPending(t, i) {
      AloneSame(t, s, i);
    }
  }

  class SlackChannel {
    const nonces: NonceStore
    const receiver: SocketModeInteractionSource
    var shown: map<Text, Text>

    /** The objects hold what the abstract channel says. */
    ghost predicate Agrees(c: Channel)
      reads this, nonces, receiver
    {
      c.ttl == nonces.ttl && c.entries == nonces.entries && c.shown == shown && c.source == receiver.View()
    }

    constructor (nonces: NonceStore, receiver: SocketModeInteractionSource)
      requires nonces.entries == map[] && receiver.View() == Fresh(nonces.ttl).source
      ensures this.nonces == nonces && this.receiver == receiver && Agrees(Fresh(nonces.ttl))
    {
      this.nonces, this.receiver, shown := nonces, receiver, map[];
    }

    /** postApprovalRequest up to its await; false when the screen refuses the prompt. */
    method BeginPost(ghost c: Channel, messageId: Text, sessionId: Text, nonce: Text, now: int, passes: bool)
      returns (posting: bool)
      requires Agrees(c)
      modifies nonces
      ensures posting == passes
      ensures Agrees(if passes then Step(c, Request(messageId, sessionId, nonce, now)) else c)
    {
      if passes { nonces.MintNonce(messageId, sessionId, nonce, now); }
      posting := passes;
    }

    /** The rest of postApprovalRequest, once prompt number k has arrived. */
    method PromptPosted(ghost c: Channel, ghost k: nat, messageId: Text, nonce: Text)
      requires Agrees(c) && k < |c.posts| && c.posts[k] == Post(messageId, nonce, false)
      modifies this
      ensures Agrees(Step(c, Posted(k, true)))
    {
      shown := shown[messageId := nonce];
    }

    /** awaitDecision up to its await; false when it throws for want of a prompt. */
    method BeginAwait(ghost c: Channel, messageId: Text) returns (waiting: bool)
      requires Agrees(c)
      modifies receiver
      ensures waiting == (messageId in c.shown)
      ensures Agrees(Step(c, AwaitDecision(messageId)))
    {
      if messageId !in shown { return false; }
      receiver.AwaitInteraction(shown[messageId]);
      waiting := true;
    }

    /** The rest of awaitDecision, for ask number i, which a click has resolved. */
    method FinishAwait(ghost c: Channel, ghost i: nat, messageId: Text, click: Interaction, now: int)
      returns (approved: bool)
      requires Agrees(c) && Enabled(c, Resumes(i, now))
      requires c.asks[i].messageId == messageId && c.source.waiters[i].calls[0] == Clicked(click)
      modifies nonces
      ensures approved == Decide(c, i, now).approved
      ensures Agrees(Step(c, Resumes(i, now)))
    {
      if click.isBot { return false; }
      var r := nonces.ConsumeNonce(click.nonce, messageId, now);
      approved := r == Consumed && click.approved;
    }
  }
}
