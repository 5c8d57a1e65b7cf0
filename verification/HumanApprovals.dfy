/** The governance loop with the Slack channel as its channel: the click behind every approval. */
module HumanApprovals {
  import opened Utf16
  import opened Wrappers
  import opened Policy
  import opened Events
  import opened Journal
  import opened GovernanceSafety
  import opened Audit
  import G = Governance
  import A = Approvals

  /** The loop and the channel, the prompt of each call, and the awaitDecision that each call has
      begun, with no number when it threw at once. */
  datatype World = World(loop: G.Loop, channel: A.Channel, posts: map<nat, nat>, asks: map<nat, Option<nat>>)

  datatype Prompt = Prompt(nonce: Text, now: int)

  /** What happens next: a call begins (without a prompt if the screen refuses it), the refusal or
      the arrival of its prompt reaches it, it goes on to awaitDecision, something happens to the
      receiver, its click reaches awaitDecision, its decision or its failure reaches the loop, or
      the call goes on after its execution or delivery. */
  datatype Move =
    | Open(mode: G.Mode, req: G.Request, passes: nat, prompt: Option<Prompt>)
    | Refused(task: nat)
    | Arrives(task: nat, ok: bool)
    | Asks(task: nat)
    | Outside(event: A.Event)
    | Resumes(task: nat, now: int)
    | Decides(task: nat, decision: nat, passes: nat)
    | Fails(task: nat, message: Text, passes: nat)
    | Goes(happening: G.Happening)

  predicate HasAsk(w: World, n: nat) { n in w.asks && w.asks[n].Some? }

  /** The call of awaitDecision that a call waits for has been rejected. */
  predicate Rejected(w: World, n: nat)
    requires n in w.asks
  {
    match w.asks[n]
    case None => true
    case Some(i) =>
      var waiters := w.channel.source.waiters;
      i < |waiters| && |waiters[i].calls| > 0 && !waiters[i].calls[0].Clicked?
  }

  predicate Enabled(w: World, m: Move) {
    match m
    case Open(_, _, _, _) => true
    case Refused(n) => G.At(w.loop, n, G.Posting) && n !in w.posts
    case Arrives(n, _) => G.At(w.loop, n, G.Posting) && n in w.posts
    case Asks(n) => G.At(w.loop, n, G.Deciding) && n !in w.asks
    case Outside(e) => e.Received? || e.TimerFires? || e.SocketCloses? || e.Stops?
    case Resumes(n, _) => HasAsk(w, n)
    case Decides(n, k, _) =>
      G.At(w.loop, n, G.Deciding) && HasAsk(w, n) && k < |w.channel.decisions| &&
      w.channel.decisions[k].ask == w.asks[n].value
    case Fails(n, _, _) => G.At(w.loop, n, G.Deciding) && n in w.asks && Rejected(w, n)
    case Goes(h) => h.Returned? || h.DeliverDone?
  }

  predicate IsClicked(c: A.Channel, i: nat) {
    i < |c.source.waiters| && |c.source.waiters[i].calls| > 0 && c.source.waiters[i].calls[0].Clicked?
  }

  /** The click that resolved a call of awaitDecision. */
  function ClickOf(c: A.Channel, i: nat): A.Interaction
    requires IsClicked(c, i)
  {
    c.source.waiters[i].calls[0].click
  }

  function DecidedBy(c: A.Channel, i: nat): Text { if IsClicked(c, i) then ClickOf(c, i).userId else [] }

  /** Whether a new call comes to posting a prompt that passes the screen. */
  predicate Prompts(cfg: G.Setting, w: World, m: Move) {
    m.Open? && m.prompt.Some? && G.Opening(cfg, |w.loop.tasks|, m.mode, m.req, m.passes).stage == G.Posting
  }

  /** What a move is to the loop. */
  function LoopPart(w: World, m: Move): Option<G.Happening>
    requires Enabled(w, m)
  {
    match m
    case Open(mode, req, passes, _) => Some(G.Begin(mode, req, passes))
    case Refused(n) => Some(G.Posted(n, false))
    case Arrives(n, ok) => Some(G.Posted(n, ok))
    case Decides(n, k, passes) =>
      var d := w.channel.decisions[k];
      Some(G.Answered(n, G.Decision(d.approved, DecidedBy(w.channel, d.ask)), passes))
    case Fails(n, message, passes) => Some(G.Answered(n, G.NoDecision(message), passes))
    case Goes(h) => Some(h)
    case _ => None
  }

  /** What a move is to the channel. */
  function ChannelPart(cfg: G.Setting, w: World, m: Move): Option<A.Event>
    requires Enabled(w, m)
  {
    match m
    case Open(_, req, _, prompt) =>
      if Prompts(cfg, w, m) then Some(A.Request(req.id, req.sessionId, prompt.value.nonce, prompt.value.now)) else None
    case Arrives(n, ok) => Some(A.Posted(w.posts[n], ok))
    case Asks(n) => Some(A.AwaitDecision(w.loop.tasks[n].req.id))
    case Outside(e) => Some(e)
    case Resumes(n, now) => Some(A.Resumes(w.asks[n].value, now))
    case _ => None
  }

  function Step(cfg: G.Setting, w: World, m: Move): World {
    if !Enabled(w, m) then w
    else
      var loop := match LoopPart(w, m) case Some(h) => G.Step(cfg, w.loop, h) case None => w.loop;
      var channel := match ChannelPart(cfg, w, m) case Some(e) => A.Step(w.channel, e) case None => w.channel;
      var posts := if Prompts(cfg, w, m) then w.posts[|w.loop.tasks| := |w.channel.posts|] else w.posts;
      var asks :=
        if m.Asks? then
          var shown := w.loop.tasks[m.task].req.id in w.channel.shown;
          w.asks[m.task := if shown then Some(|w.channel.asks|) else None]
        else w.asks;
      World(loop, channel, posts, asks)
  }

  function After(cfg: G.Setting, ttl: int, ms: seq<Move>): World {
    if |ms| == 0 then World(G.IDLE, A.Fresh(ttl), map[], map[])
    else Step(cfg, After(cfg, ttl, ms[..|ms| - 1]), ms[|ms| - 1])
  }

  // ----- The loop's and the channel's own runs -----

  function Optional<T>(o: Option<T>): seq<T> { if o.Some? then [o.value] else [] }

  /** What the loop has seen of a run. */
  function Happenings(cfg: G.Setting, ttl: int, ms: seq<Move>): seq<G.Happening> {
    if |ms| == 0 then []
    else
      var front, m := ms[..|ms| - 1], ms[|ms| - 1];
      var w := After(cfg, ttl, front);
      Happenings(cfg, ttl, front) + if Enabled(w, m) then Optional(LoopPart(w, m)) else []
  }

  /** What the channel has seen of a run. */
  function ChannelEvents(cfg: G.Setting, ttl: int, ms: seq<Move>): seq<A.Event> {
    if |ms| == 0 then []
    else
      var front, m := ms[..|ms| - 1], ms[|ms| - 1];
      var w := After(cfg, ttl, front);
      ChannelEvents(cfg, ttl, front) + if Enabled(w, m) then Optional(ChannelPart(cfg, w, m)) else []
  }

  lemma LoopAfter(cfg: G.Setting, hs: seq<G.Happening>, h: Option<G.Happening>)
    ensures G.After(cfg, hs + Optional(h)) ==
            match h case Some(x) => G.Step(cfg, G.After(cfg, hs), x) case None => G.After(cfg, hs)
  {
    hide G.Step;
    var none: seq<G.Happening> := [];
    assert hs + none == hs;
    if h.Some? { assert (hs + [h.value])[..|hs|] == hs; }
  }

  lemma ChannelAfter(ttl: int, es: seq<A.Event>, e: Option<A.Event>)
    ensures A.After(ttl, es + Optional(e)) ==
            match e case Some(x) => A.Step(A.After(ttl, es), x) case None => A.After(ttl, es)
  {
    hide A.Step;
    var none: seq<A.Event> := [];
    assert es + none == es;
    if e.Some? { assert (es + [e.value])[..|es|] == es; }
  }

  /** The loop and the channel each run as they do by themselves. */
  lemma {:induction false} Projects(cfg: G.Setting, ttl: int, ms: seq<Move>)
    ensures After(cfg, ttl, ms).loop == G.After(cfg, Happenings(cfg, ttl, ms))
    ensures After(cfg, ttl, ms).channel == A.After(ttl, ChannelEvents(cfg, ttl, ms))
  {
    hide G.Step, A.Step, Enabled, LoopPart, ChannelPart, Prompts;
    if |ms| > 0 {
      var front, m := ms[..|ms| - 1], ms[|ms| - 1];
      Projects(cfg, ttl, front);
      var w := After(cfg, ttl, front);
      var h := if Enabled(w, m) then LoopPart(w, m) else None;
      var e := if Enabled(w, m) then ChannelPart(cfg, w, m) else None;
      LoopAfter(cfg, Happenings(cfg, ttl, front), h);
      ChannelAfter(ttl, ChannelEvents(cfg, ttl, front), e);
    }
  }

  // ----- What the channel keeps -----

  /** The later channel has all that the earlier one had. */
  ghost predicate Extends(c: A.Channel, d: A.Channel) {
    && |c.asks| <= |d.asks|
    && (forall i :: 0 <= i < |c.asks| ==> d.asks[i].messageId == c.asks[i].messageId)
    && (forall i :: 0 <= i && IsClicked(c, i) ==> IsClicked(d, i) && ClickOf(d, i) == ClickOf(c, i))
  }

  /** A decision answers its call of awaitDecision with the click that resolved it. */
  ghost predicate Answers(c: A.Channel, d: A.Decision) {
    && d.ask < |c.asks| && c.asks[d.ask].messageId == d.messageId
    && IsClicked(c, d.ask) && ClickOf(c, d.ask).nonce == d.nonce
    && (d.approved ==> ClickOf(c, d.ask).approved && !ClickOf(c, d.ask).isBot)
  }

  ghost predicate AllAnswer(c: A.Channel) {
    forall k :: 0 <= k < |c.decisions| ==> Answers(c, c.decisions[k])
  }

  lemma StepExtends(c: A.Channel, e: A.Event)
    ensures Extends(c, A.Step(c, e)) && c.decisions <= A.Step(c, e).decisions
    ensures A.Step(c, e).decisions == c.decisions || (A.Enabled(c, e) && e.Resumes?)
  {
    hide A.ParseBlockAction, A.Consume, A.AfterConsume;
  }

  lemma StepAnswers(c: A.Channel, e: A.Event)
    requires AllAnswer(c)
    ensures AllAnswer(A.Step(c, e))
  {
    hide A.Step;
    StepExtends(c, e);
    var d := A.Step(c, e);
    forall k | 0 <= k < |d.decisions| ensures Answers(d, d.decisions[k]) {
      if k < |c.decisions| {
        assert Answers(c, c.decisions[k]);
      } else {
        NewAnswers(c, e);
      }
    }
  }

  lemma NewAnswers(c: A.Channel, e: A.Event)
    requires e.Resumes? && A.Enabled(c, e)
    ensures var d := A.Step(c, e); d.decisions == c.decisions + [A.Decide(c, e.ask, e.now)]
    ensures Answers(A.Step(c, e), A.Decide(c, e.ask, e.now))
  {
    hide A.Consume, A.AfterConsume;
  }

  // ----- The invariant -----

  ghost predicate AskOf(w: World, n: nat)
    requires n in w.asks
  {
    && n < |w.loop.tasks|
    && (w.asks[n].Some? ==>
          w.asks[n].value < |w.channel.asks| &&
          w.channel.asks[w.asks[n].value].messageId == w.loop.tasks[n].req.id)
  }

  /** Decision k approves call n in the name of whoever clicked. */
  ghost predicate Grants(w: World, n: nat, k: nat) {
    && HasAsk(w, n) && n < |w.loop.tasks| && k < |w.channel.decisions|
    && w.channel.decisions[k].ask == w.asks[n].value && w.channel.decisions[k].approved
    && w.loop.tasks[n].answer == Some(G.Decision(true, DecidedBy(w.channel, w.asks[n].value)))
  }

  predicate Approved(w: World, n: nat)
    requires n < |w.loop.tasks|
  {
    w.loop.tasks[n].answer.Some? && G.Approves(w.loop.tasks[n].answer.value)
  }

  ghost predicate Linked(w: World) {
    && AllAnswer(w.channel)
    && (forall n :: n in w.asks ==> AskOf(w, n))
    && (forall m, n :: HasAsk(w, m) && HasAsk(w, n) && m != n ==> w.asks[m].value != w.asks[n].value)
    && (forall n :: 0 <= n < |w.loop.tasks| && Approved(w, n) ==> exists k: nat :: Grants(w, n, k))
  }

  /** A step of the loop keeps the requests, and answers a call only by Answered. */
  lemma LoopKeeps(cfg: G.Setting, s: G.Loop, h: G.Happening)
    ensures var t := G.Step(cfg, s, h);
            && |s.tasks| <= |t.tasks|
            && (forall n :: 0 <= n < |s.tasks| ==> t.tasks[n].req == s.tasks[n].req)
            && (forall n :: 0 <= n < |s.tasks| && !(h.Answered? && h.task == n) ==>
                  t.tasks[n].answer == s.tasks[n].answer)
            && (forall n :: |s.tasks| <= n < |t.tasks| ==> t.tasks[n].answer == None)
            && (h.Answered? && G.At(s, h.task, G.Deciding) ==> t.tasks[h.task].answer == Some(h.answer))
  {
    hide G.Opening, G.Resume, G.Report;
  }

  lemma ExtendsSame(c: A.Channel)
    ensures Extends(c, c)
  {
  }

  lemma ChannelKeeps(cfg: G.Setting, w: World, m: Move)
    requires AllAnswer(w.channel)
    ensures var d := Step(cfg, w, m).channel;
            Extends(w.channel, d) && w.channel.decisions <= d.decisions && AllAnswer(d)
  {
    hide A.Step, G.Step, Extends, AllAnswer, Prompts;
    ExtendsSame(w.channel);
    if Enabled(w, m) && ChannelPart(cfg, w, m).Some? {
      StepExtends(w.channel, ChannelPart(cfg, w, m).value);
      StepAnswers(w.channel, ChannelPart(cfg, w, m).value);
    }
  }

  /** The calls after a move: the loop's own, with the same requests, and answers only from Decides
      and Fails. */
  lemma TasksKeep(cfg: G.Setting, w: World, m: Move)
    ensures var s, t := w.loop, Step(cfg, w, m).loop;
            && |s.tasks| <= |t.tasks|
            && (forall n :: 0 <= n < |s.tasks| ==> t.tasks[n].req == s.tasks[n].req)
            && (forall n :: 0 <= n < |s.tasks| && t.tasks[n].answer != s.tasks[n].answer ==>
                  (m.Decides? || m.Fails?) && m.task == n && Enabled(w, m) &&
                  t.tasks[n].answer == Some(LoopPart(w, m).value.answer))
            && (forall n :: |s.tasks| <= n < |t.tasks| ==> t.tasks[n].answer == None)
  {
    hide A.Step, G.Step, Prompts;
    if Enabled(w, m) && LoopPart(w, m).Some? {
      LoopKeeps(cfg, w.loop, LoopPart(w, m).value);
    }
  }

  /** A new awaitDecision gets the next number, for the message of its call. */
  lemma AsksKeep(cfg: G.Setting, w: World, m: Move)
    ensures var next := Step(cfg, w, m);
            && (forall n :: n in w.asks ==> n in next.asks && next.asks[n] == w.asks[n])
            && (forall n :: n in next.asks && n !in w.asks ==>
                  n < |w.loop.tasks| && m == Asks(n) && Enabled(w, m) &&
                  (next.asks[n].Some? ==>
                     && next.asks[n].value == |w.channel.asks| < |next.channel.asks|
                     && next.channel.asks[|w.channel.asks|].messageId == w.loop.tasks[n].req.id))
  {
    hide G.Step, Prompts;
  }

  lemma GrantKept(cfg: G.Setting, w: World, m: Move, n: nat, k: nat)
    requires Linked(w) && Grants(w, n, k) && Approved(w, n)
    requires Step(cfg, w, m).loop.tasks[n].answer == w.loop.tasks[n].answer
    ensures Grants(Step(cfg, w, m), n, k)
  {
    hide Step, AllAnswer;
    ChannelKeeps(cfg, w, m);
    TasksKeep(cfg, w, m);
    AsksKeep(cfg, w, m);
    DecisionAnswers(w.channel, k);
  }

  lemma DecisionAnswers(c: A.Channel, k: nat)
    requires AllAnswer(c) && k < |c.decisions|
    ensures Answers(c, c.decisions[k])
  {
  }

  /** A new approval comes from a decision. */
  lemma NewGrant(cfg: G.Setting, w: World, m: Move, n: nat)
    requires AllAnswer(w.channel) && n < |w.loop.tasks| && Approved(Step(cfg, w, m), n)
    requires Step(cfg, w, m).loop.tasks[n].answer != w.loop.tasks[n].answer
    ensures m.Decides? && Grants(Step(cfg, w, m), n, m.decision)
  {
    hide Step, AllAnswer;
    TasksKeep(cfg, w, m);
    ChannelKeeps(cfg, w, m);
    AsksKeep(cfg, w, m);
    if m.Decides? { DecisionAnswers(w.channel, m.decision); }
  }

  lemma StepLinked(cfg: G.Setting, w: World, m: Move)
    requires Linked(w)
    ensures Linked(Step(cfg, w, m))
  {
    hide Step, AllAnswer, Grants;
    ChannelKeeps(cfg, w, m);
    TasksKeep(cfg, w, m);
    AsksKeep(cfg, w, m);
    var next := Step(cfg, w, m);
    forall n | 0 <= n < |next.loop.tasks| && Approved(next, n) ensures exists k: nat :: Grants(next, n, k) {
      if next.loop.tasks[n].answer != w.loop.tasks[n].answer {
        NewGrant(cfg, w, m, n);
      } else {
        assert Approved(w, n);
        var k: nat :| Grants(w, n, k);
        GrantKept(cfg, w, m, n, k);
      }
    }
  }

  lemma {:induction false} RunLinked(cfg: G.Setting, ttl: int, ms: seq<Move>)
    ensures Linked(After(cfg, ttl, ms))
  {
    hide Step, Linked;
    if |ms| > 0 {
      RunLinked(cfg, ttl, ms[..|ms| - 1]);
      StepLinked(cfg, After(cfg, ttl, ms[..|ms| - 1]), ms[|ms| - 1]);
    } else {
      StartLinked(ttl);
    }
  }

  lemma StartLinked(ttl: int)
    ensures Linked(World(G.IDLE, A.Fresh(ttl), map[], map[]))
  {
  }

  // ----- The click behind an approval -----

  /** The note at a position of the trace says that a human approved. */
  predicate IsGrant(trace: seq<G.Act>, p: nat) {
    p < |trace| && trace[p].Noted? && trace[p].note.Settled? && G.Approves(trace[p].note.answer)
  }

  /** Decision k is behind the approval at position p: it is for the call's message; its nonce was
      minted for this message and used in time; and the human whom the note names clicked Approve on
      this nonce. */
  ghost predicate Behind(w: World, p: nat, k: nat) {
    && IsGrant(w.loop.trace, p) && k < |w.channel.decisions|
    && var note, d, c := w.loop.trace[p].note, w.channel.decisions[k], w.channel;
    && d.approved && d.messageId == note.id
    && HasAsk(w, w.loop.trace[p].task) && d.ask == w.asks[w.loop.trace[p].task].value
    && (exists m :: m in c.mints && m.nonce == d.nonce && m.messageId == note.id && d.at <= m.at + c.ttl)
    && A.Interaction(d.nonce, true, note.answer.decidedBy, false) in c.clicks
  }

  lemma GrantInWord(cfg: G.Setting, n: nat, t: G.Task, k: nat)
    requires k < |G.Word(cfg, n, t)| && G.Word(cfg, n, t)[k].Noted? && G.Word(cfg, n, t)[k].note.Settled?
    ensures k == 1 && t.answer.Some? && G.Word(cfg, n, t)[k].note == G.Settled(t.req.id, t.answer.value)
  {
    hide G.Judge, G.Argv, G.ResultMessage, G.EffectiveVerdict;
  }

  /** Every approval.granted event has such a decision. */
  lemma GrantHasClick(cfg: G.Setting, ttl: int, ms: seq<Move>, p: nat)
    requires Distinct(A.Nonces(After(cfg, ttl, ms).channel.mints))
    requires IsGrant(After(cfg, ttl, ms).loop.trace, p)
    ensures exists k: nat :: Behind(After(cfg, ttl, ms), p, k)
  {
    hide After, G.After, A.After, G.Word, A.Consistent;
    var w := After(cfg, ttl, ms);
    var hs, es := Happenings(cfg, ttl, ms), ChannelEvents(cfg, ttl, ms);
    Projects(cfg, ttl, ms);
    RunLinked(cfg, ttl, ms);
    var j := InWord(cfg, hs, p);
    var n := w.loop.trace[p].task;
    GrantInWord(cfg, n, w.loop.tasks[n], j);
    assert Approved(w, n);
    var k: nat :| Grants(w, n, k);
    assert Answers(w.channel, w.channel.decisions[k]);
    A.ApprovalsAreOneTime(ttl, es, k);
    A.RunConsistent(ttl, es);
    ClickIsIn(w.channel, w.asks[n].value);
    assert Behind(w, p, k);
  }

  lemma ClickIsIn(c: A.Channel, i: nat)
    requires A.Consistent(c) && IsClicked(c, i)
    ensures ClickOf(c, i) in c.clicks
  {
    hide A.Sound;
    assert A.FromClick(c, i);
  }

  /** Two approvals never share a call. */
  lemma GrantsOfCalls(cfg: G.Setting, hs: seq<G.Happening>, p: nat, q: nat)
    requires p < q && IsGrant(G.After(cfg, hs).trace, p) && IsGrant(G.After(cfg, hs).trace, q)
    ensures G.After(cfg, hs).trace[p].task != G.After(cfg, hs).trace[q].task
  {
    hide G.After, G.Word;
    var s := G.After(cfg, hs);
    var i := InWord(cfg, hs, p);
    var j := InWord(cfg, hs, q);
    var n := s.trace[q].task;
    GrantInWord(cfg, s.trace[p].task, s.tasks[s.trace[p].task], i);
    GrantInWord(cfg, n, s.tasks[n], j);
    if s.trace[p].task == n { MoreActs(s.trace, p, q); }
  }

  lemma MoreActs(trace: seq<G.Act>, p: nat, q: nat)
    requires p < q <= |trace|
    ensures |G.By(trace[..p], trace[p].task)| < |G.By(trace[..q], trace[p].task)|
  {
    assert trace[..q][..p] == trace[..p] && trace[..q][p] == trace[p];
    ByAt(trace[..q], p);
  }

  /** No click stands behind two approvals: each has a nonce of its own. */
  lemma GrantsHaveOwnNonces(cfg: G.Setting, ttl: int, ms: seq<Move>, p: nat, k: nat, q: nat, l: nat)
    requires Distinct(A.Nonces(After(cfg, ttl, ms).channel.mints))
    requires p != q && Behind(After(cfg, ttl, ms), p, k) && Behind(After(cfg, ttl, ms), q, l)
    ensures var ds := After(cfg, ttl, ms).channel.decisions; ds[k].nonce != ds[l].nonce
  {
    hide After, G.After, A.After, A.Consistent;
    var w := After(cfg, ttl, ms);
    var hs, es := Happenings(cfg, ttl, ms), ChannelEvents(cfg, ttl, ms);
    Projects(cfg, ttl, ms);
    RunLinked(cfg, ttl, ms);
    if p < q { GrantsOfCalls(cfg, hs, p, q); } else { GrantsOfCalls(cfg, hs, q, p); }
    A.ApprovalsAreOneTime(ttl, es, k);
    A.RunConsistent(ttl, es);
    ApprovedIsUsed(w.channel, l);
  }

  lemma ApprovedIsUsed(c: A.Channel, k: nat)
    requires A.Consistent(c) && k < |c.decisions| && c.decisions[k].approved
    ensures c.decisions[k].used
  {
    hide A.Sound;
    assert A.Justified(c, c.decisions[k]);
  }

  // ----- Nothing goes ahead without its click -----

  /** The call goes ahead: its hook may proceed, or it is executed and its result comes back. */
  predicate Proceeds(a: G.Act) {
    match a
    case Started(_, _, _) => true
    case Noted(_, note) => note.Executed? || (note.Gated? && note.allow)
    case Delivered(_, message) =>
      message.ToolCallResult? || (message.VerdictMessage? && message.verdict.decision == Allow)
  }

  lemma ProceedsInWord(cfg: G.Setting, n: nat, t: G.Task, k: nat)
    requires k < |G.Word(cfg, n, t)| && Proceeds(G.Word(cfg, n, t)[k])
    requires G.Judge(cfg, t.req).Ok? && G.Judge(cfg, t.req).value.decision == Require
    ensures k >= 2 && t.answer.Some? && G.Approves(t.answer.value)
    ensures G.Word(cfg, n, t)[1] == G.Noted(n, G.Settled(t.req.id, t.answer.value))
  {
    hide G.Judge, G.Argv;
  }

  /** A call that requires a human goes ahead, in whatever way, only after an approval of its own
      with a click behind it. */
  lemma ProceedsAfterClick(cfg: G.Setting, ttl: int, ms: seq<Move>, p: nat)
    requires Distinct(A.Nonces(After(cfg, ttl, ms).channel.mints))
    requires p < |After(cfg, ttl, ms).loop.trace| && Proceeds(After(cfg, ttl, ms).loop.trace[p])
    ensures var w := After(cfg, ttl, ms);
            var n := w.loop.trace[p].task;
            && n < |w.loop.tasks| && G.Judge(cfg, w.loop.tasks[n].req).Ok?
            && (G.Judge(cfg, w.loop.tasks[n].req).value.decision == Require ==>
                  exists q: nat, k: nat :: q < p && w.loop.trace[q].task == n && Behind(w, q, k))
  {
    hide After, G.After, A.After, G.Word, G.Judge, Proceeds, Behind;
    var w := After(cfg, ttl, ms);
    var hs := Happenings(cfg, ttl, ms);
    Projects(cfg, ttl, ms);
    var trace := w.loop.trace;
    var j := InWord(cfg, hs, p);
    var n := trace[p].task;
    var t := w.loop.tasks[n];
    WordJudged(cfg, n, t);
    if G.Judge(cfg, t.req).value.decision == Require {
      ProceedsInWord(cfg, n, t, j);
      var grant := G.By(trace[..p], n)[1];
      ByIn(trace[..p], n, grant);
      var q: nat :| q < p && trace[..p][q] == grant;
      assert IsGrant(trace, q);
      GrantHasClick(cfg, ttl, ms, q);
      var k: nat :| Behind(w, q, k);
      assert q < p && trace[q].task == n && Behind(w, q, k);
    }
  }

  lemma WordJudged(cfg: G.Setting, n: nat, t: G.Task)
    requires |G.Word(cfg, n, t)| > 0
    ensures G.Judge(cfg, t.req).Ok?
  {
  }

  // ----- A click grants -----

  lemma AfterOne(cfg: G.Setting, ttl: int, ms: seq<Move>, m: Move)
    ensures After(cfg, ttl, ms + [m]) == Step(cfg, After(cfg, ttl, ms), m)
  {
    assert (ms + [m])[..|ms|] == ms;
  }

  lemma RunTo(cfg: G.Setting, ttl: int, ms: seq<Move>, k: nat)
    requires k < |ms|
    ensures After(cfg, ttl, ms[..k + 1]) == Step(cfg, After(cfg, ttl, ms[..k]), ms[k])
  {
    assert ms[..k + 1] == ms[..k] + [ms[k]];
    AfterOne(cfg, ttl, ms[..k], ms[k]);
  }

  /** One call whose prompt is posted at one time and clicked by another. */
  function ClickRun(mode: G.Mode, req: G.Request, click: A.Interaction, at: int, later: int): seq<Move> {
    [Open(mode, req, 1, Some(Prompt(click.nonce, at))), Arrives(0, true), Asks(0),
     Outside(A.Received(A.ClickPayload(click))), Resumes(0, later), Decides(0, 0, 2)]
  }

  /** One call in the loop that requires a human, with one prompt. */
  function OneCall(cfg: G.Setting, ttl: int, mode: G.Mode, req: G.Request, stage: G.Stage, nonce: Text, at: int,
                   arrived: bool): World
    requires G.Judge(cfg, req).Ok?
  {
    World(G.Loop([G.Task(mode, req, stage, None, None)],
                 [G.Noted(0, G.JudgedNote(req, G.Judge(cfg, req).value))]),
          A.Fresh(ttl).(entries := map[nonce := A.Entry(req.id, req.sessionId, at + ttl, false)],
                        shown := if arrived then map[req.id := nonce] else map[],
                        mints := [A.Mint(nonce, req.id, at)], posts := [A.Post(req.id, nonce, arrived)]),
          map[0 := 0], map[])
  }

  lemma Opens(cfg: G.Setting, ttl: int, mode: G.Mode, req: G.Request, nonce: Text, at: int)
    requires G.Judge(cfg, req).Ok? && G.Judge(cfg, req).value.decision == Require
    ensures After(cfg, ttl, [Open(mode, req, 1, Some(Prompt(nonce, at)))]) ==
            OneCall(cfg, ttl, mode, req, G.Posting, nonce, at, false)
  {
    hide G.Judge;
    AfterOne(cfg, ttl, [], Open(mode, req, 1, Some(Prompt(nonce, at))));
  }

  lemma PromptArrives(cfg: G.Setting, ttl: int, mode: G.Mode, req: G.Request, nonce: Text, at: int)
    requires G.Judge(cfg, req).Ok?
    ensures Step(cfg, OneCall(cfg, ttl, mode, req, G.Posting, nonce, at, false), Arrives(0, true)) ==
            OneCall(cfg, ttl, mode, req, G.Deciding, nonce, at, true)
  {
    hide G.Judge;
  }

  /** The call awaits the nonce of its prompt, and then this click comes, if any. */
  function Asking(w: World, nonce: Text, click: Option<A.Interaction>): World
    requires |w.loop.tasks| == 1
  {
    var calls := if click.Some? then [A.Clicked(click.value)] else [];
    w.(channel := w.channel.(
         source := A.Source([A.Waiter(nonce, click.None?, calls)], if click.Some? then map[] else map[nonce := 0],
                            if click.Some? then {nonce} else {}, [], false),
         asks := [A.Ask(w.loop.tasks[0].req.id, false)],
         clicks := Optional(click)),
       asks := map[0 := Some(0)])
  }

  lemma AsksNonce(cfg: G.Setting, ttl: int, mode: G.Mode, req: G.Request, nonce: Text, at: int)
    requires G.Judge(cfg, req).Ok?
    ensures var w := OneCall(cfg, ttl, mode, req, G.Deciding, nonce, at, true);
            Step(cfg, w, Asks(0)) == Asking(w, nonce, None)
  {
    hide G.Judge;
  }

  lemma ClickComes(cfg: G.Setting, ttl: int, mode: G.Mode, req: G.Request, click: A.Interaction, at: int)
    requires G.Judge(cfg, req).Ok? && |click.nonce| > 0 && |click.userId| > 0
    ensures var w := OneCall(cfg, ttl, mode, req, G.Deciding, click.nonce, at, true);
            Step(cfg, Asking(w, click.nonce, None), Outside(A.Received(A.ClickPayload(click)))) ==
            Asking(w, click.nonce, Some(click))
  {
    hide G.Judge, A.ParseBlockAction, A.ClickPayload;
    A.ClickParsesBack(click);
    var waiting, done := A.Waiter(click.nonce, true, []), A.Waiter(click.nonce, false, [A.Clicked(click)]);
    assert A.Call(waiting, A.Clicked(click)) == done;
  }

  /** Whether a click approves the call that it is for. */
  predicate Counts(click: A.Interaction, at: int, ttl: int, later: int) {
    click.approved && !click.isBot && later <= at + ttl
  }

  /** The click reaches awaitDecision. */
  lemma ClickResumes(cfg: G.Setting, ttl: int, mode: G.Mode, req: G.Request, click: A.Interaction, at: int, later: int)
    requires G.Judge(cfg, req).Ok?
    ensures var w := Asking(OneCall(cfg, ttl, mode, req, G.Deciding, click.nonce, at, true), click.nonce, Some(click));
            var next := Step(cfg, w, Resumes(0, later));
            && next.loop == w.loop && next.asks == w.asks && next.channel.source == w.channel.source
            && |next.channel.decisions| == 1 && next.channel.decisions[0].ask == 0
            && next.channel.decisions[0].approved == Counts(click, at, ttl, later)
  {
    hide G.Judge;
  }

  /** A click on a posted prompt decides its call: the answer in the journal names the user, and says
      approved exactly if it is an Approve click of a human no later than the nonce allows; and the
      call then goes on as with this answer. */
  lemma ClickDecides(cfg: G.Setting, ttl: int, mode: G.Mode, req: G.Request, click: A.Interaction, at: int, later: int)
    requires G.Judge(cfg, req).Ok? && G.Judge(cfg, req).value.decision == Require
    requires |click.nonce| > 0 && |click.userId| > 0
    ensures var v := G.Judge(cfg, req).value;
            var granted := Counts(click, at, ttl, later);
            After(cfg, ttl, ClickRun(mode, req, click, at, later)).loop.trace ==
            [G.Noted(0, G.JudgedNote(req, v)), G.Noted(0, G.Settled(req.id, G.Decision(granted, click.userId)))] +
            G.Conclude(cfg, 0, mode, req, v, granted, 1).acts
  {
    hide After, Step, ClickRun, G.Judge, G.Conclude, Counts, A.ClickPayload, A.Fresh;
    var ms := ClickRun(mode, req, click, at, later);
    ClickRunParts(mode, req, click, at, later);
    Opens(cfg, ttl, mode, req, click.nonce, at);
    PromptArrives(cfg, ttl, mode, req, click.nonce, at);
    AsksNonce(cfg, ttl, mode, req, click.nonce, at);
    ClickComes(cfg, ttl, mode, req, click, at);
    ClickResumes(cfg, ttl, mode, req, click, at, later);
    RunTo(cfg, ttl, ms, 1);
    RunTo(cfg, ttl, ms, 2);
    RunTo(cfg, ttl, ms, 3);
    RunTo(cfg, ttl, ms, 4);
    RunTo(cfg, ttl, ms, 5);
    assert ms[..6] == ms;
    Decided(cfg, After(cfg, ttl, ms[..5]), mode, req, click, Counts(click, at, ttl, later));
  }

  lemma ClickRunParts(mode: G.Mode, req: G.Request, click: A.Interaction, at: int, later: int)
    ensures var ms := ClickRun(mode, req, click, at, later);
            && |ms| == 6 && ms[..1] == [Open(mode, req, 1, Some(Prompt(click.nonce, at)))]
            && ms[1] == Arrives(0, true) && ms[2] == Asks(0) && ms[3] == Outside(A.Received(A.ClickPayload(click)))
            && ms[4] == Resumes(0, later) && ms[5] == Decides(0, 0, 2)
  {
  }

  lemma Decided(cfg: G.Setting, w: World, mode: G.Mode, req: G.Request, click: A.Interaction, granted: bool)
    requires G.Judge(cfg, req).Ok?
    requires w.loop.tasks == [G.Task(mode, req, G.Deciding, None, None)]
    requires w.asks == map[0 := Some(0)] && |w.channel.decisions| == 1
    requires w.channel.decisions[0].ask == 0 && w.channel.decisions[0].approved == granted
    requires IsClicked(w.channel, 0) && ClickOf(w.channel, 0) == click
    ensures Step(cfg, w, Decides(0, 0, 2)).loop.trace ==
            w.loop.trace + [G.Noted(0, G.Settled(req.id, G.Decision(granted, click.userId)))] +
            G.Conclude(cfg, 0, mode, req, G.Judge(cfg, req).value, granted, 1).acts
  {
    hide G.Judge, G.Conclude;
  }

  // ----- Approvals in an accepted journal -----

  /** A daemon process and its Slack channel. */
  datatype SlackRun = SlackRun(cfg: G.Setting, ttl: int, ms: seq<Move>)

  function WorldOf(run: SlackRun): World { After(run.cfg, run.ttl, run.ms) }

  function LoopRuns(runs: seq<SlackRun>): (r: seq<LoopRun>)
    ensures |r| == |runs|
    ensures forall i :: 0 <= i < |r| ==> r[i] == LoopRun(runs[i].cfg, Happenings(runs[i].cfg, runs[i].ttl, runs[i].ms))
  {
    seq(|runs|, i requires 0 <= i < |runs| =>
      LoopRun(runs[i].cfg, Happenings(runs[i].cfg, runs[i].ttl, runs[i].ms)))
  }

  ghost predicate FreshNonces(runs: seq<SlackRun>) {
    forall r :: 0 <= r < |runs| ==> Distinct(A.Nonces(WorldOf(runs[r]).channel.mints))
  }

  /** Where a note comes from: it is the act at position p of run r, after so many earlier notes. */
  lemma {:induction false} Origin(runs: seq<LoopRun>, m: nat) returns (r: nat, p: nat)
    requires m < |NotesOf(runs)|
    ensures r < |runs| && p < |TraceOf(runs[r])| && TraceOf(runs[r])[p].Noted?
    ensures TraceOf(runs[r])[p].note == NotesOf(runs)[m]
    ensures |NotesOf(runs[..r])| + |JournalOf(TraceOf(runs[r])[..p])| == m
  {
    hide JournalOf, TraceOf;
    var k := |runs| - 1;
    var front := NotesOf(runs[..k]);
    if m < |front| {
      r, p := Origin(runs[..k], m);
      assert runs[..k][..r] == runs[..r];
    } else {
      r := k;
      p := NoteAt(TraceOf(runs[k]), m - |front|);
    }
  }

  lemma GrantKind(n: G.Note)
    requires G.KindOf(n) == Ascii("approval.granted")
    ensures n.Settled? && G.Approves(n.answer)
  {
    assert |Ascii("tool_call.")| == 10 && |Ascii("allow")| == 5 && |Ascii("deny")| == 4 && |Ascii("require")| == 7;
    assert |Ascii("approval.granted")| == 16 && |Ascii("approval.denied")| == 15;
    assert |Ascii("gate.allow")| == 10 && |Ascii("gate.deny")| == 9 && |Ascii("tool_call.executed")| == 18;
  }

  /** The event comes from the approval at position p of run r, and decision k is behind it; rank is
      the number of loop events before it. */
  ghost predicate ClickedFor(runs: seq<SlackRun>, e: Event, rank: nat, r: nat, p: nat, k: nat) {
    && r < |runs| && Behind(WorldOf(runs[r]), p, k)
    && Attests(e, WorldOf(runs[r]).loop.trace[p].note)
    && |NotesOf(LoopRuns(runs)[..r])| + |JournalOf(WorldOf(runs[r]).loop.trace[..p])| == rank
  }

  ghost predicate HasClick(runs: seq<SlackRun>, es: seq<Event>, j: nat)
    requires j < |es|
  {
    exists r: nat, p: nat, k: nat :: ClickedFor(runs, es[j], |LoopEvents(es[..j])|, r, p, k)
  }

  predicate IsGrantEvent(es: seq<Event>, j: nat) { j < |es| && es[j].kind == Ascii("approval.granted") }

  /** Whoever presents files that verify: each approval.granted event in them comes from a human's
      Approve click, in time, on a nonce minted for the message that it names, by the user that it
      names. */
  lemma AcceptedGrants(c: Primitives, runs: seq<SlackRun>, attempts: seq<Attempt>, journal: Option<Text>,
                       headFile: Option<Text>, j: nat)
    requires Accepted(c, LoopRuns(runs), attempts, journal, headFile) && FreshNonces(runs)
    requires IsGrantEvent(EventsIn(c, journal), j)
    ensures HasClick(runs, EventsIn(c, journal), j)
  {
    hide Accepted, EventsIn, NotesOf, LoopEvents, Attests, G.KindOf, IsLoopKind, Ascii, G.After, After, Behind,
      JournalOf;
    AcceptedJournalTells(c, LoopRuns(runs), attempts, journal, headFile);
    var es := EventsIn(c, journal);
    var rank := |LoopEvents(es[..j])|;
    GrantIsLoop();
    LoopAt(es, j);
    assert LoopEvents(es)[rank] == es[j];
    var note := NotesOf(LoopRuns(runs))[rank];
    AttestsKind(es[j], note);
    GrantKind(note);
    var r, p := Origin(LoopRuns(runs), rank);
    var run := runs[r];
    Projects(run.cfg, run.ttl, run.ms);
    GrantHasClick(run.cfg, run.ttl, run.ms, p);
    var k: nat :| Behind(WorldOf(run), p, k);
    assert ClickedFor(runs, es[j], rank, r, p, k);
  }

  /** And no click stands behind two of them: two approval.granted events come from different
      processes or used different nonces. */
  lemma GrantEventsDiffer(runs: seq<SlackRun>, es: seq<Event>, i: nat, j: nat, r: nat, p: nat, k: nat,
                          s: nat, q: nat, l: nat)
    requires FreshNonces(runs) && i < j && IsGrantEvent(es, i) && IsGrantEvent(es, j)
    requires ClickedFor(runs, es[i], |LoopEvents(es[..i])|, r, p, k)
    requires ClickedFor(runs, es[j], |LoopEvents(es[..j])|, s, q, l)
    ensures r != s || WorldOf(runs[r]).channel.decisions[k].nonce != WorldOf(runs[s]).channel.decisions[l].nonce
  {
    hide NotesOf, LoopEvents, Attests, IsLoopKind, Ascii, After, Behind, JournalOf;
    GrantIsLoop();
    assert es[..j][..i] == es[..i] && es[..j][i] == es[i];
    LoopAt(es[..j], i);
    if r == s { GrantsHaveOwnNonces(runs[r].cfg, runs[r].ttl, runs[r].ms, p, k, q, l); }
  }

  lemma GrantIsLoop()
    ensures IsLoopKind(Ascii("approval.granted"))
  {
    assert Ascii("approval.granted") == LOOP_KINDS[4];
  }

  lemma AttestsKind(e: Event, n: G.Note)
    requires Attests(e, n)
    ensures e.kind == G.KindOf(n)
  {
  }
}
