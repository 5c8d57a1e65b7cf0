/** What an offline verifier learns about the governance loop from an accepted journal. */
module Audit {
  import opened Utf16
  import opened Wrappers
  import opened Records
  import opened JsonText
  import opened Canonical
  import opened Redaction
  import opened Events
  import opened Verify
  import opened Log = Journal
  import G = Governance
  import opened GovernanceSafety

  type Note = G.Note

  // ----- Notes as journal events -----

  function ActorOf(n: Note): Actor {
    match n
    case Judged(actor, _, _, _) => actor
    case Settled(_, _) => SessionOwner
    case Gated(actor, _, _, _) => actor
    case Executed(actor, _, _, _) => actor
  }

  function Names(names: seq<Text>): (r: seq<Json>)
    ensures |r| == |names| && forall i :: 0 <= i < |r| ==> r[i] == Str(names[i])
  {
    seq(|names|, i requires 0 <= i < |names| => Str(names[i]))
  }

  function PayloadOf(n: Note): Props<Json> {
    [(Ascii("messageId"), Str(n.id))] +
    match n
    case Judged(_, _, tool, v) =>
      [(Ascii("tool"), Str(tool)), (Ascii("ruleId"), Nullable(v.ruleId)), (Ascii("reason"), Str(v.reason))]
    case Settled(_, Decision(_, decidedBy)) => [(Ascii("decidedBy"), Str(decidedBy))]
    case Settled(_, NoDecision(message)) =>
      [(Ascii("decidedBy"), Null), (Ascii("reason"), Str(Ascii("no decision: ") + message))]
    case Gated(_, _, tool, _) => [(Ascii("tool"), Str(tool))]
    case Executed(_, _, exitCode, secretsUsed) =>
      [(Ascii("exitCode"), Num(exitCode))] +
      if |secretsUsed| > 0 then [(Ascii("secretsUsed"), Arr(Names(secretsUsed)))] else []
  }

  function InputOf(n: Note): Input { Input(G.KindOf(n), ActorOf(n), PayloadOf(n), None, None, None, None) }

  /** All columns are null. */
  ghost predicate Bare(e: Event) {
    && e.tenantId == None && e.signingKeyId == None && e.approvalBindingType == None
    && e.intendantIdentityUri == None && e.onBehalfOf == None && e.correlationId == None && e.gsbReceiptTipHash == None
  }

  ghost predicate Describes(e: Event, n: Note) {
    e.kind == G.KindOf(n) && e.actor == ActorOf(n) && e.payload == PayloadOf(n) && Bare(e)
  }

  /** The same, as far as a hash can tell: no hash covers a __proto__ key. */
  ghost predicate Attests(e: Event, n: Note) {
    && e.kind == G.KindOf(n) && e.actor == ActorOf(n) && Bare(e)
    && Agree(Obj(e.payload), Obj(PayloadOf(n)), {PROTO})
  }

  /** An event tells whose call it is about. */
  lemma MessageIdReads(e: Event, n: Note)
    requires Attests(e, n)
    ensures Get(e.payload, Ascii("messageId")) == Some(Str(n.id))
  {
    var key := Ascii("messageId");
    assert PayloadOf(n)[0] == (key, Str(n.id));
    assert key[0] != PROTO[0];
    GetSome(e.payload, key);
    var i :| 0 <= i < |e.payload| && e.payload[i] == (key, Get(e.payload, key).value);
    assert Agree(e.payload[i].1, Get(PayloadOf(n), e.payload[i].0).value, {PROTO});
  }

  /** What a payload says, property by property. */
  ghost predicate Tells(ps: Props<Json>, n: Note) {
    && Get(ps, Ascii("messageId")) == Some(Str(n.id))
    && match n
       case Judged(_, _, tool, v) =>
         && Get(ps, Ascii("tool")) == Some(Str(tool)) && Get(ps, Ascii("reason")) == Some(Str(v.reason))
         && Get(ps, Ascii("ruleId")) == Some(if v.ruleId == None then Null else Str(v.ruleId.value))
       case Settled(_, answer) =>
         (match answer
          case Decision(_, decidedBy) =>
            Get(ps, Ascii("decidedBy")) == Some(Str(decidedBy)) && Get(ps, Ascii("reason")) == None
          case NoDecision(message) =>
            && Get(ps, Ascii("decidedBy")) == Some(Null)
            && Get(ps, Ascii("reason")) == Some(Str(Ascii("no decision: ") + message)))
       case Gated(_, _, tool, _) => Get(ps, Ascii("tool")) == Some(Str(tool))
       case Executed(_, _, exitCode, secretsUsed) =>
         && Get(ps, Ascii("exitCode")) == Some(Num(exitCode))
         && TellsNames(Get(ps, Ascii("secretsUsed")), secretsUsed)
  }

  /** The names in an array, in order; no array if there are none. */
  ghost predicate TellsNames(v: Option<Json>, names: seq<Text>) {
    if names == [] then v == None
    else
      && v.Some? && v.value.Arr? && |v.value.items| == |names|
      && forall i :: 0 <= i < |names| ==> v.value.items[i] == Str(names[i])
  }

  /** Whose act an event records: the session owner's if it settles an approval, else the caller's. */
  ghost predicate ActsFor(a: Actor, n: Note) {
    match n
    case Judged(actor, _, _, _) => a == actor
    case Settled(_, _) => a == SessionOwner
    case Gated(actor, _, _, _) => a == actor
    case Executed(actor, _, _, _) => a == actor
  }

  ghost predicate TellsAll(e: Event, n: Note) {
    Tells(e.payload, n) && ActsFor(e.actor, n) && Bare(e) && e.kind == G.KindOf(n)
  }

  lemma PayloadDistinct(n: Note)
    ensures Distinct(Keys(PayloadOf(n)))
    ensures forall i :: 0 <= i < |PayloadOf(n)| ==> PayloadOf(n)[i].0 != PROTO
  {
    hide PayloadOf;
    forall i, j | 0 <= i < j < |PayloadOf(n)| ensures Keys(PayloadOf(n))[i] != Keys(PayloadOf(n))[j] {
      PayloadNames(n, i, j);
    }
    PayloadStart(n);
    assert PROTO[0] == 95;
  }

  /** No name in a payload starts like __proto__. */
  lemma PayloadStart(n: Note)
    ensures forall i :: 0 <= i < |PayloadOf(n)| ==> |PayloadOf(n)[i].0| > 0 && PayloadOf(n)[i].0[0] >= 97
  {
  }

  /** A property of the payload of a note is one of every payload that agrees with it. */
  lemma AttestedAt(e: Event, n: Note, i: nat)
    requires Attests(e, n) && i < |PayloadOf(n)|
    ensures Get(e.payload, PayloadOf(n)[i].0).Some?
    ensures Agree(Get(e.payload, PayloadOf(n)[i].0).value, PayloadOf(n)[i].1, {PROTO})
  {
    PayloadDistinct(n);
    hide PayloadOf, PROTO, G.KindOf;
    var key := PayloadOf(n)[i].0;
    GetAt(PayloadOf(n), i);
    GetSome(e.payload, key);
    var k :| 0 <= k < |e.payload| && e.payload[k] == (key, Get(e.payload, key).value);
  }

  lemma NotAttested(e: Event, n: Note, key: Text)
    requires Attests(e, n) && Get(PayloadOf(n), key) == None && key != PROTO
    ensures Get(e.payload, key) == None
  {
    hide PayloadOf, PROTO, G.KindOf;
    GetSome(e.payload, key);
    assert forall k :: 0 <= k < |e.payload| && e.payload[k].0 != PROTO ==> Get(PayloadOf(n), e.payload[k].0).Some?;
  }

  /** A scalar agrees with nothing but itself. */
  lemma ScalarAgrees(a: Json, b: Json)
    requires Agree(a, b, {PROTO}) && !b.Arr? && !b.Obj?
    ensures a == b
  {
  }

  lemma NamesAgree(a: Json, names: seq<Text>)
    requires Agree(a, Arr(Names(names)), {PROTO})
    ensures a.Arr? && |a.items| == |names| && forall i :: 0 <= i < |names| ==> a.items[i] == Str(names[i])
  {
    forall i | 0 <= i < |names| ensures a.items[i] == Str(names[i]) { ScalarAgrees(a.items[i], Names(names)[i]); }
  }

  lemma PayloadValid(n: Note)
    ensures Valid(Obj(PayloadOf(n)))
  {
    hide G.KindOf;
    var ps := PayloadOf(n);
    assert forall i :: 0 <= i < |ps| ==> |ps[i].0| > 0 && !IsDigit(ps[i].0[0]);
    forall i, j | 0 <= i < j < |ps| ensures ps[i].0 != ps[j].0 {
      PayloadNames(n, i, j);
    }
    forall i | 0 <= i < |ps| ensures Valid(ps[i].1) {
    }
  }

  /** The first letter and the length tell the names of a payload apart. */
  lemma PayloadNames(n: Note, i: nat, j: nat)
    requires i < j < |PayloadOf(n)|
    ensures PayloadOf(n)[i].0 != PayloadOf(n)[j].0
  {
    var a, b := PayloadOf(n)[i].0, PayloadOf(n)[j].0;
    assert |a| != |b| || a[0] != b[0] || a[1] != b[1];
  }

  /** An event that stands for a note says in its payload what the note says, and acts for whom the
      note says. */
  lemma AttestsTells(e: Event, n: Note)
    requires Attests(e, n)
    ensures Tells(e.payload, n) && ActsFor(e.actor, n) && Bare(e)
  {
    MessageIdReads(e, n);
    match n
    case Judged(_, _, _, _) => JudgedTells(e, n);
    case Settled(_, _) => SettledTells(e, n);
    case Gated(_, _, _, _) => GatedTells(e, n);
    case Executed(_, _, _, _) => ExecutedTells(e, n);
  }

  lemma JudgedTells(e: Event, n: Note)
    requires Attests(e, n) && n.Judged? && Get(e.payload, Ascii("messageId")) == Some(Str(n.id))
    ensures Tells(e.payload, n)
  {
    hide Ascii, G.KindOf, Agree, PROTO, Get;
    AttestedAt(e, n, 1);
    AttestedAt(e, n, 2);
    AttestedAt(e, n, 3);
    ScalarAgrees(Get(e.payload, Ascii("tool")).value, PayloadOf(n)[1].1);
    ScalarAgrees(Get(e.payload, Ascii("ruleId")).value, PayloadOf(n)[2].1);
    ScalarAgrees(Get(e.payload, Ascii("reason")).value, PayloadOf(n)[3].1);
  }

  lemma GatedTells(e: Event, n: Note)
    requires Attests(e, n) && n.Gated? && Get(e.payload, Ascii("messageId")) == Some(Str(n.id))
    ensures Tells(e.payload, n)
  {
    hide Ascii, G.KindOf, Agree, PROTO, Get;
    AttestedAt(e, n, 1);
    ScalarAgrees(Get(e.payload, Ascii("tool")).value, PayloadOf(n)[1].1);
  }

  lemma SettledTells(e: Event, n: Note)
    requires Attests(e, n) && n.Settled? && Get(e.payload, Ascii("messageId")) == Some(Str(n.id))
    ensures Tells(e.payload, n)
  {
    if n.answer.Decision? { NoReason(n); }
    ReasonName();
    hide Ascii, G.KindOf, Agree, PROTO, Get;
    AttestedAt(e, n, 1);
    ScalarAgrees(Get(e.payload, Ascii("decidedBy")).value, PayloadOf(n)[1].1);
    if n.answer.NoDecision? {
      AttestedAt(e, n, 2);
      ScalarAgrees(Get(e.payload, Ascii("reason")).value, PayloadOf(n)[2].1);
    } else {
      NotAttested(e, n, Ascii("reason"));
    }
  }

  lemma ReasonName()
    ensures Ascii("reason") != PROTO && Ascii("secretsUsed") != PROTO
  {
    assert |PROTO| == 9 && |Ascii("reason")| == 6 && |Ascii("secretsUsed")| == 11;
  }

  lemma NoReason(n: Note)
    requires n.Settled? && n.answer.Decision?
    ensures Get(PayloadOf(n), Ascii("reason")) == None
  {
    assert |Ascii("reason")| == 6 && |Ascii("messageId")| == 9 && |Ascii("decidedBy")| == 9;
    GetSome(PayloadOf(n), Ascii("reason"));
  }

  lemma NoSecrets(n: Note)
    requires n.Executed? && n.secretsUsed == []
    ensures Get(PayloadOf(n), Ascii("secretsUsed")) == None
  {
    assert |Ascii("secretsUsed")| == 11 && |Ascii("messageId")| == 9 && |Ascii("exitCode")| == 8;
    GetSome(PayloadOf(n), Ascii("secretsUsed"));
  }

  lemma ExecutedTells(e: Event, n: Note)
    requires Attests(e, n) && n.Executed? && Get(e.payload, Ascii("messageId")) == Some(Str(n.id))
    ensures Tells(e.payload, n)
  {
    if n.secretsUsed == [] { NoSecrets(n); }
    ReasonName();
    hide Ascii, G.KindOf, Agree, PROTO, Get, Names;
    AttestedAt(e, n, 1);
    ScalarAgrees(Get(e.payload, Ascii("exitCode")).value, PayloadOf(n)[1].1);
    if n.secretsUsed != [] {
      AttestedAt(e, n, 2);
      NamesAgree(Get(e.payload, Ascii("secretsUsed")).value, n.secretsUsed);
    } else {
      NotAttested(e, n, Ascii("secretsUsed"));
    }
  }

  // ----- The loop's events among those of a journal -----

  /** The kinds that gate and mediate write. Drivers, recovery, the identity gate and the command line
      write others into the same journal. */
  const LOOP_KINDS: seq<Text> := [
    Ascii("tool_call.allow"), Ascii("tool_call.deny"), Ascii("tool_call.require"), Ascii("tool_call.executed"),
    Ascii("approval.granted"), Ascii("approval.denied"), Ascii("gate.allow"), Ascii("gate.deny")]

  predicate IsLoopKind(kind: Text) { kind in LOOP_KINDS }

  lemma KindIsLoop(n: Note)
    ensures IsLoopKind(G.KindOf(n))
  {
    assert Ascii("tool_call.") + Ascii("allow") == LOOP_KINDS[0];
    assert Ascii("tool_call.") + Ascii("deny") == LOOP_KINDS[1];
    assert Ascii("tool_call.") + Ascii("require") == LOOP_KINDS[2];
    var i: nat := match n
      case Judged(_, _, _, v) => if v.decision.Allow? then 0 else if v.decision.Deny? then 1 else 2
      case Settled(_, answer) => if G.Approves(answer) then 4 else 5
      case Gated(_, _, _, allow) => if allow then 6 else 7
      case Executed(_, _, _, _) => 3;
    assert G.KindOf(n) == LOOP_KINDS[i];
  }

  /** None of the other kinds that the program writes is one of these. */
  lemma OtherKinds()
    ensures !IsLoopKind(Ascii("session.started")) && !IsLoopKind(Ascii("session.ended"))
    ensures !IsLoopKind(Ascii("session.reaped")) && !IsLoopKind(Ascii("intendant.verify.failed"))
    ensures !IsLoopKind(Ascii("approval.rejected"))
  {
    hide LOOP_KINDS;
    LoopKindTags();
    forall i | 0 <= i < 8
      ensures LOOP_KINDS[i] != Ascii("session.started") && LOOP_KINDS[i] != Ascii("session.ended")
      ensures LOOP_KINDS[i] != Ascii("session.reaped") && LOOP_KINDS[i] != Ascii("intendant.verify.failed")
      ensures LOOP_KINDS[i] != Ascii("approval.rejected")
    {
    }
  }

  /** Length and first unit tell the kinds apart. */
  lemma LoopKindTags()
    ensures |LOOP_KINDS| == 8
    ensures forall i :: 0 <= i < 8 ==> |LOOP_KINDS[i]| == [15, 14, 17, 18, 16, 15, 10, 9][i]
    ensures forall i :: 0 <= i < 8 ==> LOOP_KINDS[i][0] == [116, 116, 116, 116, 97, 97, 103, 103][i]
  {
  }

  predicate IsLoop(e: Event) { IsLoopKind(e.kind) }

  function LoopEvents(es: seq<Event>): seq<Event> {
    if |es| == 0 then []
    else LoopEvents(es[..|es| - 1]) + if IsLoop(es[|es| - 1]) then [es[|es| - 1]] else []
  }

  lemma {:induction false} LoopPrefix(es: seq<Event>, k: nat)
    requires k <= |es|
    ensures LoopEvents(es[..k]) <= LoopEvents(es)
  {
    if k < |es| {
      LoopPrefix(es[..|es| - 1], k);
      assert es[..|es| - 1][..k] == es[..k];
    } else {
      assert es[..k] == es;
    }
  }

  lemma {:induction false} LoopSame(es: seq<Event>, fs: seq<Event>)
    requires |es| == |fs| && forall i :: 0 <= i < |es| ==> SameButSignature(es[i], fs[i])
    ensures |LoopEvents(es)| == |LoopEvents(fs)|
    ensures forall i :: 0 <= i < |LoopEvents(es)| ==> SameButSignature(LoopEvents(es)[i], LoopEvents(fs)[i])
  {
    hide IsLoopKind;
    if |es| > 0 {
      var k := |es| - 1;
      LoopSame(es[..k], fs[..k]);
      SameKind(es[k], fs[k]);
    }
  }

  lemma SameKind(e: Event, f: Event)
    requires SameButSignature(e, f)
    ensures e.kind == f.kind && e.actor == f.actor && Agree(Obj(e.payload), Obj(f.payload), {PROTO})
    ensures Bare(f) ==> Bare(e)
  {
  }

  lemma {:induction false} LoopIn(es: seq<Event>, e: Event)
    requires e in LoopEvents(es)
    ensures IsLoop(e) && e in es
  {
    hide IsLoop;
    if e in LoopEvents(es[..|es| - 1]) { LoopIn(es[..|es| - 1], e); }
  }

  /** A loop event of a list comes right after the earlier ones. */
  lemma LoopAt(es: seq<Event>, j: nat)
    requires j < |es| && IsLoop(es[j])
    ensures LoopEvents(es[..j]) + [es[j]] <= LoopEvents(es)
  {
    hide IsLoop;
    var upTo := es[..j + 1];
    assert upTo[..j] == es[..j] && upTo[j] == es[j];
    assert LoopEvents(upTo) == LoopEvents(es[..j]) + [es[j]];
    LoopPrefix(es, j + 1);
  }

  // ----- Writing the notes of the loop -----

  /** The runs of the loop that have used a journal, one daemon process after the other. */
  datatype LoopRun = LoopRun(cfg: G.Setting, hs: seq<G.Happening>)

  function TraceOf(run: LoopRun): seq<G.Act> { G.After(run.cfg, run.hs).trace }

  function NotesOf(runs: seq<LoopRun>): seq<Note> {
    if |runs| == 0 then [] else NotesOf(runs[..|runs| - 1]) + JournalOf(TraceOf(runs[|runs| - 1]))
  }

  /** The loop events that a journal has appended, among whatever else, are these notes. */
  ghost predicate Writes(appended: seq<Event>, notes: seq<Note>) {
    var loop := LoopEvents(appended);
    |loop| == |notes| && forall i :: 0 <= i < |notes| ==> Describes(loop[i], notes[i])
  }

  /** An attempt to append a loop event that nothing refuses. */
  predicate IsLoopAttempt(a: Attempt) { IsLoopKind(a.input.kind) && a.passes }

  function LoopAttempts(attempts: seq<Attempt>): seq<Attempt> {
    if |attempts| == 0 then []
    else LoopAttempts(attempts[..|attempts| - 1]) +
         if IsLoopAttempt(attempts[|attempts| - 1]) then [attempts[|attempts| - 1]] else []
  }

  /** The loop attempts are those of the notes; all others carry any JavaScript objects. */
  ghost predicate AttemptsFor(c: Primitives, attempts: seq<Attempt>, notes: seq<Note>) {
    var loop := LoopAttempts(attempts);
    && |loop| == |notes|
    && (forall i :: 0 <= i < |notes| ==> loop[i].input == InputOf(notes[i]) && c.isTimestamp(loop[i].ts))
    && forall i :: 0 <= i < |attempts| && !IsLoopAttempt(attempts[i]) ==> Valid(Obj(attempts[i].input.payload))
  }

  predicate NeverStops(attempts: seq<Attempt>) { forall i :: 0 <= i < |attempts| ==> !attempts[i].stops }

  lemma SealDescribes(c: Primitives, existing: seq<Event>, n: Note, ts: Text)
    requires c.WellFormed() && c.isTimestamp(ts)
    requires |existing| > 0 ==> existing[|existing| - 1].seqNo >= 0 && IsHash(existing[|existing| - 1].hash)
    ensures Describes(Seal(c, existing, InputOf(n), ts), n) && Accepts(c, Seal(c, existing, InputOf(n), ts))
  {
    hide Bytes, IsHash, IsSignature, PayloadOf;
    KindIsLoop(n);
    LoopKindTags();
  }

  lemma SealKind(c: Primitives, existing: seq<Event>, input: Input, ts: Text)
    ensures Seal(c, existing, input, ts).kind == input.kind
  {
  }

  lemma {:induction false} LoopAttemptsIn(attempts: seq<Attempt>, a: Attempt)
    requires a in attempts && IsLoopAttempt(a)
    ensures a in LoopAttempts(attempts)
  {
    hide IsLoopAttempt;
    if a != attempts[|attempts| - 1] {
      var i :| 0 <= i < |attempts| && attempts[i] == a;
      assert attempts[..|attempts| - 1][i] == a;
      LoopAttemptsIn(attempts[..|attempts| - 1], a);
    }
  }

  lemma ForNotesValid(c: Primitives, attempts: seq<Attempt>, notes: seq<Note>)
    requires AttemptsFor(c, attempts, notes)
    ensures ValidAttempts(attempts)
  {
    hide IsLoopAttempt, InputOf, Valid;
    forall i | 0 <= i < |attempts| ensures Valid(Obj(attempts[i].input.payload)) {
      if IsLoopAttempt(attempts[i]) {
        LoopAttemptsIn(attempts, attempts[i]);
        var j :| 0 <= j < |LoopAttempts(attempts)| && LoopAttempts(attempts)[j] == attempts[i];
        InputValid(notes[j]);
      }
    }
  }

  lemma InputValid(n: Note)
    ensures Valid(Obj(InputOf(n).payload))
  {
    PayloadValid(n);
  }

  lemma FrontFor(c: Primitives, attempts: seq<Attempt>, notes: seq<Note>)
    requires AttemptsFor(c, attempts, notes) && |attempts| > 0
    ensures var a := attempts[|attempts| - 1];
            var front := attempts[..|attempts| - 1];
            if IsLoopAttempt(a)
            then |notes| > 0 && AttemptsFor(c, front, notes[..|notes| - 1]) &&
                 a.input == InputOf(notes[|notes| - 1]) && c.isTimestamp(a.ts)
            else AttemptsFor(c, front, notes)
  {
    hide IsLoopAttempt, InputOf, Valid;
    var a := attempts[|attempts| - 1];
    var front := attempts[..|attempts| - 1];
    assert forall i :: 0 <= i < |front| ==> front[i] == attempts[i];
    if !IsLoopAttempt(a) { assert LoopAttempts(front) + [] == LoopAttempts(front); }
  }

  /** Whatever else is appended to the journal, refused, or stopped between the two writes: a journal
      to which the notes of the loop are appended has written exactly these as its loop events. If
      nothing stops, its last event is pinned. */
  lemma {:induction false} NotesWritten(c: Primitives, attempts: seq<Attempt>, notes: seq<Note>)
    requires c.WellFormed() && AttemptsFor(c, attempts, notes)
    ensures ValidAttempts(attempts)
    ensures Writes(Run(c, attempts).appended, notes)
    ensures NeverStops(attempts) ==> Run(c, attempts).pinned == |Run(c, attempts).appended|
  {
    hide *;
    ForNotesValid(c, attempts, notes);
    if |attempts| == 0 {
      NoRun(c, attempts, notes);
    } else {
      var a := attempts[|attempts| - 1];
      var front := attempts[..|attempts| - 1];
      FrontFor(c, attempts, notes);
      assert attempts == front + [a];
      AttemptEffect(c, front, a);
      FrontValid(attempts);
      Log.RunConsistent(c, front);
      var before := Run(c, front);
      if |before.appended| > 0 { LastGood(c, before); }
      SealKind(c, before.appended, a.input, a.ts);
      if IsLoopAttempt(a) {
        var n := notes[|notes| - 1];
        NotesWritten(c, front, notes[..|notes| - 1]);
        SealDescribes(c, before.appended, n, a.ts);
        WritesNote(a, before.appended, notes, Seal(c, before.appended, a.input, a.ts));
      } else {
        NotesWritten(c, front, notes);
        WritesOther(a, before.appended, notes, Seal(c, before.appended, a.input, a.ts));
      }
    }
  }

  lemma FrontValid(attempts: seq<Attempt>)
    requires ValidAttempts(attempts) && |attempts| > 0
    ensures ValidAttempts(attempts[..|attempts| - 1])
    ensures NeverStops(attempts) ==> NeverStops(attempts[..|attempts| - 1]) && !attempts[|attempts| - 1].stops
  {
    hide Valid;
  }

  lemma WritesNote(a: Attempt, appended: seq<Event>, notes: seq<Note>, e: Event)
    requires |notes| > 0 && Writes(appended, notes[..|notes| - 1]) && Describes(e, notes[|notes| - 1])
    requires IsLoopAttempt(a)
    ensures Writes(appended + [e], notes) && a.passes
  {
    hide Describes, PayloadOf, IsLoopKind;
    KindIsLoop(notes[|notes| - 1]);
    DescribesKind(e, notes[|notes| - 1]);
    assert (appended + [e])[..|appended|] == appended;
  }

  lemma DescribesKind(e: Event, n: Note)
    requires Describes(e, n)
    ensures e.kind == G.KindOf(n)
  {
  }

  lemma WritesOther(a: Attempt, appended: seq<Event>, notes: seq<Note>, e: Event)
    requires Writes(appended, notes) && !IsLoopAttempt(a) && e.kind == a.input.kind
    ensures a.passes ==> Writes(appended + [e], notes)
  {
    hide Describes;
    assert (appended + [e])[..|appended|] == appended;
    assert LoopEvents(appended) + [] == LoopEvents(appended);
  }

  lemma NoRun(c: Primitives, attempts: seq<Attempt>, notes: seq<Note>)
    requires |attempts| == 0 && AttemptsFor(c, attempts, notes)
    ensures Writes(Run(c, attempts).appended, notes) && Run(c, attempts) == History(None, None, [], 0, {})
  {
  }

  // ----- What the screen keeps out -----

  /** The event that attempt i seals. */
  function SealedAt(c: Primitives, attempts: seq<Attempt>, i: nat): Event
    requires i < |attempts|
  {
    Seal(c, Run(c, attempts[..i]).appended, attempts[i].input, attempts[i].ts)
  }

  /** The journal's screen is the guard against known secrets. */
  ghost predicate Screened(c: Primitives, attempts: seq<Attempt>, secrets: seq<Text>) {
    forall i :: 0 <= i < |attempts| ==> (attempts[i].passes <==> !Leaks(ToJson(SealedAt(c, attempts, i)), secrets))
  }

  lemma ScreenedFront(c: Primitives, attempts: seq<Attempt>, secrets: seq<Text>)
    requires Screened(c, attempts, secrets) && |attempts| > 0
    ensures Screened(c, attempts[..|attempts| - 1], secrets)
  {
    hide Seal, Run, Leaks;
    var front := attempts[..|attempts| - 1];
    forall i | 0 <= i < |front|
      ensures front[i].passes <==> !Leaks(ToJson(SealedAt(c, front, i)), secrets)
    {
      assert front[..i] == attempts[..i] && front[i] == attempts[i];
    }
  }

  /** With the guard as its screen, a journal never holds a known secret in any string of any event,
      whatever is attempted; and it refuses nothing else: an attempt writes its event exactly if the
      event fits the schema and holds no known secret. Like the guard, this is about string values
      and not about the names of properties. */
  lemma {:induction false} ScreenExactly(c: Primitives, attempts: seq<Attempt>, secrets: seq<Text>)
    requires c.WellFormed() && ValidAttempts(attempts) && Screened(c, attempts, secrets)
    ensures var h := Run(c, attempts);
            && ReadEvents(c, h.journal) == Some(h.appended)
            && (forall i :: 0 <= i < |h.appended| ==> !Leaks(ToJson(h.appended[i]), secrets))
    ensures |attempts| > 0 ==>
              var k := |attempts| - 1;
              var e := SealedAt(c, attempts, k);
              Run(c, attempts).appended == Run(c, attempts[..k]).appended +
                if Accepts(c, e) && !Leaks(ToJson(e), secrets) then [e] else []
  {
    hide *;
    Log.RunConsistent(c, attempts);
    ReadsAppended(c, Run(c, attempts));
    if |attempts| == 0 {
      EmptyRun(c, attempts);
    } else {
      var k := |attempts| - 1;
      var front := attempts[..k];
      FrontValid(attempts);
      ScreenedFront(c, attempts, secrets);
      ScreenExactly(c, front, secrets);
      assert attempts == front + [attempts[k]];
      AttemptEffect(c, front, attempts[k]);
      LastScreened(c, attempts, secrets);
      assert Run(c, front).appended + [] == Run(c, front).appended;
    }
  }

  lemma LastScreened(c: Primitives, attempts: seq<Attempt>, secrets: seq<Text>)
    requires Screened(c, attempts, secrets) && |attempts| > 0
    ensures var k := |attempts| - 1;
            && SealedAt(c, attempts, k) == Seal(c, Run(c, attempts[..k]).appended, attempts[k].input, attempts[k].ts)
            && (attempts[k].passes <==> !Leaks(ToJson(SealedAt(c, attempts, k)), secrets))
  {
    hide Seal, Run, Leaks;
  }

  lemma EmptyRun(c: Primitives, attempts: seq<Attempt>)
    requires |attempts| == 0
    ensures Run(c, attempts).appended == []
  {
  }

  // ----- What an accepted journal says -----

  /** What is known of a journal whose files verify: which runs of the loop have written to it, and
      that only what it has released verifies under its key. */
  ghost predicate Accepted(c: Primitives, runs: seq<LoopRun>, attempts: seq<Attempt>, journal: Option<Text>,
                           headFile: Option<Text>)
  {
    && c.WellFormed() && ValidAttempts(attempts)
    && Writes(Run(c, attempts).appended, NotesOf(runs))
    && c.Unforgeable(Released(Run(c, attempts)))
    && FileOk(c, journal, headFile)
  }

  /** The files that the runs themselves leave are such files exactly when the head pins the last
      event, as it does if nothing stopped between two writes; and then they show every note. */
  lemma OwnFilesAccepted(c: Primitives, runs: seq<LoopRun>, attempts: seq<Attempt>)
    requires c.WellFormed() && AttemptsFor(c, attempts, NotesOf(runs)) && c.Ideal(Released(Run(c, attempts)))
    ensures var h := Run(c, attempts);
            && (Accepted(c, runs, attempts, h.journal, h.head) <==> 0 < |h.appended| == h.pinned)
            && (NeverStops(attempts) && |NotesOf(runs)| > 0 ==> 0 < |h.appended| == h.pinned)
            && Writes(EventsIn(c, h.journal), NotesOf(runs))
  {
    hide Run, Released, NotesOf, FileOk, AttemptsFor, LoopEvents, GoodEvents, LinesOf;
    var h := Run(c, attempts);
    NotesWritten(c, attempts, NotesOf(runs));
    RunVerifies(c, attempts);
    Log.RunConsistent(c, attempts);
    if |h.appended| == 0 { NoLoopEvents(h.appended); }
  }

  lemma NoLoopEvents(es: seq<Event>)
    requires |es| == 0
    ensures LoopEvents(es) == []
  {
  }

  function EventsIn(c: Primitives, journal: Option<Text>): seq<Event> {
    if journal.None? then [] else GoodEvents(c, LinesOf(journal.value))
  }

  /** Whatever files somebody presents: if they verify, then their loop events are, in kind, actor and
      payload, the first notes of the runs, in order (and no hash covers a __proto__ key of a
      payload), whatever other events the journal holds. */
  lemma AcceptedJournalTells(c: Primitives, runs: seq<LoopRun>, attempts: seq<Attempt>, journal: Option<Text>,
                             headFile: Option<Text>)
    requires Accepted(c, runs, attempts, journal, headFile)
    ensures var loop := LoopEvents(EventsIn(c, journal));
            && |EventsIn(c, journal)| > 0 && |loop| <= |NotesOf(runs)|
            && forall i :: 0 <= i < |loop| ==> Attests(loop[i], NotesOf(runs)[i]) && TellsAll(loop[i], NotesOf(runs)[i])
  {
    hide Tells, ActsFor;
    hide Run, GoodEvents, LinesOf, ReadHead, HeadVerifies, NotesOf, PayloadOf, G.KindOf, Bytes, SameButSignature,
      LoopEvents, Agree;
    Soundness(c, attempts, journal, headFile);
    var es := EventsIn(c, journal);
    var appended := Run(c, attempts).appended;
    LoopSame(es, appended[..|es|]);
    LoopPrefix(appended, |es|);
    var loop := LoopEvents(es);
    forall i | 0 <= i < |loop| ensures Attests(loop[i], NotesOf(runs)[i]) {
      assert LoopEvents(appended[..|es|])[i] == LoopEvents(appended)[i];
      SameKind(loop[i], LoopEvents(appended)[i]);
      assert Describes(LoopEvents(appended)[i], NotesOf(runs)[i]);
    }
    forall i | 0 <= i < |loop| ensures TellsAll(loop[i], NotesOf(runs)[i]) {
      AttestsTells(loop[i], NotesOf(runs)[i]);
    }
  }

  /** Whether an event of the loop is about the call with this id. */
  predicate About(e: Event, id: Text) { IsLoop(e) && Get(e.payload, Ascii("messageId")) == Some(Str(id)) }

  function EventsAbout(es: seq<Event>, id: Text): seq<Event> {
    if |es| == 0 then []
    else EventsAbout(es[..|es| - 1], id) + if About(es[|es| - 1], id) then [es[|es| - 1]] else []
  }

  function KindTexts(es: seq<Event>): (r: seq<Text>)
    ensures |r| == |es| && forall i :: 0 <= i < |r| ==> r[i] == es[i].kind
  {
    seq(|es|, i requires 0 <= i < |es| => es[i].kind)
  }

  lemma {:induction false} AboutLoop(es: seq<Event>, id: Text)
    ensures EventsAbout(LoopEvents(es), id) == EventsAbout(es, id)
  {
    hide IsLoopKind, Ascii;
    if |es| > 0 {
      AboutLoop(es[..|es| - 1], id);
      var front, e := LoopEvents(es[..|es| - 1]), es[|es| - 1];
      assert (front + [e])[..|front|] == front && front + [] == front;
      assert EventsAbout(front, id) + [] == EventsAbout(front, id);
    }
  }

  lemma {:induction false} AboutNotes(es: seq<Event>, notes: seq<Note>, id: Text)
    requires |es| == |notes| && forall i :: 0 <= i < |es| ==> Attests(es[i], notes[i])
    ensures KindTexts(EventsAbout(es, id)) == Kinds(OfId(notes, id))
  {
    hide IsLoopKind, Ascii, G.KindOf, Attests;
    if |es| > 0 {
      var k := |es| - 1;
      AboutNotes(es[..k], notes[..k], id);
      AttestsAbout(es[k], notes[k], id);
    }
  }

  lemma AttestsAbout(e: Event, n: Note, id: Text)
    requires Attests(e, n)
    ensures About(e, id) <==> n.id == id
    ensures e.kind == G.KindOf(n)
  {
    hide IsLoopKind, Ascii;
    MessageIdReads(e, n);
    KindIsLoop(n);
  }

  // ----- Words in an accepted journal -----

  function CallIds(run: LoopRun): (r: seq<Text>)
    ensures var tasks := G.After(run.cfg, run.hs).tasks;
            |r| == |tasks| && forall n :: 0 <= n < |r| ==> r[n] == tasks[n].req.id
  {
    var tasks := G.After(run.cfg, run.hs).tasks;
    seq(|tasks|, n requires 0 <= n < |tasks| => tasks[n].req.id)
  }

  /** No two calls of the runs have the same id. */
  ghost predicate AllDistinct(runs: seq<LoopRun>) {
    && (forall r :: 0 <= r < |runs| ==> Distinct(CallIds(runs[r])))
    && forall q, r, id :: 0 <= q < r < |runs| && id in CallIds(runs[q]) ==> id !in CallIds(runs[r])
  }

  lemma OwnNotes(run: LoopRun, j: nat)
    requires j < |JournalOf(TraceOf(run))|
    ensures JournalOf(TraceOf(run))[j].id in CallIds(run)
  {
    hide JournalOf, G.After, G.Word;
    var p := NoteAt(TraceOf(run), j);
    var k := InWord(run.cfg, run.hs, p);
    var n := TraceOf(run)[p].task;
    OwnIds(run.cfg, n, G.After(run.cfg, run.hs).tasks[n], k);
    assert CallIds(run)[n] == JournalOf(TraceOf(run))[j].id;
  }

  /** A note and where its act is in the trace. */
  lemma {:induction false} NoteAt(trace: seq<G.Act>, j: nat) returns (p: nat)
    requires j < |JournalOf(trace)|
    ensures p < |trace| && trace[p].Noted? && trace[p].note == JournalOf(trace)[j]
    ensures JournalOf(trace[..p]) == JournalOf(trace)[..j]
  {
    var k := |trace| - 1;
    var front := JournalOf(trace[..k]);
    if j < |front| {
      p := NoteAt(trace[..k], j);
      assert trace[..k][..p] == trace[..p];
    } else {
      p := k;
    }
  }

  lemma {:induction false} NoneOfId(notes: seq<Note>, id: Text)
    requires forall j :: 0 <= j < |notes| ==> notes[j].id != id
    ensures OfId(notes, id) == []
  {
    if |notes| > 0 { NoneOfId(notes[..|notes| - 1], id); }
  }

  lemma {:induction false} OfIdConcat(a: seq<Note>, b: seq<Note>, id: Text)
    ensures OfId(a + b, id) == OfId(a, id) + OfId(b, id)
  {
    if |b| == 0 {
      assert a + b == a;
    } else {
      assert (a + b)[..|a + b| - 1] == a + b[..|b| - 1];
      OfIdConcat(a, b[..|b| - 1], id);
    }
  }

  /** The notes about a call are all in its own run. */
  lemma {:induction false} OneRun(runs: seq<LoopRun>, r: nat, id: Text)
    requires AllDistinct(runs) && r < |runs| && id in CallIds(runs[r])
    ensures OfId(NotesOf(runs), id) == OfId(JournalOf(TraceOf(runs[r])), id)
  {
    hide JournalOf, TraceOf, CallIds;
    var k := |runs| - 1;
    var last := JournalOf(TraceOf(runs[k]));
    OfIdConcat(NotesOf(runs[..k]), last, id);
    if r < k {
      OneRun(runs[..k], r, id);
      forall j | 0 <= j < |last| ensures last[j].id != id { OwnNotes(runs[k], j); }
      NoneOfId(last, id);
    } else {
      OtherRuns(runs[..k], runs[k], id);
    }
  }

  lemma {:induction false} OtherRuns(runs: seq<LoopRun>, run: LoopRun, id: Text)
    requires id in CallIds(run) && forall q :: 0 <= q < |runs| ==> id !in CallIds(runs[q])
    ensures OfId(NotesOf(runs), id) == []
  {
    hide JournalOf, TraceOf, CallIds;
    if |runs| > 0 {
      var k := |runs| - 1;
      var last := JournalOf(TraceOf(runs[k]));
      OtherRuns(runs[..k], run, id);
      forall j | 0 <= j < |last| ensures last[j].id != id { OwnNotes(runs[k], j); }
      NoneOfId(last, id);
      OfIdConcat(NotesOf(runs[..k]), last, id);
    }
  }

  lemma {:induction false} OfIdPrefix(notes: seq<Note>, k: nat, id: Text)
    requires k <= |notes|
    ensures OfId(notes[..k], id) <= OfId(notes, id)
  {
    if k < |notes| {
      OfIdPrefix(notes[..|notes| - 1], k, id);
      assert notes[..|notes| - 1][..k] == notes[..k];
    } else {
      assert notes[..k] == notes;
    }
  }

  /** In an accepted journal of calls with distinct ids, the kinds of the events about a call are a
      prefix of one of the words of its mode. */
  lemma AcceptedWords(c: Primitives, runs: seq<LoopRun>, attempts: seq<Attempt>, journal: Option<Text>,
                      headFile: Option<Text>, r: nat, n: nat)
    requires Accepted(c, runs, attempts, journal, headFile)
    requires AllDistinct(runs) && r < |runs| && n < |G.After(runs[r].cfg, runs[r].hs).tasks|
    ensures var t := G.After(runs[r].cfg, runs[r].hs).tasks[n];
            exists w :: IsWord(t.mode, w) && KindTexts(EventsAbout(EventsIn(c, journal), t.req.id)) <= w
  {
    hide Run, EventsIn, FileOk, NotesOf, JournalOf, G.After, IsWord, OfId, Released, Writes, EventsAbout, LoopEvents,
      Attests, Accepted;
    var run := runs[r];
    var t := G.After(run.cfg, run.hs).tasks[n];
    var id := t.req.id;
    assert CallIds(run)[n] == id;
    AcceptedJournalTells(c, runs, attempts, journal, headFile);
    var es := EventsIn(c, journal);
    var loop := LoopEvents(es);
    var notes := NotesOf(runs);
    AboutLoop(es, id);
    AboutNotes(loop, notes[..|loop|], id);
    OfIdPrefix(notes, |loop|, id);
    OneRun(runs, r, id);
    RunDistinct(run);
    JournalWords(run.cfg, run.hs, n);
    var whole := Kinds(OfId(notes, id));
    var w :| IsWord(t.mode, w) && whole <= w;
    assert KindTexts(EventsAbout(es, id)) <= w;
  }

  lemma RunDistinct(run: LoopRun)
    requires Distinct(CallIds(run))
    ensures DistinctIds(G.After(run.cfg, run.hs))
  {
    hide G.After;
    var tasks := G.After(run.cfg, run.hs).tasks;
    forall i, j | 0 <= i < j < |tasks| ensures tasks[i].req.id != tasks[j].req.id {
      assert CallIds(run)[i] != CallIds(run)[j];
    }
  }

  // ----- Permissions in an accepted journal -----

  /** Kinds that say that a call was let through, and kinds that say that it may be. */
  predicate LetsThrough(kind: Text) { kind == Ascii("gate.allow") || kind == Ascii("tool_call.executed") }

  predicate PermitsKind(kind: Text) { kind == Ascii("tool_call.allow") || kind == Ascii("approval.granted") }

  lemma LettingNotes(n: Note)
    ensures LetsThrough(G.KindOf(n)) <==> n.Executed? || (n.Gated? && n.allow)
  {
    hide LOOP_KINDS;
    assert |Ascii("gate.allow")| == 10 && |Ascii("tool_call.executed")| == 18;
    assert |Ascii("tool_call.")| == 10 && |Ascii("allow")| == 5 && |Ascii("deny")| == 4 && |Ascii("require")| == 7;
    assert |Ascii("approval.granted")| == 16 && |Ascii("approval.denied")| == 15 && |Ascii("gate.deny")| == 9;
  }

  lemma PermittingAct(a: G.Act, id: Text)
    requires Permits(a, id)
    ensures a.note.id == id && PermitsKind(G.KindOf(a.note))
  {
    assert Ascii("tool_call.") + Ascii("allow") == Ascii("tool_call.allow");
  }

  lemma GateInWord(cfg: G.Setting, n: nat, t: G.Task, k: nat)
    requires k < |G.Word(cfg, n, t)| && G.Word(cfg, n, t)[k].Noted?
    requires G.Word(cfg, n, t)[k].note.Gated? && G.Word(cfg, n, t)[k].note.allow
    ensures k > 0 && Permits(G.Word(cfg, n, t)[k - 1], t.req.id) && G.Word(cfg, n, t)[k].note.id == t.req.id
  {
    hide G.Judge, G.Argv, G.ResultMessage, G.EffectiveVerdict;
  }

  /** In a run, a note that a call was let through follows a note that permits it. */
  lemma NotePermitted(run: LoopRun, j: nat) returns (i: nat)
    requires j < |JournalOf(TraceOf(run))| && LetsThrough(G.KindOf(JournalOf(TraceOf(run))[j]))
    ensures var notes := JournalOf(TraceOf(run));
            i < j && notes[i].id == notes[j].id && PermitsKind(G.KindOf(notes[i]))
  {
    hide JournalOf, G.After, G.Word, G.KindOf, G.By, Permits, LetsThrough, PermitsKind;
    var trace := TraceOf(run);
    var p := NoteAt(trace, j);
    LettingNotes(trace[p].note);
    var k := InWord(run.cfg, run.hs, p);
    var n := trace[p].task;
    var t := G.After(run.cfg, run.hs).tasks[n];
    var id := trace[p].note.id;
    var word := G.Word(run.cfg, n, t);
    var m: nat;
    if trace[p].note.Gated? {
      GateInWord(run.cfg, n, t, k);
      m := k - 1;
    } else {
      ExecutionInWord(run.cfg, n, t, k, id);
      ExecutionInWord(run.cfg, n, t, k - 1, id);
      m := k - 2;
    }
    var act := G.By(trace[..p], n)[m];
    PermittingAct(act, id);
    ByIn(trace[..p], n, act);
    PermitsNoted(act, id);
    i := NoteIn(trace[..p], act);
  }

  lemma PermitsNoted(a: G.Act, id: Text)
    requires Permits(a, id)
    ensures a.Noted?
  {
  }

  lemma {:induction false} NoteIn(trace: seq<G.Act>, a: G.Act) returns (i: nat)
    requires a in trace && a.Noted?
    ensures i < |JournalOf(trace)| && JournalOf(trace)[i] == a.note
  {
    var k := |trace| - 1;
    if a == trace[k] {
      i := |JournalOf(trace)| - 1;
    } else {
      var q :| 0 <= q < |trace| && trace[q] == a;
      assert trace[..k][q] == a;
      i := NoteIn(trace[..k], a);
    }
  }

  lemma {:induction false} NotesPermitted(runs: seq<LoopRun>, j: nat) returns (i: nat)
    requires j < |NotesOf(runs)| && LetsThrough(G.KindOf(NotesOf(runs)[j]))
    ensures i < j && NotesOf(runs)[i].id == NotesOf(runs)[j].id && PermitsKind(G.KindOf(NotesOf(runs)[i]))
  {
    hide JournalOf, TraceOf, G.KindOf, LetsThrough, PermitsKind;
    var k := |runs| - 1;
    var front := NotesOf(runs[..k]);
    if j < |front| {
      i := NotesPermitted(runs[..k], j);
    } else {
      var m := NotePermitted(runs[k], j - |front|);
      i := |front| + m;
    }
  }

  /** In an accepted journal, whatever the ids: an event that says that a call was let through, or
      executed, comes after an event about the same id that says that the policy allowed it or a human
      approved it. */
  lemma AcceptedPermissions(c: Primitives, runs: seq<LoopRun>, attempts: seq<Attempt>, journal: Option<Text>,
                            headFile: Option<Text>, j: nat, id: Text)
    requires Accepted(c, runs, attempts, journal, headFile)
    requires j < |EventsIn(c, journal)|
    requires About(EventsIn(c, journal)[j], id) && LetsThrough(EventsIn(c, journal)[j].kind)
    ensures exists i :: 0 <= i < j &&
              About(EventsIn(c, journal)[i], id) && PermitsKind(EventsIn(c, journal)[i].kind)
  {
    hide Accepted, EventsIn, NotesOf, LoopEvents, Attests, G.KindOf, LetsThrough, PermitsKind, IsLoopKind, Ascii;
    AcceptedJournalTells(c, runs, attempts, journal, headFile);
    var es := EventsIn(c, journal);
    var loop := LoopEvents(es);
    var notes := NotesOf(runs);
    LoopAt(es, j);
    var before := LoopEvents(es[..j]);
    var m := |before|;
    assert loop[m] == es[j];
    AttestsAbout(es[j], notes[m], id);
    var k := NotesPermitted(runs, m);
    assert loop[k] == before[k];
    AttestsAbout(before[k], notes[k], id);
    LoopIn(es[..j], before[k]);
    var i :| 0 <= i < j && es[..j][i] == before[k];
    assert es[i] == before[k];
  }
}
