/** What holds in every interleaving of gate and mediate calls. */
module GovernanceSafety {
  import opened Utf16
  import opened Wrappers
  import opened Records
  import opened JsonText
  import opened Policy
  import opened Protocol
  import opened Credentials
  import opened Redaction
  import opened Substitution
  import opened Governance

  // ----- The acts of one call within the trace -----

  lemma {:induction false} ByPrefix(trace: seq<Act>, p: nat, n: nat)
    requires p <= |trace|
    ensures By(trace[..p], n) <= By(trace, n)
  {
    if p < |trace| {
      ByPrefix(trace[..|trace| - 1], p, n);
      assert trace[..|trace| - 1][..p] == trace[..p];
    } else {
      assert trace[..p] == trace;
    }
  }

  /** The act at a position of the trace comes right after the earlier acts of its call. */
  lemma ByAt(trace: seq<Act>, p: nat)
    requires p < |trace|
    ensures var n := trace[p].task;
            By(trace[..p], n) + [trace[p]] <= By(trace, n)
  {
    assert trace[..p + 1][..p] == trace[..p];
    ByPrefix(trace, p + 1, trace[p].task);
  }

  lemma {:induction false} ByIn(trace: seq<Act>, n: nat, a: Act)
    requires a in By(trace, n)
    ensures a in trace && a.task == n
  {
    if |trace| > 0 && (a != trace[|trace| - 1] || a.task != n) { ByIn(trace[..|trace| - 1], n, a); }
  }

  /** An act of the trace, seen as an act of its call's word. */
  lemma InWord(cfg: Setting, hs: seq<Happening>, p: nat) returns (k: nat)
    requires p < |After(cfg, hs).trace|
    ensures var s := After(cfg, hs);
            var n := s.trace[p].task;
            && n < |s.tasks|
            && k == |By(s.trace[..p], n)|
            && k < |Word(cfg, n, s.tasks[n])| && Word(cfg, n, s.tasks[n])[k] == s.trace[p]
            && By(s.trace[..p], n) == Word(cfg, n, s.tasks[n])[..k]
  {
    hide Word, After;
    RunConsistent(cfg, hs);
    var s := After(cfg, hs);
    ByAt(s.trace, p);
    var n := s.trace[p].task;
    k := |By(s.trace[..p], n)|;
    var acts := By(s.trace, n);
    var word := Word(cfg, n, s.tasks[n]);
    assert acts <= word;
    assert (By(s.trace[..p], n) + [s.trace[p]])[k] == acts[k];
    assert By(s.trace[..p], n) == acts[..k] == word[..k];
  }

  // ----- Deliveries -----

  /** The policy allows the call, or requires a human, who answered and approved. */
  ghost predicate Agreed(v: Verdict, answer: Option<Answer>) {
    v.decision == Allow || (v.decision == Require && exists who :: answer == Some(Decision(true, who)))
  }

  lemma AgreedExactly(v: Verdict, answer: Option<Answer>)
    ensures Permitted(v, answer) <==> Agreed(v, answer)
  {
    if answer.Some? && Approves(answer.value) {
      assert answer == Some(Decision(true, answer.value.decidedBy));
    }
  }

  lemma AllowInWord(cfg: Setting, n: nat, t: Task, k: nat)
    requires k < |Word(cfg, n, t)|
    requires Word(cfg, n, t)[k].Delivered? && Word(cfg, n, t)[k].message.VerdictMessage?
    requires Word(cfg, n, t)[k].message.verdict.decision == Allow
    ensures k > 0 && Word(cfg, n, t)[k - 1] == Noted(n, Gated(t.req.actor, t.req.id, t.req.tool, true))
    ensures t.mode == GateOnly && Judge(cfg, t.req).Ok? && Agreed(Judge(cfg, t.req).value, t.answer)
    ensures Word(cfg, n, t)[k].message.id == t.req.id
  {
    hide Judge, Argv, RedactSecrets, SecretValues, Command, FindPlaceholders;
    AgreedExactly(Judge(cfg, t.req).value, t.answer);
  }

  /** An allow verdict reaches a hook only after gate.allow for its call is in the journal, and only
      if the policy allows the call or a human approved what it requires. */
  lemma AllowsAreJournaled(cfg: Setting, hs: seq<Happening>, p: nat)
    requires p < |After(cfg, hs).trace|
    requires var a := After(cfg, hs).trace[p];
             a.Delivered? && a.message.VerdictMessage? && a.message.verdict.decision == Allow
    ensures var s := After(cfg, hs);
            var n := s.trace[p].task;
            && n < |s.tasks| && s.tasks[n].req.id == s.trace[p].message.id && s.tasks[n].mode == GateOnly
            && (var req := s.tasks[n].req; Noted(n, Gated(req.actor, req.id, req.tool, true)) in s.trace[..p])
            && Judge(cfg, s.tasks[n].req).Ok?
            && Agreed(Judge(cfg, s.tasks[n].req).value, s.tasks[n].answer)
  {
    hide Word, After, Judge, By;
    var s := After(cfg, hs);
    var n := s.trace[p].task;
    var k := InWord(cfg, hs, p);
    AllowInWord(cfg, n, s.tasks[n], k);
    var before := By(s.trace[..p], n);
    var req := s.tasks[n].req;
    assert before[k - 1] == Noted(n, Gated(req.actor, req.id, req.tool, true));
    ByIn(s.trace[..p], n, before[k - 1]);
  }

  /** The verdict message of a call that the policy judged v. */
  ghost predicate Carries(m: Message, req: Request, v: Verdict)
    requires m.VerdictMessage?
  {
    && m.id == req.id && m.sessionId == req.sessionId
    && m.verdict.ruleId == v.ruleId && m.verdict.tier == v.tier
    && m.verdict.reason ==
       if m.verdict.decision == v.decision then v.reason
       else EffectText(v.decision) + [32, 0x2192, 32] + EffectText(m.verdict.decision) + Ascii(" (operator decision)")
  }

  lemma EffectiveReason(v: Verdict, allow: bool)
    ensures var e := EffectiveVerdict(v, allow);
            && e.decision == (if allow then Allow else Deny) && e.ruleId == v.ruleId && e.tier == v.tier
            && e.reason ==
               if e.decision == v.decision then v.reason
               else EffectText(v.decision) + [32, 0x2192, 32] + EffectText(e.decision) + Ascii(" (operator decision)")
  {
    hide EffectText;
    var e := EffectiveVerdict(v, allow);
    assert Ascii(" ") == [32];
    var a, b, c := EffectText(v.decision), EffectText(e.decision), Ascii(" (operator decision)");
    assert a + [32] + [0x2192] + [32] + b + c == a + [32, 0x2192, 32] + b + c;
  }

  lemma VerdictInWord(cfg: Setting, n: nat, t: Task, k: nat)
    requires k < |Word(cfg, n, t)| && Word(cfg, n, t)[k].Delivered? && Word(cfg, n, t)[k].message.VerdictMessage?
    ensures Judge(cfg, t.req).Ok?
    ensures var v := Judge(cfg, t.req).value;
            var allow := Permitted(v, t.answer);
            var m := Word(cfg, n, t)[k].message;
            && m.id == t.req.id && m.sessionId == t.req.sessionId
            && m.verdict == (if t.mode == GateOnly then EffectiveVerdict(v, allow) else v)
            && (t.mode == Proxied ==> !allow)
  {
    hide Judge, Argv, RedactSecrets, SecretValues, Command, FindPlaceholders;
  }

  /** A delivered verdict is for its call and carries the rule and the tier of the policy; its reason is
      that of the policy, or tells both effects if the decision is no longer that of the policy. It
      says require in one case only: a proxied call for which the policy requires a human, who did not
      approve. Such a call is denied and not executed. */
  lemma RawRequireExactly(cfg: Setting, hs: seq<Happening>, p: nat)
    requires p < |After(cfg, hs).trace|
    requires After(cfg, hs).trace[p].Delivered? && After(cfg, hs).trace[p].message.VerdictMessage?
    ensures var s := After(cfg, hs);
            var n := s.trace[p].task;
            && n < |s.tasks| && Judge(cfg, s.tasks[n].req).Ok?
            && var v := Judge(cfg, s.tasks[n].req).value;
               && (s.trace[p].message.verdict.decision == Require <==>
                     s.tasks[n].mode == Proxied && v.decision == Require && !Agreed(v, s.tasks[n].answer))
               && (s.trace[p].message.verdict.decision == Allow <==>
                     s.tasks[n].mode == GateOnly && Agreed(v, s.tasks[n].answer))
               && Carries(s.trace[p].message, s.tasks[n].req, v)
  {
    hide Word, After, Judge, By;
    var k := InWord(cfg, hs, p);
    var n := After(cfg, hs).trace[p].task;
    VerdictInWord(cfg, n, After(cfg, hs).tasks[n], k);
    var t := After(cfg, hs).tasks[n];
    EffectiveReason(Judge(cfg, t.req).value, Permitted(Judge(cfg, t.req).value, t.answer));
    AgreedExactly(Judge(cfg, t.req).value, t.answer);
    hide EffectiveVerdict, Ascii, EffectText;
  }

  lemma ResultInWord(cfg: Setting, n: nat, t: Task, k: nat)
    requires k < |Word(cfg, n, t)|
    requires Word(cfg, n, t)[k].Delivered? && Word(cfg, n, t)[k].message.ToolCallResult?
    ensures t.exit.Some? && k > 0
    ensures Word(cfg, n, t)[k - 1] ==
            Noted(n, Executed(t.req.actor, t.req.id, t.exit.value.exitCode, FindPlaceholders(Command(t.req))))
    ensures Word(cfg, n, t)[k].message == ResultMessage(cfg, t.req, t.exit.value)
  {
    hide Judge, Argv, Command, FindPlaceholders, ResultMessage, EffectiveVerdict, Permitted;
    ResultKind(cfg, t);
  }

  lemma ResultKind(cfg: Setting, t: Task)
    ensures forall r :: ResultMessage(cfg, t.req, r).ToolCallResult?
  {
    hide RedactSecrets, SecretValues;
  }

  lemma {:induction false} PresentExactly(names: seq<Text>, vault: Vault, s: Text)
    ensures s in Present(names, vault) <==> |s| > 0 && exists name :: name in names && vault(name) == Some(s)
  {
    if |names| > 0 {
      PresentExactly(names[1..], vault, s);
      assert forall name :: name in names <==> name == names[0] || name in names[1..];
    }
  }

  /** The values come in the order of the names. */
  lemma {:induction false} PresentLast(names: seq<Text>, name: Text, vault: Vault)
    ensures Present(names + [name], vault) ==
            Present(names, vault) +
            match vault(name) case Some(s) => if |s| > 0 then [s] else [] case None => []
  {
    if |names| == 0 {
      assert names + [name] == [name] && [name][1..] == [];
    } else {
      assert (names + [name])[1..] == names[1..] + [name];
      PresentLast(names[1..], name, vault);
    }
  }

  /** The non-empty value that the vault holds under a name whose placeholder occurs. */
  ghost predicate Used(v: Json, vault: Vault, s: Text) {
    |s| > 0 && exists name :: Mentions(v, name) && vault(name) == Some(s)
  }

  /** The secrets of a command are exactly the values of the placeholders in it, without repetition. */
  lemma SecretsExactly(v: Json, vault: Vault)
    ensures forall s :: s in SecretValues(v, vault) <==> Used(v, vault, s)
    ensures Distinct(SecretValues(v, vault)) && NoneEmpty(SecretValues(v, vault))
  {
    hide FindPlaceholders, Mentions, Present, AddAll;
    AddAllElements([], Present(FindPlaceholders(v), vault));
    forall s ensures s in SecretValues(v, vault) <==> Used(v, vault, s) {
      PresentExactly(FindPlaceholders(v), vault, s);
      forall name ensures name in FindPlaceholders(v) <==> Mentions(v, name) { FindExactly(v, name); }
    }
    assert forall i :: 0 <= i < |SecretValues(v, vault)| ==> SecretValues(v, vault)[i] in SecretValues(v, vault);
  }

  lemma {:induction false} NothingEmpty(secrets: seq<Text>)
    requires NoneEmpty(secrets)
    ensures NonEmpty(secrets) == secrets
  {
    if |secrets| > 0 { NothingEmpty(secrets[1..]); }
  }

  lemma RedactText(s: Text, secrets: seq<Text>)
    requires NoneEmpty(secrets)
    ensures RedactSecrets(Str(s), secrets) == Str(RedactString(s, secrets))
  {
    NothingEmpty(secrets);
  }

  /** What a result says of an execution that printed stdout with these secrets in its command. */
  ghost predicate Redacted(output: Option<Json>, stdout: Text, v: Json, vault: Vault) {
    && (exists secrets ::
          NoneEmpty(secrets) && (forall s :: s in secrets <==> Used(v, vault, s)) &&
          output == Some(Str(RedactString(stdout, secrets))))
    && (forall s :: Used(v, vault, s) && Sound(s) ==> output.Some? && !Leaks(output.value, [s]))
    && ((forall s :: Used(v, vault, s) ==> !Includes(stdout, s)) ==> output == Some(Str(stdout)))
  }

  lemma ResultRedacted(cfg: Setting, req: Request, r: ExecResult)
    ensures var m := ResultMessage(cfg, req, r);
            && m.ToolCallResult? && m.id == req.id && m.sessionId == req.sessionId
            && (m.ok <==> r.exitCode == 0)
            && Redacted(m.output, r.stdout, Command(req), cfg.vault)
  {
    hide Command, SecretValues, RedactSecrets, RedactString, Used, Sound, Leaks, Includes;
    var v := Command(req);
    var secrets := SecretValues(v, cfg.vault);
    SecretsExactly(v, cfg.vault);
    RedactText(r.stdout, secrets);
    forall s | Used(v, cfg.vault, s) && Sound(s) ensures !Leaks(RedactSecrets(Str(r.stdout), secrets), [s]) {
      SoundSecretGone(Str(r.stdout), secrets, s);
    }
    if forall s :: Used(v, cfg.vault, s) ==> !Includes(r.stdout, s) {
      NothingRedacted(r.stdout, secrets);
    }
  }

  /** A result reaches the intendant only after tool_call.executed is in the journal, and it is for its
      call. Its output is what the command printed with the secrets redacted that the command used: it
      holds none of them that is sound (see Redaction.Sound), whatever the others are, and is what was
      printed if no secret was. */
  lemma ResultsAreRedacted(cfg: Setting, hs: seq<Happening>, p: nat)
    requires p < |After(cfg, hs).trace|
    requires After(cfg, hs).trace[p].Delivered? && After(cfg, hs).trace[p].message.ToolCallResult?
    ensures var s := After(cfg, hs);
            var n := s.trace[p].task;
            && n < |s.tasks| && s.tasks[n].exit.Some?
            && var req, r, m := s.tasks[n].req, s.tasks[n].exit.value, s.trace[p].message;
            && Noted(n, Executed(req.actor, req.id, r.exitCode, FindPlaceholders(Command(req)))) in s.trace[..p]
            && m.id == req.id && m.sessionId == req.sessionId && (m.ok <==> r.exitCode == 0)
            && Redacted(m.output, r.stdout, Command(req), cfg.vault)
  {
    hide Word, After, Judge, By, Redacted, ResultMessage, Command, FindPlaceholders;
    var s := After(cfg, hs);
    var n := s.trace[p].task;
    var k := InWord(cfg, hs, p);
    ResultInWord(cfg, n, s.tasks[n], k);
    var before := By(s.trace[..p], n);
    ByIn(s.trace[..p], n, before[k - 1]);
    ResultRedacted(cfg, s.tasks[n].req, s.tasks[n].exit.value);
  }

  // ----- Executions -----

  predicate Permits(a: Act, id: Text) {
    && a.Noted?
    && ((a.note.Judged? && a.note.id == id && a.note.verdict.decision == Allow) ||
        (a.note.Settled? && a.note.id == id && a.note.answer.Decision? && a.note.answer.approved))
  }

  predicate Starts(a: Act, id: Text) { a.Started? && a.id == id }

  predicate Reports(a: Act, id: Text) { a.Noted? && a.note.Executed? && a.note.id == id }

  /** What is executed before secrets are filled in: the given shell command, or the tool with its
      arguments as a text from which they can be read back. */
  lemma CommandCarriesArgs(req: Request)
    requires Valid(Obj(req.args))
    ensures var given: Option<Json> := Get(req.args, Ascii("command"));
            var argv := Command(req);
            argv.Arr? &&
            if given.Some? && given.value.Str? then argv.items == [Str(Ascii("sh")), Str(Ascii("-c")), given.value]
            else
              && |argv.items| == 2 && argv.items[0] == Str(req.tool) && argv.items[1].Str?
              && Parse(argv.items[1].s) == Some(Obj(req.args))
  {
    RoundTrip(Obj(req.args));
  }

  lemma ExecutionInWord(cfg: Setting, n: nat, t: Task, k: nat, id: Text)
    requires k < |Word(cfg, n, t)|
    ensures Starts(Word(cfg, n, t)[k], id) ==>
              && k > 0 && Permits(Word(cfg, n, t)[k - 1], id)
              && Argv(cfg, t.req) == Some(Word(cfg, n, t)[k].argv)
              && t.mode == Proxied && Permitted(Judge(cfg, t.req).value, t.answer)
    ensures Reports(Word(cfg, n, t)[k], id) ==> k > 0 && Starts(Word(cfg, n, t)[k - 1], id)
  {
    hide Judge, Argv, ResultMessage, EffectiveVerdict;
  }

  /** The argv is the command with every placeholder filled in from the vault. */
  ghost predicate FilledIn(command: Json, argv: Json, vault: Vault) {
    && command.Arr? && argv.Arr? && |argv.items| == |command.items|
    && forall i :: 0 <= i < |argv.items| ==>
         command.items[i].Str? && argv.items[i].Str? && Filled(command.items[i].s, argv.items[i].s, vault)
  }

  lemma {:induction false} ItemsFilled(items: seq<Json>, vault: Vault)
    requires forall i :: 0 <= i < |items| ==> items[i].Str?
    requires MapItems(items, s => ResolveString(s, vault)).Some?
    ensures FilledIn(Arr(items), Arr(MapItems(items, s => ResolveString(s, vault)).value), vault)
  {
    hide Filled, ResolveString;
    if |items| > 0 {
      ItemsFilled(items[1..], vault);
      var t := ResolveString(items[0].s, vault).value;
      FilledExactly(items[0].s, t, vault);
      var rest := MapItems(items[1..], s => ResolveString(s, vault)).value;
      assert MapItems(items, s => ResolveString(s, vault)).value == [Str(t)] + rest;
    }
  }

  lemma CommandFilled(req: Request, vault: Vault)
    requires ResolvePlaceholders(Command(req), vault).Some?
    ensures FilledIn(Command(req), ResolvePlaceholders(Command(req), vault).value, vault)
  {
    hide Stringify, Get, Ascii, FilledIn, MapItems;
    ItemsFilled(Command(req).items, vault);
  }

  /** Nothing is executed but the command of a call that the journal shows as allowed or approved, with
      the vault's values in the places of its placeholders. */
  lemma ExecutionsAreAuthorized(cfg: Setting, hs: seq<Happening>, p: nat)
    requires p < |After(cfg, hs).trace| && After(cfg, hs).trace[p].Started?
    ensures var s := After(cfg, hs);
            var n := s.trace[p].task;
            && n < |s.tasks| && s.tasks[n].mode == Proxied && s.trace[p].id == s.tasks[n].req.id
            && (exists a :: a in s.trace[..p] && a.task == n && Permits(a, s.trace[p].id))
            && ResolvePlaceholders(Command(s.tasks[n].req), cfg.vault) == Some(s.trace[p].argv)
            && FilledIn(Command(s.tasks[n].req), s.trace[p].argv, cfg.vault)
            && forall name :: Mentions(Command(s.tasks[n].req), name) ==> cfg.vault(name).Some?
  {
    hide Word, After, Judge, By, FindPlaceholders, ResolvePlaceholders, Command, Mentions, FilledIn;
    var s := After(cfg, hs);
    var n := s.trace[p].task;
    var k := InWord(cfg, hs, p);
    StartedInWord(cfg, n, s.tasks[n], k);
    ExecutionInWord(cfg, n, s.tasks[n], k, s.trace[p].id);
    var before := By(s.trace[..p], n);
    ByIn(s.trace[..p], n, before[k - 1]);
    var v := Command(s.tasks[n].req);
    ResolvesExactly(v, cfg.vault);
    CommandFilled(s.tasks[n].req, cfg.vault);
    forall name | Mentions(v, name) ensures cfg.vault(name).Some? { FindExactly(v, name); }
  }

  lemma StartedInWord(cfg: Setting, n: nat, t: Task, k: nat)
    requires k < |Word(cfg, n, t)| && Word(cfg, n, t)[k].Started?
    ensures Word(cfg, n, t)[k].id == t.req.id
  {
    hide Judge, Argv, ResultMessage, EffectiveVerdict;
  }

  function Count(acts: seq<Act>, test: Act -> bool): nat {
    if |acts| == 0 then 0 else Count(acts[..|acts| - 1], test) + (if test(acts[|acts| - 1]) then 1 else 0)
  }

  /** If act k passes the test then the act before it passes the other one. */
  predicate Follows(acts: seq<Act>, k: nat, test: Act -> bool, earlier: Act -> bool)
    requires k < |acts|
  {
    test(acts[k]) ==> k > 0 && earlier(acts[k - 1])
  }

  lemma {:induction false} Preceded(acts: seq<Act>, test: Act -> bool, earlier: Act -> bool)
    requires forall k :: 0 <= k < |acts| ==> Follows(acts, k, test, earlier)
    ensures |acts| > 0 ==> Count(acts, test) <= Count(acts[..|acts| - 1], earlier)
    ensures Count(acts, test) <= Count(acts, earlier)
  {
    if |acts| > 0 {
      var front := acts[..|acts| - 1];
      assert forall k :: 0 <= k < |front| ==> Follows(acts, k, test, earlier) ==> Follows(front, k, test, earlier);
      Preceded(front, test, earlier);
      assert Follows(acts, |acts| - 1, test, earlier);
      if |front| > 0 { assert front[|front| - 1] == acts[|acts| - 2]; }
    }
  }

  /** Counting call by call, over the first k calls. */
  function Total(trace: seq<Act>, test: Act -> bool, k: nat): nat {
    if k == 0 then 0 else Total(trace, test, k - 1) + Count(By(trace, k - 1), test)
  }

  lemma {:induction false} TotalGrows(trace: seq<Act>, a: Act, test: Act -> bool, k: nat)
    ensures Total(trace + [a], test, k) == Total(trace, test, k) + if a.task < k && test(a) then 1 else 0
  {
    assert (trace + [a])[..|trace|] == trace;
    if k > 0 {
      TotalGrows(trace, a, test, k - 1);
      var before := By(trace, k - 1);
      if a.task == k - 1 {
        assert (before + [a])[..|before|] == before;
      } else {
        assert before + [] == before;
      }
    }
  }

  lemma {:induction false} TotalEmpty(test: Act -> bool, k: nat)
    ensures Total([], test, k) == 0
  {
    if k > 0 { TotalEmpty(test, k - 1); }
  }

  lemma {:induction false} CountByCall(trace: seq<Act>, test: Act -> bool, k: nat)
    requires forall p :: 0 <= p < |trace| ==> trace[p].task < k
    ensures Count(trace, test) == Total(trace, test, k)
  {
    if |trace| == 0 {
      TotalEmpty(test, k);
    } else {
      var front := trace[..|trace| - 1];
      CountByCall(front, test, k);
      assert trace == front + [trace[|trace| - 1]];
      TotalGrows(front, trace[|trace| - 1], test, k);
    }
  }

  lemma {:induction false} TotalBounded(trace: seq<Act>, test: Act -> bool, bound: Act -> bool, k: nat)
    requires forall n :: 0 <= n < k ==> Count(By(trace, n), test) <= Count(By(trace, n), bound)
    ensures Total(trace, test, k) <= Total(trace, bound, k)
  {
    if k > 0 { TotalBounded(trace, test, bound, k - 1); }
  }

  lemma WordCounts(cfg: Setting, n: nat, t: Task, acts: seq<Act>, id: Text)
    requires acts <= Word(cfg, n, t)
    ensures Count(acts, a => Starts(a, id)) <= Count(acts, a => Permits(a, id))
    ensures Count(acts, a => Reports(a, id)) <= Count(acts, a => Starts(a, id))
  {
    hide Word, Count;
    var starts, permits, reports := a => Starts(a, id), a => Permits(a, id), a => Reports(a, id);
    forall k | 0 <= k < |acts|
      ensures Follows(acts, k, starts, permits) && Follows(acts, k, reports, starts)
    {
      assert acts[k] == Word(cfg, n, t)[k];
      ExecutionInWord(cfg, n, t, k, id);
    }
    Preceded(acts, starts, permits);
    Preceded(acts, reports, starts);
  }

  /** For every id, even one that several calls share: no more executions start than the journal
      shows allowed or approved, and no more are reported than started. */
  lemma ExecutionsCounted(cfg: Setting, hs: seq<Happening>, id: Text)
    ensures var trace := After(cfg, hs).trace;
            && Count(trace, a => Starts(a, id)) <= Count(trace, a => Permits(a, id))
            && Count(trace, a => Reports(a, id)) <= Count(trace, a => Starts(a, id))
  {
    hide Word, After, By, Count;
    RunConsistent(cfg, hs);
    var s := After(cfg, hs);
    var starts, permits, reports := a => Starts(a, id), a => Permits(a, id), a => Reports(a, id);
    forall n | 0 <= n < |s.tasks|
      ensures Count(By(s.trace, n), starts) <= Count(By(s.trace, n), permits)
      ensures Count(By(s.trace, n), reports) <= Count(By(s.trace, n), starts)
    {
      WordCounts(cfg, n, s.tasks[n], By(s.trace, n), id);
    }
    var k := |s.tasks|;
    CountByCall(s.trace, starts, k);
    CountByCall(s.trace, permits, k);
    CountByCall(s.trace, reports, k);
    TotalBounded(s.trace, starts, permits, k);
    TotalBounded(s.trace, reports, starts, k);
  }

  // ----- The journal of an id -----

  /** The journal events of a trace, in order. */
  function JournalOf(trace: seq<Act>): seq<Note> {
    if |trace| == 0 then []
    else JournalOf(trace[..|trace| - 1]) + (if trace[|trace| - 1].Noted? then [trace[|trace| - 1].note] else [])
  }

  function OfId(journal: seq<Note>, id: Text): seq<Note> {
    if |journal| == 0 then []
    else OfId(journal[..|journal| - 1], id) +
         (if journal[|journal| - 1].id == id then [journal[|journal| - 1]] else [])
  }

  function Kinds(journal: seq<Note>): (r: seq<Text>)
    ensures |r| == |journal| && forall i :: 0 <= i < |r| ==> r[i] == KindOf(journal[i])
  {
    seq(|journal|, i requires 0 <= i < |journal| => KindOf(journal[i]))
  }

  lemma OwnIds(cfg: Setting, n: nat, t: Task, k: nat)
    requires k < |Word(cfg, n, t)| && Word(cfg, n, t)[k].Noted?
    ensures Word(cfg, n, t)[k].note.id == t.req.id
  {
    hide Judge, Argv, ResultMessage, EffectiveVerdict;
  }

  lemma {:induction false} JournalOfCall(trace: seq<Act>, n: nat, id: Text)
    requires forall p :: 0 <= p < |trace| && trace[p].Noted? ==> (trace[p].note.id == id <==> trace[p].task == n)
    ensures OfId(JournalOf(trace), id) == JournalOf(By(trace, n))
  {
    if |trace| > 0 {
      var front, a := trace[..|trace| - 1], trace[|trace| - 1];
      JournalOfCall(front, n, id);
      var journal, acts := JournalOf(front), By(front, n);
      if a.Noted? { assert (journal + [a.note])[..|journal|] == journal; }
      assert journal + [] == journal;
      assert (acts + [a])[..|acts|] == acts;
      assert acts + [] == acts;
    }
  }

  lemma {:induction false} JournalPrefix(acts: seq<Act>, word: seq<Act>)
    requires acts <= word
    ensures JournalOf(acts) <= JournalOf(word)
  {
    if |acts| < |word| { JournalPrefix(acts, word[..|word| - 1]); } else { assert acts == word; }
  }

  lemma {:induction false} JournalConcat(a: seq<Act>, b: seq<Act>)
    ensures JournalOf(a + b) == JournalOf(a) + JournalOf(b)
  {
    if |b| == 0 {
      assert a + b == a;
    } else {
      assert (a + b)[..|a + b| - 1] == a + b[..|b| - 1];
      JournalConcat(a, b[..|b| - 1]);
    }
  }

  lemma JournalOfOne(a: Act)
    ensures JournalOf([a]) == if a.Noted? then [a.note] else []
  {
    assert [a][..0] == [];
  }

  /** The whole journal of a call that was judged v: the events that its kind of call writes. */
  function Record(cfg: Setting, t: Task, v: Verdict): seq<Note> {
    [Judged(t.req.actor, t.req.id, t.req.tool, v)] +
    if v.decision != Require then EndRecord(cfg, t, v)
    else if t.answer.None? then []
    else [Settled(t.req.id, t.answer.value)] + EndRecord(cfg, t, v)
  }

  function EndRecord(cfg: Setting, t: Task, v: Verdict): seq<Note> {
    if t.mode == GateOnly then [Gated(t.req.actor, t.req.id, t.req.tool, Permitted(v, t.answer))]
    else if Permitted(v, t.answer) && Argv(cfg, t.req).Some? && t.exit.Some?
    then [Executed(t.req.actor, t.req.id, t.exit.value.exitCode, FindPlaceholders(Command(t.req)))]
    else []
  }

  lemma EndRecordExactly(cfg: Setting, n: nat, t: Task, v: Verdict)
    ensures JournalOf(Ending(cfg, n, t, v)) == EndRecord(cfg, t, v)
  {
    hide JournalOf, Judge, Argv, ResultMessage, EffectiveVerdict, Command, FindPlaceholders, Permitted;
    var acts := Ending(cfg, n, t, v);
    assert JournalOf([]) == [] by { EmptyJournal(); }
    forall i | 0 <= i < |acts| ensures JournalOf([acts[i]]) == if acts[i].Noted? then [acts[i].note] else [] {
      JournalOfOne(acts[i]);
    }
    if |acts| >= 2 {
      JournalConcat([acts[0]], acts[1..]);
      assert acts == [acts[0]] + acts[1..];
      if |acts| == 2 { assert acts[1..] == [acts[1]]; }
      else {
        JournalConcat([acts[1]], [acts[2]]);
        assert acts[1..] == [acts[1]] + [acts[2]];
      }
    } else if |acts| == 1 {
      assert acts == [acts[0]];
    }
  }

  lemma EmptyJournal()
    ensures JournalOf([]) == []
  {
  }

  lemma RecordExactly(cfg: Setting, n: nat, t: Task)
    requires Judge(cfg, t.req).Ok?
    ensures JournalOf(Word(cfg, n, t)) == Record(cfg, t, Judge(cfg, t.req).value)
  {
    hide JournalOf, Judge, Ending, EndRecord;
    var v := Judge(cfg, t.req).value;
    var first := Noted(n, Judged(t.req.actor, t.req.id, t.req.tool, v));
    var ending := Ending(cfg, n, t, v);
    EmptyJournal();
    JournalOfOne(first);
    EndRecordExactly(cfg, n, t, v);
    JournalConcat([first], ending);
    assert [first] + [] == [first];
    if v.decision == Require && t.answer.Some? {
      var settled := Noted(n, Settled(t.req.id, t.answer.value));
      JournalOfOne(settled);
      JournalConcat([settled], ending);
      JournalConcat([first], [settled] + ending);
    }
  }

  ghost predicate DistinctIds(s: Loop) {
    forall i, j :: 0 <= i < j < |s.tasks| ==> s.tasks[i].req.id != s.tasks[j].req.id
  }

  /** In every interleaving of calls with distinct ids, whatever aborts: the journal events of an id
      are, in order, the first ones of the record of its call, and all of them once the call has
      delivered. */
  lemma JournalOfId(cfg: Setting, hs: seq<Happening>, n: nat)
    requires DistinctIds(After(cfg, hs)) && n < |After(cfg, hs).tasks|
    ensures var s := After(cfg, hs);
            var t := s.tasks[n];
            var events := OfId(JournalOf(s.trace), t.req.id);
            && (Judge(cfg, t.req).Err? ==> events == [])
            && (Judge(cfg, t.req).Ok? ==> events <= Record(cfg, t, Judge(cfg, t.req).value))
            && (t.stage != Aborted ==>
                  Judge(cfg, t.req).Ok? && events == Record(cfg, t, Judge(cfg, t.req).value))
  {
    hide After, Word, Judge, Record, By, JournalOf, OfId;
    RunConsistent(cfg, hs);
    var s := After(cfg, hs);
    var t := s.tasks[n];
    forall p | 0 <= p < |s.trace| && s.trace[p].Noted?
      ensures s.trace[p].note.id == t.req.id <==> s.trace[p].task == n
    {
      var k := InWord(cfg, hs, p);
      OwnIds(cfg, s.trace[p].task, s.tasks[s.trace[p].task], k);
    }
    JournalOfCall(s.trace, n, t.req.id);
    JournalPrefix(By(s.trace, n), Word(cfg, n, t));
    if Judge(cfg, t.req).Ok? { RecordExactly(cfg, n, t); }
    else { NoWord(cfg, n, t); }
  }

  lemma NoWord(cfg: Setting, n: nat, t: Task)
    requires Judge(cfg, t.req).Err?
    ensures JournalOf(Word(cfg, n, t)) == []
  {
    EmptyJournal();
  }

  // ----- The words in the journal's own kinds -----

  function JudgedKind(e: Effect): Text { Ascii("tool_call.") + EffectText(e) }

  predicate IsGateWord(ks: seq<Text>) {
    || ks == [JudgedKind(Allow), Ascii("gate.allow")]
    || ks == [JudgedKind(Deny), Ascii("gate.deny")]
    || ks == [JudgedKind(Require), Ascii("approval.granted"), Ascii("gate.allow")]
    || ks == [JudgedKind(Require), Ascii("approval.denied"), Ascii("gate.deny")]
  }

  predicate IsMediateWord(ks: seq<Text>) {
    || ks == [JudgedKind(Allow), Ascii("tool_call.executed")]
    || ks == [JudgedKind(Deny)]
    || ks == [JudgedKind(Require), Ascii("approval.granted"), Ascii("tool_call.executed")]
    || ks == [JudgedKind(Require), Ascii("approval.denied")]
  }

  predicate IsWord(mode: Mode, ks: seq<Text>) { if mode == GateOnly then IsGateWord(ks) else IsMediateWord(ks) }

  /** The word of a call that the policy judged e and, where required, a human granted or not. */
  function WholeWord(mode: Mode, e: Effect, granted: bool): seq<Text> {
    var allow := e == Allow || (e == Require && granted);
    [JudgedKind(e)] +
    (if e == Require then [if granted then Ascii("approval.granted") else Ascii("approval.denied")] else []) +
    (if mode == GateOnly then [if allow then Ascii("gate.allow") else Ascii("gate.deny")]
     else if allow then [Ascii("tool_call.executed")]
     else [])
  }

  lemma WholeIsWord(mode: Mode, e: Effect, granted: bool)
    ensures IsWord(mode, WholeWord(mode, e, granted))
  {
    hide JudgedKind, Ascii;
  }

  predicate Granted(t: Task) { t.answer.Some? && Approves(t.answer.value) }

  lemma RecordKinds(cfg: Setting, t: Task, v: Verdict)
    ensures Kinds(Record(cfg, t, v)) <= WholeWord(t.mode, v.decision, Granted(t))
    ensures (v.decision == Require ==> t.answer.Some?) &&
            (t.mode == Proxied && Permitted(v, t.answer) ==> Argv(cfg, t.req).Some? && t.exit.Some?) ==>
              Kinds(Record(cfg, t, v)) == WholeWord(t.mode, v.decision, Granted(t))
  {
    hide Argv, FindPlaceholders, Command, Ascii, EffectText, JudgedKind;
    JudgedKindOf(t.req, v);
  }

  lemma JudgedKindOf(req: Request, v: Verdict)
    ensures KindOf(Judged(req.actor, req.id, req.tool, v)) == JudgedKind(v.decision)
  {
  }

  /** In every interleaving of calls with distinct ids, aborted ones included, the kinds of an id's
      journal events are a prefix of one of the four words of its call, and a whole word once the
      call has delivered. */
  lemma JournalWords(cfg: Setting, hs: seq<Happening>, n: nat)
    requires DistinctIds(After(cfg, hs)) && n < |After(cfg, hs).tasks|
    ensures var s := After(cfg, hs);
            var t := s.tasks[n];
            var ks := Kinds(OfId(JournalOf(s.trace), t.req.id));
            && (exists w :: IsWord(t.mode, w) && ks <= w)
            && (t.stage in {Delivering, Finished} ==> IsWord(t.mode, ks))
  {
    hide After, Word, Judge, Record, By, JournalOf, OfId, IsWord, Argv, WholeWord;
    RunConsistent(cfg, hs);
    JournalOfId(cfg, hs, n);
    var t := After(cfg, hs).tasks[n];
    if Judge(cfg, t.req).Ok? {
      var v := Judge(cfg, t.req).value;
      RecordKinds(cfg, t, v);
      WholeIsWord(t.mode, v.decision, Granted(t));
    } else {
      WholeIsWord(t.mode, Deny, false);
      assert Kinds([]) <= WholeWord(t.mode, Deny, false);
    }
  }
}
