/** The signed journal: appending events to the journal file and pinning its tail with a signed
    head checkpoint. */
module Journal {
  import opened Utf16
  import opened Wrappers
  import opened Records
  import opened JsonText
  import opened Canonical
  import opened Lines
  import opened Events
  import opened Verify

  datatype Input = Input(
    kind: Text,
    actor: Actor,
    payload: Props<Json>,
    tenantId: Option<Text>,
    intendantIdentityUri: Option<Text>,
    correlationId: Option<Text>,
    gsbReceiptTipHash: Option<Text>)

  /** Why an append throws: a line of the file is no event, the new event does not fit the schema,
      or the screen refuses it. */
  datatype AppendError = CorruptJournal | InvalidEvent | Refused

  /** readEvents; None when it throws. */
  function ReadEvents(c: Primitives, journal: Option<Text>): Option<seq<Event>> {
    if journal.None? then Some([])
    else
      var lines := LinesOf(journal.value);
      if AllGood(c, lines) then Some(GoodEvents(c, lines)) else None
  }

  /** The events of a journal: none of a file that does not exist, else those that its lines spell one by
      one; there are none to be had, and reading throws, exactly if some line spells no event. */
  lemma ReadEventsExactly(c: Primitives, journal: Option<Text>, es: seq<Event>)
    ensures ReadEvents(c, journal) == Some(es) <==>
              (journal == None && es == []) || (journal != None && AllRead(c, LinesOf(journal.value), es))
  {
    hide LinesOf, AllGood, GoodEvents, AllRead;
    if journal.Some? {
      var lines := LinesOf(journal.value);
      AllGoodExactly(c, lines, es);
    }
  }

  /** Some line of the file spells no event. */
  ghost predicate Corrupt(c: Primitives, journal: Option<Text>) {
    journal != None && forall es :: !AllRead(c, LinesOf(journal.value), es)
  }

  lemma CorruptExactly(c: Primitives, journal: Option<Text>)
    ensures ReadEvents(c, journal) == None <==> Corrupt(c, journal)
  {
    hide LinesOf, AllRead;
    var read := ReadEvents(c, journal);
    if read.Some? { ReadEventsExactly(c, journal, read.value); }
    if es :| journal != None && AllRead(c, LinesOf(journal.value), es) { ReadEventsExactly(c, journal, es); }
  }

  /** The event that an append seals after the existing ones. */
  function Seal(c: Primitives, existing: seq<Event>, input: Input, ts: Text): Event {
    var prevHash := PrevOf(existing, |existing|);
    var seqNo := (if |existing| == 0 then 0 else existing[|existing| - 1].seqNo) + 1;
    var unsealed := Event(seqNo, ts, prevHash, input.kind, input.actor, input.payload, input.tenantId, None, None,
                          input.intendantIdentityUri, None, input.correlationId, input.gsbReceiptTipHash, [], []);
    var bytes := Bytes(unsealed);
    unsealed.(hash := c.hash(bytes), signature := c.sign(bytes))
  }

  /** The event carries what was given to append and the time that was read; the three reserved columns
      are null; it is numbered after the last event and links to it; and its hash and its signature are
      those of its own bytes. */
  ghost predicate Sealed(c: Primitives, existing: seq<Event>, input: Input, ts: Text, e: Event) {
    && e.kind == input.kind && e.actor == input.actor && e.payload == input.payload && e.ts == ts
    && e.tenantId == input.tenantId && e.intendantIdentityUri == input.intendantIdentityUri
    && e.correlationId == input.correlationId && e.gsbReceiptTipHash == input.gsbReceiptTipHash
    && e.signingKeyId == None && e.approvalBindingType == None && e.onBehalfOf == None
    && (if existing == [] then e.seqNo == 1 && e.prevHash == None
        else e.seqNo == existing[|existing| - 1].seqNo + 1 && e.prevHash == Some(existing[|existing| - 1].hash))
    && e.hash == c.hash(Bytes(e)) && e.signature == c.sign(Bytes(e))
  }

  lemma SealExactly(c: Primitives, existing: seq<Event>, input: Input, ts: Text, e: Event)
    ensures Seal(c, existing, input, ts) == e <==> Sealed(c, existing, input, ts, e)
  {
    hide CanonicalJson;
    var unsealed := Seal(c, existing, input, ts).(hash := e.hash, signature := e.signature);
    if Sealed(c, existing, input, ts, e) { assert e == unsealed; }
  }

  /** What an append returns or throws. */
  function Outcome(c: Primitives, journal: Option<Text>, input: Input, ts: Text, screen: Event -> bool)
    : Result<Event, AppendError>
  {
    match ReadEvents(c, journal)
    case None => Err(CorruptJournal)
    case Some(existing) =>
      var event := Seal(c, existing, input, ts);
      if !Accepts(c, event) then Err(InvalidEvent)
      else if !screen(event) then Err(Refused)
      else Ok(event)
  }

  /** The bytes that are signed to pin an event. */
  function PinBytes(seqNo: int, hash: Text): Text { HeadBytes(Some(Num(seqNo)), Some(Str(hash))) }

  function HeadProps(c: Primitives, seqNo: int, hash: Text): Props<Json> {
    var signature := c.sign(PinBytes(seqNo, hash));
    [(Ascii("seq"), Num(seqNo)), (Ascii("hash"), Str(hash)), (Ascii("signature"), Str(signature))]
  }

  /** The head file that pins an event. */
  function HeadText(c: Primitives, seqNo: int, hash: Text): Text {
    Stringify(Obj(HeadProps(c, seqNo, hash))) + [NEWLINE]
  }

  function FileText(journal: Option<Text>): Text { if journal.Some? then journal.value else [] }

  /** A journal writer with the two files at its path. */
  class Journal {
    const c: Primitives
    var journal: Option<Text>
    var head: Option<Text>

    constructor (c: Primitives, journal: Option<Text>, head: Option<Text>)
      ensures this.c == c && this.journal == journal && this.head == head
    {
      this.c := c;
      this.journal := journal;
      this.head := head;
    }

    /** Appends an event and pins it, or changes neither file. */
    method Append(input: Input, now: Text, screen: Event -> bool) returns (r: Result<Event, AppendError>)
      modifies this
      ensures r == Outcome(c, old(journal), input, now, screen)
      ensures r.Ok? ==> ReadEvents(c, old(journal)).Some? &&
                        Sealed(c, ReadEvents(c, old(journal)).value, input, now, r.value)
      ensures r == Err(CorruptJournal) <==> Corrupt(c, old(journal))
      ensures r.Ok? ==> journal == Some(FileText(old(journal)) + LineText(r.value) + [NEWLINE])
      ensures r.Ok? ==> head == Some(HeadText(c, r.value.seqNo, r.value.hash))
      ensures r.Err? ==> journal == old(journal) && head == old(head)
    {
      var existing := ReadEvents(c, journal);
      CorruptExactly(c, journal);
      if existing.None? { return Err(CorruptJournal); }
      var event := Seal(c, existing.value, input, now);
      SealExactly(c, existing.value, input, now, event);
      if !Accepts(c, event) { return Err(InvalidEvent); }
      if !screen(event) { return Err(Refused); }
      journal := Some(FileText(journal) + LineText(event) + [NEWLINE]);
      WriteHead(event.seqNo, event.hash);
      r := Ok(event);
    }

    method WriteHead(seqNo: int, hash: Text)
      modifies this`head
      ensures head == Some(HeadText(c, seqNo, hash))
      ensures ReadHead(head) == Ok(Some(HeadProps(c, seqNo, hash)))
      ensures var bytes := PinBytes(seqNo, hash);
              HeadVerifies(c, HeadProps(c, seqNo, hash)) <==> c.verify(bytes, c.sign(bytes))
      ensures forall es: seq<Event> :: HeadVerifies(c, HeadProps(c, seqNo, hash)) && |es| > 0 ==>
                (HeadPins(c, HeadProps(c, seqNo, hash), es) <==>
                   es[|es| - 1].seqNo == seqNo && es[|es| - 1].hash == hash)
    {
      HeadReads(c, seqNo, hash);
      hide HeadProps, HeadVerifies, PinBytes;
      head := Some(HeadText(c, seqNo, hash));
    }
  }

  // ----- Runs -----

  /** One append: its input, the time it reads, whether the screen passes it, and whether the
      process stops between the event write and the head write. */
  datatype Attempt = Attempt(input: Input, ts: Text, passes: bool, stops: bool)

  /** The files, the events written, how many of them the head file pins, and how many each of the
      head files so far has pinned. */
  datatype History = History(
    journal: Option<Text>,
    head: Option<Text>,
    appended: seq<Event>,
    pinned: nat,
    pins: set<nat>)

  function Step(c: Primitives, h: History, a: Attempt): History {
    match Outcome(c, h.journal, a.input, a.ts, _ => a.passes)
    case Err(_) => h
    case Ok(e) =>
      var written := h.(journal := Some(FileText(h.journal) + LineText(e) + [NEWLINE]), appended := h.appended + [e]);
      if a.stops then written
      else
        var n := |written.appended|;
        written.(head := Some(HeadText(c, e.seqNo, e.hash)), pinned := n, pins := h.pins + {n})
  }

  function Run(c: Primitives, attempts: seq<Attempt>): History {
    if |attempts| == 0 then History(None, None, [], 0, {})
    else Step(c, Run(c, attempts[..|attempts| - 1]), attempts[|attempts| - 1])
  }

  /** Payloads are JavaScript objects. */
  ghost predicate ValidAttempts(attempts: seq<Attempt>) {
    forall i :: 0 <= i < |attempts| ==> Valid(Obj(attempts[i].input.payload))
  }

  function LineTexts(es: seq<Event>): (lines: seq<Text>)
    ensures |lines| == |es| && forall i :: 0 <= i < |es| ==> lines[i] == LineText(es[i])
  {
    seq(|es|, i requires 0 <= i < |es| => LineText(es[i]))
  }

  /** The journal file that holds exactly the given events. */
  function FileOf(es: seq<Event>): Option<Text> {
    if |es| == 0 then None else Some(Join(LineTexts(es)))
  }

  ghost predicate GoodEvent(c: Primitives, es: seq<Event>, i: nat)
    requires i < |es|
  {
    SchemaOk(c, es[i]) && Linked(c, es, i) && es[i].signature == c.sign(Bytes(es[i]))
  }

  ghost predicate Consistent(c: Primitives, h: History) {
    && h.journal == FileOf(h.appended)
    && (forall i :: 0 <= i < |h.appended| ==> GoodEvent(c, h.appended, i))
    && (forall n :: n in h.pins ==> 0 < n <= |h.appended|)
    && (if h.pinned == 0 then h.pins == {} else h.pinned in h.pins)
    && h.head == if h.pinned == 0 then None else Some(HeadText(c, h.pinned, h.appended[h.pinned - 1].hash))
  }

  // ----- What a file of written events reads as -----

  lemma LineTextShape(e: Event)
    ensures NEWLINE !in LineText(e) && !IsBlank(LineText(e))
  {
    StringifyPrintable(ToJson(e));
    StringifyStart(ToJson(e));
  }

  lemma {:induction false} LinesGood(c: Primitives, es: seq<Event>)
    requires forall i :: 0 <= i < |es| ==> SchemaOk(c, es[i])
    ensures AllGood(c, LineTexts(es)) && GoodEvents(c, LineTexts(es)) == es
  {
    hide SchemaOk, ParseLine, LineText;
    if |es| > 0 {
      LineReadsBack(c, es[0]);
      LinesGood(c, es[1..]);
      assert LineTexts(es)[1..] == LineTexts(es[1..]);
      assert es == [es[0]] + es[1..];
      assert forall i :: 0 < i < |es| ==> LineTexts(es)[i] == LineTexts(es)[1..][i - 1];
    }
  }

  /** Reading a file of events gives the events back. */
  lemma FileReadsBack(c: Primitives, es: seq<Event>)
    requires |es| > 0 && forall i :: 0 <= i < |es| ==> SchemaOk(c, es[i])
    ensures var lines := LinesOf(FileOf(es).value);
            AllGood(c, lines) && GoodEvents(c, lines) == es
  {
    hide SchemaOk, LineText, IsBlank, LinesOf, Join, AllGood, GoodEvents;
    var lines := LineTexts(es);
    forall i | 0 <= i < |lines| ensures NEWLINE !in lines[i] && !IsBlank(lines[i]) { LineTextShape(es[i]); }
    LinesOfJoined(lines);
    LinesGood(c, es);
  }

  lemma LinesOfJoined(lines: seq<Text>)
    requires forall i :: 0 <= i < |lines| ==> NEWLINE !in lines[i] && !IsBlank(lines[i])
    ensures LinesOf(Join(lines)) == lines
  {
    hide IsBlank, Complete, Partial, NonBlank, Join;
    CompleteJoin(lines, []);
    assert Join(lines) + [] == Join(lines);
    NonBlankConcat(lines, [[]]);
    NonBlankAll(lines);
    NonBlankEmpty();
  }

  lemma FileGrows(es: seq<Event>, e: Event)
    ensures FileOf(es + [e]) == Some(FileText(FileOf(es)) + LineText(e) + [NEWLINE])
  {
    hide LineText, Join;
    assert LineTexts(es + [e]) == LineTexts(es) + [LineText(e)];
    JoinConcat(LineTexts(es), [LineText(e)]);
    JoinSingle(LineText(e));
    if |es| == 0 {
      assert LineTexts(es) == [];
      assert Join(LineTexts(es)) == [];
    }
    assert Join(LineTexts(es)) + (LineText(e) + [NEWLINE]) == Join(LineTexts(es)) + LineText(e) + [NEWLINE];
  }

  lemma JoinSingle(line: Text)
    ensures Join([line]) == line + [NEWLINE] && Join([]) == []
  {
  }

  /** The invariant of every run. */
  lemma {:induction false} RunConsistent(c: Primitives, attempts: seq<Attempt>)
    requires c.WellFormed() && ValidAttempts(attempts)
    ensures Consistent(c, Run(c, attempts))
  {
    hide Consistent, Step;
    if |attempts| == 0 {
      StartConsistent(c);
    } else {
      var n := |attempts| - 1;
      RunConsistent(c, attempts[..n]);
      StepConsistent(c, Run(c, attempts[..n]), attempts[n]);
    }
  }

  lemma StartConsistent(c: Primitives)
    ensures Consistent(c, History(None, None, [], 0, {}))
  {
  }

  lemma ReadsAppended(c: Primitives, h: History)
    requires Consistent(c, h)
    ensures ReadEvents(c, h.journal) == Some(h.appended)
  {
    hide SchemaOk, Linked;
    if |h.appended| > 0 {
      forall i | 0 <= i < |h.appended| ensures SchemaOk(c, h.appended[i]) {
        assert GoodEvent(c, h.appended, i);
      }
      FileReadsBack(c, h.appended);
    }
  }

  lemma SealGood(c: Primitives, es: seq<Event>, input: Input, ts: Text)
    requires forall i :: 0 <= i < |es| ==> GoodEvent(c, es, i)
    requires Valid(Obj(input.payload)) && Accepts(c, Seal(c, es, input, ts))
    ensures var grown := es + [Seal(c, es, input, ts)];
            forall i :: 0 <= i < |grown| ==> GoodEvent(c, grown, i)
  {
    hide Accepts, CanonicalJson;
    var e := Seal(c, es, input, ts);
    var grown := es + [e];
    assert |es| > 0 ==> GoodEvent(c, es, |es| - 1);
    forall i | 0 <= i < |grown| ensures GoodEvent(c, grown, i) {
      if i < |es| {
        assert GoodEvent(c, es, i) && grown[i] == es[i];
        assert PrevOf(grown, i) == PrevOf(es, i);
      } else {
        assert PrevOf(grown, i) == PrevOf(es, i);
      }
    }
  }

  lemma StepConsistent(c: Primitives, h: History, a: Attempt)
    requires c.WellFormed() && Consistent(c, h) && Valid(Obj(a.input.payload))
    ensures Consistent(c, Step(c, h, a))
  {
    hide Accepts, Seal, GoodEvent, LineText, HeadText;
    ReadsAppended(c, h);
    var next := Step(c, h, a);
    var e := Seal(c, h.appended, a.input, a.ts);
    if next.appended != h.appended {
      SealGood(c, h.appended, a.input, a.ts);
      FileGrows(h.appended, e);
      assert next.appended == h.appended + [e];
      LastNumber(c, next.appended);
    }
  }

  lemma LastNumber(c: Primitives, es: seq<Event>)
    requires |es| > 0 && GoodEvent(c, es, |es| - 1)
    ensures es[|es| - 1].seqNo == |es|
  {
  }

  // ----- What a run releases -----

  /** The bytes of the events and of the head checkpoints whose signatures a run has written. */
  ghost function Released(h: History): iset<Text> {
    iset b | IsReleased(h, b)
  }

  ghost predicate IsReleased(h: History, b: Text) {
    exists i :: 0 <= i < |h.appended| && ReleasedAt(h, i, b)
  }

  ghost predicate ReleasedAt(h: History, i: nat, b: Text)
    requires i < |h.appended|
  {
    b == Bytes(h.appended[i]) || (i + 1 in h.pins && b == PinBytes(i + 1, h.appended[i].hash))
  }

  lemma ReleasesAt(h: History, i: nat)
    requires i < |h.appended|
    ensures Bytes(h.appended[i]) in Released(h)
    ensures i + 1 in h.pins ==> PinBytes(i + 1, h.appended[i].hash) in Released(h)
  {
    hide Bytes, PinBytes;
    assert ReleasedAt(h, i, Bytes(h.appended[i]));
    assert i + 1 in h.pins ==> ReleasedAt(h, i, PinBytes(i + 1, h.appended[i].hash));
  }

  // ----- Completeness -----

  lemma {:induction false} HeadReads(c: Primitives, n: int, hash: Text)
    ensures ReadHead(Some(HeadText(c, n, hash))) == Ok(Some(HeadProps(c, n, hash)))
    ensures Get(HeadProps(c, n, hash), Ascii("seq")) == Some(Num(n))
    ensures Get(HeadProps(c, n, hash), Ascii("hash")) == Some(Str(hash))
    ensures HeadVerifies(c, HeadProps(c, n, hash)) <==> c.verify(PinBytes(n, hash), c.sign(PinBytes(n, hash)))
  {
    hide CanonicalJson, Stringify, Parse;
    var ps := HeadProps(c, n, hash);
    HeadPropsShape(ps);
    ParsesWithNewline(Obj(ps));
    assert Get(ps, Ascii("signature")) == Some(ps[2].1);
  }

  lemma HeadPropsShape(ps: Props<Json>)
    requires |ps| == 3 && ps[0].0 == Ascii("seq") && ps[1].0 == Ascii("hash") && ps[2].0 == Ascii("signature")
    requires forall i :: 0 <= i < 3 ==> Valid(ps[i].1)
    ensures Valid(Obj(ps))
    ensures Get(ps, Ascii("seq")) == Some(ps[0].1) && Get(ps, Ascii("hash")) == Some(ps[1].1)
    ensures Get(ps, Ascii("signature")) == Some(ps[2].1)
  {
    assert |Ascii("seq")| == 3 && |Ascii("hash")| == 4 && |Ascii("signature")| == 9;
    assert Ascii("seq")[0] == 115 && Ascii("hash")[0] == 104 && Ascii("signature")[0] == 115;
    assert !IsIndex(ps[0].0) && !IsIndex(ps[1].0) && !IsIndex(ps[2].0);
    assert Ordered(ps);
    assert Distinct(Keys(ps));
    hide Ascii, IsIndex, Get, Ordered;
    GetAt(ps, 0);
    GetAt(ps, 1);
    GetAt(ps, 2);
  }

  lemma ParsesWithNewline(v: Json)
    requires Valid(v)
    ensures Parse(Stringify(v) + [NEWLINE]) == Some(v)
  {
    hide ParseValue, Stringify;
    ReadBack(v, [NEWLINE]);
    StringifyStart(v);
    assert SkipSpace(Stringify(v) + [NEWLINE]) == Stringify(v) + [NEWLINE];
    assert [NEWLINE][1..] == [];
  }

  /** A prefix of the events, as a journal file, is clean in itself; with any head file of the run
      it verifies exactly when that head pins its last event. */
  lemma PrefixVerifies(c: Primitives, attempts: seq<Attempt>, n: nat, m: nat)
    requires c.WellFormed() && ValidAttempts(attempts) && c.Verifies(Released(Run(c, attempts)))
    requires 0 < n <= |Run(c, attempts).appended| && m in Run(c, attempts).pins
    ensures var h := Run(c, attempts);
            var file := FileOf(h.appended[..n]);
            && 0 < m <= |h.appended|
            && GoodEvents(c, LinesOf(file.value)) == h.appended[..n]
            && ChainOk(c, h.appended[..n])
            && (FileOk(c, file, Some(HeadText(c, m, h.appended[m - 1].hash))) <==> n == m)
  {
    hide *;
    RunConsistent(c, attempts);
    var h := Run(c, attempts);
    PinnedHead(c, h, m);
    CleanPrefix(c, h, n);
    HeadPinsLast(c, m, h.appended[m - 1].hash, h.appended[..n]);
    EventNumber(c, h, n);
    FileOkParts(c, FileOf(h.appended[..n]), Some(HeadText(c, m, h.appended[m - 1].hash)));
    FileOfSome(h.appended[..n]);
  }

  lemma FileOfSome(es: seq<Event>)
    requires |es| > 0
    ensures FileOf(es).Some?
  {
  }

  lemma EventNumber(c: Primitives, h: History, n: nat)
    requires Consistent(c, h) && 0 < n <= |h.appended|
    ensures h.appended[n - 1].seqNo == n
  {
    hide FileOf, HeadText;
    assert GoodEvent(c, h.appended, n - 1);
    NumberOf(c, h.appended, n - 1);
  }

  lemma PinnedHead(c: Primitives, h: History, m: nat)
    requires Consistent(c, h) && c.Verifies(Released(h)) && m in h.pins
    ensures 0 < m <= |h.appended|
    ensures var b := PinBytes(m, h.appended[m - 1].hash); c.verify(b, c.sign(b))
  {
    hide FileOf, HeadText, GoodEvent, Released, PinBytes;
    ReleasesAt(h, m - 1);
  }

  /** FileOk in terms of its parts. */
  lemma FileOkParts(c: Primitives, journal: Option<Text>, headFile: Option<Text>)
    ensures FileOk(c, journal, headFile) <==>
            && journal.Some? && AllGood(c, LinesOf(journal.value)) && ChainOk(c, GoodEvents(c, LinesOf(journal.value)))
            && ReadHead(headFile).Ok? && ReadHead(headFile).value.Some?
            && HeadPins(c, ReadHead(headFile).value.value, GoodEvents(c, LinesOf(journal.value)))
  {
  }

  /** A head that the run has written pins the lists that end in its number and hash. */
  lemma HeadPinsLast(c: Primitives, m: int, hash: Text, es: seq<Event>)
    requires |es| > 0 && c.verify(PinBytes(m, hash), c.sign(PinBytes(m, hash)))
    ensures var read := ReadHead(Some(HeadText(c, m, hash)));
            read.Ok? && read.value.Some? &&
            (HeadPins(c, read.value.value, es) <==> es[|es| - 1].seqNo == m && es[|es| - 1].hash == hash)
  {
    hide HeadText, HeadProps, HeadVerifies, PinBytes, ReadHead;
    HeadReads(c, m, hash);
  }

  lemma CleanPrefix(c: Primitives, h: History, n: nat)
    requires Consistent(c, h) && c.Verifies(Released(h)) && 0 < n <= |h.appended|
    ensures var lines := LinesOf(FileOf(h.appended[..n]).value);
            AllGood(c, lines) && GoodEvents(c, lines) == h.appended[..n] && ChainOk(c, h.appended[..n])
  {
    hide GoodEvents, LinesOf, AllGood, Linked, SchemaOk, Bytes, Released;
    var es := h.appended[..n];
    forall i | 0 <= i < |es| ensures SchemaOk(c, es[i]) && LinkOk(c, es, i) {
      assert GoodEvent(c, h.appended, i);
      LinkedPrefix(c, h.appended, n, i);
      ReleasesAt(h, i);
    }
    FileReadsBack(c, es);
  }

  lemma LinkedPrefix(c: Primitives, es: seq<Event>, n: nat, i: nat)
    requires i < n <= |es| && Linked(c, es, i)
    ensures Linked(c, es[..n], i)
  {
    hide Bytes;
  }

  lemma NumberOf(c: Primitives, es: seq<Event>, i: nat)
    requires i < |es| && GoodEvent(c, es, i)
    ensures es[i].seqNo == i + 1
  {
  }

  /** The files that a run leaves verify, with one event counted per successful append, exactly
      when something was appended and the head pins the last event; a stop between the two writes
      unpins it and the next successful append pins it again. */
  lemma RunVerifies(c: Primitives, attempts: seq<Attempt>)
    requires c.WellFormed() && ValidAttempts(attempts) && c.Verifies(Released(Run(c, attempts)))
    ensures var h := Run(c, attempts);
            && (FileOk(c, h.journal, h.head) <==> 0 < |h.appended| == h.pinned)
            && (h.journal.Some? ==> GoodEvents(c, LinesOf(h.journal.value)) == h.appended)
  {
    hide Run, GoodEvents, LinesOf, HeadPins, HeadText, HeadProps, AllGood, GoodEvent, ChainOk, Released;
    RunConsistent(c, attempts);
    var h := Run(c, attempts);
    if |h.appended| > 0 {
      CleanPrefix(c, h, |h.appended|);
      assert h.appended[..|h.appended|] == h.appended;
      if h.pinned > 0 { PrefixVerifies(c, attempts, |h.appended|, h.pinned); }
    }
  }

  /** The effect of one more attempt on what is appended and pinned. */
  lemma AttemptEffect(c: Primitives, attempts: seq<Attempt>, a: Attempt)
    requires c.WellFormed() && ValidAttempts(attempts + [a])
    ensures var h, next := Run(c, attempts), Run(c, attempts + [a]);
            var e := Seal(c, h.appended, a.input, a.ts);
            && Sealed(c, h.appended, a.input, a.ts, e)
            && (Accepts(c, e) && a.passes ==>
                  next.appended == h.appended + [e] &&
                  next.pinned == if a.stops then h.pinned else |next.appended|)
            && (!(Accepts(c, e) && a.passes) ==> next == h)
  {
    SealExactly(c, Run(c, attempts).appended, a.input, a.ts, Seal(c, Run(c, attempts).appended, a.input, a.ts));
    hide Accepts, Seal, Sealed, LineText, HeadText, ReadEvents, Consistent;
    assert (attempts + [a])[..|attempts|] == attempts;
    assert ValidAttempts(attempts) by {
      assert forall i :: 0 <= i < |attempts| ==> (attempts + [a])[i] == attempts[i];
    }
    RunConsistent(c, attempts);
    ReadsAppended(c, Run(c, attempts));
  }

  // ----- Soundness -----

  /** The events are a prefix of the appended ones, in every field but the signature, that some
      head file of the run has pinned, and the head names the end of exactly that prefix. */
  ghost predicate PinnedPrefix(es: seq<Event>, head: Props<Json>, h: History) {
    && |es| in h.pins
    && 0 < |es| <= |h.appended|
    && (forall i :: 0 <= i < |es| ==> SameButSignature(es[i], h.appended[i]))
    && Get(head, Ascii("seq")) == Some(Num(|es|))
    && Get(head, Ascii("hash")) == Some(Str(h.appended[|es| - 1].hash))
  }

  /** Whatever files are presented: if they verify and only bytes released by the run verify under
      the key, then the file holds a prefix of the appended events that the run has pinned, and the
      head pins it. Refused appends release nothing. */
  lemma Soundness(c: Primitives, attempts: seq<Attempt>, journal: Option<Text>, headFile: Option<Text>)
    requires c.WellFormed() && ValidAttempts(attempts)
    requires c.Unforgeable(Released(Run(c, attempts)))
    requires FileOk(c, journal, headFile)
    ensures PinnedPrefix(GoodEvents(c, LinesOf(journal.value)), ReadHead(headFile).value.value, Run(c, attempts))
  {
    hide Run, GoodEvents, LinesOf, ReadHead, AllGood, Bytes, HeadBytes, SameButSignature, SchemaOk, Linked, Released,
      PinBytes, HeadVerifies;
    RunConsistent(c, attempts);
    var h := Run(c, attempts);
    var es := GoodEvents(c, LinesOf(journal.value));
    GoodEventsOk(c, LinesOf(journal.value));
    forall i | 0 <= i < |es| ensures i < |h.appended| && SameButSignature(es[i], h.appended[i]) {
      assert LinkOk(c, es, i);
      VerifiedEvent(c, h, es, i);
    }
    assert LinkOk(c, es, |es| - 1);
    LinkedFacts(c, es, |es| - 1);
    SameFields(es[|es| - 1], h.appended[|es| - 1]);
    var signature := HeadSignatureOf(c, ReadHead(headFile).value.value, es);
    VerifiedHead(c, h, |es|, es[|es| - 1].hash, signature);
  }

  lemma LinkedFacts(c: Primitives, es: seq<Event>, i: nat)
    requires i < |es| && Linked(c, es, i)
    ensures es[i].seqNo == i + 1 && es[i].hash == c.hash(Bytes(es[i]))
  {
  }

  /** An event that verifies at position i is the i-th appended event. */
  lemma VerifiedEvent(c: Primitives, h: History, es: seq<Event>, i: nat)
    requires forall k :: 0 <= k < |h.appended| ==> GoodEvent(c, h.appended, k)
    requires c.Unforgeable(Released(h))
    requires i < |es| && SchemaOk(c, es[i]) && LinkOk(c, es, i)
    ensures i < |h.appended| && SameButSignature(es[i], h.appended[i])
  {
    hide Bytes, HeadBytes, SameButSignature, SchemaOk, Linked;
    var e := es[i];
    assert c.verify(Bytes(e), e.signature);
    assert Bytes(e) in Released(h) && IsReleased(h, Bytes(e));
    var k :| 0 <= k < |h.appended| && ReleasedAt(h, k, Bytes(e));
    BytesNeverHead(c, e, Some(Num(k + 1)), Some(Str(h.appended[k].hash)));
    assert GoodEvent(c, h.appended, k);
    BytesDetermine(c, e, h.appended[k]);
    LinkedFacts(c, es, i);
    LinkedFacts(c, h.appended, k);
    assert h.appended[k].(hash := e.hash) == h.appended[k];
    SameFields(e, h.appended[k]);
  }

  /** A head that verifies is one that the run has written. */
  lemma VerifiedHead(c: Primitives, h: History, n: nat, hash: Text, signature: Text)
    requires forall k :: 0 <= k < |h.appended| ==> GoodEvent(c, h.appended, k)
    requires c.Unforgeable(Released(h)) && c.verify(PinBytes(n, hash), signature)
    ensures n in h.pins
  {
    hide Bytes, HeadBytes, SchemaOk, Linked;
    var b := PinBytes(n, hash);
    assert b in Released(h) && IsReleased(h, b);
    var k :| 0 <= k < |h.appended| && ReleasedAt(h, k, b);
    assert GoodEvent(c, h.appended, k);
    BytesNeverHead(c, h.appended[k], Some(Num(n)), Some(Str(hash)));
    HeadBytesDetermine(Some(Num(n)), Some(Str(hash)), k + 1, h.appended[k].hash);
  }

  lemma HeadSignatureOf(c: Primitives, head: Props<Json>, es: seq<Event>) returns (signature: Text)
    requires HeadPins(c, head, es)
    ensures c.verify(PinBytes(es[|es| - 1].seqNo, es[|es| - 1].hash), signature)
  {
    hide HeadBytes;
    signature := ReadText(Get(head, Ascii("signature"))).value;
  }

  // ----- Both directions -----

  /** Some pair of files with n events verifies. */
  ghost predicate SomeVerifies(c: Primitives, n: nat) {
    exists journal, headFile :: FileOk(c, journal, headFile) && |GoodEvents(c, LinesOf(journal.value))| == n
  }

  /** Under ideal signatures the files that a run leaves verify exactly when the head pins the last
      event. Whatever verifies holds a prefix of the appended events that the run has pinned; and
      every such prefix verifies, so a journal that is cut back together with its head to an
      earlier pinned state is accepted. */
  lemma AcceptsExactly(c: Primitives, attempts: seq<Attempt>)
    requires c.WellFormed() && ValidAttempts(attempts) && c.Ideal(Released(Run(c, attempts)))
    ensures var h := Run(c, attempts);
            && (FileOk(c, h.journal, h.head) <==> 0 < |h.appended| == h.pinned)
            && (forall journal, headFile :: FileOk(c, journal, headFile) ==>
                  PinnedPrefix(GoodEvents(c, LinesOf(journal.value)), ReadHead(headFile).value.value, h))
            && (forall n: nat :: SomeVerifies(c, n) <==> n in h.pins)
  {
    hide Run, GoodEvents, LinesOf, ReadHead, FileOk, Released, HeadText, ChainOk, PinnedPrefix;
    var h := Run(c, attempts);
    RunVerifies(c, attempts);
    forall journal, headFile | FileOk(c, journal, headFile)
      ensures journal.Some? && ReadHead(headFile).Ok? && ReadHead(headFile).value.Some?
      ensures PinnedPrefix(GoodEvents(c, LinesOf(journal.value)), ReadHead(headFile).value.value, h)
      ensures |GoodEvents(c, LinesOf(journal.value))| in h.pins
    {
      FileOkParts(c, journal, headFile);
      Soundness(c, attempts, journal, headFile);
      PrefixPinned(GoodEvents(c, LinesOf(journal.value)), ReadHead(headFile).value.value, h);
    }
    forall n: nat | n in h.pins ensures SomeVerifies(c, n) {
      PinsInRange(c, attempts, n);
      PrefixVerifies(c, attempts, n, n);
      assert FileOk(c, FileOf(h.appended[..n]), Some(HeadText(c, n, h.appended[n - 1].hash)));
    }
  }

  /** A run adds to what it has appended, pinned and released. */
  lemma {:induction false} RunGrows(c: Primitives, attempts: seq<Attempt>, k: nat)
    requires k <= |attempts|
    ensures var g, h := Run(c, attempts[..k]), Run(c, attempts); g.appended <= h.appended && g.pins <= h.pins
  {
    hide Outcome, LineText, HeadText;
    if k == |attempts| {
      assert attempts[..k] == attempts;
    } else {
      var front := attempts[..|attempts| - 1];
      assert front[..k] == attempts[..k];
      RunGrows(c, front, k);
    }
  }

  lemma ReleasedGrows(g: History, h: History)
    requires g.appended <= h.appended && g.pins <= h.pins
    ensures Released(g) <= Released(h)
  {
    hide Bytes, PinBytes;
    forall b | b in Released(g) ensures b in Released(h) {
      assert IsReleased(g, b);
      var i :| 0 <= i < |g.appended| && ReleasedAt(g, i, b);
      assert ReleasedAt(h, i, b);
    }
  }

  /** The files as they were at any earlier time still verify exactly if they did then: what verifies
      need not be the newest state. */
  lemma EarlierFilesVerify(c: Primitives, attempts: seq<Attempt>, k: nat)
    requires c.WellFormed() && ValidAttempts(attempts) && c.Verifies(Released(Run(c, attempts)))
    requires k <= |attempts|
    ensures var h := Run(c, attempts[..k]); FileOk(c, h.journal, h.head) <==> 0 < |h.appended| == h.pinned
  {
    hide Run, Released, FileOk, Valid;
    RunGrows(c, attempts, k);
    ReleasedGrows(Run(c, attempts[..k]), Run(c, attempts));
    RunVerifies(c, attempts[..k]);
  }

  /** Two events are appended; the files after the first one verify as well as those after both. */
  lemma CutBackExample(c: Primitives, input: Input, ts: Text)
    requires c.WellFormed() && Valid(Obj(input.payload)) && |input.kind| > 0 && c.isTimestamp(ts)
    requires input.correlationId.None? && input.gsbReceiptTipHash.None?
    requires var a := Attempt(input, ts, true, false); c.Ideal(Released(Run(c, [a, a])))
    ensures var a := Attempt(input, ts, true, false);
            var g, h := Run(c, [a]), Run(c, [a, a]);
            && |g.appended| == 1 && |h.appended| == 2
            && FileOk(c, g.journal, g.head) && FileOk(c, h.journal, h.head)
  {
    hide Run, Released, FileOk, Valid;
    var a := Attempt(input, ts, true, false);
    AllValid(a);
    AppendsOne(c, [], a);
    AppendsOne(c, [a], a);
    EmptyAppended(c);
    assert [] + [a] == [a] && [a] + [a] == [a, a] && [a, a][..1] == [a] && [a, a][..2] == [a, a];
    EarlierFilesVerify(c, [a, a], 1);
    EarlierFilesVerify(c, [a, a], 2);
  }

  lemma AllValid(a: Attempt)
    requires Valid(Obj(a.input.payload))
    ensures ValidAttempts([]) && ValidAttempts([a]) && ValidAttempts([a, a])
  {
  }

  lemma EmptyAppended(c: Primitives)
    ensures Run(c, []).appended == []
  {
  }

  lemma AppendsOne(c: Primitives, attempts: seq<Attempt>, a: Attempt)
    requires c.WellFormed() && ValidAttempts(attempts) && Valid(Obj(a.input.payload))
    requires |a.input.kind| > 0 && c.isTimestamp(a.ts) && a.passes && !a.stops
    requires a.input.correlationId.None? && a.input.gsbReceiptTipHash.None?
    ensures var g, h := Run(c, attempts), Run(c, attempts + [a]);
            |h.appended| == |g.appended| + 1 == h.pinned
  {
    hide Run, Bytes, IsHash, IsSignature, Valid;
    RunConsistent(c, attempts);
    var h := Run(c, attempts);
    if |h.appended| > 0 { LastGood(c, h); }
    AttemptEffect(c, attempts, a);
  }

  lemma LastGood(c: Primitives, h: History)
    requires Consistent(c, h) && |h.appended| > 0
    ensures h.appended[|h.appended| - 1].seqNo >= 0 && IsHash(h.appended[|h.appended| - 1].hash)
  {
    assert GoodEvent(c, h.appended, |h.appended| - 1);
  }

  lemma PrefixPinned(es: seq<Event>, head: Props<Json>, h: History)
    requires PinnedPrefix(es, head, h)
    ensures |es| in h.pins
  {
  }

  lemma PinsInRange(c: Primitives, attempts: seq<Attempt>, n: nat)
    requires c.WellFormed() && ValidAttempts(attempts) && n in Run(c, attempts).pins
    ensures 0 < n <= |Run(c, attempts).appended|
  {
    hide Run, GoodEvent;
    RunConsistent(c, attempts);
  }

  /** Ideal signatures are possible: for any digests and signatures and any run, verification that
      accepts exactly what the run has released, and that leaves the run as it is. */
  lemma IdealExists(c: Primitives, attempts: seq<Attempt>) returns (ideal: Primitives)
    requires c.WellFormed() && ValidAttempts(attempts)
    ensures ideal == c.(verify := ideal.verify) && ideal.WellFormed()
    ensures Run(ideal, attempts) == Run(c, attempts)
    ensures ideal.Ideal(Released(Run(ideal, attempts)))
  {
    hide Run, Released;
    var released := Released(Run(c, attempts));
    ideal := c.(verify := (b, s) => b in released && s == c.sign(b));
    RunIgnoresVerify(c, ideal, attempts);
  }

  lemma {:induction false} RunIgnoresVerify(c: Primitives, d: Primitives, attempts: seq<Attempt>)
    requires c.WellFormed() && d == c.(verify := d.verify) && ValidAttempts(attempts)
    ensures Run(d, attempts) == Run(c, attempts)
  {
    hide Consistent, ReadEvents, Bytes, LineText;
    if |attempts| > 0 {
      var front := attempts[..|attempts| - 1];
      RunIgnoresVerify(c, d, front);
      RunConsistent(c, front);
      RunConsistent(d, front);
      ReadsAppended(c, Run(c, front));
      ReadsAppended(d, Run(d, front));
    }
  }
}
