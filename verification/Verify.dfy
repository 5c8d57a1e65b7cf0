/** The offline verifier: what it checks of a journal file and its signed head checkpoint. */
module Verify {
  import opened Utf16
  import opened Wrappers
  import opened Records
  import opened JsonText
  import opened Lines
  import opened Events

  datatype ChainError = BadSeq(seqNo: int) | BadLink(seqNo: int) | BadHash(seqNo: int) | BadSignature(seqNo: int)

  datatype FileError =
    | NotFound
    | NotJson(line: nat)
    | NotEvent(line: nat)
    | Chain(error: ChainError)
    | NoHead
    | HeadSignature
    | EmptyJournal
    | TailMismatch

  datatype VerifyResult = VerifyResult(ok: bool, count: nat, errors: seq<FileError>)

  /** A head file that is not JSON makes the verifier throw. */
  datatype HeadSyntaxError = HeadSyntaxError

  // ----- Events -----

  function PrevOf(es: seq<Event>, i: nat): Option<Text>
    requires i <= |es|
  {
    if i == 0 then None else Some(es[i - 1].hash)
  }

  ghost predicate Linked(c: Primitives, es: seq<Event>, i: nat)
    requires i < |es|
  {
    && es[i].seqNo == i + 1
    && es[i].prevHash == PrevOf(es, i)
    && c.hash(Bytes(es[i])) == es[i].hash
  }

  ghost predicate LinkOk(c: Primitives, es: seq<Event>, i: nat)
    requires i < |es|
  {
    && Linked(c, es, i)
    && c.verify(Bytes(es[i]), es[i].signature)
  }

  /** The events are numbered from 1, each links to the one before, and every hash and signature
      is right. */
  ghost predicate ChainOk(c: Primitives, es: seq<Event>) {
    forall i :: 0 <= i < |es| ==> LinkOk(c, es, i)
  }

  /** What is wrong with one event of a list. */
  ghost predicate Fault(c: Primitives, es: seq<Event>, i: nat, e: ChainError)
    requires i < |es|
  {
    && e.seqNo == es[i].seqNo
    && match e
       case BadSeq(_) => es[i].seqNo != i + 1
       case BadLink(_) => es[i].prevHash != PrevOf(es, i)
       case BadHash(_) => c.hash(Bytes(es[i])) != es[i].hash
       case BadSignature(_) => !c.verify(Bytes(es[i]), es[i].signature)
  }

  ghost predicate ChainFault(c: Primitives, es: seq<Event>, e: ChainError) {
    exists i :: 0 <= i < |es| && Fault(c, es, i, e)
  }

  /** Reports exactly the faults, and so nothing on a correct chain. */
  method VerifyEvents(c: Primitives, es: seq<Event>) returns (errors: seq<ChainError>)
    ensures errors == [] <==> ChainOk(c, es)
    ensures forall e :: e in errors <==> ChainFault(c, es, e)
  {
    errors := [];
    var expectedPrev: Option<Text> := None;
    var expectedSeq := 1;
    for i := 0 to |es|
      invariant expectedPrev == PrevOf(es, i) && expectedSeq == i + 1
      invariant errors == [] <==> forall k :: 0 <= k < i ==> LinkOk(c, es, k)
      invariant forall e :: e in errors <==> exists k :: 0 <= k < i && Fault(c, es, k, e)
    {
      hide Bytes;
      ghost var before := errors;
      var e := es[i];
      var bytes := Bytes(e);
      if e.seqNo != expectedSeq { errors := errors + [BadSeq(e.seqNo)]; }
      if e.prevHash != expectedPrev { errors := errors + [BadLink(e.seqNo)]; }
      if c.hash(bytes) != e.hash { errors := errors + [BadHash(e.seqNo)]; }
      if !c.verify(bytes, e.signature) { errors := errors + [BadSignature(e.seqNo)]; }
      assert errors == [] <==> before == [] && LinkOk(c, es, i);
      assert forall x :: x in errors <==> x in before || Fault(c, es, i, x);
      expectedPrev := Some(e.hash);
      expectedSeq := expectedSeq + 1;
    }
  }

  // ----- The journal file -----

  /** The non-blank lines that are events, in order. */
  function GoodEvents(c: Primitives, lines: seq<Text>): seq<Event> {
    if |lines| == 0 then []
    else
      match ParseLine(c, lines[0])
      case None => GoodEvents(c, lines[1..])
      case Some(e) => [e] + GoodEvents(c, lines[1..])
  }

  function LinesOf(journal: Text): seq<Text> { NonBlank(Split(journal)) }

  predicate AllGood(c: Primitives, lines: seq<Text>) {
    forall i :: 0 <= i < |lines| ==> ParseLine(c, lines[i]).Some?
  }

  /** The lines spell these events, one each, in order. */
  ghost predicate AllRead(c: Primitives, lines: seq<Text>, es: seq<Event>) {
    |es| == |lines| && forall i :: 0 <= i < |lines| ==> ReadsAs(c, lines[i], es[i])
  }

  /** The lines of a file: its parts between newlines that hold more than white space, in order. */
  lemma LinesExactly(journal: Text, lines: seq<Text>)
    ensures LinesOf(journal) == lines <==> exists parts, picks :: Breaks(parts, journal) && Picks(picks, parts, lines)
  {
    hide Split, NonBlank, Breaks, Picks;
    SplitExactly(journal, Split(journal));
    NonBlankExactly(Split(journal), lines);
    if parts, picks :| Breaks(parts, journal) && Picks(picks, parts, lines) { SplitExactly(journal, parts); }
  }

  /** All lines are good and stand for these events exactly if they spell them. */
  lemma {:induction false} AllGoodExactly(c: Primitives, lines: seq<Text>, es: seq<Event>)
    ensures AllGood(c, lines) && GoodEvents(c, lines) == es <==> AllRead(c, lines, es)
  {
    hide ParseLine, ReadsAs;
    if |lines| == 0 {
      assert AllRead(c, lines, es) <==> es == [];
    } else {
      var tail := lines[1..];
      if |es| > 0 {
        ParseLineExactly(c, lines[0], es[0]);
        AllGoodExactly(c, tail, es[1..]);
        assert es == [es[0]] + es[1..] && ([es[0]] + es[1..])[1..] == es[1..];
        assert forall i :: 0 < i < |lines| ==> lines[i] == tail[i - 1];
        assert forall i :: 0 < i < |es| ==> es[i] == es[1..][i - 1];
        assert AllGood(c, lines) <==> ParseLine(c, lines[0]).Some? && AllGood(c, tail);
        assert AllRead(c, lines, es) <==> ReadsAs(c, lines[0], es[0]) && AllRead(c, tail, es[1..]);
      }
    }
  }

  lemma NoEvent(c: Primitives, line: Text)
    ensures ParseLine(c, line).None? <==> forall event :: !ReadsAs(c, line, event)
  {
    hide ParseLine, ReadsAs;
    forall event ensures ParseLine(c, line) == Some(event) <==> ReadsAs(c, line, event) {
      ParseLineExactly(c, line, event);
    }
    if ParseLine(c, line).Some? { assert ReadsAs(c, line, ParseLine(c, line).value); }
  }

  lemma {:induction false} GoodEventsConcat(c: Primitives, a: seq<Text>, b: seq<Text>)
    ensures GoodEvents(c, a + b) == GoodEvents(c, a) + GoodEvents(c, b)
  {
    hide ParseLine;
    if |a| == 0 {
      assert a + b == b;
    } else {
      GoodEventsConcat(c, a[1..], b);
      assert (a + b)[1..] == a[1..] + b;
    }
  }

  lemma {:induction false} GoodEventsOk(c: Primitives, lines: seq<Text>)
    ensures forall i :: 0 <= i < |GoodEvents(c, lines)| ==> SchemaOk(c, GoodEvents(c, lines)[i])
  {
    hide ParseLine, SchemaOk;
    if |lines| > 0 {
      ParseLineOk(c, lines[0]);
      GoodEventsOk(c, lines[1..]);
    }
  }

  // ----- The head checkpoint -----

  /** What readHead makes of the head file. A value that JavaScript counts as false is no head;
      a value that is not an object has no properties. */
  function ReadHead(text: Option<Text>): Result<Option<Props<Json>>, HeadSyntaxError> {
    match text
    case None => Ok(None)
    case Some(t) =>
      match Parse(t)
      case None => Err(HeadSyntaxError)
      case Some(v) =>
        if v == Null || v == Bool(false) || v == Num(0) || v == Str([]) then Ok(None)
        else if v.Obj? then Ok(Some(v.props))
        else Ok(Some([]))
  }

  predicate HeadVerifies(c: Primitives, head: Props<Json>) {
    match ReadText(Get(head, Ascii("signature")))
    case Some(s) => c.verify(HeadBytes(Get(head, Ascii("seq")), Get(head, Ascii("hash"))), s)
    case None => false
  }

  /** What a head file is: none if there is no file, or it holds one of the four values that JavaScript
      counts as false; the properties of the object in it; no properties if it holds any other value;
      and it makes the verifier throw exactly if it is no JSON. */
  lemma HeadFileExactly(text: Option<Text>)
    ensures ReadHead(text) == Ok(None) <==>
              text == None || Parse(text.value) in {Some(Null), Some(Bool(false)), Some(Num(0)), Some(Str([]))}
    ensures forall ps :: ReadHead(text) == Ok(Some(ps)) <==>
              text != None && (Parse(text.value) == Some(Obj(ps)) ||
                               (ps == [] && (Parse(text.value) == Some(Bool(true)) || OtherValue(Parse(text.value)))))
    ensures ReadHead(text).Err? <==> text != None && Parse(text.value) == None
  {
    hide Parse;
  }

  /** An array, a number other than 0 or a text other than the empty one. */
  ghost predicate OtherValue(v: Option<Json>) {
    v.Some? && (v.value.Arr? || (v.value.Num? && v.value.n != 0) || (v.value.Str? && v.value.s != []))
  }

  /** A head verifies exactly if it has a signature that is a string and verifies for its number and
      its hash. */
  lemma HeadVerifiesExactly(c: Primitives, head: Props<Json>)
    ensures HeadVerifies(c, head) <==>
              exists s :: Get(head, Ascii("signature")) == Some(Str(s)) &&
                c.verify(HeadBytes(Get(head, Ascii("seq")), Get(head, Ascii("hash"))), s)
  {
    hide HeadBytes, Ascii;
  }

  /** The head checkpoint is signed and names the last event. */
  ghost predicate HeadPins(c: Primitives, head: Props<Json>, es: seq<Event>) {
    && HeadVerifies(c, head)
    && |es| > 0
    && Get(head, Ascii("seq")) == Some(Num(es[|es| - 1].seqNo))
    && Get(head, Ascii("hash")) == Some(Str(es[|es| - 1].hash))
  }

  /** What a clean verification means. */
  ghost predicate FileOk(c: Primitives, journal: Option<Text>, headFile: Option<Text>) {
    && journal.Some?
    && var lines := LinesOf(journal.value);
       var es := GoodEvents(c, lines);
    && AllGood(c, lines)
    && ChainOk(c, es)
    && ReadHead(headFile).Ok?
    && ReadHead(headFile).value.Some?
    && HeadPins(c, ReadHead(headFile).value.value, es)
  }

  ghost predicate LineFault(c: Primitives, lines: seq<Text>, i: nat, e: FileError)
    requires i < |lines|
  {
    if Parse(lines[i]).None? then e == NotJson(i + 1)
    else e == NotEvent(i + 1) && forall event :: !ReadsAs(c, lines[i], event)
  }

  /** What is wrong with the head, if anything. */
  function HeadFault(c: Primitives, head: Option<Props<Json>>, es: seq<Event>): (e: Option<FileError>)
    ensures e.None? <==> head.Some? && HeadPins(c, head.value, es)
  {
    if head.None? then Some(NoHead)
    else if !HeadVerifies(c, head.value) then Some(HeadSignature)
    else if |es| == 0 then Some(EmptyJournal)
    else if Get(head.value, Ascii("seq")) != Some(Num(es[|es| - 1].seqNo)) ||
            Get(head.value, Ascii("hash")) != Some(Str(es[|es| - 1].hash)) then Some(TailMismatch)
    else None
  }

  /** Everything that there is to report about a journal file and its head. */
  ghost predicate FileFault(c: Primitives, journal: Text, head: Option<Props<Json>>, e: FileError) {
    var lines := LinesOf(journal);
    var es := GoodEvents(c, lines);
    || (exists i :: 0 <= i < |lines| && LineFault(c, lines, i, e))
    || (e.Chain? && ChainFault(c, es, e.error))
    || HeadFault(c, head, es) == Some(e)
  }

  method VerifyJournalFile(c: Primitives, journal: Option<Text>, headFile: Option<Text>)
    returns (r: Result<VerifyResult, HeadSyntaxError>)
    ensures r.Err? <==> journal.Some? && ReadHead(headFile).Err?
    ensures r.Ok? ==> (r.value.ok <==> FileOk(c, journal, headFile))
    ensures r.Ok? && r.value.ok ==> AllRead(c, LinesOf(journal.value), GoodEvents(c, LinesOf(journal.value)))
    ensures r.Ok? ==> r.value.ok == (r.value.errors == [])
    ensures r.Ok? ==> r.value.count == if journal.Some? then |GoodEvents(c, LinesOf(journal.value))| else 0
    ensures r.Ok? && journal.None? ==> r.value.errors == [NotFound]
    ensures r.Ok? && journal.Some? ==>
              forall e :: e in r.value.errors <==> FileFault(c, journal.value, ReadHead(headFile).value, e)
  {
    hide ParseLine, HeadVerifies, HeadFault, LineFault, ChainFault, LinesOf, ChainOk, HeadPins, AllRead;
    if journal.None? { return Ok(VerifyResult(false, 0, [NotFound])); }
    var lines := LinesOf(journal.value);
    AllGoodExactly(c, lines, GoodEvents(c, lines));
    var es, lineErrors := ParseLines(c, lines);
    var chain := VerifyEvents(c, es);
    var chainErrors := seq(|chain|, i requires 0 <= i < |chain| => Chain(chain[i]));
    ChainErrors(chain, chainErrors);
    var errors := lineErrors + chainErrors;
    if ReadHead(headFile).Err? { return Err(HeadSyntaxError); }
    var headError := CheckHead(c, ReadHead(headFile).value, es);
    if headError.Some? { errors := errors + [headError.value]; }
    r := Ok(VerifyResult(errors == [], |es|, errors));
  }

  lemma ChainErrors(chain: seq<ChainError>, errors: seq<FileError>)
    requires |errors| == |chain| && forall i :: 0 <= i < |chain| ==> errors[i] == Chain(chain[i])
    ensures forall e: FileError :: e in errors <==> e.Chain? && e.error in chain
  {
    forall e: FileError | e.Chain? && e.error in chain ensures e in errors {
      var i :| 0 <= i < |chain| && chain[i] == e.error;
      assert errors[i] == e;
    }
  }

  /** The line pass: every bad line is reported, the good ones are collected. */
  method ParseLines(c: Primitives, lines: seq<Text>) returns (es: seq<Event>, errors: seq<FileError>)
    ensures es == GoodEvents(c, lines)
    ensures errors == [] <==> AllGood(c, lines)
    ensures forall e :: e in errors <==> exists i :: 0 <= i < |lines| && LineFault(c, lines, i, e)
  {
    hide FromJson, Parse, ReadsAs;
    es, errors := [], [];
    for i := 0 to |lines|
      invariant es == GoodEvents(c, lines[..i])
      invariant errors == [] <==> AllGood(c, lines[..i])
      invariant forall e :: e in errors <==> exists k :: 0 <= k < i && LineFault(c, lines, k, e)
    {
      ghost var before := errors;
      assert lines[..i + 1] == lines[..i] + [lines[i]];
      GoodEventsConcat(c, lines[..i], [lines[i]]);
      NoEvent(c, lines[i]);
      match Parse(lines[i]) {
        case None =>
          errors := errors + [NotJson(i + 1)];
          assert ParseLine(c, lines[..i + 1][i]).None?;
        case Some(json) =>
          match FromJson(c, json) {
            case None =>
              errors := errors + [NotEvent(i + 1)];
              assert ParseLine(c, lines[..i + 1][i]).None?;
            case Some(e) => es := es + [e];
          }
      }
      assert forall x :: x in errors <==> x in before || LineFault(c, lines, i, x);
    }
    assert lines[..|lines|] == lines;
  }

  method CheckHead(c: Primitives, head: Option<Props<Json>>, es: seq<Event>) returns (error: Option<FileError>)
    ensures error == HeadFault(c, head, es)
  {
    hide HeadVerifies;
    if head.None? { return Some(NoHead); }
    if !HeadVerifies(c, head.value) { return Some(HeadSignature); }
    if |es| == 0 { return Some(EmptyJournal); }
    var last := es[|es| - 1];
    var named, hashed := Get(head.value, Ascii("seq")), Get(head.value, Ascii("hash"));
    if named != Some(Num(last.seqNo)) || hashed != Some(Str(last.hash)) {
      return Some(TailMismatch);
    }
    error := None;
  }

  // ----- What the hash chain alone binds -----

  /** Two different texts with the same digest. */
  ghost predicate Collision(c: Primitives, x: Text, y: Text) { x != y && c.hash(x) == c.hash(y) }

  /** Walks two chains back from their last events and returns the covered bytes of the first two
      events that differ. */
  function FirstDifference(es: seq<Event>, fs: seq<Event>): Option<(Text, Text)>
    decreases |es|
  {
    if |es| == 0 || |fs| == 0 then None
    else
      var e, f := es[|es| - 1], fs[|fs| - 1];
      if Bytes(e) != Bytes(f) then Some((Bytes(e), Bytes(f)))
      else FirstDifference(es[..|es| - 1], fs[..|fs| - 1])
  }

  lemma ChainPrefix(c: Primitives, es: seq<Event>, n: nat)
    requires ChainOk(c, es) && n <= |es|
    ensures ChainOk(c, es[..n])
  {
    forall i | 0 <= i < n ensures LinkOk(c, es[..n], i) { assert LinkOk(c, es, i); }
  }

  /** Two clean chains with the same last hash agree in length and in every field but the
      signature, or their bytes exhibit a collision of the hash function. */
  lemma {:induction false} ChainBinding(c: Primitives, es: seq<Event>, fs: seq<Event>)
    requires |es| > 0 && |fs| > 0 && es[|es| - 1].hash == fs[|fs| - 1].hash
    requires ChainOk(c, es) && ChainOk(c, fs)
    requires forall i :: 0 <= i < |es| ==> SchemaOk(c, es[i])
    requires forall i :: 0 <= i < |fs| ==> SchemaOk(c, fs[i])
    ensures match FirstDifference(es, fs)
            case Some((x, y)) => Collision(c, x, y)
            case None => |es| == |fs| && forall i :: 0 <= i < |es| ==> SameButSignature(es[i], fs[i])
    decreases |es|
  {
    hide Bytes, SameButSignature, SchemaOk;
    var m, n := |es| - 1, |fs| - 1;
    assert LinkOk(c, es, m) && LinkOk(c, fs, n);
    if Bytes(es[m]) == Bytes(fs[n]) {
      BytesDetermine(c, es[m], fs[n]);
      SameFields(es[m], fs[n]);
      assert fs[n].(hash := es[m].hash) == fs[n];
      if m > 0 && n > 0 {
        ChainPrefix(c, es, m);
        ChainPrefix(c, fs, n);
        ChainBinding(c, es[..m], fs[..n]);
      }
    }
  }

  lemma SameFields(e: Event, f: Event)
    requires SameButSignature(e, f)
    ensures e.seqNo == f.seqNo && e.prevHash == f.prevHash && e.hash == f.hash
  {
  }
}
