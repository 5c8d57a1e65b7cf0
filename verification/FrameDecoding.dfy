/** The streaming frame decoder, and when its results do not depend on how a stream is cut into
    chunks. */
module FrameDecoding {
  import opened Utf16
  import opened Wrappers
  import opened Records
  import opened JsonText
  import opened Lines
  import opened Protocol

  const MAX_FRAME_BYTES: nat := 1_048_576

  datatype ProtocolError = BadFrame | Oversize

  /** The messages in the non-blank lines; None when a line does not decode. */
  function DecodeLines(lines: seq<Text>): Option<seq<Message>> {
    if |lines| == 0 then Some([])
    else if IsBlank(lines[0]) then DecodeLines(lines[1..])
    else
      match (Decode(lines[0]), DecodeLines(lines[1..]))
      case (Some(m), Some(rest)) => Some([m] + rest)
      case _ => None
  }

  /** What a push returns or throws, given everything received since the last newline. */
  function PushResult(received: Text): Result<seq<Message>, ProtocolError> {
    match DecodeLines(Complete(received))
    case None => Err(BadFrame)
    case Some(messages) => if |Partial(received)| > MAX_FRAME_BYTES then Err(Oversize) else Ok(messages)
  }

  class FrameDecoder {
    var buffer: Text

    constructor ()
      ensures buffer == []
    {
      buffer := [];
    }

    /** Adds a chunk and takes out the complete lines. A throw leaves the decoder unusable: the
        caller drops the connection. */
    method Push(chunk: Text) returns (r: Result<seq<Message>, ProtocolError>)
      modifies this
      ensures r == PushResult(old(buffer) + chunk)
      ensures r.Ok? ==> buffer == Partial(old(buffer) + chunk) && |buffer| <= MAX_FRAME_BYTES
    {
      hide Decode, IsBlank, DecodeLines, Complete, Partial, IndexOfNewline;
      buffer := buffer + chunk;
      ghost var received := buffer;
      ghost var taken: seq<Text> := [];
      var out: seq<Message> := [];
      var newlineIdx := IndexOfNewline(buffer);
      NothingTaken(buffer);
      while newlineIdx.Some?
        invariant newlineIdx == IndexOfNewline(buffer)
        invariant Complete(received) == taken + Complete(buffer) && Partial(received) == Partial(buffer)
        invariant DecodeLines(taken) == Some(out)
        decreases |buffer|
      {
        NextLine(buffer);
        var line := buffer[..newlineIdx.value];
        buffer := buffer[newlineIdx.value + 1..];
        DecodeOneMore(taken, line);
        assert Complete(received) == (taken + [line]) + Complete(buffer);
        if !IsBlank(line) {
          var m := Decode(line);
          if m.None? {
            DecodeFails(taken + [line], Complete(buffer));
            return Err(BadFrame);
          }
          out := out + [m.value];
        }
        taken := taken + [line];
        newlineIdx := IndexOfNewline(buffer);
      }
      NextLine(buffer);
      assert Complete(received) == taken;
      if |buffer| > MAX_FRAME_BYTES { return Err(Oversize); }
      r := Ok(out);
    }
  }

  lemma NothingTaken(buffer: Text)
    ensures DecodeLines([]) == Some([]) && Complete(buffer) == [] + Complete(buffer)
  {
  }

  /** Taking out the first complete line, if there is one. */
  lemma NextLine(buffer: Text)
    ensures match IndexOfNewline(buffer)
            case None => Complete(buffer) == [] && Partial(buffer) == buffer
            case Some(i) =>
              Complete(buffer) == [buffer[..i]] + Complete(buffer[i + 1..]) &&
              Partial(buffer) == Partial(buffer[i + 1..])
  {
  }

  lemma {:induction false} DecodeConcat(a: seq<Text>, b: seq<Text>)
    ensures DecodeLines(a + b) ==
            if DecodeLines(a).Some? && DecodeLines(b).Some?
            then Some(DecodeLines(a).value + DecodeLines(b).value) else None
  {
    hide Decode, IsBlank;
    if |a| == 0 {
      assert a + b == b;
      if DecodeLines(b).Some? { assert [] + DecodeLines(b).value == DecodeLines(b).value; }
    } else {
      assert (a + b)[1..] == a[1..] + b;
      DecodeConcat(a[1..], b);
      if !IsBlank(a[0]) && Decode(a[0]).Some? && DecodeLines(a[1..]).Some? && DecodeLines(b).Some? {
        ConcatAssociative([Decode(a[0]).value], DecodeLines(a[1..]).value, DecodeLines(b).value);
      }
    }
  }

  lemma ConcatAssociative<T>(a: seq<T>, b: seq<T>, c: seq<T>)
    ensures (a + b) + c == a + (b + c)
  {
  }

  lemma DecodeOneMore(taken: seq<Text>, line: Text)
    requires DecodeLines(taken).Some?
    ensures DecodeLines(taken + [line]) ==
            if IsBlank(line) then DecodeLines(taken)
            else match Decode(line) case None => None case Some(m) => Some(DecodeLines(taken).value + [m])
  {
    hide Decode, IsBlank;
    DecodeConcat(taken, [line]);
    assert [line][1..] == [];
    if Decode(line).Some? { assert [Decode(line).value] + [] == [Decode(line).value]; }
    assert DecodeLines(taken).value + [] == DecodeLines(taken).value;
  }

  lemma DecodeFails(a: seq<Text>, b: seq<Text>)
    requires DecodeLines(a).None?
    ensures DecodeLines(a + b).None?
  {
    DecodeConcat(a, b);
  }

  // ----- Streams -----

  function Concat(chunks: seq<Text>): Text {
    if |chunks| == 0 then [] else chunks[0] + Concat(chunks[1..])
  }

  /** Pushing chunk after chunk: the messages returned so far and the buffer, or the first throw. */
  datatype Stream = Stream(messages: seq<Message>, buffer: Text) | Broken(error: ProtocolError)

  function PushOne(s: Stream, chunk: Text): Stream {
    match s
    case Broken(_) => s
    case Stream(messages, buffer) =>
      match PushResult(buffer + chunk)
      case Err(e) => Broken(e)
      case Ok(more) => Stream(messages + more, Partial(buffer + chunk))
  }

  function PushAll(s: Stream, chunks: seq<Text>): Stream
    decreases |chunks|
  {
    if |chunks| == 0 then s else PushAll(PushOne(s, chunks[0]), chunks[1..])
  }

  ghost predicate WithinLimit(t: Text) {
    (forall i :: 0 <= i < |Complete(t)| ==> |Complete(t)[i]| <= MAX_FRAME_BYTES) && |Partial(t)| <= MAX_FRAME_BYTES
  }

  /** More text only completes the last line. */
  lemma CompleteConcat(a: Text, b: Text)
    ensures Complete(a + b) == Complete(a) + Complete(Partial(a) + b)
    ensures Partial(a + b) == Partial(Partial(a) + b)
  {
    hide Complete, Partial, Join;
    var rest := Partial(a) + b;
    JoinComplete(a);
    JoinComplete(rest);
    JoinConcat(Complete(a), Complete(rest));
    assert a + b == Join(Complete(a)) + (Partial(a) + b);
    ConcatAssociative(Join(Complete(a)), Join(Complete(rest)), Partial(rest));
    assert a + b == Join(Complete(a) + Complete(rest)) + Partial(rest);
    var lines := Complete(a) + Complete(rest);
    assert forall i :: 0 <= i < |lines| ==> NEWLINE !in lines[i];
    CompleteJoin(lines, Partial(rest));
  }

  /** What has been received never exceeds the limits of the whole stream, except that a line cut
      short is shorter. */
  lemma PrefixWithinLimit(a: Text, b: Text)
    requires WithinLimit(a + b)
    ensures |Partial(a)| <= MAX_FRAME_BYTES
  {
    CompleteConcat(a, b);
    var rest := Partial(a) + b;
    match IndexOfNewline(rest)
    case None => assert Partial(rest) == rest;
    case Some(i) =>
      var all := Complete(a + b);
      assert Complete(rest)[0] == rest[..i];
      assert all[|Complete(a)|] == rest[..i];
      assert forall k :: 0 <= k < |Partial(a)| ==> rest[k] != NEWLINE;
  }

  /** The state after pushing chunks is what decoding the whole text in one piece gives. */
  lemma {:induction false} PushAllDecodes(received: Text, chunks: seq<Text>)
    requires WithinLimit(received + Concat(chunks))
    requires DecodeLines(Complete(received + Concat(chunks))).Some?
    requires DecodeLines(Complete(received)).Some?
    ensures var whole := received + Concat(chunks);
            PushAll(Stream(DecodeLines(Complete(received)).value, Partial(received)), chunks) ==
            Stream(DecodeLines(Complete(whole)).value, Partial(whole))
    decreases |chunks|
  {
    hide DecodeLines, Complete, Partial, WithinLimit;
    if |chunks| == 0 {
      assert received + Concat(chunks) == received;
    } else {
      var next := received + chunks[0];
      var rest := Concat(chunks[1..]);
      assert received + Concat(chunks) == next + rest;
      CompleteConcat(next, rest);
      CompleteConcat(received, chunks[0]);
      DecodeConcat(Complete(next), Complete(Partial(next) + rest));
      DecodeConcat(Complete(received), Complete(Partial(received) + chunks[0]));
      PrefixWithinLimit(next, rest);
      PushAllDecodes(next, chunks[1..]);
    }
  }

  /** However a stream is cut, the messages are those of its lines and the buffer is its partial
      last line, provided that every line decodes and is within the limit. */
  lemma ChunkIndependent(chunks: seq<Text>)
    requires WithinLimit(Concat(chunks)) && DecodeLines(Complete(Concat(chunks))).Some?
    ensures PushAll(Stream([], []), chunks) ==
            Stream(DecodeLines(Complete(Concat(chunks))).value, Partial(Concat(chunks)))
  {
    assert [] + Concat(chunks) == Concat(chunks);
    PushAllDecodes([], chunks);
  }

  // ----- The limit is exactly what chunk independence needs -----

  ghost predicate Cuts(chunks: seq<Text>, t: Text) { Concat(chunks) == t }

  ghost predicate NoneLonger(parts: seq<Text>, size: int) { forall i :: 0 <= i < |parts| ==> |parts[i]| <= size }

  lemma WithinExactly(t: Text)
    ensures WithinLimit(t) <==> exists parts :: Breaks(parts, t) && NoneLonger(parts, 1024 * 1024)
  {
    hide Breaks;
    SplitExactly(t, Split(t));
    if parts :| Breaks(parts, t) && NoneLonger(parts, 1024 * 1024) {
      SplitExactly(t, parts);
      assert forall i :: 0 <= i < |Complete(t)| ==> parts[i] == Complete(t)[i];
      assert parts[|Complete(t)|] == Partial(t);
    }
  }

  /** For a stream whose lines decode, every cutting is accepted exactly when every line is within
      the limit: the decoder measures only the unterminated rest of the buffer, so a longer line
      is taken when it arrives in one chunk and refused when it is cut before its newline. */
  lemma LimitExactly(t: Text)
    requires DecodeLines(Complete(t)).Some?
    ensures WithinLimit(t) <==> exists parts :: Breaks(parts, t) && NoneLonger(parts, 1024 * 1024)
    ensures WithinLimit(t) <==> forall chunks :: Cuts(chunks, t) ==> PushAll(Stream([], []), chunks).Stream?
  {
    WithinExactly(t);
    hide DecodeLines, WithinLimit;
    if WithinLimit(t) {
      forall chunks | Cuts(chunks, t) ensures PushAll(Stream([], []), chunks).Stream? { ChunkIndependent(chunks); }
    } else {
      var k := LongLine(t);
      var chunks := [t[..k], t[k..]];
      assert chunks[1..] == [t[k..]];
      assert Concat([t[k..]]) == t[k..] + Concat([]);
      assert t[..k] + t[k..] == t;
      assert Cuts(chunks, t);
      assert [] + t[..k] == t[..k];
      assert PushOne(Stream([], []), t[..k]).Broken?;
      BrokenStays(PushOne(Stream([], []), t[..k]), chunks[1..]);
    }
  }

  lemma {:induction false} BrokenStays(s: Stream, chunks: seq<Text>)
    requires s.Broken?
    ensures PushAll(s, chunks) == s
    decreases |chunks|
  {
    if |chunks| > 0 { BrokenStays(s, chunks[1..]); }
  }

  /** Where a line that exceeds the limit ends. */
  lemma LongLine(t: Text) returns (k: nat)
    requires !WithinLimit(t)
    ensures k <= |t| && |Partial(t[..k])| > MAX_FRAME_BYTES
  {
    hide Complete, Partial, Join;
    JoinComplete(t);
    var lines := Complete(t);
    if |Partial(t)| > MAX_FRAME_BYTES {
      k := |t|;
      assert t[..k] == t;
    } else {
      var i :| 0 <= i < |lines| && |lines[i]| > MAX_FRAME_BYTES;
      var before := Join(lines[..i]) + lines[i];
      assert lines == lines[..i] + lines[i..];
      JoinConcat(lines[..i], lines[i..]);
      JoinSplit(lines[i..]);
      k := |before|;
      assert t[..k] == before;
      CompleteJoin(lines[..i], lines[i]);
    }
  }

  lemma JoinSplit(lines: seq<Text>)
    requires |lines| > 0
    ensures lines[0] <= Join(lines)
  {
  }

  // ----- A line above the limit -----

  lemma {:induction false} EscapeNoShorter(t: Text)
    ensures |Escape(t)| >= |t|
    decreases |t|
  {
    hide ShortEscape;
    if |t| > 0 {
      EscapeNoShorter(t[HeadSize(t)..]);
      assert |Escape(t)| == |EscapeHead(t)| + |Escape(t[HeadSize(t)..])|;
    }
  }

  lemma {:induction false} MembersNoShorter(ps: Props<Json>, i: nat)
    requires i < |ps|
    ensures |Members(ps)| >= |Stringify(ps[i].1)|
    decreases i
  {
    hide Quote, Stringify;
    if i > 0 { MembersNoShorter(ps[1..], i - 1); }
  }

  /** An error message is at least as long on the wire as its text. */
  lemma ErrorNoShorter(id: Text, sessionId: Text, text: Text)
    ensures |FrameText(ErrorMessage(id, sessionId, text))| >= |text|
  {
    hide Escape, WIRE_NAMES, Ascii;
    var v := ToJson(ErrorMessage(id, sessionId, text));
    EscapeNoShorter(text);
    assert v.props[3].1 == Str(text);
    MembersNoShorter(v.props, 3);
  }

  lemma PushSingle(s: Stream, chunk: Text)
    ensures PushAll(s, [chunk]) == PushOne(s, chunk)
  {
    assert [chunk][1..] == [];
  }

  lemma OneLine(line: Text)
    requires NEWLINE !in line
    ensures Complete(line + [NEWLINE]) == [line] && Partial(line + [NEWLINE]) == []
    ensures Complete(line) == [] && Partial(line) == line
  {
    hide Complete, Partial;
    JoinSplit([line]);
    assert [line][1..] == [] && Join([line][1..]) == [];
    assert line + [NEWLINE] + [] == line + [NEWLINE];
    assert Join([line]) + [] == line + [NEWLINE];
    CompleteJoin([line], []);
    NextLine(line);
  }

  lemma DecodeOne(m: Message)
    requires MessageAccepts(m) && MessageValid(m)
    ensures DecodeLines([FrameText(m)]) == Some([m])
  {
    hide FrameText, Decode, IsBlank;
    DecodeEncode(m);
    DecodeOneMore([], FrameText(m));
    assert [] + [FrameText(m)] == [FrameText(m)] && [] + [m] == [m];
  }

  /** A frame above the limit is taken when it arrives in one chunk with its newline, and refused
      when it is cut before the newline. */
  lemma LongFrame(m: Message)
    requires MessageAccepts(m) && MessageValid(m) && |FrameText(m)| > MAX_FRAME_BYTES
    ensures PushAll(Stream([], []), [FrameText(m) + [NEWLINE]]) == Stream([m], [])
    ensures PushAll(Stream([], []), [FrameText(m), [NEWLINE]]) == Broken(Oversize)
  {
    hide FrameText, DecodeLines, Complete, Partial, PushAll, MessageAccepts, MessageValid, IsBlank, Decode;
    var line := FrameText(m);
    DecodeEncode(m);
    DecodeOne(m);
    OneLine(line);
    NothingTaken(line);
    assert [] + line == line && [] + (line + [NEWLINE]) == line + [NEWLINE] && [] + [m] == [m];
    PushSingle(Stream([], []), line + [NEWLINE]);
    PushFirst(Stream([], []), line, [[NEWLINE]]);
    assert [line] + [[NEWLINE]] == [line, [NEWLINE]];
    BrokenStays(Broken(Oversize), [[NEWLINE]]);
  }

  lemma PushFirst(s: Stream, chunk: Text, chunks: seq<Text>)
    ensures PushAll(s, [chunk] + chunks) == PushAll(PushOne(s, chunk), chunks)
  {
    assert ([chunk] + chunks)[1..] == chunks;
  }

  /** Such a frame: an error message whose text is longer than the limit. */
  lemma LimitExample(id: Text, sessionId: Text, text: Text)
    requires |id| > 0 && |sessionId| > 0 && |text| > MAX_FRAME_BYTES
    ensures var m := ErrorMessage(id, sessionId, text);
            && Encode(m) == Some(FrameText(m) + [NEWLINE])
            && PushAll(Stream([], []), [FrameText(m) + [NEWLINE]]) == Stream([m], [])
            && PushAll(Stream([], []), [FrameText(m), [NEWLINE]]) == Broken(Oversize)
  {
    hide FrameText;
    var m := ErrorMessage(id, sessionId, text);
    ErrorNoShorter(id, sessionId, text);
    LongFrame(m);
    DecodeEncode(m);
  }

  // ----- Messages sent are messages received -----

  function Frames(messages: seq<Message>): (lines: seq<Text>)
    ensures |lines| == |messages| && forall i :: 0 <= i < |lines| ==> lines[i] == FrameText(messages[i])
  {
    seq(|messages|, i requires 0 <= i < |messages| => FrameText(messages[i]))
  }

  ghost predicate Sendable(messages: seq<Message>) {
    forall i :: 0 <= i < |messages| ==>
      MessageAccepts(messages[i]) && MessageValid(messages[i]) && |FrameText(messages[i])| <= MAX_FRAME_BYTES
  }

  /** The bytes that sending the messages one after the other produces. */
  function Sent(messages: seq<Message>): Text { Join(Frames(messages)) }

  lemma {:induction false} FramesDecode(messages: seq<Message>)
    requires Sendable(messages)
    ensures DecodeLines(Frames(messages)) == Some(messages)
  {
    hide Decode, FrameText, IsBlank, MessageAccepts, MessageValid;
    if |messages| > 0 {
      DecodeEncode(messages[0]);
      assert Frames(messages)[1..] == Frames(messages[1..]);
      FramesDecode(messages[1..]);
      assert messages == [messages[0]] + messages[1..];
    }
  }

  /** However the bytes of sent messages are cut into chunks, exactly the messages sent are
      returned, in order, and nothing is left in the buffer. */
  lemma AnyChunkingDelivers(messages: seq<Message>, chunks: seq<Text>)
    requires Sendable(messages) && Concat(chunks) == Sent(messages)
    ensures PushAll(Stream([], []), chunks) == Stream(messages, [])
  {
    hide FrameText, DecodeLines, IsBlank, MessageAccepts, MessageValid;
    var lines := Frames(messages);
    forall i | 0 <= i < |lines| ensures NEWLINE !in lines[i] { DecodeEncode(messages[i]); }
    CompleteJoin(lines, []);
    assert Join(lines) + [] == Join(lines);
    FramesDecode(messages);
    ChunkIndependent(chunks);
  }
}
