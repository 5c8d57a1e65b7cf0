/** Newline-separated text. */
module Lines {
  import opened Utf16
  import opened Wrappers

  /** String.prototype.indexOf for a newline. */
  function IndexOfNewline(t: Text): (i: Option<nat>)
    ensures i.Some? ==> i.value < |t| && t[i.value] == NEWLINE && forall k :: 0 <= k < i.value ==> t[k] != NEWLINE
    ensures i.None? <==> NEWLINE !in t
  {
    if |t| == 0 then None
    else if t[0] == NEWLINE then Some(0)
    else
      match IndexOfNewline(t[1..])
      case None => None
      case Some(i) => Some(i + 1)
  }

  /** The lines that a newline ends. */
  function Complete(t: Text): (lines: seq<Text>)
    ensures forall i :: 0 <= i < |lines| ==> NEWLINE !in lines[i]
  {
    match IndexOfNewline(t)
    case None => []
    case Some(i) => [t[..i]] + Complete(t[i + 1..])
  }

  /** The text after the last newline. */
  function Partial(t: Text): (p: Text)
    ensures NEWLINE !in p && |p| <= |t|
  {
    match IndexOfNewline(t)
    case None => t
    case Some(i) => Partial(t[i + 1..])
  }

  /** String.prototype.split by a newline. */
  function Split(t: Text): seq<Text> { Complete(t) + [Partial(t)] }

  /** Lines, each ended by a newline. */
  function Join(lines: seq<Text>): Text {
    if |lines| == 0 then [] else lines[0] + [NEWLINE] + Join(lines[1..])
  }

  lemma IndexOfFirst(t: Text, i: nat)
    requires i < |t| && t[i] == NEWLINE && forall k :: 0 <= k < i ==> t[k] != NEWLINE
    ensures IndexOfNewline(t) == Some(i)
  {
  }

  lemma SplitAt(t: Text, i: nat, tail: Text)
    requires i < |t| && t[i] == NEWLINE && tail == t[i + 1..]
    ensures t == t[..i] + [NEWLINE] + tail
  {
  }

  lemma JoinOne(line: Text, lines: seq<Text>, rest: Text)
    ensures Join([line] + lines) + rest == line + [NEWLINE] + (Join(lines) + rest)
  {
  }

  /** A text is its complete lines followed by the rest. */
  lemma {:induction false} JoinComplete(t: Text)
    ensures Join(Complete(t)) + Partial(t) == t
  {
    hide Join;
    match IndexOfNewline(t)
    case None => JoinNone(t);
    case Some(i) =>
      var tail := t[i + 1..];
      JoinComplete(tail);
      SplitAt(t, i, tail);
      JoinOne(t[..i], Complete(tail), Partial(tail));
  }

  lemma JoinNone(t: Text)
    ensures Join([]) + t == t
  {
  }

  /** The lines of joined lines are those lines. */
  lemma {:induction false} CompleteJoin(lines: seq<Text>, rest: Text)
    requires NEWLINE !in rest && forall i :: 0 <= i < |lines| ==> NEWLINE !in lines[i]
    ensures Complete(Join(lines) + rest) == lines && Partial(Join(lines) + rest) == rest
  {
    hide IndexOfNewline;
    var t := Join(lines) + rest;
    if |lines| == 0 {
      assert t == rest;
    } else {
      var first, tail := lines[0], Join(lines[1..]) + rest;
      assert lines == [first] + lines[1..];
      JoinOne(first, lines[1..], rest);
      hide Join;
      assert t[..|first|] == first && t[|first|] == NEWLINE && t[|first| + 1..] == tail;
      IndexOfFirst(t, |first|);
      CompleteJoin(lines[1..], rest);
    }
  }

  lemma {:induction false} JoinConcat(a: seq<Text>, b: seq<Text>)
    ensures Join(a + b) == Join(a) + Join(b)
  {
    if |a| == 0 {
      assert a + b == b;
    } else {
      JoinConcat(a[1..], b);
      assert (a + b)[1..] == a[1..] + b;
      assert Join(a + b) == a[0] + [NEWLINE] + (Join(a[1..]) + Join(b));
    }
  }

  /** What String.prototype.trim removes. */
  predicate IsTrimmed(u: CodeUnit) {
    9 <= u <= 13 || u == SPACE || u == 0xA0 || u == 0x1680 || 0x2000 <= u <= 0x200A ||
    u == 0x2028 || u == 0x2029 || u == 0x202F || u == 0x205F || u == 0x3000 || u == 0xFEFF
  }

  predicate IsBlank(t: Text) { forall i :: 0 <= i < |t| ==> IsTrimmed(t[i]) }

  function NonBlank(lines: seq<Text>): seq<Text> {
    if |lines| == 0 then []
    else if IsBlank(lines[0]) then NonBlank(lines[1..])
    else [lines[0]] + NonBlank(lines[1..])
  }

  lemma {:induction false} NonBlankConcat(a: seq<Text>, b: seq<Text>)
    ensures NonBlank(a + b) == NonBlank(a) + NonBlank(b)
  {
    hide IsBlank;
    if |a| == 0 {
      assert a + b == b && NonBlank(a) + NonBlank(b) == NonBlank(b);
    } else {
      NonBlankConcat(a[1..], b);
      assert (a + b)[0] == a[0] && (a + b)[1..] == a[1..] + b;
      var rest := NonBlank(a[1..]);
      assert [a[0]] + (rest + NonBlank(b)) == ([a[0]] + rest) + NonBlank(b);
    }
  }

  lemma {:induction false} NonBlankAll(lines: seq<Text>)
    requires forall i :: 0 <= i < |lines| ==> !IsBlank(lines[i])
    ensures NonBlank(lines) == lines
  {
    if |lines| > 0 { NonBlankAll(lines[1..]); }
  }

  /** White space and line terminators of ECMAScript. */
  const TRIMMED: seq<int> := [
    0x09, 0x0A, 0x0B, 0x0C, 0x0D, 0x20, 0xA0, 0x1680, 0x2000, 0x2001, 0x2002, 0x2003, 0x2004, 0x2005, 0x2006,
    0x2007, 0x2008, 0x2009, 0x200A, 0x2028, 0x2029, 0x202F, 0x205F, 0x3000, 0xFEFF]

  lemma TrimmedExactly(u: CodeUnit)
    ensures IsTrimmed(u) <==> u in TRIMMED
  {
    assert forall i :: 0 <= i < 5 ==> TRIMMED[i] == 9 + i;
    assert forall i :: 8 <= i < 19 ==> TRIMMED[i] == 0x1FF8 + i;
    assert TRIMMED[5] == 0x20 && TRIMMED[6] == 0xA0 && TRIMMED[7] == 0x1680 && TRIMMED[19] == 0x2028;
    assert TRIMMED[20] == 0x2029 && TRIMMED[21] == 0x202F && TRIMMED[22] == 0x205F && TRIMMED[23] == 0x3000;
    assert TRIMMED[24] == 0xFEFF;
    if 9 <= u <= 13 { assert TRIMMED[u - 9] == u; }
    if 0x2000 <= u <= 0x200A { assert TRIMMED[u - 0x1FF8] == u; }
  }

  lemma NonBlankEmpty()
    ensures NonBlank([[]]) == []
  {
  }

  // ----- Lines, told without the code -----

  lemma {:induction false} JoinWithLast(lines: seq<Text>, rest: Text)
    ensures JoinWith(lines + [rest], [NEWLINE]) == Join(lines) + rest
  {
    if |lines| > 0 {
      JoinWithLast(lines[1..], rest);
      assert (lines + [rest])[1..] == lines[1..] + [rest];
      assert lines == [lines[0]] + lines[1..];
      JoinOne(lines[0], lines[1..], rest);
    }
  }

  /** Texts without a newline that make up the text, with one newline between each two. */
  ghost predicate Breaks(parts: seq<Text>, t: Text) {
    |parts| > 0 && (forall i :: 0 <= i < |parts| ==> 10 !in parts[i]) && JoinWith(parts, [10]) == t
  }

  lemma SplitExactly(t: Text, parts: seq<Text>)
    ensures Split(t) == parts <==> Breaks(parts, t)
  {
    hide JoinWith, Join, Complete, Partial;
    JoinComplete(t);
    JoinWithLast(Complete(t), Partial(t));
    if Breaks(parts, t) {
      var front, last := parts[..|parts| - 1], parts[|parts| - 1];
      assert parts == front + [last];
      JoinWithLast(front, last);
      CompleteJoin(front, last);
    }
  }

  ghost predicate Increasing(picks: seq<nat>, bound: nat) {
    (forall i :: 0 <= i < |picks| ==> picks[i] < bound) && forall i, j :: 0 <= i < j < |picks| ==> picks[i] < picks[j]
  }

  /** A line with a unit that is not trimmed. */
  ghost predicate Counts(line: Text) { exists i :: 0 <= i < |line| && line[i] !in TRIMMED }

  /** The positions of the parts that count, in order, and what is there. */
  ghost predicate Picks(picks: seq<nat>, parts: seq<Text>, lines: seq<Text>) {
    && |picks| == |lines| && Increasing(picks, |parts|)
    && (forall i :: 0 <= i < |picks| ==> parts[picks[i]] == lines[i])
    && (forall k :: 0 <= k < |parts| ==> (Counts(parts[k]) <==> k in picks))
  }

  lemma CountsExactly(line: Text)
    ensures Counts(line) <==> !IsBlank(line)
  {
    hide TRIMMED, IsTrimmed;
    forall i | 0 <= i < |line| ensures IsTrimmed(line[i]) <==> line[i] in TRIMMED { TrimmedExactly(line[i]); }
  }

  lemma NonBlankLast(parts: seq<Text>)
    requires |parts| > 0
    ensures var front, last := parts[..|parts| - 1], parts[|parts| - 1];
            NonBlank(parts) == NonBlank(front) + if Counts(last) then [last] else []
  {
    hide Counts, IsBlank;
    var front, last := parts[..|parts| - 1], parts[|parts| - 1];
    CountsExactly(last);
    assert parts == front + [last];
    NonBlankConcat(front, [last]);
    var one: seq<Text> := [last];
    assert one[1..] == [];
  }

  lemma {:induction false} KeptPicks(parts: seq<Text>) returns (picks: seq<nat>)
    ensures Picks(picks, parts, NonBlank(parts))
  {
    hide Counts;
    if |parts| == 0 { picks := []; return; }
    NonBlankLast(parts);
    hide NonBlank;
    var front, last := parts[..|parts| - 1], parts[|parts| - 1];
    picks := KeptPicks(front);
    if Counts(last) { picks := picks + [|front|]; }
  }

  lemma {:induction false} PicksKept(picks: seq<nat>, parts: seq<Text>, lines: seq<Text>)
    requires Picks(picks, parts, lines)
    ensures NonBlank(parts) == lines
  {
    hide Counts;
    assert |picks| > 0 ==> picks[0] < |parts|;
    if |parts| == 0 {
      assert lines == [];
      return;
    }
    NonBlankLast(parts);
    hide NonBlank;
    var front, last := parts[..|parts| - 1], parts[|parts| - 1];
    if Counts(last) {
      var end := |picks| - 1;
      assert |front| in picks;
      assert picks[end] == |front|;
      PicksKept(picks[..end], front, lines[..end]);
      assert lines == lines[..end] + [last];
    } else {
      assert |front| !in picks;
      PicksKept(picks, front, lines);
    }
  }

  /** The lines that count are those with a unit that is not trimmed, in their order. */
  lemma NonBlankExactly(parts: seq<Text>, lines: seq<Text>)
    ensures NonBlank(parts) == lines <==> exists picks :: Picks(picks, parts, lines)
  {
    hide NonBlank, Picks;
    var picks := KeptPicks(parts);
    if others :| Picks(others, parts, lines) { PicksKept(others, parts, lines); }
  }
}
