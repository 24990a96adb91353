/** The message splitter.  Runes carry a tag that says whether the splitter injected them, so that what happens
    to the caller's text can be stated; the tags never influence a decision. */
module Splitter {
  import opened Options
  import opened SplitPlan

  datatype Rune = Rune(c: char, injected: bool)

  function Chars(t: seq<Rune>): (s: string)
    ensures |s| == |t| && forall i :: 0 <= i < |s| ==> s[i] == t[i].c
  {
    seq(|t|, i requires 0 <= i < |t| => t[i].c)
  }

  function Tag(s: string, injected: bool): (t: seq<Rune>)
    ensures |t| == |s| && forall i :: 0 <= i < |t| ==> t[i] == Rune(s[i], injected)
  {
    seq(|s|, i requires 0 <= i < |s| => Rune(s[i], injected))
  }

  function Trim(t: seq<Rune>): seq<Rune> {
    t[TrimRange(Chars(t)).0..TrimRange(Chars(t)).1]
  }

  // ----- one round -------------------------------------------------------------------------

  /** The buffer and the position reached in it. */
  datatype State = State(runes: seq<Rune>, start: nat)

  function Left(st: State): int {
    |st.runes| - st.start
  }

  function SkipGap(r: string, i: nat): (j: nat)
    requires i <= |r|
    ensures i <= j <= |r| && forall k :: i <= k < j ==> IsGap(r[k])
    ensures j < |r| ==> !IsGap(r[j])
    decreases |r| - i
  {
    if i < |r| && IsGap(r[i]) then SkipGap(r, i + 1) else i
  }

  /** The chunk a round emits and the state it leaves. */
  function Round(st: State, maxLen: nat): (seq<Rune>, State)
    requires maxLen > 0 && st.start < |st.runes|
  {
    var r := Chars(st.runes);
    PlanInRange(r, st.start, maxLen);
    match Plan(r, st.start, maxLen)
    case Finish => (st.runes[st.start..], State(st.runes, |st.runes|))
    case Cut(at) => (st.runes[st.start..at], State(st.runes, SkipGap(r, at)))
    case Reopen(at, header) =>
      var piece := st.runes[st.start..at];
      (piece[..TrimmedGap(Chars(piece))] + Tag(CLOSER, true),
       State(Trim(Tag(header + "\n", true) + st.runes[at..]), 0))
  }

  /** The chunks of at most `fuel` rounds; None if the buffer is not used up by then. */
  function Rounds(st: State, maxLen: nat, fuel: nat): Option<seq<seq<Rune>>>
    requires maxLen > 0
    decreases fuel
  {
    if st.start >= |st.runes| then Some([])
    else if fuel == 0 then None
    else
      var (chunk, next) := Round(st, maxLen);
      match Rounds(next, maxLen, fuel - 1)
      case None => None
      case Some(rest) => Some([chunk] + rest)
  }

  function Initial(content: string): State {
    State(Tag(content, false), 0)
  }

  /** The splitting loop comes to an end. */
  ghost predicate Terminates(content: string, maxLen: nat)
    requires maxLen > 0
  {
    exists fuel :: Rounds(Initial(content), maxLen, fuel).Some?
  }

  lemma {:induction false} MoreFuel(st: State, maxLen: nat, fuel: nat, more: nat)
    requires maxLen > 0 && Rounds(st, maxLen, fuel).Some? && fuel <= more
    ensures Rounds(st, maxLen, more) == Rounds(st, maxLen, fuel)
    decreases fuel
  {
    hide Round;
    if st.start < |st.runes| {
      MoreFuel(Round(st, maxLen).1, maxLen, fuel - 1, more - 1);
    }
  }

  /** The tagged chunks of a message; with no positive limit the message is one chunk, or none if empty. */
  ghost function Chunks(content: string, maxLen: int): seq<seq<Rune>>
    requires maxLen > 0 ==> Terminates(content, maxLen)
  {
    if maxLen <= 0 then (if content == "" then [] else [Tag(content, false)])
    else
      var fuel: nat :| Rounds(Initial(content), maxLen, fuel).Some?;
      Rounds(Initial(content), maxLen, fuel).value
  }

  function Texts(chunks: seq<seq<Rune>>): (texts: seq<string>)
    ensures |texts| == |chunks| && forall i :: 0 <= i < |texts| ==> texts[i] == Chars(chunks[i])
  {
    seq(|chunks|, i requires 0 <= i < |chunks| => Chars(chunks[i]))
  }

  // ----- the loop --------------------------------------------------------------------------

  method SplitMessage(content: string, maxLen: int) returns (messages: seq<string>)
    requires maxLen > 0 ==> Terminates(content, maxLen)
    ensures messages == Texts(Chunks(content, maxLen))
  {
    if maxLen <= 0 {
      if content == "" {
        return [];
      }
      assert Chars(Tag(content, false)) == content;
      return [content];
    }
    ghost var fuel: nat :| Rounds(Initial(content), maxLen, fuel).Some?;
    ChunksAre(content, maxLen, fuel);
    messages := SplitLoop(content, maxLen, fuel);
  }

  method SplitLoop(content: string, maxLen: nat, ghost rounds: nat) returns (messages: seq<string>)
    requires maxLen > 0 && Rounds(Initial(content), maxLen, rounds).Some?
    ensures messages == Texts(Rounds(Initial(content), maxLen, rounds).value)
  {
    hide Round, Texts;
    var runes := content;
    messages := [];
    var start := 0;
    ghost var fuel := rounds;
    ghost var st := Initial(content);
    ghost var done: seq<seq<Rune>> := [];
    ghost var all := Rounds(st, maxLen, fuel).value;
    InitialText(content);
    while start < |runes|
      invariant 0 <= start <= |runes|
      invariant runes == Chars(st.runes) && start == st.start
      invariant Rounds(st, maxLen, fuel).Some?
      invariant done + Rounds(st, maxLen, fuel).value == all
      invariant messages == Texts(done)
      decreases fuel
    {
      ghost var step := Round(st, maxLen);
      RoundsUnfold(st, maxLen, fuel, done, all);
      TextsSnoc(done, step.0);
      var chunk;
      chunk, runes, start := NextChunk(runes, start, maxLen, st);
      messages := messages + [chunk];
      done, fuel, st := done + [step.0], fuel - 1, step.1;
    }
    RoundsEnd(st, maxLen, fuel);
  }

  lemma InitialText(content: string)
    ensures Chars(Initial(content).runes) == content && Texts([]) == []
  {
  }

  lemma RoundsEnd(st: State, maxLen: nat, fuel: nat)
    requires maxLen > 0 && st.start >= |st.runes|
    ensures Rounds(st, maxLen, fuel) == Some([])
  {
  }

  /** One iteration of the splitting loop: the chunk it appends, and the buffer and position it leaves. */
  method NextChunk(runes: string, start: nat, maxLen: nat, ghost st: State)
    returns (chunk: string, runes': string, start': nat)
    requires maxLen > 0 && start < |runes| && runes == Chars(st.runes) && start == st.start
    ensures chunk == Chars(Round(st, maxLen).0)
    ensures runes' == Chars(Round(st, maxLen).1.runes) && start' == Round(st, maxLen).1.start && start' <= |runes'|
  {
    hide Round, Plan, TrimSpace, TrimmedGap;
    RoundTexts(st, maxLen);
    var totalLen := |runes|;
    assert runes[start..totalLen] == runes[start..];
    var plan := ChooseEnd(runes, start, maxLen);
    match plan {
      case Finish =>
        return runes[start..totalLen], runes, totalLen;
      case Cut(msgEnd) =>
        var next := msgEnd;
        while next < totalLen &&
              (runes[next] == ' ' || runes[next] == '\t' || runes[next] == '\n' || runes[next] == '\r')
          invariant msgEnd <= next <= totalLen
          invariant SkipGap(runes, next) == SkipGap(runes, msgEnd)
        {
          next := next + 1;
        }
        return runes[start..msgEnd], runes, next;
      case Reopen(msgEnd, header) =>
        var piece := TrimRight(runes[start..msgEnd]);
        assert runes[msgEnd..totalLen] == runes[msgEnd..];
        return piece + "\n```", TrimSpace(header + "\n" + runes[msgEnd..totalLen]), 0;
    }
  }

  /** The body of the splitting loop up to the point where the chunk is cut. */
  method ChooseEnd(runes: string, start: nat, maxLen: nat) returns (action: Action)
    requires maxLen > 0 && start < |runes|
    ensures action == Plan(runes, start, maxLen)
    ensures action.Cut? ==> start < action.at <= |runes|
    ensures action.Reopen? ==> start <= action.to <= |runes|
  {
    hide PlanInside, NaturalEnd, Unclosed, NextClosing, Fence;
    var totalLen := |runes|;
    var remaining := totalLen - start;
    if remaining <= maxLen {
      return Finish;
    }
    var msgEnd := FindNaturalEnd(runes, start, maxLen);
    var unclosedIdx := FindLastUnclosedCodeBlockInRange(runes, start, msgEnd);
    if unclosedIdx >= 0 && totalLen > msgEnd {
      var closingIdx := FindNextClosingCodeBlockInRange(runes, msgEnd, totalLen);
      if closingIdx > 0 && closingIdx - start <= maxLen {
        msgEnd := closingIdx;
      } else {
        UnclosedNeedsRoom(runes, start, maxLen, msgEnd, unclosedIdx);
        action := SplitInside(runes, start, maxLen, msgEnd, unclosedIdx);
        return action;
      }
    }
    return Cut(msgEnd);
  }

  lemma UnclosedNeedsRoom(r: string, start: nat, maxLen: nat, msgEnd: int, u: int)
    requires maxLen > 0 && start + maxLen < |r| && start <= u && msgEnd <= start + EffectiveLimit(maxLen) <= |r|
    requires Fence(r, u, msgEnd)
    ensures 5 <= maxLen && Fence(r, u, |r|)
  {
  }

  method FindNaturalEnd(runes: string, start: nat, maxLen: nat) returns (msgEnd: int)
    requires maxLen > 0 && start + maxLen < |runes|
    ensures msgEnd == NaturalEnd(runes, start, maxLen)
  {
    hide FindLast;
    var codeBlockBuffer := Max(maxLen / 10, 50);
    if codeBlockBuffer > maxLen / 2 {
      codeBlockBuffer := maxLen / 2;
    }
    var effectiveLimit := Max(maxLen - codeBlockBuffer, maxLen / 2);
    var end := start + effectiveLimit;
    msgEnd := FindLastNewlineInRange(runes, start, end, 200);
    if msgEnd <= start {
      msgEnd := FindLastSpaceInRange(runes, start, end, 100);
    }
    if msgEnd <= start {
      msgEnd := end;
    }
  }

  /** The branch for a code block that neither closes nor fits. */
  method SplitInside(runes: string, start: nat, maxLen: nat, msgEnd: int, unclosedIdx: int) returns (action: Action)
    requires start + maxLen < |runes| && 5 <= maxLen && start <= unclosedIdx && Fence(runes, unclosedIdx, |runes|)
    ensures action == PlanInside(runes, start, maxLen, msgEnd, unclosedIdx)
  {
    hide LastIn, NewlineFrom, TrimSpace;
    var totalLen := |runes|;
    var headerEnd := FindNewlineFrom(runes, unclosedIdx);
    var header: string;
    if headerEnd == -1 {
      header := TrimSpace(runes[unclosedIdx..unclosedIdx + 3]);
    } else {
      header := TrimSpace(runes[unclosedIdx..headerEnd]);
    }
    var headerEndIdx := unclosedIdx + |header|;
    if headerEnd != -1 {
      headerEndIdx := headerEnd;
    }
    if msgEnd > headerEndIdx + 20 {
      var innerLimit := Min(start + maxLen - 5, totalLen);
      var betterEnd := FindLastNewlineInRange(runes, start, innerLimit, 200);
      var splitEnd := innerLimit;
      if betterEnd > headerEndIdx {
        splitEnd := betterEnd;
      }
      return Reopen(splitEnd, header);
    }
    var newEnd := FindLastNewlineInRange(runes, start, unclosedIdx, 200);
    if newEnd <= start {
      newEnd := FindLastSpaceInRange(runes, start, unclosedIdx, 100);
    }
    if newEnd > start {
      return Cut(newEnd);
    }
    if unclosedIdx - start > 20 {
      return Cut(unclosedIdx);
    }
    var splitAt := Min(start + maxLen - 5, totalLen);
    return Reopen(splitAt, header);
  }

  lemma ChunksAre(content: string, maxLen: nat, fuel: nat)
    requires maxLen > 0 && Rounds(Initial(content), maxLen, fuel).Some?
    ensures Terminates(content, maxLen) && Chunks(content, maxLen) == Rounds(Initial(content), maxLen, fuel).value
  {
    forall other: nat | Rounds(Initial(content), maxLen, other).Some?
      ensures Rounds(Initial(content), maxLen, other) == Rounds(Initial(content), maxLen, fuel)
    {
      if other <= fuel {
        MoreFuel(Initial(content), maxLen, other, fuel);
      } else {
        MoreFuel(Initial(content), maxLen, fuel, other);
      }
    }
  }

  lemma RoundsUnfold(st: State, maxLen: nat, fuel: nat, done: seq<seq<Rune>>, all: seq<seq<Rune>>)
    requires maxLen > 0 && st.start < |st.runes| && Rounds(st, maxLen, fuel).Some?
    requires done + Rounds(st, maxLen, fuel).value == all
    ensures fuel > 0
    ensures var (chunk, next) := Round(st, maxLen);
            Rounds(next, maxLen, fuel - 1).Some? && (done + [chunk]) + Rounds(next, maxLen, fuel - 1).value == all
  {
  }

  lemma TextsSnoc(chunks: seq<seq<Rune>>, chunk: seq<Rune>)
    ensures Texts(chunks + [chunk]) == Texts(chunks) + [Chars(chunk)]
  {
  }

  /** What a round does to the bare text. */
  lemma RoundTexts(st: State, maxLen: nat)
    requires maxLen > 0 && st.start < |st.runes|
    ensures
      var r, (chunk, next) := Chars(st.runes), Round(st, maxLen);
      match Plan(r, st.start, maxLen)
      case Finish => Chars(chunk) == r[st.start..] && next.runes == st.runes && next.start == |r|
      case Cut(at) => st.start < at <= |r| && Chars(chunk) == r[st.start..at] && next == State(st.runes, SkipGap(r, at))
      case Reopen(at, header) =>
        && st.start <= at <= |r|
        && Chars(chunk) == r[st.start..at][..TrimmedGap(r[st.start..at])] + "\n```"
        && Chars(next.runes) == TrimSpace(header + "\n" + r[at..]) && next.start == 0
  {
    hide Plan, TrimRange, TrimmedGap, SkipGap, IsSpace, IsGap;
    var r := Chars(st.runes);
    PlanInRange(r, st.start, maxLen);
    match Plan(r, st.start, maxLen)
    case Finish => CharsSlice(st.runes, st.start, |r|);
    case Cut(at) => CharsSlice(st.runes, st.start, at);
    case Reopen(at, header) => ReopenTexts(st.runes, st.start, at, header);
  }

  lemma ReopenTexts(t: seq<Rune>, start: nat, at: nat, header: string)
    requires start <= at <= |t|
    ensures
      var r, piece := Chars(t), t[start..at];
      && Chars(piece[..TrimmedGap(Chars(piece))] + Tag(CLOSER, true)) ==
         r[start..at][..TrimmedGap(r[start..at])] + "\n```"
      && Chars(Trim(Tag(header + "\n", true) + t[at..])) == TrimSpace(header + "\n" + r[at..])
  {
    hide TrimRange, TrimmedGap, IsSpace, IsGap;
    var r, piece, rest := Chars(t), t[start..at], Tag(header + "\n", true) + t[at..];
    CharsSlice(t, start, at);
    CharsSlice(piece, 0, TrimmedGap(Chars(piece)));
    assert Chars(rest) == header + "\n" + r[at..];
    CharsSlice(rest, TrimRange(Chars(rest)).0, TrimRange(Chars(rest)).1);
  }

  lemma CharsSlice(t: seq<Rune>, lo: nat, hi: nat)
    requires lo <= hi <= |t|
    ensures Chars(t[lo..hi]) == Chars(t)[lo..hi]
  {
  }

  method TrimRight(s: string) returns (t: string)
    ensures t == s[..TrimmedGap(s)]
  {
    var n := |s|;
    assert s[..n] == s;
    while n > 0 && (s[n - 1] == ' ' || s[n - 1] == '\t' || s[n - 1] == '\n' || s[n - 1] == '\r')
      invariant 0 <= n <= |s| && TrimmedGap(s[..n]) == TrimmedGap(s)
    {
      assert s[..n][..n - 1] == s[..n - 1];
      n := n - 1;
    }
    t := s[..n];
  }

  method FindLastNewlineInRange(runes: string, start: int, end: int, searchWindow: nat) returns (i: int)
    requires 0 <= start && end <= |runes|
    ensures i == FindLast(runes, start, end, searchWindow, NEWLINE)
  {
    var searchStart := Max(end - searchWindow, start);
    i := end - 1;
    while i >= searchStart
      invariant searchStart - 1 <= i < end || i == end - 1
      invariant LastIn(runes, searchStart, i + 1, NEWLINE) == LastIn(runes, searchStart, end, NEWLINE)
    {
      if runes[i] == '\n' {
        return i;
      }
      i := i - 1;
    }
    return start - 1;
  }

  method FindLastSpaceInRange(runes: string, start: int, end: int, searchWindow: nat) returns (i: int)
    requires 0 <= start && end <= |runes|
    ensures i == FindLast(runes, start, end, searchWindow, BLANK)
  {
    var searchStart := Max(end - searchWindow, start);
    i := end - 1;
    while i >= searchStart
      invariant searchStart - 1 <= i < end || i == end - 1
      invariant LastIn(runes, searchStart, i + 1, BLANK) == LastIn(runes, searchStart, end, BLANK)
    {
      if runes[i] == ' ' || runes[i] == '\t' {
        return i;
      }
      i := i - 1;
    }
    return start - 1;
  }

  method FindNewlineFrom(runes: string, from: int) returns (i: int)
    requires 0 <= from
    ensures i == NewlineFrom(runes, from)
  {
    i := from;
    while i < |runes|
      invariant from <= i
      invariant NewlineFrom(runes, i) == NewlineFrom(runes, from)
    {
      if runes[i] == '\n' {
        return i;
      }
      i := i + 1;
    }
    return -1;
  }

  method FindNextClosingCodeBlockInRange(runes: string, startIdx: int, end: int) returns (i: int)
    requires 0 <= startIdx && end == |runes|
    ensures i == NextClosing(runes, startIdx)
  {
    i := startIdx;
    while i < end
      invariant startIdx <= i
      invariant NextClosing(runes, i) == NextClosing(runes, startIdx)
    {
      if i + 2 < end && runes[i] == '`' && runes[i + 1] == '`' && runes[i + 2] == '`' {
        return i + 3;
      }
      i := i + 1;
    }
    return -1;
  }

  method FindLastUnclosedCodeBlockInRange(runes: string, start: int, end: int) returns (u: int)
    requires 0 <= start && end <= |runes|
    ensures u == Unclosed(runes, start, end)
  {
    var inCodeBlock := false;
    var lastOpenIdx := -1;
    var i := start;
    while i < end
      invariant start <= i
      invariant inCodeBlock ==> Fence(runes, lastOpenIdx, end) && lastOpenIdx < i
      invariant UnclosedFrom(runes, i, end, inCodeBlock, lastOpenIdx) == Unclosed(runes, start, end)
    {
      if i + 2 < end && runes[i] == '`' && runes[i + 1] == '`' && runes[i + 2] == '`' {
        if !inCodeBlock {
          lastOpenIdx := i;
        }
        inCodeBlock := !inCodeBlock;
        i := i + 2;
      }
      i := i + 1;
    }
    return if inCodeBlock then lastOpenIdx else -1;
  }
}
