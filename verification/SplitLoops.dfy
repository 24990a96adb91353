/** Texts that are split for ever, and cases of the termination law that can be told from the text alone: those in which
    only the first code block has a header line that does not fit. */
module SplitLoops {
  import opened Options
  import opened SplitPlan
  import opened Splitter
  import opened SplitLaws
  import opened SplitEnds

  /** A header line that opens a code block and contains no further backtick, trimmed. */
  predicate IsHeader(h: string) {
    && |h| >= 3 && h[0] == h[1] == h[2] == '`'
    && (forall k :: 3 <= k < |h| ==> h[k] != '`' && h[k] != '\n')
    && !IsSpace(h[|h| - 1])
  }

  /** A text that begins with a code block opened by the header `h`, without trailing white space. */
  predicate OpensWith(r: string, h: string) {
    && IsHeader(h) && Fence(r, 0, |r|) && Header(r, 0) == h && !IsSpace(r[|r| - 1])
    && (|h| < |r| ==> r[|h|] != '`')
  }

  /** Some later fence ends within the limit. */
  ghost predicate ClosesInTime(r: string, maxLen: nat) {
    exists i :: 0 < i && Fence(r, i, |r|) && i + 3 <= maxLen
  }

  // ----- one round on a block whose header leaves no room ----------------------------------

  lemma FirstRunes(r: string, h: string)
    requires OpensWith(r, h)
    ensures r[0] == r[1] == r[2] == '`' && |h| <= HeaderEnd(r, 0) && h <= r
    ensures NewlineFrom(r, 0) == -1 ==> h == FENCE
  {
    HeaderShape(r, 0);
    hide LeadingSpace, TrimmedEnd, IsSpace;
  }

  /** No further fence starts before the header is over. */
  lemma LaterFence(r: string, h: string, i: int)
    requires OpensWith(r, h) && 0 < i && Fence(r, i, |r|)
    ensures |h| < i
  {
    FirstRunes(r, h);
    var k := if i < 3 then 3 else i;
    assert r[k] == '`';
    if k <= |h| {
      NoBacktick(r, h, k);
    }
  }

  lemma NoBacktick(r: string, h: string, i: int)
    requires OpensWith(r, h) && h <= r && 3 <= i < |r| && i <= |h|
    ensures r[i] != '`'
  {
    if i < |h| {
      assert r[i] == h[i];
    }
  }

  lemma {:induction false} NoMoreFences(r: string, i: nat, end: nat)
    requires 2 < end <= |r| && 0 < i && Fence(r, 0, end)
    requires forall j :: 0 < j ==> !Fence(r, j, end)
    ensures UnclosedFrom(r, i, end, true, 0) == 0
    decreases end - i
  {
    if i < end {
      NoMoreFences(r, i + 1, end);
    }
  }

  lemma OnlyFirstUnclosed(r: string, end: nat)
    requires 2 < end <= |r| && Fence(r, 0, |r|) && forall j :: 0 < j ==> !Fence(r, j, end)
    ensures Unclosed(r, 0, end) == 0
  {
    assert Fence(r, 0, end);
    NoMoreFences(r, 3, end);
  }

  /** Inside a block whose header leaves no room the decision is always to put the header back. */
  lemma InsideReopens(r: string, h: string, maxLen: nat)
    requires OpensWith(r, h) && 5 <= maxLen < |r| && |h| + 6 >= maxLen
    ensures PlanInside(r, 0, maxLen, NaturalEnd(r, 0, maxLen), 0) == Reopen(maxLen - 5, h)
  {
    FirstRunes(r, h);
    assert EndBefore(r, 0, 0) == -1;
    hide Header, HeaderEnd, EndBefore, NaturalEnd, InnerEnd;
  }

  lemma StuckPlan(r: string, h: string, maxLen: nat)
    requires OpensWith(r, h) && 5 <= maxLen < |r| && |h| + 6 >= maxLen && !ClosesInTime(r, maxLen)
    ensures Plan(r, 0, maxLen) == Reopen(maxLen - 5, h)
  {
    FirstNaturalEnd(r, maxLen);
    InsideReopens(r, h, maxLen);
    hide NaturalEnd, OpensWith, PlanInside, EffectiveLimit;
    var msgEnd := NaturalEnd(r, 0, maxLen);
    forall j | 0 < j
      ensures !Fence(r, j, msgEnd)
    {
      assert Fence(r, j, msgEnd) ==> Fence(r, j, |r|);
    }
    assert Fence(r, 0, |r|) by {
      StartsWithFence(r, h);
    }
    OnlyFirstUnclosed(r, msgEnd);
    var closing := NextClosing(r, msgEnd);
    assert closing > 0 ==> closing > maxLen;
  }

  lemma StartsWithFence(r: string, h: string)
    requires OpensWith(r, h)
    ensures Fence(r, 0, |r|)
  {
  }

  /** The rewritten buffer begins with the same block, still does not close in time, and is no shorter. */
  lemma StuckRewrite(r: string, h: string, maxLen: nat)
    requires OpensWith(r, h) && 5 <= maxLen < |r| && |h| + 6 >= maxLen && !ClosesInTime(r, maxLen)
    ensures var r' := TrimSpace(h + "\n" + r[maxLen - 5..]);
            OpensWith(r', h) && |r'| >= |r| && !ClosesInTime(r', maxLen)
  {
    hide NewlineFrom, LeadingSpace, TrimmedEnd;
    var s := h + "\n" + r[maxLen - 5..];
    RewriteOpens(r, h, s, maxLen);
    hide OpensWith, TrimSpace;
    forall i | 0 < i && Fence(s, i, |s|)
      ensures i + 3 > maxLen
    {
      FenceMoves(r, h, s, maxLen, i);
    }
  }

  lemma RewriteOpens(r: string, h: string, s: string, maxLen: nat)
    requires OpensWith(r, h) && 5 <= maxLen < |r| && s == h + "\n" + r[maxLen - 5..]
    ensures TrimSpace(s) == s && OpensWith(s, h) && s[|h|] == '\n'
  {
    var tail := r[maxLen - 5..];
    assert tail[|tail| - 1] == r[|r| - 1];
    assert s[|s| - 1] == tail[|tail| - 1] && s[0] == h[0] && s[1] == h[1] && s[2] == h[2];
    assert s[..|h|] == h && s[|h|] == '\n';
    HeaderIs(s, h);
    hide Header, IsSpace;
    NotSpace();
    Untrimmed(s);
  }

  lemma HeaderIs(s: string, h: string)
    requires IsHeader(h) && |h| < |s| && s[..|h|] == h && s[|h|] == '\n'
    ensures Fence(s, 0, |s|) && Header(s, 0) == h
  {
    assert h + "\n" == s[..|h| + 1];
    assert s[0..] == s;
    HeaderOf(s, 0, h);
  }

  /** A fence of the rewritten buffer was there before, and has not moved towards the front. */
  lemma FenceMoves(r: string, h: string, s: string, maxLen: nat, i: int)
    requires 5 <= maxLen < |r| && |h| + 6 >= maxLen && !ClosesInTime(r, maxLen)
    requires s == h + "\n" + r[maxLen - 5..] && OpensWith(s, h) && 0 < i && Fence(s, i, |s|)
    ensures i + 3 > maxLen
  {
    LaterFence(s, h, i);
    hide OpensWith;
    var j := i - |h| - 1 + maxLen - 5;
    assert j >= 0 && i + 2 < |s|;
    assert s[i] == r[j] && s[i + 1] == r[j + 1] && s[i + 2] == r[j + 2];
    assert Fence(r, j, |r|) && j <= i;
    assert j == 0 ==> maxLen == 5;
  }

  // ----- the loop that does not end --------------------------------------------------------

  lemma StuckNext(r: string, h: string, maxLen: nat)
    requires OpensWith(r, h) && 5 <= maxLen < |r| && |h| + 6 >= maxLen && !ClosesInTime(r, maxLen)
    ensures var r' := TrimSpace(h + "\n" + r[maxLen - 5..]); r' != "" && StuckAt(r', 0, maxLen)
  {
    var s := h + "\n" + r[maxLen - 5..];
    StuckRewrite(r, h, maxLen);
    RewriteOpens(r, h, s, maxLen);
    hide OpensWith, ClosesInTime, TrimSpace, Plan;
    StuckPlan(s, h, maxLen);
    StuckRewrite(s, h, maxLen);
    assert s[..|h| + 1] == h + "\n";
    StuckInFront(s, maxLen, h);
  }

  /** A text that begins with a header line within six runes of the limit, is longer than the limit and has no further
      fence ending within it, is split for ever: the header is put back in front of the rest in every round. */
  lemma StuckNeverEnds(content: string, h: string, maxLen: nat)
    requires OpensWith(content, h) && 5 <= maxLen < |content| && |h| + 6 >= maxLen && !ClosesInTime(content, maxLen)
    ensures !Terminates(content, maxLen)
  {
    var st := Initial(content);
    assert Chars(st.runes) == content;
    hide Plan, TrimSpace, OpensWith, ClosesInTime, StuckAt, Terminates, Round;
    StuckPlan(content, h, maxLen);
    RoundTexts(st, maxLen);
    StuckNext(content, h, maxLen);
    StuckAfterOneRound(content, maxLen);
  }

  // ----- the loop that ends ----------------------------------------------------------------

  /** If the block does close in time, the first round emits it up to its closing fence. */
  lemma ClosingPlan(r: string, h: string, maxLen: nat)
    requires OpensWith(r, h) && 10 <= maxLen < |r| && |h| + 6 >= maxLen && ClosesInTime(r, maxLen)
    ensures Plan(r, 0, maxLen).Cut?
  {
    FirstNaturalEnd(r, maxLen);
    var i :| 0 < i && Fence(r, i, |r|) && i + 3 <= maxLen;
    var msgEnd := NaturalEnd(r, 0, maxLen);
    assert EffectiveLimit(maxLen) <= maxLen - 5;
    LaterFence(r, h, i);
    forall j | 0 < j
      ensures !Fence(r, j, msgEnd)
    {
      if Fence(r, j, msgEnd) {
        LaterFence(r, h, j);
      }
    }
    StartsWithFence(r, h);
    hide NaturalEnd, OpensWith, PlanInside, EffectiveLimit;
    OnlyFirstUnclosed(r, msgEnd);
    var closing := NextClosing(r, msgEnd);
    assert closing > 0 && closing <= maxLen;
  }

  /** The exact condition when every header line but the first one fits: splitting ends if and only if the text is no
      longer than the limit, its first header line leaves room beside a closing fence, another fence ends within the
      limit, or no fence can be added at all. */
  lemma OneHeaderTerminatesIff(content: string, h: string, maxLen: nat)
    requires OpensWith(content, h) && maxLen > 0
    requires forall i :: 0 < i && Fence(content, i, |content|) ==> |Header(content, i)| + 6 < maxLen
    ensures Terminates(content, maxLen) <==>
            |content| <= maxLen || |h| + 6 < maxLen || ClosesInTime(content, maxLen) || maxLen < 5
  {
    var st := Initial(content);
    assert Chars(st.runes) == content;
    hide OpensWith, ClosesInTime;
    if maxLen < 5 {
      TinyLimitTerminates(st, maxLen, |content|);
    } else if |content| <= maxLen {
      FitsAtOnce(content, maxLen);
    } else if |h| + 6 < maxLen {
      FirstFits(content, h, maxLen);
    } else if ClosesInTime(content, maxLen) {
      ClosedEnds(content, h, maxLen);
    } else {
      StuckNeverEnds(content, h, maxLen);
    }
  }

  lemma FitsAtOnce(content: string, maxLen: nat)
    requires 0 < |content| <= maxLen || content == ""
    requires maxLen > 0
    ensures Terminates(content, maxLen)
  {
    var st := Initial(content);
    assert Chars(st.runes) == content;
    if content == "" {
      assert Rounds(st, maxLen, 0).Some?;
    } else {
      PlanFinish(content, 0, maxLen);
      assert Rounds(Round(st, maxLen).1, maxLen, 0) == Some([]);
      assert Rounds(st, maxLen, 1).Some?;
    }
  }

  lemma FirstFits(content: string, h: string, maxLen: nat)
    requires OpensWith(content, h) && |h| + 6 < maxLen
    requires forall i :: 0 < i && Fence(content, i, |content|) ==> |Header(content, i)| + 6 < maxLen
    ensures Terminates(content, maxLen)
  {
    forall i: int | 0 <= i && Fence(content, i, |content|)
      ensures |Header(content, i)| + 6 < maxLen
    {
    }
    SplitTerminates(content, maxLen);
  }

  lemma ClosedEnds(content: string, h: string, maxLen: nat)
    requires OpensWith(content, h) && 5 <= maxLen < |content| && |h| + 6 >= maxLen && ClosesInTime(content, maxLen)
    requires forall i :: 0 < i && Fence(content, i, |content|) ==> |Header(content, i)| + 6 < maxLen
    ensures Terminates(content, maxLen)
  {
    hide OpensWith, ClosesInTime, Terminates, Rounds, Round, Header, Fence;
    RoomForOthers(content, maxLen);
    FirstCut(content, h, maxLen);
    var st := Initial(content);
    var next := Round(st, maxLen).1;
    TailEnds(content, next, maxLen);
    OneMoreRound(st, maxLen, Left(next) + |content|);
    EndsIf(content, maxLen, Left(next) + |content| + 1);
  }

  lemma RoomForOthers(content: string, maxLen: nat)
    requires ClosesInTime(content, maxLen)
    requires forall i :: 0 < i && Fence(content, i, |content|) ==> |Header(content, i)| + 6 < maxLen
    ensures maxLen >= 10
  {
    var i :| 0 < i && Fence(content, i, |content|) && i + 3 <= maxLen;
    HeaderShape(content, i);
  }

  lemma FirstCut(content: string, h: string, maxLen: nat)
    requires OpensWith(content, h) && 10 <= maxLen < |content| && |h| + 6 >= maxLen && ClosesInTime(content, maxLen)
    ensures var st := Initial(content);
            st.start < |st.runes| && var next := Round(st, maxLen).1;
            Chars(next.runes) == content && 0 < next.start <= |content|
  {
    hide Round, Plan, OpensWith, ClosesInTime;
    var st := Initial(content);
    assert Chars(st.runes) == content;
    ClosingPlan(content, h, maxLen);
    PlanInRange(content, 0, maxLen);
    RoundTexts(st, maxLen);
  }

  lemma TailEnds(content: string, next: State, maxLen: nat)
    requires maxLen > 0 && Chars(next.runes) == content && 0 < next.start <= |content|
    requires forall i :: 0 < i && Fence(content, i, |content|) ==> |Header(content, i)| + 6 < maxLen
    ensures 0 <= Left(next) && Rounds(next, maxLen, Left(next) + |content|).Some?
  {
    hide Header, Rounds;
    assert HeadersFit(content, next.start, maxLen);
    FitTerminates(next, maxLen, Left(next) + |content|);
  }

  lemma OneMoreRound(st: State, maxLen: nat, fuel: nat)
    requires maxLen > 0 && st.start < |st.runes| && Rounds(Round(st, maxLen).1, maxLen, fuel).Some?
    ensures Rounds(st, maxLen, fuel + 1).Some?
  {
    hide Round;
  }

  lemma EndsIf(content: string, maxLen: nat, fuel: nat)
    requires maxLen > 0 && Rounds(Initial(content), maxLen, fuel).Some?
    ensures Terminates(content, maxLen)
  {
  }

  /** A text that is one code block, never closed. */
  predicate OpenBlock(r: string, h: string) {
    OpensWith(r, h) && forall k :: |h| <= k < |r| ==> r[k] != '`'
  }

  /** For one open code block: splitting ends if and only if the text fits, its header line does, or no fence can be
      added. */
  lemma OpenBlockTerminatesIff(content: string, h: string, maxLen: nat)
    requires OpenBlock(content, h) && maxLen > 0
    ensures Terminates(content, maxLen) <==> |content| <= maxLen || |h| + 6 < maxLen || maxLen < 5
  {
    forall i | 0 < i
      ensures !Fence(content, i, |content|)
    {
      if Fence(content, i, |content|) {
        LaterFence(content, h, i);
      }
    }
    hide OpensWith;
    OneHeaderTerminatesIff(content, h, maxLen);
  }

  /** Sixteen runes that are never split to the end at a limit of twelve: an opening line, and one line of code. */
  lemma GoBlockNeverEnds()
    ensures !Terminates("```go run\ncode()", 12)
  {
    hide Terminates, Header, NewlineFrom, IsSpace;
    var r, h := "```go run\ncode()", "```go run";
    GoBlockOpens(r, h);
    OpenBlockTerminatesIff(r, h, 12);
  }

  lemma GoBlockOpens(r: string, h: string)
    requires r == "```go run\ncode()" && h == "```go run"
    ensures OpenBlock(r, h)
  {
    assert r[..9] == h && r[9] == '\n';
    HeaderIs(r, h);
  }

  /** Nineteen runes that are never split to the end at a limit of twelve: the words in front of the block are cut off
      first, and the block then keeps its opening line for ever. */
  lemma PrefacedBlockNeverEnds()
    ensures !Terminates("Hi\n```go run\ncode()", 12)
  {
    hide Plan, Round, Terminates, StuckAt;
    var r := "Hi\n```go run\ncode()";
    var st := Initial(r);
    assert Chars(st.runes) == r;
    PrefaceCut(r);
    RoundTexts(st, 12);
    PrefacedStuck(r);
    StuckAfterOneRound(r, 12);
  }

  lemma PrefaceCut(r: string)
    requires r == "Hi\n```go run\ncode()"
    ensures Plan(r, 0, 12) == Cut(2) && SkipGap(r, 2) == 3
  {
    hide LastIn;
    assert EffectiveLimit(12) == 6;
    assert r[2] == '\n' && r[3] == '`';
    assert NaturalEnd(r, 0, 12) == 2;
    assert SkipGap(r, 3) == 3;
  }

  lemma PrefacedStuck(r: string)
    requires r == "Hi\n```go run\ncode()"
    ensures StuckAt(r, 3, 12)
  {
    hide Plan, TrimSpace, StuckAt, IsSpace;
    var h := "```go run";
    PrefacedPlan(r, h);
    assert r[3..][..10] == h + "\n";
    PrefacedRewrite(h + "\n" + r[10..]);
    StuckIf(r, 3, 12, h);
  }

  lemma PrefacedRewrite(s: string)
    requires |s| == 19 && s[0] == '`' && s[18] == ')'
    ensures TrimSpace(s) == s
  {
    assert !IsSpace('`') && !IsSpace(')');
    hide IsSpace;
    Untrimmed(s);
  }

  lemma PrefacedPlan(r: string, h: string)
    requires r == "Hi\n```go run\ncode()" && h == "```go run"
    ensures Plan(r, 3, 12) == Reopen(10, h)
  {
    hide NaturalEnd, Unclosed, NextClosing, Header, EndBefore, HeaderEnd;
    PrefacedEnd(r);
    PrefacedFences(r, h);
    assert EndBefore(r, 3, 3) <= 3;
  }

  lemma PrefacedEnd(r: string)
    requires r == "Hi\n```go run\ncode()"
    ensures NaturalEnd(r, 3, 12) == 8
  {
    hide LastIn;
    assert EffectiveLimit(12) == 6;
    assert r[3] == r[4] == r[5] == '`' && r[6] == 'g' && r[7] == 'o' && r[8] == ' ';
    assert LastIn(r, 3, 9, NEWLINE) == -1;
    assert LastIn(r, 3, 9, BLANK) == 8;
  }

  lemma PrefacedFences(r: string, h: string)
    requires r == "Hi\n```go run\ncode()" && h == "```go run"
    ensures Fence(r, 3, |r|) && Header(r, 3) == h && HeaderEnd(r, 3) == 12
    ensures Unclosed(r, 3, 8) == 3 && NextClosing(r, 8) == -1
  {
    hide Header, NextClosing, UnclosedFrom, NewlineFrom, IsSpace, IsHeader;
    assert r[3..][..10] == h + "\n";
    GoHeader(h);
    HeaderOf(r, 3, h);
    PrefacedOpen(r);
    forall k | 8 <= k
      ensures !Fence(r, k, |r|)
    {
      assert k < |r| ==> r[k] != '`';
    }
  }

  lemma GoHeader(h: string)
    requires h == "```go run"
    ensures IsLine(h)
  {
  }

  lemma PrefacedOpen(r: string)
    requires |r| > 8 && r[3] == r[4] == r[5] == '`' && r[6] == 'g' && r[7] == 'o'
    ensures Unclosed(r, 3, 8) == 3
  {
    assert Fence(r, 3, 8);
    assert UnclosedFrom(r, 8, 8, true, 3) == 3;
    assert UnclosedFrom(r, 7, 8, true, 3) == 3;
    assert UnclosedFrom(r, 6, 8, true, 3) == 3;
  }
}
