/** Where the splitter cuts text without code blocks: at line ends, else at blanks, else at the limit. */
module SplitWords {
  import opened Options
  import opened SplitPlan
  import opened Splitter
  import opened SplitLaws

  /** How far a message reaches for its natural end: a tenth of the limit is kept free for code blocks, but at least 50
      runes, and at most half of the limit. */
  function Reach(maxLen: nat): nat {
    if maxLen < 100 then maxLen - maxLen / 2 else if maxLen < 500 then maxLen - 50 else maxLen - maxLen / 10
  }

  lemma ReachIs(maxLen: nat)
    ensures EffectiveLimit(maxLen) == Reach(maxLen) <= maxLen && (maxLen > 0 ==> Reach(maxLen) > 0)
  {
  }

  /** Index k holds the last rune out of cs in [lo, hi). */
  predicate LastAt(r: string, lo: int, hi: int, cs: set<char>, k: int) {
    && 0 <= lo <= k < hi <= |r| && r[k] in cs
    && forall j :: k < j < hi ==> r[j] !in cs
  }

  predicate NoneIn(r: string, lo: int, hi: int, cs: set<char>) {
    forall j :: lo <= j < hi && 0 <= j < |r| ==> r[j] !in cs
  }

  /** The cut is at the last newline after `start` among the 200 runes before w; without one, at the last blank or tab
      among the 100 runes before w; without one, at w itself. */
  predicate NaturallyAt(r: string, start: int, w: int, cut: int) {
    var lines, words := if start + 1 < w - 200 then w - 200 else start + 1, if start + 1 < w - 100 then w - 100 else start + 1;
    || LastAt(r, lines, w, {'\n'}, cut)
    || (NoneIn(r, lines, w, {'\n'}) && LastAt(r, words, w, {' ', '\t'}, cut))
    || (NoneIn(r, lines, w, {'\n'}) && NoneIn(r, words, w, {' ', '\t'}) && cut == w)
  }

  lemma FoundLast(r: string, start: nat, end: nat, window: nat, cs: set<char>)
    requires start < end <= |r|
    ensures var lo := if start + 1 < end - window then end - window else start + 1;
            var i := FindLast(r, start, end, window, cs);
            if i > start then LastAt(r, lo, end, cs, i) else NoneIn(r, lo, end, cs)
  {
  }

  lemma NaturalEndIs(r: string, start: nat, maxLen: nat)
    requires maxLen > 0 && start + maxLen < |r|
    ensures NaturallyAt(r, start, start + Reach(maxLen), NaturalEnd(r, start, maxLen))
  {
    hide FindLast, EffectiveLimit, Reach;
    ReachIs(maxLen);
    FoundLast(r, start, start + Reach(maxLen), 200, NEWLINE);
    FoundLast(r, start, start + Reach(maxLen), 100, BLANK);
  }

  /** The description leaves no choice. */
  lemma NaturallyAtOne(r: string, start: int, w: int, a: int, b: int)
    requires NaturallyAt(r, start, w, a) && NaturallyAt(r, start, w, b) && 0 <= start < w <= |r|
    ensures a == b
  {
  }

  /** No three backticks in a row in [lo, hi). */
  predicate FenceFree(r: string, lo: int, hi: int) {
    forall i :: 0 <= lo <= i && i + 2 < hi <= |r| ==> !(r[i] == '`' && r[i + 1] == '`' && r[i + 2] == '`')
  }

  lemma {:induction false} NothingOpens(r: string, i: nat, end: nat)
    requires end <= |r| && FenceFree(r, i, end)
    ensures UnclosedFrom(r, i, end, false, -1) == -1
    decreases end - i
  {
    if i < end {
      NothingOpens(r, i + 1, end);
    }
  }

  /** Without a fence within reach the message ends there. */
  lemma PlainCut(r: string, start: nat, maxLen: nat)
    requires maxLen > 0 && start + maxLen < |r| && FenceFree(r, start, start + Reach(maxLen))
    ensures Plan(r, start, maxLen).Cut? && NaturallyAt(r, start, start + Reach(maxLen), Plan(r, start, maxLen).at)
  {
    hide NaturallyAt, NaturalEnd, PlanInside, UnclosedFrom, EffectiveLimit, Reach;
    ReachIs(maxLen);
    NaturalEndIs(r, start, maxLen);
    NothingOpens(r, start, NaturalEnd(r, start, maxLen));
  }

  // ----- with code blocks ------------------------------------------------------------------

  /** A cut in front of a block that begins at u: at the last newline after `start` among the 200 runes before it; without
      one, at the last blank or tab among the 100 runes before it. */
  predicate BeforeBlock(r: string, start: int, u: int, cut: int) {
    var lines, words := if start + 1 < u - 200 then u - 200 else start + 1, if start + 1 < u - 100 then u - 100 else start + 1;
    || LastAt(r, lines, u, {'\n'}, cut)
    || (NoneIn(r, lines, u, {'\n'}) && LastAt(r, words, u, {' ', '\t'}, cut))
  }

  /** Nothing to cut at in front of the block. */
  predicate NothingBefore(r: string, start: int, u: int) {
    && NoneIn(r, if start + 1 < u - 200 then u - 200 else start + 1, u, {'\n'})
    && NoneIn(r, if start + 1 < u - 100 then u - 100 else start + 1, u, {' ', '\t'})
  }

  /** What happens to a block that is open at the natural end and does not close in time.  With more than twenty runes of
      it before the natural end it is closed and put back at the last newline behind its header line among the 200 runes
      before the room for a closing fence, or there.  Otherwise the message ends before the block; or at it, if more than
      twenty runes come before it; or the block is closed and put back after all. */
  predicate BlockDecision(r: string, start: int, maxLen: int, msgEnd: int, u: int, headerEnd: int, header: string, a: Action) {
    var room := start + maxLen - 5;
    if msgEnd > headerEnd + 20 then
      a.Reopen? && a.header == header
      && ((headerEnd < a.to && LastAt(r, if start < room - 200 then room - 200 else start, room, {'\n'}, a.to))
          || (a.to == room
              && NoneIn(r, if headerEnd + 1 < room - 200 then room - 200 else headerEnd + 1, room, {'\n'})))
    else
      || (a.Cut? && BeforeBlock(r, start, u, a.at))
      || (NothingBefore(r, start, u) && u - start > 20 && a == Cut(u))
      || (NothingBefore(r, start, u) && u - start <= 20 && a == Reopen(room, header))
  }

  lemma BlockDecided(r: string, start: nat, maxLen: nat, msgEnd: int, u: nat)
    requires start + maxLen < |r| && 5 <= maxLen && start <= u && Fence(r, u, |r|)
    ensures BlockDecision(r, start, maxLen, msgEnd, u, HeaderEnd(r, u), Header(r, u), PlanInside(r, start, maxLen, msgEnd, u))
  {
    hide FindLast, Header, HeaderEnd, EndBefore, InnerEnd, LastAt, NoneIn, BeforeBlock, NothingBefore;
    HeaderBehind(r, u);
    if msgEnd > HeaderEnd(r, u) + 20 {
      RoomFound(r, start, maxLen, HeaderEnd(r, u));
    } else {
      FoundBefore(r, start, u);
    }
  }

  lemma RoomFound(r: string, start: nat, maxLen: nat, headerEnd: int)
    requires start + maxLen < |r| && 5 <= maxLen && start <= headerEnd
    ensures var room, to := start + maxLen - 5, InnerEnd(r, start, maxLen, headerEnd);
            || (headerEnd < to && LastAt(r, if start < room - 200 then room - 200 else start, room, {'\n'}, to))
            || (to == room && NoneIn(r, if headerEnd + 1 < room - 200 then room - 200 else headerEnd + 1, room, {'\n'}))
  {
    hide LastIn;
  }

  lemma FoundBefore(r: string, start: nat, u: nat)
    requires start <= u <= |r|
    ensures var cut := EndBefore(r, start, u); if cut > start then BeforeBlock(r, start, u, cut) else NothingBefore(r, start, u)
  {
    hide FindLast, LastAt, NoneIn;
    if start < u {
      FoundLast(r, start, u, 200, NEWLINE);
      FoundLast(r, start, u, 100, BLANK);
    } else {
      NothingThere(r, start);
    }
  }

  lemma NothingThere(r: string, start: nat)
    requires start <= |r|
    ensures NothingBefore(r, start, start) && EndBefore(r, start, start) <= start
  {
  }

  lemma HeaderBehind(r: string, u: nat)
    requires Fence(r, u, |r|)
    ensures u <= HeaderEnd(r, u)
  {
    HeaderShape(r, u);
    hide Header;
  }

  /** The whole decision of a round: everything left, if it fits; the natural end, if no block is open there; the end of the
      next fence, if the open block closes within the limit; and otherwise what becomes of the block. */
  lemma PlanMeans(r: string, start: nat, maxLen: nat)
    requires maxLen > 0 && start < |r|
    ensures |r| - start <= maxLen ==> Plan(r, start, maxLen) == Finish
    ensures |r| - start > maxLen ==>
              var msgEnd, a := NaturalEnd(r, start, maxLen), Plan(r, start, maxLen);
              var u, closing := Unclosed(r, start, msgEnd), NextClosing(r, msgEnd);
              && NaturallyAt(r, start, start + Reach(maxLen), msgEnd)
              && if u < 0 then a == Cut(msgEnd)
                 else if closing != -1 && closing - start <= maxLen then a == Cut(closing)
                 else start <= u && Fence(r, u, |r|)
                      && BlockDecision(r, start, maxLen, msgEnd, u, HeaderEnd(r, u), Header(r, u), a)
  {
    hide NaturalEnd, Unclosed, NextClosing, Header, HeaderEnd, PlanInside, BlockDecision, NaturallyAt, Reach;
    if |r| - start > maxLen {
      NaturalEndIs(r, start, maxLen);
      var msgEnd := NaturalEnd(r, start, maxLen);
      var u := Unclosed(r, start, msgEnd);
      if u >= 0 {
        UnclosedNeedsRoom(r, start, maxLen, msgEnd, u);
        BlockDecided(r, start, maxLen, msgEnd, u);
      }
    }
  }

  // ----- whole texts -----------------------------------------------------------------------

  /** The messages of a text without code blocks, from `start` on: what is left if it fits; otherwise the text up to the
      natural end, and then on from the next rune that is no blank, tab, newline or carriage return. */
  ghost predicate NaturalSplit(r: string, start: nat, maxLen: nat, texts: seq<string>)
    requires start <= |r|
    decreases |r| - start
  {
    if start == |r| then texts == []
    else if |r| - start <= maxLen then texts == [r[start..]]
    else
      && texts != []
      && exists cut, next :: start < cut <= next <= |r| && NaturallyAt(r, start, start + Reach(maxLen), cut)
           && texts[0] == r[start..cut] && NextText(r, cut, next) && NaturalSplit(r, next, maxLen, texts[1..])
  }

  predicate NextText(r: string, cut: int, next: int) {
    && 0 <= cut <= next <= |r|
    && (forall k :: cut <= k < next ==> r[k] in {' ', '\t', '\n', '\r'})
    && (next < |r| ==> r[next] !in {' ', '\t', '\n', '\r'})
  }

  /** A round on a text without fences. */
  lemma NaturalRound(r: string, st: State, maxLen: nat)
    requires maxLen > 0 && st.start < |st.runes| && Chars(st.runes) == r && FenceFree(r, 0, |r|)
    ensures var (chunk, next) := Round(st, maxLen);
            && next.runes == st.runes
            && if |r| - st.start <= maxLen then Chars(chunk) == r[st.start..] && next.start == |r|
               else exists cut :: st.start < cut <= next.start <= |r| && NextText(r, cut, next.start)
                      && NaturallyAt(r, st.start, st.start + Reach(maxLen), cut) && Chars(chunk) == r[st.start..cut]
  {
    hide Round, Plan, NaturallyAt, FenceFree, Reach, TrimSpace, TrimmedGap, EffectiveLimit;
    RoundTexts(st, maxLen);
    if |r| - st.start <= maxLen {
      PlanFinish(r, st.start, maxLen);
    } else {
      ReachIs(maxLen);
      FreeWithin(r, st.start, st.start + Reach(maxLen));
      PlainCut(r, st.start, maxLen);
      var cut := Plan(r, st.start, maxLen).at;
      GapSkipped(r, cut);
    }
  }

  lemma GapSkipped(r: string, cut: nat)
    requires cut <= |r|
    ensures NextText(r, cut, SkipGap(r, cut))
  {
  }

  lemma {:induction false} RoundsNatural(r: string, st: State, maxLen: nat, fuel: nat)
    requires maxLen > 0 && st.start <= |st.runes| && Chars(st.runes) == r && FenceFree(r, 0, |r|)
    requires Rounds(st, maxLen, fuel).Some?
    ensures NaturalSplit(r, st.start, maxLen, Texts(Rounds(st, maxLen, fuel).value))
    decreases fuel
  {
    hide Round, Plan, NaturallyAt, NextText, FenceFree, Texts, Reach, TrimSpace, Chars;
    NoTexts();
    if st.start < |st.runes| {
      var (chunk, next) := Round(st, maxLen);
      var rest := Rounds(next, maxLen, fuel - 1).value;
      NaturalRound(r, st, maxLen);
      TextsCons(chunk, rest);
      RoundsNatural(r, next, maxLen, fuel - 1);
    }
  }

  lemma FreeWithin(r: string, lo: nat, hi: nat)
    requires FenceFree(r, 0, |r|) && hi <= |r|
    ensures FenceFree(r, lo, hi)
  {
  }

  lemma NoTexts()
    ensures Texts([]) == []
  {
  }

  lemma TextsCons(chunk: seq<Rune>, rest: seq<seq<Rune>>)
    ensures Texts([chunk] + rest) == [Chars(chunk)] + Texts(rest)
    ensures Texts([chunk] + rest)[0] == Chars(chunk) && Texts([chunk] + rest)[1..] == Texts(rest)
  {
  }

  /** A text without three backticks in a row is always split to the end, and its messages are the ones described. */
  lemma PlainTextSplit(content: string, maxLen: nat)
    requires maxLen > 0 && FenceFree(content, 0, |content|)
    ensures Terminates(content, maxLen) && NaturalSplit(content, 0, maxLen, Texts(Chunks(content, maxLen)))
  {
    hide FenceFree, NaturalSplit;
    NoHeaders(content, maxLen);
    SplitTerminates(content, maxLen);
    ChunksAre(content, maxLen, |content|);
    assert Chars(Initial(content).runes) == content;
    RoundsNatural(content, Initial(content), maxLen, |content|);
  }

  lemma NoHeaders(content: string, maxLen: nat)
    requires FenceFree(content, 0, |content|)
    ensures HeadersFit(content, 0, maxLen)
  {
  }

  /** Wherever n runes stand in a row, one of them is a newline, a blank or a tab. */
  predicate Spaced(r: string, n: int) {
    forall i :: 0 <= i && i + n <= |r| ==> BlankWithin(r, i, n)
  }

  predicate BlankWithin(r: string, i: int, n: int) {
    exists j :: 0 <= i <= j < i + n && j < |r| && r[j] in {'\n', ' ', '\t'}
  }

  /** The text is a part of r that neither begins nor ends inside a word. */
  ghost predicate WholeWords(r: string, text: string) {
    exists a, b :: 0 <= a <= b <= |r| && text == r[a..b]
      && (a == 0 || r[a - 1] in {' ', '\t', '\n', '\r'}) && (b == |r| || r[b] in {' ', '\t', '\n', '\r'})
  }

  lemma {:induction false} WholeFrom(r: string, start: nat, maxLen: nat, texts: seq<string>)
    requires maxLen > 0 && start <= |r| && NaturalSplit(r, start, maxLen, texts)
    requires start == 0 || start == |r| || r[start - 1] in {' ', '\t', '\n', '\r'}
    requires Spaced(r, if Reach(maxLen) > 100 then 100 else Reach(maxLen) - 1)
    ensures forall text :: text in texts ==> WholeWords(r, text)
    decreases |r| - start
  {
    hide Reach, Spaced, NaturallyAt, WholeWords;
    if start < |r| {
      if |r| - start <= maxLen {
        assert r[start..] == r[start..|r|];
        WholePiece(r, start, |r|);
      } else {
        var cut, next :| start < cut <= next <= |r| && NaturallyAt(r, start, start + Reach(maxLen), cut)
             && texts[0] == r[start..cut] && NextText(r, cut, next) && NaturalSplit(r, next, maxLen, texts[1..]);
        ReachIs(maxLen);
        CutAtBlank(r, start, start + Reach(maxLen), cut);
        WholePiece(r, start, cut);
        WholeFrom(r, next, maxLen, texts[1..]);
      }
    }
  }

  lemma WholePiece(r: string, a: nat, b: nat)
    requires a <= b <= |r| && (a == 0 || r[a - 1] in {' ', '\t', '\n', '\r'}) && (b == |r| || r[b] in {' ', '\t', '\n', '\r'})
    ensures WholeWords(r, r[a..b])
  {
  }

  lemma CutAtBlank(r: string, start: nat, w: nat, cut: int)
    requires start < w <= |r| && NaturallyAt(r, start, w, cut)
    requires Spaced(r, if w - start > 100 then 100 else w - start - 1)
    ensures cut < |r| && r[cut] in {'\n', ' ', '\t'}
  {
    var n := if w - start > 100 then 100 else w - start - 1;
    assert BlankWithin(r, w - n, n);
    var j :| w - n <= j < w && r[j] in {'\n', ' ', '\t'};
  }

  /** No word is cut in two where words are short: if every 100 runes of a text without code blocks hold a newline, a
      blank or a tab (for limits up to 150: every run of one less than a message reaches), no message begins or ends
      inside a word. */
  lemma WordsStayWhole(content: string, maxLen: nat)
    requires maxLen > 0 && FenceFree(content, 0, |content|)
    requires Spaced(content, if Reach(maxLen) > 100 then 100 else Reach(maxLen) - 1)
    ensures Terminates(content, maxLen) && forall text :: text in Texts(Chunks(content, maxLen)) ==> WholeWords(content, text)
  {
    hide FenceFree, NaturalSplit, Reach, Spaced, Texts;
    PlainTextSplit(content, maxLen);
    WholeFrom(content, 0, maxLen, Texts(Chunks(content, maxLen)));
  }
}
