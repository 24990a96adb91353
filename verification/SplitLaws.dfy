/** What the splitter guarantees: length, content, and exactly which rounds make progress. */
module SplitLaws {
  import opened Options
  import opened SplitPlan
  import opened Splitter

  // ----- length ----------------------------------------------------------------------------

  /** Every chunk a round emits, closing fence included, respects the limit, whatever the text. */
  lemma RoundLength(st: State, maxLen: nat)
    requires maxLen > 0 && st.start < |st.runes|
    ensures |Round(st, maxLen).0| <= maxLen
  {
    hide TrimmedGap, SkipGap, Trim;
    PlanInRange(Chars(st.runes), st.start, maxLen);
    PlanFinish(Chars(st.runes), st.start, maxLen);
    hide Plan;
  }

  lemma PlanFinish(r: string, start: nat, maxLen: nat)
    requires maxLen > 0 && start < |r|
    ensures Plan(r, start, maxLen).Finish? <==> |r| - start <= maxLen
  {
  }

  lemma {:induction false} RoundsLength(st: State, maxLen: nat, fuel: nat)
    requires maxLen > 0 && Rounds(st, maxLen, fuel).Some?
    ensures forall i :: 0 <= i < |Rounds(st, maxLen, fuel).value| ==> |Rounds(st, maxLen, fuel).value[i]| <= maxLen
    decreases fuel
  {
    hide Round;
    if st.start < |st.runes| {
      RoundLength(st, maxLen);
      RoundsLength(Round(st, maxLen).1, maxLen, fuel - 1);
    }
  }

  /** Main length law: no message of the result is longer than a positive limit. */
  lemma MessagesFit(content: string, maxLen: nat)
    requires maxLen > 0 && Terminates(content, maxLen)
    ensures forall m :: m in Texts(Chunks(content, maxLen)) ==> |m| <= maxLen
  {
    var fuel: nat :| Rounds(Initial(content), maxLen, fuel).Some?;
    ChunksAre(content, maxLen, fuel);
    RoundsLength(Initial(content), maxLen, fuel);
  }

  // ----- content ---------------------------------------------------------------------------

  /** The caller's own visible text: runes that were not injected and are not white space. */
  function Visible(t: seq<Rune>): string {
    if t == [] then ""
    else (if t[0].injected || IsSpace(t[0].c) then "" else [t[0].c]) + Visible(t[1..])
  }

  function Flatten(chunks: seq<seq<Rune>>): seq<Rune> {
    if chunks == [] then [] else chunks[0] + Flatten(chunks[1..])
  }

  lemma {:induction false} VisibleConcat(a: seq<Rune>, b: seq<Rune>)
    ensures Visible(a + b) == Visible(a) + Visible(b)
    decreases |a|
  {
    if a == [] {
      assert a + b == b;
    } else {
      assert (a + b)[1..] == a[1..] + b;
      VisibleConcat(a[1..], b);
    }
  }

  lemma {:induction false} VisibleNothing(t: seq<Rune>)
    requires forall i :: 0 <= i < |t| ==> t[i].injected || IsSpace(t[i].c)
    ensures Visible(t) == ""
    decreases |t|
  {
    if t != [] {
      VisibleNothing(t[1..]);
    }
  }

  lemma VisiblePrefix(t: seq<Rune>, hi: nat)
    requires hi <= |t| && forall i :: hi <= i < |t| ==> IsSpace(t[i].c)
    ensures Visible(t[..hi]) == Visible(t)
  {
    hide IsSpace;
    assert t == t[..hi] + t[hi..];
    VisibleConcat(t[..hi], t[hi..]);
    VisibleNothing(t[hi..]);
  }

  /** Cutting white space off the ends of a slice loses nothing visible. */
  lemma VisibleSlice(t: seq<Rune>, lo: nat, hi: nat)
    requires lo <= hi <= |t|
    requires forall i :: 0 <= i < lo || hi <= i < |t| ==> IsSpace(t[i].c)
    ensures Visible(t[lo..hi]) == Visible(t)
  {
    hide IsSpace;
    VisiblePrefix(t, hi);
    var front := t[..hi];
    assert front[..lo] == t[..lo] && front[lo..] == t[lo..hi] && front == front[..lo] + front[lo..];
    VisibleConcat(front[..lo], front[lo..]);
    VisibleNothing(front[..lo]);
  }

  lemma TrimVisible(t: seq<Rune>)
    ensures Visible(Trim(t)) == Visible(t)
  {
    var s := Chars(t);
    var lo, hi := LeadingSpace(s), TrimmedEnd(s);
    if lo <= hi {
      VisibleSlice(t, lo, hi);
    } else {
      VisibleNothing(t);
      assert Trim(t) == [];
    }
  }

  /** One round moves the visible text, unchanged and in order, into the chunk and the next state. */
  lemma RoundConserves(st: State, maxLen: nat)
    requires maxLen > 0 && st.start < |st.runes|
    ensures var (chunk, next) := Round(st, maxLen);
            next.start <= |next.runes| &&
            Visible(st.runes[st.start..]) == Visible(chunk) + Visible(next.runes[next.start..])
  {
    hide Plan, TrimRange, TrimmedGap, SkipGap;
    var r := Chars(st.runes);
    var t := st.runes;
    PlanInRange(r, st.start, maxLen);
    match Plan(r, st.start, maxLen)
    case Finish =>
      assert t[|t|..] == [];
    case Cut(at) =>
      CutConserves(t, st.start, at, SkipGap(r, at));
    case Reopen(at, header) =>
      var piece := t[st.start..at];
      assert t[st.start..] == piece + t[at..];
      VisibleConcat(piece, t[at..]);
      ReopenConserves(piece, t[at..], header);
      var next := Round(st, maxLen).1.runes;
      assert next[0..] == next;
  }

  lemma CutConserves(t: seq<Rune>, start: nat, at: nat, j: nat)
    requires start <= at <= j <= |t| && forall k :: at <= k < j ==> IsGap(t[k].c)
    ensures Visible(t[start..]) == Visible(t[start..at]) + Visible(t[j..])
  {
    var gap := t[at..j];
    assert t[start..] == t[start..at] + t[at..] && t[at..] == gap + t[j..];
    VisibleConcat(t[start..at], t[at..]);
    VisibleConcat(gap, t[j..]);
    VisibleNothing(gap);
  }

  lemma ReopenConserves(piece: seq<Rune>, rest: seq<Rune>, header: string)
    ensures Visible(piece[..TrimmedGap(Chars(piece))] + Tag(CLOSER, true)) == Visible(piece)
    ensures Visible(Trim(Tag(header + "\n", true) + rest)) == Visible(rest)
  {
    var n := TrimmedGap(Chars(piece));
    VisibleConcat(piece[..n], Tag(CLOSER, true));
    VisibleNothing(Tag(CLOSER, true));
    VisibleSlice(piece, 0, n);
    assert piece[0..n] == piece[..n];
    VisibleConcat(Tag(header + "\n", true), rest);
    VisibleNothing(Tag(header + "\n", true));
    TrimVisible(Tag(header + "\n", true) + rest);
  }

  lemma {:induction false} RoundsConserve(st: State, maxLen: nat, fuel: nat)
    requires maxLen > 0 && st.start <= |st.runes| && Rounds(st, maxLen, fuel).Some?
    ensures Visible(Flatten(Rounds(st, maxLen, fuel).value)) == Visible(st.runes[st.start..])
    decreases fuel
  {
    hide Round;
    if st.start < |st.runes| {
      var (chunk, next) := Round(st, maxLen);
      RoundConserves(st, maxLen);
      RoundsConserve(next, maxLen, fuel - 1);
      var rest := Rounds(next, maxLen, fuel - 1).value;
      assert ([chunk] + rest)[1..] == rest;
      VisibleConcat(chunk, Flatten(rest));
    }
  }

  lemma FlattenOne(t: seq<Rune>)
    ensures Flatten([t]) == t
  {
    var one := [t];
    assert one[1..] == [];
    assert Flatten(one) == t + Flatten(one[1..]) == t;
  }

  /** Main content law: apart from the fences and headers the splitter injected and from white space, the
      messages in order are exactly the input. */
  lemma ContentConserved(content: string, maxLen: int)
    requires maxLen > 0 ==> Terminates(content, maxLen)
    ensures Visible(Flatten(Chunks(content, maxLen))) == Visible(Tag(content, false))
  {
    var t := Tag(content, false);
    if maxLen <= 0 {
      if content != "" {
        FlattenOne(t);
      }
    } else {
      var fuel: nat :| Rounds(Initial(content), maxLen, fuel).Some?;
      ChunksAre(content, maxLen, fuel);
      assert t[0..] == t;
      RoundsConserve(Initial(content), maxLen, fuel);
    }
  }

  // ----- progress --------------------------------------------------------------------------

  /** If the last newline the second search finds lies inside the first search's range, the first search stops
      there too: its window reaches at least as far back. */
  lemma SameNewline(r: string, start: nat, maxLen: nat, better: int)
    requires start + maxLen < |r| && 23 <= maxLen && start < better < start + EffectiveLimit(maxLen)
    requires better == FindLast(r, start, start + maxLen - 5, 200, NEWLINE)
    ensures NaturalEnd(r, start, maxLen) == better
  {
    var end := start + EffectiveLimit(maxLen);
    assert end <= start + maxLen - 5;
    var lo := if end - 200 > start then end - 200 else start;
    var lo' := if start + maxLen - 5 - 200 > start then start + maxLen - 5 - 200 else start;
    assert lo <= lo' <= better;
    assert better == LastIn(r, lo', start + maxLen - 5, NEWLINE);
    assert LastIn(r, lo, end, NEWLINE) == better by {
      assert r[better] in NEWLINE;
      assert forall k :: better < k < end ==> r[k] !in NEWLINE;
    }
  }

  /** Splitting inside a code block after at least twenty runes of it always shortens the buffer: the newline
      that directly follows the header can never be chosen twice, because the first search would already have
      stopped there. */
  lemma InnerProgress(r: string, start: nat, maxLen: nat, u: int)
    requires start + maxLen < |r| && 0 < maxLen && start <= u && Fence(r, u, |r|)
    requires NaturalEnd(r, start, maxLen) > HeaderEnd(r, u) + 20
    ensures 5 <= maxLen && start <= HeaderEnd(r, u)
    ensures InnerEnd(r, start, maxLen, HeaderEnd(r, u)) - start > |Header(r, u)| + 1
  {
    hide TrimRange, NaturalEnd, FindLast;
    var e, he := NewlineFrom(r, u), HeaderEnd(r, u);
    assert u <= he && |Header(r, u)| <= he - u;
    assert EffectiveLimit(maxLen) > 20;
    assert maxLen >= 23;
    hide Header, HeaderEnd, Fence, NewlineFrom;
    var better := FindLast(r, start, start + maxLen - 5, 200, NEWLINE);
    if better > he {
      if better < start + EffectiveLimit(maxLen) {
        SameNewline(r, start, maxLen, better);
      }
      assert better > he + 20;
    }
  }

  /** The one guard under which a round may fail to shorten the buffer: the code block opens within the first
      twenty runes, nothing can be cut before it, and its header line leaves no room for any content. */
  predicate HeaderTooLong(r: string, start: nat, maxLen: nat)
    requires maxLen > 0 && start < |r|
  {
    var p := Plan(r, start, maxLen);
    p.Reopen? && |p.header| + 6 >= maxLen && p.to == start + maxLen - 5
  }

  lemma ReopenShrinks(r: string, start: nat, maxLen: nat)
    requires maxLen > 0 && start < |r| && Plan(r, start, maxLen).Reopen? && !HeaderTooLong(r, start, maxLen)
    ensures Plan(r, start, maxLen).to - start > |Plan(r, start, maxLen).header| + 1
  {
    hide Header, HeaderEnd, InnerEnd, NaturalEnd, Unclosed, NextClosing, Fence, EndBefore;
    var msgEnd := NaturalEnd(r, start, maxLen);
    var u := Unclosed(r, start, msgEnd);
    UnclosedNeedsRoom(r, start, maxLen, msgEnd, u);
    if msgEnd > HeaderEnd(r, u) + 20 {
      InnerProgress(r, start, maxLen, u);
    }
  }

  /** A round shortens what is left of the buffer unless its header is too long. */
  lemma RoundShrinks(st: State, maxLen: nat)
    requires maxLen > 0 && st.start < |st.runes|
    requires !HeaderTooLong(Chars(st.runes), st.start, maxLen)
    ensures 0 <= Left(Round(st, maxLen).1) < Left(st)
  {
    var r := Chars(st.runes);
    PlanInRange(r, st.start, maxLen);
    if Plan(r, st.start, maxLen).Reopen? {
      ReopenShrinks(r, st.start, maxLen);
    }
    hide Plan, HeaderTooLong, TrimRange, TrimmedGap, SkipGap;
  }

  /** And on a text that does not end in white space, only then: with a header that is too long the buffer does
      not get shorter. */
  lemma LongHeaderNeverShrinks(st: State, maxLen: nat)
    requires maxLen > 0 && st.start < |st.runes| && !IsSpace(st.runes[|st.runes| - 1].c)
    requires HeaderTooLong(Chars(st.runes), st.start, maxLen)
    ensures Left(Round(st, maxLen).1) >= Left(st)
  {
    hide Plan, HeaderTooLong, Round, IsSpace, Trim;
    var at, header := TooLongFacts(Chars(st.runes), st.start, maxLen);
    UntrimmedTail(header, st.runes, at);
    ReopenLeft(st, maxLen, at, header);
  }

  lemma TooLongFacts(r: string, start: nat, maxLen: nat) returns (at: nat, header: string)
    requires maxLen > 0 && start < |r| && HeaderTooLong(r, start, maxLen)
    ensures Plan(r, start, maxLen) == Reopen(at, header)
    ensures start + maxLen < |r| && at == start + maxLen - 5 && |header| + 6 >= maxLen
    ensures |header| >= 3 && header[0] == '`' && !IsSpace(header[0])
  {
    PlanInRange(r, start, maxLen);
    PlanFinish(r, start, maxLen);
    ReopenHeader(r, start, maxLen);
    hide NaturalEnd, Unclosed, NextClosing, PlanInside;
    at, header := Plan(r, start, maxLen).to, Plan(r, start, maxLen).header;
  }

  lemma ReopenLeft(st: State, maxLen: nat, at: int, header: string)
    requires maxLen > 0 && st.start < |st.runes| && Plan(Chars(st.runes), st.start, maxLen) == Reopen(at, header)
    ensures 0 <= at <= |st.runes|
    ensures Left(Round(st, maxLen).1) == |Trim(Tag(header + "\n", true) + st.runes[at..])|
  {
    PlanInRange(Chars(st.runes), st.start, maxLen);
    hide Plan, TrimmedGap, Trim, Chars;
  }

  lemma UntrimmedTail(header: string, t: seq<Rune>, at: nat)
    requires at < |t| && header != "" && !IsSpace(header[0]) && !IsSpace(t[|t| - 1].c)
    ensures var rest := Tag(header + "\n", true) + t[at..]; Trim(rest) == rest && |rest| == |header| + 1 + |t| - at
  {
    hide IsSpace, Trim;
    var rest := Tag(header + "\n", true) + t[at..];
    assert rest[0].c == header[0];
    assert rest[|rest| - 1] == t[|t| - 1];
    FullTrim(rest);
  }

  lemma FullTrim(t: seq<Rune>)
    requires t != [] && !IsSpace(t[0].c) && !IsSpace(t[|t| - 1].c)
    ensures Trim(t) == t
  {
    hide IsSpace;
    var s := Chars(t);
    assert LeadingSpace(s) == 0 && TrimmedEnd(s) == |s|;
  }

  lemma ReopenHeader(r: string, start: nat, maxLen: nat)
    requires maxLen > 0 && start < |r| && Plan(r, start, maxLen).Reopen?
    ensures exists u :: start <= u && Fence(r, u, |r|) && Plan(r, start, maxLen).header == Header(r, u)
    ensures var h := Plan(r, start, maxLen).header; |h| >= 3 && h[0] == '`' && !IsSpace(h[|h| - 1])
  {
    hide InnerEnd, NaturalEnd, NextClosing, EndBefore, HeaderEnd;
    var u := Unclosed(r, start, NaturalEnd(r, start, maxLen));
    UnclosedNeedsRoom(r, start, maxLen, NaturalEnd(r, start, maxLen), u);
    HeaderShape(r, u);
  }

  lemma HeaderShape(r: string, u: int)
    requires Fence(r, u, |r|)
    ensures var h := Header(r, u); |h| >= 3 && h[0] == h[1] == h[2] == '`' && !IsSpace(h[|h| - 1])
    ensures Header(r, u) <= r[u..]
  {
    hide TrimSpace, NewlineFrom;
    var e := NewlineFrom(r, u);
    assert r[u] == r[u + 1] == r[u + 2] == '`';
    var line := if e == -1 then r[u..u + 3] else r[u..e];
    assert e != -1 ==> e > u + 2;
    assert line[0] == line[1] == line[2] == '`';
    TrimFence(line);
    assert line <= r[u..];
  }

  lemma TrimFence(line: string)
    requires |line| >= 3 && line[0] == line[1] == line[2] == '`'
    ensures var h := TrimSpace(line); |h| >= 3 && h[0] == h[1] == h[2] == '`' && !IsSpace(h[|h| - 1]) && h <= line
  {
    assert !IsSpace('`');
    hide IsSpace, LeadingSpace, TrimmedEnd;
    assert LeadingSpace(line) == 0;
    assert TrimmedEnd(line) >= 3;
    assert line[0..TrimmedEnd(line)] == line[..TrimmedEnd(line)];
  }

  // ----- termination -----------------------------------------------------------------------

  /** Every line from `start` on that opens with a fence leaves room in a message next to the closing fence. */
  ghost predicate HeadersFit(r: string, start: nat, maxLen: nat) {
    forall i :: start <= i && Fence(r, i, |r|) ==> |Header(r, i)| + 6 < maxLen
  }

  lemma FitNotTooLong(r: string, start: nat, maxLen: nat)
    requires maxLen > 0 && start < |r| && HeadersFit(r, start, maxLen)
    ensures !HeaderTooLong(r, start, maxLen)
  {
    if Plan(r, start, maxLen).Reopen? {
      ReopenHeader(r, start, maxLen);
    }
    hide Plan;
  }

  lemma {:induction false} NewlineShift(r: string, s: string, i: int, j: int, d: int)
    requires 0 <= i <= j && 0 <= i + d && |s| <= |r| + d
    requires forall k :: i <= k && k + d < |s| ==> k < |r| && r[k] == s[k + d]
    requires forall k :: i <= k < |r| && k + d >= |s| ==> IsSpace(r[k])
    ensures NewlineFrom(s, j + d) == -1 || NewlineFrom(s, j + d) == NewlineFrom(r, j) + d
    decreases |r| - j
  {
    if j + d < |s| && s[j + d] != '\n' {
      NewlineShift(r, s, i, j + 1, d);
    }
  }

  /** Headers in the tail of a trimmed buffer are headers of the original buffer, or bare fences. */
  lemma TailHeader(r: string, s: string, at: nat, d: int, i: int)
    requires at <= |r| && 0 <= at + d && |s| <= |r| + d
    requires forall k :: at <= k && k + d < |s| ==> k < |r| && r[k] == s[k + d]
    requires forall k :: at <= k < |r| && k + d >= |s| ==> IsSpace(r[k])
    requires at + d <= i && Fence(s, i, |s|)
    ensures Fence(r, i - d, |r|)
    ensures |Header(s, i)| <= 3 || Header(s, i) == Header(r, i - d)
  {
    hide NewlineFrom, TrimRange;
    assert r[i - d] == s[i] && r[i - d + 1] == s[i + 1] && r[i - d + 2] == s[i + 2];
    NewlineShift(r, s, at, i - d, d);
    var e := NewlineFrom(s, i);
    if e != -1 {
      SameSlice(r, s, at, d, i, e);
    }
  }

  lemma SameSlice(r: string, s: string, at: nat, d: int, i: int, e: int)
    requires at <= |r| && 0 <= at + d && |s| <= |r| + d
    requires forall k :: at <= k && k + d < |s| ==> k < |r| && r[k] == s[k + d]
    requires at + d <= i <= e <= |s|
    ensures 0 <= i - d <= e - d <= |r| && s[i..e] == r[i - d..e - d]
  {
    forall k | i <= k < e
      ensures s[k] == r[k - d]
    {
      assert (k - d) + d < |s|;
    }
  }

  /** Headers in the re-opened line are no longer than that line. */
  lemma HeadHeader(s: string, n: nat, i: int)
    requires n <= |s| && (n < |s| ==> s[n] == '\n') && 0 <= i < n && Fence(s, i, |s|)
    ensures |Header(s, i)| <= Max(n, 3)
  {
    var e := NewlineFrom(s, i);
    hide TrimRange;
  }

  lemma ReopenFits(r: string, at: nat, header: string, maxLen: nat)
    requires at <= |r| && HeadersFit(r, at, maxLen) && |header| + 6 < maxLen
    requires |header| >= 3 && !IsSpace(header[0]) && !IsSpace(header[|header| - 1])
    ensures HeadersFit(TrimSpace(header + "\n" + r[at..]), 0, maxLen)
  {
    hide IsSpace, Header, LeadingSpace, TrimmedEnd;
    var full := header + "\n" + r[at..];
    var n := |header|;
    assert full[0] == header[0] && full[n - 1] == header[n - 1];
    assert LeadingSpace(full) == 0 && TrimmedEnd(full) >= n;
    var s := TrimSpace(full);
    assert s == full[..TrimmedEnd(full)];
    var d := n + 1 - at;
    assert forall k :: at <= k && k + d < |s| ==> s[k + d] == full[k + d] == r[k];
    assert forall k :: at <= k < |r| && k + d >= |s| ==> full[k + d] == r[k];
    forall i | Fence(s, i, |s|)
      ensures |Header(s, i)| + 6 < maxLen
    {
      if i < n {
        assert n < |s| ==> s[n] == full[n] == '\n';
        HeadHeader(s, n, i);
      } else {
        assert s[n] == full[n] == '\n';
        assert i >= n + 1;
        TailHeader(r, s, at, d, i);
      }
    }
  }

  lemma RoundFits(st: State, maxLen: nat)
    requires maxLen > 0 && st.start < |st.runes| && HeadersFit(Chars(st.runes), st.start, maxLen)
    ensures HeadersFit(Chars(Round(st, maxLen).1.runes), Round(st, maxLen).1.start, maxLen)
  {
    hide Round, Plan, HeadersFit, TrimSpace;
    var r := Chars(st.runes);
    RoundTexts(st, maxLen);
    match Plan(r, st.start, maxLen)
    case Finish => LaterFit(r, st.start, |r|, maxLen);
    case Cut(at) => LaterFit(r, st.start, SkipGap(r, at), maxLen);
    case Reopen(at, header) => ReopenPlanFits(r, st.start, maxLen, at, header);
  }

  lemma LaterFit(r: string, start: nat, later: nat, maxLen: nat)
    requires HeadersFit(r, start, maxLen) && start <= later
    ensures HeadersFit(r, later, maxLen)
  {
  }

  lemma ReopenPlanFits(r: string, start: nat, maxLen: nat, at: int, header: string)
    requires maxLen > 0 && start < |r| && HeadersFit(r, start, maxLen)
    requires Plan(r, start, maxLen) == Reopen(at, header)
    ensures 0 <= at <= |r| && HeadersFit(TrimSpace(header + "\n" + r[at..]), 0, maxLen)
  {
    PlanInRange(r, start, maxLen);
    ReopenHeader(r, start, maxLen);
    hide Plan, TrimSpace;
    LaterFit(r, start, at, maxLen);
    ReopenFits(r, at, header, maxLen);
  }

  lemma {:induction false} FitTerminates(st: State, maxLen: nat, fuel: nat)
    requires maxLen > 0 && HeadersFit(Chars(st.runes), st.start, maxLen) && Left(st) <= fuel
    ensures Rounds(st, maxLen, fuel).Some?
    decreases fuel
  {
    hide Round, Plan;
    if st.start < |st.runes| {
      FitNotTooLong(Chars(st.runes), st.start, maxLen);
      RoundShrinks(st, maxLen);
      RoundFits(st, maxLen);
      FitTerminates(Round(st, maxLen).1, maxLen, fuel - 1);
    }
  }

  /** Main termination law, with a bound: if every header line fits, the loop ends after at most one round per
      rune, through all buffer rewrites. */
  lemma SplitTerminates(content: string, maxLen: nat)
    requires maxLen > 0 && HeadersFit(content, 0, maxLen)
    ensures Rounds(Initial(content), maxLen, |content|).Some? && Terminates(content, maxLen)
  {
    assert Chars(Initial(content).runes) == content;
    FitTerminates(Initial(content), maxLen, |content|);
  }

  lemma TinyNeverReopens(r: string, start: nat, maxLen: nat)
    requires 0 < maxLen < 5 && start < |r|
    ensures !Plan(r, start, maxLen).Reopen?
  {
    if |r| - start > maxLen {
      var msgEnd := NaturalEnd(r, start, maxLen);
      assert EffectiveLimit(maxLen) <= 2;
    }
    hide NaturalEnd, Unclosed, NextClosing, PlanInside;
  }

  /** Below five runes no fence fits into a chunk, so nothing is ever rewritten. */
  lemma {:induction false} TinyLimitTerminates(st: State, maxLen: nat, fuel: nat)
    requires 0 < maxLen < 5 && Left(st) <= fuel
    ensures Rounds(st, maxLen, fuel).Some?
    decreases fuel
  {
    hide Round, Plan;
    if st.start < |st.runes| {
      TinyNeverReopens(Chars(st.runes), st.start, maxLen);
      RoundShrinks(st, maxLen);
      TinyLimitTerminates(Round(st, maxLen).1, maxLen, fuel - 1);
    }
  }
}
