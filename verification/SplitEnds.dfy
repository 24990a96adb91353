/** Exactly when the splitting loop ends: for every text and every limit. */
module SplitEnds {
  import opened Options
  import opened SplitPlan
  import opened Splitter
  import opened SplitLaws

  /** The one kind of round after which the loop never ends, as a guard on the text left: the rest begins with the
      header line of a block that is to be put back, that header leaves no room beside a closing fence, and the buffer
      with the header put back is again longer than the limit. */
  predicate StuckAt(r: string, start: nat, maxLen: nat)
    requires maxLen > 0 && start < |r|
  {
    HeaderTooLong(r, start, maxLen)
    && (PlanInRange(r, start, maxLen);
        var header := Plan(r, start, maxLen).header;
        header + "\n" <= r[start..] && |TrimSpace(header + "\n" + r[Plan(r, start, maxLen).to..])| > maxLen)
  }

  predicate Stuck(st: State, maxLen: nat)
    requires maxLen > 0
  {
    st.start < |st.runes| && StuckAt(Chars(st.runes), st.start, maxLen)
  }

  /** One of the first n + 1 states of the loop is stuck. */
  predicate StuckWithin(st: State, maxLen: nat, n: nat)
    requires maxLen > 0
    decreases n
  {
    st.start < |st.runes| && (Stuck(st, maxLen) || (n > 0 && StuckWithin(Round(st, maxLen).1, maxLen, n - 1)))
  }

  // ----- a stuck state is followed by a stuck state ----------------------------------------

  predicate IsLine(h: string) {
    && |h| >= 3 && h[0] == h[1] == h[2] == '`' && !IsSpace(h[|h| - 1])
    && forall k :: 0 <= k < |h| ==> h[k] != '\n'
  }

  lemma NotSpace()
    ensures !IsSpace('`') && IsSpace('\n')
  {
  }

  lemma HeaderIsLine(r: string, u: int)
    requires Fence(r, u, |r|)
    ensures IsLine(Header(r, u)) && Header(r, u) <= r[u..]
  {
    hide TrimSpace, IsSpace;
    HeaderShape(r, u);
    var e := NewlineFrom(r, u);
    var line := if e == -1 then r[u..u + 3] else r[u..e];
    forall k | 0 <= k < |line|
      ensures line[k] != '\n'
    {
      assert line[k] == r[u + k];
    }
    SlicePrefix(line);
  }

  lemma SlicePrefix(line: string)
    requires '\n' !in line
    ensures '\n' !in TrimSpace(line)
  {
  }

  lemma {:induction false} NewlineAfter(s: string, n: nat, i: nat)
    requires i <= n < |s| && s[n] == '\n' && forall k :: i <= k < n ==> s[k] != '\n'
    ensures NewlineFrom(s, i) == n
    decreases n - i
  {
    if i < n {
      NewlineAfter(s, n, i + 1);
    }
  }

  lemma HeaderOf(s: string, i: nat, h: string)
    requires IsLine(h) && i + |h| < |s| && h + "\n" <= s[i..]
    ensures Fence(s, i, |s|) && Header(s, i) == h && NewlineFrom(s, i) == i + |h|
  {
    forall k | 0 <= k < |h| + 1
      ensures s[i + k] == (h + "\n")[k]
    {
      assert s[i..][k] == (h + "\n")[k];
    }
    assert forall k :: i <= k < i + |h| ==> s[k] == h[k - i];
    assert s[i] == h[0] && s[i + 1] == h[1] && s[i + 2] == h[2] && s[i + |h|] == '\n';
    NewlineAfter(s, i + |h|, i);
    assert s[i..i + |h|] == h;
    assert LeadingSpace(h) == 0 && TrimmedEnd(h) == |h|;
  }

  lemma Untrimmed(s: string)
    requires s != "" && !IsSpace(s[0]) && !IsSpace(s[|s| - 1])
    ensures TrimSpace(s) == s
  {
    hide IsSpace;
    assert LeadingSpace(s) == 0 && TrimmedEnd(s) == |s|;
    assert s[0..|s|] == s;
  }

  /** The buffer with the header put back: only white space at its end is lost, and the header line is whole. */
  lemma RewriteShape(r: string, start: nat, maxLen: nat, h: string, s: string)
    requires IsLine(h) && 5 <= maxLen && start + maxLen < |r| && h + "\n" <= r[start..]
    requires s == TrimSpace(h + "\n" + r[start + maxLen - 5..]) && |s| > maxLen
    ensures s <= h + "\n" + r[start + maxLen - 5..] && h + "\n" <= s && |h| < |s| && !IsSpace(s[|s| - 1])
  {
    hide TrimmedEnd, LeadingSpace, IsSpace;
    NotSpace();
    var at := start + maxLen - 5;
    var full := h + "\n" + r[at..];
    var n := TrimmedEnd(full);
    assert full[0] == h[0];
    assert LeadingSpace(full) == 0;
    assert full[|h| - 1] == h[|h| - 1];
    assert s == full[..n];
    if at < start + |h| {
      var k := |h| + 1 + (start + |h| - 1 - at);
      assert full[k] == r[start..][|h| - 1] == h[|h| - 1];
      assert n > k;
    }
    assert full[|h|] == '\n';
    assert s[n - 1] == full[n - 1];
    assert n > |h|;
    assert s[..|h| + 1] == h + "\n";
  }

  /** As far as a message reaches, the rewritten buffer reads like the rest it replaces. */
  lemma RewriteAgrees(r: string, start: nat, maxLen: nat, h: string, s: string, k: nat)
    requires IsLine(h) && 5 <= maxLen && start + maxLen < |r| && h + "\n" <= r[start..] && |h| + 6 >= maxLen
    requires s <= h + "\n" + r[start + maxLen - 5..] && |s| > maxLen && k < EffectiveLimit(maxLen)
    ensures s[k] == r[start + k]
  {
    hide IsSpace;
    var full := h + "\n" + r[start + maxLen - 5..];
    assert s[k] == full[k];
    if k <= |h| {
      assert r[start..][k] == (h + "\n")[k];
    } else {
      LimitInLine(maxLen, |h|);
      assert full[k] == r[start + maxLen - 5..][k - |h| - 1];
    }
  }

  lemma LimitInLine(maxLen: nat, n: nat)
    requires 5 <= maxLen && n >= 3 && n + 6 >= maxLen
    ensures EffectiveLimit(maxLen) <= n + 1 || n + 6 == maxLen
    ensures EffectiveLimit(maxLen) <= n + 2
  {
  }

  lemma LastInShift(r: string, s: string, d: nat, lo: int, hi: int, cs: set<char>)
    requires 0 <= lo && hi <= |s| && d + hi <= |r| && forall k :: lo <= k < hi ==> s[k] == r[d + k]
    ensures LastIn(r, d + lo, d + hi, cs) == if LastIn(s, lo, hi, cs) == -1 then -1 else d + LastIn(s, lo, hi, cs)
  {
    var i, j := LastIn(s, lo, hi, cs), LastIn(r, d + lo, d + hi, cs);
    if j != -1 {
      assert s[j - d] == r[j];
    }
    if i != -1 {
      assert s[i] == r[d + i];
    }
  }

  lemma NaturalEndShift(r: string, s: string, start: nat, maxLen: nat)
    requires 0 < maxLen < |s| && start + maxLen < |r|
    requires forall k :: 0 <= k < EffectiveLimit(maxLen) ==> s[k] == r[start + k]
    ensures NaturalEnd(r, start, maxLen) == start + NaturalEnd(s, 0, maxLen)
  {
    hide LastIn;
    var end: int := EffectiveLimit(maxLen);
    LastInShift(r, s, start, if end - 200 > 0 then end - 200 else 0, end, NEWLINE);
    LastInShift(r, s, start, if end - 100 > 0 then end - 100 else 0, end, BLANK);
  }

  lemma {:induction false} UnclosedShift(r: string, s: string, d: nat, i: nat, end: nat, open: bool, last: int, last': int)
    requires end <= |s| && d + end <= |r| && forall k :: 0 <= k < end ==> s[k] == r[d + k]
    requires open ==> Fence(s, last, end) && last < i && last' == d + last && Fence(r, last', d + end)
    ensures var u := UnclosedFrom(s, i, end, open, last);
            UnclosedFrom(r, d + i, d + end, open, last') == if u == -1 then -1 else d + u
    decreases end - i
  {
    if i < end {
      assert Fence(s, i, end) == Fence(r, d + i, d + end);
      if Fence(s, i, end) {
        UnclosedShift(r, s, d, i + 3, end, !open, if open then last else i, if open then last' else d + i);
      } else {
        UnclosedShift(r, s, d, i + 1, end, open, last, last');
      }
    }
  }

  /** Within reach of a message only the first fence of such a text carries its header line. */
  lemma FirstFence(r: string, start: nat, maxLen: nat, h: string, u: nat)
    requires IsLine(h) && 5 <= maxLen && |h| + 6 >= maxLen && start + |h| < |r| && h + "\n" <= r[start..]
    requires start <= u && u + 2 < start + EffectiveLimit(maxLen) && Fence(r, u, |r|) && Header(r, u) == h
    ensures u == start
  {
    LimitInLine(maxLen, |h|);
    hide EffectiveLimit, TrimRange, IsSpace;
    forall k | 0 <= k < |h| + 1
      ensures r[start + k] == (h + "\n")[k]
    {
      assert r[start..][k] == (h + "\n")[k];
    }
    assert r[start + |h|] == '\n';
    assert forall k :: start <= k < start + |h| ==> r[k] == h[k - start];
    NewlineAfter(r, start + |h|, u);
  }

  lemma StuckFacts(r: string, start: nat, maxLen: nat) returns (h: string)
    requires maxLen > 0 && start < |r| && StuckAt(r, start, maxLen)
    ensures 5 <= maxLen && start + maxLen < |r| && IsLine(h) && |h| + 6 >= maxLen && h + "\n" <= r[start..]
    ensures Plan(r, start, maxLen) == Reopen(start + maxLen - 5, h)
    ensures |TrimSpace(h + "\n" + r[start + maxLen - 5..])| > maxLen
    ensures var msgEnd := NaturalEnd(r, start, maxLen);
            && Unclosed(r, start, msgEnd) == start
            && (NextClosing(r, msgEnd) == -1 || NextClosing(r, msgEnd) - start > maxLen)
  {
    hide NaturalEnd, Unclosed, NextClosing, Header, HeaderEnd, InnerEnd, EndBefore, TrimSpace, EffectiveLimit, IsLine;
    PlanInRange(r, start, maxLen);
    PlanFinish(r, start, maxLen);
    h := Plan(r, start, maxLen).header;
    var msgEnd := NaturalEnd(r, start, maxLen);
    var u := Unclosed(r, start, msgEnd);
    UnclosedNeedsRoom(r, start, maxLen, msgEnd, u);
    HeaderIsLine(r, u);
    FirstFence(r, start, maxLen, h, u);
  }

  /** A fence of the rewritten buffer was there before, and no further away from the front. */
  lemma ClosesLater(r: string, start: nat, maxLen: nat, h: string, s: string, k: nat)
    requires IsLine(h) && 5 <= maxLen && start + maxLen < |r| && |h| + 6 >= maxLen
    requires h + "\n" <= r[start..] && h + "\n" <= s && s <= h + "\n" + r[start + maxLen - 5..]
    requires Fence(s, k, |s|) && k + 3 <= maxLen < |s| && NaturalEnd(s, 0, maxLen) <= k
    ensures exists j :: start + NaturalEnd(s, 0, maxLen) <= j <= start + k && Fence(r, j, |r|)
  {
    LimitInLine(maxLen, |h|);
    hide NaturalEnd, EffectiveLimit, IsSpace;
    var end := NaturalEnd(s, 0, maxLen);
    var full := h + "\n" + r[start + maxLen - 5..];
    assert s[|h|] == (h + "\n")[|h|] == '\n';
    assert r[start..][|h|] == (h + "\n")[|h|] == '\n';
    assert s[k] == full[k] && s[k + 1] == full[k + 1] && s[k + 2] == full[k + 2];
    if k <= |h| {
      assert k + 2 < |h|;
      assert forall i :: 0 <= i < |h| ==> r[start..][i] == (h + "\n")[i] == h[i] == full[i];
      assert r[start + k] == r[start..][k] && r[start + k + 1] == r[start..][k + 1] && r[start + k + 2] == r[start..][k + 2];
      assert Fence(r, start + k, |r|);
    } else {
      var j := start + maxLen - 5 + (k - |h| - 1);
      assert full[k] == r[j] && full[k + 1] == r[j + 1] && full[k + 2] == r[j + 2];
      assert Fence(r, j, |r|);
      assert r[start + |h|] == '\n';
      assert j > start + |h|;
    }
  }

  lemma NotClosedInTime(r: string, start: nat, maxLen: nat, h: string, s: string)
    requires IsLine(h) && 5 <= maxLen && start + maxLen < |r| && |h| + 6 >= maxLen && |s| > maxLen
    requires h + "\n" <= r[start..] && h + "\n" <= s && s <= h + "\n" + r[start + maxLen - 5..]
    requires NaturalEnd(r, start, maxLen) == start + NaturalEnd(s, 0, maxLen)
    requires var c := NextClosing(r, NaturalEnd(r, start, maxLen)); c == -1 || c - start > maxLen
    ensures var c := NextClosing(s, NaturalEnd(s, 0, maxLen)); c == -1 || c > maxLen
  {
    hide NaturalEnd, IsLine;
    var c := NextClosing(s, NaturalEnd(s, 0, maxLen));
    if c != -1 && c <= maxLen {
      ClosesLater(r, start, maxLen, h, s, c - 3);
    }
  }

  lemma PlanAgain(s: string, maxLen: nat, h: string)
    requires IsLine(h) && 5 <= maxLen < |s| && |h| + 6 >= maxLen && h + "\n" <= s
    requires Unclosed(s, 0, NaturalEnd(s, 0, maxLen)) == 0
    requires var c := NextClosing(s, NaturalEnd(s, 0, maxLen)); c == -1 || c > maxLen
    ensures Plan(s, 0, maxLen) == Reopen(maxLen - 5, h)
  {
    assert s[0..] == s;
    HeaderOf(s, 0, h);
    LimitInLine(maxLen, |h|);
    assert EndBefore(s, 0, 0) == -1;
    hide NaturalEnd, Unclosed, NextClosing, Header, EndBefore, InnerEnd, EffectiveLimit, IsLine;
  }

  /** Putting the same header back once more does not shorten a text without trailing white space. */
  lemma NoShorter(s: string, maxLen: nat, h: string)
    requires IsLine(h) && 5 <= maxLen < |s| && |h| + 6 >= maxLen && !IsSpace(s[|s| - 1])
    ensures |TrimSpace(h + "\n" + s[maxLen - 5..])| >= |s|
  {
    NotSpace();
    hide IsSpace, TrimSpace;
    var full := h + "\n" + s[maxLen - 5..];
    assert full[0] == h[0] && full[|full| - 1] == s[|s| - 1];
    Untrimmed(full);
  }

  lemma StuckRest(r: string, start: nat, maxLen: nat, h: string, s: string)
    requires maxLen > 0 && start < |r| && StuckAt(r, start, maxLen)
    requires Plan(r, start, maxLen) == Reopen(start + maxLen - 5, h) && start + maxLen - 5 <= |r|
    requires s == TrimSpace(h + "\n" + r[start + maxLen - 5..])
    ensures s != "" && StuckAt(s, 0, maxLen)
  {
    var h' := StuckFacts(r, start, maxLen);
    RewriteShape(r, start, maxLen, h, s);
    hide StuckAt, TrimSpace, Plan, NaturalEnd, Unclosed, NextClosing, IsSpace, IsLine;
    forall k: nat | k < EffectiveLimit(maxLen)
      ensures s[k] == r[start + k]
    {
      RewriteAgrees(r, start, maxLen, h, s, k);
    }
    NaturalEndShift(r, s, start, maxLen);
    SameUnclosed(r, s, start, maxLen);
    NotClosedInTime(r, start, maxLen, h, s);
    PlanAgain(s, maxLen, h);
    NoShorter(s, maxLen, h);
    StuckInFront(s, maxLen, h);
  }

  lemma SameUnclosed(r: string, s: string, start: nat, maxLen: nat)
    requires 0 < maxLen < |s| && start + maxLen < |r| && NaturalEnd(r, start, maxLen) == start + NaturalEnd(s, 0, maxLen)
    requires forall k :: 0 <= k < EffectiveLimit(maxLen) ==> s[k] == r[start + k]
    requires Unclosed(r, start, NaturalEnd(r, start, maxLen)) == start
    ensures Unclosed(s, 0, NaturalEnd(s, 0, maxLen)) == 0
  {
    hide NaturalEnd, EffectiveLimit, UnclosedFrom;
    UnclosedShift(r, s, start, 0, NaturalEnd(s, 0, maxLen), false, -1, -1);
  }

  lemma StuckIf(r: string, start: nat, maxLen: nat, h: string)
    requires 5 <= maxLen && start + maxLen < |r| && |h| + 6 >= maxLen && h + "\n" <= r[start..]
    requires Plan(r, start, maxLen) == Reopen(start + maxLen - 5, h)
    requires |TrimSpace(h + "\n" + r[start + maxLen - 5..])| > maxLen
    ensures StuckAt(r, start, maxLen)
  {
    hide Plan, TrimSpace;
  }

  lemma StuckInFront(s: string, maxLen: nat, h: string)
    requires 5 <= maxLen < |s| && |h| + 6 >= maxLen && h + "\n" <= s && Plan(s, 0, maxLen) == Reopen(maxLen - 5, h)
    requires |TrimSpace(h + "\n" + s[maxLen - 5..])| > maxLen
    ensures StuckAt(s, 0, maxLen)
  {
    hide Plan, TrimSpace, StuckAt;
    assert s[0..] == s;
    StuckIf(s, 0, maxLen, h);
  }

  lemma StuckReopens(r: string, start: nat, maxLen: nat)
    requires maxLen > 0 && start < |r| && StuckAt(r, start, maxLen)
    ensures Plan(r, start, maxLen).Reopen? && Plan(r, start, maxLen).to == start + maxLen - 5 <= |r|
  {
    hide Plan, TrimSpace, IsLine, NaturalEnd, Unclosed, NextClosing;
    var _ := StuckFacts(r, start, maxLen);
  }

  lemma StuckAgain(st: State, maxLen: nat)
    requires maxLen > 0 && Stuck(st, maxLen)
    ensures Stuck(Round(st, maxLen).1, maxLen)
  {
    hide StuckAt, Plan, TrimSpace, Round;
    var r := Chars(st.runes);
    StuckReopens(r, st.start, maxLen);
    RoundTexts(st, maxLen);
    StuckRest(r, st.start, maxLen, Plan(r, st.start, maxLen).header, Chars(Round(st, maxLen).1.runes));
  }

  lemma {:induction false} StuckForever(st: State, maxLen: nat, fuel: nat)
    requires maxLen > 0 && Stuck(st, maxLen)
    ensures Rounds(st, maxLen, fuel) == None
    decreases fuel
  {
    hide StuckAt, Round;
    if fuel > 0 {
      StuckAgain(st, maxLen);
      StuckForever(Round(st, maxLen).1, maxLen, fuel - 1);
    }
  }

  lemma {:induction false} StuckRunsOn(st: State, maxLen: nat, n: nat, fuel: nat)
    requires maxLen > 0 && StuckWithin(st, maxLen, n)
    ensures Rounds(st, maxLen, fuel) == None
    decreases n
  {
    hide Stuck, Round;
    if Stuck(st, maxLen) {
      StuckForever(st, maxLen, fuel);
    } else if fuel > 0 {
      StuckRunsOn(Round(st, maxLen).1, maxLen, n - 1, fuel - 1);
    }
  }

  // ----- what every other round uses up ----------------------------------------------------

  function Pow3(n: nat): (p: nat)
    ensures p > n
  {
    if n == 0 then 1 else 3 * Pow3(n - 1)
  }

  /** What is left from i on, weighed line by line so that one line outweighs any two shorter ones. */
  function Cost(r: string, i: nat): (c: nat)
    requires i <= |r|
    ensures c > 0
    decreases |r| - i
  {
    var e := NewlineFrom(r, i);
    if e == -1 then Pow3(|r| - i) else Pow3(e - i) + Cost(r, e + 1)
  }

  lemma {:induction false} PowMono(a: nat, b: nat)
    requires a <= b
    ensures Pow3(a) <= Pow3(b) && (a < b ==> 3 * Pow3(a) <= Pow3(b))
    decreases b
  {
    if a < b {
      PowMono(a, b - 1);
    }
  }

  lemma {:induction false} CostLater(r: string, i: nat, j: nat)
    requires i <= j <= |r|
    ensures Cost(r, j) + (j - i) <= Cost(r, i)
    decreases j - i
  {
    if i < j {
      CostLater(r, i + 1, j);
    }
  }

  lemma CostHead(r: string, i: nat)
    requires i <= |r|
    ensures var e := NewlineFrom(r, i); Cost(r, i) == if e == -1 then Pow3(|r| - i) else Pow3(e - i) + Cost(r, e + 1)
  {
  }

  lemma PrefixNewline(full: string, n: nat, i: nat)
    requires i <= n <= |full|
    ensures var e := NewlineFrom(full, i); NewlineFrom(full[..n], i) == if e < n then e else -1
  {
    var s, e := full[..n], NewlineFrom(full, i);
    if e != -1 && e < n {
      assert s[e] == '\n';
      NewlineAfter(s, e, i);
    } else {
      forall k | i <= k < n
        ensures s[k] != '\n'
      {
        assert s[k] == full[k];
      }
    }
  }

  lemma {:induction false} CostPrefix(full: string, n: nat, i: nat)
    requires i <= n <= |full|
    ensures Cost(full[..n], i) <= Cost(full, i)
    decreases n - i
  {
    hide Cost, Pow3;
    var e := NewlineFrom(full, i);
    PrefixNewline(full, n, i);
    CostHead(full, i);
    CostHead(full[..n], i);
    if e != -1 && e < n {
      CostPrefix(full, n, e + 1);
    } else {
      PowMono(n - i, if e == -1 then |full| - i else e - i);
    }
  }

  lemma SuffixNewline(s: string, r: string, i: nat, j: nat)
    requires i <= |s| && j <= |r| && s[i..] == r[j..]
    ensures var e := NewlineFrom(s, i); NewlineFrom(r, j) == if e == -1 then -1 else j + (e - i)
  {
    assert |s[i..]| == |r[j..]|;
    forall k | j <= k < |r|
      ensures r[k] == s[i + (k - j)]
    {
      assert r[k] == r[j..][k - j];
    }
    var e := NewlineFrom(s, i);
    if e != -1 {
      assert r[j + (e - i)] == s[e];
      NewlineAfter(r, j + (e - i), j);
    }
  }

  lemma {:induction false} CostShift(s: string, r: string, i: nat, j: nat)
    requires i <= |s| && j <= |r| && s[i..] == r[j..]
    ensures Cost(s, i) == Cost(r, j)
    decreases |s| - i
  {
    hide Cost, Pow3;
    assert |s[i..]| == |r[j..]|;
    SuffixNewline(s, r, i, j);
    CostHead(s, i);
    CostHead(r, j);
    var e := NewlineFrom(s, i);
    if e != -1 {
      var n := e + 1 - i;
      assert s[i..][n..] == s[e + 1..] && r[j..][n..] == r[j + n..];
      CostShift(s, r, e + 1, j + n);
    }
  }

  lemma CostOfLine(h: string, tail: string)
    requires IsLine(h)
    ensures Cost(h + "\n" + tail, 0) == Pow3(|h|) + Cost(tail, 0)
  {
    hide IsSpace, Cost, Pow3;
    var full := h + "\n" + tail;
    NewlineAfter(full, |h|, 0);
    CostHead(full, 0);
    assert full[|h| + 1..] == tail[0..];
    CostShift(full, tail, |h| + 1, 0);
  }

  lemma TrimmedLine(h: string, tail: string)
    requires IsLine(h)
    ensures exists n :: 0 <= n <= |h + "\n" + tail| && TrimSpace(h + "\n" + tail) == (h + "\n" + tail)[..n]
  {
    hide TrimmedEnd, LeadingSpace, IsSpace;
    NotSpace();
    var full := h + "\n" + tail;
    assert full[0] == h[0];
    assert LeadingSpace(full) == 0;
    var n := TrimmedEnd(full);
    assert full[0..n] == full[..n];
  }

  /** What the buffer with the header put back weighs. */
  lemma CostRewritten(r: string, at: nat, h: string)
    requires IsLine(h) && at <= |r|
    ensures Cost(TrimSpace(h + "\n" + r[at..]), 0) <= Pow3(|h|) + Cost(r, at)
  {
    hide IsLine, TrimSpace, Cost;
    var full := h + "\n" + r[at..];
    TrimmedLine(h, r[at..]);
    var n :| 0 <= n <= |full| && TrimSpace(full) == full[..n];
    CostPrefix(full, n, 0);
    CostOfLine(h, r[at..]);
    assert r[at..][0..] == r[at..];
    CostShift(r[at..], r, 0, at);
  }

  /** The message ends behind the header line it puts back, if that line ends at all, or has no newline before it. */
  predicate Reaches(r: string, start: nat, u: nat, at: int)
    requires u <= |r|
  {
    NewlineFrom(r, u) < at || forall k :: start < k < u ==> r[k] != '\n'
  }

  lemma InsideReaches(r: string, start: nat, maxLen: nat, msgEnd: int, u: nat)
    requires 6 <= maxLen && start + maxLen < |r| && start <= u && Fence(r, u, |r|)
    requires u + 2 < msgEnd <= start + EffectiveLimit(maxLen) && PlanInside(r, start, maxLen, msgEnd, u).Reopen?
    ensures u < PlanInside(r, start, maxLen, msgEnd, u).to && Reaches(r, start, u, PlanInside(r, start, maxLen, msgEnd, u).to)
  {
    HeaderIsLine(r, u);
    hide Header, TrimSpace, IsLine, LastIn;
    if msgEnd <= HeaderEnd(r, u) + 20 {
      forall k | start < k < u
        ensures r[k] != '\n'
      {
        assert LastIn(r, start, u, NEWLINE) < k;
      }
    }
  }

  lemma ReopenPlace(r: string, start: nat, maxLen: nat) returns (u: nat)
    requires 6 <= maxLen && start < |r| && Plan(r, start, maxLen).Reopen?
    ensures var p := Plan(r, start, maxLen);
            && start <= u < p.to <= |r| && u + 4 <= |r| && Fence(r, u, |r|) && p.header == Header(r, u)
            && Reaches(r, start, u, p.to)
  {
    hide NaturalEnd, Unclosed, NextClosing, Header, HeaderEnd, InnerEnd, EndBefore, Reaches, EffectiveLimit;
    PlanInRange(r, start, maxLen);
    PlanFinish(r, start, maxLen);
    var msgEnd := NaturalEnd(r, start, maxLen);
    u := Unclosed(r, start, msgEnd);
    UnclosedNeedsRoom(r, start, maxLen, msgEnd, u);
    InsideReaches(r, start, maxLen, msgEnd, u);
  }

  lemma WholeLine(r: string, start: nat, h: string)
    requires Fence(r, start, |r|) && h == Header(r, start) && NewlineFrom(r, start) == start + |h|
    ensures h + "\n" <= r[start..]
  {
    hide Header, NewlineFrom, IsLine;
    HeaderIsLine(r, start);
    var rest := r[start..];
    assert rest[|h|] == '\n';
    assert rest[..|h| + 1] == h + "\n";
  }

  lemma HeaderLength(r: string, u: nat)
    requires Fence(r, u, |r|)
    ensures |Header(r, u)| <= if NewlineFrom(r, u) == -1 then 3 else NewlineFrom(r, u) - u
  {
  }

  /** Unless the message begins with that very line and the line leaves no room, the buffer with the header put back
      weighs less than the rest it replaces. */
  lemma ReopenWeighs(r: string, start: nat, maxLen: nat)
    requires 6 <= maxLen && start < |r| && r[start] != '\n' && Plan(r, start, maxLen).Reopen?
    requires HeaderTooLong(r, start, maxLen) ==> !(Plan(r, start, maxLen).header + "\n" <= r[start..])
    ensures Plan(r, start, maxLen).to <= |r|
    ensures Pow3(|Plan(r, start, maxLen).header|) + Cost(r, Plan(r, start, maxLen).to) < Cost(r, start)
  {
    hide Plan, HeaderTooLong, Header, Cost, Pow3, NewlineFrom, Reaches;
    var u := ReopenPlace(r, start, maxLen);
    var h, at, e := Plan(r, start, maxLen).header, Plan(r, start, maxLen).to, NewlineFrom(r, u);
    HeaderLength(r, u);
    if u == start && e == u + |h| {
      WholeLine(r, start, h);
      ReopenShrinks(r, start, maxLen);
    }
    if e == -1 {
      NoLineWeighs(r, start, u, at, |h|);
    } else if e < at {
      LineBehindWeighs(r, start, u, at, e, |h|);
    } else {
      LineCutWeighs(r, start, u, at, e, |h|);
    }
  }

  lemma NoLineWeighs(r: string, start: nat, u: nat, at: nat, n: nat)
    requires start <= u < at <= |r| && u + 4 <= |r| && NewlineFrom(r, u) == -1 && n <= 3
    ensures Pow3(n) + Cost(r, at) < Cost(r, start)
  {
    hide Cost, Pow3;
    CostLater(r, start, u);
    CostHead(r, u);
    CostHead(r, at);
    PowMono(|r| - at, |r| - u);
    PowMono(n, |r| - u);
  }

  lemma LineBehindWeighs(r: string, start: nat, u: nat, at: nat, e: nat, n: nat)
    requires start <= u <= e < at <= |r| && NewlineFrom(r, u) == e && n <= e - u
    requires u == start && n == e - u ==> at > e + 1
    ensures Pow3(n) + Cost(r, at) < Cost(r, start)
  {
    hide Cost, Pow3;
    CostLater(r, start, u);
    CostHead(r, u);
    CostLater(r, e + 1, at);
    PowMono(n, e - u);
  }

  lemma LineCutWeighs(r: string, start: nat, u: nat, at: nat, e: nat, n: nat)
    requires start <= u < at <= e && NewlineFrom(r, u) == e && n <= e - u && (u == start ==> n < e - u)
    requires r[start] != '\n' && Reaches(r, start, u, at)
    ensures Pow3(n) + Cost(r, at) < Cost(r, start)
  {
    hide Cost, Pow3;
    NewlineAfter(r, e, start);
    NewlineAfter(r, e, at);
    CostHead(r, start);
    CostHead(r, at);
    PowMono(n, e - start);
    PowMono(e - at, e - start);
  }

  // ----- five runes: a fence is put back without any text in front of it -------------------

  lemma FirstNaturalEnd(r: string, maxLen: nat)
    requires 5 <= maxLen < |r| && Fence(r, 0, |r|)
    ensures 2 < NaturalEnd(r, 0, maxLen) <= EffectiveLimit(maxLen) <= maxLen
  {
    hide LastIn;
  }

  lemma FivePlan(r: string, start: nat)
    requires start < |r| && Plan(r, start, 5).Reopen?
    ensures Plan(r, start, 5).to == start && Fence(r, start, |r|) && Plan(r, start, 5).header == Header(r, start)
  {
    hide NaturalEnd, Unclosed, NextClosing, Header, EndBefore;
    var msgEnd := NaturalEnd(r, start, 5);
    assert EffectiveLimit(5) == 3;
    UnclosedNeedsRoom(r, start, 5, msgEnd, Unclosed(r, start, msgEnd));
  }

  lemma FiveRewrite(r: string, start: nat, h: string, s: string)
    requires Fence(r, start, |r|) && IsLine(h) && s == TrimSpace(h + "\n" + r[start..])
    ensures |s| > |h| + 3 && h + "\n" <= s && Fence(s, 0, |s|) && !IsSpace(s[|s| - 1])
  {
    hide TrimmedEnd, LeadingSpace, IsSpace;
    NotSpace();
    var full := h + "\n" + r[start..];
    assert full[0] == h[0] && full[1] == h[1] && full[2] == h[2] && full[|h| + 3] == r[start + 2];
    assert LeadingSpace(full) == 0;
    assert TrimmedEnd(full) > |h| + 3;
    assert s == full[..TrimmedEnd(full)];
  }

  lemma OneFenceUnclosed(s: string)
    requires Fence(s, 0, |s|)
    ensures Unclosed(s, 0, 3) == 0
  {
  }

  /** With room for five runes a block that is put back once is put back for ever. */
  lemma FiveSticks(r: string, start: nat, s: string)
    requires start < |r| && Plan(r, start, 5).Reopen? && s == TrimSpace(Plan(r, start, 5).header + "\n" + r[start..])
    ensures Plan(r, start, 5).to == start && s != "" && StuckAt(s, 0, 5)
  {
    FivePlan(r, start);
    var h := Header(r, start);
    HeaderIsLine(r, start);
    hide StuckAt, Plan, NaturalEnd, TrimSpace, Header, IsLine, NextClosing, Unclosed;
    FiveRewrite(r, start, h, s);
    FirstNaturalEnd(s, 5);
    assert EffectiveLimit(5) == 3;
    OneFenceUnclosed(s);
    PlanAgain(s, 5, h);
    NoShorter(s, 5, h);
    StuckInFront(s, 5, h);
  }

  // ----- the loop ends unless it gets stuck ------------------------------------------------

  /** After the first round the rest never begins with a newline. */
  predicate Settled(st: State) {
    st.start < |st.runes| ==> st.runes[st.start].c != '\n'
  }

  lemma RoundSettles(st: State, maxLen: nat)
    requires maxLen > 0 && st.start < |st.runes|
    ensures Settled(Round(st, maxLen).1)
  {
    hide Plan, Round, TrimSpace, IsSpace;
    var r := Chars(st.runes);
    var next := Round(st, maxLen).1;
    RoundTexts(st, maxLen);
    match Plan(r, st.start, maxLen)
    case Finish =>
    case Cut(at) =>
    case Reopen(at, h) =>
      PlanHeader(r, st.start, maxLen);
      TrimmedLine(h, r[at..]);
      var n :| 0 <= n <= |h + "\n" + r[at..]| && TrimSpace(h + "\n" + r[at..]) == (h + "\n" + r[at..])[..n];
      assert n > 0 ==> Chars(next.runes)[0] == h[0];
  }

  lemma PlanHeader(r: string, start: nat, maxLen: nat)
    requires maxLen > 0 && start < |r| && Plan(r, start, maxLen).Reopen?
    ensures IsLine(Plan(r, start, maxLen).header)
  {
    hide Plan, IsLine, Header, IsSpace;
    ReopenHeader(r, start, maxLen);
    var u :| start <= u && Fence(r, u, |r|) && Plan(r, start, maxLen).header == Header(r, u);
    HeaderIsLine(r, u);
  }

  function Weight(st: State): (w: nat)
    requires st.start <= |st.runes|
  {
    Cost(Chars(st.runes), st.start)
  }

  lemma ReopenLighter(st: State, maxLen: nat)
    requires maxLen > 0 && st.start < |st.runes| && Settled(st) && !Stuck(st, maxLen) && !Stuck(Round(st, maxLen).1, maxLen)
    requires Plan(Chars(st.runes), st.start, maxLen).Reopen?
    ensures var next := Round(st, maxLen).1;
            next.start <= |next.runes| && (Left(next) <= maxLen || Weight(next) < Weight(st))
  {
    hide Plan, Round, TrimSpace, Cost, Pow3, HeaderTooLong, IsLine;
    var r := Chars(st.runes);
    PlanInRange(r, st.start, maxLen);
    RoundTexts(st, maxLen);
    var h, at := Plan(r, st.start, maxLen).header, Plan(r, st.start, maxLen).to;
    if HeaderTooLong(r, st.start, maxLen) && h + "\n" <= r[st.start..] {
      assert !StuckAt(r, st.start, maxLen);
    } else if maxLen < 5 {
      TinyNeverReopens(r, st.start, maxLen);
    } else if maxLen == 5 {
      FivePlan(r, st.start);
      FiveSticks(r, st.start, TrimSpace(h + "\n" + r[st.start..]));
    } else {
      ReopenWeighs(r, st.start, maxLen);
      PlanHeader(r, st.start, maxLen);
      CostRewritten(r, at, h);
    }
  }

  /** A round that neither starts in a stuck state nor ends in one leaves at most one more message, or a lighter rest. */
  lemma RoundLighter(st: State, maxLen: nat)
    requires maxLen > 0 && st.start < |st.runes| && Settled(st) && !Stuck(st, maxLen) && !Stuck(Round(st, maxLen).1, maxLen)
    ensures var next := Round(st, maxLen).1;
            next.start <= |next.runes| && (Left(next) <= maxLen || Weight(next) < Weight(st))
  {
    hide Plan, Round, Cost, Stuck, TrimSpace;
    var r := Chars(st.runes);
    RoundTexts(st, maxLen);
    match Plan(r, st.start, maxLen)
    case Finish =>
    case Cut(at) => CostLater(r, st.start, SkipGap(r, at));
    case Reopen(_, _) => ReopenLighter(st, maxLen);
  }

  lemma ShortEnds(st: State, maxLen: nat, fuel: nat)
    requires maxLen > 0 && Left(st) <= maxLen && fuel > 0
    ensures Rounds(st, maxLen, fuel).Some?
  {
    if st.start < |st.runes| {
      PlanFinish(Chars(st.runes), st.start, maxLen);
      assert Rounds(Round(st, maxLen).1, maxLen, fuel - 1) == Some([]);
    }
  }

  lemma {:induction false} EndsUnlessStuck(st: State, maxLen: nat, fuel: nat)
    requires maxLen > 0 && st.start <= |st.runes| && Settled(st) && Weight(st) <= fuel && !StuckWithin(st, maxLen, fuel)
    ensures Rounds(st, maxLen, fuel).Some?
    decreases fuel
  {
    hide Round, Stuck, Cost, Settled;
    if st.start < |st.runes| {
      CostLater(Chars(st.runes), st.start, |st.runes|);
      var next := Round(st, maxLen).1;
      assert !Stuck(next, maxLen) by {
        NotStuckNow(next, maxLen, fuel - 1);
      }
      RoundLighter(st, maxLen);
      if Left(next) <= maxLen {
        ShortEnds(next, maxLen, fuel - 1);
      } else {
        RoundSettles(st, maxLen);
        EndsUnlessStuck(next, maxLen, fuel - 1);
      }
    }
  }

  lemma NotStuckNow(st: State, maxLen: nat, n: nat)
    requires maxLen > 0 && !StuckWithin(st, maxLen, n)
    ensures !Stuck(st, maxLen)
  {
  }

  /** The first round at most doubles the weight, whatever the text begins with. */
  lemma FirstRound(content: string, maxLen: nat)
    requires maxLen > 0 && content != ""
    ensures var next := Round(Initial(content), maxLen).1;
            next.start <= |next.runes| && Settled(next) && Weight(next) <= 2 * Cost(content, 0)
  {
    hide Plan, Round, Cost, TrimSpace, IsLine;
    var st := Initial(content);
    assert Chars(st.runes) == content;
    PlanInRange(content, 0, maxLen);
    RoundSettles(st, maxLen);
    RoundTexts(st, maxLen);
    match Plan(content, 0, maxLen)
    case Finish => CostLater(content, 0, |content|);
    case Cut(at) => CostLater(content, 0, SkipGap(content, at));
    case Reopen(at, h) =>
      PlanHeader(content, 0, maxLen);
      CostRewritten(content, at, h);
      CostLater(content, 0, at);
      HeaderWeighs(content, maxLen);
  }

  lemma HeaderWeighs(r: string, maxLen: nat)
    requires maxLen > 0 && r != "" && Plan(r, 0, maxLen).Reopen?
    ensures Pow3(|Plan(r, 0, maxLen).header|) <= Cost(r, 0)
  {
    hide Plan, Header, Cost, Pow3, NewlineFrom, IsSpace;
    ReopenHeader(r, 0, maxLen);
    var u: nat :| 0 <= u && Fence(r, u, |r|) && Plan(r, 0, maxLen).header == Header(r, u);
    HeaderLength(r, u);
    CostLater(r, 0, u);
    CostHead(r, u);
    PowMono(|Header(r, u)|, if NewlineFrom(r, u) == -1 then |r| - u else NewlineFrom(r, u) - u);
  }

  /** Rounds that are enough to see whether splitting ends. */
  function Bound(content: string): nat {
    2 * Cost(content, 0) + 1
  }

  /** Main termination law, for every text and every limit: splitting ends if and only if no state of the loop is stuck,
      and a number of rounds that depends on the text alone settles which. */
  lemma TerminatesIff(content: string, maxLen: nat)
    requires maxLen > 0
    ensures Terminates(content, maxLen) <==> forall n :: !StuckWithin(Initial(content), maxLen, n)
    ensures Terminates(content, maxLen) <==> !StuckWithin(Initial(content), maxLen, Bound(content))
    ensures Terminates(content, maxLen) <==> Rounds(Initial(content), maxLen, Bound(content)).Some?
  {
    hide StuckWithin, Rounds, Cost;
    var st, bound := Initial(content), Bound(content);
    if StuckWithin(st, maxLen, bound) {
      assert exists n :: StuckWithin(st, maxLen, n);
      forall fuel
        ensures !Rounds(st, maxLen, fuel).Some?
      {
        StuckRunsOn(st, maxLen, bound, fuel);
      }
    } else {
      EndsInBound(content, maxLen);
      forall n
        ensures !StuckWithin(st, maxLen, n)
      {
        if StuckWithin(st, maxLen, n) {
          StuckRunsOn(st, maxLen, n, bound);
        }
      }
    }
  }

  lemma EndsInBound(content: string, maxLen: nat)
    requires maxLen > 0 && !StuckWithin(Initial(content), maxLen, Bound(content))
    ensures Rounds(Initial(content), maxLen, Bound(content)).Some?
  {
    hide Round, Stuck, Cost, Settled;
    if content != "" {
      FirstRound(content, maxLen);
      EndsUnlessStuck(Round(Initial(content), maxLen).1, maxLen, Bound(content) - 1);
    }
  }

  lemma StuckAfterOneRound(content: string, maxLen: nat)
    requires maxLen > 0 && content != "" && Stuck(Round(Initial(content), maxLen).1, maxLen)
    ensures !Terminates(content, maxLen)
  {
    hide Round, StuckAt, Terminates, Bound;
    var st := Initial(content);
    assert StuckWithin(Round(st, maxLen).1, maxLen, 0);
    assert StuckWithin(st, maxLen, 1);
    TerminatesIff(content, maxLen);
  }
}
