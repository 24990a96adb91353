/** What the sanitizer guarantees: exact conditions, not just sufficient ones. */
module SanitizerLaws {
  import opened Messages
  import opened Sanitizer

  // ----- basic facts about runs ------------------------------------------------------------

  lemma OpenRunSnoc(s: seq<Message>, m: Message)
    ensures OpenRun(s + [m]) == if m.role.Tool? then OpenRun(s) else CallsTools(m)
    ensures MayCallAfter(s + [m]) == (m.role.User? || m.role.Tool?)
  {
    assert (s + [m])[..|s|] == s;
  }

  /** What a prefix starting with a plain message hides from the messages after it. */
  lemma {:induction false} OpenRunPrefix(q: seq<Message>, s: seq<Message>)
    requires s != [] && Plain(s[0])
    ensures OpenRun(q + s) == OpenRun(s)
    ensures MayCallAfter(q + s) == MayCallAfter(s)
    decreases |s|
  {
    var n := |s| - 1;
    assert (q + s)[|q + s| - 1] == s[n];
    if s[n].role.Tool? {
      assert (q + s)[..|q + s| - 1] == q + s[..n];
      OpenRunPrefix(q, s[..n]);
    }
  }

  lemma ResultIdsConcat(a: seq<Message>, b: seq<Message>)
    ensures ResultIds(a + b) == ResultIds(a) + ResultIds(b)
  {
    var ab := a + b;
    forall id | id in ResultIds(a) + ResultIds(b)
      ensures id in ResultIds(ab)
    {
      if id in ResultIds(a) {
        var k :| 0 <= k < |a| && a[k].role.Tool? && a[k].callId == id && id != "";
        assert ab[k] == a[k];
      } else {
        var k :| 0 <= k < |b| && b[k].role.Tool? && b[k].callId == id && id != "";
        assert ab[|a| + k] == b[k];
      }
    }
    forall id | id in ResultIds(ab)
      ensures id in ResultIds(a) + ResultIds(b)
    {
      var k :| 0 <= k < |ab| && ab[k].role.Tool? && ab[k].callId == id && id != "";
      if k < |a| {
        assert a[k] == ab[k];
      } else {
        assert b[k - |a|] == ab[k];
      }
    }
  }

  lemma PlacedAtPrefix(a: seq<Message>, b: seq<Message>, i: int)
    requires 0 <= i < |a|
    ensures PlacedAt(a + b, i) == PlacedAt(a, i)
  {
    assert (a + b)[..i] == a[..i];
  }

  lemma PlacedSnoc(q: seq<Message>, m: Message)
    requires Placed(q)
    requires !m.role.System? && (m.role.Tool? ==> OpenRun(q)) && (CallsTools(m) ==> MayCallAfter(q))
    ensures Placed(q + [m])
  {
    assert (q + [m])[..|q|] == q;
    forall i | 0 <= i < |q + [m]|
      ensures PlacedAt(q + [m], i)
    {
      if i < |q| {
        PlacedAtPrefix(q, [m], i);
      }
    }
  }

  // ----- first pass ------------------------------------------------------------------------

  lemma {:induction false} Pass1Placed(out: seq<Message>, h: seq<Message>)
    requires Placed(out)
    ensures Placed(Pass1From(out, h))
    decreases |h|
  {
    if h != [] {
      if Step1(out, h[0]) != out {
        PlacedSnoc(out, h[0]);
      }
      Pass1Placed(Step1(out, h[0]), h[1..]);
    }
  }

  /** The first pass returns its input unchanged exactly on well-placed histories. */
  lemma {:induction false} Pass1Identity(out: seq<Message>, h: seq<Message>)
    ensures |Pass1From(out, h)| <= |out| + |h|
    ensures |Pass1From(out, h)| == |out| + |h| ==> Pass1From(out, h) == out + h
    ensures |Pass1From(out, h)| == |out| + |h| <==>
            forall i :: |out| <= i < |out + h| ==> PlacedAt(out + h, i)
    decreases |h|
  {
    if h == [] {
      assert out + h == out;
    } else {
      var out' := Step1(out, h[0]);
      Pass1Identity(out', h[1..]);
      assert (out + h)[..|out|] == out;
      assert (out + [h[0]]) + h[1..] == out + h;
      if out' == out {
        assert !PlacedAt(out + h, |out|);
      } else {
        assert PlacedAt(out + h, |out|);
      }
    }
  }

  lemma {:induction false} Pass1FromPrefix(q: seq<Message>, out: seq<Message>, h: seq<Message>)
    requires out != [] && Plain(out[0])
    ensures Pass1From(q + out, h) == q + Pass1From(out, h)
    decreases |h|
  {
    if h != [] {
      OpenRunPrefix(q, out);
      assert (q + out) + [h[0]] == q + (out + [h[0]]);
      assert Step1(q + out, h[0]) == q + Step1(out, h[0]);
      Pass1FromPrefix(q, Step1(out, h[0]), h[1..]);
    }
  }

  lemma {:induction false} Pass1FromConcat(out: seq<Message>, a: seq<Message>, b: seq<Message>)
    ensures Pass1From(out, a + b) == Pass1From(Pass1From(out, a), b)
    decreases |a|
  {
    if a == [] {
      assert a + b == b;
    } else {
      assert (a + b)[1..] == a[1..] + b;
      Pass1FromConcat(Step1(out, a[0]), a[1..], b);
    }
  }

  lemma {:induction false} Pass1Split(h: seq<Message>, u: nat)
    requires u < |h| && Plain(h[u])
    ensures Pass1(h) == Pass1(h[..u]) + Pass1(h[u..])
    ensures Pass1(h[u..]) != [] && Pass1(h[u..])[0] == h[u]
  {
    var q := Pass1(h[..u]);
    assert h == h[..u] + h[u..];
    Pass1FromConcat([], h[..u], h[u..]);
    var m, rest := h[u], h[u..][1..];
    assert Step1(q, m) == q + [m] && Step1([], m) == [m] by {
      assert [] + [m] == [m];
    }
    Pass1FromPrefix(q, [m], rest);
    Pass1Extends([m], rest);
  }

  lemma {:induction false} Pass1Extends(out: seq<Message>, h: seq<Message>)
    ensures out <= Pass1From(out, h)
    decreases |h|
  {
    hide OpenRun, MayCallAfter;
    if h != [] {
      Pass1Extends(Step1(out, h[0]), h[1..]);
    }
  }

  /** The first pass produces its output from messages of the input, in order, and keeps every plain one. */
  lemma {:induction false} Pass1Keeps(out: seq<Message>, h: seq<Message>) returns (kept: seq<Message>)
    ensures Pass1From(out, h) == out + kept
    ensures Subsequence(kept, h) && PlainOf(kept) == PlainOf(h)
    decreases |h|
  {
    hide OpenRun, MayCallAfter;
    if h == [] {
      kept := [];
      assert out + kept == out;
    } else {
      var rest := Pass1Keeps(Step1(out, h[0]), h[1..]);
      if Step1(out, h[0]) == out {
        kept := rest;
      } else {
        kept := [h[0]] + rest;
        assert Step1(out, h[0]) + rest == out + kept;
        assert kept[0] == h[0] && kept[1..] == rest;
      }
    }
  }

  lemma Pass1Facts(h: seq<Message>)
    ensures Subsequence(Pass1(h), h) && PlainOf(Pass1(h)) == PlainOf(h)
  {
    hide Pass1From;
    var kept := Pass1Keeps([], h);
    assert [] + kept == kept;
  }

  // ----- second pass: block removal --------------------------------------------------------

  lemma {:induction false} RunLenConcat(a: seq<Message>, b: seq<Message>)
    requires b == [] || !b[0].role.Tool?
    ensures RunLen(a + b) == RunLen(a)
    ensures (a + b)[..RunLen(a)] == a[..RunLen(a)]
  {
    RunLenUnique(a + b, RunLen(a));
  }

  lemma AnsweredConcat(m: Message, a: seq<Message>, b: seq<Message>)
    requires b == [] || !b[0].role.Tool?
    ensures Answered(m, a + b) == Answered(m, a) && RunLen(a + b) == RunLen(a)
  {
    RunLenConcat(a, b);
  }

  /** The block at the front of s is to be dropped. */
  predicate Incomplete(s: seq<Message>) {
    s != [] && CallsTools(s[0]) && !Answered(s[0], s[1..])
  }

  /** The length of that block. */
  function BlockLen(s: seq<Message>): (n: nat)
    requires s != []
    ensures 0 < n <= |s|
  {
    1 + RunLen(s[1..])
  }

  lemma DropStep(s: seq<Message>)
    requires s != []
    ensures DropIncomplete(s) == if Incomplete(s) then DropIncomplete(s[BlockLen(s)..]) else [s[0]] + DropIncomplete(s[1..])
  {
    hide Answered, RunLen;
  }

  lemma BlockShape(s: seq<Message>)
    requires s != []
    ensures forall k :: 0 < k < BlockLen(s) ==> s[k].role.Tool?
    ensures BlockLen(s) < |s| ==> !s[BlockLen(s)].role.Tool?
    ensures Incomplete(s) ==> CallsTools(s[0]) && !s[0].role.Tool?
  {
    hide Answered;
    var n := RunLen(s[1..]);
    forall k | 0 < k < BlockLen(s)
      ensures s[k].role.Tool?
    {
      assert s[1..][k - 1] == s[k];
    }
    assert n < |s[1..]| ==> s[1..][n] == s[n + 1];
  }

  lemma {:induction false} DropConcat(a: seq<Message>, b: seq<Message>)
    requires b == [] || !b[0].role.Tool?
    ensures DropIncomplete(a + b) == DropIncomplete(a) + DropIncomplete(b)
    decreases |a|
  {
    hide DropIncomplete, Answered, RunLen, CallsTools;
    if a == [] {
      assert a + b == b;
      DropNothing();
      assert [] + DropIncomplete(b) == DropIncomplete(b);
    } else {
      assert (a + b)[0] == a[0] && (a + b)[1..] == a[1..] + b;
      AnsweredConcat(a[0], a[1..], b);
      DropStep(a);
      DropStep(a + b);
      if Incomplete(a) {
        var n := BlockLen(a);
        assert (a + b)[n..] == a[n..] + b;
        DropConcat(a[n..], b);
      } else {
        DropConcat(a[1..], b);
        assert [a[0]] + (DropIncomplete(a[1..]) + DropIncomplete(b)) == [a[0]] + DropIncomplete(a[1..]) + DropIncomplete(b);
      }
    }
  }

  lemma DropNothing()
    ensures DropIncomplete([]) == []
  {
  }

  lemma RunCons(m: Message, s: seq<Message>)
    ensures RunLen([m] + s) == if m.role.Tool? then 1 + RunLen(s) else 0
    ensures ([m] + s)[..RunLen([m] + s)] == if m.role.Tool? then [m] + s[..RunLen(s)] else []
  {
    assert ([m] + s)[1..] == s;
  }

  lemma NoRun(s: seq<Message>)
    requires s == [] || !s[0].role.Tool?
    ensures RunLen(s) == 0
  {
  }

  /** Block removal leaves the run at the front of s alone, and never uncovers a new one. */
  lemma {:induction false} DropRun(s: seq<Message>)
    ensures RunLen(DropIncomplete(s)) == RunLen(s)
    ensures DropIncomplete(s)[..RunLen(s)] == s[..RunLen(s)]
    decreases |s|
  {
    hide DropIncomplete, Incomplete, BlockLen, RunLen;
    if s == [] {
      DropNothing();
    } else {
      DropStep(s);
      if Incomplete(s) {
        var n := BlockLen(s);
        BlockShape(s);
        NoRun(s);
        NoRun(s[n..]);
        DropRun(s[n..]);
      } else {
        DropRun(s[1..]);
        RunCons(s[0], s[1..]);
        RunCons(s[0], DropIncomplete(s[1..]));
        assert [s[0]] + s[1..] == s;
      }
    }
  }

  lemma {:induction false} DropShrinks(s: seq<Message>)
    ensures |DropIncomplete(s)| <= |s|
    ensures |DropIncomplete(s)| == |s| <==> AllAnswered(s)
    ensures AllAnswered(s) ==> DropIncomplete(s) == s
    decreases |s|
  {
    hide DropIncomplete, Answered, BlockLen, AllAnswered, CallsTools;
    if s == [] {
      DropNothing();
      NothingToAnswer();
    } else {
      DropStep(s);
      AllAnsweredCons(s);
      if Incomplete(s) {
        DropShrinks(s[BlockLen(s)..]);
      } else {
        DropShrinks(s[1..]);
        assert [s[0]] + s[1..] == s;
      }
    }
  }

  lemma NothingToAnswer()
    ensures AllAnswered([])
  {
  }

  lemma {:induction false} DropKeeps(s: seq<Message>)
    ensures Subsequence(DropIncomplete(s), s)
    ensures PlainOf(DropIncomplete(s)) == PlainOf(s)
    decreases |s|
  {
    hide DropIncomplete, Incomplete, BlockLen, Plain;
    if s == [] {
      DropNothing();
    } else {
      DropStep(s);
      if Incomplete(s) {
        var n := BlockLen(s);
        DropKeeps(s[n..]);
        BlockShape(s);
        BlockNotPlain(s, n);
        SkipSubsequence(DropIncomplete(s), s, n);
        PlainOfSkip(s, n);
      } else {
        DropKeeps(s[1..]);
        assert ([s[0]] + DropIncomplete(s[1..]))[1..] == DropIncomplete(s[1..]);
      }
    }
  }

  lemma BlockNotPlain(s: seq<Message>, n: nat)
    requires n <= |s| && s != [] && CallsTools(s[0]) && forall k :: 0 < k < n ==> s[k].role.Tool?
    ensures forall k :: 0 <= k < n ==> !Plain(s[k])
  {
  }

  lemma AllAnsweredCons(s: seq<Message>)
    requires s != []
    ensures AllAnswered(s) <==> (CallsTools(s[0]) ==> Answered(s[0], s[1..])) && AllAnswered(s[1..])
  {
    forall i | 0 <= i < |s[1..]|
      ensures s[1..][i] == s[i + 1] && s[1..][i + 1..] == s[i + 2..]
    {
    }
    if AllAnswered(s) {
      forall i | 0 <= i < |s[1..]| && CallsTools(s[1..][i])
        ensures Answered(s[1..][i], s[1..][i + 1..])
      {
        assert CallsTools(s[i + 1]);
      }
    }
    if (CallsTools(s[0]) ==> Answered(s[0], s[1..])) && AllAnswered(s[1..]) {
      forall i | 0 <= i < |s| && CallsTools(s[i])
        ensures Answered(s[i], s[i + 1..])
      {
        if i > 0 {
          assert CallsTools(s[1..][i - 1]);
        }
      }
    }
  }

  lemma {:induction false} SkipSubsequence(a: seq<Message>, s: seq<Message>, n: nat)
    requires n <= |s| && Subsequence(a, s[n..])
    ensures Subsequence(a, s)
    decreases n
  {
    if n > 0 {
      assert s[1..][n - 1..] == s[n..];
      SkipSubsequence(a, s[1..], n - 1);
    }
  }

  lemma {:induction false} PlainOfSkip(s: seq<Message>, n: nat)
    requires n <= |s| && forall k :: 0 <= k < n ==> !Plain(s[k])
    ensures PlainOf(s) == PlainOf(s[n..])
    decreases n
  {
    if n > 0 {
      assert s[1..][n - 1..] == s[n..];
      PlainOfSkip(s[1..], n - 1);
    }
  }

  lemma {:induction false} DropAnswered(s: seq<Message>)
    ensures AllAnswered(DropIncomplete(s))
    decreases |s|
  {
    hide DropIncomplete, AllAnswered, BlockLen, RunLen;
    if s == [] {
      DropNothing();
      NothingToAnswer();
    } else {
      DropStep(s);
      if Incomplete(s) {
        DropAnswered(s[BlockLen(s)..]);
      } else {
        DropAnswered(s[1..]);
        DropRun(s[1..]);
        var d := DropIncomplete(s);
        assert d[1..] == DropIncomplete(s[1..]);
        AllAnsweredCons(d);
      }
    }
  }

  /** Block removal keeps messages well placed.  `p` is the original prefix, `q` what is left of it. */
  lemma {:induction false} DropPlaced(p: seq<Message>, q: seq<Message>, s: seq<Message>)
    requires Placed(p + s) && Placed(q)
    requires MayCallAfter(p) ==> MayCallAfter(q)
    requires s != [] && s[0].role.Tool? && OpenRun(p) ==> OpenRun(q)
    ensures Placed(q + DropIncomplete(s))
    decreases |s|
  {
    hide DropIncomplete, Incomplete, BlockLen, OpenRun, MayCallAfter, Placed;
    if s == [] {
      DropNothing();
      assert q + DropIncomplete(s) == q;
    } else {
      DropStep(s);
      if Incomplete(s) {
        DropPlacedBlock(p, q, s);
        var n := BlockLen(s);
        assert p + s == (p + s[..n]) + s[n..];
        DropPlaced(p + s[..n], q, s[n..]);
      } else {
        var m := s[0];
        assert p + s == (p + [m]) + s[1..];
        DropPlacedOne(p, q, m, s[1..]);
        DropPlaced(p + [m], q + [m], s[1..]);
        assert q + ([m] + DropIncomplete(s[1..])) == (q + [m]) + DropIncomplete(s[1..]);
      }
    }
  }

  /** A dropped block follows a message after which a call was allowed, and is not followed by a tool message. */
  lemma DropPlacedBlock(p: seq<Message>, q: seq<Message>, s: seq<Message>)
    requires s != [] && Incomplete(s) && Placed(p + s) && (MayCallAfter(p) ==> MayCallAfter(q))
    ensures MayCallAfter(q) && (BlockLen(s) < |s| ==> !s[BlockLen(s)].role.Tool?)
  {
    BlockShape(s);
    hide BlockLen, Answered;
    assert PlacedAt(p + s, |p|) && (p + s)[..|p|] == p;
  }

  lemma DropPlacedOne(p: seq<Message>, q: seq<Message>, m: Message, rest: seq<Message>)
    requires Placed(p + [m] + rest) && Placed(q)
    requires MayCallAfter(p) ==> MayCallAfter(q)
    requires m.role.Tool? && OpenRun(p) ==> OpenRun(q)
    ensures Placed(q + [m])
    ensures MayCallAfter(p + [m]) ==> MayCallAfter(q + [m])
    ensures OpenRun(p + [m]) ==> OpenRun(q + [m])
  {
    var all := p + [m] + rest;
    assert PlacedAt(all, |p|) && all[..|p|] == p && all[|p|] == m;
    hide Placed, OpenRun, MayCallAfter;
    OpenRunSnoc(p, m);
    OpenRunSnoc(q, m);
    PlacedSnoc(q, m);
  }

  // ----- second pass: deduplication --------------------------------------------------------

  lemma {:induction false} DedupConcat(a: seq<Message>, b: seq<Message>, seen: set<string>)
    ensures Dedup(a + b, seen) == Dedup(a, seen) + Dedup(b, seen + ResultIds(a))
    decreases |a|
  {
    if a == [] {
      assert a + b == b && seen + ResultIds(a) == seen;
    } else {
      assert (a + b)[1..] == a[1..] + b && [a[0]] + a[1..] == a;
      ResultIdsConcat([a[0]], a[1..]);
      if Repeated(a[0], seen) {
        assert ResultIds([a[0]]) <= seen;
        assert seen + ResultIds(a[1..]) == seen + ResultIds(a);
        DedupConcat(a[1..], b, seen);
      } else {
        var seen' := seen + ResultIds([a[0]]);
        assert seen' + ResultIds(a[1..]) == seen + ResultIds(a);
        DedupConcat(a[1..], b, seen');
      }
    }
  }

  lemma {:induction false} DedupFacts(s: seq<Message>, seen: set<string>)
    ensures |Dedup(s, seen)| <= |s|
    ensures |Dedup(s, seen)| == |s| ==> Dedup(s, seen) == s
    ensures ResultIds(Dedup(s, seen)) == ResultIds(s) - seen
    ensures Subsequence(Dedup(s, seen), s)
    ensures PlainOf(Dedup(s, seen)) == PlainOf(s)
    decreases |s|
  {
    if s != [] {
      assert [s[0]] + s[1..] == s;
      ResultIdsConcat([s[0]], s[1..]);
      if Repeated(s[0], seen) {
        DedupFacts(s[1..], seen);
      } else {
        var seen' := seen + ResultIds([s[0]]);
        DedupFacts(s[1..], seen');
        ResultIdsConcat([s[0]], Dedup(s[1..], seen'));
        assert ResultIds([s[0]]) !! seen;
      }
    }
  }

  lemma {:induction false} DedupUnique(s: seq<Message>, seen: set<string>)
    ensures AnsweredOnce(Dedup(s, seen))
    decreases |s|
  {
    if s != [] && Repeated(s[0], seen) {
      DedupUnique(s[1..], seen);
    } else if s != [] {
      var seen' := seen + ResultIds([s[0]]);
      DedupUnique(s[1..], seen');
      DedupFacts(s[1..], seen');
      AnsweredOnceCons(s[0], Dedup(s[1..], seen'));
    }
  }

  lemma AnsweredOnceCons(m: Message, d: seq<Message>)
    requires AnsweredOnce(d) && ResultIds(d) !! ResultIds([m])
    ensures AnsweredOnce([m] + d)
  {
    assert [m][0] == m;
    assert m.role.Tool? && m.callId != "" ==> m.callId in ResultIds([m]);
    forall j | 0 <= j < |d| && d[j].role.Tool? && d[j].callId != ""
      ensures d[j].callId in ResultIds(d)
    {
    }
  }

  lemma {:induction false} DedupIdentity(s: seq<Message>, seen: set<string>)
    requires AnsweredOnce(s) && ResultIds(s) !! seen
    ensures Dedup(s, seen) == s
    decreases |s|
  {
    if s != [] {
      assert [s[0]] + s[1..] == s && [s[0]][0] == s[0];
      ResultIdsConcat([s[0]], s[1..]);
      assert forall k :: 0 <= k < |s[1..]| ==> s[1..][k] == s[k + 1];
      assert s[0].role.Tool? && s[0].callId != "" ==> s[0].callId in ResultIds([s[0]]);
      DedupIdentity(s[1..], seen + ResultIds([s[0]]));
    }
  }

  /** Messages of b whose nonempty answered id is not in ids. */
  function Without(b: seq<Message>, ids: set<string>): seq<Message> {
    if b == [] then []
    else (if Repeated(b[0], ids) then [] else [b[0]]) + Without(b[1..], ids)
  }

  /** Ids seen earlier act as a filter on what deduplication would keep on its own. */
  lemma {:induction false} DedupSeenIsFilter(s: seq<Message>, seen: set<string>, more: set<string>)
    ensures Dedup(s, seen + more) == Without(Dedup(s, seen), more)
    decreases |s|
  {
    if s != [] {
      if Repeated(s[0], seen) {
        DedupSeenIsFilter(s[1..], seen, more);
      } else {
        var ids := ResultIds([s[0]]);
        DedupSeenIsFilter(s[1..], seen + ids, more);
        var d := Dedup(s[1..], seen + ids);
        assert ([s[0]] + d)[1..] == d;
        if Repeated(s[0], more) {
          assert [s[0]][0] == s[0];
          assert seen + ids + more == seen + more;
        } else {
          assert seen + ids + more == seen + more + ids;
        }
      }
    }
  }

  lemma {:induction false} WithoutIdentity(b: seq<Message>, ids: set<string>)
    ensures |Without(b, ids)| <= |b|
    ensures Without(b, ids) == b <==> ResultIds(b) !! ids
  {
    if b != [] {
      WithoutIdentity(b[1..], ids);
      assert [b[0]] + b[1..] == b && [b[0]][0] == b[0];
      ResultIdsConcat([b[0]], b[1..]);
      if Repeated(b[0], ids) {
        assert b[0].callId in ResultIds([b[0]]);
      } else {
        assert Without(b, ids)[1..] == Without(b[1..], ids);
        assert ResultIds([b[0]]) !! ids;
      }
    }
  }

  /** The call is answered in the run at the front of s. */
  predicate AnsweredFirst(c: string, s: seq<Message>) {
    AnsweredIn(c, s[..RunLen(s)])
  }

  lemma AnsweredFirstCons(m: Message, s: seq<Message>, c: string)
    ensures AnsweredFirst(c, [m] + s) <==> m.role.Tool? && (m.callId == c || AnsweredFirst(c, s))
  {
    hide RunLen, AnsweredIn;
    RunCons(m, s);
    if m.role.Tool? {
      AnsweredInCons(c, m, s[..RunLen(s)]);
    } else {
      NothingAnswered(c);
    }
  }

  lemma NothingAnswered(c: string)
    ensures !AnsweredIn(c, [])
  {
  }

  lemma AnsweredInCons(c: string, m: Message, run: seq<Message>)
    ensures AnsweredIn(c, [m] + run) <==> m.callId == c || AnsweredIn(c, run)
  {
    if m.callId == c {
      assert ([m] + run)[0].callId == c;
    }
    if AnsweredIn(c, run) {
      var k :| 0 <= k < |run| && run[k].callId == c;
      assert ([m] + run)[k + 1].callId == c;
    }
  }

  /** A result that deduplication does not drop keeps its place in the run. */
  lemma {:induction false} DedupRun(s: seq<Message>, seen: set<string>, c: string)
    requires c !in seen || c == ""
    requires AnsweredFirst(c, s)
    ensures AnsweredFirst(c, Dedup(s, seen))
    decreases |s|
  {
    hide AnsweredFirst, Dedup, ResultIds;
    if s == [] {
      NothingFirst(c);
    } else {
      var m, rest := s[0], s[1..];
      assert [m] + rest == s;
      AnsweredFirstCons(m, rest, c);
      DedupCons(m, rest, seen);
      if Repeated(m, seen) {
        DedupRun(rest, seen, c);
      } else {
        var seen' := seen + ResultIds([m]);
        AnsweredFirstCons(m, Dedup(rest, seen'), c);
        if m.callId != c {
          DedupRun(rest, seen', c);
        }
      }
    }
  }

  lemma NothingFirst(c: string)
    ensures !AnsweredFirst(c, [])
  {
  }

  lemma {:induction false} DedupAnswered(p: seq<Message>, s: seq<Message>)
    requires AllAnswered(s) && NoCallReused(p + s)
    ensures AllAnswered(Dedup(s, ResultIds(p)))
    decreases |s|
  {
    hide AllAnswered, Answered, ResultIds, Dedup, NoCallReused, Repeated;
    if s == [] {
      DedupNothing(ResultIds(p));
      NothingToAnswer();
    } else {
      var m, rest, seen := s[0], s[1..], ResultIds(p);
      AllAnsweredCons(s);
      assert (p + [m]) + rest == p + s && [m] + rest == s;
      ResultIdsConcat(p, [m]);
      DedupAnswered(p + [m], rest);
      DedupCons(m, rest, seen);
      var d' := Dedup(rest, seen + ResultIds([m]));
      if Repeated(m, seen) {
        RepeatedAddsNothing(m, seen);
      } else {
        if CallsTools(m) {
          CallKept(p, m, rest);
        }
        AllAnsweredCons([m] + d');
        assert ([m] + d')[1..] == d';
      }
    }
  }

  lemma DedupNothing(seen: set<string>)
    ensures Dedup([], seen) == []
  {
  }

  lemma RepeatedAddsNothing(m: Message, seen: set<string>)
    requires Repeated(m, seen)
    ensures seen + ResultIds([m]) == seen
  {
    DedupCons(m, [], seen);
  }

  lemma NotToolAddsNothing(m: Message, seen: set<string>)
    requires !m.role.Tool?
    ensures seen + ResultIds([m]) == seen
  {
    DedupCons(m, [], seen);
  }

  /** A call that reuses no id keeps its results through deduplication. */
  lemma CallKept(p: seq<Message>, m: Message, rest: seq<Message>)
    requires CallsTools(m) && Answered(m, rest) && NoCallReused(p + ([m] + rest))
    ensures Answered(m, Dedup(rest, ResultIds(p) + ResultIds([m])))
  {
    hide NoCallReused, Dedup, ResultIds, RunLen, AnsweredIn;
    var seen := ResultIds(p);
    NotToolAddsNothing(m, seen);
    forall c | c in m.calls
      ensures AnsweredFirst(c, Dedup(rest, seen))
    {
      NotSeen(p, [m] + rest, c);
      assert AnsweredFirst(c, rest);
      DedupRun(rest, seen, c);
    }
  }

  lemma NotSeen(p: seq<Message>, s: seq<Message>, c: string)
    requires s != [] && CallsTools(s[0]) && c in s[0].calls && NoCallReused(p + s)
    ensures c !in ResultIds(p)
  {
    assert (p + s)[|p|] == s[0];
    forall t | 0 <= t < |p| && p[t].role.Tool? && p[t].callId != ""
      ensures p[t].callId != c
    {
      assert (p + s)[t] == p[t];
    }
  }

  /** Some tool message at the front of s will survive deduplication. */
  ghost predicate KeepsOne(s: seq<Message>, seen: set<string>) {
    exists k :: 0 <= k < RunLen(s) && !Repeated(s[k], seen)
  }

  /** Deduplication keeps messages well placed, because every kept call keeps a result. */
  lemma {:induction false} DedupPlaced(p: seq<Message>, q: seq<Message>, s: seq<Message>)
    requires Placed(p + s) && Placed(q) && AllAnswered(s) && NoCallReused(p + s)
    requires OpenRun(p) ==> OpenRun(q)
    requires MayCallAfter(p) ==> MayCallAfter(q) || KeepsOne(s, ResultIds(p))
    requires OpenRun(p) && s != [] && s[0].role.Tool? ==> MayCallAfter(q) || KeepsOne(s, ResultIds(p))
    ensures Placed(q + Dedup(s, ResultIds(p)))
    decreases |s|
  {
    hide Placed, OpenRun, MayCallAfter, AllAnswered, NoCallReused, ResultIds, Dedup, KeepsOne, Repeated;
    var seen := ResultIds(p);
    if s == [] {
      DedupNothing(seen);
      assert q + Dedup(s, seen) == q;
    } else {
      var m, rest := s[0], s[1..];
      assert p + s == (p + [m]) + rest && [m] + rest == s;
      PlacedHere(p, m, rest);
      ResultIdsConcat(p, [m]);
      AllAnsweredCons(s);
      OpenRunSnoc(p, m);
      OpenRunSnoc(q, m);
      DedupCons(m, rest, seen);
      if Repeated(m, seen) {
        RepeatedAddsNothing(m, seen);
        KeepsOneLater(m, rest, seen);
        DedupPlaced(p + [m], q, rest);
      } else {
        KeepsOneHere(m, rest, seen);
        PlacedSnoc(q, m);
        if CallsTools(m) {
          CallKeepsOne(p, m, rest);
        }
        DedupPlaced(p + [m], q + [m], rest);
        assert q + ([m] + Dedup(rest, seen + ResultIds([m]))) == (q + [m]) + Dedup(rest, seen + ResultIds([m]));
      }
    }
  }

  lemma PlacedHere(p: seq<Message>, m: Message, rest: seq<Message>)
    requires Placed((p + [m]) + rest)
    ensures !m.role.System? && (m.role.Tool? ==> OpenRun(p)) && (CallsTools(m) ==> MayCallAfter(p))
  {
    var all := (p + [m]) + rest;
    hide OpenRun, MayCallAfter;
    assert PlacedAt(all, |p|) && all[..|p|] == p && all[|p|] == m;
  }

  lemma KeepsOneLater(m: Message, rest: seq<Message>, seen: set<string>)
    requires Repeated(m, seen)
    ensures KeepsOne([m] + rest, seen) ==> KeepsOne(rest, seen)
    ensures m.role.Tool?
  {
    RunCons(m, rest);
    if KeepsOne([m] + rest, seen) {
      var s := [m] + rest;
      var k :| 0 <= k < RunLen(s) && !Repeated(s[k], seen);
      assert s[k] == rest[k - 1];
    }
  }

  /** A run that keeps one result begins with a tool message. */
  lemma KeepsOneHere(m: Message, rest: seq<Message>, seen: set<string>)
    ensures KeepsOne([m] + rest, seen) ==> m.role.Tool?
  {
    hide Repeated;
    RunCons(m, rest);
  }

  lemma CallKeepsOne(p: seq<Message>, m: Message, rest: seq<Message>)
    requires CallsTools(m) && Answered(m, rest) && NoCallReused(p + ([m] + rest))
    ensures KeepsOne(rest, ResultIds(p) + ResultIds([m]))
  {
    hide NoCallReused, ResultIds, RunLen;
    var c, seen := m.calls[0], ResultIds(p);
    NotToolAddsNothing(m, seen);
    NotSeen(p, [m] + rest, c);
    var run := rest[..RunLen(rest)];
    var k :| 0 <= k < |run| && run[k].callId == c;
    assert rest[k] == run[k] && !Repeated(rest[k], seen);
  }

  // ----- main theorems ---------------------------------------------------------------------

  /** What pass two works on once incomplete blocks are gone. */
  function CompleteBlocks(h: seq<Message>): seq<Message> {
    DropIncomplete(Pass1(h))
  }

  lemma CompleteBlocksFacts(h: seq<Message>)
    ensures Placed(CompleteBlocks(h)) && AllAnswered(CompleteBlocks(h))
  {
    Pass1Placed([], h);
    assert [] + Pass1(h) == Pass1(h);
    DropPlaced([], [], Pass1(h));
    assert [] + CompleteBlocks(h) == CompleteBlocks(h);
    DropAnswered(Pass1(h));
  }

  /** Holds for every history, whatever its ids: the output is a subsequence of the input that keeps all
      plain messages in order, has no system message, has every tool message in a run headed by a
      tool-calling assistant, and answers no nonempty id twice. */
  lemma SanitizeAlways(h: seq<Message>)
    ensures Subsequence(Sanitize(h), h)
    ensures PlainOf(Sanitize(h)) == PlainOf(h)
    ensures AnsweredOnce(Sanitize(h))
    ensures forall i :: 0 <= i < |Sanitize(h)| ==>
              !Sanitize(h)[i].role.System? && (Sanitize(h)[i].role.Tool? ==> OpenRun(Sanitize(h)[..i]))
  {
    var p, d := Pass1(h), CompleteBlocks(h);
    hide Dedup, DropIncomplete, Subsequence, PlainOf, OpenRun;
    Pass1Facts(h);
    DropKeeps(p);
    DedupFacts(d, {});
    SubsequenceTrans(Sanitize(h), d, p);
    SubsequenceTrans(Sanitize(h), p, h);
    DedupUnique(d, {});
    CompleteBlocksFacts(h);
    assert [] + d == d;
    forall i | 0 <= i < |d|
      ensures !d[i].role.System? && (d[i].role.Tool? ==> OpenRun(d[..i]))
    {
      assert PlacedAt(d, i);
    }
    DedupHeaded([], [], d, {});
    assert [] + Sanitize(h) == Sanitize(h);
  }

  ghost predicate Headed(s: seq<Message>) {
    forall i :: 0 <= i < |s| ==> !s[i].role.System? && (s[i].role.Tool? ==> OpenRun(s[..i]))
  }

  lemma {:induction false} DedupHeaded(p: seq<Message>, q: seq<Message>, s: seq<Message>, seen: set<string>)
    requires Headed(p + s) && Headed(q)
    requires OpenRun(p) ==> OpenRun(q)
    ensures Headed(q + Dedup(s, seen))
    decreases |s|
  {
    hide Headed, OpenRun, Dedup, ResultIds, Repeated;
    if s == [] {
      DedupNothing(seen);
      assert q + Dedup(s, seen) == q;
    } else {
      var m, rest := s[0], s[1..];
      assert p + s == (p + [m]) + rest && [m] + rest == s;
      HeadedSnoc(p, q, m, rest);
      OpenRunSnoc(p, m);
      OpenRunSnoc(q, m);
      DedupCons(m, rest, seen);
      if Repeated(m, seen) {
        DroppedIsTool(m, seen);
        DedupHeaded(p + [m], q, rest, seen);
      } else {
        DedupHeaded(p + [m], q + [m], rest, seen + ResultIds([m]));
        assert q + ([m] + Dedup(rest, seen + ResultIds([m]))) == (q + [m]) + Dedup(rest, seen + ResultIds([m]));
      }
    }
  }

  lemma DroppedIsTool(m: Message, seen: set<string>)
    requires Repeated(m, seen)
    ensures m.role.Tool?
  {
  }

  lemma HeadedSnoc(p: seq<Message>, q: seq<Message>, m: Message, rest: seq<Message>)
    requires Headed((p + [m]) + rest) && Headed(q) && (OpenRun(p) ==> OpenRun(q))
    ensures Headed(q + [m])
  {
    hide OpenRun;
    var all := (p + [m]) + rest;
    assert all[|p|] == m && all[..|p|] == p;
    forall i | 0 <= i < |q + [m]|
      ensures (q + [m])[..i] == q[..i]
    {
    }
    assert q[..|q|] == q;
  }

  /** Fixed points: the sanitizer leaves a history alone exactly when a strict provider accepts it. */
  lemma FixedPointIffValid(h: seq<Message>)
    ensures Sanitize(h) == h <==> ProviderValid(h)
  {
    var p, d := Pass1(h), CompleteBlocks(h);
    assert [] + h == h;
    Pass1Identity([], h);
    DropShrinks(p);
    DedupFacts(d, {});
    if Sanitize(h) == h {
      DedupUnique(d, {});
    }
    if ProviderValid(h) {
      DedupIdentity(h, {});
    }
  }

  /** The exact condition for a provider-valid result: no surviving assistant reuses a call id that an
      earlier surviving tool message already answered.  The set of seen ids spans the whole history, so
      otherwise that assistant is kept and its own result is dropped. */
  lemma ValidIffNoCallReused(h: seq<Message>)
    ensures ProviderValid(Sanitize(h)) <==> NoCallReused(CompleteBlocks(h))
  {
    hide ProviderValid, NoCallReused, CompleteBlocks, Sanitize;
    if NoCallReused(CompleteBlocks(h)) {
      NoReuseValid(h);
    } else {
      ReuseInvalid(h);
    }
  }

  lemma NoReuseValid(h: seq<Message>)
    requires NoCallReused(CompleteBlocks(h))
    ensures ProviderValid(Sanitize(h))
  {
    hide Dedup, DropIncomplete, Pass1, Placed, AllAnswered, AnsweredOnce, NoCallReused;
    var d := CompleteBlocks(h);
    CompleteBlocksFacts(h);
    assert [] + d == d && ResultIds([]) == {} && [] + Sanitize(h) == Sanitize(h);
    assert Placed([]) by {
      NothingPlaced();
    }
    DedupPlaced([], [], d);
    DedupAnswered([], d);
    DedupUnique(d, {});
  }

  lemma NothingPlaced()
    ensures Placed([])
  {
  }

  lemma ReuseInvalid(h: seq<Message>)
    requires !NoCallReused(CompleteBlocks(h))
    ensures !ProviderValid(Sanitize(h))
  {
    hide Dedup, DropIncomplete, Pass1, Placed, AllAnswered, AnsweredOnce;
    var d := CompleteBlocks(h);
    var t, j :| 0 <= t < j < |d| && d[t].role.Tool? && d[t].callId != "" && CallsTools(d[j]) && d[t].callId in d[j].calls;
    ReuseLosesResult(d, t, j);
  }

  lemma ReuseLosesResult(d: seq<Message>, t: nat, j: nat)
    requires t < j < |d| && d[t].role.Tool? && d[t].callId != "" && CallsTools(d[j]) && d[t].callId in d[j].calls
    ensures !AllAnswered(Dedup(d, {}))
  {
    hide Dedup, AllAnswered, ResultIds, CallsTools, Repeated;
    var a, m, rest := d[..j], d[j], d[j + 1..];
    var c, seen := d[t].callId, ResultIds(a);
    assert a[t] == d[t];
    AnsweredId(a, t);
    assert d == a + ([m] + rest) && {} + seen == seen;
    DedupConcat(a, [m] + rest, {});
    DedupCons(m, rest, seen);
    CallerKept(m, seen);
    DedupFacts(rest, seen);
    LostResult(Dedup(a, {}), m, Dedup(rest, seen), c);
  }

  lemma AnsweredId(a: seq<Message>, t: nat)
    requires t < |a| && a[t].role.Tool? && a[t].callId != ""
    ensures a[t].callId in ResultIds(a)
  {
  }

  lemma CallerKept(m: Message, seen: set<string>)
    requires CallsTools(m)
    ensures !Repeated(m, seen) && seen + ResultIds([m]) == seen
  {
    NotToolAddsNothing(m, seen);
  }

  lemma LostResult(front: seq<Message>, m: Message, rest: seq<Message>, c: string)
    requires CallsTools(m) && c in m.calls && c != "" && c !in ResultIds(rest)
    ensures !AllAnswered(front + ([m] + rest))
  {
    var e := front + ([m] + rest);
    assert e[|front|] == m && e[|front| + 1..] == rest;
    var run := rest[..RunLen(rest)];
    forall l | 0 <= l < |run|
      ensures run[l].callId != c
    {
      assert rest[l] == run[l] && run[l].role.Tool?;
      assert run[l].callId != "" ==> run[l].callId in ResultIds(rest);
    }
    assert !AnsweredIn(c, run);
    assert !Answered(m, rest);
  }

  /** Idempotence holds under exactly the same condition. */
  lemma IdempotentIffNoCallReused(h: seq<Message>)
    ensures Sanitize(Sanitize(h)) == Sanitize(h) <==> NoCallReused(CompleteBlocks(h))
  {
    FixedPointIffValid(Sanitize(h));
    ValidIffNoCallReused(h);
  }

  /** A condition on the raw history: two tool messages share a nonempty id only inside one stretch of tool
      and system messages. */
  ghost predicate IdsLocal(h: seq<Message>) {
    forall i, j :: 0 <= i < j < |h| && h[i].role.Tool? && h[j].role.Tool? && h[i].callId == h[j].callId != ""
      ==> forall k :: i < k < j ==> h[k].role.Tool? || h[k].role.System?
  }

  /** Splitting at a plain message, for every history: the second part only loses the results whose ids the
      first part already answered. */
  lemma SanitizeSplit(h: seq<Message>, u: nat)
    requires u < |h| && Plain(h[u])
    ensures Sanitize(h) ==
            Sanitize(h[..u]) + Without(Sanitize(h[u..]), ResultIds(Sanitize(h[..u])))
  {
    var a, b := Pass1(h[..u]), Pass1(h[u..]);
    Pass1Split(h, u);
    DropConcat(a, b);
    var da, db := DropIncomplete(a), DropIncomplete(b);
    DedupConcat(da, db, {});
    DedupFacts(da, {});
    assert {} + ResultIds(da) == ResultIds(da);
    DedupSeenIsFilter(db, {}, ResultIds(da));
  }

  /** Sanitizing is compositional at a plain message (in particular at a user message) exactly when the
      two sanitized parts answer disjoint ids. */
  lemma CompositionalIffDisjoint(h: seq<Message>, u: nat)
    requires u < |h| && Plain(h[u])
    ensures Sanitize(h) == Sanitize(h[..u]) + Sanitize(h[u..]) <==>
            ResultIds(Sanitize(h[..u])) !! ResultIds(Sanitize(h[u..]))
  {
    var a, b := Sanitize(h[..u]), Sanitize(h[u..]);
    SanitizeSplit(h, u);
    WithoutIdentity(b, ResultIds(a));
    if a + Without(b, ResultIds(a)) == a + b {
      assert (a + Without(b, ResultIds(a)))[|a|..] == Without(b, ResultIds(a));
      assert (a + b)[|a|..] == b;
    }
  }

  /** A subsequence embeds into its source in order. */
  lemma {:induction false} Embeds(a: seq<Message>, b: seq<Message>) returns (f: seq<nat>)
    requires Subsequence(a, b)
    ensures |f| == |a|
    ensures forall i :: 0 <= i < |f| ==> f[i] < |b| && b[f[i]] == a[i]
    ensures forall i, j :: 0 <= i < j < |f| ==> f[i] < f[j]
    decreases |b|
  {
    if a == [] {
      f := [];
    } else if a[0] == b[0] && Subsequence(a[1..], b[1..]) {
      var g := Embeds(a[1..], b[1..]);
      f := [0] + seq(|g|, i requires 0 <= i < |g| => g[i] + 1);
    } else {
      var g := Embeds(a, b[1..]);
      f := seq(|g|, i requires 0 <= i < |g| => g[i] + 1);
    }
  }

  lemma LaterResultsDiffer(d: seq<Message>, h: seq<Message>, f: seq<nat>, t: nat, j: nat, l: nat)
    requires IdsLocal(h) && |f| == |d|
    requires forall i :: 0 <= i < |f| ==> f[i] < |h| && h[f[i]] == d[i]
    requires forall i, j :: 0 <= i < j < |f| ==> f[i] < f[j]
    requires t < j < l < |d| && d[t].role.Tool? && d[t].callId != "" && CallsTools(d[j]) && d[l].role.Tool?
    ensures d[l].callId != d[t].callId
  {
    assert f[t] < f[j] < f[l];
    assert h[f[j]].role.Assistant?;
  }

  lemma LocalIdsNoReuse(d: seq<Message>, h: seq<Message>)
    requires IdsLocal(h) && Subsequence(d, h) && AllAnswered(d)
    ensures NoCallReused(d)
  {
    hide IdsLocal, Subsequence, Answered;
    var f := Embeds(d, h);
    forall t, j | 0 <= t < j < |d| && d[t].role.Tool? && d[t].callId != "" && CallsTools(d[j])
      ensures d[t].callId !in d[j].calls
    {
      forall c | c in d[j].calls
        ensures c != d[t].callId
      {
        var l := AnswerPosition(d, j, c);
        LaterResultsDiffer(d, h, f, t, j, l);
      }
    }
  }

  lemma AnswerPosition(d: seq<Message>, j: nat, c: string) returns (l: nat)
    requires j < |d| && CallsTools(d[j]) && AllAnswered(d) && c in d[j].calls
    ensures j < l < |d| && d[l].role.Tool? && d[l].callId == c
  {
    var rest := d[j + 1..];
    assert AnsweredIn(c, rest[..RunLen(rest)]);
    var k :| 0 <= k < RunLen(rest) && rest[..RunLen(rest)][k].callId == c;
    l := j + 1 + k;
    assert d[l] == rest[k];
  }

  /** Local ids in the raw history are enough: the sanitized history is then valid and a fixed point. */
  lemma LocalIdsSuffice(h: seq<Message>)
    requires IdsLocal(h)
    ensures ProviderValid(Sanitize(h)) && Sanitize(Sanitize(h)) == Sanitize(h)
  {
    var d := CompleteBlocks(h);
    CompleteBlocksFacts(h);
    Pass1Facts(h);
    DropKeeps(Pass1(h));
    SubsequenceTrans(d, Pass1(h), h);
    LocalIdsNoReuse(d, h);
    ValidIffNoCallReused(h);
    IdempotentIffNoCallReused(h);
  }

  lemma SanitizedIds(h: seq<Message>)
    ensures ResultIds(Sanitize(h)) <= ResultIds(h)
  {
    SanitizeAlways(h);
    var s := Sanitize(h);
    var f := Embeds(s, h);
    forall id | id in ResultIds(s)
      ensures id in ResultIds(h)
    {
      var k :| 0 <= k < |s| && s[k].role.Tool? && s[k].callId == id && id != "";
      assert h[f[k]] == s[k];
    }
  }

  /** On the raw history: if no id is answered on both sides of the cut, sanitizing is compositional there. */
  lemma CompositionalWhenIdsSeparate(h: seq<Message>, u: nat)
    requires u < |h| && Plain(h[u]) && ResultIds(h[..u]) !! ResultIds(h[u..])
    ensures Sanitize(h) == Sanitize(h[..u]) + Sanitize(h[u..])
  {
    SanitizedIds(h[..u]);
    SanitizedIds(h[u..]);
    CompositionalIffDisjoint(h, u);
  }

  /** A turn that reuses a call id of an earlier turn: two turns of user, call, result. */
  function ReusingTurn(): seq<Message> {
    [Message(User, [], "", "q"), Message(Assistant, ["1"], "", ""), Message(Tool, [], "1", "r")]
  }

  lemma ReusingTurnAlone()
    ensures ProviderValid(ReusingTurn()) && Sanitize(ReusingTurn()) == ReusingTurn()
  {
    var t := ReusingTurn();
    assert RunLen([t[2]]) == 1;
    assert [t[2]][0].callId == "1";
    assert AnsweredIn("1", [t[2]][..1]);
    hide RunLen, AnsweredIn;
    assert t[..2] == [t[0], t[1]] && t[..1] == [t[0]] && t[2..] == [t[2]];
    assert PlacedAt(t, 0);
    assert PlacedAt(t, 1);
    assert PlacedAt(t, 2);
    assert Placed(t);
    assert AllAnswered(t);
    assert AnsweredOnce(t);
    hide Placed, AllAnswered, AnsweredOnce, OpenRun;
    FixedPointIffValid(t);
  }

  /** Without the id condition all three laws fail: two valid turns that share an id. */
  lemma ReuseBreaksSanitizing()
    ensures
      var t := ReusingTurn();
      var h := t + t;
      && Sanitize(h) != Sanitize(h[..3]) + Sanitize(h[3..])
      && !ProviderValid(Sanitize(h))
      && Sanitize(Sanitize(h)) != Sanitize(h)
  {
    var t := ReusingTurn();
    var h := t + t;
    ReusingTurnAlone();
    assert h[..3] == t && h[3..] == t && Plain(h[3]) && t[2].callId in ResultIds(t);
    assert t[1].calls[0] == "1";
    hide ReusingTurn, Sanitize, Pass1, DropIncomplete, ProviderValid, NoCallReused, ResultIds;
    CompositionalIffDisjoint(h, 3);
    TwiceReuses(t);
    ValidIffNoCallReused(h);
    IdempotentIffNoCallReused(h);
  }

  lemma TwiceReuses(t: seq<Message>)
    requires |t| == 3 && Plain(t[0]) && t[2].role.Tool? && t[2].callId != "" && CallsTools(t[1])
    requires t[2].callId in t[1].calls && Sanitize(t) == t
    ensures !NoCallReused(CompleteBlocks(t + t))
  {
    var h := t + t;
    assert h[..3] == t && h[3..] == t;
    Pass1Split(h, 3);
    assert [] + t == t;
    Pass1Identity([], t);
    DropShrinks(Pass1(t));
    DedupFacts(DropIncomplete(Pass1(t)), {});
    assert DropIncomplete(t) == t && Pass1(t) == t;
    hide Pass1, DropIncomplete, Dedup;
    DropConcat(t, t);
    assert h[2] == t[2] && h[4] == t[1];
    assert CompleteBlocks(h) == h;
  }
}
