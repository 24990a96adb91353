/** The two-pass history sanitizer that runs before every provider call. */
module Sanitizer {
  import opened Messages

  // ----- specification of the two passes ---------------------------------------------------

  /** First pass, one message: what the kept prefix `out` becomes. */
  function Step1(out: seq<Message>, m: Message): seq<Message> {
    match m.role
    case System => out
    case Tool => if OpenRun(out) then out + [m] else out
    case Assistant => if |m.calls| > 0 && !MayCallAfter(out) then out else out + [m]
    case _ => out + [m]
  }

  function Pass1From(out: seq<Message>, h: seq<Message>): seq<Message>
    decreases |h|
  {
    if h == [] then out else Pass1From(Step1(out, h[0]), h[1..])
  }

  function Pass1(h: seq<Message>): seq<Message> {
    Pass1From([], h)
  }

  /** Second pass, block removal: drop every tool-calling assistant with an unanswered call,
      together with the tool messages that directly follow it. */
  function DropIncomplete(s: seq<Message>): seq<Message>
    decreases |s|
  {
    if s == [] then []
    else if CallsTools(s[0]) && !Answered(s[0], s[1..]) then DropIncomplete(s[1 + RunLen(s[1..])..])
    else [s[0]] + DropIncomplete(s[1..])
  }

  predicate Repeated(m: Message, seen: set<string>) {
    m.role.Tool? && m.callId != "" && m.callId in seen
  }

  /** Second pass, deduplication: keep only the first tool message for each nonempty id. */
  function Dedup(s: seq<Message>, seen: set<string>): seq<Message> {
    if s == [] then []
    else if Repeated(s[0], seen) then Dedup(s[1..], seen)
    else [s[0]] + Dedup(s[1..], seen + ResultIds([s[0]]))
  }

  function Pass2(s: seq<Message>): seq<Message> {
    Dedup(DropIncomplete(s), {})
  }

  function Sanitize(h: seq<Message>): seq<Message> {
    Pass2(Pass1(h))
  }

  // ----- what a strict provider demands ----------------------------------------------------

  /** The structural demands on message i: no system message; a tool message lies in a run headed by a
      tool-calling assistant; such an assistant comes directly after a user message or a tool result. */
  predicate PlacedAt(h: seq<Message>, i: int)
    requires 0 <= i < |h|
  {
    && !h[i].role.System?
    && (h[i].role.Tool? ==> OpenRun(h[..i]))
    && (CallsTools(h[i]) ==> MayCallAfter(h[..i]))
  }

  ghost predicate Placed(h: seq<Message>) {
    forall i :: 0 <= i < |h| ==> PlacedAt(h, i)
  }

  /** Every tool-calling assistant has each of its calls answered in the run that follows it. */
  ghost predicate AllAnswered(h: seq<Message>) {
    forall i :: 0 <= i < |h| && CallsTools(h[i]) ==> Answered(h[i], h[i + 1..])
  }

  /** No nonempty id is answered twice. */
  ghost predicate AnsweredOnce(h: seq<Message>) {
    forall i, j :: 0 <= i < j < |h| && h[i].role.Tool? && h[j].role.Tool? && h[i].callId != ""
      ==> h[i].callId != h[j].callId
  }

  ghost predicate ProviderValid(h: seq<Message>) {
    Placed(h) && AllAnswered(h) && AnsweredOnce(h)
  }

  /** No surviving assistant makes a call whose id was already answered before it. */
  ghost predicate NoCallReused(s: seq<Message>) {
    forall t, j :: 0 <= t < j < |s| && s[t].role.Tool? && s[t].callId != "" && CallsTools(s[j])
      ==> s[t].callId !in s[j].calls
  }

  // ----- the loops -------------------------------------------------------------------------

  method SanitizeHistoryForProvider(history: seq<Message>) returns (final: seq<Message>)
    ensures final == Sanitize(history)
  {
    if |history| == 0 {
      return history;
    }
    var sanitized := [];
    var n := 0;
    while n < |history|
      invariant 0 <= n <= |history|
      invariant Pass1From(sanitized, history[n..]) == Pass1(history)
    {
      var msg := history[n];
      assert history[n..][0] == msg && history[n..][1..] == history[n + 1..];
      n := n + 1;
      match msg.role {
        case System =>
        case Tool =>
          if |sanitized| > 0 {
            var foundAssistant := FindOpenAssistant(sanitized);
            if foundAssistant {
              sanitized := sanitized + [msg];
            }
          }
        case Assistant =>
          if |msg.calls| > 0 {
            if |sanitized| > 0 {
              var prev := sanitized[|sanitized| - 1];
              if prev.role.User? || prev.role.Tool? {
                sanitized := sanitized + [msg];
              }
            }
          } else {
            sanitized := sanitized + [msg];
          }
        case _ =>
          sanitized := sanitized + [msg];
      }
    }
    final := SecondPass(sanitized);
  }

  /** Walks backwards over the tool messages at the end of the kept prefix. */
  method FindOpenAssistant(sanitized: seq<Message>) returns (found: bool)
    ensures found == OpenRun(sanitized)
  {
    var i := |sanitized| - 1;
    assert sanitized[..i + 1] == sanitized;
    while i >= 0
      invariant -1 <= i < |sanitized|
      invariant OpenRun(sanitized[..i + 1]) == OpenRun(sanitized)
    {
      assert sanitized[..i + 1][..i] == sanitized[..i];
      if sanitized[i].role.Tool? {
        i := i - 1;
      } else {
        return CallsTools(sanitized[i]);
      }
    }
    return false;
  }

  method SecondPass(sanitized: seq<Message>) returns (final: seq<Message>)
    ensures final == Pass2(sanitized)
  {
    hide Dedup, DropIncomplete, RunLen, Answered;
    final := [];
    var seen: set<string> := {};
    var i := 0;
    assert sanitized[0..] == sanitized;
    while i < |sanitized|
      invariant 0 <= i <= |sanitized|
      invariant final + Remaining(sanitized, i, seen) == Pass2(sanitized)
    {
      var msg := sanitized[i];
      RemainingStep(sanitized, i, seen);
      ghost var before := final;
      if msg.role.Tool? && msg.callId != "" {
        if msg.callId in seen {
          i := i + 1;
          continue;
        }
        seen := seen + {msg.callId};
      }
      if msg.role.Assistant? && |msg.calls| > 0 {
        var allFound, toolMsgCount := CheckResults(msg, sanitized, i);
        if !allFound {
          i := i + 1 + toolMsgCount;
          continue;
        }
      }
      final := final + [msg];
      i := i + 1;
    }
  }

  /** What the second pass still has to produce from position i on. */
  ghost function Remaining(s: seq<Message>, i: nat, seen: set<string>): seq<Message>
    requires i <= |s|
    ensures i == |s| ==> Remaining(s, i, seen) == []
  {
    Dedup(DropIncomplete(s[i..]), seen)
  }

  lemma RemainingStep(s: seq<Message>, i: nat, seen: set<string>)
    requires i < |s|
    ensures
      var m, n := s[i], RunLen(s[i + 1..]);
      Remaining(s, i, seen) ==
      if CallsTools(m) && !Answered(m, s[i + 1..]) then Remaining(s, i + 1 + n, seen)
      else if m.role.Tool? && m.callId != "" && m.callId in seen then Remaining(s, i + 1, seen)
      else [m] + Remaining(s, i + 1, if m.role.Tool? && m.callId != "" then seen + {m.callId} else seen)
  {
    hide Answered, RunLen, Dedup, ResultIds;
    var rest := s[i..];
    assert rest[0] == s[i] && rest[1..] == s[i + 1..];
    var n := RunLen(s[i + 1..]);
    assert rest[1 + n..] == s[i + 1 + n..];
    DedupCons(s[i], DropIncomplete(s[i + 1..]), seen);
    assert seen + {} == seen;
  }

  lemma DedupCons(m: Message, s: seq<Message>, seen: set<string>)
    ensures Dedup([m] + s, seen) ==
            if Repeated(m, seen) then Dedup(s, seen) else [m] + Dedup(s, seen + ResultIds([m]))
    ensures ResultIds([m]) == if m.role.Tool? && m.callId != "" then {m.callId} else {}
  {
    assert ([m] + s)[1..] == s;
    assert [m][0] == m;
  }

  /** Scans the tool messages after position i, ticking off the expected call ids. */
  method CheckResults(msg: Message, sanitized: seq<Message>, i: nat) returns (allFound: bool, toolMsgCount: nat)
    requires i < |sanitized|
    ensures toolMsgCount == RunLen(sanitized[i + 1..])
    ensures allFound == Answered(msg, sanitized[i + 1..])
  {
    var expected: map<string, bool> := map[];
    var k := 0;
    while k < |msg.calls|
      invariant 0 <= k <= |msg.calls|
      invariant expected.Keys == set c | c in msg.calls[..k]
      invariant forall c :: c in expected ==> !expected[c]
    {
      expected := expected[msg.calls[k] := false];
      k := k + 1;
    }
    assert msg.calls[..k] == msg.calls;
    ghost var rest := sanitized[i + 1..];
    toolMsgCount := 0;
    var j := i + 1;
    while j < |sanitized| && sanitized[j].role.Tool?
      invariant i + 1 <= j <= |sanitized| && toolMsgCount == j - i - 1
      invariant forall l :: 0 <= l < toolMsgCount ==> rest[l].role.Tool?
      invariant expected.Keys == set c | c in msg.calls
      invariant forall c :: c in expected ==> expected[c] == AnsweredIn(c, rest[..toolMsgCount])
    {
      ghost var before := rest[..toolMsgCount];
      assert rest[..toolMsgCount + 1] == before + [sanitized[j]];
      AnsweredInSnoc(before, sanitized[j]);
      if sanitized[j].callId in expected {
        expected := expected[sanitized[j].callId := true];
      }
      toolMsgCount := toolMsgCount + 1;
      j := j + 1;
    }
    RunLenUnique(rest, toolMsgCount);
    allFound := forall c | c in expected.Keys :: expected[c];
  }

  lemma AnsweredInSnoc(run: seq<Message>, m: Message)
    ensures forall c :: AnsweredIn(c, run + [m]) <==> AnsweredIn(c, run) || m.callId == c
  {
    forall c
      ensures AnsweredIn(c, run + [m]) <==> AnsweredIn(c, run) || m.callId == c
    {
      if AnsweredIn(c, run) {
        var k :| 0 <= k < |run| && run[k].callId == c;
        assert (run + [m])[k].callId == c;
      }
      if m.callId == c {
        assert (run + [m])[|run|].callId == c;
      }
    }
  }

  lemma RunLenUnique(s: seq<Message>, n: nat)
    requires n <= |s|
    requires forall k :: 0 <= k < n ==> s[k].role.Tool?
    requires n < |s| ==> !s[n].role.Tool?
    ensures RunLen(s) == n
  {
  }
}
