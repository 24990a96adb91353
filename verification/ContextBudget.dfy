/** Turn boundaries, emergency compression and the summary cut. */
module ContextBudget {
  import opened Messages
  import opened Sanitizer
  import opened SanitizerLaws

  // ----- turn boundaries -------------------------------------------------------------------

  predicate StartsTurn(h: seq<Message>, i: int) {
    0 <= i < |h| && IsUserRole(h[i].role)
  }

  /** The turn starts of h, in order. */
  ghost predicate TurnStarts(h: seq<Message>, starts: seq<int>) {
    && (forall a, b :: 0 <= a < b < |starts| ==> starts[a] < starts[b])
    && (forall a :: 0 <= a < |starts| ==> StartsTurn(h, starts[a]))
    && (forall i :: StartsTurn(h, i) ==> i in starts)
  }

  /** What the boundary search promises: the last turn start in (0, target]; failing that, the first one
      after the target; failing that 0, except that a history without turns is cut at the target itself. */
  ghost predicate NearestBoundary(h: seq<Message>, target: int, r: int) {
    if |h| == 0 || target <= 0 then r == 0
    else if target >= |h| then r == |h|
    else if forall i :: !StartsTurn(h, i) then r == target
    else if exists i :: 0 < i <= target && StartsTurn(h, i) then
      0 < r <= target && StartsTurn(h, r) && forall i :: r < i <= target ==> !StartsTurn(h, i)
    else if exists i :: target < i && StartsTurn(h, i) then
      target < r && StartsTurn(h, r) && forall i :: target < i < r ==> !StartsTurn(h, i)
    else r == 0
  }

  lemma NearestBoundaryUnique(h: seq<Message>, target: int, r: int, r': int)
    requires NearestBoundary(h, target, r) && NearestBoundary(h, target, r')
    ensures r == r'
  {
  }

  /** In the roles themselves: nothing is cut at or before 0 and nothing kept from the end on; in between there is no user
      message between the boundary and the target, and the boundary is one, or 0, or the target of a history without. */
  lemma BoundaryMeaning(h: seq<Message>, target: int, r: int)
    requires NearestBoundary(h, target, r)
    ensures 0 <= r <= |h| && (target <= 0 ==> r == 0) && (target >= |h| ==> r == |h|)
    ensures 0 < target < |h| ==>
              && (forall i :: r < i <= target ==> !IsUserRole(h[i].role))
              && (r > target ==> forall i :: 0 < i < r ==> !IsUserRole(h[i].role))
              && (0 < r != target ==> r < |h| && IsUserRole(h[r].role))
              && (r == target && !IsUserRole(h[r].role) ==> forall m :: m in h ==> !IsUserRole(m.role))
  {
    forall i | 0 <= i < |h|
      ensures IsUserRole(h[i].role) ==> StartsTurn(h, i)
    {
    }
  }

  method ParseTurnBoundaries(history: seq<Message>) returns (starts: seq<int>)
    ensures TurnStarts(history, starts)
  {
    starts := [];
    for i := 0 to |history|
      invariant forall a, b :: 0 <= a < b < |starts| ==> starts[a] < starts[b]
      invariant forall a :: 0 <= a < |starts| ==> starts[a] < i && StartsTurn(history, starts[a])
      invariant forall k :: k < i && StartsTurn(history, k) ==> k in starts
    {
      if IsUserRole(history[i].role) {
        ghost var before := starts;
        starts := starts + [i];
        assert starts[|before|] == i;
        assert forall k :: k in before ==> k in starts;
      }
    }
  }

  method IsSafeBoundary(history: seq<Message>, index: int) returns (safe: bool)
    ensures safe <==> index <= 0 || index >= |history| || StartsTurn(history, index)
  {
    if index <= 0 || index >= |history| {
      return true;
    }
    return IsUserRole(history[index].role);
  }

  method FindSafeBoundary(history: seq<Message>, targetIndex: int) returns (r: int)
    ensures NearestBoundary(history, targetIndex, r)
    ensures 0 <= r <= |history|
  {
    if |history| == 0 || targetIndex <= 0 {
      return 0;
    }
    if targetIndex >= |history| {
      return |history|;
    }
    var turns := ParseTurnBoundaries(history);
    if |turns| == 0 {
      return targetIndex;
    }
    assert StartsTurn(history, turns[0]);
    var backward := LastTurnAtOrBefore(turns, targetIndex);
    if backward > 0 {
      return backward;
    }
    var forward := FirstTurnAfter(turns, targetIndex);
    return if forward > 0 then forward else 0;
  }

  method LastTurnAtOrBefore(turns: seq<int>, targetIndex: int) returns (backward: int)
    requires forall a, b :: 0 <= a < b < |turns| ==> turns[a] < turns[b]
    requires forall a :: 0 <= a < |turns| ==> 0 <= turns[a]
    ensures backward == -1 || (backward in turns && backward <= targetIndex)
    ensures forall t :: t in turns && t <= targetIndex ==> t <= backward
  {
    backward := -1;
    for k := 0 to |turns|
      invariant backward == -1 || (backward in turns && backward <= targetIndex)
      invariant forall a :: 0 <= a < k && turns[a] <= targetIndex ==> turns[a] <= backward
    {
      if turns[k] <= targetIndex {
        backward := turns[k];
      }
    }
  }

  method FirstTurnAfter(turns: seq<int>, targetIndex: int) returns (forward: int)
    requires forall a, b :: 0 <= a < b < |turns| ==> turns[a] < turns[b]
    ensures forward == -1 || (forward in turns && forward > targetIndex)
    ensures forall t :: t in turns && t > targetIndex ==> forward in turns && forward <= t
  {
    for k := 0 to |turns|
      invariant forall a :: 0 <= a < k ==> turns[a] <= targetIndex
    {
      if turns[k] > targetIndex {
        return turns[k];
      }
    }
    return -1;
  }

  // ----- cutting a valid history -----------------------------------------------------------

  /** Exactly the plain messages are safe first messages: a suffix of a valid history is valid if and only
      if it starts with one. */
  lemma SuffixValidIff(h: seq<Message>, j: nat)
    requires ProviderValid(h) && j < |h|
    ensures ProviderValid(h[j..]) <==> Plain(h[j])
  {
    var p, s := h[..j], h[j..];
    assert h == p + s && s[0] == h[j];
    if ProviderValid(s) {
      assert PlacedAt(s, 0) && s[..0] == [];
    }
    if Plain(s[0]) {
      forall i | 0 <= i < |s|
        ensures PlacedAt(s, i)
      {
        assert PlacedAt(h, j + i) && h[..j + i] == p + s[..i];
        if i > 0 {
          OpenRunPrefix(p, s[..i]);
        }
      }
      forall i | 0 <= i < |s| && CallsTools(s[i])
        ensures Answered(s[i], s[i + 1..])
      {
        assert s[i] == h[j + i] && s[i + 1..] == h[j + i + 1..];
      }
      forall i, k | 0 <= i < k < |s| && s[i].role.Tool? && s[k].role.Tool? && s[i].callId != ""
        ensures s[i].callId != s[k].callId
      {
        assert s[i] == h[j + i] && s[k] == h[j + k];
      }
    }
  }

  /** A valid history without a user message has no tool traffic at all. */
  lemma {:induction false} NoUserNoTools(h: seq<Message>, n: nat)
    requires Placed(h) && n <= |h| && forall i :: !StartsTurn(h, i)
    ensures forall i :: 0 <= i < n ==> Plain(h[i])
  {
    if n > 0 {
      NoUserNoTools(h, n - 1);
      assert PlacedAt(h, n - 1) && !StartsTurn(h, n - 1);
      var p := h[..n - 1];
      if n > 1 {
        assert p[n - 2] == h[n - 2] && Plain(h[n - 2]) && !StartsTurn(h, n - 2);
      }
    }
  }

  /** Wherever the boundary search lands, cutting a valid history there leaves a valid history. */
  lemma BoundaryCutValid(h: seq<Message>, target: int, r: int)
    requires ProviderValid(h) && NearestBoundary(h, target, r)
    ensures 0 <= r <= |h| && ProviderValid(h[r..])
  {
    if r == |h| {
      assert h[r..] == [];
    } else if r == 0 {
      assert h[r..] == h;
    } else {
      if forall i :: !StartsTurn(h, i) {
        NoUserNoTools(h, |h|);
      }
      SuffixValidIff(h, r);
    }
  }

  // ----- emergency compression -------------------------------------------------------------

  /** What emergency compression keeps of a history, as positions. */
  datatype Keep = All | Suffix(from: nat) | Only(index: nat) | Nothing

  function Apply<T>(keep: Keep, s: seq<T>): seq<T>
    requires keep.Suffix? ==> keep.from <= |s|
    requires keep.Only? ==> keep.index < |s|
  {
    match keep
    case All => s
    case Suffix(k) => s[k..]
    case Only(i) => [s[i]]
    case Nothing => []
  }

  predicate Fits<T>(keep: Keep, s: seq<T>) {
    (keep.Suffix? ==> keep.from <= |s|) && (keep.Only? ==> keep.index < |s|)
  }

  /** The decision: `starts` are the turn starts, `mid` the cut they lead to. */
  ghost predicate CompressionCut(h: seq<Message>, mid: int) {
    exists starts :: TurnStarts(h, starts) &&
      if |starts| >= 2 then mid == starts[|starts| / 2] else NearestBoundary(h, |h| / 2, mid)
  }

  ghost predicate KeepsAfterCut(h: seq<Message>, mid: int, keep: Keep) {
    if mid > 0 then keep == Suffix(mid)
    else match keep
         case Only(i) => i < |h| && h[i].role.User? && forall k :: i < k < |h| ==> !h[k].role.User?
         case Nothing => forall k :: 0 <= k < |h| ==> !h[k].role.User?
         case _ => false
  }

  ghost predicate Compression(h: seq<Message>, keep: Keep) {
    if |h| <= 2 then keep == All else exists mid :: CompressionCut(h, mid) && KeepsAfterCut(h, mid, keep)
  }

  lemma {:induction false} TurnStartsUnique(h: seq<Message>, a: seq<int>, b: seq<int>)
    requires TurnStarts(h, a) && TurnStarts(h, b)
    ensures a == b
  {
    SortedUnique(a, b);
  }

  lemma {:induction false} SortedUnique(a: seq<int>, b: seq<int>)
    requires forall i, j :: 0 <= i < j < |a| ==> a[i] < a[j]
    requires forall i, j :: 0 <= i < j < |b| ==> b[i] < b[j]
    requires (forall x :: x in a ==> x in b) && (forall x :: x in b ==> x in a)
    ensures a == b
    decreases |a|
  {
    assert a == [] || a[0] in a;
    assert b == [] || b[0] in b;
    if a != [] && b != [] {
      assert a[0] == b[0];
      var a', b' := a[1..], b[1..];
      forall x | x in a'
        ensures x in b'
      {
        assert x in b && x != b[0];
      }
      forall x | x in b'
        ensures x in a'
      {
        assert x in a && x != a[0];
      }
      SortedUnique(a', b');
    }
  }

  /** The cut either drops whole leading turns, or the history is a single turn starting at its first message. */
  lemma CutFacts(h: seq<Message>, mid: int)
    requires |h| > 2 && CompressionCut(h, mid)
    ensures 0 <= mid < |h|
    ensures mid == 0 <==> StartsTurn(h, 0) && forall i :: 0 < i < |h| ==> !StartsTurn(h, i)
    ensures mid > 0 && (exists i :: StartsTurn(h, i)) ==>
              StartsTurn(h, mid) && exists i :: mid <= i && StartsTurn(h, i) && forall k :: i < k ==> !StartsTurn(h, k)
  {
    var starts :| TurnStarts(h, starts) &&
      if |starts| >= 2 then mid == starts[|starts| / 2] else NearestBoundary(h, |h| / 2, mid);
    if |starts| >= 2 {
      hide NearestBoundary;
      MiddleStart(h, starts);
    } else if |starts| == 1 {
      assert StartsTurn(h, starts[0]);
      assert forall k :: StartsTurn(h, k) ==> k == starts[0];
    }
  }

  lemma MiddleStart(h: seq<Message>, starts: seq<int>)
    requires TurnStarts(h, starts) && |starts| >= 2
    ensures var mid := starts[|starts| / 2];
            && 0 < mid < |h| && StartsTurn(h, mid)
            && exists i :: mid <= i && StartsTurn(h, i) && forall k :: i < k ==> !StartsTurn(h, k)
  {
    var mid := starts[|starts| / 2];
    assert StartsTurn(h, starts[0]) && StartsTurn(h, mid) && starts[0] < mid;
    var last := starts[|starts| - 1];
    assert StartsTurn(h, last) && mid <= last;
    assert forall k :: last < k ==> !StartsTurn(h, k);
  }

  lemma CompressionUnique(h: seq<Message>, keep: Keep, keep': Keep)
    requires Compression(h, keep) && Compression(h, keep')
    ensures keep == keep'
  {
    if |h| > 2 {
      var mid :| CompressionCut(h, mid) && KeepsAfterCut(h, mid, keep);
      var mid' :| CompressionCut(h, mid') && KeepsAfterCut(h, mid', keep');
      CutUnique(h, mid, mid');
      if keep.Only? && keep'.Only? && keep.index < keep'.index {
        assert false;
      }
    }
  }

  lemma CutUnique(h: seq<Message>, mid: int, mid': int)
    requires CompressionCut(h, mid) && CompressionCut(h, mid')
    ensures mid == mid'
  {
    var a :| TurnStarts(h, a) && if |a| >= 2 then mid == a[|a| / 2] else NearestBoundary(h, |h| / 2, mid);
    var b :| TurnStarts(h, b) && if |b| >= 2 then mid' == b[|b| / 2] else NearestBoundary(h, |h| / 2, mid');
    TurnStartsUnique(h, a, b);
    if |a| < 2 {
      NearestBoundaryUnique(h, |h| / 2, mid, mid');
    }
  }

  lemma KeepInRange(h: seq<Message>, keep: Keep)
    requires Compression(h, keep)
    ensures keep.Suffix? ==> 0 < keep.from < |h|
    ensures keep.Only? ==> keep.index == 0 && |h| > 2 && h[0].role.User? && forall i :: 0 < i < |h| ==> !StartsTurn(h, i)
  {
    if |h| > 2 {
      var mid :| CompressionCut(h, mid) && KeepsAfterCut(h, mid, keep);
      CutFacts(h, mid);
      if keep.Only? && keep.index > 0 {
        assert StartsTurn(h, keep.index);
      }
    }
  }

  /** On more than two messages compression strictly shortens the history; on at most two it does nothing. */
  lemma CompressionShrinks(h: seq<Message>, keep: Keep)
    requires Compression(h, keep)
    ensures keep.Suffix? ==> keep.from <= |h|
    ensures keep.Only? ==> keep.index < |h|
    ensures |Apply(keep, h)| < |h| <==> |h| > 2
  {
    KeepInRange(h, keep);
  }

  /** Compression of a valid history is valid, so the sanitizer would change nothing in what is kept. */
  lemma CompressionKeepsValid(h: seq<Message>, keep: Keep)
    requires ProviderValid(h) && Compression(h, keep)
    ensures keep.Suffix? ==> keep.from <= |h|
    ensures keep.Only? ==> keep.index < |h|
    ensures ProviderValid(Apply(keep, h)) && Sanitize(Apply(keep, h)) == Apply(keep, h)
  {
    KeepInRange(h, keep);
    var kept := Apply(keep, h);
    if keep.Suffix? {
      var mid :| CompressionCut(h, mid) && KeepsAfterCut(h, mid, keep);
      CutFacts(h, mid);
      if forall i :: !StartsTurn(h, i) {
        NoUserNoTools(h, |h|);
      }
      SuffixValidIff(h, mid);
    } else if keep.Only? {
      assert kept[..0] == [];
    }
    FixedPointIffValid(kept);
  }

  /** The newest user message always survives, unless the whole history is one turn whose user message has a
      spelling that only the turn-boundary code recognises: exactly then everything is dropped. */
  lemma CompressionKeepsNewestUser(h: seq<Message>, keep: Keep, u: int)
    requires Compression(h, keep) && StartsTurn(h, u) && forall k :: u < k ==> !StartsTurn(h, k)
    ensures keep.Suffix? ==> keep.from <= u
    ensures keep.Only? ==> keep.index == u
    ensures keep == Nothing <==> |h| > 2 && u == 0 && h[0].role.LooseUser?
  {
    KeepInRange(h, keep);
    if |h| > 2 {
      var mid :| CompressionCut(h, mid) && KeepsAfterCut(h, mid, keep);
      CutFacts(h, mid);
      if mid > 0 {
        var i :| mid <= i && StartsTurn(h, i) && forall k :: i < k ==> !StartsTurn(h, k);
        assert i == u;
      } else {
        assert u == 0;
        assert forall k :: 0 < k < |h| ==> !StartsTurn(h, k);
        if keep.Nothing? {
          assert !h[0].role.User?;
        }
      }
    }
  }

  /** It does happen: three messages, the first with the user role in another spelling, are compressed to nothing. */
  lemma CompressionEmpties(u: Message, a: Message, b: Message)
    requires u.role.LooseUser? && !IsUserRole(a.role) && !IsUserRole(b.role)
    ensures Compression([u, a, b], Nothing) && Apply(Nothing, [u, a, b]) == []
  {
    var h := [u, a, b];
    assert StartsTurn(h, 0) && TurnStarts(h, [0]) && NearestBoundary(h, 1, 0);
    assert CompressionCut(h, 0) && KeepsAfterCut(h, 0, Nothing);
  }

  // ----- session store and the compressing methods -----------------------------------------

  class Session {
    var history: seq<Message>
    var summary: string

    constructor (history: seq<Message>, summary: string)
      ensures this.history == history && this.summary == summary
    {
      this.history := history;
      this.summary := summary;
    }
  }

  function Digit(d: nat): char
    requires d < 10
  {
    "0123456789"[d]
  }

  function Decimal(n: nat): string {
    if n < 10 then [Digit(n)] else Decimal(n / 10) + [Digit(n % 10)]
  }

  function CompressionNote(summary: string, dropped: nat): string {
    var note := "[Emergency compression dropped " + Decimal(dropped) + " oldest messages due to context limit]";
    if summary != "" then summary + "\n\n" + note else note
  }

  /** The number a row of decimal digits stands for. */
  function DigitsValue(s: string): int {
    if s == "" then 0 else 10 * DigitsValue(s[..|s| - 1]) + (s[|s| - 1] as int - '0' as int)
  }

  lemma {:induction false} DecimalReads(n: nat)
    ensures DigitsValue(Decimal(n)) == n && Decimal(n) != "" && forall c :: c in Decimal(n) ==> '0' <= c <= '9'
  {
    assert forall d: nat :: d < 10 ==> Digit(d) as int == '0' as int + d;
    if n >= 10 {
      DecimalReads(n / 10);
      assert Decimal(n)[..|Decimal(n)| - 1] == Decimal(n / 10);
    } else {
      assert Decimal(n)[..0] == "";
    }
  }

  /** The note behind the summary there was, which stays in full: it names the number of messages dropped. */
  ghost predicate Noted(before: string, after: string, dropped: nat) {
    exists digits :: DigitsValue(digits) == dropped && digits != "" && (forall c :: c in digits ==> '0' <= c <= '9')
      && after == (if before == "" then "" else before + "\n\n") + "[Emergency compression dropped " + digits
                  + " oldest messages due to context limit]"
  }

  lemma CompressionNoted(before: string, dropped: nat)
    ensures Noted(before, CompressionNote(before, dropped), dropped)
    ensures before < CompressionNote(before, dropped)
  {
    DecimalReads(dropped);
    var note := "[Emergency compression dropped " + Decimal(dropped) + " oldest messages due to context limit]";
    assert CompressionNote(before, dropped) == (if before == "" then "" else before + "\n\n") + note;
    assert (if before == "" then "" else before + "\n\n") + note ==
           (if before == "" then "" else before + "\n\n") + "[Emergency compression dropped " + Decimal(dropped)
           + " oldest messages due to context limit]";
  }

  datatype CompressionResult = CompressionResult(dropped: nat, remaining: nat)

  method ForceCompression(session: Session) returns (result: CompressionResult, ok: bool, ghost keep: Keep)
    modifies session
    ensures Compression(old(session.history), keep)
    ensures keep.Suffix? ==> keep.from <= |old(session.history)|
    ensures keep.Only? ==> keep.index < |old(session.history)|
    ensures session.history == Apply(keep, old(session.history))
    ensures ok <==> |old(session.history)| > 2
    ensures ok ==> result.remaining == |session.history|
    ensures ok ==> result.dropped + result.remaining == |old(session.history)|
    ensures ok ==> Noted(old(session.summary), session.summary, result.dropped) && old(session.summary) < session.summary
    ensures !ok ==> session.summary == old(session.summary)
  {
    var history := session.history;
    if |history| <= 2 {
      keep := All;
      return CompressionResult(0, 0), false, keep;
    }
    var keptHistory := KeptHistory(history);
    keep :| Compression(history, keep) && Fits(keep, history) && keptHistory == Apply(keep, history);
    CompressionShrinks(history, keep);
    var droppedCount := |history| - |keptHistory|;
    CompressionNoted(session.summary, droppedCount);
    session.summary := CompressionNote(session.summary, droppedCount);
    session.history := keptHistory;
    return CompressionResult(droppedCount, |keptHistory|), true, keep;
  }

  /** What is kept is what the decision names; `CompressionUnique` says that this fixes it. */
  ghost predicate CompressedTo(h: seq<Message>, kept: seq<Message>) {
    exists keep :: Compression(h, keep) && Fits(keep, h) && kept == Apply(keep, h)
  }

  method KeptHistory(history: seq<Message>) returns (keptHistory: seq<Message>)
    requires |history| > 2
    ensures CompressedTo(history, keptHistory)
  {
    hide CompressionCut, CompressedTo, NearestBoundary, TurnStarts;
    var turns := ParseTurnBoundaries(history);
    var mid: int;
    if |turns| >= 2 {
      TurnsInRange(history, turns);
      mid := turns[|turns| / 2];
    } else {
      mid := FindSafeBoundary(history, |history| / 2);
    }
    CutFound(history, turns, mid);
    CutFacts(history, mid);
    if mid > 0 {
      SuffixKept(history, mid);
      return history[mid..];
    }
    keptHistory := NewestUserOnly(history);
    UserKept(history, mid, keptHistory);
  }

  lemma TurnsInRange(h: seq<Message>, starts: seq<int>)
    requires TurnStarts(h, starts)
    ensures forall i :: 0 <= i < |starts| ==> 0 <= starts[i] < |h|
  {
    forall i | 0 <= i < |starts|
      ensures 0 <= starts[i] < |h|
    {
      assert starts[i] in starts;
    }
  }

  lemma CutFound(h: seq<Message>, starts: seq<int>, mid: int)
    requires TurnStarts(h, starts)
    requires if |starts| >= 2 then mid == starts[|starts| / 2] else NearestBoundary(h, |h| / 2, mid)
    ensures CompressionCut(h, mid)
  {
  }

  lemma SuffixKept(h: seq<Message>, mid: int)
    requires |h| > 2 && CompressionCut(h, mid) && 0 < mid < |h|
    ensures CompressedTo(h, h[mid..])
  {
    hide CompressionCut;
    assert KeepsAfterCut(h, mid, Suffix(mid));
    assert Compression(h, Suffix(mid)) && Fits(Suffix(mid), h);
  }

  lemma UserKept(h: seq<Message>, mid: int, kept: seq<Message>)
    requires |h| > 2 && CompressionCut(h, mid) && mid <= 0
    requires kept == [] <==> forall k :: 0 <= k < |h| ==> !h[k].role.User?
    requires kept != [] ==>
               exists i :: 0 <= i < |h| && h[i].role.User? && kept == [h[i]] && forall k :: i < k < |h| ==> !h[k].role.User?
    ensures CompressedTo(h, kept)
  {
    hide CompressionCut;
    var keep := Nothing;
    if kept != [] {
      var i :| 0 <= i < |h| && h[i].role.User? && kept == [h[i]] && forall k :: i < k < |h| ==> !h[k].role.User?;
      keep := Only(i);
    }
    assert KeepsAfterCut(h, mid, keep);
    assert Compression(h, keep) && Fits(keep, h);
  }

  method NewestUserOnly(history: seq<Message>) returns (keptHistory: seq<Message>)
    ensures keptHistory == [] <==> forall k :: 0 <= k < |history| ==> !history[k].role.User?
    ensures keptHistory != [] ==>
              exists i :: 0 <= i < |history| && history[i].role.User? && keptHistory == [history[i]]
                && forall k :: i < k < |history| ==> !history[k].role.User?
  {
    var i := |history| - 1;
    while i >= 0
      invariant -1 <= i < |history|
      invariant forall k :: i < k < |history| ==> !history[k].role.User?
    {
      if history[i].role.User? {
        return [history[i]];
      }
      i := i - 1;
    }
    return [];
  }

  /** The summary cut: how many of the newest messages stay, or none if nothing is cut. */
  method SummaryCut(history: seq<Message>) returns (keepCount: nat)
    ensures keepCount <= |history|
    ensures ProviderValid(history) ==> ProviderValid(history[|history| - keepCount..])
    ensures |history| <= 4 ==> keepCount == |history|
    ensures |history| > 4 ==> NearestBoundary(history, |history| - 4, |history| - keepCount)
    ensures keepCount < |history| ==> keepCount > 0
    ensures keepCount < |history| && (exists i :: StartsTurn(history, i)) ==> StartsTurn(history, |history| - keepCount)
  {
    if |history| <= 4 {
      assert history[0..] == history;
      return |history|;
    }
    var safeCut := FindSafeBoundary(history, |history| - 4);
    if ProviderValid(history) {
      BoundaryCutValid(history, |history| - 4, safeCut);
    }
    if safeCut <= 0 {
      assert history[0..] == history;
      return |history|;
    }
    keepCount := |history| - safeCut;
  }

  /** The summary is written later, after a model call, by truncating the session to `keepCount` newest
      messages.  If `extra` messages arrived meanwhile the cut moves by |extra|, and the truncated session is
      valid exactly when it happens to start at a plain message. */
  lemma LateTruncation(h: seq<Message>, extra: seq<Message>, keepCount: nat)
    requires ProviderValid(h + extra) && 0 < keepCount <= |h|
    ensures ProviderValid((h + extra)[|h + extra| - keepCount..]) <==> Plain((h + extra)[|h + extra| - keepCount])
  {
    SuffixValidIff(h + extra, |h + extra| - keepCount);
  }
}
