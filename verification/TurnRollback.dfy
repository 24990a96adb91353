/** The restore point of a turn: recorded appends, compaction followed by a refresh, and the rollback of a
    hard abort. */
module TurnRollback {
  import opened Messages
  import opened ContextBudget

  // ----- tail matching ---------------------------------------------------------------------

  predicate TailsAgree(history: seq<Message>, persisted: seq<Message>, size: int) {
    0 <= size <= |history| && size <= |persisted| &&
    history[|history| - size..] == persisted[|persisted| - size..]
  }

  function LongestTail(history: seq<Message>, persisted: seq<Message>, size: nat): (r: nat)
    requires size <= |history| && size <= |persisted|
    ensures r <= size && TailsAgree(history, persisted, r)
    ensures forall k :: r < k <= size ==> !TailsAgree(history, persisted, k)
  {
    if size == 0 || TailsAgree(history, persisted, size) then size
    else LongestTail(history, persisted, size - 1)
  }

  function MatchedTail(history: seq<Message>, persisted: seq<Message>): nat {
    LongestTail(history, persisted, if |history| < |persisted| then |history| else |persisted|)
  }

  method MatchingTurnMessageTail(history: seq<Message>, persisted: seq<Message>) returns (size: nat)
    ensures size == MatchedTail(history, persisted)
  {
    size := if |history| < |persisted| then |history| else |persisted|;
    while size > 0
      invariant size <= |history| && size <= |persisted|
      invariant MatchedTail(history, persisted) == LongestTail(history, persisted, size)
    {
      if history[|history| - size..] == persisted[|persisted| - size..] {
        return size;
      }
      size := size - 1;
    }
  }

  function RefreshPoint(history: seq<Message>, persisted: seq<Message>): seq<Message> {
    history[..|history| - MatchedTail(history, persisted)]
  }

  // ----- the turn's fields and methods -----------------------------------------------------

  class TurnState {
    var restorePointHistory: seq<Message>
    var restorePointSummary: string
    var persistedMessages: seq<Message>

    constructor (session: Session)
      ensures restorePointHistory == session.history && restorePointSummary == session.summary
      ensures persistedMessages == []
    {
      restorePointHistory := session.history;
      restorePointSummary := session.summary;
      persistedMessages := [];
    }

    method CaptureRestorePoint(history: seq<Message>, summary: string)
      modifies this
      ensures restorePointHistory == history && restorePointSummary == summary
      ensures persistedMessages == old(persistedMessages)
    {
      restorePointHistory := history;
      restorePointSummary := summary;
    }

    /** The append call sites: the message goes to the session and into the turn's record. */
    method AppendRecorded(session: Session, msg: Message)
      modifies this, session
      ensures session.history == old(session.history) + [msg] && session.summary == old(session.summary)
      ensures persistedMessages == old(persistedMessages) + [msg]
      ensures restorePointHistory == old(restorePointHistory) && restorePointSummary == old(restorePointSummary)
    {
      session.history := session.history + [msg];
      persistedMessages := persistedMessages + [msg];
    }

    method RefreshRestorePointFromSession(session: Session)
      modifies this
      ensures restorePointHistory == RefreshPoint(session.history, persistedMessages)
      ensures restorePointSummary == session.summary
      ensures persistedMessages == old(persistedMessages)
    {
      var history := session.history;
      var matched := MatchingTurnMessageTail(history, persistedMessages);
      if matched > 0 {
        history := history[..|history| - matched];
      }
      CaptureRestorePoint(history, session.summary);
    }

    method RestoreSession(session: Session)
      modifies session
      ensures session.history == restorePointHistory && session.summary == restorePointSummary
    {
      session.history := restorePointHistory;
      session.summary := restorePointSummary;
    }
  }

  /** Proactive and retry compaction as the turn loop performs it. */
  method CompactAndRefresh(ts: TurnState, session: Session) returns (ghost keep: Keep)
    modifies ts, session
    ensures Compression(old(session.history), keep)
    ensures keep.Suffix? ==> keep.from <= |old(session.history)|
    ensures keep.Only? ==> keep.index < |old(session.history)|
    ensures session.history == Apply(keep, old(session.history))
    ensures ts.restorePointHistory == RefreshPoint(session.history, ts.persistedMessages)
    ensures ts.restorePointSummary == session.summary
    ensures ts.persistedMessages == old(ts.persistedMessages)
  {
    var _, _, k := ForceCompression(session);
    keep := k;
    ts.RefreshRestorePointFromSession(session);
  }

  // ----- whole runs ------------------------------------------------------------------------

  /** A session message together with where it came from. */
  datatype Entry = Entry(msg: Message, ofTurn: bool)

  datatype Run = Run(entries: seq<Entry>, restore: seq<Message>, persisted: seq<Message>)

  /** Append records the message. `Cut` is any compaction that keeps a suffix, `Compress` the emergency compression; both
      are followed by a refresh. `Truncate` is the cut of a background summary, which no refresh follows. */
  datatype Op =
    | Append(msg: Message) | AppendUnrecorded(m: Message)
    | Cut(drop: nat) | Compress(keep: Keep) | Truncate(n: nat)

  function Msgs(entries: seq<Entry>): (m: seq<Message>)
    ensures |m| == |entries| && forall i :: 0 <= i < |m| ==> m[i] == entries[i].msg
  {
    seq(|entries|, i requires 0 <= i < |entries| => entries[i].msg)
  }

  /** The messages of the pre-turn history that are still in the session, in order. */
  function Surviving(entries: seq<Entry>): seq<Message> {
    if entries == [] then []
    else (if entries[0].ofTurn then [] else [entries[0].msg]) + Surviving(entries[1..])
  }

  function Refreshed(run: Run, entries: seq<Entry>): Run {
    Run(entries, RefreshPoint(Msgs(entries), run.persisted), run.persisted)
  }

  ghost predicate Enabled(run: Run, op: Op) {
    match op
    case Append(_) => true
    case AppendUnrecorded(_) => true
    case Cut(drop) => drop <= |run.entries|
    case Compress(keep) => Compression(Msgs(run.entries), keep)
    case Truncate(n) => n <= |run.entries|
  }

  ghost function Step(run: Run, op: Op): Run
    requires Enabled(run, op)
  {
    match op
    case Append(m) => Run(run.entries + [Entry(m, true)], run.restore, run.persisted + [m])
    case AppendUnrecorded(m) => Run(run.entries + [Entry(m, true)], run.restore, run.persisted)
    case Cut(drop) => Refreshed(run, run.entries[drop..])
    case Compress(keep) =>
      KeepInRange(Msgs(run.entries), keep);
      Refreshed(run, Apply(keep, run.entries))
    case Truncate(n) => Run(run.entries[n..], run.restore, run.persisted)
  }

  function Begin(history: seq<Message>): Run {
    Run(seq(|history|, i requires 0 <= i < |history| => Entry(history[i], false)), history, [])
  }

  /** The guard of the one compaction branch that does not keep a suffix, met when nothing of the pre-turn
      history is left: the session is a single turn, of this turn's own messages. */
  ghost predicate KeepsOwnUser(run: Run, op: Op) {
    op.Compress? && op.keep.Only? && Surviving(run.entries) == []
  }

  /** A background summary that ends during the turn and cuts a pre-turn message off. */
  ghost predicate CutsBehind(run: Run, op: Op) {
    op.Truncate? && op.n > 0 && Surviving(run.entries) != []
  }

  ghost predicate Steps(run: Run, ops: seq<Op>, run': Run)
    decreases |ops|
  {
    if ops == [] then run' == run
    else Enabled(run, ops[0]) && Steps(Step(run, ops[0]), ops[1..], run')
  }

  /** Steps along which every append is recorded and nothing meets KeepsOwnUser or CutsBehind. */
  ghost predicate CleanSteps(run: Run, ops: seq<Op>, run': Run)
    decreases |ops|
  {
    if ops == [] then run' == run
    else
      && Enabled(run, ops[0]) && !ops[0].AppendUnrecorded? && !KeepsOwnUser(run, ops[0]) && !CutsBehind(run, ops[0])
      && CleanSteps(Step(run, ops[0]), ops[1..], run')
  }

  // ----- invariant -------------------------------------------------------------------------

  /** Pre-turn entries first (n of them), then the turn's own, which are the newest recorded messages.
      While a pre-turn message is left, either the whole record is live, or a single pre-turn message is
      left and the record cannot be mistaken for it. */
  ghost predicate Split(run: Run, n: nat) {
    && n <= |run.entries|
    && (forall i :: 0 <= i < n ==> !run.entries[i].ofTurn)
    && (forall i :: n <= i < |run.entries| ==> run.entries[i].ofTurn)
    && var live := |run.entries| - n;
       && live <= |run.persisted|
       && (forall i :: n <= i < |run.entries| ==> run.entries[i].msg == run.persisted[|run.persisted| - |run.entries| + i])
       && (n > 0 && live < |run.persisted| ==>
             n == 1 && run.persisted[|run.persisted| - live - 1] != run.entries[0].msg)
  }

  ghost predicate Good(run: Run) {
    run.restore == Surviving(run.entries) && exists n :: Split(run, n)
  }

  lemma {:induction false} SurvivingIs(entries: seq<Entry>, n: nat)
    requires n <= |entries|
    requires forall i :: 0 <= i < n ==> !entries[i].ofTurn
    requires forall i :: n <= i < |entries| ==> entries[i].ofTurn
    ensures Surviving(entries) == Msgs(entries)[..n]
    decreases |entries|
  {
    if entries != [] {
      if n == 0 {
        SurvivingIs(entries[1..], 0);
      } else {
        SurvivingIs(entries[1..], n - 1);
        assert Msgs(entries)[..n] == [entries[0].msg] + Msgs(entries[1..])[..n - 1];
      }
    }
  }

  /** Tail matching finds exactly the live part of the turn. */
  lemma SplitMatches(run: Run, n: nat)
    requires Split(run, n)
    ensures RefreshPoint(Msgs(run.entries), run.persisted) == Surviving(run.entries)
  {
    var h, p := Msgs(run.entries), run.persisted;
    var live := |h| - n;
    SurvivingIs(run.entries, n);
    assert TailsAgree(h, p, live);
    forall k | live < k <= |h| && k <= |p|
      ensures !TailsAgree(h, p, k)
    {
      assert h[|h| - k..][n - (|h| - k) - 1] == h[n - 1];
      assert p[|p| - k..][k - live - 1] == p[|p| - live - 1];
    }
  }

  lemma BeginGood(history: seq<Message>)
    ensures Good(Begin(history)) && Msgs(Begin(history).entries) == history
  {
    var run := Begin(history);
    SurvivingIs(run.entries, |history|);
    assert Split(run, |history|);
  }

  lemma AppendGood(run: Run, m: Message)
    requires Good(run)
    ensures Good(Step(run, Append(m)))
  {
    hide Surviving, Split;
    var n: nat :| Split(run, n);
    SurvivingAppend(run.entries, Entry(m, true));
    AppendSplit(run, n, m);
  }

  lemma AppendSplit(run: Run, n: nat, m: Message)
    requires Split(run, n)
    ensures Split(Step(run, Append(m)), n)
  {
  }

  lemma CutGood(run: Run, drop: nat)
    requires Good(run) && drop <= |run.entries|
    ensures Good(Step(run, Cut(drop)))
  {
    var n: nat :| Split(run, n);
    var run' := Step(run, Cut(drop));
    CutSplit(run, n, drop);
    SplitMatches(run', CutPoint(n, drop));
  }

  function CutPoint(n: nat, drop: nat): nat {
    if drop <= n then n - drop else 0
  }

  lemma CutSplit(run: Run, n: nat, drop: nat)
    requires Split(run, n) && drop <= |run.entries|
    ensures Split(Refreshed(run, run.entries[drop..]), CutPoint(n, drop))
  {
    hide RefreshPoint, Surviving;
    var entries := run.entries[drop..];
    assert forall i :: 0 <= i < |entries| ==> entries[i] == run.entries[drop + i];
  }

  lemma TruncateGood(run: Run, drop: nat)
    requires Good(run) && drop <= |run.entries| && !CutsBehind(run, Truncate(drop))
    ensures Good(Step(run, Truncate(drop)))
  {
    hide Surviving, Split, RefreshPoint;
    var n: nat :| Split(run, n);
    CutSplit(run, n, drop);
    CutSurvivors(run, drop);
    SplitIgnoresRestore(Refreshed(run, run.entries[drop..]), run.restore, CutPoint(n, drop));
  }

  lemma SplitIgnoresRestore(run: Run, restore: seq<Message>, n: nat)
    requires Split(run, n)
    ensures Split(run.(restore := restore), n)
  {
  }

  /** The branch that keeps one user message: the session was a single turn, so its newest message is another. */
  lemma OnlyFacts(h: seq<Message>, keep: Keep)
    requires keep.Only? && Compression(h, keep)
    ensures keep.index == 0 && |h| > 2 && h[0] != h[|h| - 1]
  {
    KeepInRange(h, keep);
    assert !StartsTurn(h, |h| - 1) && StartsTurn(h, 0);
  }

  lemma OnlySplit(run: Run, n: nat)
    requires Split(run, n) && n > 0 && |run.entries| > 2
    requires run.entries[0].msg != run.entries[|run.entries| - 1].msg
    ensures Split(Refreshed(run, [run.entries[0]]), 1)
  {
  }

  lemma CompressOnly(run: Run, keep: Keep)
    requires keep.Only? && Compression(Msgs(run.entries), keep)
    ensures |run.entries| > 2 && run.entries[0].msg != run.entries[|run.entries| - 1].msg
    ensures Step(run, Compress(keep)) == Refreshed(run, [run.entries[0]])
  {
    hide Compression, RefreshPoint, Surviving;
    OnlyFacts(Msgs(run.entries), keep);
    KeepInRange(Msgs(run.entries), keep);
    assert Apply(keep, run.entries) == [run.entries[0]];
  }

  lemma OnlyGood(run: Run, keep: Keep)
    requires Good(run) && keep.Only? && Compression(Msgs(run.entries), keep)
    requires Surviving(run.entries) != []
    ensures Good(Step(run, Compress(keep)))
  {
    CompressOnly(run, keep);
    OnlyKept(run);
  }

  lemma OnlyKept(run: Run)
    requires Good(run) && Surviving(run.entries) != [] && |run.entries| > 2
    requires run.entries[0].msg != run.entries[|run.entries| - 1].msg
    ensures Good(Refreshed(run, [run.entries[0]]))
  {
    var n: nat :| Split(run, n);
    SurvivingIs(run.entries, n);
    OnlySplit(run, n);
    SplitMatches(Refreshed(run, [run.entries[0]]), 1);
  }

  lemma NothingGood(run: Run)
    requires Good(run)
    ensures Good(Refreshed(run, []))
  {
    assert Split(Refreshed(run, []), 0);
  }

  // ----- main theorems ---------------------------------------------------------------------

  /** One step, exactly: with recorded appends the restore point stays the surviving pre-turn history if and only if the
      step is neither the compression that keeps the turn's own user message nor a background summary that cuts a
      pre-turn message off. */
  lemma RecordedStepExact(run: Run, op: Op)
    requires Good(run) && Enabled(run, op) && !op.AppendUnrecorded?
    ensures !KeepsOwnUser(run, op) && !CutsBehind(run, op) ==> Good(Step(run, op))
    ensures KeepsOwnUser(run, op) ==>
              && Surviving(Step(run, op).entries) == []
              && |run.entries| > 0 && run.entries[0].ofTurn && Step(run, op).restore == [run.entries[0].msg]
    ensures Step(run, op).restore == Surviving(Step(run, op).entries) <==> !KeepsOwnUser(run, op) && !CutsBehind(run, op)
  {
    hide Compression, Surviving, Split;
    match op
    case Append(m) => AppendGood(run, m);
    case Cut(drop) => CutGood(run, drop);
    case Truncate(drop) =>
      CutSurvivors(run, drop);
      if !CutsBehind(run, op) {
        TruncateGood(run, drop);
      }
    case Compress(keep) =>
      KeepInRange(Msgs(run.entries), keep);
      match keep {
        case All => CutGood(run, 0); assert run.entries[0..] == run.entries;
        case Suffix(k) => CutGood(run, k);
        case Nothing => NothingGood(run);
        case Only(_) =>
          if Surviving(run.entries) == [] {
            OwnUserLeaks(run, keep);
          } else {
            OnlyGood(run, keep);
          }
      }
  }

  lemma OwnUserLeaks(run: Run, keep: Keep)
    requires Good(run) && keep.Only? && Compression(Msgs(run.entries), keep)
    requires Surviving(run.entries) == []
    ensures |run.entries| > 0 && run.entries[0].ofTurn
    ensures Step(run, Compress(keep)).restore == [run.entries[0].msg]
    ensures Surviving(Step(run, Compress(keep)).entries) == []
  {
    CompressOnly(run, keep);
    OwnUserKept(run);
  }

  lemma OwnUserKept(run: Run)
    requires Good(run) && Surviving(run.entries) == [] && |run.entries| > 2
    requires run.entries[0].msg != run.entries[|run.entries| - 1].msg
    ensures run.entries[0].ofTurn
    ensures Refreshed(run, [run.entries[0]]).restore == [run.entries[0].msg]
    ensures Surviving([run.entries[0]]) == []
  {
    hide RefreshPoint, Split;
    NothingSurvives(run);
    SurvivingIs([run.entries[0]], 0);
    var u := run.entries[0].msg;
    assert Msgs([run.entries[0]]) == [u];
    NoMatch(u, run.persisted);
  }

  lemma NothingSurvives(run: Run)
    requires Good(run) && Surviving(run.entries) == [] && run.entries != []
    ensures run.entries[0].ofTurn && run.persisted != []
    ensures run.entries[|run.entries| - 1].msg == run.persisted[|run.persisted| - 1]
  {
    hide RefreshPoint, Surviving;
    var n: nat :| Split(run, n);
    SurvivingIs(run.entries, n);
    assert |Msgs(run.entries)[..n]| == n;
  }

  lemma NoMatch(u: Message, persisted: seq<Message>)
    requires persisted != [] && u != persisted[|persisted| - 1]
    ensures RefreshPoint([u], persisted) == [u]
  {
    assert [u][0..] == [u] && [u][..1] == [u] && persisted[|persisted| - 1..][0] == persisted[|persisted| - 1];
    assert !TailsAgree([u], persisted, 1);
  }

  lemma {:induction false} CleanStepsGood(run: Run, ops: seq<Op>, run': Run)
    requires Good(run) && CleanSteps(run, ops, run')
    ensures Good(run')
    decreases |ops|
  {
    if ops != [] {
      RecordedStepExact(run, ops[0]);
      CleanStepsGood(Step(run, ops[0]), ops[1..], run');
    }
  }

  /** Over whole runs: after any interleaving of recorded appends and compact-and-refresh steps, a hard abort
      leaves exactly the surviving pre-turn messages, and these are in order a part of the history the turn
      began with. */
  lemma AbortRestoresSurvivors(history: seq<Message>, ops: seq<Op>, run': Run)
    requires CleanSteps(Begin(history), ops, run')
    ensures run'.restore == Surviving(run'.entries)
    ensures Subsequence(run'.restore, history)
  {
    BeginGood(history);
    CleanStepsGood(Begin(history), ops, run');
    SurvivingIs(Begin(history).entries, |history|);
    assert Msgs(Begin(history).entries)[..|history|] == history;
    SubsequenceRefl(history);
    SurvivorsOnlyShrink(Begin(history), ops, run');
  }

  lemma {:induction false} SurvivorsOnlyShrink(run: Run, ops: seq<Op>, run': Run)
    requires CleanSteps(run, ops, run')
    ensures Subsequence(Surviving(run'.entries), Surviving(run.entries))
    decreases |ops|
  {
    if ops == [] {
      SubsequenceRefl(Surviving(run.entries));
    } else {
      var next := Step(run, ops[0]);
      SurvivorsOnlyShrink(next, ops[1..], run');
      match ops[0] {
        case Append(m) => SurvivingAppend(run.entries, Entry(m, true)); SubsequenceRefl(Surviving(run.entries));
        case Cut(drop) => SurvivingSuffix(run.entries, drop);
        case Truncate(drop) => SurvivingSuffix(run.entries, drop);
        case Compress(keep) =>
          KeepInRange(Msgs(run.entries), keep);
          match keep {
            case All => SubsequenceRefl(Surviving(run.entries));
            case Suffix(k) => SurvivingSuffix(run.entries, k);
            case Nothing =>
            case Only(_) => SurvivingFirst(run.entries);
          }
      }
      SubsequenceTrans(Surviving(run'.entries), Surviving(next.entries), Surviving(run.entries));
    }
  }

  lemma {:induction false} SurvivingAppend(entries: seq<Entry>, e: Entry)
    requires e.ofTurn
    ensures Surviving(entries + [e]) == Surviving(entries)
  {
    if entries != [] {
      assert (entries + [e])[1..] == entries[1..] + [e];
      SurvivingAppend(entries[1..], e);
    } else {
      assert entries + [e] == [e];
    }
  }

  lemma {:induction false} SurvivingSuffix(entries: seq<Entry>, k: nat)
    requires k <= |entries|
    ensures Subsequence(Surviving(entries[k..]), Surviving(entries))
    decreases k
  {
    if k == 0 {
      assert entries[0..] == entries;
      SubsequenceRefl(Surviving(entries));
    } else {
      assert entries[1..][k - 1..] == entries[k..];
      SurvivingSuffix(entries[1..], k - 1);
      var s := Surviving(entries[1..]);
      assert Surviving(entries) == if entries[0].ofTurn then s else [entries[0].msg] + s;
      assert !entries[0].ofTurn ==> Surviving(entries)[1..] == s;
    }
  }

  lemma SurvivingFirst(entries: seq<Entry>)
    requires entries != []
    ensures Subsequence(Surviving([entries[0]]), Surviving(entries))
  {
    assert [entries[0]][1..] == [];
  }

  /** Nothing that compaction kept is lost: a run that only cuts suffixes restores exactly what was left of the
      pre-turn history without its oldest messages, as many as were cut in all. */
  lemma {:induction false} SuffixRunsRestore(run: Run, ops: seq<Op>, run': Run)
    requires Good(run) && CleanSteps(run, ops, run') && forall op :: op in ops ==> op.Append? || op.Cut?
    ensures run'.restore == DropFirst(Surviving(run.entries), TotalCut(ops))
    decreases |ops|
  {
    hide Step, Surviving, Split, KeepsOwnUser;
    if ops != [] {
      assert ops[0] in ops;
      RecordedStepExact(run, ops[0]);
      SuffixRunsRestore(Step(run, ops[0]), ops[1..], run');
      StepSurvivors(run, ops[0]);
      DropFirstTwice(Surviving(run.entries), CutBy(ops[0]), TotalCut(ops[1..]));
    }
  }

  function CutBy(op: Op): nat {
    if op.Cut? then op.drop else 0
  }

  lemma StepSurvivors(run: Run, op: Op)
    requires Good(run) && Enabled(run, op) && (op.Append? || op.Cut?)
    ensures Surviving(Step(run, op).entries) == DropFirst(Surviving(run.entries), CutBy(op))
  {
    hide Surviving, Split;
    if op.Append? {
      SurvivingAppend(run.entries, Entry(op.msg, true));
    } else {
      CutSurvivors(run, op.drop);
    }
  }

  lemma DropFirstTwice(s: seq<Message>, a: nat, b: nat)
    ensures DropFirst(DropFirst(s, a), b) == DropFirst(s, a + b)
  {
  }

  lemma CutSurvivors(run: Run, drop: nat)
    requires Good(run) && drop <= |run.entries|
    ensures Surviving(run.entries[drop..]) == DropFirst(Surviving(run.entries), drop)
  {
    var n: nat :| Split(run, n);
    SurvivingIs(run.entries, n);
    var cut := run.entries[drop..];
    SurvivingIs(cut, CutPoint(n, drop));
    SliceSwap(Msgs(run.entries), Msgs(cut), n, drop);
  }

  lemma SliceSwap(a: seq<Message>, b: seq<Message>, n: nat, drop: nat)
    requires n <= |a| && drop <= |a| && b == a[drop..]
    ensures b[..CutPoint(n, drop)] == DropFirst(a[..n], drop)
  {
  }

  function DropFirst(history: seq<Message>, n: nat): seq<Message> {
    if n <= |history| then history[n..] else []
  }

  function TotalCut(ops: seq<Op>): nat {
    if ops == [] then 0 else CutBy(ops[0]) + TotalCut(ops[1..])
  }

  // ----- any run, unrecorded appends included ----------------------------------------------

  /** When a refresh recovers the pre-turn messages h0 in front of the turn's live ones: the live ones are the newest
      recorded ones, and if more was recorded than is live, the next older record is not h0's last message. */
  predicate Recoverable(h0: seq<Message>, live: seq<Message>, persisted: seq<Message>) {
    var older := |persisted| - |live|;
    && older >= 0 && live == persisted[older..]
    && (h0 == [] || older == 0 || h0[|h0| - 1] != persisted[older - 1])
  }

  lemma ShorterTail(history: seq<Message>, persisted: seq<Message>, k: nat, l: nat)
    requires TailsAgree(history, persisted, l) && k <= l
    ensures TailsAgree(history, persisted, k)
  {
    assert history[|history| - k..] == history[|history| - l..][l - k..];
    assert persisted[|persisted| - k..] == persisted[|persisted| - l..][l - k..];
  }

  /** The match is `size` exactly if the tails agree there and not one message further. */
  lemma MatchedTailIff(history: seq<Message>, persisted: seq<Message>, size: nat)
    ensures MatchedTail(history, persisted) == size <==>
            TailsAgree(history, persisted, size) && !TailsAgree(history, persisted, size + 1)
  {
    var m := MatchedTail(history, persisted);
    if TailsAgree(history, persisted, size) && m > size {
      ShorterTail(history, persisted, size + 1, m);
    }
  }

  lemma RefreshCut(h0: seq<Message>, live: seq<Message>, persisted: seq<Message>)
    ensures RefreshPoint(h0 + live, persisted) == h0 <==> MatchedTail(h0 + live, persisted) == |live|
  {
    assert (h0 + live)[..|h0|] == h0;
  }

  /** A refresh recovers the pre-turn history exactly if the record is Recoverable: for every session, compaction
      into the turn and unrecorded messages included. */
  lemma RefreshRecoversIff(h0: seq<Message>, live: seq<Message>, persisted: seq<Message>)
    ensures RefreshPoint(h0 + live, persisted) == h0 <==> Recoverable(h0, live, persisted)
  {
    hide MatchedTail, RefreshPoint, TailsAgree;
    RefreshCut(h0, live, persisted);
    MatchedTailIff(h0 + live, persisted, |live|);
    TailAtTurn(h0, live, persisted);
    if TailsAgree(h0 + live, persisted, |live|) {
      TailBeforeTurn(h0, live, persisted);
    }
  }

  lemma TailAtTurn(h0: seq<Message>, live: seq<Message>, persisted: seq<Message>)
    ensures TailsAgree(h0 + live, persisted, |live|) <==>
            |live| <= |persisted| && live == persisted[|persisted| - |live|..]
  {
    assert (h0 + live)[|h0 + live| - |live|..] == live;
  }

  lemma TailBeforeTurn(h0: seq<Message>, live: seq<Message>, persisted: seq<Message>)
    requires |live| <= |persisted| && live == persisted[|persisted| - |live|..]
    ensures TailsAgree(h0 + live, persisted, |live| + 1) <==>
            h0 != [] && |live| < |persisted| && h0[|h0| - 1] == persisted[|persisted| - |live| - 1]
  {
    if h0 != [] && |live| < |persisted| {
      var last, older := h0[|h0| - 1], persisted[|persisted| - |live| - 1];
      assert (h0 + live)[|h0 + live| - (|live| + 1)..] == [last] + live;
      assert persisted[|persisted| - (|live| + 1)..] == [older] + live;
      assert ([last] + live)[0] == last && ([older] + live)[0] == older;
    }
  }

  /** The turn's own messages that are still in the session, in order. */
  function Live(entries: seq<Entry>): seq<Message> {
    if entries == [] then []
    else (if entries[0].ofTurn then [entries[0].msg] else []) + Live(entries[1..])
  }

  /** Pre-turn messages come before the turn's. */
  ghost predicate Ordered(entries: seq<Entry>) {
    forall i, j :: 0 <= i < j < |entries| && entries[i].ofTurn ==> entries[j].ofTurn
  }

  lemma {:induction false} OrderedParts(entries: seq<Entry>)
    requires Ordered(entries)
    ensures Msgs(entries) == Surviving(entries) + Live(entries)
    decreases |entries|
  {
    if entries != [] {
      var rest := entries[1..];
      OrderedParts(rest);
      assert Msgs(entries) == [entries[0].msg] + Msgs(rest);
      if entries[0].ofTurn {
        OnlyLive(rest);
      }
    }
  }

  lemma OnlyLive(entries: seq<Entry>)
    requires forall i :: 0 <= i < |entries| ==> entries[i].ofTurn
    ensures Surviving(entries) == []
  {
    SurvivingIs(entries, 0);
  }

  predicate Compacts(op: Op) {
    op.Cut? || op.Compress?
  }

  ghost predicate RecoverableRun(run: Run) {
    Recoverable(Surviving(run.entries), Live(run.entries), run.persisted)
  }

  lemma RefreshedExact(run: Run, entries: seq<Entry>)
    requires Ordered(entries)
    ensures Refreshed(run, entries).restore == Surviving(entries) <==> RecoverableRun(Refreshed(run, entries))
  {
    OrderedParts(entries);
    RefreshRecoversIff(Surviving(entries), Live(entries), run.persisted);
  }

  /** A suffix of ordered entries has lost the oldest pre-turn messages. */
  lemma {:induction false} TruncatedSurvivors(entries: seq<Entry>, n: nat)
    requires Ordered(entries) && n <= |entries|
    ensures Ordered(entries[n..]) && Surviving(entries[n..]) == DropFirst(Surviving(entries), n)
    decreases n
  {
    if n == 0 {
      assert entries[0..] == entries;
    } else {
      assert entries[1..][n - 1..] == entries[n..];
      TruncatedSurvivors(entries[1..], n - 1);
      if entries[0].ofTurn {
        OnlyLive(entries[1..]);
      }
    }
  }

  /** One step of any kind, exactly: an append, recorded or not, leaves the restore point as right or as wrong as it
      was; after a compaction it is the surviving pre-turn history if and only if the record is Recoverable; and a right
      one survives a background summary if and only if that cuts no pre-turn message. */
  lemma StepExact(run: Run, op: Op)
    requires Ordered(run.entries) && Enabled(run, op)
    ensures Ordered(Step(run, op).entries)
    ensures Compacts(op) ==> (Step(run, op).restore == Surviving(Step(run, op).entries) <==> RecoverableRun(Step(run, op)))
    ensures !Compacts(op) && !op.Truncate? ==>
              (Step(run, op).restore == Surviving(Step(run, op).entries) <==> run.restore == Surviving(run.entries))
    ensures op.Truncate? && run.restore == Surviving(run.entries) ==>
              (Step(run, op).restore == Surviving(Step(run, op).entries) <==> !CutsBehind(run, op))
  {
    hide Surviving, Live, Compression, RefreshPoint;
    match op
    case Append(m) => SurvivingAppend(run.entries, Entry(m, true));
    case AppendUnrecorded(m) => SurvivingAppend(run.entries, Entry(m, true));
    case Cut(drop) => RefreshedExact(run, run.entries[drop..]);
    case Truncate(n) => TruncatedSurvivors(run.entries, n);
    case Compress(keep) =>
      KeepInRange(Msgs(run.entries), keep);
      RefreshedExact(run, Apply(keep, run.entries));
  }

  /** How many messages too many a refresh takes for the turn's own; negative if it takes too few. */
  function Overshoot(run: Run): int {
    MatchedTail(Msgs(run.entries), run.persisted) - |Live(run.entries)|
  }

  lemma OvershootIff(run: Run)
    requires Ordered(run.entries)
    ensures Overshoot(run) == 0 <==> RecoverableRun(run)
  {
    OrderedParts(run.entries);
    RefreshCut(Surviving(run.entries), Live(run.entries), run.persisted);
    RefreshRecoversIff(Surviving(run.entries), Live(run.entries), run.persisted);
  }

  /** Whether an abort at the end of the run leaves exactly the surviving pre-turn messages, told without the restore
      point.  `known` are the pre-turn messages at the last refresh and `over` its overshoot: as many of them must have
      been cut off behind the turn's back since, and shifting them by that number must not show.  With distinct
      messages, and whenever the overshoot is zero, that is: none. */
  ghost predicate AbortRestores(run: Run, ops: seq<Op>, known: seq<Message>, over: int)
    decreases |ops|
  {
    if ops == [] then
      var cut := |known| - |Surviving(run.entries)|;
      0 <= cut && over == cut && known[..|known| - cut] == known[cut..]
    else
      Enabled(run, ops[0]) &&
      var next := Step(run, ops[0]);
      if Compacts(ops[0]) then AbortRestores(next, ops[1..], Surviving(next.entries), Overshoot(next))
      else AbortRestores(next, ops[1..], known, over)
  }

  /** The restore point is what the last refresh left of the messages it knew, and those that survive are the newest. */
  ghost predicate Tracks(run: Run, known: seq<Message>, over: int) {
    && Ordered(run.entries)
    && |run.restore| == |known| - over && (over >= 0 ==> run.restore == known[..|known| - over])
    && var left := |Surviving(run.entries)|;
       left <= |known| && Surviving(run.entries) == known[|known| - left..]
  }

  lemma RefreshTracks(run: Run, entries: seq<Entry>)
    requires Ordered(entries)
    ensures var next := Refreshed(run, entries); Tracks(next, Surviving(entries), Overshoot(next))
  {
    hide Surviving, Live, MatchedTail, Ordered;
    OrderedParts(entries);
    RefreshLeaves(Surviving(entries), Live(entries), run.persisted);
    assert Surviving(entries)[0..] == Surviving(entries);
  }

  lemma RefreshLeaves(h0: seq<Message>, live: seq<Message>, persisted: seq<Message>)
    ensures var point, over := RefreshPoint(h0 + live, persisted), MatchedTail(h0 + live, persisted) - |live|;
            |point| == |h0| - over && (over >= 0 ==> point == h0[..|h0| - over])
  {
    hide MatchedTail;
    MatchedInRange(h0 + live, persisted);
    var over := MatchedTail(h0 + live, persisted) - |live|;
    if over >= 0 {
      assert (h0 + live)[..|h0| - over] == h0[..|h0| - over];
    }
  }

  lemma MatchedInRange(history: seq<Message>, persisted: seq<Message>)
    ensures MatchedTail(history, persisted) <= |history|
  {
  }

  lemma StepTracks(run: Run, op: Op, known: seq<Message>, over: int)
    requires Tracks(run, known, over) && Enabled(run, op)
    ensures var next := Step(run, op);
            if Compacts(op) then Tracks(next, Surviving(next.entries), Overshoot(next)) else Tracks(next, known, over)
  {
    hide Surviving, Live, Compression, RefreshPoint, Overshoot;
    StepExact(run, op);
    match op
    case Append(m) => SurvivingAppend(run.entries, Entry(m, true));
    case AppendUnrecorded(m) => SurvivingAppend(run.entries, Entry(m, true));
    case Cut(drop) => RefreshTracks(run, run.entries[drop..]);
    case Truncate(n) => TruncatedSurvivors(run.entries, n);
    case Compress(keep) =>
      KeepInRange(Msgs(run.entries), keep);
      RefreshTracks(run, Apply(keep, run.entries));
  }

  lemma {:induction false} StepsExact(run: Run, ops: seq<Op>, run': Run, known: seq<Message>, over: int)
    requires Tracks(run, known, over) && Steps(run, ops, run')
    ensures run'.restore == Surviving(run'.entries) <==> AbortRestores(run, ops, known, over)
    decreases |ops|
  {
    hide Step, Surviving, Live, Overshoot, Enabled, Ordered, Compacts;
    if ops != [] {
      var next := Step(run, ops[0]);
      StepTracks(run, ops[0], known, over);
      if Compacts(ops[0]) {
        StepsExact(next, ops[1..], run', Surviving(next.entries), Overshoot(next));
      } else {
        StepsExact(next, ops[1..], run', known, over);
      }
    } else {
      EndExact(run, known, over);
    }
  }

  lemma EndExact(run: Run, known: seq<Message>, over: int)
    requires Tracks(run, known, over)
    ensures var cut := |known| - |Surviving(run.entries)|;
            run.restore == Surviving(run.entries) <==> over == cut && known[..|known| - cut] == known[cut..]
  {
    hide Surviving, Ordered;
  }

  /** Every run, with any mixture of recorded and unrecorded appends, cuts, emergency compressions and background
      summaries: an abort leaves exactly the surviving pre-turn messages if and only if AbortRestores says so. */
  lemma AbortExact(history: seq<Message>, ops: seq<Op>, run': Run)
    requires Steps(Begin(history), ops, run')
    ensures run'.restore == Surviving(run'.entries) <==> AbortRestores(Begin(history), ops, history, 0)
  {
    var run := Begin(history);
    SurvivingIs(run.entries, |history|);
    assert Msgs(run.entries)[..|history|] == history && history[..|history|] == history[0..] == history;
    StepsExact(run, ops, run', history, 0);
  }

  /** Whether the last compaction of a run, if any, left a Recoverable record; `sofar` is the verdict before it. */
  ghost predicate LastRefreshRecovers(run: Run, ops: seq<Op>, sofar: bool)
    decreases |ops|
  {
    if ops == [] then sofar
    else
      Enabled(run, ops[0]) &&
      var next := Step(run, ops[0]);
      LastRefreshRecovers(next, ops[1..], if Compacts(ops[0]) then RecoverableRun(next) else sofar)
  }

  /** Without background summaries: an abort leaves exactly the surviving pre-turn messages if and only if no compaction
      took place or the last one left a Recoverable record. */
  lemma AbortWithoutSummary(history: seq<Message>, ops: seq<Op>, run': Run)
    requires Steps(Begin(history), ops, run') && forall op :: op in ops ==> !op.Truncate?
    ensures run'.restore == Surviving(run'.entries) <==> LastRefreshRecovers(Begin(history), ops, true)
  {
    BeginGood(history);
    VerdictSteps(Begin(history), ops, run');
  }

  lemma {:induction false} VerdictSteps(run: Run, ops: seq<Op>, run': Run)
    requires Ordered(run.entries) && Steps(run, ops, run') && forall op :: op in ops ==> !op.Truncate?
    ensures run'.restore == Surviving(run'.entries) <==>
            LastRefreshRecovers(run, ops, run.restore == Surviving(run.entries))
    decreases |ops|
  {
    hide Step, Surviving, Live, Recoverable, Enabled, Ordered, Compacts;
    if ops != [] {
      assert ops[0] in ops;
      StepExact(run, ops[0]);
      VerdictSteps(Step(run, ops[0]), ops[1..], run');
    }
  }

  /** A right restore point stays right through appends and background summaries if and only if the summaries leave as
      many pre-turn messages as there were. */
  lemma SummaryBehindExact(run: Run, ops: seq<Op>, run': Run)
    requires Ordered(run.entries) && run.restore == Surviving(run.entries) && Steps(run, ops, run')
    requires forall op :: op in ops ==> !Compacts(op)
    ensures run'.restore == Surviving(run'.entries) <==> |Surviving(run'.entries)| == |Surviving(run.entries)|
  {
    hide Surviving, Ordered;
    var known := run.restore;
    assert known[..|known|] == known[0..] == known;
    StepsExact(run, ops, run', known, 0);
    NoRefreshVerdict(run, ops, run', known);
  }

  lemma {:induction false} NoRefreshVerdict(run: Run, ops: seq<Op>, run': Run, known: seq<Message>)
    requires Steps(run, ops, run') && forall op :: op in ops ==> !Compacts(op)
    ensures AbortRestores(run, ops, known, 0) <==> |Surviving(run'.entries)| == |known|
    decreases |ops|
  {
    hide Step, Surviving, Enabled, Compacts;
    if ops != [] {
      assert ops[0] in ops;
      NoRefreshVerdict(Step(run, ops[0]), ops[1..], run', known);
    } else {
      assert known[..|known|] == known[0..];
    }
  }

  /** A background summary that ends during a turn is undone by an abort: the messages it cut off come back. */
  lemma SummaryUndone(history: seq<Message>, n: nat) returns (run': Run)
    requires 0 < n <= |history|
    ensures Steps(Begin(history), [Truncate(n)], run')
    ensures Surviving(run'.entries) == history[n..] && run'.restore == history
  {
    var run := Begin(history);
    run' := Step(run, Truncate(n));
    assert [Truncate(n)][1..] == [];
    SurvivingIs(run.entries, |history|);
    assert Msgs(run.entries)[..|history|] == history;
    TruncatedSurvivors(run.entries, n);
  }

  /** An unrecorded append can leak the aborted turn: with the pre-turn history [p], a message x that is not recorded
      between two that are, and a compaction that keeps everything, an abort leaves the turn's messages a and x. */
  lemma UnrecordedLeaks(p: Message, a: Message, x: Message, b: Message) returns (run': Run)
    requires x != a
    ensures Steps(Begin([p]), [Append(a), AppendUnrecorded(x), Append(b), Cut(0)], run')
    ensures Surviving(run'.entries) == [p] && run'.restore == [p, a, x]
  {
    hide Step, Surviving;
    var entries := [Entry(p, false), Entry(a, true), Entry(x, true), Entry(b, true)];
    var run := FourMessages(p, a, x, b, entries);
    run' := Step(run, Cut(0));
    StepsSnoc(Begin([p]), [Append(a), AppendUnrecorded(x), Append(b)], run, Cut(0));
    assert [Append(a), AppendUnrecorded(x), Append(b)] + [Cut(0)] == [Append(a), AppendUnrecorded(x), Append(b), Cut(0)];
    LeakedPoint(p, a, x, b, run);
  }

  lemma LeakedPoint(p: Message, a: Message, x: Message, b: Message, run: Run)
    requires x != a && run == Run([Entry(p, false), Entry(a, true), Entry(x, true), Entry(b, true)], [p], [a, b])
    ensures Surviving(Step(run, Cut(0)).entries) == [p] && Step(run, Cut(0)).restore == [p, a, x]
  {
    SurvivingIs(run.entries, 1);
    assert run.entries[0..] == run.entries && Msgs(run.entries) == [p, a, x, b] && [p, a, x, b][..1] == [p];
    var h, r := [p, a, x, b], [a, b];
    assert h[3..] == [b] && r[1..] == [b] && h[2..] == [x, b] && r[0..] == [a, b];
    MatchedTailIff(h, r, 1);
    assert h[..3] == [p, a, x];
  }

  lemma FourMessages(p: Message, a: Message, x: Message, b: Message, entries: seq<Entry>) returns (run: Run)
    requires entries == [Entry(p, false), Entry(a, true), Entry(x, true), Entry(b, true)]
    ensures Steps(Begin([p]), [Append(a), AppendUnrecorded(x), Append(b)], run) && run == Run(entries, [p], [a, b])
  {
    var r0 := Begin([p]);
    assert r0 == Run([Entry(p, false)], [p], []);
    var r1 := Step(r0, Append(a));
    var r2 := Step(r1, AppendUnrecorded(x));
    run := Step(r2, Append(b));
    assert Steps(r2, [Append(b)], run) by { assert [Append(b)][1..] == []; }
    assert [AppendUnrecorded(x), Append(b)][1..] == [Append(b)];
    assert Steps(r1, [AppendUnrecorded(x), Append(b)], run);
    assert [Append(a), AppendUnrecorded(x), Append(b)][1..] == [AppendUnrecorded(x), Append(b)];
    assert run.entries == entries && run.persisted == [a, b];
  }

  lemma {:induction false} StepsSnoc(run: Run, ops: seq<Op>, mid: Run, op: Op)
    requires Steps(run, ops, mid) && Enabled(mid, op)
    ensures Steps(run, ops + [op], Step(mid, op))
    decreases |ops|
  {
    if ops == [] {
      assert ops + [op] == [op] && [op][1..] == [];
    } else {
      assert (ops + [op])[1..] == ops[1..] + [op];
      StepsSnoc(Step(run, ops[0]), ops[1..], mid, op);
    }
  }

  /** A run that began with an empty history and has appended the messages `h`, all of them recorded. */
  ghost predicate FreshTurn(ops: seq<Op>, run: Run, h: seq<Message>) {
    && Steps(Begin([]), ops, run) && (forall op :: op in ops ==> op.Append?)
    && Good(run) && Surviving(run.entries) == [] && Msgs(run.entries) == h
  }

  lemma FreshAppend(ops: seq<Op>, run: Run, h: seq<Message>, m: Message)
    requires FreshTurn(ops, run, h)
    ensures FreshTurn(ops + [Append(m)], Step(run, Append(m)), h + [m])
  {
    AppendGood(run, m);
    SurvivingAppend(run.entries, Entry(m, true));
    StepsSnoc(Begin([]), ops, run, Append(m));
  }

  lemma FreshOne(u: Message) returns (run: Run)
    ensures FreshTurn([Append(u)], run, [u])
  {
    BeginGood([]);
    SurvivingIs(Begin([]).entries, 0);
    FreshAppend([], Begin([]), [], u);
    run := Step(Begin([]), Append(u));
    assert [] + [Append(u)] == [Append(u)] && [] + [u] == [u];
  }

  lemma FreshTwo(u: Message, a: Message) returns (run: Run)
    ensures FreshTurn([Append(u), Append(a)], run, [u, a])
  {
    hide FreshTurn, Step;
    var run1 := FreshOne(u);
    FreshAppend([Append(u)], run1, [u], a);
    run := Step(run1, Append(a));
    assert [Append(u)] + [Append(a)] == [Append(u), Append(a)] && [u] + [a] == [u, a];
  }

  lemma FreshThree(u: Message, a: Message, b: Message) returns (run: Run)
    ensures FreshTurn([Append(u), Append(a), Append(b)], run, [u, a, b])
  {
    hide FreshTurn, Step;
    var run2 := FreshTwo(u, a);
    FreshAppend([Append(u), Append(a)], run2, [u, a], b);
    run := Step(run2, Append(b));
    assert [Append(u), Append(a)] + [Append(b)] == [Append(u), Append(a), Append(b)] && [u, a] + [b] == [u, a, b];
  }

  /** The leak is reachable: a first turn of three messages in an empty session, compressed and then aborted,
      leaves its own user message behind. */
  lemma OwnUserLeakReachable(u: Message, a: Message, b: Message)
    requires u.role.User? && !IsUserRole(a.role) && !IsUserRole(b.role)
    ensures exists run': Run :: Steps(Begin([]), [Append(u), Append(a), Append(b), Compress(Only(0))], run')
              && Surviving(run'.entries) == [] && run'.restore == [u]
  {
    hide FreshTurn, Step, Steps, Surviving, Compression;
    var run := FreshThree(u, a, b);
    OneTurnCompression([u, a, b]);
    LeakingStep([Append(u), Append(a), Append(b)], run, [u, a, b]);
    assert [Append(u), Append(a), Append(b)] + [Compress(Only(0))] ==
           [Append(u), Append(a), Append(b), Compress(Only(0))];
  }

  lemma LeakingStep(ops: seq<Op>, run: Run, h: seq<Message>)
    requires FreshTurn(ops, run, h) && h != [] && Compression(h, Only(0))
    ensures exists run': Run :: Steps(Begin([]), ops + [Compress(Only(0))], run')
              && Surviving(run'.entries) == [] && run'.restore == [h[0]]
  {
    hide Surviving, Split, Compression;
    OwnUserLeaks(run, Only(0));
    StepsSnoc(Begin([]), ops, run, Compress(Only(0)));
  }

  lemma OneTurnCompression(h: seq<Message>)
    requires |h| == 3 && h[0].role.User? && !IsUserRole(h[1].role) && !IsUserRole(h[2].role)
    ensures Compression(h, Only(0))
  {
    var starts := [0];
    assert TurnStarts(h, starts);
    assert StartsTurn(h, 0);
    assert NearestBoundary(h, 1, 0);
    assert CompressionCut(h, 0);
    assert KeepsAfterCut(h, 0, Only(0));
  }
}
