/** The cron service stopped and started again while a check is still under way: the old loop goes on with what it has
    collected while a new one runs.  One-time jobs still fire at most once and never early; the interval of repeating
    jobs is no longer kept. */
module CronOverlap {
  import opened Options
  import opened Cron
  import opened CronRuns

  /** A loop's check: the ids it still has to execute and the job whose callback is out. */
  datatype Loop = Loop(due: seq<string>, executing: Option<Fire>)

  /** The service with the loop that acts next (in `s`) and the other loops. */
  datatype Service = Service(s: State, others: seq<Loop>)

  /** `On` is an event of the loop that acts next, `Yield` lets another loop act, and `Overtake` starts a stopped service
      while the loop that acted last is still at work. */
  datatype Act = On(e: Event) | Yield(k: nat) | Overtake(now: int, saved: bool)

  function Mine(s: State): Loop {
    Loop(s.due, s.executing)
  }

  function Resume(s: State, l: Loop): State {
    s.(due := l.due, executing := l.executing)
  }

  function Restart(a: Act): Event
    requires a.Overtake?
  {
    Event(Start, a.now, a.saved)
  }

  predicate CanAct(v: Service, a: Act) {
    match a
    case On(e) => Allowed(v.s, e)
    case Yield(k) => k < |v.others|
    case Overtake(now, _) => !v.s.running && v.s.clock <= now
  }

  function After(v: Service, a: Act, tick: Ticker): Service
    requires CanAct(v, a)
  {
    match a
    case On(e) => Service(Step(v.s, e, tick), if e.op.Crash? then [] else v.others)
    case Yield(k) => Service(Resume(v.s, v.others[k]), v.others[k := Mine(v.s)])
    case Overtake(_, _) => Service(Step(Resume(v.s, Loop([], None)), Restart(a), tick), v.others + [Mine(v.s)])
  }

  predicate CanRun(v: Service, acts: seq<Act>, tick: Ticker)
    decreases |acts|
  {
    acts == [] || (CanAct(v, acts[0]) && CanRun(After(v, acts[0], tick), acts[1..], tick))
  }

  function Run(v: Service, acts: seq<Act>, tick: Ticker): Service
    requires CanRun(v, acts, tick)
    decreases |acts|
  {
    if acts == [] then v else Run(After(v, acts[0], tick), acts[1..], tick)
  }

  // ----- the one-time half of the invariant ------------------------------------------------

  predicate IsOnce(known: map<string, Schedule>, id: string) {
    id in known && known[id].At?
  }

  predicate Fired(fires: seq<Fire>, id: string) {
    exists k :: 0 <= k < |fires| && fires[k].id == id
  }

  /** The one-time fires so far are legal. */
  predicate OnceLegal(fires: seq<Fire>, known: map<string, Schedule>) {
    forall k :: 0 <= k < |fires| ==>
      fires[k].id in known && (known[fires[k].id].At? ==> May(known[fires[k].id], fires[..k], fires[k].id, fires[k].time))
  }

  /** Every one-time job a loop has collected may fire now, and is collected once. */
  predicate LoopOnce(due: seq<string>, fires: seq<Fire>, known: map<string, Schedule>, clock: int) {
    && (forall i :: 0 <= i < |due| && IsOnce(known, due[i]) ==> May(known[due[i]], fires, due[i], clock))
    && (forall i, j :: 0 <= i < j < |due| && IsOnce(known, due[i]) ==> due[i] != due[j])
    && (forall i :: 0 <= i < |due| ==> due[i] in known)
  }

  /** No one-time job is collected by both. */
  predicate Apart(a: seq<string>, b: seq<string>, known: map<string, Schedule>) {
    forall i, j :: 0 <= i < |a| && 0 <= j < |b| && IsOnce(known, a[i]) ==> a[i] != b[j]
  }

  /** An armed one-time job has not been collected by the loop. */
  predicate Free(jobs: seq<Job>, due: seq<string>) {
    forall i, k :: 0 <= i < |jobs| && jobs[i].enabled && jobs[i].schedule.At? && jobs[i].nextRun.Some? && 0 <= k < |due| ==>
      due[k] != jobs[i].id
  }

  /** A next run of a one-time job is one it may take. */
  predicate OnceTimely(jobs: seq<Job>, fires: seq<Fire>) {
    forall i :: 0 <= i < |jobs| && jobs[i].enabled && jobs[i].schedule.At? && jobs[i].nextRun.Some? ==>
      May(jobs[i].schedule, fires, jobs[i].id, jobs[i].nextRun.value)
  }

  predicate StateOnce(s: State) {
    && Recorded(s.jobs, s.known) && Recorded(s.disk, s.known)
    && OnceLegal(s.fires, s.known)
    && (forall k :: 0 <= k < |s.fires| ==> s.fires[k].time <= s.clock)
    && (s.executing.Some? ==> Fired(s.fires, s.executing.value.id))
    && LoopOnce(s.due, s.fires, s.known, s.clock)
    && (s.running ==> OnceTimely(s.jobs, s.fires) && Free(s.jobs, s.due))
  }

  predicate Beside(s: State, l: Loop) {
    && LoopOnce(l.due, s.fires, s.known, s.clock) && Apart(s.due, l.due, s.known)
    && (l.executing.Some? ==> Fired(s.fires, l.executing.value.id))
    && (s.running ==> Free(s.jobs, l.due))
  }

  ghost predicate Once(v: Service) {
    && StateOnce(v.s)
    && (forall k :: 0 <= k < |v.others| ==> Beside(v.s, v.others[k]))
    && (forall j, k :: 0 <= j < k < |v.others| ==> Apart(v.others[j].due, v.others[k].due, v.s.known))
  }

  // ----- where an armed one-time job comes from --------------------------------------------

  predicate ArmedOnce(j: Job) {
    j.enabled && j.schedule.At? && j.nextRun.Some?
  }

  /** An armed one-time job was armed before, or has just been armed for a time that is still to come. */
  predicate Sourced(jobs': seq<Job>, jobs: seq<Job>, now: int) {
    forall i :: 0 <= i < |jobs'| && ArmedOnce(jobs'[i]) ==>
      jobs'[i] in jobs || (jobs'[i].nextRun == jobs'[i].schedule.at && now < jobs'[i].nextRun.value)
  }

  lemma ToggledRecorded(jobs: seq<Job>, id: string, on: bool, now: int, tick: Ticker, known: map<string, Schedule>)
    requires Recorded(jobs, known)
    ensures Recorded(Toggled(jobs, id, on, now, tick), known)
  {
    hide IndexOf, ComputeNextRun;
  }

  lemma FinishedRecorded(jobs: seq<Job>, id: string, start: int, now: int, tick: Ticker, known: map<string, Schedule>)
    requires Recorded(jobs, known)
    ensures Recorded(Finished(jobs, id, start, now, tick), known)
  {
    hide IndexOf, ComputeNextRun, Removed;
    RemovedFacts(jobs, id, known);
  }

  lemma AddedRecorded(jobs: seq<Job>, job: Job, known: map<string, Schedule>)
    requires Recorded(jobs, known) && job.id !in known
    ensures Recorded(jobs, known[job.id := job.schedule])
    ensures Recorded(jobs + [job], known[job.id := job.schedule])
  {
  }

  lemma SameIdsRecorded(jobs: seq<Job>, jobs': seq<Job>, known: map<string, Schedule>)
    requires Recorded(jobs, known) && |jobs'| == |jobs|
    requires forall i :: 0 <= i < |jobs| ==> jobs'[i].id == jobs[i].id && jobs'[i].schedule == jobs[i].schedule
    ensures Recorded(jobs', known)
  {
  }

  lemma StepRecorded(s: State, e: Event, tick: Ticker)
    requires Allowed(s, e) && Recorded(s.jobs, s.known) && Recorded(s.disk, s.known)
    ensures Recorded(Step(s, e, tick).jobs, Step(s, e, tick).known) && Recorded(Step(s, e, tick).disk, Step(s, e, tick).known)
  {
    hide Recorded, Removed, Toggled, Finished, IndexOf, ComputeNextRun, DueIds;
    match e.op
    case Add(id, schedule) =>
      AddedRecorded(s.jobs, NewJob(id, schedule, e.now, tick), s.known);
      AddedRecorded(s.disk, NewJob(id, schedule, e.now, tick), s.known);
    case Remove(id) => RemovedFacts(s.jobs, id, s.known);
    case Enable(id, on) => ToggledRecorded(s.jobs, id, on, e.now, tick, s.known);
    case Start => SameIdsRecorded(s.disk, Recomputed(s.disk, e.now, tick), s.known);
    case Collect => SameIdsRecorded(s.jobs, Cleared(s.jobs, DueIds(s.jobs, e.now)), s.known);
    case Finish => FinishedRecorded(s.jobs, s.executing.value.id, s.executing.value.time, e.now, tick, s.known);
    case _ =>
  }

  lemma ToggledSourced(jobs: seq<Job>, id: string, on: bool, now: int, tick: Ticker)
    ensures Sourced(Toggled(jobs, id, on, now, tick), jobs, now)
  {
    hide IndexOf;
  }

  lemma FinishedSourced(jobs: seq<Job>, id: string, start: int, now: int, tick: Ticker)
    ensures Sourced(Finished(jobs, id, start, now, tick), jobs, now)
  {
    hide IndexOf, Removed, ComputeNextRun;
    RemovedMembers(jobs, id);
  }

  lemma RecomputedSourced(jobs: seq<Job>, now: int, tick: Ticker)
    ensures Sourced(Recomputed(jobs, now, tick), [], now)
  {
  }

  lemma ClearedSourced(jobs: seq<Job>, due: seq<string>, now: int)
    ensures Sourced(Cleared(jobs, due), jobs, now)
  {
  }

  lemma SameSourced(jobs: seq<Job>, now: int)
    ensures Sourced(jobs, jobs, now)
  {
  }

  lemma StepSourced(s: State, e: Event, tick: Ticker)
    requires Allowed(s, e) && !e.op.Crash?
    ensures Sourced(Step(s, e, tick).jobs, if e.op.Start? && !s.running then [] else s.jobs, e.now)
  {
    hide Removed, IndexOf, DueIds, Toggled, Finished, Recomputed, Cleared;
    SameSourced(s.jobs, e.now);
    match e.op
    case Remove(id) => RemovedMembers(s.jobs, id);
    case Enable(id, on) => ToggledSourced(s.jobs, id, on, e.now, tick);
    case Start => RecomputedSourced(s.disk, e.now, tick);
    case Collect => ClearedSourced(s.jobs, DueIds(s.jobs, e.now), e.now);
    case Finish => FinishedSourced(s.jobs, s.executing.value.id, s.executing.value.time, e.now, tick);
    case _ =>
  }

  lemma SourcedFree(jobs': seq<Job>, jobs: seq<Job>, due: seq<string>, fires: seq<Fire>, known: map<string, Schedule>, clock: int,
                    now: int)
    requires Recorded(jobs', known) && Sourced(jobs', jobs, now) && Free(jobs, due)
    requires LoopOnce(due, fires, known, clock) && clock <= now
    ensures Free(jobs', due)
  {
  }

  lemma SourcedTimely(jobs': seq<Job>, jobs: seq<Job>, fires: seq<Fire>, known: map<string, Schedule>, now: int)
    requires Recorded(jobs', known) && Sourced(jobs', jobs, now) && OnceTimely(jobs, fires) && OnceLegal(fires, known)
    requires forall k :: 0 <= k < |fires| ==> fires[k].time <= now
    ensures OnceTimely(jobs', fires)
  {
    forall i | 0 <= i < |jobs'| && ArmedOnce(jobs'[i]) && jobs'[i] !in jobs
      ensures May(jobs'[i].schedule, fires, jobs'[i].id, jobs'[i].nextRun.value)
    {
      forall k | 0 <= k < |fires|
        ensures fires[k].id != jobs'[i].id
      {
        assert fires[k].time <= now && fires[k].id in known;
        assert known[fires[k].id].At? ==> known[fires[k].id].at.Some? && known[fires[k].id].at.value <= now;
      }
    }
  }

  lemma LoopLater(due: seq<string>, fires: seq<Fire>, known: map<string, Schedule>, known': map<string, Schedule>, clock: int, now: int)
    requires LoopOnce(due, fires, known, clock) && clock <= now
    requires forall id :: id in known ==> id in known' && known'[id] == known[id]
    ensures LoopOnce(due, fires, known', now)
  {
  }

  lemma NothingArmed(due: seq<string>, fires: seq<Fire>)
    ensures Free([], due) && OnceTimely([], fires)
  {
  }

  // ----- each step -------------------------------------------------------------------------

  /** What an operation other than collecting, beginning and crashing leaves alone. */
  predicate Frame(s: State, t: State, now: int) {
    && t.fires == s.fires && t.due == s.due && t.clock == now && s.clock <= now
    && (t.executing == s.executing || t.executing.None?)
    && (forall id :: id in s.known ==> id in t.known && t.known[id] == s.known[id])
    && Recorded(t.jobs, t.known) && Recorded(t.disk, t.known)
    && (t.running ==> Sourced(t.jobs, if s.running then s.jobs else [], now))
  }

  lemma FrameKeeps(s: State, t: State, now: int)
    requires StateOnce(s) && Frame(s, t, now)
    ensures StateOnce(t)
    ensures forall l :: Beside(s, l) ==> Beside(t, l)
  {
    hide Recorded, LoopOnce, OnceLegal, OnceTimely, Free, Sourced, Apart, Fired;
    LegalMore(s.fires, s.known, t.known);
    var from := if s.running then s.jobs else [];
    forall due | LoopOnce(due, s.fires, s.known, s.clock) && (s.running ==> Free(s.jobs, due))
      ensures LoopOnce(due, t.fires, t.known, t.clock) && (t.running ==> Free(t.jobs, due))
    {
      LoopLater(due, s.fires, s.known, t.known, s.clock, now);
      NothingArmed(due, s.fires);
      if t.running {
        SourcedFree(t.jobs, from, due, t.fires, t.known, now, now);
      }
    }
    if t.running {
      NothingArmed(s.due, s.fires);
      SourcedTimely(t.jobs, from, t.fires, t.known, now);
    }
    forall l | Beside(s, l)
      ensures Beside(t, l)
    {
      ApartMore(s.due, l.due, s.fires, s.clock, s.known, t.known);
    }
  }

  lemma LegalMore(fires: seq<Fire>, known: map<string, Schedule>, known': map<string, Schedule>)
    requires OnceLegal(fires, known) && forall id :: id in known ==> id in known' && known'[id] == known[id]
    ensures OnceLegal(fires, known')
  {
  }

  lemma ApartMore(a: seq<string>, b: seq<string>, fires: seq<Fire>, clock: int, known: map<string, Schedule>,
                  known': map<string, Schedule>)
    requires Apart(a, b, known) && LoopOnce(a, fires, known, clock)
    requires forall id :: id in known ==> id in known' && known'[id] == known[id]
    ensures Apart(a, b, known')
  {
  }

  /** The operations that FrameKeeps is about. */
  predicate Quiet(op: Op) {
    !op.Collect? && !op.Begin? && !op.Crash?
  }

  lemma QuietFrame(s: State, e: Event, tick: Ticker)
    requires Allowed(s, e) && Quiet(e.op) && Recorded(s.jobs, s.known) && Recorded(s.disk, s.known)
    ensures Frame(s, Step(s, e, tick), e.now)
  {
    hide Recorded, Removed, IndexOf, Recomputed, Finished;
    StepRecorded(s, e, tick);
    StepSourced(s, e, tick);
  }

  lemma CollectOnce(s: State, e: Event, tick: Ticker)
    requires Allowed(s, e) && e.op.Collect? && StateOnce(s)
    ensures StateOnce(Step(s, e, tick))
    ensures forall l :: Beside(s, l) ==> Beside(Step(s, e, tick), l)
  {
    hide OnceLegal, Fired, Recorded;
    var t := Step(s, e, tick);
    StepRecorded(s, e, tick);
    if s.running {
      CollectedOnce(s, e.now);
      forall l | Beside(s, l)
        ensures Beside(t, l)
      {
        CollectedBeside(s, e.now, l.due);
      }
    } else {
      forall l | Beside(s, l)
        ensures Beside(t, l)
      {
        LoopLater(l.due, s.fires, s.known, s.known, s.clock, e.now);
      }
      LoopLater(s.due, s.fires, s.known, s.known, s.clock, e.now);
    }
  }

  lemma DueFrom(jobs: seq<Job>, now: int, k: nat) returns (i: nat)
    requires k < |DueIds(jobs, now)|
    ensures i < |jobs| && jobs[i].id == DueIds(jobs, now)[k] && IsDue(jobs[i], now)
  {
    DueIdsExact(jobs, now);
    assert DueIds(jobs, now)[k] in DueIds(jobs, now);
    i :| 0 <= i < |jobs| && jobs[i].id == DueIds(jobs, now)[k] && IsDue(jobs[i], now);
  }

  lemma CollectedOnce(s: State, now: int)
    requires StateOnce(s) && s.running && s.clock <= now
    ensures var due := DueIds(s.jobs, now);
            && LoopOnce(due, s.fires, s.known, now)
            && Free(Cleared(s.jobs, due), due) && OnceTimely(Cleared(s.jobs, due), s.fires)
  {
    hide DueIds, OnceLegal, Fired;
    var due := DueIds(s.jobs, now);
    DueIdsExact(s.jobs, now);
    forall k | 0 <= k < |due|
      ensures due[k] in s.known && (IsOnce(s.known, due[k]) ==> May(s.known[due[k]], s.fires, due[k], now))
    {
      var i := DueFrom(s.jobs, now, k);
      if IsOnce(s.known, due[k]) {
        MayLater(s.jobs[i].schedule, s.fires, s.jobs[i].id, s.jobs[i].nextRun.value, now);
      }
    }
  }

  lemma CollectedBeside(s: State, now: int, other: seq<string>)
    requires StateOnce(s) && s.running && s.clock <= now
    requires LoopOnce(other, s.fires, s.known, s.clock) && Free(s.jobs, other)
    ensures var due := DueIds(s.jobs, now);
            && LoopOnce(other, s.fires, s.known, now) && Apart(due, other, s.known) && Free(Cleared(s.jobs, due), other)
  {
    hide DueIds, OnceLegal, Fired, OnceTimely, May;
    var due := DueIds(s.jobs, now);
    LoopLater(other, s.fires, s.known, s.known, s.clock, now);
    forall i, j | 0 <= i < |due| && 0 <= j < |other| && IsOnce(s.known, due[i])
      ensures due[i] != other[j]
    {
      var k := DueFrom(s.jobs, now, i);
      assert s.jobs[k].schedule.At?;
    }
  }

  lemma BeginOnce(s: State, e: Event, tick: Ticker)
    requires Allowed(s, e) && e.op.Begin? && StateOnce(s)
    ensures StateOnce(Step(s, e, tick))
    ensures forall l :: Beside(s, l) ==> Beside(Step(s, e, tick), l)
  {
    hide Recorded, LoopOnce, OnceLegal, OnceTimely, Free, Apart, May, IndexOf;
    var t := Step(s, e, tick);
    LoopLater(s.due, s.fires, s.known, s.known, s.clock, e.now);
    TailOnce(s.due, s.jobs, s.fires, s.known, e.now);
    if |t.fires| > |s.fires| {
      var f := Fire(s.due[0], e.now);
      FireOnce(s, f, e.now);
      assert t.fires[|s.fires|].id == f.id;
    }
    forall l | Beside(s, l)
      ensures Beside(t, l)
    {
      BeginBeside(s, t, l, e.now);
    }
  }

  lemma TailOnce(due: seq<string>, jobs: seq<Job>, fires: seq<Fire>, known: map<string, Schedule>, now: int)
    requires due != [] && LoopOnce(due, fires, known, now)
    ensures LoopOnce(due[1..], fires, known, now) && LoopOnce(due[1..], fires + [Fire(due[0], now)], known, now)
    ensures Free(jobs, due) ==> Free(jobs, due[1..])
  {
    var tail := due[1..];
    forall i | 0 <= i < |tail| && IsOnce(known, tail[i])
      ensures May(known[tail[i]], fires + [Fire(due[0], now)], tail[i], now)
    {
      assert tail[i] == due[i + 1] && May(known[due[i + 1]], fires, due[i + 1], now);
      assert IsOnce(known, due[0]) ==> due[0] != due[i + 1];
      MayAfterOther(known[tail[i]], fires, Fire(due[0], now), tail[i], now);
    }
  }

  lemma FireOnce(s: State, f: Fire, now: int)
    requires StateOnce(s) && s.due != [] && f == Fire(s.due[0], now) && s.clock <= now
    ensures OnceLegal(s.fires + [f], s.known) && (forall k :: 0 <= k < |s.fires + [f]| ==> (s.fires + [f])[k].time <= now)
    ensures s.running ==> OnceTimely(s.jobs, s.fires + [f])
  {
    var all := s.fires + [f];
    forall k | 0 <= k < |all|
      ensures all[k].id in s.known && (s.known[all[k].id].At? ==> May(s.known[all[k].id], all[..k], all[k].id, all[k].time))
    {
      if k < |s.fires| {
        assert all[..k] == s.fires[..k];
      } else {
        assert all[..k] == s.fires;
      }
    }
    if s.running {
      forall i | 0 <= i < |s.jobs| && ArmedOnce(s.jobs[i])
        ensures May(s.jobs[i].schedule, all, s.jobs[i].id, s.jobs[i].nextRun.value)
      {
        assert s.due[0] != s.jobs[i].id;
        MayAfterOther(s.jobs[i].schedule, s.fires, f, s.jobs[i].id, s.jobs[i].nextRun.value);
      }
    }
  }

  lemma BeginBeside(s: State, t: State, l: Loop, now: int)
    requires StateOnce(s) && Beside(s, l) && s.due != [] && s.clock <= now
    requires t.due == s.due[1..] && t.jobs == s.jobs && t.known == s.known && t.running == s.running && t.clock == now
    requires t.fires == s.fires || t.fires == s.fires + [Fire(s.due[0], now)]
    ensures Beside(t, l)
  {
    hide Recorded, OnceLegal, OnceTimely, Free;
    forall i | 0 <= i < |l.due| && IsOnce(t.known, l.due[i])
      ensures May(t.known[l.due[i]], t.fires, l.due[i], now)
    {
      MayLater(s.known[l.due[i]], s.fires, l.due[i], s.clock, now);
      if |t.fires| > |s.fires| {
        assert IsOnce(s.known, s.due[0]) ==> s.due[0] != l.due[i];
        MayAfterOther(s.known[l.due[i]], s.fires, Fire(s.due[0], now), l.due[i], now);
      }
    }
    if l.executing.Some? {
      var k :| 0 <= k < |s.fires| && s.fires[k].id == l.executing.value.id;
      assert t.fires[k] == s.fires[k];
    }
  }

  lemma EventKeeps(v: Service, e: Event, tick: Ticker)
    requires Once(v) && Allowed(v.s, e)
    ensures Once(After(v, On(e), tick))
  {
    hide StateOnce, Beside, Apart, LoopOnce;
    var t := Step(v.s, e, tick);
    if e.op.Crash? {
      CrashOnce(v.s, e, tick);
    } else if e.op.Collect? {
      CollectOnce(v.s, e, tick);
    } else if e.op.Begin? {
      BeginOnce(v.s, e, tick);
    } else {
      OnceRecorded(v.s);
      QuietFrame(v.s, e, tick);
      FrameKeeps(v.s, t, e.now);
    }
    if !e.op.Crash? {
      forall j, k | 0 <= j < k < |v.others|
        ensures Apart(v.others[j].due, v.others[k].due, t.known)
      {
        OthersApart(v.s, v.others[j], v.others[k], e, tick);
      }
    }
  }

  lemma OnceRecorded(s: State)
    requires StateOnce(s)
    ensures Recorded(s.jobs, s.known) && Recorded(s.disk, s.known)
  {
  }

  lemma OthersApart(s: State, a: Loop, b: Loop, e: Event, tick: Ticker)
    requires Allowed(s, e) && Beside(s, a) && Apart(a.due, b.due, s.known)
    ensures Apart(a.due, b.due, Step(s, e, tick).known)
  {
    hide Apart, LoopOnce, Free, Removed, Toggled, Finished, Recomputed, Cleared;
    ApartMore(a.due, b.due, s.fires, s.clock, s.known, Step(s, e, tick).known);
  }

  lemma CrashOnce(s: State, e: Event, tick: Ticker)
    requires Allowed(s, e) && e.op.Crash? && StateOnce(s)
    ensures StateOnce(Step(s, e, tick))
  {
    hide OnceLegal, Recorded;
  }

  lemma ApartSymmetric(a: seq<string>, b: seq<string>, known: map<string, Schedule>)
    requires Apart(a, b, known)
    ensures Apart(b, a, known)
  {
  }

  lemma YieldKeeps(v: Service, k: nat, tick: Ticker)
    requires Once(v) && k < |v.others|
    ensures Once(After(v, Yield(k), tick))
  {
    hide Recorded, LoopOnce, OnceLegal, OnceTimely, Free, Apart, Fired;
    var w := After(v, Yield(k), tick);
    ApartSymmetric(v.s.due, v.others[k].due, v.s.known);
    forall j | 0 <= j < |v.others| && j != k
      ensures Apart(v.others[k].due, v.others[j].due, v.s.known)
    {
      if j < k {
        ApartSymmetric(v.others[j].due, v.others[k].due, v.s.known);
      }
    }
    forall j | 0 <= j < |v.others|
      ensures Beside(w.s, w.others[j])
    {
    }
    forall i, j | 0 <= i < j < |w.others|
      ensures Apart(w.others[i].due, w.others[j].due, w.s.known)
    {
      if j == k {
        ApartSymmetric(v.s.due, v.others[i].due, v.s.known);
      }
    }
  }

  lemma PushedKeeps(v: Service)
    requires Once(v) && !v.s.running
    ensures Once(Service(Resume(v.s, Loop([], None)), v.others + [Mine(v.s)]))
  {
    hide Recorded, OnceLegal, OnceTimely, Fired;
    forall j | 0 <= j < |v.others|
      ensures Apart(v.others[j].due, v.s.due, v.s.known)
    {
      ApartSymmetric(v.s.due, v.others[j].due, v.s.known);
    }
  }

  lemma ActKeeps(v: Service, a: Act, tick: Ticker)
    requires Once(v) && CanAct(v, a)
    ensures Once(After(v, a, tick))
  {
    hide Once, Step;
    match a
    case On(e) => EventKeeps(v, e, tick);
    case Yield(k) => YieldKeeps(v, k, tick);
    case Overtake(_, _) =>
      PushedKeeps(v);
      EventKeeps(Service(Resume(v.s, Loop([], None)), v.others + [Mine(v.s)]), Restart(a), tick);
  }

  lemma {:induction false} RunOnce(v: Service, acts: seq<Act>, tick: Ticker)
    requires Once(v) && CanRun(v, acts, tick)
    ensures Once(Run(v, acts, tick))
    decreases |acts|
  {
    hide Once, CanAct, After;
    if acts != [] {
      ActKeeps(v, acts[0], tick);
      RunOnce(After(v, acts[0], tick), acts[1..], tick);
    }
  }

  /** With any number of overlapping loops, crashes and failing saves: a one-time job is called at most once, and never
      before its time. */
  lemma OneTimeLaw(s: State, acts: seq<Act>, tick: Ticker, k: nat)
    requires Initial(s) && CanRun(Service(s, []), acts, tick) && k < |Run(Service(s, []), acts, tick).s.fires|
    ensures var t := Run(Service(s, []), acts, tick).s;
            var f := t.fires[k];
            f.id in t.known && (t.known[f.id].At? ==>
              && t.known[f.id].at.Some? && t.known[f.id].at.value <= f.time
              && forall i :: 0 <= i < |t.fires| && t.fires[i].id == f.id ==> i == k)
  {
    assert Once(Service(s, []));
    RunOnce(Service(s, []), acts, tick);
    var t := Run(Service(s, []), acts, tick).s;
    hide Run, CanRun, Recorded, LoopOnce, OnceTimely, Free;
    OnceOnly(t.fires, t.known, k);
  }

  lemma OnceOnly(fires: seq<Fire>, known: map<string, Schedule>, k: nat)
    requires OnceLegal(fires, known) && k < |fires|
    ensures var f := fires[k];
            f.id in known && (known[f.id].At? ==>
              && known[f.id].at.Some? && known[f.id].at.value <= f.time
              && forall i :: 0 <= i < |fires| && fires[i].id == f.id ==> i == k)
  {
    assert known[fires[k].id].At? ==> May(known[fires[k].id], fires[..k], fires[k].id, fires[k].time);
    forall i | 0 <= i < |fires| && fires[i].id == fires[k].id && i != k
      ensures !known[fires[k].id].At?
    {
      if i < k {
        assert fires[..k][i] == fires[i];
      } else {
        assert fires[..i][k] == fires[k];
      }
    }
  }

  // ----- the interval is not kept ----------------------------------------------------------

  /** There is a job `id`, and every job of that id repeats after n. */
  predicate Repeats(jobs: seq<Job>, id: string, n: int) {
    && (exists i :: 0 <= i < |jobs| && jobs[i].id == id)
    && (forall i :: 0 <= i < |jobs| && jobs[i].id == id ==> jobs[i].schedule == Every(Some(n)))
  }

  lemma {:induction false} RemovedKeepsOthers(jobs: seq<Job>, id: string, j: Job)
    requires j in jobs && j.id != id
    ensures j in Removed(jobs, id)
  {
    var n := |jobs| - 1;
    if j != jobs[n] {
      assert j in jobs[..n];
      RemovedKeepsOthers(jobs[..n], id, j);
    }
  }

  lemma FinishedRepeats(jobs: seq<Job>, done: string, start: int, now: int, tick: Ticker, id: string, n: int)
    requires Repeats(jobs, id, n)
    ensures Repeats(Finished(jobs, done, start, now, tick), id, n)
  {
    hide IndexOf, Removed, ComputeNextRun;
    var jobs' := Finished(jobs, done, start, now, tick);
    var i :| 0 <= i < |jobs| && jobs[i].id == id;
    if jobs' == Removed(jobs, done) && done != id {
      RemovedMembers(jobs, done);
      RemovedKeepsOthers(jobs, done, jobs[i]);
    } else {
      assert jobs'[i].id == id;
    }
  }

  lemma {:induction false} RunConcat(v: Service, a: seq<Act>, b: seq<Act>, tick: Ticker)
    requires CanRun(v, a, tick) && CanRun(Run(v, a, tick), b, tick)
    ensures CanRun(v, a + b, tick) && Run(v, a + b, tick) == Run(Run(v, a, tick), b, tick)
    decreases |a|
  {
    hide CanAct, After;
    if a == [] {
      assert a + b == b;
    } else {
      assert (a + b)[1..] == a[1..] + b;
      RunConcat(After(v, a[0], tick), a[1..], b, tick);
    }
  }

  lemma OneAct(v: Service, a: Act, tick: Ticker)
    requires CanAct(v, a)
    ensures CanRun(v, [a], tick) && Run(v, [a], tick) == After(v, a, tick)
  {
    hide CanAct, After;
    assert [a][1..] == [];
  }

  /** The loop that acts has called `id` at `now`, after whatever fired before. */
  predicate Called(v: Service, w: Service, id: string, n: int, now: int) {
    && w.others == v.others && w.s.clock == now && Repeats(w.s.jobs, id, n)
    && |v.s.fires| < |w.s.fires| && v.s.fires <= w.s.fires && w.s.fires[|w.s.fires| - 1] == Fire(id, now)
  }

  /** A loop between two callbacks can work off what it has collected, all at one time, up to the job `id`. */
  lemma {:induction false} CallsUpTo(v: Service, id: string, n: int, now: int, tick: Ticker) returns (acts: seq<Act>)
    requires v.s.executing.None? && id in v.s.due && Repeats(v.s.jobs, id, n) && v.s.clock <= now
    ensures CanRun(v, acts, tick) && Called(v, Run(v, acts, tick), id, n, now)
    decreases |v.s.due|
  {
    hide CanRun, Run, Repeats, IndexOf;
    var begin := On(Event(Begin, now, true));
    var w := After(v, begin, tick);
    OneAct(v, begin, tick);
    if v.s.due[0] == id {
      HasIndex(v.s.jobs, id, n);
      acts := [begin];
    } else {
      assert id in v.s.due[1..];
      var between := Through(w, id, n, now, tick);
      var x := Run(w, between, tick);
      var rest := CallsUpTo(x, id, n, now, tick);
      RunConcat(w, between, rest, tick);
      RunConcat(v, [begin], between + rest, tick);
      acts := [begin] + (between + rest);
    }
  }

  lemma HasIndex(jobs: seq<Job>, id: string, n: int)
    requires Repeats(jobs, id, n)
    ensures IndexOf(jobs, id) < |jobs|
  {
  }

  /** If a callback is out, it can come back. */
  lemma Through(v: Service, id: string, n: int, now: int, tick: Ticker) returns (acts: seq<Act>)
    requires Repeats(v.s.jobs, id, n) && v.s.clock <= now
    ensures CanRun(v, acts, tick)
    ensures var w := Run(v, acts, tick);
            && w.others == v.others && w.s.clock <= now && Repeats(w.s.jobs, id, n)
            && w.s.fires == v.s.fires && w.s.due == v.s.due && w.s.executing.None?
  {
    hide Repeats, IndexOf, Finished;
    if v.s.executing.Some? {
      var finish := On(Event(Finish, now, true));
      OneAct(v, finish, tick);
      FinishedRepeats(v.s.jobs, v.s.executing.value.id, v.s.executing.value.time, now, tick, id, n);
      acts := [finish];
    } else {
      acts := [];
    }
  }

  lemma OvertakenArms(v: Service, id: string, n: int, tick: Ticker)
    requires !v.s.running && n > 0 && Repeats(v.s.disk, id, n)
    requires exists i :: 0 <= i < |v.s.disk| && v.s.disk[i].id == id && v.s.disk[i].enabled
    ensures var u := After(v, Overtake(v.s.clock, true), tick);
            && u.others == v.others + [Mine(v.s)] && u.s.clock == v.s.clock && u.s.fires == v.s.fires && u.s.running
            && u.s.executing.None? && u.s.due == [] && Repeats(u.s.jobs, id, n)
            && exists i :: 0 <= i < |u.s.jobs| && u.s.jobs[i].id == id && IsDue(u.s.jobs[i], v.s.clock + n)
  {
    var u := After(v, Overtake(v.s.clock, true), tick);
    var i :| 0 <= i < |v.s.disk| && v.s.disk[i].id == id && v.s.disk[i].enabled;
    assert u.s.jobs[i].id == id && IsDue(u.s.jobs[i], v.s.clock + n);
  }

  lemma CollectsDue(v: Service, id: string, n: int, now: int, tick: Ticker)
    requires v.s.running && v.s.executing.None? && v.s.due == [] && v.s.clock <= now && Repeats(v.s.jobs, id, n)
    requires exists i :: 0 <= i < |v.s.jobs| && v.s.jobs[i].id == id && IsDue(v.s.jobs[i], now)
    ensures var w := After(v, On(Event(Collect, now, true)), tick);
            && w.others == v.others && w.s.clock == now && w.s.fires == v.s.fires
            && w.s.executing.None? && id in w.s.due && Repeats(w.s.jobs, id, n)
  {
    hide DueIds;
    DueIdsExact(v.s.jobs, now);
    var i :| 0 <= i < |v.s.jobs| && v.s.jobs[i].id == id && IsDue(v.s.jobs[i], now);
    assert After(v, On(Event(Collect, now, true)), tick).s.jobs[i].id == id;
  }

  /** Overtaking arms the job again, and a new loop can collect it when its interval is over. */
  lemma OvertakenCollects(v: Service, id: string, n: int, tick: Ticker) returns (acts: seq<Act>)
    requires !v.s.running && n > 0 && Repeats(v.s.disk, id, n)
    requires exists i :: 0 <= i < |v.s.disk| && v.s.disk[i].id == id && v.s.disk[i].enabled
    ensures CanRun(v, acts, tick) && acts != [] && acts[0] == Overtake(v.s.clock, true)
    ensures var w := Run(v, acts, tick);
            && w.others == v.others + [Mine(v.s)] && w.s.clock == v.s.clock + n && w.s.fires == v.s.fires
            && w.s.executing.None? && id in w.s.due && Repeats(w.s.jobs, id, n)
  {
    hide CanRun, Run, Repeats, Step, IsDue;
    var over, collect := Overtake(v.s.clock, true), On(Event(Collect, v.s.clock + n, true));
    var u := After(v, over, tick);
    OvertakenArms(v, id, n, tick);
    CollectsDue(u, id, n, v.s.clock + n, tick);
    OneAct(v, over, tick);
    OneAct(u, collect, tick);
    RunConcat(v, [over], [collect], tick);
    acts := [over] + [collect];
  }

  lemma OldLoopCalls(v: Service, w: Service, x: Service, id: string, n: int, now: int, tick: Ticker) returns (acts: seq<Act>)
    requires w.others == v.others + [Mine(v.s)] && id in v.s.due && Called(w, x, id, n, now)
    ensures CanRun(x, acts, tick)
    ensures var before, fires := x.s.fires, Run(x, acts, tick).s.fires;
            |before| < |fires| && before <= fires && fires[|fires| - 1] == Fire(id, now)
  {
    hide CanRun, Run, Repeats;
    var turn := Yield(|v.others|);
    var y := After(x, turn, tick);
    OneAct(x, turn, tick);
    var between := Through(y, id, n, now, tick);
    var rest := CallsUpTo(Run(y, between, tick), id, n, now, tick);
    RunConcat(y, between, rest, tick);
    RunConcat(x, [turn], between + rest, tick);
    acts := [turn] + (between + rest);
  }

  /** The guard of FiringLaw is needed wherever it is missing: whenever a stopped service is overtaken while its loop
      still holds an enabled repeating job that is on disk, a continuation calls that job twice within its interval. */
  lemma OverlapBreaksInterval(v: Service, id: string, n: int, tick: Ticker) returns (acts: seq<Act>)
    requires !v.s.running && id in v.s.due && n > 0 && Repeats(v.s.disk, id, n)
    requires exists i :: 0 <= i < |v.s.disk| && v.s.disk[i].id == id && v.s.disk[i].enabled
    ensures acts != [] && acts[0] == Overtake(v.s.clock, true) && CanRun(v, acts, tick)
    ensures var fires := Run(v, acts, tick).s.fires;
            exists i, j :: 0 <= i < j < |fires| && fires[i].id == fires[j].id == id && fires[j].time < fires[i].time + n
  {
    hide CanRun, Run, Repeats;
    var now := v.s.clock + n;
    var acts0 := OvertakenCollects(v, id, n, tick);
    var w := Run(v, acts0, tick);
    var acts1 := CallsUpTo(w, id, n, now, tick);
    var x := Run(w, acts1, tick);
    var acts2 := OldLoopCalls(v, w, x, id, n, now, tick);
    RunConcat(w, acts1, acts2, tick);
    RunConcat(v, acts0, acts1 + acts2, tick);
    acts := acts0 + (acts1 + acts2);
    var first, fires := |x.s.fires| - 1, Run(v, acts, tick).s.fires;
    assert fires[first] == Fire(id, now) && fires[|fires| - 1] == Fire(id, now);
  }

  /** Such a state is reachable: started at 0, a job that repeats after ten is collected at 10, and the service is stopped
      before the job has been called. */
  lemma OverlapReachable(tick: Ticker) returns (start: State, acts: seq<Act>)
    ensures Initial(start) && CanRun(Service(start, []), acts, tick)
    ensures var v := Run(Service(start, []), acts, tick);
            && !v.s.running && "j" in v.s.due && Repeats(v.s.disk, "j", 10)
            && exists i :: 0 <= i < |v.s.disk| && v.s.disk[i].id == "j" && v.s.disk[i].enabled
  {
    hide CanAct, After, CanRun, Run;
    var a0, a1, a2 := On(Event(Start, 0, true)), On(Event(Collect, 10, true)), On(Event(Stop, 10, true));
    start := At0(None, false, [], 0);
    StartTen(tick);
    CollectTen(tick);
    StopTen(tick);
    var v0, v1, v2 := Service(start, []), Service(At0(Some(10), true, [], 0), []), Service(At0(None, true, ["j"], 10), []);
    OneAct(v0, a0, tick);
    OneAct(v1, a1, tick);
    OneAct(v2, a2, tick);
    RunConcat(v1, [a1], [a2], tick);
    RunConcat(v0, [a0], [a1] + [a2], tick);
    acts := [a0] + ([a1] + [a2]);
    var disk := [EveryTen(None)];
    assert Run(v0, acts, tick).s.disk == disk && disk[0].id == "j";
  }

  function EveryTen(next: Option<int>): Job {
    Job("j", true, Every(Some(10)), next, None, false)
  }

  function At0(next: Option<int>, running: bool, due: seq<string>, clock: int): State {
    State([EveryTen(next)], [EveryTen(next)], running, due, None, clock, [], map["j" := Every(Some(10))])
  }

  lemma StartTen(tick: Ticker)
    ensures CanAct(Service(At0(None, false, [], 0), []), On(Event(Start, 0, true)))
    ensures After(Service(At0(None, false, [], 0), []), On(Event(Start, 0, true)), tick) ==
            Service(At0(Some(10), true, [], 0), [])
    ensures Initial(At0(None, false, [], 0))
  {
    assert Recomputed([EveryTen(None)], 0, tick) == [EveryTen(Some(10))];
  }

  lemma CollectTen(tick: Ticker)
    ensures var v := Service(At0(Some(10), true, [], 0), []);
            && CanAct(v, On(Event(Collect, 10, true)))
            && After(v, On(Event(Collect, 10, true)), tick) == Service(At0(None, true, ["j"], 10), [])
  {
    var jobs := [EveryTen(Some(10))];
    assert jobs[..0] == [] && DueIds([], 10) == [];
    assert DueIds(jobs, 10) == ["j"];
    assert "j" in ["j"];
    assert Cleared(jobs, ["j"]) == [EveryTen(None)];
  }

  lemma StopTen(tick: Ticker)
    ensures var v := Service(At0(None, true, ["j"], 10), []);
            && CanAct(v, On(Event(Stop, 10, true)))
            && After(v, On(Event(Stop, 10, true)), tick) == Service(At0(None, false, ["j"], 10), [])
  {
  }
}
