/** Whole runs of the cron service, with a clock that never goes back, saves that may fail and crashes at any point. */
module CronRuns {
  import opened Options
  import opened Cron

  datatype Fire = Fire(id: string, time: int)

  /** `due` is what the running check still has to execute, `executing` the job whose callback is out, `known` the
      schedule of every job ever added and `fires` every callback so far, oldest first. */
  datatype State = State(
    jobs: seq<Job>,
    disk: seq<Job>,
    running: bool,
    due: seq<string>,
    executing: Option<Fire>,
    clock: int,
    fires: seq<Fire>,
    known: map<string, Schedule>)

  datatype Op =
    | Add(newId: string, schedule: Schedule)
    | Remove(id: string)
    | Enable(jobId: string, on: bool)
    | Start
    | Stop
    | Collect
    | Begin
    | Finish
    | Crash

  datatype Event = Event(op: Op, now: int, saved: bool)

  /** One service loop: it checks again only when the last check is through, and a stopped service is started again only
      after that loop has come to rest (`CronOverlap` drops this guard). Job ids are never reused. */
  predicate Allowed(s: State, e: Event) {
    && s.clock <= e.now
    && match e.op
       case Add(id, _) => id !in s.known
       case Start => s.running || (s.due == [] && s.executing.None?)
       case Collect => s.due == [] && s.executing.None?
       case Begin => s.due != [] && s.executing.None?
       case Finish => s.executing.Some?
       case _ => true
  }

  /** The store is written out only when the operation found its job. */
  function Stored(s: State, jobs: seq<Job>, e: Event, found: bool): State {
    s.(jobs := jobs, disk := if e.saved && found then jobs else s.disk, clock := e.now)
  }

  function Began(s: State, now: int): State
    requires s.due != []
  {
    var next := s.(due := s.due[1..], clock := now);
    if IndexOf(s.jobs, s.due[0]) < |s.jobs| then
      next.(executing := Some(Fire(s.due[0], now)), fires := s.fires + [Fire(s.due[0], now)])
    else next
  }

  function Step(s: State, e: Event, tick: Ticker): State
    requires Allowed(s, e)
  {
    match e.op
    case Add(id, schedule) => Stored(s, s.jobs + [NewJob(id, schedule, e.now, tick)], e, true).(known := s.known[id := schedule])
    case Remove(id) => Stored(s, Removed(s.jobs, id), e, |Removed(s.jobs, id)| < |s.jobs|)
    case Enable(id, on) => Stored(s, Toggled(s.jobs, id, on, e.now, tick), e, IndexOf(s.jobs, id) < |s.jobs|)
    case Start =>
      if s.running then s.(clock := e.now)
      else Stored(s, Recomputed(s.disk, e.now, tick), e, true).(running := e.saved)
    case Stop => s.(running := false, clock := e.now)
    case Collect =>
      if !s.running then s.(clock := e.now)
      else
        var due := DueIds(s.jobs, e.now);
        Stored(s, Cleared(s.jobs, due), e, true).(due := due)
    case Begin => Began(s, e.now)
    case Finish =>
      var f := s.executing.value;
      Stored(s, Finished(s.jobs, f.id, f.time, e.now, tick), e, IndexOf(s.jobs, f.id) < |s.jobs|).(executing := None)
    case Crash => s.(jobs := s.disk, running := false, due := [], executing := None, clock := e.now)
  }

  predicate AllowedRun(s: State, events: seq<Event>, tick: Ticker)
    decreases |events|
  {
    events == [] || (Allowed(s, events[0]) && AllowedRun(Step(s, events[0], tick), events[1..], tick))
  }

  function Run(s: State, events: seq<Event>, tick: Ticker): State
    requires AllowedRun(s, events, tick)
    decreases |events|
  {
    if events == [] then s else Run(Step(s, events[0], tick), events[1..], tick)
  }

  // ----- what a schedule promises ----------------------------------------------------------

  /** Firing `id` at `time` after the given fires keeps its schedule. */
  predicate May(schedule: Schedule, fires: seq<Fire>, id: string, time: int) {
    match schedule
    case At(at) => at.Some? && at.value <= time && forall k :: 0 <= k < |fires| ==> fires[k].id != id
    case Every(every) =>
      && every.Some? && every.value > 0
      && forall k :: 0 <= k < |fires| && fires[k].id == id ==> fires[k].time + every.value <= time
    case Expr(expr) => expr != ""
    case UnknownKind => false
  }

  predicate Legal(fires: seq<Fire>, known: map<string, Schedule>) {
    forall k :: 0 <= k < |fires| ==>
      fires[k].id in known && May(known[fires[k].id], fires[..k], fires[k].id, fires[k].time)
  }

  predicate UniqueIds(jobs: seq<Job>) {
    forall i, k :: 0 <= i < k < |jobs| ==> jobs[i].id != jobs[k].id
  }

  predicate Recorded(jobs: seq<Job>, known: map<string, Schedule>) {
    UniqueIds(jobs) && forall i :: 0 <= i < |jobs| ==> jobs[i].id in known && jobs[i].schedule == known[jobs[i].id]
  }

  /** Between collection and the end of its callback a job is busy. */
  predicate Busy(s: State, id: string) {
    id in s.due || (s.executing.Some? && s.executing.value.id == id)
  }

  /** A next run in memory is never earlier than the job's schedule allows. */
  predicate Timely(j: Job, fires: seq<Fire>) {
    j.enabled && j.nextRun.Some? ==> May(j.schedule, fires, j.id, j.nextRun.value)
  }

  predicate Distinct(ids: seq<string>) {
    forall i, k :: 0 <= i < k < |ids| ==> ids[i] != ids[k]
  }

  predicate Inv(s: State) {
    && Recorded(s.jobs, s.known) && Recorded(s.disk, s.known)
    && Legal(s.fires, s.known)
    && (forall k :: 0 <= k < |s.fires| ==> s.fires[k].time <= s.clock)
    && Distinct(s.due)
    && (forall k :: 0 <= k < |s.due| ==> s.due[k] in s.known && May(s.known[s.due[k]], s.fires, s.due[k], s.clock))
    && (s.executing.Some? ==> s.executing.value.id !in s.due)
    && (s.running ==> forall i :: 0 <= i < |s.jobs| && !Busy(s, s.jobs[i].id) ==> Timely(s.jobs[i], s.fires))
  }

  // ----- small facts -----------------------------------------------------------------------

  /** A fresh next run is allowed, because every fire is behind the clock. */
  lemma ComputedNextIsTimely(schedule: Schedule, fires: seq<Fire>, known: map<string, Schedule>, id: string, now: int,
                             tick: Ticker)
    requires Legal(fires, known) && (id in known ==> known[id] == schedule)
    requires forall k :: 0 <= k < |fires| ==> fires[k].time <= now
    ensures var next := ComputeNextRun(schedule, now, tick); next.Some? ==> May(schedule, fires, id, next.value)
  {
  }

  lemma {:induction false} RemovedMembers(jobs: seq<Job>, id: string)
    ensures forall i :: 0 <= i < |Removed(jobs, id)| ==> Removed(jobs, id)[i] in jobs && Removed(jobs, id)[i].id != id
  {
    if jobs != [] {
      RemovedMembers(jobs[..|jobs| - 1], id);
    }
  }

  lemma LastStaysUnique(kept: seq<Job>, jobs: seq<Job>)
    requires jobs != [] && UniqueIds(jobs) && UniqueIds(kept)
    requires forall i :: 0 <= i < |kept| ==> kept[i] in jobs[..|jobs| - 1]
    ensures UniqueIds(kept + [jobs[|jobs| - 1]])
  {
    var n := |jobs| - 1;
    forall i | 0 <= i < |kept|
      ensures kept[i].id != jobs[n].id
    {
      var k :| 0 <= k < n && jobs[..n][k] == kept[i];
      assert jobs[k].id != jobs[n].id;
    }
  }

  lemma {:induction false} RemovedFacts(jobs: seq<Job>, id: string, known: map<string, Schedule>)
    requires Recorded(jobs, known)
    ensures Recorded(Removed(jobs, id), known)
    ensures forall i :: 0 <= i < |Removed(jobs, id)| ==> Removed(jobs, id)[i] in jobs && Removed(jobs, id)[i].id != id
  {
    RemovedMembers(jobs, id);
    if jobs != [] {
      var front := jobs[..|jobs| - 1];
      RemovedMembers(front, id);
      RemovedFacts(front, id, known);
      LastStaysUnique(Removed(front, id), jobs);
    }
  }

  /** The due list names the due jobs, each once. */
  lemma {:induction false} DueIdsExact(jobs: seq<Job>, now: int)
    ensures forall id :: id in DueIds(jobs, now) <==> exists i :: 0 <= i < |jobs| && jobs[i].id == id && IsDue(jobs[i], now)
    ensures UniqueIds(jobs) ==> Distinct(DueIds(jobs, now))
  {
    if jobs != [] {
      var n := |jobs| - 1;
      var front := jobs[..n];
      DueIdsExact(front, now);
      forall id
        ensures id in DueIds(jobs, now) <==> exists i :: 0 <= i < |jobs| && jobs[i].id == id && IsDue(jobs[i], now)
      {
        if i :| 0 <= i < |jobs| && jobs[i].id == id && IsDue(jobs[i], now) {
          if i < n {
            assert front[i] == jobs[i];
          }
        }
        if id in DueIds(front, now) {
          var i :| 0 <= i < |front| && front[i].id == id && IsDue(front[i], now);
          assert jobs[i] == front[i];
        }
      }
      if UniqueIds(jobs) {
        assert UniqueIds(front);
        assert jobs[n].id !in DueIds(front, now) by {
          forall i | 0 <= i < |front|
            ensures front[i].id != jobs[n].id
          {
            assert front[i] == jobs[i];
          }
        }
      }
    }
  }

  lemma MayLater(schedule: Schedule, fires: seq<Fire>, id: string, t: int, u: int)
    requires May(schedule, fires, id, t) && t <= u
    ensures May(schedule, fires, id, u)
  {
  }

  lemma MayAfterOther(schedule: Schedule, fires: seq<Fire>, f: Fire, id: string, t: int)
    requires May(schedule, fires, id, t) && f.id != id
    ensures May(schedule, fires + [f], id, t)
  {
  }

  lemma LegalExtends(fires: seq<Fire>, known: map<string, Schedule>, f: Fire)
    requires Legal(fires, known) && f.id in known && May(known[f.id], fires, f.id, f.time)
    ensures Legal(fires + [f], known)
  {
    var all := fires + [f];
    forall k | 0 <= k < |all|
      ensures all[k].id in known && May(known[all[k].id], all[..k], all[k].id, all[k].time)
    {
      if k < |fires| {
        assert all[..k] == fires[..k];
      } else {
        assert all[..k] == fires;
      }
    }
  }

  lemma LegalMoreKnown(fires: seq<Fire>, known: map<string, Schedule>, id: string, schedule: Schedule)
    requires Legal(fires, known) && id !in known
    ensures Legal(fires, known[id := schedule])
  {
  }

  lemma DueStaysAllowed(s: State, now: int)
    requires Inv(s) && s.clock <= now
    ensures forall k :: 0 <= k < |s.due| ==> s.due[k] in s.known && May(s.known[s.due[k]], s.fires, s.due[k], now)
  {
    forall k | 0 <= k < |s.due|
      ensures May(s.known[s.due[k]], s.fires, s.due[k], now)
    {
      MayLater(s.known[s.due[k]], s.fires, s.due[k], s.clock, now);
    }
  }

  // ----- every step keeps the invariant ----------------------------------------------------

  lemma AddKeeps(s: State, e: Event, tick: Ticker)
    requires Inv(s) && Allowed(s, e) && e.op.Add?
    ensures Inv(Step(s, e, tick))
  {
    hide Legal, May;
    var t := Step(s, e, tick);
    DueStaysAllowed(s, e.now);
    LegalMoreKnown(s.fires, s.known, e.op.newId, e.op.schedule);
    ComputedNextIsTimely(e.op.schedule, s.fires, t.known, e.op.newId, e.now, tick);
    forall i | 0 <= i < |t.jobs| && !Busy(t, t.jobs[i].id) && s.running
      ensures Timely(t.jobs[i], t.fires)
    {
      if i < |s.jobs| {
        assert t.jobs[i] == s.jobs[i] && !Busy(s, s.jobs[i].id);
      }
    }
  }

  lemma RemoveKeeps(s: State, e: Event, tick: Ticker)
    requires Inv(s) && Allowed(s, e) && e.op.Remove?
    ensures Inv(Step(s, e, tick))
  {
    hide Legal, May, Removed;
    var t := Step(s, e, tick);
    DueStaysAllowed(s, e.now);
    RemovedFacts(s.jobs, e.op.id, s.known);
    forall i | 0 <= i < |t.jobs| && !Busy(t, t.jobs[i].id) && s.running
      ensures Timely(t.jobs[i], t.fires)
    {
      var k :| 0 <= k < |s.jobs| && s.jobs[k] == t.jobs[i];
      assert !Busy(s, s.jobs[k].id);
    }
  }

  lemma EnableKeeps(s: State, e: Event, tick: Ticker)
    requires Inv(s) && Allowed(s, e) && e.op.Enable?
    ensures Inv(Step(s, e, tick))
  {
    hide Legal, May, IndexOf, ComputeNextRun;
    var t := Step(s, e, tick);
    DueStaysAllowed(s, e.now);
    forall i | 0 <= i < |t.jobs| && !Busy(t, t.jobs[i].id) && s.running
      ensures Timely(t.jobs[i], t.fires)
    {
      assert !Busy(s, s.jobs[i].id);
      ComputedNextIsTimely(s.jobs[i].schedule, s.fires, s.known, s.jobs[i].id, e.now, tick);
    }
  }

  lemma StartKeeps(s: State, e: Event, tick: Ticker)
    requires Inv(s) && Allowed(s, e) && e.op.Start?
    ensures Inv(Step(s, e, tick))
  {
    hide Legal, May, ComputeNextRun;
    var t := Step(s, e, tick);
    if !s.running {
      forall i | 0 <= i < |t.jobs|
        ensures Timely(t.jobs[i], t.fires)
      {
        ComputedNextIsTimely(s.disk[i].schedule, s.fires, s.known, s.disk[i].id, e.now, tick);
      }
    } else {
      DueStaysAllowed(s, e.now);
      forall i | 0 <= i < |t.jobs| && !Busy(t, t.jobs[i].id)
        ensures Timely(t.jobs[i], t.fires)
      {
        assert !Busy(s, s.jobs[i].id);
      }
    }
  }

  lemma CollectKeeps(s: State, e: Event, tick: Ticker)
    requires Inv(s) && Allowed(s, e) && e.op.Collect?
    ensures Inv(Step(s, e, tick))
  {
    hide Legal, May, DueIds;
    if s.running {
      var t := Step(s, e, tick);
      DueIdsExact(s.jobs, e.now);
      forall k | 0 <= k < |t.due|
        ensures t.due[k] in s.known && May(s.known[t.due[k]], s.fires, t.due[k], e.now)
      {
        assert t.due[k] in t.due;
        var i :| 0 <= i < |s.jobs| && s.jobs[i].id == t.due[k] && IsDue(s.jobs[i], e.now);
        assert !Busy(s, s.jobs[i].id) && Timely(s.jobs[i], s.fires);
        MayLater(s.jobs[i].schedule, s.fires, s.jobs[i].id, s.jobs[i].nextRun.value, e.now);
      }
      forall i | 0 <= i < |t.jobs| && !Busy(t, t.jobs[i].id)
        ensures Timely(t.jobs[i], t.fires)
      {
        assert !Busy(s, s.jobs[i].id);
      }
    }
  }

  lemma BeginKeeps(s: State, e: Event, tick: Ticker)
    requires Inv(s) && Allowed(s, e) && e.op.Begin?
    ensures Inv(Step(s, e, tick))
  {
    hide Legal, May, IndexOf;
    var t := Step(s, e, tick);
    var id := s.due[0];
    DueStaysAllowed(s, e.now);
    forall k | 0 <= k < |t.due|
      ensures t.due[k] == s.due[k + 1] && t.due[k] != id
    {
    }
    if IndexOf(s.jobs, id) < |s.jobs| {
      LegalExtends(s.fires, s.known, Fire(id, e.now));
      forall k | 0 <= k < |t.due|
        ensures May(s.known[t.due[k]], t.fires, t.due[k], e.now)
      {
        MayAfterOther(s.known[t.due[k]], s.fires, Fire(id, e.now), t.due[k], e.now);
      }
    }
    if s.running {
      forall i | 0 <= i < |t.jobs| && !Busy(t, t.jobs[i].id)
        ensures Timely(t.jobs[i], t.fires)
      {
        BeginTimely(s, e, tick, i);
      }
    }
  }

  /** The one job that stops being due without firing is gone from the list. */
  lemma BeginTimely(s: State, e: Event, tick: Ticker, i: nat)
    requires Inv(s) && Allowed(s, e) && e.op.Begin? && s.running && i < |s.jobs|
    requires !Busy(Step(s, e, tick), s.jobs[i].id)
    ensures Timely(s.jobs[i], Step(s, e, tick).fires)
  {
    hide Legal, May;
    var id := s.due[0];
    var f := Fire(id, e.now);
    assert s.due == [id] + s.due[1..];
    assert s.jobs[i].id != id;
    assert !Busy(s, s.jobs[i].id);
    if s.jobs[i].enabled && s.jobs[i].nextRun.Some? {
      MayAfterOther(s.jobs[i].schedule, s.fires, f, s.jobs[i].id, s.jobs[i].nextRun.value);
    }
  }

  lemma FinishKeeps(s: State, e: Event, tick: Ticker)
    requires Inv(s) && Allowed(s, e) && e.op.Finish?
    ensures Inv(Step(s, e, tick))
  {
    hide Legal, May, IndexOf, Removed, ComputeNextRun;
    var t := Step(s, e, tick);
    var id := s.executing.value.id;
    DueStaysAllowed(s, e.now);
    RemovedFacts(s.jobs, id, s.known);
    forall i | 0 <= i < |t.jobs| && !Busy(t, t.jobs[i].id) && s.running
      ensures Timely(t.jobs[i], t.fires)
    {
      FinishTimely(s, e, tick, i);
    }
  }

  lemma FinishTimely(s: State, e: Event, tick: Ticker, i: nat)
    requires Inv(s) && Allowed(s, e) && e.op.Finish? && s.running && i < |Step(s, e, tick).jobs|
    requires !Busy(Step(s, e, tick), Step(s, e, tick).jobs[i].id)
    ensures Timely(Step(s, e, tick).jobs[i], s.fires)
  {
    hide Legal, May, Removed, ComputeNextRun;
    var t := Step(s, e, tick);
    var id := s.executing.value.id;
    var n := IndexOf(s.jobs, id);
    RemovedFacts(s.jobs, id, s.known);
    if n == |s.jobs| {
      assert !Busy(s, s.jobs[i].id);
    } else if s.jobs[n].schedule.At? && s.jobs[n].deleteAfterRun {
      var k :| 0 <= k < |s.jobs| && s.jobs[k] == t.jobs[i];
      assert !Busy(s, s.jobs[k].id);
    } else if i != n {
      assert t.jobs[i] == s.jobs[i] && !Busy(s, s.jobs[i].id);
    } else {
      ComputedNextIsTimely(s.jobs[n].schedule, s.fires, s.known, id, e.now, tick);
    }
  }

  lemma StepKeeps(s: State, e: Event, tick: Ticker)
    requires Inv(s) && Allowed(s, e)
    ensures Inv(Step(s, e, tick))
  {
    hide Legal, May;
    match e.op
    case Add(_, _) => AddKeeps(s, e, tick);
    case Remove(_) => RemoveKeeps(s, e, tick);
    case Enable(_, _) => EnableKeeps(s, e, tick);
    case Start => StartKeeps(s, e, tick);
    case Stop => DueStaysAllowed(s, e.now);
    case Collect => CollectKeeps(s, e, tick);
    case Begin => BeginKeeps(s, e, tick);
    case Finish => FinishKeeps(s, e, tick);
    case Crash =>
  }

  // ----- whole runs ------------------------------------------------------------------------

  /** A service over any stored jobs with distinct ids, before it is first started. */
  predicate Initial(s: State) {
    && s.jobs == s.disk && Recorded(s.jobs, s.known)
    && !s.running && s.due == [] && s.executing.None? && s.fires == []
  }

  lemma {:induction false} RunKeeps(s: State, events: seq<Event>, tick: Ticker)
    requires Inv(s) && AllowedRun(s, events, tick)
    ensures Inv(Run(s, events, tick))
    decreases |events|
  {
    hide Inv, Allowed, Step;
    if events != [] {
      StepKeeps(s, events[0], tick);
      RunKeeps(Step(s, events[0], tick), events[1..], tick);
    }
  }

  /** In every run, crashes and failing saves included: a one-time job is called at most once and never before its
      time, and two calls of a repeating job are at least its interval apart. */
  lemma FiringLaw(s: State, events: seq<Event>, tick: Ticker, k: nat)
    requires Initial(s) && AllowedRun(s, events, tick) && k < |Run(s, events, tick).fires|
    ensures var t := Run(s, events, tick);
            var f := t.fires[k];
            && f.id in t.known && !t.known[f.id].UnknownKind?
            && (t.known[f.id].At? ==>
                  && t.known[f.id].at.Some? && t.known[f.id].at.value <= f.time
                  && forall i :: 0 <= i < |t.fires| && t.fires[i].id == f.id ==> i == k)
            && (t.known[f.id].Every? ==>
                  && t.known[f.id].every.Some? && 0 < t.known[f.id].every.value
                  && forall i :: 0 <= i < k && t.fires[i].id == f.id ==>
                       t.fires[i].time + t.known[f.id].every.value <= f.time)
  {
    RunKeeps(s, events, tick);
    var t := Run(s, events, tick);
    var f := t.fires[k];
    assert May(t.known[f.id], t.fires[..k], f.id, f.time);
    forall i | 0 <= i < |t.fires| && t.fires[i].id == f.id && i != k
      ensures !t.known[f.id].At? && (i < k && t.known[f.id].Every? ==> t.fires[i].time + t.known[f.id].every.value <= f.time)
    {
      if i < k {
        assert t.fires[..k][i] == t.fires[i];
      } else {
        assert t.fires[..i][k] == t.fires[k];
        assert May(t.known[f.id], t.fires[..i], f.id, t.fires[i].time);
      }
    }
  }

  /** Waking at the announced time is never in vain, and before it nothing is due. */
  lemma DueExactlyFromWake(jobs: seq<Job>, now: int, wake: Option<int>)
    requires wake.None? <==> forall j :: j in jobs ==> !(j.enabled && j.nextRun.Some?)
    requires wake.Some? ==>
               && (exists j :: j in jobs && j.enabled && j.nextRun == wake)
               && forall j :: j in jobs && j.enabled && j.nextRun.Some? ==> wake.value <= j.nextRun.value
    ensures DueIds(jobs, now) != [] <==> wake.Some? && wake.value <= now
  {
    DueIdsExact(jobs, now);
    if wake.Some? && wake.value <= now {
      var j :| j in jobs && j.enabled && j.nextRun == wake;
      var i :| 0 <= i < |jobs| && jobs[i] == j;
      assert IsDue(jobs[i], now) && j.id in DueIds(jobs, now);
    }
    if DueIds(jobs, now) != [] {
      assert DueIds(jobs, now)[0] in DueIds(jobs, now);
      var i :| 0 <= i < |jobs| && jobs[i].id == DueIds(jobs, now)[0] && IsDue(jobs[i], now);
      assert jobs[i] in jobs;
    }
  }

  /** Disabling a job that has already been collected does not stop it. */
  lemma CollectedJobRuns(s: State, id: string, now: int, saved: bool, tick: Ticker)
    requires s.due != [] && s.due[0] == id && s.executing.None? && s.clock <= now
    ensures var t := Step(s, Event(Enable(id, false), now, saved), tick);
            Step(t, Event(Begin, now, saved), tick).fires ==
            if exists j :: j in s.jobs && j.id == id then s.fires + [Fire(id, now)] else s.fires
  {
    var t := Step(s, Event(Enable(id, false), now, saved), tick);
    var k := IndexOf(s.jobs, id);
    if k < |s.jobs| {
      assert s.jobs[k] in s.jobs && t.jobs[k].id == id;
    }
  }

  /** Removing it does. */
  lemma RemovedJobNeverRuns(s: State, id: string, now: int, saved: bool, tick: Ticker)
    requires s.due != [] && s.due[0] == id && s.executing.None? && s.clock <= now
    ensures var t := Step(s, Event(Remove(id), now, saved), tick);
            Step(t, Event(Begin, now, saved), tick).fires == s.fires
  {
    hide Removed;
    RemovedMembers(s.jobs, id);
  }

  /** A schedule worked out at `now` has come due by `later`: a one-time job at its time if that is still to come, a
      repeating one when its interval is over, a cron expression at its next tick. */
  predicate ComesDue(schedule: Schedule, now: int, later: int, tick: Ticker) {
    match schedule
    case At(at) => at.Some? && now < at.value <= later
    case Every(every) => every.Some? && 0 < every.value && now + every.value <= later
    case Expr(expr) => expr != "" && tick(expr, now).Some? && tick(expr, now).value <= later
    case UnknownKind => false
  }

  /** When a callback returns, a repeating job is armed again from the time of the return and a one-time job never:
      a later check collects the job if and only if it is still there, enabled, and its new time has come. */
  lemma FinishRearms(jobs: seq<Job>, id: string, start: int, now: int, later: int, tick: Ticker, known: map<string, Schedule>)
    requires Recorded(jobs, known)
    ensures id in DueIds(Finished(jobs, id, start, now, tick), later) <==>
            exists j :: j in jobs && j.id == id && j.enabled && !j.schedule.At? && ComesDue(j.schedule, now, later, tick)
  {
    hide DueIds;
    var after := Finished(jobs, id, start, now, tick);
    DueIdsExact(after, later);
    RemovedFacts(jobs, id, known);
    var n := IndexOf(jobs, id);
    if n < |jobs| {
      assert jobs[n] in jobs;
      if !jobs[n].schedule.At? {
        assert after[n].id == id;
      }
    }
  }
}
