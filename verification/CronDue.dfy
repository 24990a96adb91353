/** When a job comes due after it has been added, enabled or recomputed; and that a one-time job is really called. */
module CronDue {
  import opened Options
  import opened Cron
  import opened CronRuns

  // ----- on the job list -------------------------------------------------------------------

  lemma DueIffItsJob(jobs: seq<Job>, i: nat, now: int)
    requires UniqueIds(jobs) && i < |jobs|
    ensures jobs[i].id in DueIds(jobs, now) <==> IsDue(jobs[i], now)
  {
    hide DueIds;
    DueIdsExact(jobs, now);
  }

  /** A new job comes due exactly when its schedule does. */
  lemma AddedDue(jobs: seq<Job>, id: string, schedule: Schedule, now: int, later: int, tick: Ticker)
    requires UniqueIds(jobs) && forall j :: j in jobs ==> j.id != id
    ensures id in DueIds(jobs + [NewJob(id, schedule, now, tick)], later) <==> ComesDue(schedule, now, later, tick)
  {
    var all := jobs + [NewJob(id, schedule, now, tick)];
    forall i | 0 <= i < |jobs|
      ensures all[i].id != id
    {
      assert all[i] in jobs;
    }
    DueIffItsJob(all, |jobs|, later);
  }

  /** An enabled job comes due exactly when its schedule does, a disabled one never. */
  lemma ToggledDue(jobs: seq<Job>, i: nat, on: bool, now: int, later: int, tick: Ticker)
    requires UniqueIds(jobs) && i < |jobs|
    ensures jobs[i].id in DueIds(Toggled(jobs, jobs[i].id, on, now, tick), later) <==>
            on && ComesDue(jobs[i].schedule, now, later, tick)
  {
    DueIffItsJob(Toggled(jobs, jobs[i].id, on, now, tick), i, later);
  }

  /** After a start a job comes due exactly if it is enabled and its schedule does. */
  lemma RecomputedDue(jobs: seq<Job>, i: nat, now: int, later: int, tick: Ticker)
    requires UniqueIds(jobs) && i < |jobs| && (!jobs[i].enabled ==> jobs[i].nextRun.None?)
    ensures jobs[i].id in DueIds(Recomputed(jobs, now, tick), later) <==>
            jobs[i].enabled && ComesDue(jobs[i].schedule, now, later, tick)
  {
    DueIffItsJob(Recomputed(jobs, now, tick), i, later);
  }

  /** A one-time job is gone for good once its callback has returned. */
  lemma OneTimeGone(jobs: seq<Job>, id: string, at: Option<int>, added: int, start: int, now: int, tick: Ticker)
    requires forall j :: j in jobs ==> j.id != id
    ensures Finished(jobs + [NewJob(id, At(at), added, tick)], id, start, now, tick) == jobs
  {
    var all := jobs + [NewJob(id, At(at), added, tick)];
    assert all[..|jobs|] == jobs;
    OthersStay(jobs, id);
    LastIndex(jobs, NewJob(id, At(at), added, tick));
  }

  lemma {:induction false} LastIndex(jobs: seq<Job>, job: Job)
    requires forall j :: j in jobs ==> j.id != job.id
    ensures IndexOf(jobs + [job], job.id) == |jobs|
    decreases |jobs|
  {
    if jobs != [] {
      assert (jobs + [job])[1..] == jobs[1..] + [job];
      LastIndex(jobs[1..], job);
    }
  }

  lemma {:induction false} OthersStay(jobs: seq<Job>, id: string)
    requires forall j :: j in jobs ==> j.id != id
    ensures Removed(jobs, id) == jobs
  {
    if jobs != [] {
      OthersStay(jobs[..|jobs| - 1], id);
    }
  }

  /** What the return of a callback does to the list, field by field: the other jobs stay as they are; the job itself has
      run at `start`; a one-time job ends, either removed or disabled, and any other stays enabled as it was. */
  lemma FinishedExact(jobs: seq<Job>, i: nat, start: int, now: int, tick: Ticker, known: map<string, Schedule>)
    requires Recorded(jobs, known) && i < |jobs|
    ensures var j, after := jobs[i], Finished(jobs, jobs[i].id, start, now, tick);
            if j.schedule.At? && j.deleteAfterRun then
              after == jobs[..i] + jobs[i + 1..]
            else
              && |after| == |jobs| && (forall k :: 0 <= k < |jobs| && k != i ==> after[k] == jobs[k])
              && after[i].lastRun == Some(start) && after[i].id == j.id && after[i].schedule == j.schedule
              && after[i].deleteAfterRun == j.deleteAfterRun
              && after[i].enabled == (j.enabled && !j.schedule.At?) && (j.schedule.At? ==> after[i].nextRun.None?)
  {
    hide Removed, ComputeNextRun;
    RemovedOne(jobs, i);
  }

  lemma {:induction false} RemovedOne(jobs: seq<Job>, i: nat)
    requires UniqueIds(jobs) && i < |jobs|
    ensures Removed(jobs, jobs[i].id) == jobs[..i] + jobs[i + 1..]
  {
    var n := |jobs| - 1;
    var front := jobs[..n];
    if i < n {
      RemovedOne(front, i);
      assert jobs[i + 1..] == front[i + 1..] + [jobs[n]];
    } else {
      forall j | j in front
        ensures j.id != jobs[n].id
      {
        var k :| 0 <= k < n && front[k] == j;
        assert jobs[k].id != jobs[n].id;
      }
      OthersStay(front, jobs[n].id);
    }
  }

  // ----- over runs: a one-time job is called -----------------------------------------------

  /** There is a job of this id, and it waits for t. */
  predicate Armed(jobs: seq<Job>, id: string, t: int) {
    && (exists i :: 0 <= i < |jobs| && jobs[i].id == id)
    && forall i :: 0 <= i < |jobs| && jobs[i].id == id ==>
         jobs[i].enabled && jobs[i].schedule == At(Some(t)) && jobs[i].nextRun == Some(t)
  }

  predicate Called(s: State, id: string) {
    exists k :: 0 <= k < |s.fires| && s.fires[k].id == id
  }

  /** The job waits, in memory and on disk, and has not been collected. */
  predicate Waits(s: State, id: string, t: int) {
    && Armed(s.jobs, id, t) && Armed(s.disk, id, t) && !Called(s, id)
    && id in s.known && id !in s.due && (s.executing.Some? ==> s.executing.value.id != id)
  }

  /** The job has been collected and is still to be called. */
  predicate Picked(s: State, id: string) {
    && (exists i :: 0 <= i < |s.jobs| && s.jobs[i].id == id) && !Called(s, id)
    && id in s.known && id in s.due && (s.executing.Some? ==> s.executing.value.id != id)
  }

  /** Until the job is called nobody removes, enables or disables it, and from its time on the service neither crashes nor
      is started afresh. */
  ghost predicate LeftAlone(s: State, events: seq<Event>, id: string, t: int, tick: Ticker)
    requires AllowedRun(s, events, tick)
    decreases |events|
  {
    events == []
    || Called(s, id)
    || (var e := events[0];
        && e.op != Remove(id) && !(e.op.Enable? && e.op.jobId == id)
        && (e.op.Crash? || (e.op.Start? && !s.running) ==> e.now < t)
        && LeftAlone(Step(s, e, tick), events[1..], id, t, tick))
  }

  /** A check of the running service takes place at t or later. */
  ghost predicate Checked(s: State, events: seq<Event>, t: int, tick: Ticker)
    requires AllowedRun(s, events, tick)
    decreases |events|
  {
    events != []
    && ((events[0].op.Collect? && s.running && t <= events[0].now)
        || Checked(Step(s, events[0], tick), events[1..], t, tick))
  }

  lemma CalledStays(s: State, e: Event, tick: Ticker, id: string)
    requires Allowed(s, e) && Called(s, id)
    ensures Called(Step(s, e, tick), id)
  {
    var t := Step(s, e, tick);
    var k :| 0 <= k < |s.fires| && s.fires[k].id == id;
    assert s.fires <= t.fires && t.fires[k].id == id;
  }

  lemma {:induction false} CalledForGood(s: State, events: seq<Event>, tick: Ticker, id: string)
    requires AllowedRun(s, events, tick) && Called(s, id)
    ensures Called(Run(s, events, tick), id)
    decreases |events|
  {
    hide Called, Allowed, Step;
    if events != [] {
      CalledStays(s, events[0], tick, id);
      CalledForGood(Step(s, events[0], tick), events[1..], tick, id);
    }
  }

  lemma RemovedArmed(jobs: seq<Job>, other: string, id: string, t: int)
    requires Armed(jobs, id, t) && other != id
    ensures Armed(Removed(jobs, other), id, t)
  {
    hide Removed;
    RemovedMembers(jobs, other);
    var i :| 0 <= i < |jobs| && jobs[i].id == id;
    RemovedHolds(jobs, other, jobs[i]);
  }

  lemma {:induction false} RemovedHolds(jobs: seq<Job>, id: string, j: Job)
    requires j in jobs && j.id != id
    ensures j in Removed(jobs, id)
  {
    var n := |jobs| - 1;
    if j != jobs[n] {
      assert j in jobs[..n];
      RemovedHolds(jobs[..n], id, j);
    }
  }

  lemma ToggledArmed(jobs: seq<Job>, other: string, on: bool, now: int, tick: Ticker, id: string, t: int)
    requires Armed(jobs, id, t) && other != id
    ensures Armed(Toggled(jobs, other, on, now, tick), id, t)
  {
    hide IndexOf, ComputeNextRun;
    var i :| 0 <= i < |jobs| && jobs[i].id == id;
    assert Toggled(jobs, other, on, now, tick)[i].id == id;
  }

  lemma FinishedArmed(jobs: seq<Job>, other: string, start: int, now: int, tick: Ticker, id: string, t: int)
    requires Armed(jobs, id, t) && other != id
    ensures Armed(Finished(jobs, other, start, now, tick), id, t)
  {
    hide IndexOf, ComputeNextRun, Removed;
    RemovedArmed(jobs, other, id, t);
    var i :| 0 <= i < |jobs| && jobs[i].id == id;
    var after := Finished(jobs, other, start, now, tick);
    if after != Removed(jobs, other) {
      assert after[i].id == id;
    }
  }

  lemma RecomputedArmed(jobs: seq<Job>, now: int, tick: Ticker, id: string, t: int)
    requires Armed(jobs, id, t) && now < t
    ensures Armed(Recomputed(jobs, now, tick), id, t)
  {
    var i :| 0 <= i < |jobs| && jobs[i].id == id;
    assert Recomputed(jobs, now, tick)[i].id == id;
  }

  lemma ClearedArmed(jobs: seq<Job>, due: seq<string>, id: string, t: int)
    requires Armed(jobs, id, t) && id !in due
    ensures Armed(Cleared(jobs, due), id, t)
  {
    var i :| 0 <= i < |jobs| && jobs[i].id == id;
    assert Cleared(jobs, due)[i].id == id;
  }

  lemma AddedArmed(jobs: seq<Job>, job: Job, id: string, t: int)
    requires Armed(jobs, id, t) && job.id != id
    ensures Armed(jobs + [job], id, t)
  {
    var i :| 0 <= i < |jobs| && jobs[i].id == id;
    assert (jobs + [job])[i].id == id;
  }

  /** A waiting job is due exactly from its time on. */
  lemma ArmedDue(jobs: seq<Job>, id: string, t: int, now: int)
    requires Armed(jobs, id, t)
    ensures id in DueIds(jobs, now) <==> t <= now
  {
    hide DueIds;
    DueIdsExact(jobs, now);
    var i :| 0 <= i < |jobs| && jobs[i].id == id;
    assert IsDue(jobs[i], now) <==> t <= now;
  }

  /** One step of a waiting job: it goes on waiting, or a check at its time or later collects it. */
  lemma WaitStep(s: State, e: Event, tick: Ticker, id: string, t: int)
    requires Allowed(s, e) && Waits(s, id, t)
    requires e.op != Remove(id) && !(e.op.Enable? && e.op.jobId == id)
    requires e.op.Crash? || (e.op.Start? && !s.running) ==> e.now < t
    ensures if e.op.Collect? && s.running && t <= e.now then Picked(Step(s, e, tick), id)
            else Waits(Step(s, e, tick), id, t)
  {
    hide Armed, Removed, Toggled, Finished, Recomputed, Cleared, DueIds, IndexOf;
    var w := Step(s, e, tick);
    match e.op
    case Add(other, schedule) => AddedArmed(s.jobs, NewJob(other, schedule, e.now, tick), id, t);
    case Remove(other) => RemovedArmed(s.jobs, other, id, t);
    case Enable(other, on) => ToggledArmed(s.jobs, other, on, e.now, tick, id, t);
    case Start =>
      if !s.running {
        RecomputedArmed(s.disk, e.now, tick, id, t);
      }
    case Collect =>
      if s.running {
        ArmedDue(s.jobs, id, t, e.now);
        if t <= e.now {
          StillThere(s.jobs, DueIds(s.jobs, e.now), id, t);
        } else {
          ClearedArmed(s.jobs, DueIds(s.jobs, e.now), id, t);
        }
      }
    case Begin => NotFirst(s, e, tick, id);
    case Finish => FinishedArmed(s.jobs, s.executing.value.id, s.executing.value.time, e.now, tick, id, t);
    case _ =>
  }

  lemma StillThere(jobs: seq<Job>, due: seq<string>, id: string, t: int)
    requires Armed(jobs, id, t)
    ensures exists i :: 0 <= i < |Cleared(jobs, due)| && Cleared(jobs, due)[i].id == id
  {
    var i :| 0 <= i < |jobs| && jobs[i].id == id;
    assert Cleared(jobs, due)[i].id == id;
  }

  /** Beginning another job does not call this one. */
  lemma NotFirst(s: State, e: Event, tick: Ticker, id: string)
    requires Allowed(s, e) && e.op.Begin? && s.due[0] != id && !Called(s, id)
    ensures var w := Step(s, e, tick); !Called(w, id) && (id in w.due <==> id in s.due)
    ensures var w := Step(s, e, tick); w.executing.Some? ==> w.executing.value.id != id
  {
    hide IndexOf;
    assert s.due == [s.due[0]] + s.due[1..];
  }

  /** One step of a collected job: it is called, or still to be called. */
  lemma PickedStep(s: State, e: Event, tick: Ticker, id: string, t: int)
    requires Allowed(s, e) && Picked(s, id) && t <= s.clock
    requires e.op != Remove(id) && !(e.op.Enable? && e.op.jobId == id)
    requires e.op.Crash? || (e.op.Start? && !s.running) ==> e.now < t
    ensures Picked(Step(s, e, tick), id) || Called(Step(s, e, tick), id)
  {
    hide Removed, Toggled, Finished, Recomputed, DueIds, IndexOf;
    var w := Step(s, e, tick);
    var i :| 0 <= i < |s.jobs| && s.jobs[i].id == id;
    match e.op
    case Add(_, _) => assert w.jobs[i].id == id;
    case Remove(other) => RemovedHolds(s.jobs, other, s.jobs[i]);
    case Enable(other, on) => ToggledHas(s.jobs, other, on, e.now, tick, id);
    case Begin =>
      if s.due[0] == id {
        HasIndex(s.jobs, id);
        assert w.fires[|s.fires|].id == id;
      } else {
        NotFirst(s, e, tick, id);
      }
    case Finish => FinishedHas(s.jobs, s.executing.value.id, s.executing.value.time, e.now, tick, id);
    case _ =>
  }

  lemma HasIndex(jobs: seq<Job>, id: string)
    requires exists i :: 0 <= i < |jobs| && jobs[i].id == id
    ensures IndexOf(jobs, id) < |jobs|
  {
  }

  lemma ToggledHas(jobs: seq<Job>, other: string, on: bool, now: int, tick: Ticker, id: string)
    requires exists i :: 0 <= i < |jobs| && jobs[i].id == id
    ensures var after := Toggled(jobs, other, on, now, tick); exists i :: 0 <= i < |after| && after[i].id == id
  {
    hide IndexOf, ComputeNextRun;
    var i :| 0 <= i < |jobs| && jobs[i].id == id;
    assert Toggled(jobs, other, on, now, tick)[i].id == id;
  }

  lemma FinishedHas(jobs: seq<Job>, other: string, start: int, now: int, tick: Ticker, id: string)
    requires other != id && exists i :: 0 <= i < |jobs| && jobs[i].id == id
    ensures var after := Finished(jobs, other, start, now, tick); exists i :: 0 <= i < |after| && after[i].id == id
  {
    hide IndexOf, ComputeNextRun, Removed;
    var i :| 0 <= i < |jobs| && jobs[i].id == id;
    RemovedHolds(jobs, other, jobs[i]);
    var after := Finished(jobs, other, start, now, tick);
    if after != Removed(jobs, other) {
      assert after[i].id == id;
    }
  }

  lemma {:induction false} PickedRun(s: State, events: seq<Event>, tick: Ticker, id: string, t: int)
    requires AllowedRun(s, events, tick) && LeftAlone(s, events, id, t, tick) && t <= s.clock
    requires Picked(s, id) || Called(s, id)
    ensures var w := Run(s, events, tick); Picked(w, id) || Called(w, id)
    decreases |events|
  {
    hide Called, Picked, Step;
    if Called(s, id) {
      CalledForGood(s, events, tick, id);
    } else if events != [] {
      PickedStep(s, events[0], tick, id, t);
      ClockForward(s, events[0], tick);
      PickedRun(Step(s, events[0], tick), events[1..], tick, id, t);
    }
  }

  lemma ClockForward(s: State, e: Event, tick: Ticker)
    requires Allowed(s, e)
    ensures Step(s, e, tick).clock == e.now >= s.clock
  {
    hide Removed, Toggled, Finished, Recomputed, Cleared, DueIds, IndexOf;
  }

  lemma {:induction false} WaitRun(s: State, events: seq<Event>, tick: Ticker, id: string, t: int)
    requires AllowedRun(s, events, tick) && LeftAlone(s, events, id, t, tick) && Waits(s, id, t)
    ensures var w := Run(s, events, tick);
            if Checked(s, events, t, tick) then Picked(w, id) || Called(w, id) else Waits(w, id, t)
    decreases |events|
  {
    hide Picked, Step, Armed;
    if events != [] {
      var e := events[0];
      WaitStep(s, e, tick, id, t);
      ClockForward(s, e, tick);
      if e.op.Collect? && s.running && t <= e.now {
        PickedRun(Step(s, e, tick), events[1..], tick, id, t);
      } else {
        WaitRun(Step(s, e, tick), events[1..], tick, id, t);
      }
    }
  }

  /** A reminder is delivered.  In every run of the service, other jobs, failing saves and crashes included: a one-time
      job that was added and saved before its time, and left alone until it is called, is called if and only if the
      running service has checked at its time or later and has worked the job off; and then exactly once, not early. */
  lemma ReminderLaw(s0: State, before: seq<Event>, id: string, t: int, now: int, after: seq<Event>, tick: Ticker)
    requires Initial(s0) && AllowedRun(s0, before, tick)
    requires var s, e := Run(s0, before, tick), Event(Add(id, At(Some(t))), now, true);
             && Allowed(s, e) && now < t
             && AllowedRun(Step(s, e, tick), after, tick) && LeftAlone(Step(s, e, tick), after, id, t, tick)
    ensures var s := Step(Run(s0, before, tick), Event(Add(id, At(Some(t))), now, true), tick);
            var w := Run(s, after, tick);
            && (Called(w, id) <==> Checked(s, after, t, tick) && id !in w.due)
            && (forall k :: 0 <= k < |w.fires| && w.fires[k].id == id ==> t <= w.fires[k].time)
            && forall k, l :: 0 <= k < |w.fires| && 0 <= l < |w.fires| && w.fires[k].id == w.fires[l].id == id ==> k == l
  {
    hide Inv, ExecutingKnown, Allowed, Waits, Picked, Called, LeftAlone, Checked, Step, Run, AllowedRun;
    var s1, e := Run(s0, before, tick), Event(Add(id, At(Some(t))), now, true);
    InitialInv(s0);
    RunKeeps(s0, before, tick);
    RunExecutingKnown(s0, before, tick);
    AddedWaits(s1, id, t, now, tick);
    StepKeeps(s1, e, tick);
    var s := Step(s1, e, tick);
    RunKeeps(s, after, tick);
    WaitRun(s, after, tick, id, t);
    KnownForGood(s, after, tick, id);
    AtMostOnce(Run(s, after, tick), id, t);
  }

  lemma InitialInv(s: State)
    requires Initial(s)
    ensures Inv(s) && ExecutingKnown(s)
  {
  }

  predicate ExecutingKnown(s: State) {
    s.executing.Some? ==> s.executing.value.id in s.known
  }

  lemma {:induction false} RunExecutingKnown(s: State, events: seq<Event>, tick: Ticker)
    requires Inv(s) && ExecutingKnown(s) && AllowedRun(s, events, tick)
    ensures ExecutingKnown(Run(s, events, tick))
    decreases |events|
  {
    hide Inv, Step, ExecutingKnown;
    if events != [] {
      StepKeeps(s, events[0], tick);
      StepExecutingKnown(s, events[0], tick);
      RunExecutingKnown(Step(s, events[0], tick), events[1..], tick);
    }
  }

  lemma StepExecutingKnown(s: State, e: Event, tick: Ticker)
    requires Inv(s) && ExecutingKnown(s) && Allowed(s, e)
    ensures ExecutingKnown(Step(s, e, tick))
  {
    hide Removed, Toggled, Finished, Recomputed, Cleared, DueIds, IndexOf, Legal, May, Recorded;
  }

  lemma AddedWaits(s: State, id: string, t: int, now: int, tick: Ticker)
    requires Inv(s) && ExecutingKnown(s) && Allowed(s, Event(Add(id, At(Some(t))), now, true)) && now < t
    ensures var w := Step(s, Event(Add(id, At(Some(t))), now, true), tick);
            Waits(w, id, t) && id in w.known && w.known[id] == At(Some(t))
  {
    var w := Step(s, Event(Add(id, At(Some(t))), now, true), tick);
    assert w.jobs[|s.jobs|].id == id;
    forall k | 0 <= k < |s.fires|
      ensures s.fires[k].id != id
    {
    }
  }

  lemma {:induction false} KnownForGood(s: State, events: seq<Event>, tick: Ticker, id: string)
    requires AllowedRun(s, events, tick) && id in s.known
    ensures var w := Run(s, events, tick); id in w.known && w.known[id] == s.known[id]
    decreases |events|
  {
    hide Removed, Toggled, Finished, Recomputed, Cleared, DueIds, IndexOf;
    if events != [] {
      KnownForGood(Step(s, events[0], tick), events[1..], tick, id);
    }
  }

  lemma AtMostOnce(w: State, id: string, t: int)
    requires Inv(w) && id in w.known && w.known[id] == At(Some(t))
    ensures Called(w, id) ==> id !in w.due && !Picked(w, id) && !Waits(w, id, t)
    ensures Picked(w, id) ==> id in w.due
    ensures Waits(w, id, t) ==> !Called(w, id)
    ensures forall k :: 0 <= k < |w.fires| && w.fires[k].id == id ==> t <= w.fires[k].time
    ensures forall k, l :: 0 <= k < |w.fires| && 0 <= l < |w.fires| && w.fires[k].id == w.fires[l].id == id ==> k == l
  {
    forall l | 0 <= l < |w.fires| && w.fires[l].id == id
      ensures t <= w.fires[l].time && forall k :: 0 <= k < l ==> w.fires[k].id != id
    {
      assert May(w.known[id], w.fires[..l], id, w.fires[l].time);
      assert forall k :: 0 <= k < l ==> w.fires[..l][k] == w.fires[k];
    }
  }
}
