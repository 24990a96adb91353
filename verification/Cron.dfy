/** The cron service: its locked sections, and what they guarantee about firing over whole runs with crashes and
    failing saves. */
module Cron {
  import opened Options

  datatype Schedule = At(at: Option<int>) | Every(every: Option<int>) | Expr(expr: string) | UnknownKind

  datatype Job = Job(
    id: string,
    enabled: bool,
    schedule: Schedule,
    nextRun: Option<int>,
    lastRun: Option<int>,
    deleteAfterRun: bool)

  /** The tick of a cron expression after a time, if the expression is valid. */
  type Ticker = (string, int) -> Option<int>

  function ComputeNextRun(s: Schedule, now: int, tick: Ticker): Option<int> {
    match s
    case At(at) => if at.Some? && at.value > now then at else None
    case Every(every) => if every.None? || every.value <= 0 then None else Some(now + every.value)
    case Expr(expr) => if expr == "" then None else tick(expr, now)
    case UnknownKind => None
  }

  // ----- the locked sections, on the job list ----------------------------------------------

  function IndexOf(jobs: seq<Job>, id: string): (i: nat)
    ensures i <= |jobs|
    ensures i < |jobs| ==> jobs[i].id == id
    ensures forall k :: 0 <= k < i ==> jobs[k].id != id
  {
    if jobs == [] || jobs[0].id == id then 0 else 1 + IndexOf(jobs[1..], id)
  }

  predicate IsDue(j: Job, now: int) {
    j.enabled && j.nextRun.Some? && j.nextRun.value <= now
  }

  function DueIds(jobs: seq<Job>, now: int): seq<string> {
    if jobs == [] then []
    else DueIds(jobs[..|jobs| - 1], now) + (if IsDue(jobs[|jobs| - 1], now) then [jobs[|jobs| - 1].id] else [])
  }

  function ClearedJob(j: Job, due: seq<string>): Job {
    if j.id in due then j.(nextRun := None) else j
  }

  function Cleared(jobs: seq<Job>, due: seq<string>): (r: seq<Job>)
    ensures |r| == |jobs| && forall i :: 0 <= i < |r| ==> r[i] == ClearedJob(jobs[i], due)
  {
    seq(|jobs|, i requires 0 <= i < |jobs| => ClearedJob(jobs[i], due))
  }

  function RecomputedJob(j: Job, now: int, tick: Ticker): Job {
    if j.enabled then j.(nextRun := ComputeNextRun(j.schedule, now, tick)) else j
  }

  function Recomputed(jobs: seq<Job>, now: int, tick: Ticker): (r: seq<Job>)
    ensures |r| == |jobs| && forall i :: 0 <= i < |r| ==> r[i] == RecomputedJob(jobs[i], now, tick)
  {
    seq(|jobs|, i requires 0 <= i < |jobs| => RecomputedJob(jobs[i], now, tick))
  }

  function Removed(jobs: seq<Job>, id: string): seq<Job> {
    if jobs == [] then []
    else Removed(jobs[..|jobs| - 1], id) + (if jobs[|jobs| - 1].id != id then [jobs[|jobs| - 1]] else [])
  }

  function NewJob(id: string, schedule: Schedule, now: int, tick: Ticker): Job {
    Job(id, true, schedule, ComputeNextRun(schedule, now, tick), None, schedule.At?)
  }

  function Toggled(jobs: seq<Job>, id: string, enabled: bool, now: int, tick: Ticker): seq<Job> {
    var i := IndexOf(jobs, id);
    if i == |jobs| then jobs
    else jobs[i := jobs[i].(enabled := enabled,
                            nextRun := if enabled then ComputeNextRun(jobs[i].schedule, now, tick) else None)]
  }

  /** After the callback: `start` is when it was called, `now` when it came back. */
  function Finished(jobs: seq<Job>, id: string, start: int, now: int, tick: Ticker): seq<Job> {
    var i := IndexOf(jobs, id);
    if i == |jobs| then jobs
    else
      var j := jobs[i].(lastRun := Some(start));
      if j.schedule.At? then
        if j.deleteAfterRun then Removed(jobs, id) else jobs[i := j.(enabled := false, nextRun := None)]
      else jobs[i := j.(nextRun := ComputeNextRun(j.schedule, now, tick))]
  }

  class CronService {
    const tick: Ticker
    var jobs: seq<Job>
    var disk: seq<Job>
    var running: bool

    constructor (stored: seq<Job>, tick: Ticker)
      ensures jobs == disk == stored && !running && this.tick == tick
    {
      this.tick := tick;
      jobs, disk, running := stored, stored, false;
    }

    /** A save either replaces the file or leaves it as it was. */
    method SaveStoreUnsafe(saved: bool) returns (ok: bool)
      modifies `disk
      ensures ok == saved && disk == if saved then jobs else old(disk)
    {
      if saved {
        disk := jobs;
      }
      return saved;
    }

    method Start(now: int, saved: bool) returns (ok: bool)
      modifies this
      ensures old(running) ==> ok && jobs == old(jobs) && disk == old(disk) && running
      ensures !old(running) ==>
                && jobs == Recomputed(old(disk), now, tick)
                && disk == (if saved then jobs else old(disk)) && ok == running == saved
    {
      if running {
        return true;
      }
      jobs := disk;
      RecomputeNextRuns(now);
      ok := SaveStoreUnsafe(saved);
      if !ok {
        return false;
      }
      running := true;
    }

    method Stop()
      modifies `running
      ensures !running
    {
      running := false;
    }

    method RecomputeNextRuns(now: int)
      modifies `jobs
      ensures jobs == Recomputed(old(jobs), now, tick)
    {
      var i := 0;
      while i < |jobs|
        invariant 0 <= i <= |jobs| == |old(jobs)|
        invariant forall k :: 0 <= k < i ==> jobs[k] == RecomputedJob(old(jobs)[k], now, tick)
        invariant forall k :: i <= k < |jobs| ==> jobs[k] == old(jobs)[k]
      {
        var job := jobs[i];
        if job.enabled {
          jobs := jobs[i := job.(nextRun := ComputeNextRun(job.schedule, now, tick))];
        }
        i := i + 1;
      }
    }

    /** The first locked section of a check: which jobs are due, and their next runs cleared before any runs. */
    method CollectDue(now: int, saved: bool) returns (due: seq<string>)
      modifies `jobs, `disk
      ensures !running ==> due == [] && jobs == old(jobs) && disk == old(disk)
      ensures running ==>
                && due == DueIds(old(jobs), now) && jobs == Cleared(old(jobs), due)
                && disk == if saved then jobs else old(disk)
    {
      due := [];
      if !running {
        return;
      }
      for i := 0 to |jobs|
        invariant due == DueIds(jobs[..i], now) && jobs == old(jobs) && disk == old(disk)
      {
        assert jobs[..i + 1][..i] == jobs[..i];
        var job := jobs[i];
        if job.enabled && job.nextRun.Some? && job.nextRun.value <= now {
          due := due + [job.id];
        }
      }
      assert jobs[..|jobs|] == jobs;
      var i := 0;
      while i < |jobs|
        invariant 0 <= i <= |jobs| == |old(jobs)| && disk == old(disk)
        invariant forall k :: 0 <= k < i ==> jobs[k] == ClearedJob(old(jobs)[k], due)
        invariant forall k :: i <= k < |jobs| ==> jobs[k] == old(jobs)[k]
      {
        if jobs[i].id in due {
          jobs := jobs[i := jobs[i].(nextRun := None)];
        }
        i := i + 1;
      }
      var _ := SaveStoreUnsafe(saved);
    }

    /** Looks a due job up; None means it is gone and will not run. */
    method FindJob(id: string) returns (job: Option<Job>)
      ensures job == if IndexOf(jobs, id) < |jobs| then Some(jobs[IndexOf(jobs, id)]) else None
    {
      var i := IndexOfJob(id);
      return if i < |jobs| then Some(jobs[i]) else None;
    }

    method IndexOfJob(id: string) returns (i: nat)
      ensures i == IndexOf(jobs, id)
    {
      i := 0;
      while i < |jobs|
        invariant 0 <= i <= |jobs| && IndexOf(jobs, id) == i + IndexOf(jobs[i..], id)
      {
        assert jobs[i..][0] == jobs[i] && jobs[i..][1..] == jobs[i + 1..];
        if jobs[i].id == id {
          return i;
        }
        i := i + 1;
      }
    }

    method FinishJob(id: string, start: int, now: int, saved: bool)
      modifies `jobs, `disk
      ensures jobs == Finished(old(jobs), id, start, now, tick)
      ensures disk == if saved && IndexOf(old(jobs), id) < |old(jobs)| then jobs else old(disk)
    {
      var i := IndexOfJob(id);
      if i == |jobs| {
        return;
      }
      var job := jobs[i].(lastRun := Some(start));
      if job.schedule.At? {
        if job.deleteAfterRun {
          RemoveJobUnsafe(id);
        } else {
          jobs := jobs[i := job.(enabled := false, nextRun := None)];
        }
      } else {
        jobs := jobs[i := job.(nextRun := ComputeNextRun(job.schedule, now, tick))];
      }
      var _ := SaveStoreUnsafe(saved);
    }

    method RemoveJobUnsafe(id: string)
      modifies `jobs
      ensures jobs == Removed(old(jobs), id)
    {
      var kept: seq<Job> := [];
      for i := 0 to |jobs|
        invariant kept == Removed(jobs[..i], id)
      {
        assert jobs[..i + 1][..i] == jobs[..i];
        if jobs[i].id != id {
          kept := kept + [jobs[i]];
        }
      }
      assert jobs[..|jobs|] == jobs;
      jobs := kept;
    }

    method RemoveJob(id: string, saved: bool) returns (removed: bool)
      modifies `jobs, `disk
      ensures jobs == Removed(old(jobs), id)
      ensures removed <==> |jobs| < |old(jobs)|
      ensures disk == if removed && saved then jobs else old(disk)
    {
      var before := |jobs|;
      RemoveJobUnsafe(id);
      removed := |jobs| < before;
      if removed {
        var _ := SaveStoreUnsafe(saved);
      }
    }

    method AddJob(id: string, schedule: Schedule, now: int, saved: bool) returns (ok: bool)
      modifies `jobs, `disk
      ensures jobs == old(jobs) + [NewJob(id, schedule, now, tick)]
      ensures ok == saved && disk == if saved then jobs else old(disk)
    {
      var job := Job(id, true, schedule, ComputeNextRun(schedule, now, tick), None, schedule.At?);
      jobs := jobs + [job];
      ok := SaveStoreUnsafe(saved);
    }

    method EnableJob(id: string, enabled: bool, now: int, saved: bool) returns (found: bool)
      modifies `jobs, `disk
      ensures jobs == Toggled(old(jobs), id, enabled, now, tick)
      ensures found <==> IndexOf(old(jobs), id) < |old(jobs)|
      ensures disk == if found && saved then jobs else old(disk)
    {
      var i := IndexOfJob(id);
      if i == |jobs| {
        return false;
      }
      var job := jobs[i].(enabled := enabled);
      if enabled {
        job := job.(nextRun := ComputeNextRun(job.schedule, now, tick));
      } else {
        job := job.(nextRun := None);
      }
      jobs := jobs[i := job];
      var _ := SaveStoreUnsafe(saved);
      return true;
    }

    /** The earliest next run of an enabled job. */
    method GetNextWakeMS() returns (wake: Option<int>)
      ensures wake.None? <==> forall j :: j in jobs ==> !(j.enabled && j.nextRun.Some?)
      ensures wake.Some? ==>
                && (exists j :: j in jobs && j.enabled && j.nextRun == wake)
                && forall j :: j in jobs && j.enabled && j.nextRun.Some? ==> wake.value <= j.nextRun.value
    {
      wake := None;
      for i := 0 to |jobs|
        invariant wake.None? <==> forall k :: 0 <= k < i ==> !(jobs[k].enabled && jobs[k].nextRun.Some?)
        invariant wake.Some? ==> exists k :: 0 <= k < i && jobs[k].enabled && jobs[k].nextRun == wake
        invariant wake.Some? ==>
                    forall k :: 0 <= k < i && jobs[k].enabled && jobs[k].nextRun.Some? ==> wake.value <= jobs[k].nextRun.value
      {
        var job := jobs[i];
        if job.enabled && job.nextRun.Some? {
          if wake.None? || job.nextRun.value < wake.value {
            wake := job.nextRun;
          }
        }
      }
    }
  }
}
