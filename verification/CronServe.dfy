/** The service's methods perform the runs that the firing laws are about. */
module CronServe {
  import opened Options
  import opened Cron
  import opened CronRuns

  /** The service is in this state. */
  ghost predicate Shows(svc: CronService, s: State)
    reads svc
  {
    svc.jobs == s.jobs && svc.disk == s.disk && svc.running == s.running
  }

  /** The operations of users and the locked sections of the service's loop, one event at a time.  A crash leaves what is
      on disk to a new service. */
  method Serve(svc: CronService, ghost s: State, e: Event, due: seq<string>, executing: Option<Fire>)
    returns (next: CronService, due': seq<string>, executing': Option<Fire>)
    requires Shows(svc, s) && s.due == due && s.executing == executing && Allowed(s, e)
    modifies svc
    ensures next == svc || fresh(next)
    ensures next.tick == svc.tick
    ensures var t := Step(s, e, svc.tick); Shows(next, t) && t.due == due' && t.executing == executing'
  {
    next, due', executing' := svc, due, executing;
    match e.op
    case Add(id, schedule) =>
      var ok := svc.AddJob(id, schedule, e.now, e.saved);
    case Remove(id) =>
      var removed := svc.RemoveJob(id, e.saved);
    case Enable(id, on) =>
      var found := svc.EnableJob(id, on, e.now, e.saved);
    case Start =>
      var ok := svc.Start(e.now, e.saved);
    case Stop =>
      svc.Stop();
    case Collect =>
      due' := svc.CollectDue(e.now, e.saved);
    case Begin =>
      var job := svc.FindJob(due[0]);
      if job.Some? {
        executing' := Some(Fire(due[0], e.now));
      }
      due' := due[1..];
    case Finish =>
      svc.FinishJob(executing.value.id, executing.value.time, e.now, e.saved);
      executing' := None;
    case Crash =>
      next := new CronService(svc.disk, svc.tick);
      due', executing' := [], None;
  }

  /** Any run of the laws, performed by the service from any stored jobs: the service ends in the run's last state. */
  method ServeAll(stored: seq<Job>, tick: Ticker, ghost s: State, events: seq<Event>) returns (svc: CronService)
    requires Initial(s) && s.jobs == stored && AllowedRun(s, events, tick)
    ensures fresh(svc) && Shows(svc, Run(s, events, tick))
  {
    svc := new CronService(stored, tick);
    var due: seq<string>, executing: Option<Fire> := [], None;
    ghost var t := s;
    assert events[0..] == events;
    for i := 0 to |events|
      invariant fresh(svc) && svc.tick == tick && Shows(svc, t) && t.due == due && t.executing == executing
      invariant AllowedRun(t, events[i..], tick) && Run(t, events[i..], tick) == Run(s, events, tick)
    {
      NextEvent(t, events, i, tick);
      ghost var next := Step(t, events[i], tick);
      svc, due, executing := Serve(svc, t, events[i], due, executing);
      t := next;
    }
    assert events[|events|..] == [];
  }

  lemma NextEvent(s: State, events: seq<Event>, i: nat, tick: Ticker)
    requires i < |events| && AllowedRun(s, events[i..], tick)
    ensures Allowed(s, events[i])
    ensures var next := Step(s, events[i], tick);
            AllowedRun(next, events[i + 1..], tick) && Run(next, events[i + 1..], tick) == Run(s, events[i..], tick)
  {
    hide Step, Allowed;
    assert events[i..][0] == events[i] && events[i..][1..] == events[i + 1..];
  }
}
