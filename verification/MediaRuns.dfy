/** What the media store schedules for deletion over whole runs, told from the requests alone. */
module MediaRuns {
  import opened MediaStore

  /** A request: a file stored with the text of its cleanup policy, a scope released, or old entries expired. */
  datatype Request =
    | Put(path: string, statOk: bool, cleanupPolicy: string, scope: string, ref: string, now: int)
    | ReleaseScope(scope: string)
    | Expire(now: int, maxAge: int)

  /** The maps after a request, and the files it has scheduled for deletion. */
  datatype After = After(maps: Maps, scheduled: set<string>)

  function Released(m: Maps, q: Request): set<string> {
    match q
    case ReleaseScope(scope) => ScopeRefs(m, scope)
    case Expire(now, maxAge) => if maxAge <= 0 then {} else StoredBefore(m, now - maxAge)
    case _ => {}
  }

  /** One request, as the store's methods promise it. */
  ghost predicate Serves(m: Maps, q: Request, a: After) {
    if q.Put? then
      && a.scheduled == {}
      && if q.statOk then
           && q.ref in a.maps.refs && a.maps.refs[q.ref].path == q.path
           && a.maps.refs == m.refs[q.ref := a.maps.refs[q.ref]] && q.ref !in m.refs
           && a.maps.pathStates == m.pathStates[q.path :=
                if q.path !in m.pathStates then PathState(1, q.cleanupPolicy != "forget_only")
                else PathState(m.pathStates[q.path].refCount + 1,
                               m.pathStates[q.path].deleteEligible && q.cleanupPolicy != "forget_only")]
         else a.maps == m
    else a.maps == Dropped(m, Released(m, q)) && a.scheduled == DeleteSet(m, Released(m, q))
  }

  ghost predicate IsRun(trace: seq<After>, requests: seq<Request>) {
    && |trace| == |requests| + 1 && trace[0].maps == Maps(map[], map[], map[], map[], map[])
    && (forall i :: 0 <= i < |trace| ==> Consistent(trace[i].maps))
    && (forall i :: 0 <= i < |requests| ==> Serves(trace[i].maps, requests[i], trace[i + 1]))
  }

  ghost predicate Used(m: Maps, path: string) {
    exists r :: r in m.refs && m.refs[r].path == path
  }

  /** Request k stored the path, and it has been in use from then on, up to state j. */
  ghost predicate PutSince(trace: seq<After>, requests: seq<Request>, path: string, j: nat, k: nat) {
    && k < j < |trace| == |requests| + 1
    && requests[k].Put? && requests[k].statOk && requests[k].path == path
    && forall i :: k < i <= j ==> Used(trace[i].maps, path)
  }

  /** Nobody who stored the path since it came into use asked for the file to be left alone. */
  ghost predicate OwnedAt(trace: seq<After>, requests: seq<Request>, path: string, j: nat) {
    forall k: nat :: PutSince(trace, requests, path, j, k) ==> requests[k].cleanupPolicy != "forget_only"
  }

  lemma UsedIff(m: Maps, path: string)
    requires Consistent(m)
    ensures Used(m, path) <==> path in m.pathStates
    ensures Used(m, path) <==> LiveRefs(m, path) != {}
  {
    hide ScopesPartition;
    if r :| r in LiveRefs(m, path) {
      assert m.refs[r].path == path;
    }
    if r :| r in m.refs && m.refs[r].path == path {
      assert r in LiveRefs(m, path);
    }
  }

  /** Who has stored the path since it came into use, one request later. */
  lemma OwnedStep(trace: seq<After>, requests: seq<Request>, path: string, j: nat)
    requires IsRun(trace, requests) && j < |requests| && Used(trace[j + 1].maps, path)
    ensures var q := requests[j];
            OwnedAt(trace, requests, path, j + 1) <==>
            (Used(trace[j].maps, path) ==> OwnedAt(trace, requests, path, j))
            && (q.Put? && q.statOk && q.path == path ==> q.cleanupPolicy != "forget_only")
  {
    hide Consistent, Serves, Used;
    var q := requests[j];
    forall k: nat
      ensures PutSince(trace, requests, path, j + 1, k) <==>
              (k == j && q.Put? && q.statOk && q.path == path)
              || (k < j && Used(trace[j].maps, path) && PutSince(trace, requests, path, j, k))
    {
    }
    if OwnedAt(trace, requests, path, j + 1) && q.Put? && q.statOk && q.path == path {
      assert PutSince(trace, requests, path, j + 1, j);
    }
  }

  lemma {:induction false} EligibleIffOwned(trace: seq<After>, requests: seq<Request>, path: string, j: nat)
    requires IsRun(trace, requests) && j < |trace| && Used(trace[j].maps, path)
    ensures path in trace[j].maps.pathStates
    ensures trace[j].maps.pathStates[path].deleteEligible <==> OwnedAt(trace, requests, path, j)
    decreases j
  {
    hide Consistent, OwnedAt, Serves;
    UsedIff(trace[j].maps, path);
    if j > 0 {
      var m, q := trace[j - 1].maps, requests[j - 1];
      assert Serves(m, q, trace[j]);
      UsedIff(m, path);
      OwnedStep(trace, requests, path, j - 1);
      EligibleStep(m, q, trace[j], path);
      if Used(m, path) {
        EligibleIffOwned(trace, requests, path, j - 1);
      }
    }
  }

  lemma EligibleStep(m: Maps, q: Request, a: After, path: string)
    requires Serves(m, q, a) && path in a.maps.pathStates
    ensures a.maps.pathStates[path].deleteEligible <==>
            (path in m.pathStates ==> m.pathStates[path].deleteEligible)
            && (q.Put? && q.statOk && q.path == path ==> q.cleanupPolicy != "forget_only")
  {
    hide CountLeft, Unreferenced, DroppedScopes;
  }

  /** The deletion law, for every run, scope, policy text and clock: a request schedules a file exactly if it takes the
      file out of use and no one who stored it since it came into use gave "forget_only". */
  lemma ScheduleLaw(trace: seq<After>, requests: seq<Request>, j: nat, path: string)
    requires IsRun(trace, requests) && j < |requests|
    ensures path in trace[j + 1].scheduled <==>
            Used(trace[j].maps, path) && !Used(trace[j + 1].maps, path) && OwnedAt(trace, requests, path, j)
  {
    hide OwnedAt, Consistent;
    var m, q := trace[j].maps, requests[j];
    assert Serves(m, q, trace[j + 1]);
    UsedIff(m, path);
    UsedIff(trace[j + 1].maps, path);
    if Used(m, path) {
      EligibleIffOwned(trace, requests, path, j);
    }
    if q.Put? {
      PutKeepsUse(m, q, trace[j + 1], path);
    } else {
      ScheduledIff(m, Released(m, q), path);
    }
  }

  lemma PutKeepsUse(m: Maps, q: Request, a: After, path: string)
    requires Serves(m, q, a) && q.Put?
    ensures Used(m, path) ==> Used(a.maps, path)
  {
    if r :| r in m.refs && m.refs[r].path == path {
      assert r in a.maps.refs && a.maps.refs[r].path == path;
    }
  }

  lemma ScheduledIff(m: Maps, d: set<string>, path: string)
    requires Consistent(m)
    ensures path in DeleteSet(m, d) <==>
            path in m.pathStates && m.pathStates[path].deleteEligible && LiveRefs(Dropped(m, d), path) == {}
  {
    LiveDropped(m, d, path);
    MinusFacts(LiveRefs(m, path), d, {});
  }

  /** A user's own file is safe: once it has been stored with "forget_only", no request schedules it while it has stayed
      in use, not even the one that takes it out of use. */
  lemma BorrowedIsSafe(trace: seq<After>, requests: seq<Request>, k: nat, j: nat)
    requires IsRun(trace, requests) && k < j < |requests|
    requires requests[k].Put? && requests[k].statOk && requests[k].cleanupPolicy == "forget_only"
    requires forall i :: k < i <= j ==> Used(trace[i].maps, requests[k].path)
    ensures requests[k].path !in trace[j + 1].scheduled
  {
    hide Serves, Consistent, Used;
    assert PutSince(trace, requests, requests[k].path, j, k);
    ScheduleLaw(trace, requests, j, requests[k].path);
  }

  /** And a file only ever stored with other texts does not stay behind: the request that takes it out of use
      schedules it. */
  lemma OwnedIsCleared(trace: seq<After>, requests: seq<Request>, j: nat, path: string)
    requires IsRun(trace, requests) && j < |requests|
    requires forall k :: 0 <= k < j && requests[k].Put? && requests[k].path == path ==>
               requests[k].cleanupPolicy != "forget_only"
    requires Used(trace[j].maps, path) && !Used(trace[j + 1].maps, path)
    ensures path in trace[j + 1].scheduled
  {
    hide Serves, Consistent, Used;
    ScheduleLaw(trace, requests, j, path);
  }

  /** Which refs a release takes: those stored under the scope, or those stored longer than `maxAge` ago, and no others. */
  lemma RefsLeft(m: Maps, q: Request, a: After, r: string)
    requires Consistent(m) && !q.Put? && Serves(m, q, a)
    ensures r in a.maps.refs <==>
            && r in m.refs && r in m.refToScope
            && if q.ReleaseScope? then m.refToScope[r] != q.scope else q.maxAge <= 0 || q.now - m.refs[r].storedAt <= q.maxAge
    ensures r in a.maps.refs ==> a.maps.refs[r] == m.refs[r]
  {
    hide DroppedPaths, DroppedScopes, DeleteSet;
  }

  // ----- the store performs runs -----------------------------------------------------------

  /** New ids are not reused, and a file that exists has a name. */
  predicate Proper(requests: seq<Request>) {
    && (forall i, k :: 0 <= i < k < |requests| && requests[i].Put? && requests[k].Put? ==> requests[i].ref != requests[k].ref)
    && (forall i :: 0 <= i < |requests| && requests[i].Put? && requests[i].statOk ==> requests[i].path != "")
  }

  /** Performs the requests on a new store; `trace` holds the state after each, `schedules` what each hands out for
      deletion. */
  method ServeAll(requests: seq<Request>) returns (schedules: seq<seq<string>>, ghost trace: seq<After>)
    requires Proper(requests)
    ensures IsRun(trace, requests) && |schedules| == |requests|
    ensures forall i :: 0 <= i < |requests| ==> Lists(schedules[i], trace[i + 1].scheduled)
  {
    hide Consistent, Tracks, Lists, DeleteSet, DroppedPaths, DroppedScopes, Proper;
    var store := new FileMediaStore();
    schedules := [];
    trace := [After(store.View(), {})];
    for i := 0 to |requests|
      invariant fresh(store) && store.Valid()
      invariant |schedules| == i && |trace| == i + 1 && trace[i].maps == store.View()
      invariant trace[0].maps == Maps(map[], map[], map[], map[], map[])
      invariant forall k :: 0 <= k <= i ==> Consistent(trace[k].maps)
      invariant forall k :: 0 <= k < i ==> Serves(trace[k].maps, requests[k], trace[k + 1])
      invariant forall k :: 0 <= k < i ==> Lists(schedules[k], trace[k + 1].scheduled)
      invariant forall r :: r in store.refs ==> exists k :: 0 <= k < i && requests[k].Put? && requests[k].ref == r
    {
      ProperNext(requests, i, store.refs.Keys);
      var paths;
      ghost var after;
      paths, after := Serve(store, requests[i]);
      schedules := schedules + [paths];
      trace := trace + [after];
    }
  }

  lemma ProperNext(requests: seq<Request>, i: nat, used: set<string>)
    requires Proper(requests) && i < |requests|
    requires forall r :: r in used ==> exists k :: 0 <= k < i && requests[k].Put? && requests[k].ref == r
    ensures requests[i].Put? ==> requests[i].ref !in used
    ensures requests[i].Put? && requests[i].statOk ==> requests[i].path != ""
  {
  }

  method Serve(store: FileMediaStore, q: Request) returns (paths: seq<string>, ghost after: After)
    requires store.Valid() && (q.Put? ==> q.ref !in store.refs && (q.statOk ==> q.path != ""))
    modifies store
    ensures store.Valid() && after.maps == store.View()
    ensures Serves(old(store.View()), q, after) && Lists(paths, after.scheduled)
    ensures store.refs.Keys <= old(store.refs.Keys) + (if q.Put? then {q.ref} else {})
  {
    hide Consistent, Tracks, DeleteSet, DroppedPaths, DroppedScopes, Serves, ScopeRefs, StoredBefore, LogReleases, Lists;
    ghost var m := store.View();
    match q {
      case Put(path, statOk, cleanupPolicy, scope, ref, now) =>
        var result := store.Store(path, statOk, cleanupPolicy, scope, ref, now);
        paths, after := [], After(store.View(), {});
        PutServes(m, q, after);
      case ReleaseScope(scope) =>
        paths := store.ReleaseAll(scope);
        after := After(store.View(), DeleteSet(m, Released(m, q)));
        ReleaseServes(m, q, after);
      case Expire(now, maxAge) =>
        var count;
        count, paths := store.CleanExpired(now, maxAge);
        after := After(store.View(), DeleteSet(m, Released(m, q)));
        ReleaseServes(m, q, after);
    }
  }

  lemma PutServes(m: Maps, q: Request, a: After)
    requires q.Put? && q.ref !in m.refs && a.scheduled == {}
    requires !q.statOk ==> a.maps == m
    requires q.statOk ==>
               var borrowed := q.cleanupPolicy == "forget_only";
               && a.maps.refs == m.refs[q.ref := Entry(q.path, if borrowed then ForgetOnly else DeleteOnCleanup, q.now)]
               && a.maps.pathStates == m.pathStates[q.path :=
                    if q.path !in m.pathStates then PathState(1, !borrowed)
                    else PathState(m.pathStates[q.path].refCount + 1, m.pathStates[q.path].deleteEligible && !borrowed)]
    ensures Serves(m, q, a) && Lists([], a.scheduled) && a.maps.refs.Keys <= m.refs.Keys + {q.ref}
  {
  }

  lemma ReleaseServes(m: Maps, q: Request, a: After)
    requires !q.Put? && a == After(Dropped(m, Released(m, q)), DeleteSet(m, Released(m, q)))
    ensures Serves(m, q, a) && a.maps.refs.Keys <= m.refs.Keys
  {
    hide DeleteSet, DroppedPaths, DroppedScopes;
  }
}
