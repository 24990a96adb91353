/** The ref-counted media store: five maps that must agree, and a delete policy that must hold however Go orders
    its map iterations. */
module MediaStore {

  datatype Policy = DeleteOnCleanup | ForgetOnly

  function NormalizeCleanupPolicy(text: string): Policy {
    if text == "forget_only" then ForgetOnly else DeleteOnCleanup
  }

  datatype Entry = Entry(path: string, policy: Policy, storedAt: int)

  datatype PathState = PathState(refCount: int, deleteEligible: bool)

  datatype Maps = Maps(
    refs: map<string, Entry>,
    scopeToRefs: map<string, set<string>>,
    refToScope: map<string, string>,
    refToPath: map<string, string>,
    pathStates: map<string, PathState>)

  // ----- the invariant ---------------------------------------------------------------------

  function LiveRefs(m: Maps, path: string): set<string> {
    set r | r in m.refs && m.refs[r].path == path
  }

  /** The per-ref maps have the same keys and agree on paths; the path table has exactly the paths of live refs,
      each with the number of its live refs. */
  ghost predicate RefsAgree(m: Maps) {
    && m.refs.Keys == m.refToScope.Keys == m.refToPath.Keys
    && (forall r :: r in m.refs ==> m.refToPath[r] == m.refs[r].path && m.refs[r].path != "")
    && (forall p :: p in m.pathStates <==> LiveRefs(m, p) != {})
    && (forall p :: p in m.pathStates ==> m.pathStates[p].refCount == |LiveRefs(m, p)|)
  }

  /** The scope sets are nonempty and partition the live refs. */
  ghost predicate ScopesPartition(m: Maps) {
    && (forall s :: s in m.scopeToRefs ==> m.scopeToRefs[s] != {})
    && (forall s, r :: s in m.scopeToRefs && r in m.scopeToRefs[s] ==> r in m.refToScope && m.refToScope[r] == s)
    && (forall r :: r in m.refToScope ==> m.refToScope[r] in m.scopeToRefs && r in m.scopeToRefs[m.refToScope[r]])
  }

  ghost predicate Consistent(m: Maps) {
    RefsAgree(m) && ScopesPartition(m)
  }

  // ----- what releasing a set of refs means ------------------------------------------------

  /** The maps after the refs in d are gone: a function of the set, so the order of release cannot matter. */
  function Dropped(m: Maps, d: set<string>): Maps {
    Maps(m.refs - d, DroppedScopes(m, d), m.refToScope - d, m.refToPath - d, DroppedPaths(m, d))
  }

  function DroppedScopes(m: Maps, d: set<string>): map<string, set<string>> {
    map s | s in m.scopeToRefs && !(m.scopeToRefs[s] <= d) :: m.scopeToRefs[s] - d
  }

  function DroppedPaths(m: Maps, d: set<string>): map<string, PathState> {
    map p | p in m.pathStates && !Unreferenced(m, p, d) :: PathState(CountLeft(m, p, d), m.pathStates[p].deleteEligible)
  }

  /** Every live ref of the path is among those in d. */
  predicate Unreferenced(m: Maps, path: string, d: set<string>) {
    LiveRefs(m, path) <= d
  }

  function CountLeft(m: Maps, path: string, d: set<string>): nat {
    |LiveRefs(m, path) - d|
  }

  function StoredBefore(m: Maps, cutoff: int): set<string> {
    set r | r in m.refs && m.refs[r].storedAt < cutoff
  }

  function ScopeRefs(m: Maps, scope: string): set<string> {
    if scope in m.scopeToRefs then m.scopeToRefs[scope] else {}
  }

  /** The files to delete: eligible paths all of whose live refs are among the released ones. */
  function DeleteSet(m: Maps, d: set<string>): set<string> {
    set p | p in m.pathStates && m.pathStates[p].deleteEligible && Unreferenced(m, p, d)
  }

  lemma LiveDropped(m: Maps, d: set<string>, p: string)
    ensures LiveRefs(Dropped(m, d), p) == LiveRefs(m, p) - d
  {
  }

  lemma MinusFacts(a: set<string>, b: set<string>, c: set<string>)
    ensures a <= b <==> a - b == {}
    ensures a - b - c == a - (b + c)
    ensures a - b <= c <==> a <= b + c
    ensures a <= b ==> a <= b + c
  {
    assert forall x :: x in a ==> x in b || x in a - b;
    assert forall x :: x in a ==> x in b + c || x in a - b - c;
  }

  lemma DroppedConsistent(m: Maps, d: set<string>)
    requires Consistent(m)
    ensures Consistent(Dropped(m, d))
  {
    DroppedRefsAgree(m, d);
    DroppedScopesPartition(m, d);
  }

  lemma DroppedRefsAgree(m: Maps, d: set<string>)
    requires RefsAgree(m)
    ensures RefsAgree(Dropped(m, d))
  {
    var n := Dropped(m, d);
    forall p
      ensures p in n.pathStates <==> LiveRefs(n, p) != {}
      ensures p in n.pathStates ==> n.pathStates[p].refCount == |LiveRefs(n, p)|
    {
      LiveDropped(m, d, p);
      MinusFacts(LiveRefs(m, p), d, {});
      PathFact(m, p);
    }
  }

  lemma PathFact(m: Maps, p: string)
    requires RefsAgree(m)
    ensures p in m.pathStates <==> LiveRefs(m, p) != {}
    ensures p in m.pathStates ==> m.pathStates[p] == PathState(|LiveRefs(m, p)|, m.pathStates[p].deleteEligible)
  {
  }

  lemma DroppedScopesPartition(m: Maps, d: set<string>)
    requires ScopesPartition(m)
    ensures ScopesPartition(Dropped(m, d))
  {
    hide DroppedPaths;
    var n := Dropped(m, d);
    forall s | s in m.scopeToRefs
      ensures m.scopeToRefs[s] <= d <==> m.scopeToRefs[s] - d == {}
    {
      MinusFacts(m.scopeToRefs[s], d, {});
    }
    forall r | r in n.refToScope
      ensures n.refToScope[r] in n.scopeToRefs && r in n.scopeToRefs[n.refToScope[r]]
    {
      assert r in m.scopeToRefs[m.refToScope[r]];
    }
  }

  /** Two releases one after the other are one release of both sets, and every file is scheduled by exactly one
      of them: the schedule of the whole is the disjoint union of the schedules of the parts. */
  lemma ReleaseInParts(m: Maps, a: set<string>, b: set<string>)
    ensures Dropped(Dropped(m, a), b) == Dropped(m, a + b)
    ensures DeleteSet(m, a + b) == DeleteSet(m, a) + DeleteSet(Dropped(m, a), b)
    ensures DeleteSet(m, a) !! DeleteSet(Dropped(m, a), b)
  {
    hide DroppedPaths, DroppedScopes, DeleteSet;
    PathsInParts(m, a, b);
    ScopesInParts(m, a, b);
    assert m.refs - a - b == m.refs - (a + b);
    assert m.refToScope - a - b == m.refToScope - (a + b);
    assert m.refToPath - a - b == m.refToPath - (a + b);
    DeletesInParts(m, a, b);
  }

  lemma PathInParts(m: Maps, a: set<string>, b: set<string>, p: string)
    ensures CountLeft(Dropped(m, a), p, b) == CountLeft(m, p, a + b)
    ensures Unreferenced(Dropped(m, a), p, b) <==> Unreferenced(m, p, a + b)
    ensures Unreferenced(m, p, a) ==> Unreferenced(m, p, a + b)
  {
    LiveDropped(m, a, p);
    MinusFacts(LiveRefs(m, p), a, b);
  }

  lemma PathsInParts(m: Maps, a: set<string>, b: set<string>)
    ensures DroppedPaths(Dropped(m, a), b) == DroppedPaths(m, a + b)
  {
    hide CountLeft, Unreferenced, DroppedScopes;
    forall p
      ensures CountLeft(Dropped(m, a), p, b) == CountLeft(m, p, a + b)
      ensures Unreferenced(Dropped(m, a), p, b) <==> Unreferenced(m, p, a + b)
      ensures Unreferenced(m, p, a) ==> Unreferenced(m, p, a + b)
    {
      PathInParts(m, a, b, p);
    }
  }

  lemma ScopesInParts(m: Maps, a: set<string>, b: set<string>)
    ensures DroppedScopes(Dropped(m, a), b) == DroppedScopes(m, a + b)
  {
    hide DroppedPaths;
    forall s | s in m.scopeToRefs
      ensures m.scopeToRefs[s] - a - b == m.scopeToRefs[s] - (a + b)
      ensures m.scopeToRefs[s] - a <= b <==> m.scopeToRefs[s] <= a + b
      ensures m.scopeToRefs[s] <= a ==> m.scopeToRefs[s] <= a + b
    {
      MinusFacts(m.scopeToRefs[s], a, b);
    }
    var x, y := DroppedScopes(Dropped(m, a), b), DroppedScopes(m, a + b);
    assert x.Keys == y.Keys;
    assert forall s :: s in x ==> x[s] == y[s];
  }

  lemma DeletesInParts(m: Maps, a: set<string>, b: set<string>)
    ensures DeleteSet(m, a + b) == DeleteSet(m, a) + DeleteSet(Dropped(m, a), b)
    ensures DeleteSet(m, a) !! DeleteSet(Dropped(m, a), b)
  {
    hide CountLeft, Unreferenced, DroppedScopes;
    forall p
      ensures Unreferenced(Dropped(m, a), p, b) <==> Unreferenced(m, p, a + b)
      ensures Unreferenced(m, p, a) ==> Unreferenced(m, p, a + b)
    {
      PathInParts(m, a, b, p);
    }
  }

  /** No file is scheduled while a ref to it is alive, and none that a scope outside the release still uses. */
  lemma DeleteOnlyUnreferenced(m: Maps, d: set<string>, p: string)
    requires Consistent(m) && p in DeleteSet(m, d)
    ensures LiveRefs(Dropped(m, d), p) == {} && p !in Dropped(m, d).pathStates
    ensures forall r :: r in m.refs && r !in d ==> m.refs[r].path != p
  {
    LiveDropped(m, d, p);
    forall r | r in m.refs && m.refs[r].path == p
      ensures r in d
    {
      assert r in LiveRefs(m, p);
    }
  }

  // ----- releasing one ref -----------------------------------------------------------------

  function ReleasedPaths(m: Maps, path: string): map<string, PathState> {
    if path !in m.pathStates then m.pathStates
    else if m.pathStates[path].refCount <= 1 then m.pathStates - {path}
    else m.pathStates[path := PathState(m.pathStates[path].refCount - 1, m.pathStates[path].deleteEligible)]
  }

  /** Releasing one more ref after the refs in d: the path table moves to the one for d + {ref}, and the path is
      handed out for deletion exactly if this ref was its last and it is eligible. */
  lemma ReleaseOne(m: Maps, d: set<string>, ref: string)
    requires Consistent(m) && ref in m.refs && ref !in d
    ensures var n, p := Dropped(m, d), m.refs[ref].path;
            && p in n.pathStates
            && ReleasedPaths(n, p) == DroppedPaths(m, d + {ref})
            && DeleteSet(m, d + {ref}) ==
               DeleteSet(m, d) + (if n.pathStates[p].refCount <= 1 && n.pathStates[p].deleteEligible then {p} else {})
            && p !in DeleteSet(m, d)
  {
    hide RefsAgree, CountLeft, Unreferenced, DroppedScopes;
    var p := m.refs[ref].path;
    ThisPath(m, d, ref, p);
    forall q | q != p
      ensures CountLeft(m, q, d + {ref}) == CountLeft(m, q, d)
      ensures Unreferenced(m, q, d + {ref}) <==> Unreferenced(m, q, d)
    {
      OtherPath(m, d, ref, q);
    }
    ReleasePath(m, d, d + {ref}, p);
  }

  lemma ReleasePath(m: Maps, d: set<string>, d': set<string>, p: string)
    requires p in m.pathStates && !Unreferenced(m, p, d)
    requires CountLeft(m, p, d') == CountLeft(m, p, d) - 1
    requires Unreferenced(m, p, d') <==> CountLeft(m, p, d) <= 1
    requires forall q :: q != p ==> CountLeft(m, q, d') == CountLeft(m, q, d)
    requires forall q :: q != p ==> (Unreferenced(m, q, d') <==> Unreferenced(m, q, d))
    ensures var n := Dropped(m, d);
            && p in n.pathStates
            && ReleasedPaths(n, p) == DroppedPaths(m, d')
            && DeleteSet(m, d') ==
               DeleteSet(m, d) + (if n.pathStates[p].refCount <= 1 && n.pathStates[p].deleteEligible then {p} else {})
            && p !in DeleteSet(m, d)
  {
    hide CountLeft, Unreferenced, DroppedScopes;
  }

  lemma ThisPath(m: Maps, d: set<string>, ref: string, p: string)
    requires RefsAgree(m) && ref in m.refs && m.refs[ref].path == p && ref !in d
    ensures p in m.pathStates && !Unreferenced(m, p, d)
    ensures CountLeft(m, p, d + {ref}) == CountLeft(m, p, d) - 1
    ensures Unreferenced(m, p, d + {ref}) <==> CountLeft(m, p, d) <= 1
  {
    PathFact(m, p);
    assert ref in LiveRefs(m, p);
    LastRef(LiveRefs(m, p), d, ref);
  }

  lemma OtherPath(m: Maps, d: set<string>, ref: string, q: string)
    requires ref in m.refs && m.refs[ref].path != q
    ensures CountLeft(m, q, d + {ref}) == CountLeft(m, q, d)
    ensures Unreferenced(m, q, d + {ref}) <==> Unreferenced(m, q, d)
  {
    assert ref !in LiveRefs(m, q);
    assert LiveRefs(m, q) - (d + {ref}) == LiveRefs(m, q) - d;
    MinusFacts(LiveRefs(m, q), d, {});
    MinusFacts(LiveRefs(m, q), d + {ref}, {});
  }

  lemma LastRef(live: set<string>, d: set<string>, ref: string)
    requires ref in live && ref !in d
    ensures !(live <= d)
    ensures live - (d + {ref}) == live - d - {ref} && |live - (d + {ref})| == |live - d| - 1
    ensures live <= d + {ref} <==> |live - d| <= 1
  {
    var left := live - d;
    assert live - (d + {ref}) == left - {ref};
    assert ref in left;
    MinusFacts(live, d + {ref}, {});
  }

  // ----- eligibility over the store's history ----------------------------------------------

  datatype Event = Stored(ref: string, path: string, policy: Policy) | Released(ref: string)

  /** The refs alive after a history, with their paths. */
  function LivePaths(log: seq<Event>): map<string, string> {
    if log == [] then map[]
    else
      var before, e := LivePaths(log[..|log| - 1]), log[|log| - 1];
      if e.Stored? then before[e.ref := e.path] else before - {e.ref}
  }

  predicate InUse(log: seq<Event>, path: string) {
    exists r :: r in LivePaths(log) && LivePaths(log)[r] == path
  }

  /** Event k took the path's count away from zero, and it has not been zero since. */
  ghost predicate OpenedAt(log: seq<Event>, path: string, k: nat) {
    && k < |log| && log[k].Stored? && log[k].path == path
    && !InUse(log[..k], path) && forall j :: k < j <= |log| ==> InUse(log[..j], path)
  }

  ghost predicate BorrowedSince(log: seq<Event>, path: string, k: nat) {
    exists j :: k <= j < |log| && log[j].Stored? && log[j].path == path && log[j].policy.ForgetOnly?
  }

  /** No forget-only ref was stored for the path since its count last left zero. */
  ghost predicate OwnedSinceOpened(log: seq<Event>, path: string) {
    exists k :: OpenedAt(log, path, k) && !BorrowedSince(log, path, k)
  }

  /** The maps are the ones this history leads to. */
  ghost predicate Tracks(m: Maps, log: seq<Event>) {
    && LivePaths(log) == m.refToPath
    && forall p :: p in m.pathStates ==> m.pathStates[p].deleteEligible == OwnedSinceOpened(log, p)
  }

  lemma LogSnoc(log: seq<Event>, e: Event)
    ensures LivePaths(log + [e]) ==
            if e.Stored? then LivePaths(log)[e.ref := e.path] else LivePaths(log) - {e.ref}
  {
    assert (log + [e])[..|log|] == log;
  }

  lemma OpenedUnique(log: seq<Event>, path: string, k: nat, l: nat)
    requires OpenedAt(log, path, k) && OpenedAt(log, path, l)
    ensures k == l
  {
  }

  /** An event after which the path is still in use keeps its opening event. */
  lemma OpenedSnoc(log: seq<Event>, e: Event, path: string, k: nat)
    requires InUse(log, path) && InUse(log + [e], path)
    ensures OpenedAt(log + [e], path, k) <==> OpenedAt(log, path, k)
  {
    var log' := log + [e];
    assert log'[..|log|] == log && log'[..|log'|] == log' && log[..|log|] == log;
    forall j | 0 <= j <= |log|
      ensures log'[..j] == log[..j]
    {
    }
    if OpenedAt(log', path, k) {
      assert k != |log|;
    }
  }

  lemma StoredKeepsOwned(log: seq<Event>, e: Event, path: string)
    requires InUse(log, path) && InUse(log + [e], path)
    ensures OwnedSinceOpened(log + [e], path) <==>
            OwnedSinceOpened(log, path) && !(e.Stored? && e.path == path && e.policy.ForgetOnly?)
  {
    var log' := log + [e];
    forall k: nat
      ensures OpenedAt(log', path, k) <==> OpenedAt(log, path, k)
    {
      OpenedSnoc(log, e, path, k);
    }
    forall k: nat | k < |log|
      ensures BorrowedSince(log', path, k) <==>
              BorrowedSince(log, path, k) || (e.Stored? && e.path == path && e.policy.ForgetOnly?)
    {
      assert log'[|log|] == e;
      if BorrowedSince(log, path, k) {
        var j :| k <= j < |log| && log[j].Stored? && log[j].path == path && log[j].policy.ForgetOnly?;
        assert log'[j] == log[j];
      }
    }
  }

  lemma FirstStoredOwned(log: seq<Event>, e: Event)
    requires e.Stored? && !InUse(log, e.path)
    ensures OwnedSinceOpened(log + [e], e.path) <==> e.policy.DeleteOnCleanup?
  {
    var log' := log + [e];
    LogSnoc(log, e);
    assert LivePaths(log')[e.ref] == e.path;
    assert log'[..|log|] == log && log'[..|log'|] == log' && log'[|log|] == e;
    assert OpenedAt(log', e.path, |log|);
    forall k: nat | OpenedAt(log', e.path, k)
      ensures k == |log|
    {
      OpenedUnique(log', e.path, k, |log|);
    }
  }

  /** A path borrowed once is not scheduled for deletion as long as it has stayed in use, even when the
      forget-only ref itself is long gone and only store-managed refs are released. */
  lemma BorrowedNeverDeleted(m: Maps, log: seq<Event>, d: set<string>, path: string, j: nat)
    requires Consistent(m) && Tracks(m, log)
    requires j < |log| && log[j].Stored? && log[j].path == path && log[j].policy.ForgetOnly?
    requires forall i :: j < i <= |log| ==> InUse(log[..i], path)
    ensures path !in DeleteSet(m, d)
  {
    forall k: nat | OpenedAt(log, path, k)
      ensures BorrowedSince(log, path, k)
    {
      assert k <= j;
    }
    assert !OwnedSinceOpened(log, path);
  }

  // ----- what the methods' loops keep ------------------------------------------------------

  /** Releases change no surviving path's ownership. */
  ghost predicate OwnedSame(m: Maps, log0: seq<Event>, log: seq<Event>, done: set<string>) {
    forall p :: LiveRefs(m, p) - done != {} ==> (OwnedSinceOpened(log, p) <==> OwnedSinceOpened(log0, p))
  }

  lemma InUseIffLive(m: Maps, log: seq<Event>, done: set<string>, p: string)
    requires RefsAgree(m) && LivePaths(log) == m.refToPath - done
    ensures InUse(log, p) <==> LiveRefs(m, p) - done != {}
  {
    if InUse(log, p) {
      var r :| r in LivePaths(log) && LivePaths(log)[r] == p;
      assert r in LiveRefs(m, p) - done;
    }
    if LiveRefs(m, p) - done != {} {
      var r :| r in LiveRefs(m, p) - done;
      assert LivePaths(log)[r] == p;
    }
  }

  lemma LogReleased(m: Maps, log0: seq<Event>, log: seq<Event>, done: set<string>, ref: string)
    requires Consistent(m) && LivePaths(log) == m.refToPath - done && OwnedSame(m, log0, log, done)
    ensures LivePaths(log + [Released(ref)]) == m.refToPath - (done + {ref})
    ensures OwnedSame(m, log0, log + [Released(ref)], done + {ref})
  {
    hide OwnedSinceOpened, RefsAgree, ScopesPartition;
    LogSnoc(log, Released(ref));
    var log', done' := log + [Released(ref)], done + {ref};
    forall p | LiveRefs(m, p) - done' != {}
      ensures OwnedSinceOpened(log', p) <==> OwnedSinceOpened(log0, p)
    {
      assert LiveRefs(m, p) - done' <= LiveRefs(m, p) - done;
      InUseIffLive(m, log, done, p);
      InUseIffLive(m, log', done', p);
      StoredKeepsOwned(log, Released(ref), p);
    }
  }

  lemma DroppedTracks(m: Maps, log0: seq<Event>, log: seq<Event>, d: set<string>)
    requires Consistent(m) && Tracks(m, log0) && OwnedSame(m, log0, log, d) && LivePaths(log) == m.refToPath - d
    ensures Tracks(Dropped(m, d), log)
  {
    hide OwnedSinceOpened;
    forall p | p in Dropped(m, d).pathStates
      ensures Dropped(m, d).pathStates[p].deleteEligible == OwnedSinceOpened(log, p)
    {
      assert LiveRefs(m, p) - d != {};
    }
  }

  lemma DropNothing(m: Maps)
    requires Consistent(m)
    ensures Dropped(m, {}) == m && DeleteSet(m, {}) == {}
  {
    hide ScopesPartition;
    assert m.refs - {} == m.refs && m.refToScope - {} == m.refToScope && m.refToPath - {} == m.refToPath;
    NoPathsDropped(m);
    NoScopesDropped(m);
  }

  lemma NoPathsDropped(m: Maps)
    requires RefsAgree(m)
    ensures DroppedPaths(m, {}) == m.pathStates && DeleteSet(m, {}) == {}
  {
    hide RefsAgree, CountLeft, Unreferenced;
    forall p | p in m.pathStates
      ensures !Unreferenced(m, p, {}) && PathState(CountLeft(m, p, {}), m.pathStates[p].deleteEligible) == m.pathStates[p]
    {
      NoneLeft(m, p);
    }
  }

  lemma NoneLeft(m: Maps, p: string)
    requires RefsAgree(m) && p in m.pathStates
    ensures !Unreferenced(m, p, {}) && PathState(CountLeft(m, p, {}), m.pathStates[p].deleteEligible) == m.pathStates[p]
  {
    PathFact(m, p);
    assert LiveRefs(m, p) - {} == LiveRefs(m, p);
  }

  lemma NoScopesDropped(m: Maps)
    requires Consistent(m)
    ensures DroppedScopes(m, {}) == m.scopeToRefs
  {
    hide RefsAgree;
    forall s | s in m.scopeToRefs
      ensures m.scopeToRefs[s] - {} == m.scopeToRefs[s] && !(m.scopeToRefs[s] <= {})
    {
      MinusFacts(m.scopeToRefs[s], {}, {});
    }
  }

  /** The paths are exactly those in the set, each once. */
  ghost predicate Lists(paths: seq<string>, files: set<string>) {
    && (forall p :: p in paths <==> p in files)
    && (forall i, j :: 0 <= i < j < |paths| ==> paths[i] != paths[j])
  }

  /** A batch in progress: the refs in `done` are released from m, and `paths` is their schedule. */
  ghost predicate Releasing(n: Maps, m: Maps, done: set<string>, paths: seq<string>, log0: seq<Event>, log: seq<Event>) {
    && n.refs == m.refs - done && n.refToScope == m.refToScope - done && n.refToPath == m.refToPath - done
    && n.pathStates == DroppedPaths(m, done)
    && Lists(paths, DeleteSet(m, done))
    && LivePaths(log) == m.refToPath - done && OwnedSame(m, log0, log, done)
    && LogReleases(log0, log, done)
  }

  /** The history grew by the release of each ref in d, once, and by nothing else. */
  ghost predicate LogReleases(log0: seq<Event>, log: seq<Event>, d: set<string>) {
    && log0 <= log && |log| == |log0| + |d|
    && (forall i :: |log0| <= i < |log| ==> log[i].Released? && log[i].ref in d)
    && (forall r :: r in d ==> Released(r) in log[|log0|..])
  }

  lemma LogReleasesNothing(log: seq<Event>)
    ensures LogReleases(log, log, {})
  {
  }

  lemma LogReleasesOne(log0: seq<Event>, log: seq<Event>, d: set<string>, ref: string)
    requires LogReleases(log0, log, d) && ref !in d
    ensures LogReleases(log0, log + [Released(ref)], d + {ref})
  {
    var log' := log + [Released(ref)];
    assert log'[|log0|..] == log[|log0|..] + [Released(ref)];
  }

  lemma StartRelease(m: Maps, log: seq<Event>)
    requires Consistent(m) && Tracks(m, log)
    ensures Dropped(m, {}) == m && DroppedScopes(m, {}) == m.scopeToRefs
    ensures Lists([], DeleteSet(m, {})) && Releasing(m, m, {}, [], log, log)
  {
    hide OwnedSinceOpened, DroppedPaths, DroppedScopes, DeleteSet, Consistent, LogReleases;
    DropNothing(m);
    LogReleasesNothing(log);
    assert m.refToPath - {} == m.refToPath;
  }

  lemma ReleasingMaps(n: Maps, m: Maps, done: set<string>, paths: seq<string>, log0: seq<Event>, log: seq<Event>)
    requires Releasing(n, m, done, paths, log0, log)
    ensures n.refs == m.refs - done && n.refToScope == m.refToScope - done && n.refToPath == m.refToPath - done
  {
  }

  /** One more ref released: the maps, the schedule and the history move on together. */
  lemma NextReleased(n: Maps, n': Maps, m: Maps, done: set<string>, ref: string, scheduled: seq<string>, shouldDelete: bool,
                     log0: seq<Event>, log: seq<Event>)
    requires Consistent(m) && ref in m.refs && ref !in done && Releasing(n, m, done, scheduled, log0, log)
    requires n'.refs == n.refs - {ref} && n'.refToScope == n.refToScope - {ref} && n'.refToPath == n.refToPath - {ref}
    requires n'.pathStates == ReleasedPaths(n, m.refs[ref].path)
    requires shouldDelete <==> var p := m.refs[ref].path;
                               p in n.pathStates && n.pathStates[p].refCount <= 1 && n.pathStates[p].deleteEligible
    ensures Releasing(n', m, done + {ref}, if shouldDelete then scheduled + [m.refs[ref].path] else scheduled, log0,
                      log + [Released(ref)])
  {
    hide Consistent, OwnedSame, DroppedPaths, DeleteSet, LivePaths, LogReleases, Lists, ReleasedPaths;
    NextSchedule(n, m, done, ref, scheduled, shouldDelete);
    LogReleased(m, log0, log, done, ref);
    LogReleasesOne(log0, log, done, ref);
    MinusTwice(m.refs, done, ref);
    MinusTwice(m.refToScope, done, ref);
    MinusTwice(m.refToPath, done, ref);
  }

  lemma MinusTwice<T>(a: map<string, T>, done: set<string>, ref: string)
    ensures a - done - {ref} == a - (done + {ref})
  {
  }

  lemma NextSchedule(n: Maps, m: Maps, done: set<string>, ref: string, scheduled: seq<string>, shouldDelete: bool)
    requires Consistent(m) && ref in m.refs && ref !in done
    requires n.pathStates == DroppedPaths(m, done) && Lists(scheduled, DeleteSet(m, done))
    requires shouldDelete <==> var p := m.refs[ref].path;
                               p in n.pathStates && n.pathStates[p].refCount <= 1 && n.pathStates[p].deleteEligible
    ensures ReleasedPaths(n, m.refs[ref].path) == DroppedPaths(m, done + {ref})
    ensures Lists(if shouldDelete then scheduled + [m.refs[ref].path] else scheduled, DeleteSet(m, done + {ref}))
  {
    hide Consistent, DroppedPaths, DroppedScopes, DeleteSet, Lists;
    ReleaseOne(m, done, ref);
    var p := m.refs[ref].path;
    if shouldDelete {
      NextListed(scheduled, DeleteSet(m, done), p);
    } else {
      assert DeleteSet(m, done) + {} == DeleteSet(m, done);
    }
  }

  lemma NextListed(paths: seq<string>, files: set<string>, p: string)
    requires Lists(paths, files) && p !in files
    ensures Lists(paths + [p], files + {p})
  {
  }

  /** The scope table plays no part in it. */
  lemma ReleasingAnyScopes(n: Maps, n': Maps, m: Maps, done: set<string>, paths: seq<string>, log0: seq<Event>, log: seq<Event>)
    requires Releasing(n, m, done, paths, log0, log) && n' == n.(scopeToRefs := n'.scopeToRefs)
    ensures Releasing(n', m, done, paths, log0, log)
  {
    hide Lists, OwnedSame, DroppedPaths, DeleteSet, LivePaths, LogReleases;
  }

  lemma FinishRelease(n: Maps, m: Maps, d: set<string>, paths: seq<string>, log0: seq<Event>, log: seq<Event>)
    requires Consistent(m) && Tracks(m, log0) && Releasing(n, m, d, paths, log0, log)
    requires n.scopeToRefs == DroppedScopes(m, d)
    ensures n == Dropped(m, d) && Consistent(n) && Tracks(n, log) && Lists(paths, DeleteSet(m, d))
    ensures LogReleases(log0, log, d)
  {
    hide Consistent, Tracks, OwnedSame, DroppedPaths, DroppedScopes, DeleteSet, LivePaths, LogReleases;
    DroppedConsistent(m, d);
    DroppedTracks(m, log0, log, d);
  }

  lemma ScopeDropped(m: Maps, scope: string)
    requires Consistent(m) && scope in m.scopeToRefs
    ensures m.scopeToRefs - {scope} == DroppedScopes(m, m.scopeToRefs[scope])
  {
    var d := m.scopeToRefs[scope];
    forall s | s in m.scopeToRefs && s != scope
      ensures !(m.scopeToRefs[s] <= d) && m.scopeToRefs[s] - d == m.scopeToRefs[s]
    {
      forall r | r in m.scopeToRefs[s]
        ensures r !in d
      {
        assert m.refToScope[r] == s;
      }
      assert m.scopeToRefs[s] * d == {};
    }
  }

  /** Taking one more ref out of its scope's set, and the scope out of the table once its set is empty. */
  function WithoutRef(scopes: map<string, set<string>>, scope: string, ref: string): map<string, set<string>> {
    if scope !in scopes then scopes
    else if scopes[scope] - {ref} == {} then scopes - {scope}
    else scopes[scope := scopes[scope] - {ref}]
  }

  lemma ScopeOne(m: Maps, done: set<string>, ref: string)
    requires Consistent(m) && ref in m.refs && ref !in done
    ensures WithoutRef(DroppedScopes(m, done), m.refToScope[ref], ref) == DroppedScopes(m, done + {ref})
  {
    var scope := m.refToScope[ref];
    assert ref in m.scopeToRefs[scope];
    var n, n' := DroppedScopes(m, done), DroppedScopes(m, done + {ref});
    assert scope in n && n[scope] - {ref} == m.scopeToRefs[scope] - (done + {ref});
    forall s | s in m.scopeToRefs && s != scope
      ensures m.scopeToRefs[s] - (done + {ref}) == m.scopeToRefs[s] - done
    {
      assert ref !in m.scopeToRefs[s];
    }
  }

  /** Storing keeps the maps in agreement and the eligibility flag true to the history. */
  lemma StoreKeepsInvariant(m: Maps, n: Maps, log: seq<Event>, ref: string, path: string, policy: Policy, scope: string, now: int)
    requires Consistent(m) && Tracks(m, log) && ref !in m.refs && path != ""
    requires n.refs == m.refs[ref := Entry(path, policy, now)]
    requires n.refToScope == m.refToScope[ref := scope] && n.refToPath == m.refToPath[ref := path]
    requires n.scopeToRefs == m.scopeToRefs[scope := ScopeRefs(m, scope) + {ref}]
    requires n.pathStates == m.pathStates[path :=
      if path !in m.pathStates then PathState(1, policy.DeleteOnCleanup?)
      else PathState(m.pathStates[path].refCount + 1, m.pathStates[path].deleteEligible && policy.DeleteOnCleanup?)]
    ensures Consistent(n) && Tracks(n, log + [Stored(ref, path, policy)])
  {
    StoreConsistent(m, n, ref, path, policy, scope, now);
    StoreTracks(m, n, log, ref, path, policy);
  }

  lemma StoredLive(m: Maps, n: Maps, ref: string, e: Entry, p: string)
    requires ref !in m.refs && n.refs == m.refs[ref := e]
    ensures LiveRefs(n, p) == if p == e.path then LiveRefs(m, p) + {ref} else LiveRefs(m, p)
    ensures p == e.path ==> LiveRefs(n, p) != {} && |LiveRefs(n, p)| == |LiveRefs(m, p)| + 1
  {
  }

  lemma StoreConsistent(m: Maps, n: Maps, ref: string, path: string, policy: Policy, scope: string, now: int)
    requires Consistent(m) && ref !in m.refs && path != ""
    requires n.refs == m.refs[ref := Entry(path, policy, now)]
    requires n.refToScope == m.refToScope[ref := scope] && n.refToPath == m.refToPath[ref := path]
    requires n.scopeToRefs == m.scopeToRefs[scope := ScopeRefs(m, scope) + {ref}]
    requires n.pathStates.Keys == m.pathStates.Keys + {path}
    requires n.pathStates[path].refCount == if path in m.pathStates then m.pathStates[path].refCount + 1 else 1
    requires forall p :: p in m.pathStates && p != path ==> n.pathStates[p] == m.pathStates[p]
    ensures Consistent(n)
  {
    StoreRefsAgree(m, n, ref, path, policy, scope, now);
    StoreScopes(m, n, ref, scope);
  }

  lemma StoreScopes(m: Maps, n: Maps, ref: string, scope: string)
    requires ScopesPartition(m) && ref !in m.refToScope && n.refToScope == m.refToScope[ref := scope]
    requires n.scopeToRefs == m.scopeToRefs[scope := ScopeRefs(m, scope) + {ref}]
    ensures ScopesPartition(n)
  {
    assert ref in n.scopeToRefs[scope];
    forall s, r | s in n.scopeToRefs && r in n.scopeToRefs[s]
      ensures r in n.refToScope && n.refToScope[r] == s
    {
      assert s in m.scopeToRefs && r in m.scopeToRefs[s] ==> r in m.refToScope && m.refToScope[r] == s;
    }
    forall r | r in n.refToScope
      ensures n.refToScope[r] in n.scopeToRefs && r in n.scopeToRefs[n.refToScope[r]]
    {
      if r != ref {
        assert r in m.scopeToRefs[m.refToScope[r]];
      }
    }
  }

  lemma StoreRefsAgree(m: Maps, n: Maps, ref: string, path: string, policy: Policy, scope: string, now: int)
    requires RefsAgree(m) && ref !in m.refs && path != ""
    requires n.refs == m.refs[ref := Entry(path, policy, now)]
    requires n.refToScope == m.refToScope[ref := scope] && n.refToPath == m.refToPath[ref := path]
    requires n.pathStates.Keys == m.pathStates.Keys + {path}
    requires n.pathStates[path].refCount == if path in m.pathStates then m.pathStates[path].refCount + 1 else 1
    requires forall p :: p in m.pathStates && p != path ==> n.pathStates[p] == m.pathStates[p]
    ensures RefsAgree(n)
  {
    hide LiveRefs;
    StoreRefPaths(m, n, ref, path, policy, scope, now);
    forall p
      ensures p in n.pathStates <==> LiveRefs(n, p) != {}
      ensures p in n.pathStates ==> n.pathStates[p].refCount == |LiveRefs(n, p)|
    {
      StoredCount(m, n, ref, Entry(path, policy, now), p);
    }
  }

  lemma StoreRefPaths(m: Maps, n: Maps, ref: string, path: string, policy: Policy, scope: string, now: int)
    requires RefsAgree(m) && ref !in m.refs && path != ""
    requires n.refs == m.refs[ref := Entry(path, policy, now)]
    requires n.refToScope == m.refToScope[ref := scope] && n.refToPath == m.refToPath[ref := path]
    ensures n.refs.Keys == n.refToScope.Keys == n.refToPath.Keys
    ensures forall r :: r in n.refs ==> n.refToPath[r] == n.refs[r].path && n.refs[r].path != ""
  {
    hide LiveRefs;
  }

  lemma StoredCount(m: Maps, n: Maps, ref: string, e: Entry, p: string)
    requires RefsAgree(m) && ref !in m.refs && n.refs == m.refs[ref := e]
    requires n.pathStates.Keys == m.pathStates.Keys + {e.path}
    requires n.pathStates[e.path].refCount == if e.path in m.pathStates then m.pathStates[e.path].refCount + 1 else 1
    requires forall p :: p in m.pathStates && p != e.path ==> n.pathStates[p] == m.pathStates[p]
    ensures p in n.pathStates <==> LiveRefs(n, p) != {}
    ensures p in n.pathStates ==> n.pathStates[p].refCount == |LiveRefs(n, p)|
  {
    StoredLive(m, n, ref, e, p);
    PathFact(m, p);
    hide RefsAgree, LiveRefs;
  }

  lemma StoreTracks(m: Maps, n: Maps, log: seq<Event>, ref: string, path: string, policy: Policy)
    requires RefsAgree(m) && Tracks(m, log) && ref !in m.refs
    requires n.refToPath == m.refToPath[ref := path]
    requires n.pathStates == m.pathStates[path :=
      if path !in m.pathStates then PathState(1, policy.DeleteOnCleanup?)
      else PathState(m.pathStates[path].refCount + 1, m.pathStates[path].deleteEligible && policy.DeleteOnCleanup?)]
    ensures Tracks(n, log + [Stored(ref, path, policy)])
  {
    var e := Stored(ref, path, policy);
    LogSnoc(log, e);
    assert m.refToPath - {} == m.refToPath;
    forall p | p in n.pathStates
      ensures n.pathStates[p].deleteEligible == OwnedSinceOpened(log + [e], p)
    {
      InUseIffLive(m, log, {}, p);
      assert LiveRefs(m, p) - {} == LiveRefs(m, p);
      if p !in m.pathStates {
        FirstStoredOwned(log, e);
      } else {
        StillInUse(log, e, p);
        StoredKeepsOwned(log, e, p);
      }
    }
  }

  lemma StillInUse(log: seq<Event>, e: Event, p: string)
    requires e.Stored? && InUse(log, p) && e.ref !in LivePaths(log)
    ensures InUse(log + [e], p)
  {
    LogSnoc(log, e);
    var r :| r in LivePaths(log) && LivePaths(log)[r] == p;
    assert LivePaths(log + [e])[r] == p;
  }

  // ----- the store -------------------------------------------------------------------------

  datatype StoreResult = StoredRef(ref: string) | StatFailed

  class FileMediaStore {
    var refs: map<string, Entry>
    var scopeToRefs: map<string, set<string>>
    var refToScope: map<string, string>
    var refToPath: map<string, string>
    var pathStates: map<string, PathState>
    ghost var log: seq<Event>

    ghost function View(): Maps
      reads this
    {
      Maps(refs, scopeToRefs, refToScope, refToPath, pathStates)
    }

    ghost predicate Valid()
      reads this
    {
      Consistent(View()) && Tracks(View(), log)
    }

    constructor ()
      ensures Valid() && View() == Maps(map[], map[], map[], map[], map[]) && log == []
    {
      refs, scopeToRefs, refToScope, refToPath, pathStates := map[], map[], map[], map[], map[];
      log := [];
    }

    /** `statOk` is whether the file exists, `ref` the new unique id. */
    method Store(localPath: string, statOk: bool, cleanupPolicy: string, scope: string, ref: string, now: int)
      returns (result: StoreResult)
      requires Valid() && ref !in refs
      requires statOk ==> localPath != ""
      modifies this
      ensures Valid()
      ensures result == if statOk then StoredRef(ref) else StatFailed
      ensures !statOk ==> View() == old(View()) && log == old(log)
      ensures statOk ==>
                var borrowed := cleanupPolicy == "forget_only";
                && refs == old(refs)[ref := Entry(localPath, if borrowed then ForgetOnly else DeleteOnCleanup, now)]
                && refToScope == old(refToScope)[ref := scope]
                && pathStates == old(pathStates)[localPath :=
                     if localPath !in old(pathStates) then PathState(1, !borrowed)
                     else PathState(old(pathStates)[localPath].refCount + 1,
                                    old(pathStates)[localPath].deleteEligible && !borrowed)]
                && log == old(log) + [Stored(ref, localPath, if borrowed then ForgetOnly else DeleteOnCleanup)]
    {
      hide Consistent, Tracks, ScopeRefs;
      if !statOk {
        return StatFailed;
      }
      ghost var m := View();
      CountPositive(m, localPath);
      var policy := NormalizeCleanupPolicy(cleanupPolicy);
      Register(localPath, policy, scope, ref, now);
      log := log + [Stored(ref, localPath, policy)];
      StoreKeepsInvariant(m, View(), old(log), ref, localPath, policy, scope, now);
      return StoredRef(ref);
    }

    /** The map updates of Store, under the lock. */
    method Register(localPath: string, policy: Policy, scope: string, ref: string, now: int)
      requires localPath in pathStates ==> pathStates[localPath].refCount > 0
      modifies `refs, `scopeToRefs, `refToScope, `refToPath, `pathStates
      ensures refs == old(refs)[ref := Entry(localPath, policy, now)]
      ensures scopeToRefs == old(scopeToRefs)[scope := ScopeRefs(old(View()), scope) + {ref}]
      ensures refToScope == old(refToScope)[ref := scope] && refToPath == old(refToPath)[ref := localPath]
      ensures pathStates == old(pathStates)[localPath :=
        if localPath !in old(pathStates) then PathState(1, policy.DeleteOnCleanup?)
        else PathState(old(pathStates)[localPath].refCount + 1,
                       old(pathStates)[localPath].deleteEligible && policy.DeleteOnCleanup?)]
    {
      refs := refs[ref := Entry(localPath, policy, now)];
      if scope !in scopeToRefs {
        scopeToRefs := scopeToRefs[scope := {}];
      }
      scopeToRefs := scopeToRefs[scope := scopeToRefs[scope] + {ref}];
      refToScope := refToScope[ref := scope];
      refToPath := refToPath[ref := localPath];
      AddPathRef(localPath, policy);
    }

    /** Counts one more ref of the path; a path once borrowed stays ineligible while it is in use. */
    method AddPathRef(localPath: string, policy: Policy)
      requires localPath in pathStates ==> pathStates[localPath].refCount > 0
      modifies `pathStates
      ensures pathStates == old(pathStates)[localPath :=
        if localPath !in old(pathStates) then PathState(1, policy.DeleteOnCleanup?)
        else PathState(old(pathStates)[localPath].refCount + 1,
                       old(pathStates)[localPath].deleteEligible && policy.DeleteOnCleanup?)]
    {
      var pathState := if localPath in pathStates then pathStates[localPath] else PathState(0, false);
      if pathState.refCount == 0 {
        pathState := pathState.(deleteEligible := policy.DeleteOnCleanup?);
      } else if policy.ForgetOnly? {
        pathState := pathState.(deleteEligible := false);
      }
      pathState := pathState.(refCount := pathState.refCount + 1);
      pathStates := pathStates[localPath := pathState];
    }

    method Resolve(ref: string) returns (found: bool, path: string)
      requires Valid()
      ensures found <==> ref in LivePaths(log)
      ensures found ==> path == LivePaths(log)[ref]
    {
      if ref !in refs {
        return false, "";
      }
      return true, refs[ref].path;
    }

    /** Runs inside the loops below, so only the per-ref and per-path maps are its business. */
    method ReleaseRefLocked(ref: string, fallbackPath: string) returns (path: string, shouldDelete: bool)
      modifies `refs, `refToScope, `refToPath, `pathStates
      ensures refs == old(refs) - {ref} && refToScope == old(refToScope) - {ref} && refToPath == old(refToPath) - {ref}
      ensures var p := if ref in old(refToPath) then old(refToPath)[ref] else fallbackPath;
              && pathStates == (if p == "" then old(pathStates) else ReleasedPaths(old(View()), p))
              && (shouldDelete ==> path == p)
              && (shouldDelete <==>
                    p != "" && p in old(pathStates) && old(pathStates)[p].refCount <= 1 && old(pathStates)[p].deleteEligible)
    {
      path := fallbackPath;
      if ref in refToPath {
        path := refToPath[ref];
        refToPath := refToPath - {ref};
      }
      refs := refs - {ref};
      refToScope := refToScope - {ref};
      if path == "" {
        return "", false;
      }
      if path !in pathStates {
        return "", false;
      }
      var pathState := pathStates[path];
      if pathState.refCount <= 1 {
        pathStates := pathStates - {path};
        return path, pathState.deleteEligible;
      }
      pathState := pathState.(refCount := pathState.refCount - 1);
      pathStates := pathStates[path := pathState];
      return "", false;
    }

    /** Releases one ref of a batch and adds its path to the batch's schedule if it is to be deleted. */
    method ReleaseNext(ref: string, fallbackPath: string, scheduled: seq<string>,
                       ghost m: Maps, ghost log0: seq<Event>, ghost done: set<string>)
      returns (paths: seq<string>)
      requires Consistent(m) && ref in m.refs && ref !in done
      requires Releasing(View(), m, done, scheduled, log0, log)
      modifies `refs, `refToScope, `refToPath, `pathStates, `log
      ensures Releasing(View(), m, done + {ref}, paths, log0, log)
    {
      hide Consistent, Releasing, ReleasedPaths;
      ghost var n := View();
      RefPath(m, ref);
      ReleasingMaps(n, m, done, scheduled, log0, log);
      var removablePath, shouldDelete := ReleaseRefLocked(ref, fallbackPath);
      NextReleased(n, View(), m, done, ref, scheduled, shouldDelete, log0, log);
      paths := if shouldDelete then scheduled + [removablePath] else scheduled;
      log := log + [Released(ref)];
    }

    method ReleaseAll(scope: string) returns (paths: seq<string>)
      requires Valid()
      modifies this
      ensures Valid()
      ensures var d := ScopeRefs(old(View()), scope);
              && View() == Dropped(old(View()), d) && Lists(paths, DeleteSet(old(View()), d))
              && LogReleases(old(log), log, d)
    {
      hide LogReleases, Consistent, Tracks, Releasing, DroppedPaths, DroppedScopes, DeleteSet, Lists;
      paths := [];
      ghost var m := View();
      ghost var log0 := log;
      StartRelease(m, log);
      LogReleasesNothing(log);
      if scope !in scopeToRefs {
        return;
      }
      var refsOfScope := scopeToRefs[scope];
      var todo := refsOfScope;
      ghost var done: set<string> := {};
      while todo != {}
        invariant done !! todo && done + todo == refsOfScope
        invariant scopeToRefs == m.scopeToRefs
        invariant Releasing(View(), m, done, paths, log0, log)
        decreases |todo|
      {
        var ref :| ref in todo;
        todo := todo - {ref};
        ScopeRefLive(m, scope, ref);
        var fallbackPath := if ref in refs then refs[ref].path else "";
        paths := ReleaseNext(ref, fallbackPath, paths, m, log0, done);
        done := done + {ref};
      }
      ghost var before := View();
      scopeToRefs := scopeToRefs - {scope};
      ReleasingAnyScopes(before, View(), m, done, paths, log0, log);
      assert done == refsOfScope;
      ScopeDropped(m, scope);
      FinishRelease(View(), m, done, paths, log0, log);
    }

    /** Releases every entry older than `maxAge`; `now` is the clock reading. */
    method CleanExpired(now: int, maxAge: int) returns (count: nat, paths: seq<string>)
      requires Valid()
      modifies this
      ensures Valid()
      ensures var d := if maxAge <= 0 then {} else StoredBefore(old(View()), now - maxAge);
              && View() == Dropped(old(View()), d) && count == |d| && Lists(paths, DeleteSet(old(View()), d))
              && LogReleases(old(log), log, d)
    {
      hide LogReleases, Consistent, Tracks, Releasing, DroppedPaths, DroppedScopes, DeleteSet, Lists, StoredBefore;
      count, paths := 0, [];
      ghost var m := View();
      ghost var log0 := log;
      StartRelease(m, log);
      LogReleasesNothing(log);
      if maxAge <= 0 {
        return;
      }
      var cutoff := now - maxAge;
      count, paths := ExpireBefore(cutoff, m, log0);
      FinishRelease(View(), m, StoredBefore(m, cutoff), paths, log0, log);
    }

    /** The loop over all entries: whatever order they come in, every expired one is released. */
    method ExpireBefore(cutoff: int, ghost m: Maps, ghost log0: seq<Event>) returns (count: nat, paths: seq<string>)
      requires Consistent(m) && View() == m && scopeToRefs == DroppedScopes(m, {})
      requires Releasing(m, m, {}, [], log0, log)
      modifies this
      ensures scopeToRefs == DroppedScopes(m, StoredBefore(m, cutoff))
      ensures Releasing(View(), m, StoredBefore(m, cutoff), paths, log0, log) && count == |StoredBefore(m, cutoff)|
    {
      hide Consistent, Releasing, DroppedScopes, ExpiredOutside;
      count, paths := 0, [];
      var todo := refs.Keys;
      NothingExpiredYet(m, cutoff);
      while todo != {}
        invariant todo <= m.refs.Keys && count == |ExpiredOutside(m, cutoff, todo)|
        invariant scopeToRefs == DroppedScopes(m, ExpiredOutside(m, cutoff, todo))
        invariant Releasing(View(), m, ExpiredOutside(m, cutoff, todo), paths, log0, log)
        decreases |todo|
      {
        var ref :| ref in todo;
        ghost var done := ExpiredOutside(m, cutoff, todo);
        ExpiredStep(m, cutoff, todo, ref);
        ReleasingMaps(View(), m, done, paths, log0, log);
        todo := todo - {ref};
        var entry := refs[ref];
        if entry.storedAt < cutoff {
          paths := ExpireRef(ref, entry.path, paths, m, log0, done);
          count := count + 1;
        }
      }
      AllExpired(m, cutoff);
    }

    method ExpireRef(ref: string, path: string, scheduled: seq<string>,
                     ghost m: Maps, ghost log0: seq<Event>, ghost done: set<string>)
      returns (paths: seq<string>)
      requires Consistent(m) && ref in m.refs && ref !in done
      requires Releasing(View(), m, done, scheduled, log0, log) && scopeToRefs == DroppedScopes(m, done)
      modifies this
      ensures Releasing(View(), m, done + {ref}, paths, log0, log) && scopeToRefs == DroppedScopes(m, done + {ref})
    {
      hide Consistent, Releasing, DroppedScopes;
      ReleasingMaps(View(), m, done, scheduled, log0, log);
      ghost var before := View();
      ForgetInScope(ref, m, done);
      ReleasingAnyScopes(before, View(), m, done, scheduled, log0, log);
      paths := ReleaseNext(ref, path, scheduled, m, log0, done);
    }

    /** Takes the ref out of its scope's set, and the scope out of the table when the set becomes empty. */
    method ForgetInScope(ref: string, ghost m: Maps, ghost done: set<string>)
      requires Consistent(m) && ref in m.refs && ref !in done
      requires refToScope == m.refToScope - done && scopeToRefs == DroppedScopes(m, done)
      modifies `scopeToRefs
      ensures scopeToRefs == DroppedScopes(m, done + {ref})
    {
      hide Consistent, DroppedScopes;
      RefPath(m, ref);
      ScopeOne(m, done, ref);
      if ref in refToScope {
        var scope := refToScope[ref];
        if scope in scopeToRefs {
          var scopeRefs := scopeToRefs[scope] - {ref};
          scopeToRefs := scopeToRefs[scope := scopeRefs];
          if |scopeRefs| == 0 {
            scopeToRefs := scopeToRefs - {scope};
          }
        }
      }
    }
  }

  /** The expired refs that a loop with `todo` still before it has dealt with. */
  ghost function ExpiredOutside(m: Maps, cutoff: int, todo: set<string>): set<string> {
    StoredBefore(m, cutoff) - todo
  }

  lemma NothingExpiredYet(m: Maps, cutoff: int)
    ensures ExpiredOutside(m, cutoff, m.refs.Keys) == {}
  {
  }

  lemma AllExpired(m: Maps, cutoff: int)
    ensures ExpiredOutside(m, cutoff, {}) == StoredBefore(m, cutoff)
  {
  }

  lemma ExpiredStep(m: Maps, cutoff: int, todo: set<string>, ref: string)
    requires ref in m.refs && ref in todo
    ensures var done := ExpiredOutside(m, cutoff, todo);
            && ref !in done && |done + {ref}| == |done| + 1
            && ExpiredOutside(m, cutoff, todo - {ref}) == if m.refs[ref].storedAt < cutoff then done + {ref} else done
  {
  }

  lemma CountPositive(m: Maps, p: string)
    requires Consistent(m)
    ensures p in m.pathStates ==> m.pathStates[p].refCount > 0
  {
    PathFact(m, p);
  }

  lemma RefPath(m: Maps, ref: string)
    requires Consistent(m) && ref in m.refs
    ensures ref in m.refToScope && ref in m.refToPath
    ensures m.refToPath[ref] == m.refs[ref].path != ""
  {
  }

  lemma ScopeRefLive(m: Maps, scope: string, ref: string)
    requires Consistent(m) && scope in m.scopeToRefs && ref in m.scopeToRefs[scope]
    ensures ref in m.refs && ref in m.refToPath
    ensures m.refToPath[ref] == m.refs[ref].path != ""
  {
  }
}
