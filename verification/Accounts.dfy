/** The classes that work on the accounts directory: the manager that adds and removes accounts and the coordinator
    that switches between them. Each method makes exactly the step that `AccountRuns` says it makes. */
module Accounts {
  import opened Options
  import opened AccountPolicy
  import opened AccountRuns

  class Store {
    var activeAlias: string
    var accounts: map<string, bool>
    var snapshots: map<string, Snapshot>
    var live: Option<Auth>
    var health: map<string, Health>
    var audit: seq<SwitchEvent>

    constructor (live: Option<Auth>)
      ensures Valid() && View() == Empty(live)
    {
      activeAlias, accounts, snapshots, this.live, health, audit := "", map[], map[], live, map[], [];
    }

    function View(): World
      reads this
    {
      World(activeAlias, accounts, snapshots, live, health, audit)
    }

    ghost predicate Valid()
      reads this
    {
      Sound(View())
    }
  }

  // ----- the manager -----------------------------------------------------------------------

  class Manager {
    const store: Store
    const runtimeActive: bool

    constructor (store: Store, runtimeActive: bool)
      ensures this.store == store && this.runtimeActive == runtimeActive
    {
      this.store, this.runtimeActive := store, runtimeActive;
    }

    /** A successful login leaves the credential of the account it was for. */
    method Add(alias: string, isolated: bool, login: Login, now: int) returns (r: Outcome)
      requires store.Valid()
      requires Captured(login) ==> login.left.value.owner == alias
      modifies store
      ensures store.Valid()
      ensures (store.View(), r) == Added(old(store.View()), runtimeActive, alias, isolated, login, now)
    {
      hide Sound, ValidAlias;
      AddedExact(store.View(), runtimeActive, alias, isolated, login, now);
      if runtimeActive && !isolated {
        return IsolationRequired;
      }
      if alias in store.accounts {
        return AlreadyExists;
      }
      if !ValidAlias(alias) {
        return Failed;
      }
      if alias in store.snapshots {
        return AlreadyExists;
      }
      if isolated {
        if !login.ok || login.left.None? {
          return Failed;
        }
        PersistAccount(alias, login.left.value, now);
        return Ok;
      }
      var backup := store.live;
      if store.activeAlias != "" && backup.Some? {
        store.snapshots := store.snapshots[store.activeAlias := Snapshot(backup.value, now)];
      }
      store.live := login.left;
      if !login.ok || login.left.None? {
        store.live := backup;
        return Failed;
      }
      PersistAccount(alias, login.left.value, now);
      store.live := backup;
      return Ok;
    }

    method PersistAccount(alias: string, auth: Auth, now: int)
      modifies store`accounts, store`snapshots
      ensures store.View() == Persisted(old(store.View()), alias, auth, now)
    {
      store.snapshots := store.snapshots[alias := Snapshot(auth, now)];
      store.accounts := store.accounts[alias := true];
    }

    /** Imports a credential file for `alias` and makes it the active account; the one it replaces is put away first. */
    method Import(alias: string, payload: Option<Auth>, now: int) returns (r: Outcome)
      requires store.Valid()
      requires payload.Some? ==> payload.value.owner == alias
      modifies store
      ensures store.Valid()
      ensures (store.View(), r) == Imported(old(store.View()), alias, payload, now)
    {
      hide Sound, ValidAlias, Kept;
      ImportedExact(store.View(), alias, payload, now);
      if alias in store.accounts {
        return AlreadyExists;
      }
      if !ValidAlias(alias) {
        return Failed;
      }
      if alias in store.snapshots {
        return AlreadyExists;
      }
      if payload.None? {
        return Failed;
      }
      var backup := store.live;
      if store.activeAlias != "" && backup.Some? {
        store.snapshots := store.snapshots[store.activeAlias := Snapshot(backup.value, now)];
      }
      store.snapshots := store.snapshots[alias := Snapshot(payload.value, now)];
      store.live := payload;
      store.activeAlias := alias;
      store.accounts := store.accounts[alias := true];
      return Ok;
    }

    method Remove(alias: string) returns (r: Outcome)
      requires store.Valid()
      modifies store
      ensures store.Valid()
      ensures (store.View(), r) == Removed(old(store.View()), alias)
    {
      hide Sound;
      RemovedExact(store.View(), alias);
      if alias == store.activeAlias {
        return Failed;
      }
      store.accounts := store.accounts - {alias};
      store.snapshots := store.snapshots - {alias};
      return Ok;
    }

    /** Enables or disables an account; an unknown alias is adopted if a snapshot of it exists. */
    method SetEnabled(alias: string, enabled: bool) returns (r: Outcome)
      requires store.Valid()
      modifies store
      ensures store.Valid()
      ensures (store.View(), r) == Toggled(old(store.View()), alias, enabled)
    {
      hide Sound, ValidAlias;
      ToggledExact(store.View(), alias, enabled);
      if alias !in store.accounts {
        if !ValidAlias(alias) || alias !in store.snapshots {
          return Failed;
        }
      }
      store.accounts := store.accounts[alias := enabled];
      return Ok;
    }
  }

  // ----- the coordinator -------------------------------------------------------------------

  class Coordinator {
    const store: Store

    constructor (store: Store)
      ensures this.store == store
    {
      this.store := store;
    }

    /** The enabled accounts' health, in the arbitrary order of the map. */
    method EnabledHealthCandidates() returns (candidates: seq<Health>)
      ensures forall a :: a in store.accounts && store.accounts[a] && a in store.health ==> store.health[a] in candidates
      ensures forall c :: c in candidates ==>
                exists a :: a in store.accounts && store.accounts[a] && a in store.health && store.health[a] == c
    {
      candidates := [];
      var accounts := store.accounts;
      var left := accounts.Keys;
      while left != {}
        invariant left <= accounts.Keys && accounts == store.accounts
        invariant forall a :: a in accounts && accounts[a] && a in store.health && a !in left ==> store.health[a] in candidates
        invariant forall c :: c in candidates ==>
                    exists a :: a in accounts && accounts[a] && a in store.health && store.health[a] == c
      {
        var alias :| alias in left;
        left := left - {alias};
        if !accounts[alias] {
          continue;
        }
        if alias !in store.health {
          continue;
        }
        candidates := candidates + [store.health[alias]];
      }
    }

    /** The choice among the enabled accounts: the best candidate, whatever order the map was read in. */
    method ChooseEnabledTarget() returns (r: Choice)
      requires store.Valid()
      ensures r.ok <==> AnyCandidate(store.accounts, store.health, store.activeAlias)
      ensures r.ok ==> BestCandidate(store.accounts, store.health, store.activeAlias, r.alias)
                       && r.reason == TierReason(store.health[r.alias])
    {
      var candidates := EnabledHealthCandidates();
      r := ChooseTarget(store.activeAlias, candidates);
      ChoiceIsBest(candidates, r, store);
    }

    /** The alphabetically first enabled account other than `exclude`. */
    method FallbackAlias(exclude: string) returns (alias: string, ok: bool)
      ensures ok <==> exists a :: OtherEnabled(store.accounts, exclude, a)
      ensures ok ==> OtherEnabled(store.accounts, exclude, alias)
                     && forall a :: OtherEnabled(store.accounts, exclude, a) ==> a == alias || Precedes(alias, a)
    {
      var accounts := store.accounts;
      var left := accounts.Keys;
      while left != {}
        invariant left <= accounts.Keys && accounts == store.accounts
        invariant forall a :: OtherEnabled(accounts, exclude, a) ==> a in left
      {
        var first := FirstOf(left);
        if first == exclude || !accounts[first] {
          left := left - {first};
        } else {
          assert OtherEnabled(accounts, exclude, first);
          return first, true;
        }
      }
      return "", false;
    }

    method FirstOf(aliases: set<string>) returns (first: string)
      requires aliases != {}
      ensures first in aliases && forall a :: a in aliases ==> a == first || Precedes(first, a)
    {
      first :| first in aliases;
      var left := aliases - {first};
      while left != {}
        invariant first in aliases && left <= aliases
        invariant forall a :: a in aliases && a !in left ==> a == first || Precedes(first, a)
      {
        var next :| next in left;
        left := left - {next};
        PrecedesTotal(first, next);
        if Precedes(next, first) {
          forall a | a in aliases && Precedes(first, a)
            ensures Precedes(next, a)
          {
            PrecedesTrans(next, first, a);
          }
          first := next;
        }
      }
    }

    /** Makes `target` the active account. */
    method SwitchActiveAliasLocked(target: string, trigger: string, reason: string, now: int) returns (ok: bool)
      modifies store
      ensures ok <==> target in old(store.snapshots)
      ensures ok ==> store.View() == SwitchedTo(old(store.View()), target, trigger, reason, now)
      ensures !ok ==> store.View() == old(store.View())
    {
      if target !in store.snapshots {
        return false;
      }
      store.live := Some(store.snapshots[target].auth);
      var source := store.activeAlias;
      store.activeAlias := target;
      store.audit := store.audit + [SwitchEvent(now, source, target, trigger, reason)];
      return true;
    }

    /** Leaves an account that is nearly used up, before a turn, for the best enabled candidate. */
    method MaybeSoftSwitchLocked(now: int) returns (switched: bool)
      requires store.Valid()
      modifies store
      ensures store.Valid()
      ensures SoftSwitch(old(store.View()), now, store.View(), switched)
    {
      hide AnyCandidate, Better, ShouldSoftSwitch, ValidAlias;
      ghost var w := store.View();
      switched := false;
      if store.activeAlias == "" {
        return;
      }
      if store.activeAlias !in store.health || !ShouldSoftSwitch(now, store.health[store.activeAlias]) {
        return;
      }
      var choice := ChooseEnabledTarget();
      if !choice.ok {
        return;
      }
      assert SoftTarget(w, choice.alias);
      switched := SwitchActiveAliasLocked(choice.alias, "soft_threshold_5h", choice.reason, now);
      SoftSound(w, now, store.View(), switched);
    }

    /** Health as the rate limits report it; a percentage nobody reports counts as used up. */
    method HealthFrom(alias: string, limits: seq<RateLimit>, now: int) returns (h: Health)
      ensures h == HealthOf(alias, limits, now) && ReadOff(h, alias, limits, now)
    {
      hide ClampRemainingPercent, ReadOff;
      HealthReadOff(alias, limits, now);
      var fiveHour, weekly := 0, 0;
      for i := 0 to |limits|
        invariant fiveHour == FiveHourLeft(limits[..i]) && weekly == WeeklyLeft(limits[..i])
      {
        var limit := limits[i];
        assert limits[..i + 1][..i] == limits[..i];
        if limit.primaryUsed.Some? {
          fiveHour := ClampRemainingPercent(limit.primaryUsed.value);
        }
        if limit.secondaryUsed.Some? {
          weekly := ClampRemainingPercent(limit.secondaryUsed.value);
        }
      }
      assert limits[..|limits|] == limits;
      var status :=
        if fiveHour <= 0 || weekly <= 0 then Exhausted
        else if fiveHour <= SOFT_SWITCH_FIVE_HOUR_PERCENT || weekly < WEEKLY_FLOOR_PERCENT then SoftDrain
        else Healthy;
      h := Health(alias, status, fiveHour, weekly, Some(now));
    }

    method RefreshHealthLocked(limits: Limits, now: int) returns (ok: bool)
      modifies store`health
      ensures ok <==> limits.Limits?
      ensures store.View() == Refreshed(old(store.View()), limits, now)
      ensures ok ==> store.activeAlias in store.health
                     && ReadOff(store.health[store.activeAlias], store.activeAlias, limits.limits, now)
    {
      hide ReadOff;
      if !limits.Limits? {
        return false;
      }
      var h := HealthFrom(store.activeAlias, limits.limits, now);
      store.health := store.health[store.activeAlias := h];
      return true;
    }

    /** After a turn: health is refreshed, and a snapshot that is six hours old takes over the live credential. */
    method SyncLiveAuthLocked(limits: Limits, now: int) returns (ok: bool)
      requires store.Valid()
      modifies store`health, store`snapshots
      ensures store.Valid()
      ensures ok <==> CanSync(old(store.View()), limits)
      ensures store.View() == Synced(old(store.View()), limits, now)
    {
      hide Sound, HealthOf;
      SyncSound(store.View(), limits, now);
      if store.activeAlias == "" {
        return true;
      }
      ok := RefreshHealthLocked(limits, now);
      if !ok {
        return false;
      }
      if !ShouldSyncAfterTurn(RefreshTime(store.View(), store.activeAlias), now) {
        return true;
      }
      if store.live.None? {
        return true;
      }
      store.snapshots := store.snapshots[store.activeAlias := Snapshot(store.live.value, now)];
      return true;
    }

    /** The runtime runs with the live credential and may renew its token. */
    method RuntimeTurn(turn: Turn)
      requires store.Valid()
      modifies store`live
      ensures store.Valid() && store.View() == Renewed(old(store.View()), turn)
    {
      RenewedSound(store.View(), turn);
      if store.live.Some? && turn.renewed.Some? {
        store.live := Some(store.live.value.(token := turn.renewed.value));
      }
    }

    /** The account that ran out: its health is read again if the runtime can say, and it counts as exhausted. */
    method MarkExhausted(limits: Limits, now: int) returns (ok: bool)
      modifies store`health
      ensures ok <==> !limits.Unavailable?
      ensures store.View() == OutOfQuota(old(store.View()), limits, now)
    {
      hide HealthOf;
      var active := store.activeAlias;
      var refreshed := RefreshHealthLocked(limits, now);
      if !refreshed && !limits.NotExist? {
        return false;
      }
      var current := if active in store.health then store.health[active] else Health(active, Unknown, 0, 0, None);
      store.health := store.health[active := current.(status := Exhausted, fiveHour := 0, observedAt := Some(now))];
      return true;
    }

    /** By health if any account's is known and good, else the alphabetically first other enabled account. */
    method ChooseHardTarget() returns (target: string, reason: string, ok: bool)
      requires store.Valid()
      ensures ok <==> exists a :: OtherEnabled(store.accounts, store.activeAlias, a)
      ensures ok ==> HardTarget(store.View(), target, reason)
    {
      hide ValidAlias, Better, Precedes;
      var choice := ChooseEnabledTarget();
      if choice.ok {
        CandidateIsOther(store, choice.alias);
        return choice.alias, choice.reason, true;
      }
      target, ok := FallbackAlias(store.activeAlias);
      reason := "first_enabled_fallback";
      if ok {
        assert target in store.accounts;
      }
    }

    /** After a turn failed for lack of quota: mark the account exhausted and move on. */
    method HardSwitchLocked(limits: Limits, now: int) returns (switched: bool)
      requires store.Valid()
      modifies store
      ensures store.Valid()
      ensures HardSwitch(old(store.View()), limits, now, store.View(), switched)
    {
      hide Sound, OutOfQuota, HardTarget;
      ghost var w := store.View();
      switched := false;
      if store.activeAlias == "" {
        return;
      }
      MarkedSound(w, limits, now);
      var marked := MarkExhausted(limits, now);
      if !marked {
        return;
      }
      var target, reason, ok := ChooseHardTarget();
      if !ok {
        return;
      }
      ghost var m := store.View();
      HardTargetStored(m, target, reason);
      switched := SwitchActiveAliasLocked(target, "hard_usage_exhausted", reason, now);
      assert store.View() == SwitchedTo(m, target, "hard_usage_exhausted", reason, now);
      HardSound(w, limits, now, store.View(), switched);
    }

    /** One turn for the caller: at most one soft switch before it, and at most one hard switch and retry after it.
        `recovery` says, attempt by attempt, whether the runtime was told to resume after a switch. */
    method RunTextTurn(asked: bool, first: Turn, second: Turn, before: int, hardLimits: Limits, limits: Limits, now: int)
      returns (done: bool, recovery: seq<bool>)
      requires store.Valid()
      modifies store
      ensures store.Valid()
      ensures TurnStep(old(store.View()), TurnCall(asked, first, second, before, hardLimits, limits, now), store.View(),
                       Report(done, recovery))
    {
      hide Sound, SoftSwitch, HardSwitch, Renewed, Synced, CanSync;
      ghost var w := store.View();
      ghost var call := TurnCall(asked, first, second, before, hardLimits, limits, now);
      var switched := MaybeSoftSwitchLocked(before);
      ghost var w1 := store.View();
      recovery := [asked || switched];
      RuntimeTurn(first);
      ghost var w2 := store.View();
      done := false;
      if first.outcome.Done? {
        done := SyncLiveAuthLocked(limits, now);
        assert TurnVia(w, call, store.View(), Report(done, recovery), switched, w1, false, w2);
        return;
      }
      if !first.outcome.UsageExhausted? {
        assert TurnVia(w, call, store.View(), Report(done, recovery), switched, w1, false, w2);
        return;
      }
      var retried := HardSwitchLocked(hardLimits, now);
      ghost var w3 := store.View();
      if !retried {
        assert TurnVia(w, call, w3, Report(done, recovery), switched, w1, false, w3);
        return;
      }
      recovery := recovery + [true];
      RuntimeTurn(second);
      if second.outcome.Done? {
        done := SyncLiveAuthLocked(limits, now);
      }
      assert TurnVia(w, call, store.View(), Report(done, recovery), switched, w1, true, w3);
    }
  }

  lemma HardTargetStored(w: World, a: string, reason: string)
    requires HardTarget(w, a, reason)
    ensures a in w.snapshots
  {
  }

  lemma CandidateIsOther(store: Store, a: string)
    requires store.Valid() && Candidate(store.accounts, store.health, store.activeAlias, a)
    ensures OtherEnabled(store.accounts, store.activeAlias, a)
  {
    assert store.health[a].alias == a;
  }

  lemma ChoiceIsBest(candidates: seq<Health>, r: Choice, store: Store)
    requires store.Valid() && Chosen(candidates, store.activeAlias, r)
    requires forall a :: a in store.accounts && store.accounts[a] && a in store.health ==> store.health[a] in candidates
    requires forall c :: c in candidates ==>
               exists a :: a in store.accounts && store.accounts[a] && a in store.health && store.health[a] == c
    ensures r.ok <==> AnyCandidate(store.accounts, store.health, store.activeAlias)
    ensures r.ok ==> BestCandidate(store.accounts, store.health, store.activeAlias, r.alias)
                     && r.reason == TierReason(store.health[r.alias])
  {
    hide Chosen, Eligible, Better, TierReason, ValidAlias;
    ChoiceOptimal(candidates, store.activeAlias, r);
    forall a | Candidate(store.accounts, store.health, store.activeAlias, a)
      ensures exists i :: 0 <= i < |candidates| && candidates[i] == store.health[a]
    {
      assert store.health[a] in candidates;
    }
    if i :| 0 <= i < |candidates| && Eligible(store.activeAlias, candidates[i]) {
      assert candidates[i] in candidates;
      var a :| a in store.accounts && store.accounts[a] && a in store.health && store.health[a] == candidates[i];
      assert Candidate(store.accounts, store.health, store.activeAlias, a);
      var k :| Unbeaten(candidates, store.activeAlias, r, k);
      assert candidates[k] in candidates;
    }
  }

  // ----- any run of both -------------------------------------------------------------------

  /** Performs any operations on an empty directory; `trace` holds the state after each. */
  method Operate(live: Option<Auth>, runtimeActive: bool, ops: seq<Op>) returns (store: Store, ghost trace: seq<World>)
    requires forall i :: 0 <= i < |ops| ==> Honest(ops[i])
    ensures fresh(store) && store.Valid()
    ensures IsRun(trace, runtimeActive, ops) && trace[0] == Empty(live) && trace[|ops|] == store.View()
  {
    hide Sound, Step, Added, Imported, Removed, Toggled, TurnStep, Honest;
    store := new Store(live);
    var manager := new Manager(store, runtimeActive);
    var coordinator := new Coordinator(store);
    trace := [store.View()];
    for i := 0 to |ops|
      invariant fresh(store) && store.Valid()
      invariant manager.store == store && manager.runtimeActive == runtimeActive && coordinator.store == store
      invariant |trace| == i + 1 && trace[0] == Empty(live) && trace[i] == store.View()
      invariant forall k :: 0 <= k < i ==> Step(trace[k], runtimeActive, ops[k], trace[k + 1])
    {
      ghost var was := trace;
      Perform(manager, coordinator, ops[i]);
      trace := trace + [store.View()];
      assert forall k :: 0 <= k < |was| ==> trace[k] == was[k];
    }
  }

  method Perform(manager: Manager, coordinator: Coordinator, op: Op)
    requires manager.store == coordinator.store && manager.store.Valid() && Honest(op)
    modifies manager.store
    ensures manager.store.Valid() && Step(old(manager.store.View()), manager.runtimeActive, op, manager.store.View())
  {
    hide Sound, Added, Imported, Removed, Toggled, TurnStep;
    match op {
      case AddOp(alias, isolated, login, at) => var _ := manager.Add(alias, isolated, login, at);
      case ImportOp(alias, payload, at) => var _ := manager.Import(alias, payload, at);
      case RemoveOp(alias) => var _ := manager.Remove(alias);
      case SetEnabledOp(alias, enabled) => var _ := manager.SetEnabled(alias, enabled);
      case TurnOp(c) =>
        var _, _ := coordinator.RunTextTurn(c.asked, c.first, c.second, c.before, c.hardLimits, c.limits, c.now);
    }
  }
}
