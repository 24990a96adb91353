/** The accounts directory as a value, what each operation makes of it, and what holds after any run of operations:
    every credential stays with the account it belongs to. */
module AccountRuns {
  import opened Options
  import opened AccountPolicy

  /** A credential; `owner` is the account it was issued for. */
  datatype Auth = Auth(owner: string, token: int, lastRefresh: Option<int>)

  datatype Snapshot = Snapshot(auth: Auth, mtime: int)

  datatype SwitchEvent = SwitchEvent(occurredAt: int, source: string, target: string, trigger: string, reason: string)

  /** The state file (active alias, and which accounts are enabled), one credential snapshot per account, the live
      credential, the health file and the switch log. */
  datatype World = World(
    activeAlias: string,
    accounts: map<string, bool>,
    snapshots: map<string, Snapshot>,
    live: Option<Auth>,
    health: map<string, Health>,
    audit: seq<SwitchEvent>)

  predicate AliasChar(c: char) {
    'a' <= c <= 'z' || 'A' <= c <= 'Z' || '0' <= c <= '9'
  }

  predicate ValidAlias(alias: string) {
    && 1 <= |alias| <= 64 && AliasChar(alias[0])
    && forall i :: 1 <= i < |alias| ==> AliasChar(alias[i]) || alias[i] == '.' || alias[i] == '_' || alias[i] == '-'
  }

  /** The ASCII codes of the digits, the capital letters and the small letters. */
  predicate Alphanumeric(code: int) {
    48 <= code < 58 || 65 <= code < 91 || 97 <= code < 123
  }

  /** An alias has one to 64 characters: a letter or a digit, then letters, digits, hyphens (45), dots (46) and
      underscores (95). */
  lemma AliasMeaning(alias: string)
    ensures ValidAlias(alias) <==>
            && alias != "" && |alias| < 65 && Alphanumeric(alias[0] as int)
            && forall i :: 1 <= i < |alias| ==>
                 Alphanumeric(alias[i] as int) || alias[i] as int == 45 || alias[i] as int == 46 || alias[i] as int == 95
  {
    assert '-' as int == 45 && '.' as int == 46 && '_' as int == 95;
    forall c: char
      ensures AliasChar(c) <==> Alphanumeric(c as int)
      ensures c == '-' || c == '.' || c == '_' <==> c as int == 45 || c as int == 46 || c as int == 95
    {
    }
  }

  function Empty(live: Option<Auth>): World {
    World("", map[], map[], live, map[], [])
  }

  /** Ownership: every snapshot is its account's own credential, and so is the live one of the active account. */
  ghost predicate Owned(w: World) {
    && (forall a :: a in w.snapshots ==> w.snapshots[a].auth.owner == a)
    && (w.activeAlias != "" && w.live.Some? ==> w.live.value.owner == w.activeAlias)
  }

  ghost predicate Sound(w: World) {
    && Owned(w)
    && w.accounts.Keys <= w.snapshots.Keys
    && (w.activeAlias != "" ==> w.activeAlias in w.snapshots)
    && (forall a :: a in w.snapshots ==> ValidAlias(a))
    && (forall a :: a in w.health ==> a != "" && w.health[a].alias == a && 0 <= w.health[a].fiveHour && 0 <= w.health[a].weekly)
  }

  /** The credential can still be found somewhere. */
  ghost predicate Kept(w: World, auth: Auth) {
    w.live == Some(auth) || exists a :: a in w.snapshots && w.snapshots[a].auth == auth
  }

  // ----- the manager's operations ----------------------------------------------------------

  datatype Outcome = Ok | IsolationRequired | AlreadyExists | Failed

  /** What a login left in its home directory. */
  datatype Login = Login(ok: bool, left: Option<Auth>)

  predicate Captured(login: Login) {
    login.ok && login.left.Some?
  }

  /** The live credential is put away under the active alias. */
  function PutAway(w: World, now: int): World {
    if w.activeAlias != "" && w.live.Some? then
      w.(snapshots := w.snapshots[w.activeAlias := Snapshot(w.live.value, now)])
    else w
  }

  function Persisted(w: World, alias: string, auth: Auth, now: int): World {
    w.(snapshots := w.snapshots[alias := Snapshot(auth, now)], accounts := w.accounts[alias := true])
  }

  function Added(w: World, runtimeActive: bool, alias: string, isolated: bool, login: Login, now: int): (World, Outcome) {
    if runtimeActive && !isolated then (w, IsolationRequired)
    else if alias in w.accounts then (w, AlreadyExists)
    else if !ValidAlias(alias) then (w, Failed)
    else if alias in w.snapshots then (w, AlreadyExists)
    else
      var base := if isolated then w else PutAway(w, now);
      if Captured(login) then (Persisted(base, alias, login.left.value, now), Ok) else (base, Failed)
  }

  function Imported(w: World, alias: string, payload: Option<Auth>, now: int): (World, Outcome) {
    if alias in w.accounts then (w, AlreadyExists)
    else if !ValidAlias(alias) then (w, Failed)
    else if alias in w.snapshots then (w, AlreadyExists)
    else if payload.None? then (w, Failed)
    else (Persisted(PutAway(w, now), alias, payload.value, now).(live := payload, activeAlias := alias), Ok)
  }

  function Removed(w: World, alias: string): (World, Outcome) {
    if alias == w.activeAlias then (w, Failed)
    else (w.(accounts := w.accounts - {alias}, snapshots := w.snapshots - {alias}), Ok)
  }

  function Toggled(w: World, alias: string, enabled: bool): (World, Outcome) {
    if alias !in w.accounts && (!ValidAlias(alias) || alias !in w.snapshots) then (w, Failed)
    else (w.(accounts := w.accounts[alias := enabled]), Ok)
  }

  // ----- what they promise -----------------------------------------------------------------

  lemma PutAwaySound(w: World, now: int)
    requires Sound(w)
    ensures var p := PutAway(w, now);
            && Sound(p) && p == w.(snapshots := p.snapshots) && p.snapshots.Keys == w.snapshots.Keys
            && forall a :: a in w.snapshots ==>
                 p.snapshots[a] == w.snapshots[a]
                 || (a == w.activeAlias && w.live.Some? && p.snapshots[a].auth == w.live.value)
  {
    hide ValidAlias;
  }

  lemma PersistedSound(w: World, alias: string, auth: Auth, now: int)
    requires Sound(w) && ValidAlias(alias) && auth.owner == alias
    ensures Sound(Persisted(w, alias, auth, now))
  {
    hide ValidAlias;
  }

  /** Adding succeeds exactly under its checks, never touches the live credential or what is active, and stores the
      captured credential under its owner; a failure leaves at most the active account's snapshot fresher. */
  lemma AddedExact(w: World, runtimeActive: bool, alias: string, isolated: bool, login: Login, now: int)
    requires Sound(w) && (Captured(login) ==> login.left.value.owner == alias)
    ensures var (w', r) := Added(w, runtimeActive, alias, isolated, login, now);
            && Sound(w') && w'.live == w.live && w'.activeAlias == w.activeAlias && w'.health == w.health && w'.audit == w.audit
            && (r.Ok? <==> (isolated || !runtimeActive) && ValidAlias(alias) && alias !in w.snapshots && Captured(login))
            && w'.accounts == (if r.Ok? then w.accounts[alias := true] else w.accounts)
            && (r.Ok? ==> alias in w'.snapshots && w'.snapshots[alias].auth == login.left.value)
            && forall a :: a != alias ==>
                 (a in w'.snapshots <==> a in w.snapshots)
                 && (a in w.snapshots ==>
                       w'.snapshots[a] == w.snapshots[a]
                       || (!isolated && a == w.activeAlias && w.live.Some? && w'.snapshots[a].auth == w.live.value))
  {
    hide ValidAlias, PutAway;
    assert w.accounts.Keys <= w.snapshots.Keys;
    PutAwaySound(w, now);
    hide Sound;
    var base := if isolated then w else PutAway(w, now);
    if ValidAlias(alias) && Captured(login) {
      PersistedSound(base, alias, login.left.value, now);
    }
  }

  /** Importing makes the account active with its own credential and keeps the credential it replaces. */
  lemma ImportedExact(w: World, alias: string, payload: Option<Auth>, now: int)
    requires Sound(w) && (payload.Some? ==> payload.value.owner == alias)
    ensures var (w', r) := Imported(w, alias, payload, now);
            && Sound(w') && w'.health == w.health && w'.audit == w.audit
            && (r.Ok? <==> payload.Some? && ValidAlias(alias) && alias !in w.snapshots)
            && (r.Ok? ==> w'.activeAlias == alias && w'.live == payload && w'.accounts == w.accounts[alias := true])
            && (!r.Ok? ==> w' == w)
            && (w.activeAlias != "" && w.live.Some? ==> Kept(w', w.live.value))
  {
    hide ValidAlias;
    var (w', r) := Imported(w, alias, payload, now);
    if r.Ok? && w.activeAlias != "" && w.live.Some? {
      assert w'.snapshots[w.activeAlias].auth == w.live.value;
    }
  }

  lemma RemovedExact(w: World, alias: string)
    requires Sound(w)
    ensures var (w', r) := Removed(w, alias);
            && Sound(w') && w'.live == w.live && w'.activeAlias == w.activeAlias && w'.audit == w.audit
            && (r.Ok? <==> alias != w.activeAlias)
            && w'.health == w.health && (!r.Ok? ==> w' == w)
            && (r.Ok? ==> alias !in w'.accounts && alias !in w'.snapshots)
            && (forall a :: a != alias ==>
                  (a in w'.accounts <==> a in w.accounts) && (a in w.accounts ==> w'.accounts[a] == w.accounts[a]))
            && forall a :: a != alias ==>
                 (a in w'.snapshots <==> a in w.snapshots) && (a in w.snapshots ==> w'.snapshots[a] == w.snapshots[a])
  {
    hide ValidAlias;
  }

  /** An unknown alias is adopted exactly if a snapshot of it exists. */
  lemma ToggledExact(w: World, alias: string, enabled: bool)
    requires Sound(w)
    ensures var (w', r) := Toggled(w, alias, enabled);
            && Sound(w') && w'.(accounts := w.accounts) == w
            && (r.Ok? <==> alias in w.snapshots)
            && (r.Ok? ==> w'.accounts == w.accounts[alias := enabled]) && (!r.Ok? ==> w' == w)
  {
    hide ValidAlias;
  }

  // ----- health ----------------------------------------------------------------------------

  datatype RateLimit = RateLimit(primaryUsed: Option<int>, secondaryUsed: Option<int>)

  datatype Limits = Limits(limits: seq<RateLimit>) | NotExist | Unavailable

  datatype TurnOutcome = Done | UsageExhausted | OtherError

  /** One turn of the runtime: how it ended, and whether it renewed the live credential's token. */
  datatype Turn = Turn(outcome: TurnOutcome, renewed: Option<int>)

  function ClampRemainingPercent(used: int): (r: int)
    ensures 0 <= r <= 100
  {
    if used <= 0 then 100 else if used >= 100 then 0 else 100 - used
  }

  /** Limit k is the last to report the five-hour window. */
  predicate LastPrimary(limits: seq<RateLimit>, k: int) {
    && 0 <= k < |limits| && limits[k].primaryUsed.Some?
    && forall j :: k < j < |limits| ==> limits[j].primaryUsed.None?
  }

  predicate LastSecondary(limits: seq<RateLimit>, k: int) {
    && 0 <= k < |limits| && limits[k].secondaryUsed.Some?
    && forall j :: k < j < |limits| ==> limits[j].secondaryUsed.None?
  }

  lemma LastReported(limits: seq<RateLimit>, n: nat, k: int)
    requires |limits| == n + 1
    ensures LastPrimary(limits, k) ==> if limits[n].primaryUsed.Some? then k == n else LastPrimary(limits[..n], k)
    ensures LastSecondary(limits, k) ==> if limits[n].secondaryUsed.Some? then k == n else LastSecondary(limits[..n], k)
  {
    forall j | 0 <= j < n
      ensures limits[..n][j] == limits[j]
    {
    }
  }

  /** The room the last limit that reports a window leaves in it; none if no limit reports it. */
  function FiveHourLeft(limits: seq<RateLimit>): (r: int)
    ensures 0 <= r <= 100
  {
    if limits == [] then 0
    else
      var last := limits[|limits| - 1];
      if last.primaryUsed.Some? then ClampRemainingPercent(last.primaryUsed.value) else FiveHourLeft(limits[..|limits| - 1])
  }

  function WeeklyLeft(limits: seq<RateLimit>): (r: int)
    ensures 0 <= r <= 100
  {
    if limits == [] then 0
    else
      var last := limits[|limits| - 1];
      if last.secondaryUsed.Some? then ClampRemainingPercent(last.secondaryUsed.value) else WeeklyLeft(limits[..|limits| - 1])
  }

  /** What is left of a window of which `used` percent are used. */
  predicate Remains(used: int, left: int) {
    if used < 0 then left == 100
    else if used > 100 then left == 0
    else left + used == 100
  }

  lemma ClampRemains(used: int)
    ensures Remains(used, ClampRemainingPercent(used))
  {
  }

  /** On the reported numbers: what the last limit that reports the window says is used is missing from 100, and no
      report counts as nothing left. */
  lemma {:induction false} FiveHourMeaning(limits: seq<RateLimit>)
    ensures forall k :: LastPrimary(limits, k) ==> Remains(limits[k].primaryUsed.value, FiveHourLeft(limits))
    ensures (forall l :: l in limits ==> l.primaryUsed.None?) ==> FiveHourLeft(limits) == 0
  {
    hide ClampRemainingPercent, Remains;
    if limits != [] {
      var n := |limits| - 1;
      FiveHourMeaning(limits[..n]);
      if limits[n].primaryUsed.Some? {
        ClampRemains(limits[n].primaryUsed.value);
      }
      forall k | LastPrimary(limits, k)
        ensures if limits[n].primaryUsed.Some? then k == n else LastPrimary(limits[..n], k)
      {
        LastReported(limits, n, k);
      }
    }
  }

  lemma {:induction false} WeeklyMeaning(limits: seq<RateLimit>)
    ensures forall k :: LastSecondary(limits, k) ==> Remains(limits[k].secondaryUsed.value, WeeklyLeft(limits))
    ensures (forall l :: l in limits ==> l.secondaryUsed.None?) ==> WeeklyLeft(limits) == 0
  {
    hide ClampRemainingPercent, Remains;
    if limits != [] {
      var n := |limits| - 1;
      WeeklyMeaning(limits[..n]);
      if limits[n].secondaryUsed.Some? {
        ClampRemains(limits[n].secondaryUsed.value);
      }
      forall k | LastSecondary(limits, k)
        ensures if limits[n].secondaryUsed.Some? then k == n else LastSecondary(limits[..n], k)
      {
        LastReported(limits, n, k);
      }
    }
  }

  function StatusOf(fiveHour: int, weekly: int): (r: Status)
    ensures r.Healthy? <==> fiveHour > SOFT_SWITCH_FIVE_HOUR_PERCENT && weekly >= WEEKLY_FLOOR_PERCENT
    ensures r.Exhausted? <==> fiveHour <= 0 || weekly <= 0
    ensures !r.Unknown?
  {
    if fiveHour <= 0 || weekly <= 0 then Exhausted
    else if fiveHour <= SOFT_SWITCH_FIVE_HOUR_PERCENT || weekly < WEEKLY_FLOOR_PERCENT then SoftDrain
    else Healthy
  }

  /** Health as the rate limits report it. */
  function HealthOf(alias: string, limits: seq<RateLimit>, now: int): Health {
    Health(alias, StatusOf(FiveHourLeft(limits), WeeklyLeft(limits)), FiveHourLeft(limits), WeeklyLeft(limits), Some(now))
  }

  /** What a health entry read off the limits says: the percentages left according to the last report of each window,
      an exhausted account if either is used up, a healthy one from eleven and twenty percent on. */
  ghost predicate ReadOff(h: Health, alias: string, limits: seq<RateLimit>, now: int) {
    && h.alias == alias && h.observedAt == Some(now)
    && (forall k :: LastPrimary(limits, k) ==> Remains(limits[k].primaryUsed.value, h.fiveHour))
    && ((forall l :: l in limits ==> l.primaryUsed.None?) ==> h.fiveHour == 0)
    && (forall k :: LastSecondary(limits, k) ==> Remains(limits[k].secondaryUsed.value, h.weekly))
    && ((forall l :: l in limits ==> l.secondaryUsed.None?) ==> h.weekly == 0)
    && (h.status.Exhausted? <==> h.fiveHour == 0 || h.weekly == 0)
    && (h.status.Healthy? <==> h.fiveHour >= 11 && h.weekly >= 20)
    && !h.status.Unknown?
  }

  lemma HealthReadOff(alias: string, limits: seq<RateLimit>, now: int)
    ensures ReadOff(HealthOf(alias, limits, now), alias, limits, now)
  {
    hide Remains, LastPrimary, LastSecondary;
    FiveHourMeaning(limits);
    WeeklyMeaning(limits);
  }

  // ----- candidates ------------------------------------------------------------------------

  /** An enabled account with known, usable health, other than the active one. */
  ghost predicate Candidate(accounts: map<string, bool>, health: map<string, Health>, active: string, a: string) {
    a in accounts && accounts[a] && a in health && Eligible(active, health[a])
  }

  ghost predicate BestCandidate(accounts: map<string, bool>, health: map<string, Health>, active: string, a: string) {
    && Candidate(accounts, health, active, a)
    && forall b :: Candidate(accounts, health, active, b) ==> !Better(health[b], health[a])
  }

  ghost predicate AnyCandidate(accounts: map<string, bool>, health: map<string, Health>, active: string) {
    exists a :: Candidate(accounts, health, active, a)
  }

  ghost predicate OtherEnabled(accounts: map<string, bool>, active: string, a: string) {
    a in accounts && accounts[a] && a != active
  }

  /** The string order of the sorted alias list. */
  predicate Precedes(a: string, b: string) {
    b != [] && (a == [] || a[0] < b[0] || (a[0] == b[0] && Precedes(a[1..], b[1..])))
  }

  ghost predicate HardChoice(accounts: map<string, bool>, health: map<string, Health>, active: string, a: string) {
    && OtherEnabled(accounts, active, a)
    && if AnyCandidate(accounts, health, active) then BestCandidate(accounts, health, active, a)
       else forall b :: OtherEnabled(accounts, active, b) ==> b == a || Precedes(a, b)
  }

  lemma {:induction false} PrecedesTotal(a: string, b: string)
    ensures a == b || Precedes(a, b) || Precedes(b, a)
  {
    if a != [] && b != [] && a[0] == b[0] {
      PrecedesTotal(a[1..], b[1..]);
      if a[1..] == b[1..] {
        assert a == [a[0]] + a[1..] && b == [b[0]] + b[1..];
      }
    }
  }

  lemma {:induction false} PrecedesTrans(a: string, b: string, c: string)
    requires Precedes(a, b) && Precedes(b, c)
    ensures Precedes(a, c)
  {
    if a != [] && a[0] == b[0] == c[0] {
      PrecedesTrans(a[1..], b[1..], c[1..]);
    }
  }

  lemma {:induction false} PrecedesIrreflexive(a: string)
    ensures !Precedes(a, a)
  {
    if a != [] {
      PrecedesIrreflexive(a[1..]);
    }
  }

  /** With nobody eligible the hard switch has one target, in whatever order the accounts are listed. */
  lemma FallbackUnique(accounts: map<string, bool>, health: map<string, Health>, active: string, a: string, b: string)
    requires !AnyCandidate(accounts, health, active)
    requires HardChoice(accounts, health, active, a) && HardChoice(accounts, health, active, b)
    ensures a == b
  {
    if a != b {
      PrecedesTrans(a, b, a);
      PrecedesIrreflexive(a);
    }
  }

  // ----- the coordinator's operations ------------------------------------------------------

  function SwitchedTo(w: World, target: string, trigger: string, reason: string, now: int): World
    requires target in w.snapshots
  {
    w.(activeAlias := target, live := Some(w.snapshots[target].auth),
       audit := w.audit + [SwitchEvent(now, w.activeAlias, target, trigger, reason)])
  }

  ghost predicate SoftDue(w: World, now: int) {
    && w.activeAlias != "" && w.activeAlias in w.health && ShouldSoftSwitch(now, w.health[w.activeAlias])
    && AnyCandidate(w.accounts, w.health, w.activeAlias)
  }

  ghost predicate SoftTarget(w: World, a: string) {
    BestCandidate(w.accounts, w.health, w.activeAlias, a) && a in w.snapshots
  }

  /** Before a turn: away from a nearly used-up account, to a best enabled candidate. */
  ghost predicate SoftSwitch(w: World, now: int, w': World, switched: bool) {
    && (switched <==> SoftDue(w, now))
    && (switched ==>
          exists a :: SoftTarget(w, a) && w' == SwitchedTo(w, a, "soft_threshold_5h", TierReason(w.health[a]), now))
    && (!switched ==> w' == w)
  }

  function Refreshed(w: World, limits: Limits, now: int): World {
    if limits.Limits? then w.(health := w.health[w.activeAlias := HealthOf(w.activeAlias, limits.limits, now)]) else w
  }

  /** The active account ran out: its health is read again if the runtime can say, and it counts as exhausted. */
  function OutOfQuota(w: World, limits: Limits, now: int): World {
    if limits.Unavailable? then w
    else
      var r := Refreshed(w, limits, now);
      var current := if r.activeAlias in r.health then r.health[r.activeAlias] else Health(r.activeAlias, Unknown, 0, 0, None);
      r.(health := r.health[r.activeAlias := current.(status := Exhausted, fiveHour := 0, observedAt := Some(now))])
  }

  ghost predicate HardDue(w: World, limits: Limits) {
    w.activeAlias != "" && !limits.Unavailable? && exists a :: OtherEnabled(w.accounts, w.activeAlias, a)
  }

  ghost predicate HardTarget(w: World, a: string, reason: string) {
    && HardChoice(w.accounts, w.health, w.activeAlias, a) && a in w.snapshots
    && reason == if AnyCandidate(w.accounts, w.health, w.activeAlias) && a in w.health then TierReason(w.health[a])
                 else "first_enabled_fallback"
  }

  /** After a turn failed for lack of quota. */
  ghost predicate HardSwitch(w: World, limits: Limits, now: int, w': World, switched: bool) {
    && (switched <==> HardDue(w, limits))
    && var marked := if w.activeAlias == "" then w else OutOfQuota(w, limits, now);
       && (switched ==>
             exists a, reason :: HardTarget(marked, a, reason)
               && w' == SwitchedTo(marked, a, "hard_usage_exhausted", reason, now))
       && (!switched ==> w' == marked)
  }

  /** When an account's snapshot was last refreshed: as it says itself, or when it was written. */
  function RefreshTime(w: World, alias: string): Option<int> {
    if alias !in w.snapshots then None
    else if w.snapshots[alias].auth.lastRefresh.Some? then w.snapshots[alias].auth.lastRefresh
    else Some(w.snapshots[alias].mtime)
  }

  predicate CanSync(w: World, limits: Limits) {
    w.activeAlias == "" || limits.Limits?
  }

  /** After a turn: health is refreshed, and a snapshot that is six hours old takes over the live credential. */
  function Synced(w: World, limits: Limits, now: int): World {
    if w.activeAlias == "" || !limits.Limits? then w
    else
      var r := Refreshed(w, limits, now);
      if ShouldSyncAfterTurn(RefreshTime(w, w.activeAlias), now) && w.live.Some? then
        r.(snapshots := r.snapshots[r.activeAlias := Snapshot(r.live.value, now)])
      else r
  }

  /** The runtime runs with the live credential and may renew its token. */
  function Renewed(w: World, turn: Turn): World {
    if w.live.Some? && turn.renewed.Some? then w.(live := Some(w.live.value.(token := turn.renewed.value))) else w
  }

  /** What the caller of a turn sees: whether it came to its end, and for each attempt whether the runtime was told to
      resume after a switch. */
  datatype Report = Report(done: bool, recovery: seq<bool>)

  datatype TurnCall =
    TurnCall(asked: bool, first: Turn, second: Turn, before: int, hardLimits: Limits, limits: Limits, now: int)

  /** One turn: `w1` is the state after the soft switch, if there was one, and `w3` after the hard switch. */
  ghost predicate TurnVia(w: World, c: TurnCall, w': World, r: Report, soft: bool, w1: World, hard: bool, w3: World) {
    && SoftSwitch(w, c.before, w1, soft)
    && var w2 := Renewed(w1, c.first);
       if !c.first.outcome.UsageExhausted? then
         && !hard && w3 == w2 && r.recovery == [c.asked || soft]
         && r.done == (c.first.outcome.Done? && CanSync(w2, c.limits))
         && w' == if c.first.outcome.Done? then Synced(w2, c.limits, c.now) else w2
       else
         && HardSwitch(w2, c.hardLimits, c.now, w3, hard)
         && if !hard then w' == w3 && !r.done && r.recovery == [c.asked || soft]
            else
              var w4 := Renewed(w3, c.second);
              && r.recovery == [c.asked || soft, true]
              && r.done == (c.second.outcome.Done? && CanSync(w4, c.limits))
              && w' == if c.second.outcome.Done? then Synced(w4, c.limits, c.now) else w4
  }

  ghost predicate TurnStep(w: World, c: TurnCall, w': World, r: Report) {
    exists soft: bool, w1: World, hard: bool, w3: World :: TurnVia(w, c, w', r, soft, w1, hard, w3)
  }

  // ----- when a switch happens and where it goes, in numbers --------------------------------

  /** An enabled account other than the active one that is known not to be used up. */
  predicate Usable(w: World, a: string) {
    && a in w.accounts && w.accounts[a] && a != w.activeAlias
    && a in w.health && (w.health[a].status.Healthy? || w.health[a].status.SoftDrain?)
  }

  /** Twenty percent of the week left come first, then more of the five hours, then more of the week. */
  predicate Outranks(a: Health, b: Health) {
    || (a.weekly >= 20 && b.weekly < 20)
    || ((a.weekly >= 20 <==> b.weekly >= 20)
        && (a.fiveHour > b.fiveHour || (a.fiveHour == b.fiveHour && a.weekly > b.weekly)))
  }

  /** The active account was seen at most fifteen minutes ago with at most ten percent of its five hours left. */
  predicate RunningLow(w: World, now: int) {
    && w.activeAlias != "" && w.activeAlias in w.health
    && var h := w.health[w.activeAlias]; h.observedAt.Some? && now <= h.observedAt.value + 900 && h.fiveHour <= 10
  }

  /** The target is a usable account that no usable one outranks, and the reason says on what grounds. */
  ghost predicate ByHealth(w: World, target: string, reason: string) {
    && Usable(w, target) && (forall b :: Usable(w, b) ==> !Outranks(w.health[b], w.health[target]))
    && reason == if w.health[target].weekly >= 20 then "best_5h_headroom" else "least_bad_fallback"
  }

  /** Nobody is usable, and the target is the alphabetically first other enabled account. */
  ghost predicate ByName(w: World, target: string, reason: string) {
    && (forall b :: !Usable(w, b)) && reason == "first_enabled_fallback"
    && target in w.accounts && w.accounts[target] && target != w.activeAlias
    && forall b :: b in w.accounts && w.accounts[b] && b != w.activeAlias && b != target ==> Precedes(target, b)
  }

  /** What any switch does: the target's stored credential becomes the live one, and one event is logged. */
  predicate Switches(w: World, w': World, now: int, trigger: string, reason: string) {
    && w'.activeAlias in w.snapshots && w'.live == Some(w.snapshots[w'.activeAlias].auth)
    && w'.audit == w.audit + [SwitchEvent(now, w.activeAlias, w'.activeAlias, trigger, reason)]
    && w'.accounts == w.accounts && w'.snapshots == w.snapshots && w'.health == w.health
  }

  lemma CandidateUsable(w: World, a: string)
    requires Sound(w)
    ensures Candidate(w.accounts, w.health, w.activeAlias, a) <==> Usable(w, a)
  {
    hide ValidAlias;
  }

  lemma BestOutranked(w: World, a: string)
    requires Sound(w) && BestCandidate(w.accounts, w.health, w.activeAlias, a)
    ensures ByHealth(w, a, TierReason(w.health[a]))
  {
    hide Sound, Candidate, Usable;
    forall b
      ensures Candidate(w.accounts, w.health, w.activeAlias, b) <==> Usable(w, b)
    {
      CandidateUsable(w, b);
    }
  }

  /** The soft switch, exactly: it happens if the active account is running low and another is usable, and then goes to
      one that none outranks. */
  lemma SoftExact(w: World, now: int, w': World, switched: bool)
    requires Sound(w) && SoftSwitch(w, now, w', switched)
    ensures switched <==> RunningLow(w, now) && exists a :: Usable(w, a)
    ensures switched ==> exists reason :: ByHealth(w, w'.activeAlias, reason) && Switches(w, w', now, "soft_threshold_5h", reason)
    ensures !switched ==> w' == w
  {
    hide Sound, Usable, ByHealth;
    forall a
      ensures Candidate(w.accounts, w.health, w.activeAlias, a) <==> Usable(w, a)
    {
      CandidateUsable(w, a);
    }
    if switched {
      var a :| SoftTarget(w, a) && w' == SwitchedTo(w, a, "soft_threshold_5h", TierReason(w.health[a]), now);
      BestOutranked(w, a);
    }
  }

  /** What an account that ran out looks like: exhausted, none of its five hours left, seen now; what is left of its week
      is read off the limits if the runtime reports any, and otherwise stays. */
  ghost predicate UsedUp(w: World, limits: Limits, now: int, h: Health) {
    && h.alias == w.activeAlias && h.status.Exhausted? && h.fiveHour == 0 && h.observedAt == Some(now)
    && (limits.Limits? ==>
          && (forall k :: LastSecondary(limits.limits, k) ==> Remains(limits.limits[k].secondaryUsed.value, h.weekly))
          && ((forall l :: l in limits.limits ==> l.secondaryUsed.None?) ==> h.weekly == 0))
    && (limits.NotExist? ==> h.weekly == if w.activeAlias in w.health then w.health[w.activeAlias].weekly else 0)
  }

  lemma MarkedExact(w: World, limits: Limits, now: int)
    requires Sound(w) && w.activeAlias != "" && !limits.Unavailable?
    ensures var m := OutOfQuota(w, limits, now);
            && w.activeAlias in m.health && UsedUp(w, limits, now, m.health[w.activeAlias])
            && m == w.(health := w.health[w.activeAlias := m.health[w.activeAlias]])
  {
    hide ValidAlias, FiveHourLeft, WeeklyLeft, StatusOf, Remains, LastSecondary;
    if limits.Limits? {
      WeeklyMeaning(limits.limits);
    }
  }

  /** The hard switch, exactly: the account that ran out is marked unless the runtime cannot say anything, and the switch
      happens if another account is enabled: by health if one is usable, else by name. */
  lemma HardExact(w: World, limits: Limits, now: int, w': World, switched: bool)
    requires Sound(w) && HardSwitch(w, limits, now, w', switched)
    ensures switched <==>
            w.activeAlias != "" && !limits.Unavailable? && exists a :: a in w.accounts && w.accounts[a] && a != w.activeAlias
    ensures w.activeAlias == "" || limits.Unavailable? ==> w' == w
    ensures w.activeAlias != "" && !limits.Unavailable? ==>
              exists h :: UsedUp(w, limits, now, h)
                && var m := w.(health := w.health[w.activeAlias := h]);
                   if switched then
                     exists reason :: (ByHealth(m, w'.activeAlias, reason) || ByName(m, w'.activeAlias, reason))
                       && Switches(m, w', now, "hard_usage_exhausted", reason)
                   else w' == m
  {
    hide Sound, OutOfQuota, UsedUp, ByHealth, ByName, HardChoice;
    if exists a :: OtherEnabled(w.accounts, w.activeAlias, a) {
      var a :| OtherEnabled(w.accounts, w.activeAlias, a);
      assert a in w.accounts && w.accounts[a] && a != w.activeAlias;
    }
    if exists a :: a in w.accounts && w.accounts[a] && a != w.activeAlias {
      var a :| a in w.accounts && w.accounts[a] && a != w.activeAlias;
      assert OtherEnabled(w.accounts, w.activeAlias, a);
    }
    if w.activeAlias != "" && !limits.Unavailable? {
      MarkedExact(w, limits, now);
      MarkedSound(w, limits, now);
      var m := OutOfQuota(w, limits, now);
      var h := m.health[w.activeAlias];
      assert UsedUp(w, limits, now, h) && m == w.(health := w.health[w.activeAlias := h]);
      if switched {
        var a, reason :| HardTarget(m, a, reason) && w' == SwitchedTo(m, a, "hard_usage_exhausted", reason, now);
        HardTargetMeans(m, a, reason);
      }
    } else if limits.Unavailable? && w.activeAlias != "" {
      UnavailableUnmarked(w, limits, now);
    }
  }

  lemma UnavailableUnmarked(w: World, limits: Limits, now: int)
    requires limits.Unavailable?
    ensures OutOfQuota(w, limits, now) == w
  {
  }

  lemma HardTargetMeans(w: World, a: string, reason: string)
    requires Sound(w) && HardTarget(w, a, reason)
    ensures a in w.snapshots && (ByHealth(w, a, reason) || ByName(w, a, reason))
  {
    hide Sound, Candidate, Usable, ByHealth, Precedes, BestCandidate, TierReason;
    forall b
      ensures Candidate(w.accounts, w.health, w.activeAlias, b) <==> Usable(w, b)
    {
      CandidateUsable(w, b);
    }
    if AnyCandidate(w.accounts, w.health, w.activeAlias) {
      BestHasHealth(w, a);
      BestOutranked(w, a);
    }
  }

  lemma BestHasHealth(w: World, a: string)
    requires BestCandidate(w.accounts, w.health, w.activeAlias, a)
    ensures a in w.health
  {
  }

  /** When a stored credential counts as old: six hours after the refresh it records, or else after it was written. */
  predicate SixHoursOld(s: Snapshot, now: int) {
    now >= 21600 + if s.auth.lastRefresh.Some? then s.auth.lastRefresh.value else s.mtime
  }

  // ----- each step -------------------------------------------------------------------------

  datatype Op =
    | AddOp(alias: string, isolated: bool, login: Login, at: int)
    | ImportOp(alias: string, payload: Option<Auth>, at: int)
    | RemoveOp(alias: string)
    | SetEnabledOp(alias: string, enabled: bool)
    | TurnOp(call: TurnCall)

  /** Credentials come in under the alias they were issued for. */
  predicate Honest(op: Op) {
    match op
    case AddOp(alias, _, login, _) => Captured(login) ==> login.left.value.owner == alias
    case ImportOp(alias, payload, _) => payload.Some? ==> payload.value.owner == alias
    case _ => true
  }

  ghost predicate Step(w: World, runtimeActive: bool, op: Op, w': World) {
    match op
    case AddOp(alias, isolated, login, at) => w' == Added(w, runtimeActive, alias, isolated, login, at).0
    case ImportOp(alias, payload, at) => w' == Imported(w, alias, payload, at).0
    case RemoveOp(alias) => w' == Removed(w, alias).0
    case SetEnabledOp(alias, enabled) => w' == Toggled(w, alias, enabled).0
    case TurnOp(call) => exists r :: TurnStep(w, call, w', r)
  }

  /** The log of one turn: a soft switch before the first attempt, a hard switch before the second, each to an enabled
      account, and every attempt after a switch was told to resume. */
  ghost predicate TurnLog(before: seq<SwitchEvent>, after: seq<SwitchEvent>, accounts: map<string, bool>, source: string,
                          target: string, asked: bool, recovery: seq<bool>, soft: bool, mid: string)
  {
    && 1 <= |recovery| <= 2 && recovery[0] == (asked || soft) && (|recovery| == 2 ==> recovery[1])
    && |after| == |before| + (if soft then 1 else 0) + (|recovery| - 1) && after[..|before|] == before
    && (if soft then IsSwitch(after[|before|], accounts, source, mid, "soft_threshold_5h") else mid == source)
    && (if |recovery| == 2 then IsSwitch(after[|after| - 1], accounts, mid, target, "hard_usage_exhausted") else mid == target)
  }

  ghost predicate IsSwitch(e: SwitchEvent, accounts: map<string, bool>, source: string, target: string, trigger: string) {
    && e.source == source && e.target == target && e.trigger == trigger
    && source != target && target in accounts && accounts[target]
  }

  lemma SoftSound(w: World, now: int, w': World, switched: bool)
    requires Sound(w) && SoftSwitch(w, now, w', switched)
    ensures Sound(w') && w'.accounts == w.accounts && w'.snapshots == w.snapshots
    ensures switched ==> |w'.audit| == |w.audit| + 1 && w'.audit[..|w.audit|] == w.audit
                         && IsSwitch(w'.audit[|w.audit|], w.accounts, w.activeAlias, w'.activeAlias, "soft_threshold_5h")
  {
    hide ValidAlias, ShouldSoftSwitch, Better;
    if switched {
      var a :| SoftTarget(w, a) && w' == SwitchedTo(w, a, "soft_threshold_5h", TierReason(w.health[a]), now);
      assert w.health[a].alias == a != w.activeAlias;
    }
  }

  lemma MarkedSound(w: World, limits: Limits, now: int)
    requires Sound(w) && w.activeAlias != ""
    ensures var m := OutOfQuota(w, limits, now); Sound(m) && m == w.(health := m.health)
    ensures !limits.Unavailable? ==>
              var m := OutOfQuota(w, limits, now); w.activeAlias in m.health && m.health[w.activeAlias].status.Exhausted?
  {
    hide ValidAlias, FiveHourLeft, WeeklyLeft, StatusOf;
  }

  lemma HardSound(w: World, limits: Limits, now: int, w': World, switched: bool)
    requires Sound(w) && HardSwitch(w, limits, now, w', switched)
    ensures Sound(w') && w'.accounts == w.accounts && w'.snapshots == w.snapshots
    ensures switched ==> |w'.audit| == |w.audit| + 1 && w'.audit[..|w.audit|] == w.audit
                         && IsSwitch(w'.audit[|w.audit|], w.accounts, w.activeAlias, w'.activeAlias, "hard_usage_exhausted")
    ensures !switched ==> w' == w.(health := w'.health)
  {
    hide ValidAlias, OutOfQuota, AnyCandidate, BestCandidate, Precedes;
    if w.activeAlias != "" {
      MarkedSound(w, limits, now);
    }
  }

  lemma SyncSound(w: World, limits: Limits, now: int)
    requires Sound(w)
    ensures var s := Synced(w, limits, now);
            && Sound(s) && s.audit == w.audit && s.accounts == w.accounts && s.live == w.live && s.activeAlias == w.activeAlias
            && (w.activeAlias != "" && limits.Limits? ==>
                  && w.activeAlias in s.health && s.health == w.health[w.activeAlias := s.health[w.activeAlias]]
                  && ReadOff(s.health[w.activeAlias], w.activeAlias, limits.limits, now))
            && (w.activeAlias == "" || !limits.Limits? ==> s.health == w.health)
            && s.snapshots ==
               if w.activeAlias != "" && limits.Limits? && w.live.Some? && SixHoursOld(w.snapshots[w.activeAlias], now)
               then w.snapshots[w.activeAlias := Snapshot(w.live.value, now)] else w.snapshots
  {
    hide ValidAlias, FiveHourLeft, WeeklyLeft, StatusOf, ReadOff;
    if limits.Limits? {
      HealthReadOff(w.activeAlias, limits.limits, now);
    }
  }

  lemma RenewedSound(w: World, turn: Turn)
    requires Sound(w)
    ensures Sound(Renewed(w, turn)) && Renewed(w, turn) == w.(live := Renewed(w, turn).live)
  {
    hide ValidAlias;
  }

  /** One turn keeps ownership, and its log is at most one soft and one hard switch, in that order, each away from what
      was active to another enabled account; every attempt after a switch was told to resume. */
  lemma TurnSound(w: World, c: TurnCall, w': World, r: Report, soft: bool, w1: World, hard: bool, w3: World)
    requires Sound(w) && TurnVia(w, c, w', r, soft, w1, hard, w3)
    ensures Sound(w') && w'.accounts == w.accounts
    ensures TurnLog(w.audit, w'.audit, w.accounts, w.activeAlias, w'.activeAlias, c.asked, r.recovery, soft, w1.activeAlias)
  {
    hide Sound, SoftSwitch, HardSwitch, Synced, Renewed, CanSync;
    SoftSound(w, c.before, w1, soft);
    SoftUnchanged(w, c.before, w1, soft);
    RenewedSound(w1, c.first);
    var w2 := Renewed(w1, c.first);
    if !c.first.outcome.UsageExhausted? {
      SyncSound(w2, c.limits, c.now);
    } else {
      HardSound(w2, c.hardLimits, c.now, w3, hard);
      RenewedSound(w3, c.second);
      SyncSound(Renewed(w3, c.second), c.limits, c.now);
    }
  }

  /** The last attempt of a turn: the second, if there was one. */
  function LastAttempt(c: TurnCall, r: Report): Turn {
    if |r.recovery| == 2 then c.second else c.first
  }

  /** What one turn comes to.  There is a second attempt exactly if the first ran out of quota and a hard switch was made;
      the turn is done exactly if the last attempt is and, with an account active, its limits could be read; then, and only
      then, the health entry is read off the limits and a six hours old snapshot takes over the live credential. */
  lemma TurnExact(w: World, c: TurnCall, w': World, r: Report, soft: bool, w1: World, hard: bool, w3: World)
    requires Sound(w) && TurnVia(w, c, w', r, soft, w1, hard, w3)
    ensures |r.recovery| == (if c.first.outcome.UsageExhausted? && hard then 2 else 1)
    ensures hard ==> c.first.outcome.UsageExhausted?
    ensures r.done <==> LastAttempt(c, r).outcome.Done? && (w'.activeAlias == "" || c.limits.Limits?)
    ensures w'.activeAlias == w3.activeAlias && w'.audit == w3.audit
    ensures var synced := LastAttempt(c, r).outcome.Done? && w'.activeAlias != "" && c.limits.Limits?;
            && (synced ==> w'.activeAlias in w'.health && ReadOff(w'.health[w'.activeAlias], w'.activeAlias, c.limits.limits, c.now))
            && (!synced ==> w'.health == w3.health)
            && w'.snapshots ==
               if synced && w'.live.Some? && SixHoursOld(w.snapshots[w'.activeAlias], c.now)
               then w.snapshots[w'.activeAlias := Snapshot(w'.live.value, c.now)] else w.snapshots
    ensures var before := if hard then w3.live else w1.live;
            w'.live == if before.Some? && LastAttempt(c, r).renewed.Some?
                       then Some(before.value.(token := LastAttempt(c, r).renewed.value)) else before
  {
    hide Sound, SoftSwitch, HardSwitch, Synced, ReadOff, SixHoursOld;
    SoftSound(w, c.before, w1, soft);
    RenewedSound(w1, c.first);
    ActiveStored(w1);
    var w2 := Renewed(w1, c.first);
    if !c.first.outcome.UsageExhausted? {
      SyncSound(w2, c.limits, c.now);
    } else {
      HardSound(w2, c.hardLimits, c.now, w3, hard);
      ActiveStored(w3);
      RenewedSound(w3, c.second);
      SyncSound(Renewed(w3, c.second), c.limits, c.now);
    }
  }

  lemma ActiveStored(w: World)
    requires Sound(w)
    ensures w.activeAlias != "" ==> w.activeAlias in w.snapshots
  {
  }

  lemma SoftUnchanged(w: World, now: int, w': World, switched: bool)
    requires SoftSwitch(w, now, w', switched)
    ensures !switched ==> w' == w
  {
  }

  /** The switch-log law of one step: the log only grows, every new entry goes from one account to another that is
      enabled, and the active account changes only by a logged switch or an import. */
  ghost predicate LogLaw(w: World, op: Op, w': World) {
    && |w.audit| <= |w'.audit| && w'.audit[..|w.audit|] == w.audit
    && (forall i :: |w.audit| <= i < |w'.audit| ==>
          var e := w'.audit[i]; e.source != e.target && e.target in w.accounts && w.accounts[e.target])
    && (w'.activeAlias != w.activeAlias ==>
          || (op.ImportOp? && w'.activeAlias == op.alias)
          || (|w'.audit| > |w.audit| && w'.audit[|w'.audit| - 1].target == w'.activeAlias))
  }

  lemma StepSound(w: World, runtimeActive: bool, op: Op, w': World)
    requires Sound(w) && Honest(op) && Step(w, runtimeActive, op, w')
    ensures Sound(w') && LogLaw(w, op, w')
  {
    hide Sound, Added, Imported, Removed, Toggled, TurnVia;
    match op
    case AddOp(alias, isolated, login, at) => AddedExact(w, runtimeActive, alias, isolated, login, at);
    case ImportOp(alias, payload, at) => ImportedExact(w, alias, payload, at);
    case RemoveOp(alias) => RemovedExact(w, alias);
    case SetEnabledOp(alias, enabled) => ToggledExact(w, alias, enabled);
    case TurnOp(c) =>
      var r :| TurnStep(w, c, w', r);
      var soft: bool, w1: World, hard: bool, w3: World :| TurnVia(w, c, w', r, soft, w1, hard, w3);
      TurnSound(w, c, w', r, soft, w1, hard, w3);
      TurnLogLaw(w, op, w', c.asked, r.recovery, soft, w1.activeAlias);
  }

  lemma TurnLogLaw(w: World, op: Op, w': World, asked: bool, recovery: seq<bool>, soft: bool, mid: string)
    requires TurnLog(w.audit, w'.audit, w.accounts, w.activeAlias, w'.activeAlias, asked, recovery, soft, mid)
    ensures LogLaw(w, op, w')
  {
  }

  // ----- whole runs ------------------------------------------------------------------------

  /** A run: the states before, between and after the operations. */
  ghost predicate IsRun(trace: seq<World>, runtimeActive: bool, ops: seq<Op>) {
    && |trace| == |ops| + 1
    && forall i :: 0 <= i < |ops| ==> Honest(ops[i]) && Step(trace[i], runtimeActive, ops[i], trace[i + 1])
  }

  /** Every run from an empty directory: in every state it reaches each snapshot belongs to its account and the live
      credential to the active one, and each step keeps the switch-log law. */
  lemma {:induction false} OwnershipForever(trace: seq<World>, runtimeActive: bool, ops: seq<Op>, live: Option<Auth>, n: nat)
    requires IsRun(trace, runtimeActive, ops) && trace[0] == Empty(live) && n < |trace|
    ensures Sound(trace[n]) && forall i :: 0 <= i < n ==> LogLaw(trace[i], ops[i], trace[i + 1])
    decreases n
  {
    hide Step, LogLaw, ValidAlias;
    if n > 0 {
      hide Sound, Honest;
      OwnershipForever(trace, runtimeActive, ops, live, n - 1);
      StepSound(trace[n - 1], runtimeActive, ops[n - 1], trace[n]);
    }
  }

  // ----- which credentials survive ---------------------------------------------------------

  /** A switch overwrites the live credential without putting it away: it survives exactly if its account's snapshot
      was up to date. */
  lemma SwitchKeepsIff(w: World, target: string, trigger: string, reason: string, now: int)
    requires Sound(w) && w.activeAlias != "" && w.live.Some? && target in w.snapshots && target != w.activeAlias
    ensures Kept(SwitchedTo(w, target, trigger, reason, now), w.live.value) <==>
            w.snapshots[w.activeAlias].auth == w.live.value
  {
    hide ValidAlias;
  }

  /** The token renewed by the first attempt of a turn that then runs out of quota survives the hard switch exactly if
      the snapshot already held it. */
  lemma HardSwitchKeepsIff(w: World, limits: Limits, now: int, w': World)
    requires Sound(w) && w.live.Some? && HardSwitch(w, limits, now, w', true)
    ensures w.activeAlias != "" && (Kept(w', w.live.value) <==> w.snapshots[w.activeAlias].auth == w.live.value)
  {
    hide ValidAlias, OutOfQuota, AnyCandidate, BestCandidate, Precedes;
    MarkedSound(w, limits, now);
    var m := OutOfQuota(w, limits, now);
    var a, reason :| HardTarget(m, a, reason) && w' == SwitchedTo(m, a, "hard_usage_exhausted", reason, now);
    SwitchKeepsIff(m, a, "hard_usage_exhausted", reason, now);
  }

  function Named(alias: string): Auth {
    Auth(alias, 0, None)
  }

  /** Two accounts, "b" active. */
  function TwoAccounts(): World {
    World("b", map["a" := true, "b" := true], map["a" := Snapshot(Named("a"), 1), "b" := Snapshot(Named("b"), 1)],
          Some(Named("b")), map[], [])
  }

  /** A turn that renews the token and then runs out of quota. */
  function RenewingTurn(): TurnCall {
    TurnCall(false, Turn(UsageExhausted, Some(7)), Turn(OtherError, None), 2, NotExist, NotExist, 2)
  }

  lemma TwoAccountsReached()
    ensures IsRun([Empty(None), Imported(Empty(None), "a", Some(Named("a")), 0).0, TwoAccounts()], false,
                  [ImportOp("a", Some(Named("a")), 0), ImportOp("b", Some(Named("b")), 1)])
  {
    var w1 := Imported(Empty(None), "a", Some(Named("a")), 0).0;
    assert ValidAlias("a") && ValidAlias("b");
    assert w1 == World("a", map["a" := true], map["a" := Snapshot(Named("a"), 0)], Some(Named("a")), map[], []);
    assert Imported(w1, "b", Some(Named("b")), 1).0.snapshots ==
           map["a" := Snapshot(Named("a"), 1), "b" := Snapshot(Named("b"), 1)];
  }

  /** A run that loses a credential: "a" and "b" are imported, the turn on "b" renews its token, runs out of quota and
      moves to "a"; the renewed token is nowhere to be found. */
  lemma RenewalLost() returns (trace: seq<World>)
    ensures IsRun(trace, false, [ImportOp("a", Some(Named("a")), 0), ImportOp("b", Some(Named("b")), 1), TurnOp(RenewingTurn())])
    ensures trace[0] == Empty(None)
    ensures Renewed(trace[2], RenewingTurn().first).live == Some(Auth("b", 7, None))
    ensures trace[3].activeAlias == "a" && !Kept(trace[3], Auth("b", 7, None))
  {
    hide HardSwitch, OutOfQuota, TurnVia, Imported;
    var w := TwoAccounts();
    var w' := AfterSwitch(Renewed(w, RenewingTurn().first));
    assert SoftSwitch(w, 2, w, false);
    RenewingTurnRuns(w, w', Report(false, [false, true]));
    TwoAccountsReached();
    trace := [Empty(None), Imported(Empty(None), "a", Some(Named("a")), 0).0, w, w'];
  }

  lemma AfterSwitch(w: World) returns (w': World)
    requires w == TwoAccounts().(live := Some(Auth("b", 7, None)))
    ensures HardSwitch(w, NotExist, 2, w', true)
    ensures w'.activeAlias == "a" && w'.live == Some(Named("a")) && w'.snapshots == w.snapshots
  {
    hide OutOfQuota, HardChoice, AnyCandidate;
    var marked := MarkedAfterRenewal(w);
    OnlyFallback(marked);
    assert OtherEnabled(w.accounts, "b", "a");
    var reason := "first_enabled_fallback";
    w' := SwitchedTo(marked, "a", "hard_usage_exhausted", reason, 2);
    SwitchFound(w, NotExist, 2, marked, "a", reason, w');
  }

  lemma SwitchFound(w: World, limits: Limits, now: int, marked: World, a: string, reason: string, w': World)
    requires HardDue(w, limits) && marked == OutOfQuota(w, limits, now) && HardTarget(marked, a, reason)
    requires w' == SwitchedTo(marked, a, "hard_usage_exhausted", reason, now)
    ensures HardSwitch(w, limits, now, w', true)
  {
    hide HardTarget, OutOfQuota;
  }

  lemma MarkedAfterRenewal(w: World) returns (marked: World)
    requires w.activeAlias == "b" && w.health == map[]
    ensures marked == OutOfQuota(w, NotExist, 2) && marked == w.(health := marked.health)
    ensures marked.health.Keys == {"b"} && marked.health["b"].alias == "b"
  {
    marked := OutOfQuota(w, NotExist, 2);
  }

  lemma OnlyFallback(w: World)
    requires w.activeAlias == "b" && w.accounts == TwoAccounts().accounts && w.snapshots == TwoAccounts().snapshots
    requires w.health.Keys == {"b"} && w.health["b"].alias == "b"
    ensures HardTarget(w, "a", "first_enabled_fallback")
  {
    hide Precedes, Eligible, Better;
    forall c
      ensures !Candidate(w.accounts, w.health, "b", c)
    {
      NotItsOwnCandidate(w, c);
    }
    assert forall c :: OtherEnabled(w.accounts, "b", c) ==> c == "a";
  }

  lemma NotItsOwnCandidate(w: World, c: string)
    requires w.health.Keys == {"b"}
    ensures Candidate(w.accounts, w.health, "b", c) ==> c == "b" && w.health["b"].alias != "b"
  {
  }

  lemma RenewingTurnRuns(w: World, w': World, r: Report)
    requires SoftSwitch(w, 2, w, false) && HardSwitch(Renewed(w, RenewingTurn().first), NotExist, 2, w', true)
    requires r == Report(false, [false, true])
    ensures TurnStep(w, RenewingTurn(), w', r)
  {
    hide SoftSwitch, HardSwitch;
    assert TurnVia(w, RenewingTurn(), w', r, false, w, true, w');
  }
}
