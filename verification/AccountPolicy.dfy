/** When to leave an account, and which account to move to. */
module AccountPolicy {
  import opened Options

  datatype Status = Healthy | SoftDrain | Exhausted | Unknown

  datatype Health = Health(alias: string, status: Status, fiveHour: int, weekly: int, observedAt: Option<int>)

  const SOFT_SWITCH_FIVE_HOUR_PERCENT := 10
  const WEEKLY_FLOOR_PERCENT := 20
  const TELEMETRY_FRESHNESS_WINDOW := 15 * 60
  const SYNC_AFTER_REFRESH_AGE := 6 * 3600

  predicate ShouldSoftSwitch(now: int, h: Health) {
    && h.observedAt.Some? && now - h.observedAt.value <= TELEMETRY_FRESHNESS_WINDOW
    && h.fiveHour <= SOFT_SWITCH_FIVE_HOUR_PERCENT
  }

  predicate ShouldSyncAfterTurn(lastRefresh: Option<int>, now: int) {
    lastRefresh.Some? && now - lastRefresh.value >= SYNC_AFTER_REFRESH_AGE
  }

  // ----- the order on candidates -----------------------------------------------------------

  predicate Eligible(active: string, c: Health) {
    c.alias != active && !c.status.Exhausted? && !c.status.Unknown?
  }

  predicate Roomy(c: Health) {
    c.weekly >= WEEKLY_FLOOR_PERCENT
  }

  predicate Beats(c: Health, fiveHour: int, weekly: int) {
    c.fiveHour > fiveHour || (c.fiveHour == fiveHour && c.weekly > weekly)
  }

  /** `a` is a strictly better target than `b`: a roomy account before any other, then five-hour, then weekly room. */
  predicate Better(a: Health, b: Health) {
    if Roomy(a) == Roomy(b) then Beats(a, b.fiveHour, b.weekly) else Roomy(a)
  }

  function TierReason(h: Health): string {
    if Roomy(h) then "best_5h_headroom" else "least_bad_fallback"
  }

  /** The first of the best candidates of one tier. */
  ghost predicate Winner(cs: seq<Health>, active: string, roomy: bool, k: int) {
    && 0 <= k < |cs| && Eligible(active, cs[k]) && Roomy(cs[k]) == roomy && Beats(cs[k], -1, -1)
    && (forall i :: 0 <= i < |cs| && Eligible(active, cs[i]) && Roomy(cs[i]) == roomy ==>
          !Beats(cs[i], cs[k].fiveHour, cs[k].weekly))
    && (forall i :: 0 <= i < k && Eligible(active, cs[i]) && Roomy(cs[i]) == roomy ==>
          Beats(cs[k], cs[i].fiveHour, cs[i].weekly))
  }

  ghost predicate NoWinner(cs: seq<Health>, active: string, roomy: bool) {
    forall i :: 0 <= i < |cs| && Eligible(active, cs[i]) && Roomy(cs[i]) == roomy ==> !Beats(cs[i], -1, -1)
  }

  /** The running best of one tier after a prefix of the candidates. */
  ghost predicate BestSoFar(cs: seq<Health>, active: string, roomy: bool, alias: string, fiveHour: int, weekly: int) {
    || (NoWinner(cs, active, roomy) && alias == "" && fiveHour == -1 && weekly == -1)
    || (exists k :: Winner(cs, active, roomy, k) && cs[k].alias == alias && cs[k].fiveHour == fiveHour && cs[k].weekly == weekly)
  }

  lemma BestSoFarStep(cs: seq<Health>, c: Health, active: string, roomy: bool, alias: string, fiveHour: int, weekly: int)
    requires BestSoFar(cs, active, roomy, alias, fiveHour, weekly)
    ensures Eligible(active, c) && Roomy(c) == roomy && Beats(c, fiveHour, weekly) ==>
              BestSoFar(cs + [c], active, roomy, c.alias, c.fiveHour, c.weekly)
    ensures !(Eligible(active, c) && Roomy(c) == roomy && Beats(c, fiveHour, weekly)) ==>
              BestSoFar(cs + [c], active, roomy, alias, fiveHour, weekly)
  {
    var all := cs + [c];
    if Eligible(active, c) && Roomy(c) == roomy && Beats(c, fiveHour, weekly) {
      assert Winner(all, active, roomy, |cs|);
    } else if !NoWinner(cs, active, roomy) {
      var k :| Winner(cs, active, roomy, k) && cs[k].alias == alias && cs[k].fiveHour == fiveHour && cs[k].weekly == weekly;
      assert Winner(all, active, roomy, k);
    } else if alias == "" && fiveHour == -1 && weekly == -1 {
      assert NoWinner(all, active, roomy);
    }
  }

  datatype Choice = Choice(alias: string, reason: string, ok: bool)

  /** An unnamed winner counts as none, so the other tier gets its turn. */
  ghost predicate Chosen(cs: seq<Health>, active: string, r: Choice) {
    || (exists k :: Winner(cs, active, true, k) && cs[k].alias != "" && r == Choice(cs[k].alias, "best_5h_headroom", true))
    || ((NoWinner(cs, active, true) || exists k :: Winner(cs, active, true, k) && cs[k].alias == "")
        && ((exists k :: Winner(cs, active, false, k) && cs[k].alias != "" && r == Choice(cs[k].alias, "least_bad_fallback", true))
            || ((NoWinner(cs, active, false) || exists k :: Winner(cs, active, false, k) && cs[k].alias == "")
                && r == Choice("", "", false))))
  }

  method ChooseTarget(active: string, candidates: seq<Health>) returns (r: Choice)
    ensures Chosen(candidates, active, r)
    ensures Optimal(candidates, active, r) <==> !AnyEligible(candidates, active) || NamedWinner(candidates, active)
  {
    hide Optimal, NamedWinner, AnyEligible;
    var bestHealthy, bestHealthyFiveHour, bestHealthyWeekly := "", -1, -1;
    var bestFallback, bestFallbackFiveHour, bestFallbackWeekly := "", -1, -1;
    for i := 0 to |candidates|
      invariant BestSoFar(candidates[..i], active, true, bestHealthy, bestHealthyFiveHour, bestHealthyWeekly)
      invariant BestSoFar(candidates[..i], active, false, bestFallback, bestFallbackFiveHour, bestFallbackWeekly)
    {
      var c := candidates[i];
      BestSoFarStep(candidates[..i], c, active, true, bestHealthy, bestHealthyFiveHour, bestHealthyWeekly);
      BestSoFarStep(candidates[..i], c, active, false, bestFallback, bestFallbackFiveHour, bestFallbackWeekly);
      assert candidates[..i] + [c] == candidates[..i + 1];
      if c.alias == active || c.status.Exhausted? || c.status.Unknown? {
        continue;
      }
      if c.weekly >= WEEKLY_FLOOR_PERCENT {
        if c.fiveHour > bestHealthyFiveHour
           || (c.fiveHour == bestHealthyFiveHour && c.weekly > bestHealthyWeekly)
        {
          bestHealthy, bestHealthyFiveHour, bestHealthyWeekly := c.alias, c.fiveHour, c.weekly;
        }
        continue;
      }
      if c.fiveHour > bestFallbackFiveHour
         || (c.fiveHour == bestFallbackFiveHour && c.weekly > bestFallbackWeekly)
      {
        bestFallback, bestFallbackFiveHour, bestFallbackWeekly := c.alias, c.fiveHour, c.weekly;
      }
    }
    assert candidates[..|candidates|] == candidates;
    if bestHealthy != "" {
      r := Choice(bestHealthy, "best_5h_headroom", true);
    } else if bestFallback != "" {
      r := Choice(bestFallback, "least_bad_fallback", true);
    } else {
      r := Choice("", "", false);
    }
    OptimalIff(candidates, active, r);
  }

  // ----- what the choice means -------------------------------------------------------------

  /** The candidates fix the choice: the loop's answer is the only one. */
  lemma ChoiceUnique(cs: seq<Health>, active: string, r: Choice, q: Choice)
    requires Chosen(cs, active, r) && Chosen(cs, active, q)
    ensures r == q
  {
    forall k, l, roomy | Winner(cs, active, roomy, k) && Winner(cs, active, roomy, l)
      ensures k == l
    {
      WinnerUnique(cs, active, roomy, k, l);
    }
  }

  lemma WinnerUnique(cs: seq<Health>, active: string, roomy: bool, k: int, l: int)
    requires Winner(cs, active, roomy, k) && Winner(cs, active, roomy, l)
    ensures k == l
  {
  }

  ghost predicate AnyEligible(cs: seq<Health>, active: string) {
    exists i :: 0 <= i < |cs| && Eligible(active, cs[i])
  }

  /** The tier that ought to provide the target: roomy accounts, if any of them is eligible. */
  ghost predicate RoomyTier(cs: seq<Health>, active: string) {
    exists i :: 0 <= i < |cs| && Eligible(active, cs[i]) && Roomy(cs[i])
  }

  /** The candidate k is eligible, answers to the choice, and no eligible candidate is better. */
  ghost predicate Unbeaten(cs: seq<Health>, active: string, r: Choice, k: int) {
    && 0 <= k < |cs| && Eligible(active, cs[k]) && r.alias == cs[k].alias && r.reason == TierReason(cs[k])
    && forall i :: 0 <= i < |cs| && Eligible(active, cs[i]) ==> !Better(cs[i], cs[k])
  }

  /** What a choice is for: a best eligible candidate, or none exactly if nobody is eligible. */
  ghost predicate Optimal(cs: seq<Health>, active: string, r: Choice) {
    if r.ok then exists k :: Unbeaten(cs, active, r, k) else !AnyEligible(cs, active)
  }

  /** The first best candidate of the tier that ought to provide the target has a name and counts. */
  ghost predicate NamedWinner(cs: seq<Health>, active: string) {
    exists k :: Winner(cs, active, RoomyTier(cs, active), k) && cs[k].alias != ""
  }

  /** For all candidates, unnamed ones and negative percentages included: the choice is optimal if and only if nobody is
      eligible or the first best candidate of the better tier has a name and beats the initial minus one. */
  lemma OptimalIff(cs: seq<Health>, active: string, r: Choice)
    requires Chosen(cs, active, r)
    ensures Optimal(cs, active, r) <==> !AnyEligible(cs, active) || NamedWinner(cs, active)
  {
    hide Eligible, Roomy, Beats, Better, TierReason;
    if k :| Winner(cs, active, RoomyTier(cs, active), k) && cs[k].alias != "" {
      WinnerChosen(cs, active, r, k);
    } else if Optimal(cs, active, r) && r.ok {
      var k :| Unbeaten(cs, active, r, k);
      UnbeatenWins(cs, active, r, k);
    }
  }

  lemma WinnerChosen(cs: seq<Health>, active: string, r: Choice, k: int)
    requires Chosen(cs, active, r) && Winner(cs, active, RoomyTier(cs, active), k) && cs[k].alias != ""
    ensures r.ok && Unbeaten(cs, active, r, k)
  {
    ChoiceUnique(cs, active, r, Choice(cs[k].alias, TierReason(cs[k]), true));
  }

  /** The reason tells the tier, so an unbeaten candidate comes from the tier the choice was made in. */
  lemma UnbeatenWins(cs: seq<Health>, active: string, r: Choice, k: int)
    requires Chosen(cs, active, r) && r.ok && Unbeaten(cs, active, r, k)
    ensures NamedWinner(cs, active)
  {
    assert RoomyTier(cs, active) == Roomy(cs[k]);
    var w :| Winner(cs, active, Roomy(cs[k]), w) && cs[w].alias != "";
  }

  /** Percentages are not negative and aliases are not empty. */
  predicate Proper(c: Health) {
    c.alias != "" && 0 <= c.fiveHour && 0 <= c.weekly
  }

  /** On proper candidates there is a target exactly if any candidate is eligible, and no candidate is better. */
  lemma ChoiceOptimal(cs: seq<Health>, active: string, r: Choice)
    requires Chosen(cs, active, r) && forall c :: c in cs ==> Proper(c)
    ensures Optimal(cs, active, r) && (r.ok <==> AnyEligible(cs, active))
  {
    OptimalIff(cs, active, r);
    if AnyEligible(cs, active) {
      ProperWinner(cs, active, r);
    }
  }

  lemma ProperWinner(cs: seq<Health>, active: string, r: Choice)
    requires Chosen(cs, active, r) && AnyEligible(cs, active) && forall c :: c in cs ==> Proper(c)
    ensures NamedWinner(cs, active)
  {
    forall i | 0 <= i < |cs| && Eligible(active, cs[i])
      ensures Beats(cs[i], -1, -1) && cs[i].alias != ""
    {
      assert cs[i] in cs;
    }
    assert !NoWinner(cs, active, RoomyTier(cs, active));
    var k :| Winner(cs, active, RoomyTier(cs, active), k);
  }

  /** Without names the rule breaks down: an unnamed best candidate hides the named ones of its tier. */
  lemma UnnamedCandidateHidesOthers(a: Health, b: Health, active: string, r: Choice)
    requires Eligible(active, a) && Roomy(a) && Eligible(active, b) && Roomy(b) && b.alias == ""
    requires Beats(b, -1, -1) && Beats(b, a.fiveHour, a.weekly) && Chosen([a, b], active, r)
    ensures !r.ok
  {
    assert Winner([a, b], active, true, 1);
    assert NoWinner([a, b], active, false);
    ChoiceUnique([a, b], active, r, Choice("", "", false));
  }
}
