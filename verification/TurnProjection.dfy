/** The projector: turns a turn's notification log into the assistant's final text. */
module TurnProjection {

  datatype Notification =
    | Delta(thread: string, turn: string, item: string, text: string)
    | Reasoning(thread: string, turn: string, text: string)
    | ItemCompleted(thread: string, turn: string, item: string, assistant: bool, text: string)
    | TurnCompleted(thread: string, turn: string, failed: bool)
    | Other(name: string)

  datatype Turn = Turn(thread: string, turn: string)

  // ----- meaning of a log ------------------------------------------------------------------

  /** The notification adds text to an assistant item of this turn. */
  predicate AddsText(t: Turn, n: Notification) {
    n.Delta? && n.thread == t.thread && n.turn == t.turn && n.item != "" && n.text != ""
  }

  /** The notification completes an assistant item of this turn. */
  predicate Completes(t: Turn, n: Notification) {
    n.ItemCompleted? && n.thread == t.thread && n.turn == t.turn && n.item != "" && n.assistant
  }

  predicate Concerns(t: Turn, n: Notification) {
    AddsText(t, n) || Completes(t, n)
  }

  /** Which notifications count: a delta of exactly this thread and turn with an item id and a text, and the completion of
      an assistant item of this thread and turn with an item id, whatever its text. */
  lemma WhatCounts(t: Turn, n: Notification)
    ensures AddsText(t, n) <==> exists item, text :: item != "" && text != "" && n == Delta(t.thread, t.turn, item, text)
    ensures Completes(t, n) <==> exists item, text :: item != "" && n == ItemCompleted(t.thread, t.turn, item, true, text)
    ensures Concerns(t, n) <==> AddsText(t, n) || Completes(t, n)
  {
    if AddsText(t, n) {
      assert n == Delta(t.thread, t.turn, n.item, n.text);
    }
    if Completes(t, n) {
      assert n == ItemCompleted(t.thread, t.turn, n.item, true, n.text);
    }
  }

  predicate StartedIn(t: Turn, log: seq<Notification>, item: string) {
    exists k :: 0 <= k < |log| && Concerns(t, log[k]) && log[k].item == item
  }

  predicate CompletedIn(t: Turn, log: seq<Notification>, item: string) {
    exists k :: 0 <= k < |log| && Completes(t, log[k]) && log[k].item == item
  }

  /** The last position at which the item was completed with a nonempty text, or -1. */
  function LastFull(t: Turn, log: seq<Notification>, item: string): (k: int)
    ensures -1 <= k < |log|
    ensures k >= 0 ==> Completes(t, log[k]) && log[k].item == item && log[k].text != ""
    ensures forall j :: k < j < |log| && Completes(t, log[j]) && log[j].item == item ==> log[j].text == ""
  {
    if log == [] then -1
    else
      var n := log[|log| - 1];
      if Completes(t, n) && n.item == item && n.text != "" then |log| - 1
      else LastFull(t, log[..|log| - 1], item)
  }

  /** All delta texts of the item, in order. */
  function Deltas(t: Turn, log: seq<Notification>, item: string): string {
    if log == [] then ""
    else (if AddsText(t, log[0]) && log[0].item == item then log[0].text else "") + Deltas(t, log[1..], item)
  }

  /** An item's text: the last nonempty completed text, followed by the deltas that came after it. */
  function TextOf(t: Turn, log: seq<Notification>, item: string): string {
    var k := LastFull(t, log, item);
    (if k < 0 then "" else log[k].text) + Deltas(t, log[k + 1..], item)
  }

  /** Position k is where its item shows up for the first time. */
  predicate FirstStart(t: Turn, log: seq<Notification>, k: int) {
    0 <= k < |log| && Concerns(t, log[k]) && !StartedIn(t, log[..k], log[k].item)
  }

  predicate FirstCompletion(t: Turn, log: seq<Notification>, k: int) {
    0 <= k < |log| && Completes(t, log[k]) && !CompletedIn(t, log[..k], log[k].item)
  }

  /** The item of the last first-completion; failing any completion, of the last first-start. */
  ghost predicate IsFinalItem(t: Turn, log: seq<Notification>, item: string) {
    || (exists k :: FirstCompletion(t, log, k) && log[k].item == item && forall j :: k < j ==> !FirstCompletion(t, log, j))
    || ((forall j :: !FirstCompletion(t, log, j))
        && exists k :: FirstStart(t, log, k) && log[k].item == item && forall j :: k < j ==> !FirstStart(t, log, j))
  }

  /** The text a turn ends with. */
  ghost predicate IsFinalText(t: Turn, log: seq<Notification>, text: string) {
    if forall j :: !FirstStart(t, log, j) then text == ""
    else exists item :: IsFinalItem(t, log, item) && text == TextOf(t, log, item)
  }

  // ----- the orders the projector keeps ----------------------------------------------------

  function Started(t: Turn, log: seq<Notification>): seq<string> {
    if log == [] then []
    else
      var before, n := Started(t, log[..|log| - 1]), log[|log| - 1];
      if Concerns(t, n) && n.item !in before then before + [n.item] else before
  }

  function Completed(t: Turn, log: seq<Notification>): seq<string> {
    if log == [] then []
    else
      var before, n := Completed(t, log[..|log| - 1]), log[|log| - 1];
      if Completes(t, n) && n.item !in before then before + [n.item] else before
  }

  function FinalText(t: Turn, log: seq<Notification>): string {
    var completed, started := Completed(t, log), Started(t, log);
    if completed != [] then TextOf(t, log, completed[|completed| - 1])
    else if started != [] then TextOf(t, log, started[|started| - 1])
    else ""
  }

  function ReasoningText(t: Turn, log: seq<Notification>): string {
    if log == [] then ""
    else
      var n := log[|log| - 1];
      ReasoningText(t, log[..|log| - 1]) +
      (if n.Reasoning? && n.thread == t.thread && n.turn == t.turn then n.text else "")
  }

  /** The reasoning texts of this thread and turn, in order. */
  lemma {:induction false} ReasoningMeaning(t: Turn, log: seq<Notification>, n: Notification)
    ensures ReasoningText(t, []) == ""
    ensures (exists text :: n == Reasoning(t.thread, t.turn, text)) ==>
              ReasoningText(t, log + [n]) == ReasoningText(t, log) + n.text
    ensures (forall text :: n != Reasoning(t.thread, t.turn, text)) ==> ReasoningText(t, log + [n]) == ReasoningText(t, log)
  {
    assert (log + [n])[..|log|] == log;
    if n.Reasoning? && n.thread == t.thread && n.turn == t.turn {
      assert n == Reasoning(t.thread, t.turn, n.text);
    } else {
      assert ReasoningText(t, log) + "" == ReasoningText(t, log);
    }
  }

  lemma {:induction false} StartedMembers(t: Turn, log: seq<Notification>)
    ensures forall item :: item in Started(t, log) <==> StartedIn(t, log, item)
    decreases |log|
  {
    if log != [] {
      var init, n := log[..|log| - 1], log[|log| - 1];
      StartedMembers(t, init);
      forall item
        ensures StartedIn(t, log, item) <==> StartedIn(t, init, item) || (Concerns(t, n) && n.item == item)
      {
        StartedSnoc(t, init, n, item);
        assert init + [n] == log;
      }
    }
  }

  lemma StartedSnoc(t: Turn, log: seq<Notification>, n: Notification, item: string)
    ensures StartedIn(t, log + [n], item) <==> StartedIn(t, log, item) || (Concerns(t, n) && n.item == item)
  {
    var log' := log + [n];
    if StartedIn(t, log, item) {
      var k :| 0 <= k < |log| && Concerns(t, log[k]) && log[k].item == item;
      assert log'[k] == log[k];
    }
    assert log'[|log|] == n;
    if StartedIn(t, log', item) {
      var k :| 0 <= k < |log'| && Concerns(t, log'[k]) && log'[k].item == item;
      assert k < |log| ==> log[k] == log'[k];
    }
  }

  lemma {:induction false} CompletedMembers(t: Turn, log: seq<Notification>)
    ensures forall item :: item in Completed(t, log) <==> CompletedIn(t, log, item)
    decreases |log|
  {
    if log != [] {
      var init, n := log[..|log| - 1], log[|log| - 1];
      CompletedMembers(t, init);
      forall item
        ensures CompletedIn(t, log, item) <==> CompletedIn(t, init, item) || (Completes(t, n) && n.item == item)
      {
        CompletedSnoc(t, init, n, item);
        assert init + [n] == log;
      }
    }
  }

  lemma CompletedSnoc(t: Turn, log: seq<Notification>, n: Notification, item: string)
    ensures CompletedIn(t, log + [n], item) <==> CompletedIn(t, log, item) || (Completes(t, n) && n.item == item)
  {
    var log' := log + [n];
    if CompletedIn(t, log, item) {
      var k :| 0 <= k < |log| && Completes(t, log[k]) && log[k].item == item;
      assert log'[k] == log[k];
    }
    assert log'[|log|] == n;
    if CompletedIn(t, log', item) {
      var k :| 0 <= k < |log'| && Completes(t, log'[k]) && log'[k].item == item;
      assert k < |log| ==> log[k] == log'[k];
    }
  }

  /** The last entry of the order is the item of the last first-start. */
  lemma {:induction false} StartedLast(t: Turn, log: seq<Notification>)
    ensures Started(t, log) == [] <==> forall j :: !FirstStart(t, log, j)
    ensures Started(t, log) != [] ==>
              exists k :: FirstStart(t, log, k) && log[k].item == Started(t, log)[|Started(t, log)| - 1]
                && forall j :: k < j ==> !FirstStart(t, log, j)
    decreases |log|
  {
    if log != [] {
      var init, n := log[..|log| - 1], log[|log| - 1];
      StartedLast(t, init);
      StartedMembers(t, init);
      StartedLastStep(t, init, n);
      assert init + [n] == log;
    }
  }

  lemma StartedFirstSnoc(t: Turn, log: seq<Notification>, n: Notification)
    requires forall item :: item in Started(t, log) <==> StartedIn(t, log, item)
    ensures forall j :: FirstStart(t, log + [n], j) <==>
              FirstStart(t, log, j) || (j == |log| && Concerns(t, n) && n.item !in Started(t, log))
  {
    hide Started, StartedIn;
    var log' := log + [n];
    assert log'[..|log|] == log && log'[|log|] == n;
    forall j | 0 <= j < |log|
      ensures FirstStart(t, log', j) <==> FirstStart(t, log, j)
    {
      assert log'[..j] == log[..j] && log'[j] == log[j];
    }
  }

  lemma StartedLastStep(t: Turn, log: seq<Notification>, n: Notification)
    requires forall item :: item in Started(t, log) <==> StartedIn(t, log, item)
    requires Started(t, log) == [] <==> forall j :: !FirstStart(t, log, j)
    requires Started(t, log) != [] ==>
               exists k :: FirstStart(t, log, k) && log[k].item == Started(t, log)[|Started(t, log)| - 1]
                 && forall j :: k < j ==> !FirstStart(t, log, j)
    ensures Started(t, log + [n]) == [] <==> forall j :: !FirstStart(t, log + [n], j)
    ensures Started(t, log + [n]) != [] ==>
              exists k :: FirstStart(t, log + [n], k) && (log + [n])[k].item == Started(t, log + [n])[|Started(t, log + [n])| - 1]
                && forall j :: k < j ==> !FirstStart(t, log + [n], j)
  {
    hide Started, StartedIn, Completed;
    OrdersSnoc(t, log, n);
    StartedFirstSnoc(t, log, n);
    if Concerns(t, n) && n.item !in Started(t, log) {
      assert FirstStart(t, log + [n], |log|);
      OnlyEarlierStarted(t, log);
    } else if Started(t, log) != [] {
      var k :| FirstStart(t, log, k) && log[k].item == Started(t, log)[|Started(t, log)| - 1]
        && forall j :: k < j ==> !FirstStart(t, log, j);
      assert FirstStart(t, log + [n], k);
      OnlyEarlierStarted(t, log);
    }
  }

  lemma OnlyEarlierStarted(t: Turn, log: seq<Notification>)
    ensures forall j :: FirstStart(t, log, j) ==> 0 <= j < |log|
  {
  }

  lemma {:induction false} CompletedLast(t: Turn, log: seq<Notification>)
    ensures Completed(t, log) == [] <==> forall j :: !FirstCompletion(t, log, j)
    ensures Completed(t, log) != [] ==>
              exists k :: FirstCompletion(t, log, k) && log[k].item == Completed(t, log)[|Completed(t, log)| - 1]
                && forall j :: k < j ==> !FirstCompletion(t, log, j)
    decreases |log|
  {
    if log != [] {
      var init, n := log[..|log| - 1], log[|log| - 1];
      CompletedLast(t, init);
      CompletedMembers(t, init);
      CompletedLastStep(t, init, n);
      assert init + [n] == log;
    }
  }

  lemma CompletedFirstSnoc(t: Turn, log: seq<Notification>, n: Notification)
    requires forall item :: item in Completed(t, log) <==> CompletedIn(t, log, item)
    ensures forall j :: FirstCompletion(t, log + [n], j) <==>
              FirstCompletion(t, log, j) || (j == |log| && Completes(t, n) && n.item !in Completed(t, log))
  {
    hide Completed, CompletedIn;
    var log' := log + [n];
    assert log'[..|log|] == log && log'[|log|] == n;
    forall j | 0 <= j < |log|
      ensures FirstCompletion(t, log', j) <==> FirstCompletion(t, log, j)
    {
      assert log'[..j] == log[..j] && log'[j] == log[j];
    }
  }

  lemma CompletedLastStep(t: Turn, log: seq<Notification>, n: Notification)
    requires forall item :: item in Completed(t, log) <==> CompletedIn(t, log, item)
    requires Completed(t, log) == [] <==> forall j :: !FirstCompletion(t, log, j)
    requires Completed(t, log) != [] ==>
               exists k :: FirstCompletion(t, log, k) && log[k].item == Completed(t, log)[|Completed(t, log)| - 1]
                 && forall j :: k < j ==> !FirstCompletion(t, log, j)
    ensures Completed(t, log + [n]) == [] <==> forall j :: !FirstCompletion(t, log + [n], j)
    ensures Completed(t, log + [n]) != [] ==>
              exists k :: FirstCompletion(t, log + [n], k) && (log + [n])[k].item == Completed(t, log + [n])[|Completed(t, log + [n])| - 1]
                && forall j :: k < j ==> !FirstCompletion(t, log + [n], j)
  {
    hide Completed, CompletedIn, Started;
    OrdersSnoc(t, log, n);
    CompletedFirstSnoc(t, log, n);
    if Completes(t, n) && n.item !in Completed(t, log) {
      assert FirstCompletion(t, log + [n], |log|);
      OnlyEarlierCompleted(t, log);
    } else if Completed(t, log) != [] {
      var k :| FirstCompletion(t, log, k) && log[k].item == Completed(t, log)[|Completed(t, log)| - 1]
        && forall j :: k < j ==> !FirstCompletion(t, log, j);
      assert FirstCompletion(t, log + [n], k);
      OnlyEarlierCompleted(t, log);
    }
  }

  lemma OnlyEarlierCompleted(t: Turn, log: seq<Notification>)
    ensures forall j :: FirstCompletion(t, log, j) ==> 0 <= j < |log|
  {
  }

  lemma StartedIffFirst(t: Turn, log: seq<Notification>)
    requires Completed(t, log) != []
    ensures Started(t, log) != []
  {
    StartedMembers(t, log);
    CompletedMembers(t, log);
    var item := Completed(t, log)[0];
    assert item in Completed(t, log);
    var k :| 0 <= k < |log| && Completes(t, log[k]) && log[k].item == item;
    assert StartedIn(t, log, item);
  }

  /** The projector's answer is the one text the log determines. */
  lemma FinalTextMeaning(t: Turn, log: seq<Notification>)
    ensures IsFinalText(t, log, FinalText(t, log))
  {
    StartedLast(t, log);
    CompletedLast(t, log);
    var completed, started := Completed(t, log), Started(t, log);
    if completed != [] {
      StartedIffFirst(t, log);
      assert IsFinalItem(t, log, completed[|completed| - 1]);
    } else if started != [] {
      assert IsFinalItem(t, log, started[|started| - 1]);
    }
  }

  lemma FinalItemUnique(t: Turn, log: seq<Notification>, a: string, b: string)
    requires IsFinalItem(t, log, a) && IsFinalItem(t, log, b)
    ensures a == b
  {
  }

  // ----- one more notification -------------------------------------------------------------

  lemma {:induction false} DeltasConcat(t: Turn, a: seq<Notification>, b: seq<Notification>, item: string)
    ensures Deltas(t, a + b, item) == Deltas(t, a, item) + Deltas(t, b, item)
    decreases |a|
  {
    if a == [] {
      assert a + b == b;
    } else {
      assert (a + b)[1..] == a[1..] + b;
      DeltasConcat(t, a[1..], b, item);
    }
  }

  lemma DeltasOne(t: Turn, n: Notification, item: string)
    ensures Deltas(t, [n], item) == if AddsText(t, n) && n.item == item then n.text else ""
  {
    assert [n][1..] == [];
  }

  /** How one notification changes an item's text. */
  lemma TextSnoc(t: Turn, log: seq<Notification>, n: Notification, item: string)
    ensures TextOf(t, log + [n], item) ==
            if Completes(t, n) && n.item == item && n.text != "" then n.text
            else TextOf(t, log, item) + (if AddsText(t, n) && n.item == item then n.text else "")
  {
    hide LastFull, TextOf;
    LastFullSnoc(t, log, n, item);
    if Completes(t, n) && n.item == item && n.text != "" {
      FullText(t, log, n, item);
    } else {
      MoreText(t, log, n, item);
    }
  }

  lemma FullText(t: Turn, log: seq<Notification>, n: Notification, item: string)
    requires LastFull(t, log + [n], item) == |log|
    ensures TextOf(t, log + [n], item) == n.text
  {
    hide LastFull, Deltas;
    assert (log + [n])[|log| + 1..] == [];
    NoDeltas(t, [], item);
    assert n.text + "" == n.text;
  }

  lemma MoreText(t: Turn, log: seq<Notification>, n: Notification, item: string)
    requires LastFull(t, log + [n], item) == LastFull(t, log, item)
    ensures TextOf(t, log + [n], item) == TextOf(t, log, item) + (if AddsText(t, n) && n.item == item then n.text else "")
  {
    hide LastFull, Deltas;
    var k := LastFull(t, log, item);
    DeltasAfter(t, log, n, item, k + 1);
    var full, more := if k < 0 then "" else log[k].text, if AddsText(t, n) && n.item == item then n.text else "";
    assert full + (Deltas(t, log[k + 1..], item) + more) == (full + Deltas(t, log[k + 1..], item)) + more;
  }

  lemma LastFullSnoc(t: Turn, log: seq<Notification>, n: Notification, item: string)
    ensures LastFull(t, log + [n], item) ==
            if Completes(t, n) && n.item == item && n.text != "" then |log| else LastFull(t, log, item)
  {
    assert (log + [n])[..|log|] == log;
  }

  lemma DeltasAfter(t: Turn, log: seq<Notification>, n: Notification, item: string, k: nat)
    requires k <= |log|
    ensures Deltas(t, (log + [n])[k..], item) ==
            Deltas(t, log[k..], item) + (if AddsText(t, n) && n.item == item then n.text else "")
  {
    hide Deltas, AddsText;
    assert (log + [n])[k..] == log[k..] + [n];
    DeltasConcat(t, log[k..], [n], item);
    DeltasOne(t, n, item);
  }

  lemma UntouchedText(t: Turn, log: seq<Notification>, item: string)
    requires !StartedIn(t, log, item)
    ensures TextOf(t, log, item) == ""
  {
    var k := LastFull(t, log, item);
    assert k < 0;
    NoDeltas(t, log, item);
    assert log[k + 1..] == log;
  }

  lemma {:induction false} NoDeltas(t: Turn, log: seq<Notification>, item: string)
    requires forall k :: 0 <= k < |log| && AddsText(t, log[k]) ==> log[k].item != item
    ensures Deltas(t, log, item) == ""
    decreases |log|
  {
    if log != [] {
      NoDeltas(t, log[1..], item);
    }
  }

  lemma OrdersSnoc(t: Turn, log: seq<Notification>, n: Notification)
    ensures Started(t, log + [n]) ==
            if Concerns(t, n) && n.item !in Started(t, log) then Started(t, log) + [n.item] else Started(t, log)
    ensures Completed(t, log + [n]) ==
            if Completes(t, n) && n.item !in Completed(t, log) then Completed(t, log) + [n.item] else Completed(t, log)
    ensures ReasoningText(t, log + [n]) ==
            ReasoningText(t, log) + (if n.Reasoning? && n.thread == t.thread && n.turn == t.turn then n.text else "")
  {
    assert (log + [n])[..|log|] == log;
  }

  /** Notifications of other turns, and all others the projector ignores, leave no trace. */
  lemma {:induction false} ForeignIgnored(t: Turn, log: seq<Notification>)
    ensures FinalText(t, log) == FinalText(t, OwnPart(t, log))
    ensures Started(t, log) == Started(t, OwnPart(t, log))
    ensures Completed(t, log) == Completed(t, OwnPart(t, log))
    ensures forall item :: TextOf(t, log, item) == TextOf(t, OwnPart(t, log), item)
    decreases |log|
  {
    if log != [] {
      var init, n := log[..|log| - 1], log[|log| - 1];
      assert log == init + [n];
      ForeignIgnored(t, init);
      hide FinalText, Started, Completed, TextOf;
      OrdersSnoc(t, init, n);
      OwnPartSnoc(t, init, n);
      forall item
        ensures TextOf(t, log, item) == TextOf(t, OwnPart(t, log), item)
      {
        TextSnoc(t, init, n, item);
        TextSnoc(t, OwnPart(t, init), n, item);
        assert TextOf(t, init, item) + "" == TextOf(t, init, item);
      }
      OrdersSnoc(t, OwnPart(t, init), n);
      SameFinal(t, log, OwnPart(t, log));
    }
  }

  lemma SameFinal(t: Turn, a: seq<Notification>, b: seq<Notification>)
    requires Started(t, a) == Started(t, b) && Completed(t, a) == Completed(t, b)
    requires forall item :: TextOf(t, a, item) == TextOf(t, b, item)
    ensures FinalText(t, a) == FinalText(t, b)
  {
    hide TextOf, Started, Completed;
  }

  function OwnPart(t: Turn, log: seq<Notification>): seq<Notification> {
    if log == [] then []
    else OwnPart(t, log[..|log| - 1]) + (if Concerns(t, log[|log| - 1]) then [log[|log| - 1]] else [])
  }

  lemma OwnPartSnoc(t: Turn, log: seq<Notification>, n: Notification)
    ensures OwnPart(t, log + [n]) == if Concerns(t, n) then OwnPart(t, log) + [n] else OwnPart(t, log)
  {
    assert (log + [n])[..|log|] == log;
  }

  // ----- the class -------------------------------------------------------------------------

  datatype Item = Item(text: string, completed: bool)

  /** The projector's fields. */
  datatype Fields = Fields(items: map<string, Item>, order: seq<string>, completed: seq<string>, reasoning: string)

  /** The fields say what the log means. */
  ghost predicate Reflects(t: Turn, log: seq<Notification>, f: Fields) {
    && f.order == Started(t, log)
    && f.completed == Completed(t, log)
    && f.reasoning == ReasoningText(t, log)
    && (forall id :: id in f.items <==> id in f.order)
    && forall id :: id in f.items ==> f.items[id] == Item(TextOf(t, log, id), id in f.completed)
  }

  function WithItem(f: Fields, id: string): Fields {
    if id in f.items then f else f.(items := f.items[id := Item("", false)], order := f.order + [id])
  }

  function Applied(t: Turn, f: Fields, n: Notification): Fields {
    if AddsText(t, n) then
      var g := WithItem(f, n.item);
      g.(items := g.items[n.item := g.items[n.item].(text := g.items[n.item].text + n.text)])
    else if Completes(t, n) then
      var g := WithItem(f, n.item);
      var text := if n.text != "" then n.text else g.items[n.item].text;
      g.(items := g.items[n.item := Item(text, true)],
         completed := if g.items[n.item].completed then g.completed else g.completed + [n.item])
    else if n.Reasoning? && n.thread == t.thread && n.turn == t.turn then f.(reasoning := f.reasoning + n.text)
    else f
  }

  lemma AppliedReflects(t: Turn, log: seq<Notification>, f: Fields, n: Notification)
    requires Reflects(t, log, f)
    ensures Reflects(t, log + [n], Applied(t, f, n))
  {
    hide Started, Completed, TextOf, ReasoningText, Reflects, StartedIn;
    OrdersSnoc(t, log, n);
    StartedMembers(t, log);
    CompletedAmongStarted(t, log);
    forall id
      ensures TextAfter(t, log, n, id)
    {
      TextSnoc(t, log, n, id);
    }
    forall id | id !in Started(t, log)
      ensures TextOf(t, log, id) == ""
    {
      UntouchedText(t, log, id);
    }
    if AddsText(t, n) {
      DeltaReflects(t, log, f, n);
    } else if Completes(t, n) {
      CompletionReflects(t, log, f, n);
    } else {
      OtherReflects(t, log, f, n);
    }
  }

  predicate TextAfter(t: Turn, log: seq<Notification>, n: Notification, id: string) {
    TextOf(t, log + [n], id) ==
    if Completes(t, n) && n.item == id && n.text != "" then n.text
    else TextOf(t, log, id) + (if AddsText(t, n) && n.item == id then n.text else "")
  }

  lemma DeltaReflects(t: Turn, log: seq<Notification>, f: Fields, n: Notification)
    requires Reflects(t, log, f) && AddsText(t, n)
    requires forall id :: TextAfter(t, log, n, id)
    requires forall id :: id !in Started(t, log) ==> TextOf(t, log, id) == ""
    requires forall id :: id in Completed(t, log) ==> id in Started(t, log)
    ensures Reflects(t, log + [n], Applied(t, f, n))
  {
    hide Started, Completed, TextOf, ReasoningText;
    OrdersSnoc(t, log, n);
    assert ReasoningText(t, log) + "" == ReasoningText(t, log);
    forall id | id in Applied(t, f, n).items
      ensures Applied(t, f, n).items[id] == Item(TextOf(t, log + [n], id), id in Completed(t, log))
    {
      assert TextAfter(t, log, n, id);
      assert TextOf(t, log, id) + "" == TextOf(t, log, id);
    }
  }

  lemma CompletionReflects(t: Turn, log: seq<Notification>, f: Fields, n: Notification)
    requires Reflects(t, log, f) && Completes(t, n)
    requires forall id :: TextAfter(t, log, n, id)
    requires forall id :: id !in Started(t, log) ==> TextOf(t, log, id) == ""
    requires forall id :: id in Completed(t, log) ==> id in Started(t, log)
    ensures Reflects(t, log + [n], Applied(t, f, n))
  {
    hide Started, Completed, TextOf, ReasoningText;
    OrdersSnoc(t, log, n);
    assert ReasoningText(t, log) + "" == ReasoningText(t, log);
    forall id | id in Applied(t, f, n).items
      ensures Applied(t, f, n).items[id] == Item(TextOf(t, log + [n], id), id in Completed(t, log + [n]))
    {
      assert TextAfter(t, log, n, id);
      assert TextOf(t, log, id) + "" == TextOf(t, log, id);
    }
  }

  lemma OtherReflects(t: Turn, log: seq<Notification>, f: Fields, n: Notification)
    requires Reflects(t, log, f) && !AddsText(t, n) && !Completes(t, n)
    requires forall id :: TextAfter(t, log, n, id)
    ensures Reflects(t, log + [n], Applied(t, f, n))
  {
    hide Started, Completed, TextOf, ReasoningText;
    OrdersSnoc(t, log, n);
    assert ReasoningText(t, log) + "" == ReasoningText(t, log);
    forall id | id in f.items
      ensures TextOf(t, log + [n], id) == TextOf(t, log, id)
    {
      assert TextAfter(t, log, n, id);
      assert TextOf(t, log, id) + "" == TextOf(t, log, id);
    }
  }

  class Projector {
    const turn: Turn
    var assistantByItem: map<string, Item>
    var assistantOrder: seq<string>
    var completedAssistant: seq<string>
    var reasoning: string
    ghost var log: seq<Notification>

    ghost function View(): Fields
      reads this
    {
      Fields(assistantByItem, assistantOrder, completedAssistant, reasoning)
    }

    ghost predicate Valid()
      reads this
    {
      Reflects(turn, log, View())
    }

    constructor (turn: Turn)
      ensures Valid() && this.turn == turn && log == []
    {
      this.turn := turn;
      assistantByItem, assistantOrder, completedAssistant, reasoning := map[], [], [], "";
      log := [];
    }

    method Apply(n: Notification)
      requires Valid()
      modifies this
      ensures Valid() && log == old(log) + [n]
    {
      hide Reflects;
      AppliedReflects(turn, log, View(), n);
      log := log + [n];
      match n
      case Delta(_, _, _, _) => ApplyAgentMessageDelta(n);
      case Reasoning(_, _, _) => ApplyReasoningTextDelta(n);
      case ItemCompleted(_, _, _, _, _) => ApplyItemCompleted(n);
      case TurnCompleted(_, _, _) =>
      case Other(_) =>
    }

    method ApplyAgentMessageDelta(n: Notification)
      requires n.Delta?
      modifies `assistantByItem, `assistantOrder
      ensures View() == Applied(turn, old(View()), n)
    {
      if n.thread != turn.thread || n.turn != turn.turn || n.item == "" || n.text == "" {
        return;
      }
      AssistantItem(n.item);
      var item := assistantByItem[n.item];
      assistantByItem := assistantByItem[n.item := item.(text := item.text + n.text)];
    }

    method ApplyReasoningTextDelta(n: Notification)
      requires n.Reasoning?
      modifies `reasoning
      ensures View() == Applied(turn, old(View()), n)
    {
      if n.thread != turn.thread || n.turn != turn.turn || n.text == "" {
        assert reasoning + "" == reasoning;
        return;
      }
      reasoning := reasoning + n.text;
    }

    method ApplyItemCompleted(n: Notification)
      requires n.ItemCompleted?
      modifies `assistantByItem, `assistantOrder, `completedAssistant
      ensures View() == Applied(turn, old(View()), n)
    {
      if n.thread != turn.thread || n.turn != turn.turn || n.item == "" {
        return;
      }
      if !n.assistant {
        return;
      }
      AssistantItem(n.item);
      ghost var items := assistantByItem;
      if n.text != "" {
        assistantByItem := assistantByItem[n.item := assistantByItem[n.item].(text := n.text)];
      }
      if assistantByItem[n.item].completed {
        assert assistantByItem == items[n.item := assistantByItem[n.item]];
        return;
      }
      assistantByItem := assistantByItem[n.item := assistantByItem[n.item].(completed := true)];
      assert assistantByItem == items[n.item := assistantByItem[n.item]];
      completedAssistant := completedAssistant + [n.item];
    }

    method AssistantItem(itemId: string)
      modifies `assistantByItem, `assistantOrder
      ensures View() == WithItem(old(View()), itemId)
    {
      if itemId in assistantByItem {
        return;
      }
      assistantByItem := assistantByItem[itemId := Item("", false)];
      assistantOrder := assistantOrder + [itemId];
    }

    method ReasoningSoFar() returns (text: string)
      requires Valid()
      ensures text == ReasoningText(turn, log)
    {
      return reasoning;
    }

    method FinalAssistantText() returns (text: string)
      requires Valid()
      ensures text == FinalText(turn, log)
    {
      hide Started, Completed, TextOf;
      CompletedAmongStarted(turn, log);
      if |completedAssistant| > 0 {
        var itemId := completedAssistant[|completedAssistant| - 1];
        if itemId in assistantByItem {
          return assistantByItem[itemId].text;
        }
      }
      if |assistantOrder| == 0 {
        return "";
      }
      var itemId := assistantOrder[|assistantOrder| - 1];
      if itemId in assistantByItem {
        return assistantByItem[itemId].text;
      }
      return "";
    }
  }

  lemma CompletedAmongStarted(t: Turn, log: seq<Notification>)
    ensures forall id :: id in Completed(t, log) ==> id in Started(t, log)
  {
    StartedMembers(t, log);
    CompletedMembers(t, log);
    forall id | CompletedIn(t, log, id)
      ensures StartedIn(t, log, id)
    {
      var k :| 0 <= k < |log| && Completes(t, log[k]) && log[k].item == id;
      assert Concerns(t, log[k]);
    }
  }
}
