/** The JSON-RPC client: calls read the wire past notifications, which wait in a queue until a turn delivers
    them.  Across calls and turns the order of the wire is never changed. */
module Client {
  import opened Options
  import opened TurnProjection

  /** Messages as they arrive.  A response carries its numeric id (or none), whether it is an error, and the turn
      id of a turn/start result.  A server request carries whether answering it succeeds.  A notification that
      cannot be decoded is `Garbled`. */
  datatype Message =
    | Notify(n: Notification)
    | Garbled
    | Response(id: Option<int>, failed: bool, turnId: string)
    | ServerRequest(answered: bool)

  predicate IsNotification(m: Message) {
    m.Notify? || m.Garbled?
  }

  /** The notifications among the messages, in order. */
  function Notes(messages: seq<Message>): seq<Message> {
    if messages == [] then []
    else (if IsNotification(messages[0]) then [messages[0]] else []) + Notes(messages[1..])
  }

  lemma NotesNothing()
    ensures Notes([]) == []
  {
  }

  // ----- what a turn says ------------------------------------------------------------------

  /** Where the notification stream ends the turn: its own turn/completed, or something undecodable. */
  predicate EndsTurn(t: Turn, m: Message) {
    m.Garbled? || (m.Notify? && m.n.TurnCompleted? && m.n.thread == t.thread && m.n.turn == t.turn)
  }

  function EndIndex(t: Turn, notes: seq<Message>): (k: nat)
    ensures k <= |notes|
    ensures forall j :: 0 <= j < k ==> !EndsTurn(t, notes[j])
    ensures k < |notes| ==> EndsTurn(t, notes[k])
  {
    if notes == [] || EndsTurn(t, notes[0]) then 0 else 1 + EndIndex(t, notes[1..])
  }

  function Log(notes: seq<Message>): (log: seq<Notification>)
    requires forall m :: m in notes ==> m.Notify?
    ensures |log| == |notes| && forall i :: 0 <= i < |log| ==> log[i] == notes[i].n
  {
    seq(|notes|, i requires 0 <= i < |notes| => notes[i].n)
  }

  lemma BeforeEndDecodes(t: Turn, notes: seq<Message>, k: nat)
    requires k <= EndIndex(t, notes) && forall m :: m in notes ==> IsNotification(m)
    ensures forall m :: m in notes[..k] ==> m.Notify?
  {
    forall m | m in notes[..k]
      ensures m.Notify?
    {
      var j :| 0 <= j < k && notes[..k][j] == m;
      assert notes[j] == m && m in notes && !EndsTurn(t, notes[j]);
    }
  }

  /** The outcome of a turn as a function of the notification stream from where delivery stood when the turn began. */
  datatype TurnOutcome = Text(text: string) | TurnFailed | Undecodable | Unfinished

  function OutcomeOf(t: Turn, notes: seq<Message>): TurnOutcome
    requires forall m :: m in notes ==> IsNotification(m)
  {
    var k := EndIndex(t, notes);
    BeforeEndDecodes(t, notes, k);
    if k == |notes| then Unfinished
    else if notes[k].Garbled? then Undecodable
    else if notes[k].n.failed then TurnFailed
    else Text(FinalText(t, Log(notes[..k])))
  }

  /** No error response and no server request that cannot be answered is on its way. */
  ghost predicate Smooth(unread: seq<Message>) {
    forall m :: m in unread ==> !(m.Response? && m.failed) && !(m.ServerRequest? && !m.answered)
  }

  // ----- the client ------------------------------------------------------------------------

  datatype CallResult = CallOk(turnId: string) | CallFailed

  datatype TurnResult = TurnText(text: string) | TurnError

  /** The position of the first message that is not a notification. */
  function FirstAnswer(unread: seq<Message>): (k: nat)
    ensures k <= |unread|
    ensures forall j :: 0 <= j < k ==> IsNotification(unread[j])
    ensures k < |unread| ==> !IsNotification(unread[k])
  {
    if unread == [] || !IsNotification(unread[0]) then 0 else 1 + FirstAnswer(unread[1..])
  }

  /** How many messages a call reads: up to and including its response, or whatever takes the response's place. */
  function CallReads(unread: seq<Message>): (n: nat)
    ensures n <= |unread| && (n == 0 ==> unread == [])
    ensures forall j :: 0 <= j < n - 1 ==> IsNotification(unread[j])
    ensures n > 0 && IsNotification(unread[n - 1]) ==> n == |unread|
  {
    if FirstAnswer(unread) < |unread| then FirstAnswer(unread) + 1 else |unread|
  }

  /** The response a call receives: the first message that is not a notification, if it is a response. */
  function Answer(unread: seq<Message>): Option<Message> {
    var k := FirstAnswer(unread);
    if k < |unread| && unread[k].Response? then Some(unread[k]) else None
  }

  /** A call with request id `id` succeeds exactly if its response carries that id and no error. */
  function CallOutcome(unread: seq<Message>, id: int, writeOk: bool): CallResult {
    var answer := Answer(unread);
    if writeOk && answer.Some? && answer.value.id == Some(id) && !answer.value.failed then CallOk(answer.value.turnId)
    else CallFailed
  }

  /** Some message k is the response to request `id`, without an error and naming the turn `turnId`, and everything that
      arrives before it is a notification. */
  ghost predicate Answered(unread: seq<Message>, id: int, turnId: string) {
    exists k :: 0 <= k < |unread| && unread[k] == Response(Some(id), false, turnId)
      && forall j :: 0 <= j < k ==> unread[j].Notify? || unread[j].Garbled?
  }

  lemma OutcomeIff(unread: seq<Message>, id: int, writeOk: bool)
    ensures forall turnId :: CallOutcome(unread, id, writeOk) == CallOk(turnId) <==> writeOk && Answered(unread, id, turnId)
  {
    forall turnId
      ensures CallOutcome(unread, id, writeOk) == CallOk(turnId) <==> writeOk && Answered(unread, id, turnId)
    {
      if Answered(unread, id, turnId) {
        var k :| 0 <= k < |unread| && unread[k] == Response(Some(id), false, turnId)
          && forall j :: 0 <= j < k ==> unread[j].Notify? || unread[j].Garbled?;
        FirstAnswerUnique(unread, k);
      }
    }
  }

  lemma FirstAnswerUnique(unread: seq<Message>, k: nat)
    requires k <= |unread| && (forall j :: 0 <= j < k ==> IsNotification(unread[j]))
    requires k < |unread| ==> !IsNotification(unread[k])
    ensures FirstAnswer(unread) == k
  {
  }

  lemma ReadOn(all: seq<Message>, queued: seq<Message>, read: seq<Message>, rest: seq<Message>)
    requires all == read + rest && rest != []
    ensures all == (read + [rest[0]]) + rest[1..] && (queued + read) + [rest[0]] == queued + (read + [rest[0]])
  {
  }

  /** Where reading for a response stops: behind the notifications `read`, or at the end of the connection. */
  lemma StopsAt(unread: seq<Message>, read: seq<Message>, rest: seq<Message>)
    requires unread == read + rest && (forall m :: m in read ==> IsNotification(m))
    requires rest != [] ==> !IsNotification(rest[0])
    ensures unread[..FirstAnswer(unread)] == read
    ensures unread[CallReads(unread)..] == if rest == [] then [] else rest[1..]
    ensures Answer(unread) == if rest != [] && rest[0].Response? then Some(rest[0]) else None
  {
    forall j | 0 <= j < |read|
      ensures IsNotification(unread[j])
    {
      assert unread[j] == read[j] && read[j] in read;
    }
    FirstAnswerUnique(unread, |read|);
    hide FirstAnswer;
    assert rest != [] ==> unread[|read|] == rest[0];
  }

  class Client {
    var started: bool
    var pending: seq<Message>
    var unread: seq<Message>
    var nextID: int
    ghost var wire: seq<Message>
    ghost var delivered: seq<Message>

    /** Delivered, pending and unread notifications are together the wire's, in the wire's order. */
    ghost predicate Valid()
      reads this
    {
      delivered + pending + Notes(unread) == Notes(wire)
    }

    constructor ()
      ensures Valid() && !started
    {
      started, pending, unread, nextID := false, [], [], 0;
      wire, delivered := [], [];
    }

    /** Opens a connection on which the messages `input` will arrive, performs the initialize call and sends the
        initialized notification. */
    method Start(input: seq<Message>, writeOk: bool, notifyOk: bool) returns (ok: bool)
      requires Valid()
      modifies this
      ensures Valid()
      ensures old(started) ==> ok && started && wire == old(wire) && delivered == old(delivered)
      ensures !old(started) ==>
                (ok <==> writeOk && notifyOk && exists turnId :: Answered(input, nextID, turnId))
      ensures nextID == if old(started) then old(nextID) else old(nextID) + 1
      ensures !old(started) && ok ==>
                && started && wire == input && delivered == []
                && pending == input[..FirstAnswer(input)] && unread == input[CallReads(input)..]
      ensures !ok ==> !started
    {
      if started {
        return true;
      }
      started, pending, unread := true, [], input;
      wire, delivered := input, [];
      var r := CallLocked(writeOk);
      if r.CallFailed? {
        CloseLocked();
        return false;
      }
      if !notifyOk {
        CloseLocked();
        return false;
      }
      return true;
    }

    method CloseLocked()
      requires Valid()
      modifies this
      ensures Valid() && !started && nextID == old(nextID)
    {
      started, pending, unread := false, [], [];
      wire, delivered := [], [];
    }

    method Call(writeOk: bool) returns (r: CallResult)
      requires Valid()
      modifies this
      ensures Valid() && started == old(started) && wire == old(wire) && delivered == old(delivered)
      ensures forall turnId ::
                r == CallOk(turnId) <==> started && writeOk && Answered(old(unread), nextID, turnId)
      ensures nextID == if started then old(nextID) + 1 else old(nextID)
      ensures started && writeOk ==>
                && pending == old(pending) + old(unread)[..FirstAnswer(old(unread))]
                && unread == old(unread)[CallReads(old(unread))..]
      ensures !started || !writeOk ==> pending == old(pending) && unread == old(unread)
    {
      if !started {
        return CallFailed;
      }
      r := CallLocked(writeOk);
    }

    /** One request: everything read before the response stays queued, in order; nothing is delivered. */
    method CallLocked(writeOk: bool) returns (r: CallResult)
      requires Valid()
      modifies `pending, `unread, `nextID
      ensures Valid() && nextID == old(nextID) + 1
      ensures forall turnId :: r == CallOk(turnId) <==> writeOk && Answered(old(unread), nextID, turnId)
      ensures writeOk ==>
                && pending == old(pending) + old(unread)[..FirstAnswer(old(unread))]
                && unread == old(unread)[CallReads(old(unread))..]
      ensures !writeOk ==> pending == old(pending) && unread == old(unread)
    {
      hide Notes, FirstAnswer, CallReads, Answered;
      nextID := nextID + 1;
      OutcomeIff(unread, nextID, writeOk);
      if !writeOk {
        return CallFailed;
      }
      var response := ReadResponseLocked();
      if response.None? {
        return CallFailed;
      }
      if response.value.id != Some(nextID) || response.value.failed {
        return CallFailed;
      }
      return CallOk(response.value.turnId);
    }

    /** Reads up to the next response; a server request, or the end of the connection, is an error. */
    method ReadResponseLocked() returns (r: Option<Message>)
      requires Valid()
      modifies `pending, `unread
      ensures Valid()
      ensures r == Answer(old(unread)) && (r.Some? ==> r.value.Response?)
      ensures pending == old(pending) + old(unread)[..FirstAnswer(old(unread))]
      ensures unread == old(unread)[CallReads(old(unread))..]
    {
      hide Notes, FirstAnswer, CallReads, Answer;
      ghost var read: seq<Message> := [];
      NotesNothing();
      while |unread| > 0
        invariant old(unread) == read + unread && pending == old(pending) + read
        invariant forall m :: m in read ==> IsNotification(m)
        invariant Valid()
        decreases |unread|
      {
        var envelope := unread[0];
        PushUnread(delivered, pending, unread);
        if !IsNotification(envelope) {
          StopsAt(old(unread), read, unread);
        }
        ReadOn(old(unread), old(pending), read, unread);
        unread := unread[1..];
        if envelope.Response? {
          return Some(envelope);
        }
        if envelope.ServerRequest? {
          return None;
        }
        read := read + [envelope];
        pending := pending + [envelope];
      }
      StopsAt(old(unread), read, unread);
      return None;
    }

    /** The next message of a turn: the queue first, then the connection. */
    method ReadMessageLocked() returns (m: Option<Message>)
      requires Valid()
      modifies `pending, `unread, `delivered
      ensures Valid()
      ensures old(pending) != [] ==> m == Some(old(pending)[0]) && pending == old(pending)[1..] && unread == old(unread)
      ensures old(pending) == [] && old(unread) != [] ==>
                m == Some(old(unread)[0]) && pending == [] && unread == old(unread)[1..]
      ensures m.None? ==> pending == old(pending) == [] && unread == old(unread) == [] && delivered == old(delivered)
      ensures m.Some? ==> |pending| + |unread| < old(|pending| + |unread|)
      ensures m.Some? ==> delivered == old(delivered) + (if IsNotification(m.value) then [m.value] else [])
      ensures unread == old(unread) || (old(unread) != [] && unread == old(unread)[1..])
      ensures m.Some? && !IsNotification(m.value) ==> old(unread) != [] && m.value == old(unread)[0]
    {
      if |pending| > 0 {
        var message := pending[0];
        QueuedAreNotifications(delivered, pending, unread, wire);
        assert delivered + pending == (delivered + [message]) + pending[1..];
        delivered := delivered + [message];
        pending := pending[1..];
        return Some(message);
      }
      if |unread| == 0 {
        return None;
      }
      var message := unread[0];
      PushUnread(delivered, pending, unread);
      assert delivered + [message] + [] == delivered + [] + [message];
      assert delivered + [] == delivered && pending == [];
      unread := unread[1..];
      if IsNotification(message) {
        delivered := delivered + [message];
      }
      return Some(message);
    }

    /** Runs one turn: starts it, then delivers notifications until its completion.  Messages of other turns are
        delivered and ignored.  `t` is the turn that the response to turn/start names. */
    method RunTextTurn(thread: string, writeOk: bool) returns (r: TurnResult, ghost t: Turn)
      requires Valid()
      modifies this
      ensures Valid() && started == old(started) && wire == old(wire)
      ensures old(delivered) <= delivered <= Notes(wire)
      ensures forall m :: m in Notes(wire)[|old(delivered)|..] ==> IsNotification(m)
      ensures t.thread == thread && (t.turn == "" ==> r == TurnError)
      ensures forall turnId :: turnId != "" ==>
                (t.turn == turnId <==> started && writeOk && Answered(old(unread), nextID, turnId))
      ensures nextID == if started then old(nextID) + 1 else old(nextID)
      ensures r.TurnText? ==> OutcomeOf(t, Notes(wire)[|old(delivered)|..]) == Text(r.text)
      ensures t.turn != "" && Smooth(old(unread)[CallReads(old(unread))..]) ==>
                (r.TurnText? <==> OutcomeOf(t, Notes(wire)[|old(delivered)|..]).Text?)
    {
      hide Notes, OutcomeOf, Smooth, CallReads, FirstAnswer, Answer, Answered;
      t := Turn(thread, "");
      StillToCome(delivered, pending, unread, wire);
      if !started {
        return TurnError, t;
      }
      ghost var before := delivered;
      var call := CallLocked(writeOk);
      if call.CallFailed? || call.turnId == "" {
        StillToCome(delivered, pending, unread, wire);
        return TurnError, t;
      }
      var turn := Turn(thread, call.turnId);
      t := turn;
      r := TurnLoop(turn, before);
    }

    /** The delivery loop of a turn. */
    method TurnLoop(turn: Turn, ghost before: seq<Message>) returns (r: TurnResult)
      requires Valid() && started && delivered == before
      modifies this
      ensures Valid() && started && wire == old(wire) && nextID == old(nextID)
      ensures before <= delivered <= Notes(wire)
      ensures forall m :: m in Notes(wire)[|before|..] ==> IsNotification(m)
      ensures r.TurnText? ==> OutcomeOf(turn, Notes(wire)[|before|..]) == Text(r.text)
      ensures Smooth(old(unread)) ==> (r.TurnText? <==> OutcomeOf(turn, Notes(wire)[|before|..]).Text?)
    {
      hide Heard, FinalText, OutcomeOf, EndsTurn, Notes, Smooth, OwnPart, Log, EndIndex, Projector.Valid;
      var projector := new Projector(turn);
      ghost var seen: seq<Message> := [];
      HeardNothing(turn);
      StillToCome(delivered, pending, unread, wire);
      while true
        invariant Valid() && started && wire == old(wire) && nextID == old(nextID)
        invariant delivered == before + seen && delivered <= Notes(wire)
        invariant Smooth(old(unread)) ==> Smooth(unread)
        invariant projector.Valid() && projector.turn == turn && Heard(turn, seen, projector.log)
        decreases |pending| + |unread|
      {
        SmoothTail(unread);
        var message := ReadMessageLocked();
        StillToCome(delivered, pending, unread, wire);
        if message.None? {
          AllDelivered(turn, before, seen, projector.log, delivered, unread, wire);
          return TurnError;
        }
        match message.value
        case ServerRequest(answered) =>
          if !answered {
            return TurnError;
          }
        case Response(_, failed, _) =>
          if failed {
            return TurnError;
          }
        case Garbled =>
          TurnBroken(turn, before, seen, projector.log, message.value, delivered, wire);
          return TurnError;
        case Notify(n) =>
          if n.TurnCompleted? && n.thread == turn.thread && n.turn == turn.turn {
            if n.failed {
              TurnBroken(turn, before, seen, projector.log, message.value, delivered, wire);
              return TurnError;
            }
            TurnEnded(turn, before, seen, projector.log, message.value, delivered, wire);
            var text := projector.FinalAssistantText();
            return TurnText(text);
          }
          Project(projector, n, seen);
          seen := seen + [message.value];
      }
    }
  }

  /** Hands a notification to the projector, unless it is a delta of another turn or of a kind without a text. */
  method Project(projector: Projector, n: Notification, ghost seen: seq<Message>)
    requires projector.Valid() && Heard(projector.turn, seen, projector.log)
    requires !(n.TurnCompleted? && n.thread == projector.turn.thread && n.turn == projector.turn.turn)
    modifies projector
    ensures projector.Valid() && Heard(projector.turn, seen + [Notify(n)], projector.log)
  {
    hide Heard;
    HeardMore(projector.turn, seen, projector.log, Notify(n));
    if n.Delta? && (n.thread != projector.turn.thread || n.turn != projector.turn.turn) {
      return;
    }
    if n.Delta? || n.ItemCompleted? || n.Reasoning? {
      projector.Apply(n);
    }
  }

  lemma SmoothTail(unread: seq<Message>)
    ensures Smooth(unread) && unread != [] ==>
              Smooth(unread[1..]) && !(unread[0].Response? && unread[0].failed)
              && !(unread[0].ServerRequest? && !unread[0].answered)
  {
  }

  // ----- queue lemmas ----------------------------------------------------------------------

  lemma PushUnread(delivered: seq<Message>, pending: seq<Message>, unread: seq<Message>)
    requires unread != []
    ensures var m := unread[0];
            delivered + pending + Notes(unread) ==
            if IsNotification(m) then delivered + (pending + [m]) + Notes(unread[1..])
            else delivered + pending + Notes(unread[1..])
  {
  }

  lemma QueuedAreNotifications(delivered: seq<Message>, pending: seq<Message>, unread: seq<Message>, wire: seq<Message>)
    requires delivered + pending + Notes(unread) == Notes(wire) && pending != []
    ensures IsNotification(pending[0])
  {
    NotesAreNotifications(wire);
    assert Notes(wire)[|delivered|] == pending[0];
  }

  /** What is still to be delivered is the rest of the wire's notifications. */
  lemma StillToCome(delivered: seq<Message>, pending: seq<Message>, unread: seq<Message>, wire: seq<Message>)
    requires delivered + pending + Notes(unread) == Notes(wire)
    ensures delivered <= Notes(wire)
    ensures forall m :: m in Notes(wire)[|delivered|..] ==> IsNotification(m)
  {
    NotesAreNotifications(wire);
  }

  lemma {:induction false} NotesAreNotifications(messages: seq<Message>)
    ensures forall m :: m in Notes(messages) ==> IsNotification(m)
    decreases |messages|
  {
    if messages != [] {
      NotesAreNotifications(messages[1..]);
    }
  }

  /** The messages delivered so far neither end the turn nor differ, for this turn, from what the projector saw. */
  ghost predicate Heard(t: Turn, seen: seq<Message>, log: seq<Notification>) {
    && (forall m :: m in seen ==> m.Notify? && !EndsTurn(t, m))
    && OwnPart(t, log) == OwnPart(t, Log(seen))
  }

  lemma HeardNothing(t: Turn)
    ensures Heard(t, [], [])
  {
  }

  lemma HeardMore(t: Turn, seen: seq<Message>, log: seq<Notification>, m: Message)
    requires Heard(t, seen, log) && m.Notify?
    requires !(m.n.TurnCompleted? && m.n.thread == t.thread && m.n.turn == t.turn)
    ensures Heard(t, seen + [m], log + [m.n])
    ensures !Concerns(t, m.n) ==> Heard(t, seen + [m], log)
  {
    hide Concerns, OwnPart;
    assert Log(seen + [m]) == Log(seen) + [m.n];
    OwnPartSnoc(t, log, m.n);
    OwnPartSnoc(t, Log(seen), m.n);
  }

  lemma TurnEnded(t: Turn, before: seq<Message>, seen: seq<Message>, log: seq<Notification>, last: Message,
                  delivered: seq<Message>, wire: seq<Message>)
    requires delivered == before + seen + [last] && delivered <= Notes(wire)
    requires Heard(t, seen, log)
    requires last.Notify? && last.n.TurnCompleted? && last.n.thread == t.thread && last.n.turn == t.turn && !last.n.failed
    requires forall m :: m in Notes(wire)[|before|..] ==> IsNotification(m)
    ensures OutcomeOf(t, Notes(wire)[|before|..]) == Text(FinalText(t, log))
  {
    hide FinalText, Notes, OwnPart;
    var notes := Notes(wire)[|before|..];
    forall i | 0 <= i < |seen|
      ensures notes[i] == seen[i]
    {
      assert Notes(wire)[|before| + i] == delivered[|before| + i] == seen[i];
    }
    assert notes[|seen|] == Notes(wire)[|before| + |seen|] == delivered[|before| + |seen|] == last;
    assert EndIndex(t, notes) == |seen|;
    assert notes[..|seen|] == seen;
    ForeignIgnored(t, log);
    ForeignIgnored(t, Log(seen));
  }

  /** The stream ends the turn without a text: an undecodable notification or a failed completion. */
  lemma TurnBroken(t: Turn, before: seq<Message>, seen: seq<Message>, log: seq<Notification>, last: Message,
                   delivered: seq<Message>, wire: seq<Message>)
    requires delivered == before + seen + [last] && delivered <= Notes(wire)
    requires Heard(t, seen, log)
    requires last.Garbled? ||
             (last.Notify? && last.n.TurnCompleted? && last.n.thread == t.thread && last.n.turn == t.turn && last.n.failed)
    requires forall m :: m in Notes(wire)[|before|..] ==> IsNotification(m)
    ensures !OutcomeOf(t, Notes(wire)[|before|..]).Text?
  {
    hide FinalText, Notes, OwnPart;
    var notes := Notes(wire)[|before|..];
    forall i | 0 <= i < |seen|
      ensures notes[i] == seen[i]
    {
      assert Notes(wire)[|before| + i] == delivered[|before| + i] == seen[i];
    }
    assert notes[|seen|] == Notes(wire)[|before| + |seen|] == delivered[|before| + |seen|] == last;
    assert EndIndex(t, notes) == |seen|;
  }

  lemma AllDelivered(t: Turn, before: seq<Message>, seen: seq<Message>, log: seq<Notification>,
                     delivered: seq<Message>, unread: seq<Message>, wire: seq<Message>)
    requires delivered == before + seen && unread == [] && delivered + [] + Notes(unread) == Notes(wire)
    requires Heard(t, seen, log)
    requires forall m :: m in Notes(wire)[|before|..] ==> IsNotification(m)
    ensures OutcomeOf(t, Notes(wire)[|before|..]) == Unfinished
  {
    hide FinalText, OwnPart;
    var notes := Notes(wire)[|before|..];
    assert notes == seen;
  }

  // ----- steering in mid-turn --------------------------------------------------------------

  /** One round of the loop that waits for the response to a call made during a turn.  It takes messages from the
      queue first, and puts notifications back into the same queue. */
  datatype Wait = Waiting(pending: seq<Message>, unread: seq<Message>) | Returned(response: Message) | Failed

  function WaitRound(w: Wait): Wait {
    if !w.Waiting? then w
    else if w.pending != [] then
      WaitOn(w.pending[0], w.pending[1..], w.unread)
    else if w.unread == [] then Failed
    else WaitOn(w.unread[0], w.pending, w.unread[1..])
  }

  function WaitOn(m: Message, pending: seq<Message>, unread: seq<Message>): Wait {
    match m
    case Response(_, _, _) => Returned(m)
    case ServerRequest(answered) => if answered then Waiting(pending, unread) else Failed
    case _ => Waiting(pending + [m], unread)
  }

  function WaitRounds(w: Wait, n: nat): Wait
    decreases n
  {
    if n == 0 then w else WaitRounds(WaitRound(w), n - 1)
  }

  /** Once a notification is queued the loop only turns the queue round and never reads the connection again. */
  lemma {:induction false} QueuedNeverReturns(pending: seq<Message>, unread: seq<Message>, n: nat)
    requires pending != [] && forall m :: m in pending ==> IsNotification(m)
    ensures WaitRounds(Waiting(pending, unread), n).Waiting? && WaitRounds(Waiting(pending, unread), n).unread == unread
    decreases n
  {
    if n > 0 {
      var next := pending[1..] + [pending[0]];
      assert pending[0] in pending;
      assert WaitRound(Waiting(pending, unread)) == Waiting(next, unread);
      QueuedNeverReturns(next, unread, n - 1);
    }
  }

  /** The messages before the first one that is not an answered server request. */
  function SkipRequests(unread: seq<Message>): (k: nat)
    ensures k <= |unread|
    ensures k < |unread| ==> !(unread[k].ServerRequest? && unread[k].answered)
  {
    if unread == [] || !(unread[0].ServerRequest? && unread[0].answered) then 0 else 1 + SkipRequests(unread[1..])
  }

  /** The exact condition for a mid-turn call to receive its response: no notification is queued, and apart from
      server requests that get answered the response is the very next message on the connection. */
  lemma MidTurnCallReturnsIff(pending: seq<Message>, unread: seq<Message>)
    requires forall m :: m in pending ==> IsNotification(m)
    ensures (exists n :: WaitRounds(Waiting(pending, unread), n).Returned?) <==>
            pending == [] && SkipRequests(unread) < |unread| && unread[SkipRequests(unread)].Response?
  {
    if pending != [] {
      forall n
        ensures !WaitRounds(Waiting(pending, unread), n).Returned?
      {
        QueuedNeverReturns(pending, unread, n);
      }
    } else {
      ReadsToFirst(unread);
      var k := SkipRequests(unread);
      var rest := unread[k..];
      if k < |unread| && unread[k].Response? {
        assert WaitRounds(Waiting([], unread), k + 1).Returned?;
      } else {
        forall n: nat
          ensures !WaitRounds(Waiting([], unread), n).Returned?
        {
          NeverReturnsAfter(unread, n);
        }
      }
    }
  }

  lemma {:induction false} ReadsToFirst(unread: seq<Message>)
    ensures var k := SkipRequests(unread);
            && WaitRounds(Waiting([], unread), k) == Waiting([], unread[k..])
            && WaitRounds(Waiting([], unread), k + 1) == WaitRound(Waiting([], unread[k..]))
    decreases |unread|
  {
    if SkipRequests(unread) > 0 {
      ReadsToFirst(unread[1..]);
    } else {
      assert unread[0..] == unread;
    }
  }

  lemma {:induction false} StoppedStays(w: Wait, n: nat)
    requires !w.Waiting?
    ensures WaitRounds(w, n) == w
    decreases n
  {
    if n > 0 {
      StoppedStays(w, n - 1);
    }
  }

  lemma {:induction false} NeverReturnsAfter(unread: seq<Message>, n: nat)
    requires SkipRequests(unread) == |unread| || !unread[SkipRequests(unread)].Response?
    ensures !WaitRounds(Waiting([], unread), n).Returned?
    decreases n
  {
    if n > 0 {
      var w := WaitRound(Waiting([], unread));
      if SkipRequests(unread) > 0 {
        NeverReturnsAfter(unread[1..], n - 1);
      } else if unread != [] && IsNotification(unread[0]) {
        assert w == Waiting([unread[0]], unread[1..]);
        QueuedNeverReturns([unread[0]], unread[1..], n - 1);
      } else {
        StoppedStays(w, n - 1);
      }
    }
  }
}
