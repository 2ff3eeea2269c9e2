/** Shutdown of a connection's outgoing channel. */
module OutgoingChannel {
  // The closed flag, the wait group of senders and the close, with any number of concurrent notification
  // senders and any number of closing calls; and the read loop and the writer at the channel's two ends.

  /** A sender between its registration and its `Done`: about to select, or past the select. */
  datatype Sender = Registered | Selected

  /** A call of `closeOutgoing` that found the session open. */
  datatype Closer = Claimed | Waiting | Waited | Closed

  /** Where the read loop stands; it replies on the channel directly, and leaves for its deferred shutdown. */
  datatype Loop = Checking | Reading | Handling | Sending | Left

  /** The goroutine that writes what it takes from the channel, until a write fails or the channel is closed. */
  datatype Writer = Idle | Holding | Gone

  datatype Op = Send(sender: nat) | Reply | Close

  const CAPACITY := 256

  /** `ops` is everything done to the channel, and `queued` how much waits in it. */
  datatype State = State(closed: bool, cancelled: bool, waitGroup: int, loop: Loop, senders: map<nat, Sender>,
                         closers: map<nat, Closer>, ops: seq<Op>, queued: nat, writer: Writer) {

    function EnterSend(t: nat): State {
      if closed then this else this.(waitGroup := waitGroup + 1, senders := senders[t := Registered])
    }

    function EnterClose(k: nat): State {
      if closed then this else this.(closed := true, closers := closers[k := Claimed])
    }

    predicate HasRoom() {
      queued < CAPACITY
    }

    function Put(op: Op): State {
      this.(ops := ops + [op], queued := queued + 1)
    }
  }

  datatype Action =
    | EnterSend(t: nat)
    | SelectSend(t: nat)
    | SelectDone(t: nat)
    | SendDone(t: nat)
    | CheckWriter
    | ReadFrame
    | ReadEnds
    | StartReply
    | ReplyDirectly
    | HandlingEnds(stop: bool)
    | WriterTakes
    | WriterWrote
    | WriterFails
    | WriterEnds
    | CancelFromOutside
    | EnterClose(k: nat)
    | CancelContext(k: nat)
    | WaitReturns(k: nat)
    | CloseChannel(k: nat)

  function Initial(): State {
    State(false, false, 0, Checking, map[], map[], [], 0, Idle)
  }

  predicate SenderAt(s: State, t: nat, at: Sender) {
    t in s.senders && s.senders[t] == at
  }

  predicate CloserAt(s: State, k: nat, at: Closer) {
    k in s.closers && s.closers[k] == at
  }

  /** The shutdown is deferred by the read loop, so nothing closes while it is serving. */
  predicate Enabled(s: State, a: Action) {
    match a
    case EnterSend(t) => t !in s.senders
    case SelectSend(t) => SenderAt(s, t, Registered) && s.HasRoom()
    case SelectDone(t) => SenderAt(s, t, Registered) && s.cancelled
    case SendDone(t) => SenderAt(s, t, Selected)
    case CheckWriter => s.loop == Checking
    case ReadFrame => s.loop == Reading
    case ReadEnds => s.loop == Reading
    case StartReply => s.loop == Handling
    case ReplyDirectly => s.loop == Sending && s.HasRoom()
    case HandlingEnds(_) => s.loop == Handling
    case WriterTakes => s.writer == Idle && s.queued > 0
    case WriterWrote => s.writer == Holding
    case WriterFails => s.writer == Holding
    case WriterEnds => s.writer == Idle && s.queued == 0 && Close in s.ops
    case CancelFromOutside => true
    case EnterClose(k) => s.loop == Left && k !in s.closers
    case CancelContext(k) => CloserAt(s, k, Claimed)
    case WaitReturns(k) => CloserAt(s, k, Waiting) && s.waitGroup == 0
    case CloseChannel(k) => CloserAt(s, k, Waited)
  }

  function Step(s: State, a: Action): State
    requires Enabled(s, a)
  {
    match a
    case EnterSend(t) => s.EnterSend(t)
    case SelectSend(t) => s.Put(Send(t)).(senders := s.senders[t := Selected])
    case SelectDone(t) => s.(senders := s.senders[t := Selected])
    case SendDone(t) => s.(waitGroup := s.waitGroup - 1, senders := s.senders - {t})
    case CheckWriter => s.(loop := if s.writer == Gone then Left else Reading)
    case ReadFrame => s.(loop := Handling)
    case ReadEnds => s.(loop := Left)
    case StartReply => s.(loop := Sending)
    case ReplyDirectly => s.Put(Reply).(loop := Handling)
    case HandlingEnds(stop) => s.(loop := if stop then Left else Checking)
    case WriterTakes => s.(queued := s.queued - 1, writer := Holding)
    case WriterWrote => s.(writer := Idle)
    case WriterFails => s.(writer := Gone)
    case WriterEnds => s.(writer := Gone)
    case CancelFromOutside => s.(cancelled := true)
    case EnterClose(k) => s.EnterClose(k)
    case CancelContext(k) => s.(cancelled := true, closers := s.closers[k := Waiting])
    case WaitReturns(k) => s.(closers := s.closers[k := Waited])
    case CloseChannel(k) => s.(closers := s.closers[k := Closed], ops := s.ops + [Close])
  }

  ghost predicate IsRun(states: seq<State>, actions: seq<Action>) {
    && |states| == |actions| + 1
    && states[0] == Initial()
    && forall i :: 0 <= i < |actions| ==> Enabled(states[i], actions[i]) && states[i + 1] == Step(states[i], actions[i])
  }

  /** One call claims the close, the wait group counts the senders in flight, and once the wait is over
      there are none. */
  predicate Inv(s: State) {
    && s.waitGroup == |s.senders|
    && (s.closed <==> s.closers != map[])
    && (s.closed ==> s.loop == Left)
    && s.queued <= CAPACITY
    && (forall k, l :: k in s.closers && l in s.closers ==> k == l)
    && (forall k :: k in s.closers && s.closers[k] in {Waited, Closed} ==> s.senders == map[])
    && (forall k :: k in s.closers && s.closers[k] != Claimed ==> s.cancelled)
    && (Close in s.ops <==> exists k :: k in s.closers && s.closers[k] == Closed)
    && (forall i :: 0 <= i < |s.ops| && s.ops[i] == Close ==> i == |s.ops| - 1)
  }

  lemma CloserStepKeepsInv(s: State, a: Action)
    requires Inv(s) && Enabled(s, a) && !(a.EnterSend? || a.SelectSend? || a.SelectDone? || a.SendDone?)
    ensures Inv(Step(s, a))
  {
    var t := Step(s, a);
    match a
    case EnterClose(k) =>
      assert !s.closed ==> k in t.closers;
    case CancelContext(k) =>
      assert t.closers.Keys == s.closers.Keys;
    case WaitReturns(k) =>
      assert t.closers.Keys == s.closers.Keys;
    case CloseChannel(k) =>
      assert t.closers.Keys == s.closers.Keys;
      assert t.closers[k] == Closed;
      assert t.ops[|s.ops|] == Close;
      assert Close !in s.ops;
    case _ =>
  }

  lemma {:induction false} RunKeepsInv(states: seq<State>, actions: seq<Action>, i: nat)
    requires IsRun(states, actions) && i < |states|
    ensures Inv(states[i])
  {
    if i > 0 {
      RunKeepsInv(states, actions, i - 1);
      var a := actions[i - 1];
      if a.EnterSend? {
      } else if a.SelectSend? || a.SelectDone? {
      } else if a.SendDone? {
      } else {
        CloserStepKeepsInv(states[i - 1], a);
      }
    }
  }

  /** In every run the channel is closed at most once and nothing is sent on it afterwards. */
  lemma ClosedOnceAndLast(states: seq<State>, actions: seq<Action>, i: nat, m: nat, n: nat)
    requires IsRun(states, actions) && i < |states|
    requires m < |states[i].ops| && n < |states[i].ops| && states[i].ops[m] == Close
    ensures n <= m
    ensures (states[i].ops[n] == Close ==> n == m)
  {
    RunKeepsInv(states, actions, i);
  }

  /** The close happens with no sender in flight and the read loop gone. */
  lemma ClosedWithNobodySending(states: seq<State>, actions: seq<Action>, i: nat)
    requires IsRun(states, actions) && i < |actions| && actions[i].CloseChannel?
    ensures states[i].senders == map[]
    ensures states[i].waitGroup == 0
    ensures states[i].loop == Left
    ensures Close !in states[i].ops
  {
    RunKeepsInv(states, actions, i);
    assert states[i].closers[actions[i].k] != Closed;
  }

  /** Handling a message ends the loop, or there is nothing more to read, or the writer is found gone. */
  predicate LeavesLoop(s: State, a: Action) {
    a == HandlingEnds(true) || a == ReadEnds || (a == CheckWriter && s.writer == Gone)
  }

  lemma LoopStep(s: State, a: Action)
    requires Enabled(s, a)
    ensures Step(s, a).loop == Left <==> s.loop == Left || LeavesLoop(s, a)
  {
  }

  predicate HasLeft(states: seq<State>, actions: seq<Action>, i: nat) {
    i < |states| == |actions| + 1 && exists k :: 0 <= k < i && LeavesLoop(states[k], actions[k])
  }

  /** The read loop reads and replies until it leaves, and never again. */
  lemma {:induction false} LeftIffItLeaves(states: seq<State>, actions: seq<Action>, i: nat)
    requires IsRun(states, actions) && i < |states|
    ensures states[i].loop == Left <==> HasLeft(states, actions, i)
    ensures HasLeft(states, actions, i) && i < |actions| ==> !actions[i].ReadFrame? && !actions[i].ReplyDirectly?
  {
    if i > 0 {
      LeftIffItLeaves(states, actions, i - 1);
      LoopStep(states[i - 1], actions[i - 1]);
      HasLeftNext(states, actions, i - 1);
    }
  }

  lemma HasLeftNext(states: seq<State>, actions: seq<Action>, i: nat)
    requires i < |actions| && |states| == |actions| + 1
    ensures HasLeft(states, actions, i + 1) <==>
              HasLeft(states, actions, i) || LeavesLoop(states[i], actions[i])
  {
  }

  // ----- the wait ends -----

  function RegisteredOf(senders: map<nat, Sender>): set<nat> {
    set t | t in senders.Keys && senders[t] == Registered
  }

  /** The steps the senders in flight still have to take. */
  function Remaining(senders: map<nat, Sender>): nat {
    |senders.Keys| + |RegisteredOf(senders)|
  }

  lemma RemainingStep(s: State, a: Action)
    requires Enabled(s, a) && (a.SelectSend? || a.SelectDone? || a.SendDone?)
    ensures Remaining(Step(s, a).senders) == Remaining(s.senders) - 1
  {
    if a.SendDone? {
      SenderLeaves(s.senders, a.t);
    } else {
      SenderSelects(s.senders, a.t);
    }
  }

  lemma SenderLeaves(senders: map<nat, Sender>, t: nat)
    requires t in senders && senders[t] == Selected
    ensures Remaining(senders - {t}) == Remaining(senders) - 1
  {
    assert (senders - {t}).Keys == senders.Keys - {t};
    assert RegisteredOf(senders - {t}) == RegisteredOf(senders);
  }

  lemma SenderSelects(senders: map<nat, Sender>, t: nat)
    requires t in senders && senders[t] == Registered
    ensures Remaining(senders[t := Selected]) == Remaining(senders) - 1
  {
    assert senders[t := Selected].Keys == senders.Keys;
    assert RegisteredOf(senders[t := Selected]) == RegisteredOf(senders) - {t};
    assert t in RegisteredOf(senders);
  }

  /** Once shutdown has begun it cannot hang: while a closer waits for senders, every one of them can take a
      step without the channel's reader, no new one is admitted, and every step of theirs brings the wait
      closer to its end. */
  lemma WaitMakesProgress(states: seq<State>, actions: seq<Action>, i: nat, k: nat, t: nat, newcomer: nat)
    requires IsRun(states, actions) && i < |states|
    requires CloserAt(states[i], k, Waiting) && t in states[i].senders && newcomer !in states[i].senders
    ensures Enabled(states[i], SelectDone(t)) || Enabled(states[i], SendDone(t))
    ensures forall a :: Enabled(states[i], a) && a in {SelectSend(t), SelectDone(t), SendDone(t)} ==>
              Remaining(Step(states[i], a).senders) < Remaining(states[i].senders)
    ensures Step(states[i], EnterSend(newcomer)) == states[i]
  {
    RunKeepsInv(states, actions, i);
    var s := states[i];
    forall a | Enabled(s, a) && a in {SelectSend(t), SelectDone(t), SendDone(t)}
      ensures Remaining(Step(s, a).senders) < Remaining(s.senders)
    {
      RemainingStep(s, a);
    }
  }

  /** ... and when the last sender is done, the waiting call goes on to close. */
  lemma WaitEnds(states: seq<State>, actions: seq<Action>, i: nat, k: nat)
    requires IsRun(states, actions) && i < |states| && CloserAt(states[i], k, Waiting)
    ensures Remaining(states[i].senders) == 0 <==> Enabled(states[i], WaitReturns(k))
  {
    RunKeepsInv(states, actions, i);
    var s := states[i];
    assert |s.senders| == |s.senders.Keys|;
    assert RegisteredOf(s.senders) <= s.senders.Keys;
  }

  // ----- shutdown may never begin -----

  /** The read loop waits to reply on a full channel that nobody reads any more. */
  predicate Stuck(s: State) {
    s.loop == Sending && s.queued == CAPACITY && s.writer == Gone
  }

  /** A reply that waits for room gets through sooner or later unless the loop is stuck: there is room, or the
      writer can make it. */
  lemma ReplyGetsThroughIff(s: State)
    requires Inv(s) && s.loop == Sending
    ensures Stuck(s) <==>
              && !Enabled(s, ReplyDirectly)
              && !(Enabled(s, WriterTakes) && Enabled(Step(s, WriterTakes), ReplyDirectly))
              && !(Enabled(s, WriterWrote) && Enabled(Step(s, WriterWrote), WriterTakes)
                   && Enabled(Step(Step(s, WriterWrote), WriterTakes), ReplyDirectly))
  {
  }

  lemma StuckStays(s: State, a: Action)
    requires Stuck(s) && Enabled(s, a)
    ensures Stuck(Step(s, a))
  {
  }

  /** A stuck loop stays stuck whatever happens, cancelling included, and its session is never closed. */
  lemma {:induction false} StuckForGood(states: seq<State>, actions: seq<Action>, i: nat, j: nat)
    requires IsRun(states, actions) && i <= j < |states| && Stuck(states[i])
    ensures Stuck(states[j]) && !states[j].closed && Close !in states[j].ops
  {
    if i < j {
      StuckForGood(states, actions, i, j - 1);
      StuckStays(states[j - 1], actions[j - 1]);
    }
    RunKeepsInv(states, actions, j);
    StuckIsOpen(states[j]);
  }

  lemma StuckIsOpen(s: State)
    requires Inv(s) && Stuck(s)
    ensures !s.closed && Close !in s.ops
  {
  }

  ghost predicate Reachable(s: State) {
    exists states, actions :: ReachedBy(s, states, actions)
  }

  ghost predicate ReachedBy(s: State, states: seq<State>, actions: seq<Action>) {
    IsRun(states, actions) && states[|actions|] == s
  }

  lemma StartReachable()
    ensures Reachable(Initial())
  {
    assert ReachedBy(Initial(), [Initial()], []);
  }

  lemma StepReachable(s: State, a: Action)
    requires Reachable(s) && Enabled(s, a)
    ensures Reachable(Step(s, a))
  {
    var states, actions :| ReachedBy(s, states, actions);
    assert ReachedBy(Step(s, a), states + [Step(s, a)], actions + [a]);
  }

  /** One notification is put on the channel. */
  lemma NotificationReachable(s: State)
    requires Reachable(s) && s.senders == map[] && s.HasRoom() && !s.closed
    ensures Reachable(s.Put(Send(0)))
  {
    var s1 := Step(s, EnterSend(0));
    StepReachable(s, EnterSend(0));
    var s2 := Step(s1, SelectSend(0));
    StepReachable(s1, SelectSend(0));
    StepReachable(s2, SendDone(0));
    assert Step(s2, SendDone(0)) == s.Put(Send(0));
  }

  /** The loop reads, the writer is busy with one notification, and `n` more wait. */
  lemma {:induction false} FillReachable(n: nat) returns (s: State)
    requires n <= CAPACITY
    ensures Reachable(s) && s == State(false, false, 0, Reading, map[], map[], s.ops, n, Holding)
  {
    if n == 0 {
      StartReachable();
      var s0 := Step(Initial(), CheckWriter);
      StepReachable(Initial(), CheckWriter);
      NotificationReachable(s0);
      StepReachable(s0.Put(Send(0)), WriterTakes);
      s := Step(s0.Put(Send(0)), WriterTakes);
    } else {
      var before := FillReachable(n - 1);
      NotificationReachable(before);
      s := before.Put(Send(0));
    }
  }

  /** It can come to that: the writer is slow, notifications fill the channel while a request is read, and then
      the write fails. */
  lemma StuckIsReachable() returns (s: State)
    ensures Reachable(s) && Stuck(s) && s.queued == 256
  {
    var full := FillReachable(CAPACITY);
    StepReachable(full, ReadFrame);
    var handling := Step(full, ReadFrame);
    StepReachable(handling, StartReply);
    var sending := Step(handling, StartReply);
    StepReachable(sending, WriterFails);
    s := Step(sending, WriterFails);
  }

  // ----- the session object -----

  /** The fields the session's mutex guards. */
  class ConnectionSession {
    var closed: bool
    var cancelled: bool
    var sendWG: nat

    constructor ()
      ensures !closed && !cancelled && sendWG == 0
    {
      closed, cancelled, sendWG := false, false, 0;
    }

    /** The locked part of `enqueueNotification`: registration and the flag are one section. */
    method BeginSend(ghost s: State, ghost t: nat) returns (admitted: bool)
      requires closed == s.closed && sendWG == s.waitGroup
      modifies this`sendWG
      ensures admitted <==> !closed
      ensures sendWG == s.EnterSend(t).waitGroup
      ensures closed == s.EnterSend(t).closed
    {
      if closed {
        return false;
      }
      sendWG := sendWG + 1;
      return true;
    }

    method EndSend()
      requires sendWG > 0
      modifies this`sendWG
      ensures sendWG == old(sendWG) - 1
    {
      sendWG := sendWG - 1;
    }

    /** The locked part of `closeOutgoing`: only the first call goes on. */
    method BeginClose(ghost s: State, ghost k: nat) returns (claimed: bool)
      requires closed == s.closed && sendWG == s.waitGroup
      modifies this`closed
      ensures claimed <==> !old(closed)
      ensures closed
      ensures closed == s.EnterClose(k).closed
      ensures sendWG == s.EnterClose(k).waitGroup
    {
      if closed {
        return false;
      }
      closed := true;
      return true;
    }

    /** The call that claimed the close cancels the connection, so that senders stop waiting for room. */
    method CancelContext(ghost s: State, ghost k: nat)
      requires closed == s.closed && cancelled == s.cancelled && sendWG == s.waitGroup
      requires Enabled(s, Action.CancelContext(k))
      modifies this`cancelled
      ensures var t := Step(s, Action.CancelContext(k));
              cancelled == t.cancelled && closed == t.closed && sendWG == t.waitGroup
      ensures forall sender: nat :: SenderAt(s, sender, Registered) ==>
                Enabled(Step(s, Action.CancelContext(k)), SelectDone(sender))
    {
      cancelled := true;
    }
  }
}
