/** All interleavings of the relay client's threads. */
module RelayRuns {
  // The read loop handles session-inits one at a time, and any number of threads connect, disconnect,
  // reply and send events.  A step is one acquisition, one critical section of the state lock, or one
  // write to a connection.

  import opened Options
  import opened RelayLink

  datatype Message = Ack(session: Session) | Encrypted(session: Session)

  /** Where the holder of the write lock stands. */
  datatype Writer =
    | Free
    | AckLocked(s: Session)
    | AckReady(s: Session, conn: nat)
    | AckWritten(s: Session, conn: nat)
    | AckFailed(s: Session)
    | EventLocked
    | EventBuilding(epoch: nat, conn: nat, s: Session)
    | EventBuilt(epoch: nat, conn: nat, s: Session)
    | EventReady(conn: nat, s: Session)
    | ReplyLocked(s: Session)
    | ReplyReady(conn: nat, s: Session)

  /** `pending` holds the sessions that are installed and whose init has not finished; `wires` is
      everything written to each connection, `connEpoch` the epoch each connection was published in. */
  datatype State = State(link: Link, writer: Writer, pending: set<Session>, nextSession: nat,
                         wires: map<nat, seq<Message>>, connEpoch: map<nat, nat>)

  datatype Action =
    | Detach
    | Attach(conn: nat)
    | InitInstall(epoch: nat)
    | AckLock(s: Session)
    | AckRead
    | AckWrite(ok: bool)
    | AckAbandon
    | AckActivate
    | EventLock
    | EventRead
    | EventBuild(ok: bool)
    | EventRecheck
    | EventWrite(ok: bool)
    | ReplyLock(s: Session)
    | ReplyRead
    | ReplyWrite(ok: bool)
    | EndSession(epoch: nat)

  function Initial(): State {
    State(Link(None, 0, None, None), Free, {}, 0, map[], map[])
  }

  /** Enabled by the locks alone.  Whatever changes the connection, and ending a session, holds the
      write lock too. */
  predicate LocksAllow(r: State, a: Action) {
    match a
    case Detach => r.writer == Free
    case Attach(c) => r.writer == Free && c !in r.wires
    case InitInstall(e) => true
    case AckLock(s) => r.writer == Free && s in r.pending
    case AckRead => r.writer.AckLocked?
    case AckWrite(_) => r.writer.AckReady? && r.writer.conn in r.wires
    case AckAbandon => r.writer.AckFailed?
    case AckActivate => r.writer.AckWritten?
    case EventLock => r.writer == Free
    case EventRead => r.writer == EventLocked
    case EventBuild(_) => r.writer.EventBuilding?
    case EventRecheck => r.writer.EventBuilt?
    case EventWrite(_) => r.writer.EventReady? && r.writer.conn in r.wires
    case ReplyLock(s) => r.writer == Free && s.id < r.nextSession
    case ReplyRead => r.writer.ReplyLocked?
    case ReplyWrite(_) => r.writer.ReplyReady? && r.writer.conn in r.wires
    case EndSession(e) => r.writer == Free
  }

  /** The read loop of a connection is one thread: no init or end of session while an init of the same
      epoch is unfinished. */
  predicate OneInitAtATime(r: State, a: Action) {
    a.InitInstall? || a.EndSession? ==> forall s :: s in r.pending ==> s.epoch != a.epoch
  }

  predicate Enabled(r: State, a: Action) {
    LocksAllow(r, a) && OneInitAtATime(r, a)
  }

  function Write(r: State, c: nat, m: Message): State
    requires c in r.wires
  {
    r.(wires := r.wires[c := r.wires[c] + [m]])
  }

  function Step(r: State, a: Action): State
    requires LocksAllow(r, a)
  {
    match a
    case Detach =>
      r.(link := r.link.Detach())
    case Attach(c) =>
      r.(link := r.link.Attach(c), wires := r.wires[c := []], connEpoch := r.connEpoch[c := r.link.epoch + 1])
    case InitInstall(e) =>
      var s := Session(r.nextSession, e);
      r.(link := r.link.Install(s), nextSession := r.nextSession + 1,
         pending := if r.link.Check(s) == Done then r.pending + {s} else r.pending)
    case AckLock(s) =>
      r.(writer := AckLocked(s))
    case AckRead =>
      var s := r.writer.s;
      if r.link.Check(s) == Done then r.(writer := AckReady(s, r.link.conn.value))
      else r.(writer := Free, pending := r.pending - {s})
    case AckWrite(ok) =>
      var s, c := r.writer.s, r.writer.conn;
      if ok then Write(r, c, Ack(s)).(writer := AckWritten(s, c)) else r.(writer := AckFailed(s))
    case AckAbandon =>
      r.(link := r.link.Clear(r.writer.s), writer := Free, pending := r.pending - {r.writer.s})
    case AckActivate =>
      r.(link := r.link.Activate(r.writer.s, r.writer.conn), writer := Free, pending := r.pending - {r.writer.s})
    case EventLock =>
      r.(writer := EventLocked)
    case EventRead =>
      if r.link.conn == None || r.link.active == None then r.(writer := Free)
      else r.(writer := EventBuilding(r.link.epoch, r.link.conn.value, r.link.active.value))
    case EventBuild(ok) =>
      r.(writer := if ok then EventBuilt(r.writer.epoch, r.writer.conn, r.writer.s) else Free)
    case EventRecheck =>
      var e, c, s := r.writer.epoch, r.writer.conn, r.writer.s;
      r.(writer := if r.link.Recheck(e, c, s) == Done then EventReady(c, s) else Free)
    case EventWrite(ok) =>
      var c, s := r.writer.conn, r.writer.s;
      (if ok then Write(r, c, Encrypted(s)) else r).(writer := Free)
    case ReplyLock(s) =>
      r.(writer := ReplyLocked(s))
    case ReplyRead =>
      var s := r.writer.s;
      r.(writer := if r.link.CheckReply(s) == Done then ReplyReady(r.link.conn.value, s) else Free)
    case ReplyWrite(ok) =>
      var c, s := r.writer.conn, r.writer.s;
      (if ok then Write(r, c, Encrypted(s)) else r).(writer := Free)
    case EndSession(e) =>
      r.(link := r.link.End(e))
  }

  ghost predicate IsRun(states: seq<State>, actions: seq<Action>) {
    && |states| == |actions| + 1
    && states[0] == Initial()
    && forall i :: 0 <= i < |actions| ==> Enabled(states[i], actions[i]) && states[i + 1] == Step(states[i], actions[i])
  }

  // ----- what a wire may hold -----

  function LastAck(w: seq<Message>): Option<Session> {
    if w == [] then None
    else if w[|w| - 1].Ack? then Some(w[|w| - 1].session)
    else LastAck(w[..|w| - 1])
  }

  /** Everything on the wire belongs to its epoch, and each encrypted message is under the session
      that was acknowledged last before it. */
  predicate WireOk(w: seq<Message>, epoch: nat) {
    forall i :: 0 <= i < |w| ==>
      w[i].session.epoch == epoch && (w[i].Encrypted? ==> LastAck(w[..i]) == Some(w[i].session))
  }

  // ----- what every run keeps -----

  /** In every interleaving, a message encrypted under a session is only ever written to the connection
      of that session's epoch, and the last ack on that wire before it is that session's. */
  lemma MessagesFollowTheirAck(states: seq<State>, actions: seq<Action>, i: nat, c: nat, k: nat)
    requires IsRun(states, actions) && i < |states|
    requires c in states[i].wires && k < |states[i].wires[c]| && states[i].wires[c][k].Encrypted?
    ensures c in states[i].connEpoch
    ensures states[i].wires[c][k].session.epoch == states[i].connEpoch[c]
    ensures LastAck(states[i].wires[c][..k]) == Some(states[i].wires[c][k].session)
  {
    RunKeepsInv(states, actions, i);
  }

  /** Once a connection has been replaced or detached, nothing is ever written to it again. */
  lemma {:induction false} DetachedWireIsFrozen(states: seq<State>, actions: seq<Action>, i: nat, j: nat, c: nat)
    requires IsRun(states, actions) && i <= j < |states|
    requires c in states[i].wires && states[i].link.conn != Some(c)
    ensures c in states[j].wires
    ensures states[j].wires[c] == states[i].wires[c]
    ensures states[j].link.conn != Some(c)
  {
    if i < j {
      DetachedWireIsFrozen(states, actions, i, j - 1, c);
      RunKeepsInv(states, actions, j - 1);
      StepKeepsEpochs(states[j - 1], actions[j - 1], c);
    }
  }

  // ----- messages need a live session -----

  /** The session and its connection are over: the client or the server ends them. */
  predicate IsOver(r: State, a: Action) {
    a.Detach? || a.Attach? || (a.EndSession? && a.epoch == r.link.epoch)
  }

  /** The k-th step activated the session behind its ack, and nothing has ended it before the i-th state. */
  predicate ActivatedAt(states: seq<State>, actions: seq<Action>, k: nat, i: nat, s: Session) {
    && k < i < |states| == |actions| + 1
    && actions[k].AckActivate?
    && states[k].writer.AckWritten?
    && states[k].writer.s == s
    && forall j :: k < j < i ==> !IsOver(states[j], actions[j])
  }

  ghost predicate IsLive(states: seq<State>, actions: seq<Action>, i: nat, s: Session) {
    exists k: nat :: ActivatedAt(states, actions, k, i, s)
  }

  /** The session under which the holder of the write lock builds or writes a message. */
  function WritesUnder(w: Writer): Option<Session> {
    match w
    case EventBuilding(_, _, s) => Some(s)
    case EventBuilt(_, _, s) => Some(s)
    case EventReady(_, s) => Some(s)
    case ReplyReady(_, s) => Some(s)
    case _ => None
  }

  ghost predicate SessionsLive(states: seq<State>, actions: seq<Action>, i: nat)
    requires i < |states|
  {
    && (states[i].link.active.Some? ==> IsLive(states, actions, i, states[i].link.active.value))
    && (WritesUnder(states[i].writer).Some? ==> IsLive(states, actions, i, WritesUnder(states[i].writer).value))
  }

  lemma StaysLive(states: seq<State>, actions: seq<Action>, i: nat, s: Session)
    requires IsLive(states, actions, i, s) && i < |actions| && !IsOver(states[i], actions[i])
    ensures IsLive(states, actions, i + 1, s)
  {
    var k: nat :| ActivatedAt(states, actions, k, i, s);
    assert ActivatedAt(states, actions, k, i + 1, s);
  }

  /** A session is active, or written under, after a step only if it was before, or the step activated it. */
  lemma LiveStep(r: State, a: Action)
    requires LocksAllow(r, a)
    ensures var t := Step(r, a);
            && (t.link.active.Some? && t.link.active != r.link.active ==>
                  a.AckActivate? && r.writer.AckWritten? && t.link.active == Some(r.writer.s))
            && (WritesUnder(t.writer).Some? ==>
                  WritesUnder(t.writer) == WritesUnder(r.writer) || WritesUnder(t.writer) == r.link.active)
            && (IsOver(r, a) ==> t.link.active == None && WritesUnder(t.writer) == None)
  {
  }

  lemma {:induction false} RunKeepsLive(states: seq<State>, actions: seq<Action>, i: nat)
    requires IsRun(states, actions) && i < |states|
    ensures SessionsLive(states, actions, i)
  {
    if i > 0 {
      var r, a := states[i - 1], actions[i - 1];
      RunKeepsLive(states, actions, i - 1);
      LiveStep(r, a);
      forall s | states[i].link.active == Some(s) || WritesUnder(states[i].writer) == Some(s)
        ensures IsLive(states, actions, i, s)
      {
        if IsLive(states, actions, i - 1, s) {
          StaysLive(states, actions, i - 1, s);
        } else {
          assert ActivatedAt(states, actions, i - 1, i, s);
        }
      }
    }
  }

  /** A message encrypted under a session is written only while the session lives: it was activated behind its
      ack, and since then neither the client has ended it nor has the connection been detached or replaced. */
  lemma WrittenUnderLiveSession(states: seq<State>, actions: seq<Action>, i: nat)
    requires IsRun(states, actions) && i < |actions| && (actions[i].EventWrite? || actions[i].ReplyWrite?)
    ensures IsLive(states, actions, i, states[i].writer.s)
  {
    RunKeepsLive(states, actions, i);
  }

  lemma NoneLiveAfterEnd(states: seq<State>, actions: seq<Action>, k: nat, i: nat, s: Session)
    requires k < i < |states| == |actions| + 1 && IsOver(states[k], actions[k]) && !actions[k].AckActivate?
    requires forall j :: k < j < i ==> !actions[j].AckActivate?
    ensures !IsLive(states, actions, i, s)
  {
    forall j: nat
      ensures !ActivatedAt(states, actions, j, i, s)
    {
    }
  }

  /** The session was active on the connection when the holder of the write lock last looked, behind building the
      message. */
  ghost predicate WasActive(states: seq<State>, actions: seq<Action>, i: nat, c: nat, s: Session) {
    exists k: nat :: SeenActiveAt(states, actions, k, i, c, s)
  }

  predicate SeenActiveAt(states: seq<State>, actions: seq<Action>, k: nat, i: nat, c: nat, s: Session) {
    && k < i < |states| == |actions| + 1
    && (actions[k].EventRecheck? || actions[k].ReplyRead?)
    && states[k].link.conn == Some(c)
    && states[k].link.active == Some(s)
    && forall j :: k < j <= i ==> states[j].writer == states[i].writer
  }

  lemma {:induction false} ReadyWasActive(states: seq<State>, actions: seq<Action>, i: nat)
    requires IsRun(states, actions) && i < |states| && (states[i].writer.EventReady? || states[i].writer.ReplyReady?)
    ensures WasActive(states, actions, i, states[i].writer.conn, states[i].writer.s)
  {
    var r, a, c, s := states[i - 1], actions[i - 1], states[i].writer.conn, states[i].writer.s;
    assert states[i] == Step(r, a);
    if a.EventRecheck? || a.ReplyRead? {
      assert SeenActiveAt(states, actions, i - 1, i, c, s);
    } else {
      ReadyWasActive(states, actions, i - 1);
      var k: nat :| SeenActiveAt(states, actions, k, i - 1, c, s);
      assert SeenActiveAt(states, actions, k, i, c, s);
    }
  }

  /** A message is written only if its session was still the active one, on the connection it goes to, when that was
      checked behind the building of the message. */
  lemma WrittenAfterCheck(states: seq<State>, actions: seq<Action>, i: nat)
    requires IsRun(states, actions) && i < |actions| && (actions[i].EventWrite? || actions[i].ReplyWrite?)
    ensures WasActive(states, actions, i, states[i].writer.conn, states[i].writer.s)
  {
    ReadyWasActive(states, actions, i);
  }

  function Encryptions(w: seq<Message>): nat {
    if w == [] then 0 else Encryptions(w[..|w| - 1]) + (if w[|w| - 1].Encrypted? then 1 else 0)
  }

  /** After the client has ended the session, nothing is active and nothing encrypted goes out on any wire until
      another session has been acknowledged and activated; an end of another epoch changes nothing. */
  lemma {:induction false} SilentAfterEnd(states: seq<State>, actions: seq<Action>, k: nat, i: nat, c: nat)
    requires IsRun(states, actions) && k < i < |states|
    requires actions[k].EndSession? && actions[k].epoch == states[k].link.epoch
    requires (forall j :: k < j < i ==> !actions[j].AckActivate?) && c in states[k].wires
    ensures states[k + 1].link.session == None && states[i].link.active == None
    ensures c in states[i].wires && Encryptions(states[i].wires[c]) == Encryptions(states[k].wires[c])
  {
    if i == k + 1 {
      assert states[i] == Step(states[k], actions[k]);
    } else {
      SilentAfterEnd(states, actions, k, i - 1, c);
      var r, a := states[i - 1], actions[i - 1];
      LiveStep(r, a);
      var under := WritesUnder(r.writer);
      if under.Some? {
        NoneLiveAfterEnd(states, actions, k, i - 1, under.value);
      }
      if a.EventWrite? || a.ReplyWrite? {
        WrittenUnderLiveSession(states, actions, i - 1);
      }
      QuietStep(r, a, c);
    }
  }

  lemma QuietStep(r: State, a: Action, c: nat)
    requires LocksAllow(r, a) && c in r.wires && !a.EventWrite? && !a.ReplyWrite?
    ensures c in Step(r, a).wires && Encryptions(Step(r, a).wires[c]) == Encryptions(r.wires[c])
  {
    if a.AckWrite? && a.ok {
      var w := r.wires[r.writer.conn];
      assert (w + [Ack(r.writer.s)])[..|w|] == w;
    }
  }

  lemma OtherEpochEndsNothing(r: State, e: nat)
    requires LocksAllow(r, EndSession(e)) && e != r.link.epoch
    ensures Step(r, EndSession(e)) == r
  {
  }

  /** After a failed write of its ack a session is neither installed nor active. */
  lemma FailedAckLeavesNothing(r: State)
    requires r.writer.AckFailed?
    ensures var t := Step(r, AckAbandon);
            && t.link.session != Some(r.writer.s)
            && t.link.active != Some(r.writer.s)
            && r.writer.s !in t.pending
            && (r.link.session != Some(r.writer.s) ==> t.link.session == r.link.session)
  {
  }

  // ----- why inits must be handled one at a time -----

  /** The state after the actions, or None if the locks forbid one of them. */
  function After(r: State, actions: seq<Action>): Option<State>
    decreases |actions|
  {
    if actions == [] then Some(r)
    else if LocksAllow(r, actions[0]) then After(Step(r, actions[0]), actions[1..])
    else None
  }

  const ACK_ROUND: seq<Action> := [AckRead, AckWrite(true), AckActivate]
  const EVENT_ROUND: seq<Action> := [EventLock, EventRead, EventBuild(true), EventRecheck, EventWrite(true)]

  /** A session-ack sent without interference. */
  lemma AckRound(r: State, s: Session, c: nat, rest: seq<Action>)
    requires r.writer == Free && s in r.pending && r.link.Check(s) == Done && r.link.conn == Some(c) && c in r.wires
    ensures After(r, [AckLock(s)] + ACK_ROUND + rest)
            == After(Write(r, c, Ack(s)).(link := r.link.Activate(s, c), pending := r.pending - {s}), rest)
  {
    var all := [AckLock(s)] + ACK_ROUND + rest;
    var r1 := Step(r, AckLock(s));
    var r2 := Step(r1, AckRead);
    var r3 := Step(r2, AckWrite(true));
    var r4 := Step(r3, AckActivate);
    assert After(r, all) == After(r1, all[1..]);
    assert After(r1, all[1..]) == After(r2, all[1..][1..]);
    assert After(r2, all[2..]) == After(r3, all[2..][1..]);
    assert all[1..][1..] == all[2..] && all[2..][1..] == all[3..] && all[3..][1..] == rest;
    assert After(r3, all[3..]) == After(r4, all[3..][1..]);
    assert r4 == Write(r, c, Ack(s)).(link := r.link.Activate(s, c), pending := r.pending - {s});
  }

  /** An event sent without interference. */
  lemma EventRound(r: State, s: Session, c: nat)
    requires r.writer == Free && r.link.active == Some(s) && r.link.conn == Some(c) && c in r.wires
    ensures After(r, EVENT_ROUND) == Some(Write(r, c, Encrypted(s)))
  {
    var all := EVENT_ROUND;
    var r1 := Step(r, EventLock);
    var r2 := Step(r1, EventRead);
    var r3 := Step(r2, EventBuild(true));
    var r4 := Step(r3, EventRecheck);
    var r5 := Step(r4, EventWrite(true));
    assert After(r4, [EventWrite(true)]) == After(r5, [EventWrite(true)][1..]) == Some(r5);
    assert [EventRecheck, EventWrite(true)][1..] == [EventWrite(true)];
    assert After(r3, [EventRecheck, EventWrite(true)]) == Some(r5);
    assert all[2..][1..] == [EventRecheck, EventWrite(true)] && all[1..][1..] == all[2..];
    assert After(r2, all[2..]) == Some(r5);
    assert After(r1, all[1..]) == Some(r5);
  }

  /** A reply for the active session of the current epoch is written. */
  lemma ReplyRound(r: State, s: Session, c: nat)
    requires r.writer == Free && s.id < r.nextSession && r.link.active == Some(s) && s.epoch == r.link.epoch
    requires r.link.conn == Some(c) && c in r.wires
    ensures After(r, [ReplyLock(s), ReplyRead, ReplyWrite(true)]) == Some(Write(r, c, Encrypted(s)))
  {
    var all := [ReplyLock(s), ReplyRead, ReplyWrite(true)];
    var r1 := Step(r, ReplyLock(s));
    var r2 := Step(r1, ReplyRead);
    var r3 := Step(r2, ReplyWrite(true));
    assert After(r2, [ReplyWrite(true)]) == After(r3, [ReplyWrite(true)][1..]) == Some(r3);
    assert all[1..] == [ReplyRead, ReplyWrite(true)] && all[1..][1..] == [ReplyWrite(true)];
    assert After(r1, all[1..]) == Some(r3);
  }

  /** One connection in epoch 1 with two installed sessions whose inits have not finished. */
  function Overlapping(): State {
    State(Link(Some(7), 1, Some(Session(1, 1)), None), Free, {Session(0, 1), Session(1, 1)}, 2, map[7 := []],
          map[7 := 1])
  }

  lemma LocksAllowOverlap()
    ensures After(Initial(), [Attach(7), InitInstall(1), InitInstall(1)]) == Some(Overlapping())
  {
    var r1 := Step(Initial(), Attach(7));
    var r2 := Step(r1, InitInstall(1));
    var inits := [Attach(7), InitInstall(1), InitInstall(1)];
    assert Step(r2, InitInstall(1)) == Overlapping();
    assert After(r2, [InitInstall(1)]) == After(Overlapping(), [InitInstall(1)][1..]);
    assert inits[1..][1..] == [InitInstall(1)];
    assert After(r1, inits[1..]) == Some(Overlapping());
  }

  /** The locks alone do not keep the promise: when two inits of one epoch overlap, a message under one
      session can follow the ack of the other. */
  lemma LocksAloneAreNotEnough() returns (end: State)
    ensures After(Overlapping(),
                  [AckLock(Session(1, 1))] + ACK_ROUND + ([AckLock(Session(0, 1))] + ACK_ROUND + EVENT_ROUND))
            == Some(end)
    ensures end.connEpoch == map[7 := 1]
    ensures 7 in end.wires
    ensures !WireOk(end.wires[7], 1)
  {
    var s0, s1, start := Session(0, 1), Session(1, 1), Overlapping();
    var one := Write(start, 7, Ack(s1)).(link := start.link.Activate(s1, 7), pending := start.pending - {s1});
    var two := Write(one, 7, Ack(s0)).(link := one.link.Activate(s0, 7), pending := one.pending - {s0});
    end := Write(two, 7, Encrypted(s1));
    AckRound(start, s1, 7, [AckLock(s0)] + ACK_ROUND + EVENT_ROUND);
    AckRound(one, s0, 7, EVENT_ROUND);
    EventRound(two, s1, 7);
    var w := [Ack(s1), Ack(s0), Encrypted(s1)];
    assert end.wires[7] == w && w[..2] == [Ack(s1), Ack(s0)];
    assert LastAck(w[..2]) == Some(s0);
    assert w[2].Encrypted?;
  }

  // ----- wires -----

  lemma WireOkAppend(w: seq<Message>, epoch: nat, m: Message)
    requires WireOk(w, epoch) && m.session.epoch == epoch
    requires m.Encrypted? ==> LastAck(w) == Some(m.session)
    ensures WireOk(w + [m], epoch)
    ensures LastAck(w + [m]) == if m.Ack? then Some(m.session) else LastAck(w)
  {
    var t := w + [m];
    assert t[..|w|] == w;
    forall i | 0 <= i < |w|
      ensures t[..i] == w[..i] && t[i] == w[i]
    {
    }
  }

  // ----- the invariant -----

  /** The connection is the current one and `s` was the last session acknowledged on it. */
  predicate Acknowledged(r: State, c: nat, s: Session) {
    && r.link.conn == Some(c)
    && c in r.wires
    && s.epoch == r.link.epoch
    && LastAck(r.wires[c]) == Some(s)
  }

  /** An active session is the installed one, of the current epoch, on a live connection, and
      acknowledged there; while an init of the current epoch is unfinished none is active. */
  predicate LinkInv(r: State) {
    && (r.link.session.Some? ==> r.link.session.value.epoch == r.link.epoch && r.link.conn.Some?)
    && (r.link.active.Some? ==>
          && r.link.session == r.link.active
          && r.link.conn.Some?
          && Acknowledged(r, r.link.conn.value, r.link.active.value))
    && (r.link.active.Some? ==> forall s :: s in r.pending ==> s.epoch != r.link.epoch)
    && (forall s, t :: s in r.pending && t in r.pending && s.epoch == t.epoch ==> s == t)
  }

  predicate WiresInv(r: State) {
    && r.wires.Keys == r.connEpoch.Keys
    && (forall c :: c in r.wires ==> WireOk(r.wires[c], r.connEpoch[c]))
    && (forall c :: c in r.connEpoch ==> r.connEpoch[c] <= r.link.epoch)
    && (forall c :: c in r.connEpoch && r.connEpoch[c] == r.link.epoch ==> r.link.conn == Some(c))
    && (r.link.conn.Some? ==> r.link.conn.value in r.wires && r.connEpoch[r.link.conn.value] == r.link.epoch)
  }

  /** What the holder of the write lock read stays true while it holds the lock. */
  predicate WriterInv(r: State) {
    match r.writer
    case AckLocked(s) => s in r.pending
    case AckReady(s, c) => s in r.pending && s.epoch == r.link.epoch && r.link.conn == Some(c)
    case AckWritten(s, c) => s in r.pending && Acknowledged(r, c, s)
    case EventBuilding(e, c, s) => e == r.link.epoch && Acknowledged(r, c, s)
    case EventBuilt(e, c, s) => e == r.link.epoch && Acknowledged(r, c, s)
    case EventReady(c, s) => Acknowledged(r, c, s)
    case ReplyReady(c, s) => Acknowledged(r, c, s)
    case _ => true
  }

  predicate Inv(r: State) {
    LinkInv(r) && WiresInv(r) && WriterInv(r)
  }

  lemma WriteKeepsWires(r: State, c: nat, m: Message)
    requires WiresInv(r) && r.link.conn == Some(c) && m.session.epoch == r.link.epoch
    requires m.Encrypted? ==> LastAck(r.wires[c]) == Some(m.session)
    ensures WiresInv(Write(r, c, m))
    ensures LastAck(Write(r, c, m).wires[c]) == if m.Ack? then Some(m.session) else LastAck(r.wires[c])
  {
    WireOkAppend(r.wires[c], r.connEpoch[c], m);
  }

  predicate ChangesLink(a: Action) {
    a.Detach? || a.Attach? || a.InitInstall? || a.EndSession?
  }

  lemma LinkStepKeepsInv(r: State, a: Action)
    requires Inv(r) && Enabled(r, a) && ChangesLink(a)
    ensures Inv(Step(r, a))
  {
  }

  lemma AckStepKeepsInv(r: State, a: Action)
    requires Inv(r) && Enabled(r, a) && (a.AckLock? || a.AckRead? || a.AckWrite? || a.AckAbandon? || a.AckActivate?)
    ensures Inv(Step(r, a))
  {
    if a.AckWrite? {
      WriteKeepsWires(r, r.writer.conn, Ack(r.writer.s));
    }
  }

  lemma EventStepKeepsInv(r: State, a: Action)
    requires Inv(r) && Enabled(r, a)
    requires a.EventLock? || a.EventRead? || a.EventBuild? || a.EventRecheck? || a.EventWrite?
    ensures Inv(Step(r, a))
  {
    if a.EventWrite? {
      WriteKeepsWires(r, r.writer.conn, Encrypted(r.writer.s));
    }
  }

  lemma ReplyStepKeepsInv(r: State, a: Action)
    requires Inv(r) && Enabled(r, a) && (a.ReplyLock? || a.ReplyRead? || a.ReplyWrite?)
    ensures Inv(Step(r, a))
  {
    if a.ReplyWrite? {
      WriteKeepsWires(r, r.writer.conn, Encrypted(r.writer.s));
    }
  }

  lemma StepKeepsInv(r: State, a: Action)
    requires Inv(r) && Enabled(r, a)
    ensures Inv(Step(r, a))
  {
    if ChangesLink(a) {
      LinkStepKeepsInv(r, a);
    } else if a.AckLock? || a.AckRead? || a.AckWrite? || a.AckAbandon? || a.AckActivate? {
      AckStepKeepsInv(r, a);
    } else if a.ReplyLock? || a.ReplyRead? || a.ReplyWrite? {
      ReplyStepKeepsInv(r, a);
    } else {
      EventStepKeepsInv(r, a);
    }
  }

  lemma {:induction false} RunKeepsInv(states: seq<State>, actions: seq<Action>, i: nat)
    requires IsRun(states, actions) && i < |states|
    ensures Inv(states[i])
  {
    if i > 0 {
      RunKeepsInv(states, actions, i - 1);
      StepKeepsInv(states[i - 1], actions[i - 1]);
    }
  }

  /** A connection has one epoch, for good. */
  lemma StepKeepsEpochs(r: State, a: Action, c: nat)
    requires Inv(r) && Enabled(r, a) && c in r.wires
    ensures var t := Step(r, a);
            && c in t.wires
            && t.connEpoch[c] == r.connEpoch[c]
            && (t.wires[c] == r.wires[c] || r.link.conn == Some(c))
            && r.wires[c] <= t.wires[c]
            && (r.link.conn != Some(c) ==> t.link.conn != Some(c))
  {
  }
}
