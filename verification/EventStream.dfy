/** Everything between `Push` and the client as one system of interleaved steps: senders that push and
    later publish, the broker's subscriptions, and the app server's reconnecting proxy.  One step is
    one critical section of the code; one stream epoch is fixed. */
module EventStream {
  import opened Options
  import opened EventLog

  // ----- one subscription -----

  /** `sent` is everything ever put on the channel, of which the reader has taken `received`. */
  datatype Subscription = Subscription(snapshot: Snapshot, afterSeq: nat, open: bool, sent: seq<Event>,
                                       received: nat, capacity: nat) {

    predicate HasRoom() {
      |sent| < received + capacity
    }

    /** What publishing a buffered event does to a subscription. */
    function OfferBuffered(e: Event): Subscription {
      if !open || e.seqNum <= afterSeq then this
      else if HasRoom() then this.(sent := sent + [e], afterSeq := e.seqNum)
      else this.(open := false)
    }

    /** What publishing a live event, which has no sequence number, does to a subscription. */
    function OfferLive(e: Event): Subscription {
      if !open then this
      else if HasRoom() then this.(sent := sent + [e])
      else this.(open := false)
    }
  }

  function Subscribed(snapshot: Snapshot, capacity: nat): Subscription {
    Subscription(snapshot, snapshot.replayedThrough, true, [], 0, capacity)
  }

  /** The events that came from the buffer. */
  function Buffered(s: seq<Event>): seq<Event> {
    if s == [] then []
    else Buffered(s[..|s| - 1]) + (if s[|s| - 1].seqNum > 0 then [s[|s| - 1]] else [])
  }

  // ----- the system -----

  datatype Item = ReplayItem(snapshot: Snapshot) | EventItem(event: Event)

  /** The proxy loop: its cursor, the subscription it is reading with the number of stream items it
      has taken from it, and everything it has forwarded. */
  datatype Proxy = Proxy(streamEpoch: nat, afterSeq: nat, conn: Option<nat>, taken: nat, forwarded: seq<Item>)

  /** `inFlight` holds the sequence numbers that have been pushed but not yet published. */
  datatype System = System(limits: Limits, streamEpoch: nat, log: seq<Event>, inFlight: set<nat>,
                           subs: map<nat, Subscription>, proxy: Proxy) {

    function View(): LogView {
      LogView(streamEpoch, log, limits.Dropped(log))
    }
  }

  datatype Action =
    | Push(body: string)
    | PublishBuffered(seqNum: nat)
    | PublishLive(body: string)
    | Subscribe(id: nat, epoch: nat, afterSeq: nat, capacity: nat)
    | Remove(id: nat)
    | Receive(id: nat)
    | Connect(id: nat, capacity: nat)
    | Take
    | Disconnect

  predicate Initial(s: System) {
    && s.streamEpoch != 0
    && s.log == []
    && s.inFlight == {}
    && s.subs == map[]
    && s.proxy.streamEpoch in {0, s.streamEpoch}
    && s.proxy.afterSeq == 0
    && s.proxy.conn == None
    && s.proxy.taken == 0
    && s.proxy.forwarded == []
  }

  predicate Enabled(s: System, a: Action) {
    match a
    case Push(_) => true
    case PublishBuffered(q) => q in s.inFlight && 0 < q <= |s.log|
    case PublishLive(_) => true
    case Subscribe(id, _, _, _) => id !in s.subs
    case Remove(id) => id in s.subs
    case Receive(id) => id in s.subs && s.subs[id].received < |s.subs[id].sent|
    case Connect(id, _) => id !in s.subs && s.proxy.conn == None
    case Take =>
      && s.proxy.conn.Some?
      && s.proxy.conn.value in s.subs
      && s.proxy.taken <= s.subs[s.proxy.conn.value].received <= |s.subs[s.proxy.conn.value].sent|
    case Disconnect => s.proxy.conn.Some?
  }

  function Step(s: System, a: Action): System
    requires Enabled(s, a)
  {
    match a
    case Push(body) =>
      s.(log := s.log + [Event(|s.log| + 1, body)], inFlight := s.inFlight + {|s.log| + 1})
    case PublishBuffered(q) =>
      s.(inFlight := s.inFlight - {q}, subs := map id | id in s.subs :: s.subs[id].OfferBuffered(s.log[q - 1]))
    case PublishLive(body) =>
      s.(subs := map id | id in s.subs :: s.subs[id].OfferLive(Event(0, body)))
    case Subscribe(id, epoch, afterSeq, capacity) =>
      s.(subs := s.subs[id := Subscribed(s.View().Replay(epoch, afterSeq), capacity)])
    case Remove(id) =>
      s.(subs := s.subs[id := s.subs[id].(open := false)])
    case Receive(id) =>
      s.(subs := s.subs[id := s.subs[id].(received := s.subs[id].received + 1)])
    case Connect(id, capacity) =>
      var answer := s.View().Replay(s.proxy.streamEpoch, s.proxy.afterSeq);
      s.(subs := s.subs[id := Subscribed(answer, capacity)], proxy := s.proxy.(conn := Some(id), taken := 0))
    case Take =>
      s.(proxy := TakeItem(s.proxy, s.subs[s.proxy.conn.value]))
    case Disconnect =>
      s.(proxy := s.proxy.(conn := None))
  }

  function TakeItem(p: Proxy, sub: Subscription): Proxy
    requires p.taken <= |sub.sent|
  {
    var item := if p.taken == 0 then ReplayItem(sub.snapshot) else EventItem(sub.sent[p.taken - 1]);
    ForwardItem(p, sub.snapshot.streamEpoch, item)
  }

  /** One turn of the proxy's inner loop: move the cursor, then forward the item. */
  function ForwardItem(p: Proxy, epoch: nat, item: Item): Proxy {
    p.(streamEpoch := if epoch != 0 then epoch else p.streamEpoch,
       afterSeq := CursorAfter(p.afterSeq, item), taken := p.taken + 1, forwarded := p.forwarded + [item])
  }

  function ForwardAll(p: Proxy, epoch: nat, items: seq<Item>): Proxy {
    if items == [] then p else ForwardItem(ForwardAll(p, epoch, items[..|items| - 1]), epoch, items[|items| - 1])
  }

  function CursorAfter(cursor: nat, item: Item): nat {
    match item
    case ReplayItem(snapshot) => snapshot.replayedThrough
    case EventItem(event) => if event.seqNum > cursor then event.seqNum else cursor
  }

  ghost predicate IsRun(states: seq<System>, actions: seq<Action>) {
    && |states| == |actions| + 1
    && Initial(states[0])
    && forall i :: 0 <= i < |actions| ==> Enabled(states[i], actions[i]) && states[i + 1] == Step(states[i], actions[i])
  }

  /** The publishing order under which nothing is skipped: the lowest pushed number goes first. */
  predicate InOrder(s: System, a: Action) {
    a.PublishBuffered? ==> forall q :: q in s.inFlight ==> a.seqNum <= q
  }
}
