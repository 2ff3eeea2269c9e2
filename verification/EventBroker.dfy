/** The local event broker: its subscriber set and channels changed in place, refined to the
    subscription steps of `EventStream`. */
module EventBroker {
  import opened Options
  import opened EventLog
  import opened EventStream
  import Buffer = EventBuffer

  const DEFAULT_SUBSCRIBER_BUFFER := 256

  /** A subscriber with its buffered channel; `queue` is what has been sent and not yet received. */
  class Subscriber {
    const capacity: nat
    var queue: seq<Event>
    var afterSeq: nat
    var closed: bool
    ghost const snapshot: Snapshot
    ghost var sent: seq<Event>
    ghost var received: nat

    constructor (snapshot: Snapshot, capacity: nat)
      ensures Valid() && View() == Subscribed(snapshot, capacity)
    {
      this.snapshot := snapshot;
      this.capacity := capacity;
      queue, afterSeq, closed := [], snapshot.replayedThrough, false;
      sent, received := [], 0;
    }

    ghost predicate Valid()
      reads this
    {
      received <= |sent| && queue == sent[received..]
    }

    ghost function View(): Subscription
      reads this
    {
      Subscription(snapshot, afterSeq, !closed, sent, received, capacity)
    }

    /** A send that does not block; it succeeds if the channel has room. */
    method TrySend(event: Event) returns (ok: bool)
      requires Valid() && !closed
      modifies this`queue, this`sent
      ensures Valid() && ok == old(View()).HasRoom()
      ensures View() == if ok then old(View()).(sent := old(sent) + [event]) else old(View())
    {
      ok := |queue| < capacity;
      if ok {
        queue := queue + [event];
        sent := sent + [event];
      }
    }

    /** What the reader of the channel does; a closed channel is drained first. */
    method Receive() returns (event: Option<Event>)
      requires Valid()
      modifies this`queue, this`received
      ensures Valid()
      ensures event == if old(received) < |sent| then Some(sent[old(received)]) else None
      ensures View() == if event.Some? then old(View()).(received := old(received) + 1) else old(View())
    {
      if |queue| == 0 {
        return None;
      }
      event := Some(queue[0]);
      queue := queue[1..];
      received := received + 1;
    }
  }

  class LocalEventBroker {
    const buffer: Buffer.EventBuffer
    var subscribers: set<Subscriber>
    var subscriberBuffer: int
    var subscriberDrops: nat

    constructor (buffer: Buffer.EventBuffer)
      ensures Valid() && subscribers == {} && this.buffer == buffer
    {
      this.buffer := buffer;
      subscribers := {};
      subscriberBuffer := DEFAULT_SUBSCRIBER_BUFFER;
      subscriberDrops := 0;
    }

    /** The set holds subscribers whose channel is open. */
    ghost predicate Valid()
      reads this, subscribers
    {
      forall sub :: sub in subscribers ==> sub.Valid() && !sub.closed
    }

    /** Registers a subscriber that continues where the buffer's answer ends; both happen under the
        broker's lock. */
    method Subscribe(epoch: nat, afterSeq: nat) returns (snapshot: Snapshot, sub: Subscriber)
      requires Valid() && buffer.Valid()
      modifies this`subscribers
      ensures Valid() && fresh(sub) && subscribers == old(subscribers) + {sub}
      ensures snapshot == buffer.View().Replay(epoch, afterSeq)
      ensures sub.View()
              == Subscribed(snapshot, if subscriberBuffer <= 0 then DEFAULT_SUBSCRIBER_BUFFER else subscriberBuffer)
      ensures !sub.closed && sub.queue == [] && sub.afterSeq == snapshot.replayedThrough
      ensures sub.capacity == if subscriberBuffer <= 0 then 256 else subscriberBuffer
    {
      snapshot := buffer.ReplaySince(epoch, afterSeq);
      sub := new Subscriber(snapshot, if subscriberBuffer <= 0 then DEFAULT_SUBSCRIBER_BUFFER else subscriberBuffer);
      subscribers := subscribers + {sub};
    }

    /** Offers a buffered event to every subscriber, in any order. */
    method PublishBuffered(event: Event)
      requires Valid()
      modifies this`subscribers, this`subscriberDrops, subscribers
      ensures Valid()
      ensures forall sub :: sub in old(subscribers) ==>
                sub.Valid() && sub.View() == old(sub.View()).OfferBuffered(event)
      ensures forall sub :: sub in old(subscribers) && event.seqNum <= old(sub.afterSeq) ==>
                sub in subscribers && sub.queue == old(sub.queue) && sub.afterSeq == old(sub.afterSeq)
      ensures forall sub :: sub in old(subscribers) && event.seqNum > old(sub.afterSeq)
                            && |old(sub.queue)| < sub.capacity ==>
                sub in subscribers && sub.queue == old(sub.queue) + [event] && sub.afterSeq == event.seqNum
      ensures forall sub :: sub in old(subscribers) && event.seqNum > old(sub.afterSeq)
                            && |old(sub.queue)| >= sub.capacity ==>
                sub !in subscribers && sub.closed && sub.queue == old(sub.queue)
      ensures subscribers == set sub | sub in old(subscribers) && !sub.closed
      ensures subscriberDrops == old(subscriberDrops) + |old(subscribers)| - |subscribers|
    {
      ghost var all := subscribers;
      var todo := subscribers;
      while todo != {}
        invariant todo <= subscribers <= all
        invariant forall sub :: sub in all ==>
                    && sub.Valid()
                    && sub.closed == (sub !in subscribers)
                    && sub.View() == if sub in todo then old(sub.View()) else old(sub.View()).OfferBuffered(event)
        invariant subscriberDrops + |subscribers| == old(subscriberDrops) + |all|
        decreases todo
      {
        var sub :| sub in todo;
        todo := todo - {sub};
        OfferTo(sub, event);
      }
    }

    /** The body of the publishing loop: skip what the subscriber already has, send, or drop it. */
    method OfferTo(sub: Subscriber, event: Event)
      requires sub.Valid() && sub in subscribers && !sub.closed
      modifies this`subscribers, this`subscriberDrops, sub
      ensures sub.Valid() && sub.View() == old(sub.View()).OfferBuffered(event)
      ensures forall other :: other in old(subscribers) && other != sub ==>
                && other.View() == old(other.View())
                && other.closed == old(other.closed)
                && (old(other.Valid()) ==> other.Valid())
      ensures subscribers == if sub.closed then old(subscribers) - {sub} else old(subscribers)
      ensures subscriberDrops == old(subscriberDrops) + |old(subscribers)| - |subscribers|
    {
      if event.seqNum <= sub.afterSeq {
        return;
      }
      var ok := sub.TrySend(event);
      if ok {
        sub.afterSeq := event.seqNum;
      } else {
        DropSubscriber(sub);
      }
    }

    /** Offers a live event, which does not move any cursor. */
    method PublishLive(event: Event)
      requires Valid()
      modifies this`subscribers, this`subscriberDrops, subscribers
      ensures Valid()
      ensures forall sub :: sub in old(subscribers) ==> sub.Valid() && sub.View() == old(sub.View()).OfferLive(event)
      ensures forall sub :: sub in old(subscribers) && |old(sub.queue)| < sub.capacity ==>
                sub in subscribers && sub.queue == old(sub.queue) + [event] && sub.afterSeq == old(sub.afterSeq)
      ensures forall sub :: sub in old(subscribers) && |old(sub.queue)| >= sub.capacity ==>
                sub !in subscribers && sub.closed && sub.queue == old(sub.queue)
      ensures subscribers == set sub | sub in old(subscribers) && !sub.closed
      ensures subscriberDrops == old(subscriberDrops) + |old(subscribers)| - |subscribers|
    {
      ghost var all := subscribers;
      var todo := subscribers;
      while todo != {}
        invariant todo <= subscribers <= all
        invariant forall sub :: sub in all ==>
                    && sub.Valid()
                    && sub.closed == (sub !in subscribers)
                    && sub.View() == if sub in todo then old(sub.View()) else old(sub.View()).OfferLive(event)
        invariant subscriberDrops + |subscribers| == old(subscriberDrops) + |all|
        decreases todo
      {
        var sub :| sub in todo;
        todo := todo - {sub};
        OfferLiveTo(sub, event);
      }
    }

    method OfferLiveTo(sub: Subscriber, event: Event)
      requires sub.Valid() && sub in subscribers && !sub.closed
      modifies this`subscribers, this`subscriberDrops, sub
      ensures sub.Valid() && sub.View() == old(sub.View()).OfferLive(event)
      ensures forall other :: other in old(subscribers) && other != sub ==>
                && other.View() == old(other.View())
                && other.closed == old(other.closed)
                && (old(other.Valid()) ==> other.Valid())
      ensures subscribers == if sub.closed then old(subscribers) - {sub} else old(subscribers)
      ensures subscriberDrops == old(subscriberDrops) + |old(subscribers)| - |subscribers|
    {
      var ok := sub.TrySend(event);
      if !ok {
        DropSubscriber(sub);
      }
    }

    /** The subscriber's context ended; a second removal does nothing, so no channel is closed twice. */
    method Remove(sub: Subscriber)
      requires Valid() && sub.Valid()
      modifies this`subscribers, sub`closed
      ensures Valid() && sub.Valid() && subscribers == old(subscribers) - {sub}
      ensures sub.View() == if sub in old(subscribers) then old(sub.View()).(open := false) else old(sub.View())
    {
      if sub !in subscribers {
        return;
      }
      subscribers := subscribers - {sub};
      sub.closed := true;
    }

    method DropSubscriber(sub: Subscriber)
      requires sub.Valid() && (sub in subscribers ==> !sub.closed)
      modifies this`subscribers, this`subscriberDrops, sub`closed
      ensures sub.Valid() && subscribers == old(subscribers) - {sub}
      ensures sub.View() == if sub in old(subscribers) then old(sub.View()).(open := false) else old(sub.View())
      ensures subscriberDrops == old(subscriberDrops) + |old(subscribers)| - |subscribers|
    {
      if sub !in subscribers {
        return;
      }
      subscribers := subscribers - {sub};
      sub.closed := true;
      subscriberDrops := subscriberDrops + 1;
    }
  }

  /** The app server's proxy: the fields its reconnect loop keeps between connections. */
  class ChatEventProxy {
    var streamEpoch: nat
    var afterSeq: nat
    ghost var taken: nat
    ghost var forwarded: seq<Item>

    constructor (headEpoch: Option<nat>)
      ensures View() == Proxy(if headEpoch.Some? then headEpoch.value else 0, 0, None, 0, [])
    {
      streamEpoch := if headEpoch.Some? then headEpoch.value else 0;
      afterSeq := 0;
      taken, forwarded := 0, [];
    }

    ghost function View(): Proxy
      reads this
    {
      Proxy(streamEpoch, afterSeq, None, taken, forwarded)
    }

    /** Reads one connection's stream up to where it breaks off. */
    method ReadStream(epoch: nat, items: seq<Item>)
      modifies this
      ensures View() == ForwardAll(old(View()), epoch, items)
      ensures forwarded == old(forwarded) + items
      ensures streamEpoch == if epoch != 0 && items != [] then epoch else old(streamEpoch)
    {
      ghost var at := View();
      for i := 0 to |items|
        invariant at == ForwardAll(old(View()), epoch, items[..i])
        invariant streamEpoch == at.streamEpoch && afterSeq == at.afterSeq && at.conn == None
        invariant taken == at.taken && forwarded == at.forwarded == old(forwarded) + items[..i]
        invariant streamEpoch == if epoch != 0 && i > 0 then epoch else old(streamEpoch)
      {
        at := ForwardItem(at, epoch, items[i]);
        assert items[..i + 1][..i] == items[..i];
        if epoch != 0 {
          streamEpoch := epoch;
        }
        match items[i] {
          case ReplayItem(snapshot) =>
            afterSeq := snapshot.replayedThrough;
          case EventItem(event) =>
            if event.seqNum > afterSeq {
              afterSeq := event.seqNum;
            }
        }
        taken := taken + 1;
        forwarded := forwarded + [items[i]];
      }
      assert items[..|items|] == items;
    }
  }
}
