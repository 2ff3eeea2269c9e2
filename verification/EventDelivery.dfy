/** What arrives where: the events on a subscription's channel, and what the proxy forwards of them. */
module EventDelivery {
  import opened Options
  import opened EventLog
  import opened EventStream

  // ----- one offer -----

  /** A live event is put on a channel with room and leaves the cursor alone; a full channel is closed. */
  lemma OfferLiveIs(sub: Subscription, e: Event)
    ensures var t := sub.OfferLive(e);
            && t.afterSeq == sub.afterSeq
            && t.received == sub.received
            && t.snapshot == sub.snapshot
            && (!sub.open ==> t == sub)
            && (sub.open && |sub.sent| < sub.received + sub.capacity ==> t.open && t.sent == sub.sent + [e])
            && (sub.open && |sub.sent| >= sub.received + sub.capacity ==> !t.open && t.sent == sub.sent)
  {
  }

  // ----- what is on a channel -----

  /** The event that a publishing step offers. */
  function OfferedBy(s: System, a: Action): Event
    requires Enabled(s, a) && (a.PublishLive? || a.PublishBuffered?)
  {
    if a.PublishLive? then Event(0, a.body) else s.log[a.seqNum - 1]
  }

  /** The step publishes an event that is live, or above the cursor of the open subscription. */
  predicate Concerns(s: System, id: nat, a: Action) {
    && id in s.subs
    && s.subs[id].open
    && (a.PublishLive? || (a.PublishBuffered? && a.seqNum > s.subs[id].afterSeq))
  }

  predicate IsFull(sub: Subscription) {
    |sub.sent| >= sub.received + sub.capacity
  }

  /** The events that concerned the subscription when its channel had room, in the order of their steps. */
  function TakenUp(states: seq<System>, actions: seq<Action>, i: nat, id: nat): seq<Event>
    requires i <= |actions| < |states| && forall k :: 0 <= k < |actions| ==> Enabled(states[k], actions[k])
  {
    if i == 0 then []
    else
      var s, a := states[i - 1], actions[i - 1];
      var before := TakenUp(states, actions, i - 1, id);
      if Concerns(s, id, a) && !IsFull(s.subs[id]) then before + [OfferedBy(s, a)] else before
  }

  predicate LogNumbered(log: seq<Event>) {
    forall q :: 0 <= q < |log| ==> log[q].seqNum == q + 1
  }

  lemma {:induction false} LogStaysNumbered(states: seq<System>, actions: seq<Action>, i: nat)
    requires IsRun(states, actions) && i < |states|
    ensures LogNumbered(states[i].log)
  {
    if i > 0 {
      LogStaysNumbered(states, actions, i - 1);
      assert states[i] == Step(states[i - 1], actions[i - 1]);
    }
  }

  lemma StepTakesUp(s: System, a: Action, id: nat)
    requires Enabled(s, a) && LogNumbered(s.log) && id in s.subs
    ensures var sub, t := s.subs[id], Step(s, a).subs[id];
            if Concerns(s, id, a) && !IsFull(sub) then t.open && t.sent == sub.sent + [OfferedBy(s, a)]
            else t.sent == sub.sent && (t.open <==> sub.open && !Concerns(s, id, a) && a != Remove(id))
  {
  }

  /** Everything ever put on a channel, live and buffered, is what concerned its subscription while it was open
      and had room; nothing else, in this order. */
  lemma {:induction false} ChannelHolds(states: seq<System>, actions: seq<Action>, i: nat, id: nat)
    requires IsRun(states, actions) && i < |states|
    ensures id in states[i].subs ==> states[i].subs[id].sent == TakenUp(states, actions, i, id)
    ensures id !in states[i].subs ==> TakenUp(states, actions, i, id) == []
  {
    if i > 0 {
      var s, a := states[i - 1], actions[i - 1];
      ChannelHolds(states, actions, i - 1, id);
      LogStaysNumbered(states, actions, i - 1);
      assert states[i] == Step(s, a);
      if id in s.subs {
        StepTakesUp(s, a, id);
      }
    }
  }

  /** A step ends a subscription: it is removed, or an event that concerns it finds its channel full. */
  predicate EndsSubscription(s: System, id: nat, a: Action) {
    id in s.subs && (a == Remove(id) || (Concerns(s, id, a) && IsFull(s.subs[id])))
  }

  /** A subscription is open exactly as long as it has been neither removed nor found full. */
  lemma {:induction false} OpenIffNotEnded(states: seq<System>, actions: seq<Action>, i: nat, id: nat)
    requires IsRun(states, actions) && i < |states| && id in states[i].subs
    ensures states[i].subs[id].open <==> forall k :: 0 <= k < i ==> !EndsSubscription(states[k], id, actions[k])
  {
    if i > 0 {
      var s, a := states[i - 1], actions[i - 1];
      LogStaysNumbered(states, actions, i - 1);
      assert states[i] == Step(s, a);
      if id in s.subs {
        OpenIffNotEnded(states, actions, i - 1, id);
        StepTakesUp(s, a, id);
      } else {
        NoneEndedBefore(states, actions, i - 1, id);
      }
    }
  }

  lemma {:induction false} NoneEndedBefore(states: seq<System>, actions: seq<Action>, i: nat, id: nat)
    requires IsRun(states, actions) && i < |states| && id !in states[i].subs
    ensures forall k :: 0 <= k <= i ==> id !in states[k].subs
  {
    if i > 0 {
      assert states[i] == Step(states[i - 1], actions[i - 1]);
      NoneEndedBefore(states, actions, i - 1, id);
    }
  }

  // ----- what the proxy forwards -----

  /** The items of a connection's stream: the replay, and behind it the events of the channel. */
  function StreamItems(sub: Subscription, n: nat): seq<Item>
    requires n <= |sub.sent| + 1
  {
    if n == 0 then [] else [ReplayItem(sub.snapshot)] + seq(n - 1, k requires 0 <= k < n - 1 => EventItem(sub.sent[k]))
  }

  lemma StreamItemsNext(sub: Subscription, n: nat)
    requires n <= |sub.sent|
    ensures StreamItems(sub, n + 1)
            == StreamItems(sub, n) + [if n == 0 then ReplayItem(sub.snapshot) else EventItem(sub.sent[n - 1])]
  {
  }

  lemma StreamItemsGrow(sub: Subscription, t: Subscription, n: nat)
    requires n <= |sub.sent| + 1 && sub.sent <= t.sent && sub.snapshot == t.snapshot
    ensures StreamItems(t, n) == StreamItems(sub, n)
  {
  }

  lemma StepKeepsStream(s: System, a: Action, id: nat)
    requires Enabled(s, a) && id in s.subs
    ensures var sub, t := s.subs[id], Step(s, a).subs[id]; sub.sent <= t.sent && sub.snapshot == t.snapshot
  {
  }

  /** The proxy reads `id`, and behind `before` it has forwarded the stream's items up to where it stands. */
  predicate Follows(s: System, id: nat, before: seq<Item>) {
    && s.proxy.conn == Some(id)
    && id in s.subs
    && s.proxy.taken <= |s.subs[id].sent| + 1
    && s.proxy.forwarded == before + StreamItems(s.subs[id], s.proxy.taken)
  }

  lemma TakeFollows(s: System, id: nat, before: seq<Item>)
    requires Follows(s, id, before) && Enabled(s, Take)
    ensures Follows(Step(s, Take), id, before)
  {
    var sub, n := s.subs[id], s.proxy.taken;
    StreamItemsNext(sub, n);
    var item := if n == 0 then ReplayItem(sub.snapshot) else EventItem(sub.sent[n - 1]);
    assert before + StreamItems(sub, n) + [item] == before + (StreamItems(sub, n) + [item]);
  }

  lemma OtherStepFollows(s: System, a: Action, id: nat, before: seq<Item>)
    requires Follows(s, id, before) && Enabled(s, a) && !a.Take? && !a.Connect? && !a.Disconnect?
    ensures Follows(Step(s, a), id, before)
  {
    StepKeepsStream(s, a, id);
    StreamItemsGrow(s.subs[id], Step(s, a).subs[id], s.proxy.taken);
  }

  /** Since it connected, the proxy has forwarded the connection's replay and then, live ones included, exactly the
      events of the channel that it has taken. */
  lemma {:induction false} ForwardsTheStream(states: seq<System>, actions: seq<Action>, j: nat, i: nat)
    requires IsRun(states, actions) && j < i < |states| && actions[j].Connect?
    requires forall k :: j < k < i ==> !actions[k].Connect? && !actions[k].Disconnect?
    ensures Follows(states[i], actions[j].id, states[j].proxy.forwarded)
  {
    var s, a, before := states[i - 1], actions[i - 1], states[j].proxy.forwarded;
    assert states[i] == Step(s, a);
    if i == j + 1 {
      assert before + [] == before;
    } else {
      ForwardsTheStream(states, actions, j, i - 1);
      if a.Take? {
        TakeFollows(s, actions[j].id, before);
      } else {
        OtherStepFollows(s, a, actions[j].id, before);
      }
    }
  }
}
