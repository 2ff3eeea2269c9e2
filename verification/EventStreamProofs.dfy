/** What every run of the event stream system keeps. */
module EventStreamProofs {
  // No subscriber and no proxy client gets a buffered event twice, and with in-order publishing nothing
  // is skipped that a replay did not skip.

  import opened EventLog
  import opened EventStream

  // ----- streams of events over a log -----

  /** The highest number sent so far on a channel opened at `from`. */
  function LastSeq(sent: seq<Event>, from: nat): nat {
    if sent == [] then from
    else if sent[|sent| - 1].seqNum > 0 then sent[|sent| - 1].seqNum
    else LastSeq(sent[..|sent| - 1], from)
  }

  /** Every buffered event on the channel is the log's own and comes after all before it. */
  predicate Ascending(log: seq<Event>, sent: seq<Event>, from: nat) {
    sent == [] ||
    var e, front := sent[|sent| - 1], sent[..|sent| - 1];
    && Ascending(log, front, from)
    && (e.seqNum > 0 ==> LastSeq(front, from) < e.seqNum <= |log| && e == log[e.seqNum - 1])
  }

  /** ... and comes directly after. */
  predicate Consecutive(sent: seq<Event>, from: nat) {
    sent == [] ||
    var e, front := sent[|sent| - 1], sent[..|sent| - 1];
    Consecutive(front, from) && (e.seqNum > 0 ==> e.seqNum == LastSeq(front, from) + 1)
  }

  predicate StrictlyIncreasing(s: seq<Event>) {
    forall i, j :: 0 <= i < j < |s| ==> s[i].seqNum < s[j].seqNum
  }

  lemma {:induction false} AscendingGrows(log: seq<Event>, more: seq<Event>, sent: seq<Event>, from: nat)
    requires Ascending(log, sent, from)
    ensures Ascending(log + more, sent, from)
  {
    if sent != [] {
      AscendingGrows(log, more, sent[..|sent| - 1], from);
    }
  }

  lemma {:induction false} AscendingPrefix(log: seq<Event>, sent: seq<Event>, from: nat, k: nat)
    requires Ascending(log, sent, from) && k <= |sent|
    ensures Ascending(log, sent[..k], from)
    ensures k < |sent| && sent[k].seqNum > 0 ==>
              LastSeq(sent[..k], from) < sent[k].seqNum <= |log| && sent[k] == log[sent[k].seqNum - 1]
  {
    if k == |sent| {
      assert sent[..k] == sent;
    } else if k < |sent| - 1 {
      AscendingPrefix(log, sent[..|sent| - 1], from, k);
      assert sent[..|sent| - 1][..k] == sent[..k];
    }
  }

  lemma LastSeqNext(sent: seq<Event>, from: nat, k: nat)
    requires k < |sent|
    ensures LastSeq(sent[..k + 1], from) == if sent[k].seqNum > 0 then sent[k].seqNum else LastSeq(sent[..k], from)
  {
    assert sent[..k + 1][..k] == sent[..k];
  }

  lemma {:induction false} ConsecutiveIsTheLog(log: seq<Event>, sent: seq<Event>, from: nat)
    requires Ascending(log, sent, from) && Consecutive(sent, from) && from <= |log|
    ensures from <= LastSeq(sent, from) <= |log|
    ensures Buffered(sent) == log[from..LastSeq(sent, from)]
  {
    if sent != [] {
      var e, front := sent[|sent| - 1], sent[..|sent| - 1];
      ConsecutiveIsTheLog(log, front, from);
      BufferedSnoc(front, e);
      assert sent == front + [e];
      if e.seqNum > 0 {
        SliceNext(log, from, LastSeq(front, from));
      }
    }
  }

  lemma SliceNext(log: seq<Event>, from: nat, to: nat)
    requires from <= to < |log|
    ensures log[from..to + 1] == log[from..to] + [log[to]]
  {
  }

  lemma BufferedSnoc(front: seq<Event>, e: Event)
    ensures Buffered(front + [e]) == if e.seqNum > 0 then Buffered(front) + [e] else Buffered(front)
  {
    assert (front + [e])[..|front|] == front;
    assert Buffered(front) + [] == Buffered(front);
  }

  lemma {:induction false} ConsecutivePrefix(sent: seq<Event>, from: nat, k: nat)
    requires Consecutive(sent, from) && k <= |sent|
    ensures Consecutive(sent[..k], from)
    ensures k < |sent| && sent[k].seqNum > 0 ==> sent[k].seqNum == LastSeq(sent[..k], from) + 1
  {
    if k == |sent| {
      assert sent[..k] == sent;
    } else if k < |sent| - 1 {
      ConsecutivePrefix(sent[..|sent| - 1], from, k);
      assert sent[..|sent| - 1][..k] == sent[..k];
    }
  }

  // ----- the invariant of a subscription -----

  /** A replay is a run of consecutive log entries that ends at `replayedThrough`. */
  predicate SnapshotInv(log: seq<Event>, snapshot: Snapshot) {
    var through, n := snapshot.replayedThrough, |snapshot.events|;
    n <= through <= |log| && snapshot.events == log[through - n..through]
  }

  predicate SubInv(log: seq<Event>, sub: Subscription) {
    var through := sub.snapshot.replayedThrough;
    && SnapshotInv(log, sub.snapshot)
    && Ascending(log, sub.sent, through)
    && sub.afterSeq == LastSeq(sub.sent, through)
    && sub.received <= |sub.sent|
  }

  lemma SubInvGrows(log: seq<Event>, more: seq<Event>, sub: Subscription)
    requires SubInv(log, sub)
    ensures SubInv(log + more, sub)
  {
    var through, n := sub.snapshot.replayedThrough, |sub.snapshot.events|;
    AscendingGrows(log, more, sub.sent, through);
    assert (log + more)[through - n..through] == log[through - n..through];
  }

  lemma OfferKeepsSubInv(log: seq<Event>, sub: Subscription, e: Event)
    requires SubInv(log, sub)
    ensures e.seqNum == 0 ==> SubInv(log, sub.OfferLive(e))
    ensures 0 < e.seqNum <= |log| && e == log[e.seqNum - 1] ==> SubInv(log, sub.OfferBuffered(e))
  {
    assert (sub.sent + [e])[..|sub.sent|] == sub.sent;
  }

  // ----- the invariant of the system -----

  predicate LogInv(s: System) {
    && s.streamEpoch != 0
    && (forall i :: 0 <= i < |s.log| ==> s.log[i].seqNum == i + 1)
    && (forall q :: q in s.inFlight ==> 0 < q <= |s.log|)
  }

  predicate SubsInv(s: System) {
    forall id :: id in s.subs ==> SubInv(s.log, s.subs[id])
  }

  /** Where the proxy's cursor stands in the stream it is reading. */
  predicate ConnInv(s: System) {
    var p := s.proxy;
    p.conn.Some? ==>
      && p.conn.value in s.subs
      && var sub := s.subs[p.conn.value];
         var through := sub.snapshot.replayedThrough;
         && sub.snapshot.streamEpoch == s.streamEpoch
         && p.taken <= |sub.sent| + 1
         && (if p.taken == 0 then p.afterSeq <= through - |sub.snapshot.events|
             else p.streamEpoch == s.streamEpoch && p.afterSeq == LastSeq(sub.sent[..p.taken - 1], through))
  }

  predicate ProxyInv(s: System) {
    var p := s.proxy;
    && Faithful(s.log, p.forwarded)
    && p.afterSeq == Cursor(p.forwarded) <= |s.log|
    && (p.streamEpoch == s.streamEpoch || (p.streamEpoch == 0 && p.afterSeq == 0))
  }

  predicate Inv(s: System) {
    LogInv(s) && SubsInv(s) && ProxyInv(s) && ConnInv(s)
  }

  // ----- what the proxy forwards -----

  function Cursor(items: seq<Item>): nat {
    if items == [] then 0 else CursorAfter(Cursor(items[..|items| - 1]), items[|items| - 1])
  }

  /** The buffered events among the forwarded items, in the order the client sees them. */
  function Forwarded(items: seq<Item>): seq<Event> {
    if items == [] then []
    else Forwarded(items[..|items| - 1]) + EventsOf(items[|items| - 1])
  }

  function EventsOf(item: Item): seq<Event> {
    match item
    case ReplayItem(snapshot) => snapshot.events
    case EventItem(e) => if e.seqNum > 0 then [e] else []
  }

  /** Each item starts after the cursor that the items before it left. */
  predicate Faithful(log: seq<Event>, items: seq<Item>) {
    items == [] ||
    var front := items[..|items| - 1];
    Faithful(log, front) && ComesAfter(log, Cursor(front), items[|items| - 1])
  }

  predicate ComesAfter(log: seq<Event>, cursor: nat, item: Item) {
    match item
    case ReplayItem(snapshot) => SnapshotInv(log, snapshot) && cursor <= snapshot.replayedThrough - |snapshot.events|
    case EventItem(e) => e.seqNum > 0 ==> cursor < e.seqNum <= |log| && e == log[e.seqNum - 1]
  }

  /** How many numbers one item jumps over. */
  function Jump(cursor: nat, item: Item): int {
    match item
    case ReplayItem(snapshot) => snapshot.replayedThrough - |snapshot.events| - cursor
    case EventItem(e) => if e.seqNum > 0 then e.seqNum - 1 - cursor else 0
  }

  function Missed(items: seq<Item>): int {
    if items == [] then 0
    else Missed(items[..|items| - 1]) + Jump(Cursor(items[..|items| - 1]), items[|items| - 1])
  }

  /** Every replay covers the cursor it arrives at, which a client can tell by looking at it. */
  predicate ReplaysComplete(items: seq<Item>) {
    items == [] ||
    var front, last := items[..|items| - 1], items[|items| - 1];
    ReplaysComplete(front) && (last.ReplayItem? ==> Jump(Cursor(front), last) == 0)
  }

  /** Every live event is the one after the cursor. */
  predicate EventsAdjacent(items: seq<Item>) {
    items == [] ||
    var front, last := items[..|items| - 1], items[|items| - 1];
    EventsAdjacent(front) && (last.EventItem? ==> Jump(Cursor(front), last) == 0)
  }

  lemma {:induction false} MissedZeroIff(log: seq<Event>, items: seq<Item>)
    requires Faithful(log, items)
    ensures Missed(items) == 0 <==> ReplaysComplete(items) && EventsAdjacent(items)
  {
    if items != [] {
      var front := items[..|items| - 1];
      MissedZeroIff(log, front);
      MissedIsTheShortfall(log, front);
    }
  }

  lemma EventsAdjacentAppend(items: seq<Item>, item: Item)
    requires EventsAdjacent(items) && (item.EventItem? ==> Jump(Cursor(items), item) == 0)
    ensures EventsAdjacent(items + [item])
  {
    assert (items + [item])[..|items|] == items;
  }

  lemma {:induction false} FaithfulGrows(log: seq<Event>, more: seq<Event>, items: seq<Item>)
    requires Faithful(log, items)
    ensures Faithful(log + more, items)
  {
    if items != [] {
      FaithfulGrows(log, more, items[..|items| - 1]);
      match items[|items| - 1]
      case ReplayItem(snapshot) =>
        assert (log + more)[snapshot.replayedThrough - |snapshot.events|..snapshot.replayedThrough] == snapshot.events;
      case EventItem(e) =>
    }
  }

  /** Strictly increasing up to `upTo`, and every event the log's own. */
  predicate Sound(log: seq<Event>, s: seq<Event>, upTo: nat) {
    s == [] ||
    var e := s[|s| - 1];
    && 0 < e.seqNum <= upTo
    && e.seqNum <= |log|
    && e == log[e.seqNum - 1]
    && Sound(log, s[..|s| - 1], e.seqNum - 1)
  }

  lemma {:induction false} SoundIsIncreasing(log: seq<Event>, s: seq<Event>, upTo: nat)
    requires Sound(log, s, upTo)
    ensures StrictlyIncreasing(s)
    ensures forall e :: e in s ==> 0 < e.seqNum <= upTo && e in log
  {
    if s != [] {
      SoundIsIncreasing(log, s[..|s| - 1], s[|s| - 1].seqNum - 1);
    }
  }

  lemma {:induction false} SoundWidens(log: seq<Event>, s: seq<Event>, c: nat, upTo: nat)
    requires Sound(log, s, c) && c <= upTo
    ensures Sound(log, s, upTo)
  {
  }

  lemma SoundSnoc(log: seq<Event>, s: seq<Event>, c: nat, e: Event)
    requires Sound(log, s, c) && c < e.seqNum <= |log| && e == log[e.seqNum - 1]
    ensures Sound(log, s + [e], e.seqNum)
  {
    SoundWidens(log, s, c, e.seqNum - 1);
    assert (s + [e])[..|s|] == s;
  }

  lemma SliceSnoc(log: seq<Event>, s: seq<Event>, from: nat, to: nat)
    requires from < to <= |log|
    ensures s + log[from..to] == s + log[from..to - 1] + [log[to - 1]]
  {
  }

  lemma {:induction false} SoundAppend(log: seq<Event>, s: seq<Event>, c: nat, from: nat, to: nat)
    requires forall i :: 0 <= i < |log| ==> log[i].seqNum == i + 1
    requires Sound(log, s, c) && c <= from <= to <= |log|
    ensures Sound(log, s + log[from..to], to)
  {
    if from == to {
      assert s + log[from..to] == s;
      SoundWidens(log, s, c, to);
    } else {
      SliceSnoc(log, s, from, to);
      SoundAppend(log, s, c, from, to - 1);
      SoundSnoc(log, s + log[from..to - 1], to - 1, log[to - 1]);
    }
  }

  lemma {:induction false} SoundAppendSent(log: seq<Event>, s: seq<Event>, sent: seq<Event>, from: nat)
    requires Sound(log, s, from) && Ascending(log, sent, from)
    ensures Sound(log, s + Buffered(sent), LastSeq(sent, from))
  {
    if sent == [] {
      assert s + Buffered(sent) == s;
    } else {
      var e, front := sent[|sent| - 1], sent[..|sent| - 1];
      SoundAppendSent(log, s, front, from);
      if e.seqNum > 0 {
        SoundSnoc(log, s + Buffered(front), LastSeq(front, from), e);
        assert s + Buffered(sent) == s + Buffered(front) + [e];
      } else {
        assert Buffered(sent) == Buffered(front);
      }
    }
  }

  /** A sound stream is as long as it can be only if it is the whole log up to there. */
  lemma {:induction false} SoundAndFullIsTheLog(log: seq<Event>, s: seq<Event>, upTo: nat)
    requires Sound(log, s, upTo) && upTo <= |log|
    ensures |s| <= upTo
    ensures |s| == upTo ==> s == log[..upTo]
  {
    if s != [] {
      SoundAndFullIsTheLog(log, s[..|s| - 1], s[|s| - 1].seqNum - 1);
    }
  }

  lemma {:induction false} ReplayIsSound(log: seq<Event>, s: seq<Event>, cursor: nat, snapshot: Snapshot)
    requires forall i :: 0 <= i < |log| ==> log[i].seqNum == i + 1
    requires Sound(log, s, cursor) && ComesAfter(log, cursor, ReplayItem(snapshot))
    ensures Sound(log, s + snapshot.events, snapshot.replayedThrough) && snapshot.replayedThrough <= |log|
  {
    SoundAppend(log, s, cursor, snapshot.replayedThrough - |snapshot.events|, snapshot.replayedThrough);
  }

  lemma {:induction false} EventIsSound(log: seq<Event>, s: seq<Event>, cursor: nat, e: Event)
    requires Sound(log, s, cursor) && cursor <= |log| && ComesAfter(log, cursor, EventItem(e))
    ensures Sound(log, s + EventsOf(EventItem(e)), CursorAfter(cursor, EventItem(e)))
    ensures CursorAfter(cursor, EventItem(e)) <= |log|
  {
    if e.seqNum > 0 {
      SoundSnoc(log, s, cursor, e);
    } else {
      assert s + [] == s;
    }
  }

  /** One more item that starts after the cursor. */
  lemma {:induction false} ItemIsSound(log: seq<Event>, s: seq<Event>, cursor: nat, item: Item)
    requires forall i :: 0 <= i < |log| ==> log[i].seqNum == i + 1
    requires Sound(log, s, cursor) && cursor <= |log| && ComesAfter(log, cursor, item)
    ensures Sound(log, s + EventsOf(item), CursorAfter(cursor, item))
    ensures CursorAfter(cursor, item) <= |log|
  {
    match item {
      case ReplayItem(snapshot) => ReplayIsSound(log, s, cursor, snapshot);
      case EventItem(e) => EventIsSound(log, s, cursor, e);
    }
  }

  lemma {:induction false} FaithfulIsSound(log: seq<Event>, items: seq<Item>)
    requires forall i :: 0 <= i < |log| ==> log[i].seqNum == i + 1
    requires Faithful(log, items)
    ensures Sound(log, Forwarded(items), Cursor(items))
    ensures Cursor(items) <= |log|
  {
    if items != [] {
      var front, last := items[..|items| - 1], items[|items| - 1];
      FaithfulIsSound(log, front);
      ItemIsSound(log, Forwarded(front), Cursor(front), last);
    }
  }

  lemma {:induction false} MissedIsTheShortfall(log: seq<Event>, items: seq<Item>)
    requires Faithful(log, items)
    ensures 0 <= Missed(items)
    ensures |Forwarded(items)| + Missed(items) == Cursor(items)
  {
    if items != [] {
      MissedIsTheShortfall(log, items[..|items| - 1]);
    }
  }

  /** A faithful client stream has strictly increasing numbers, so no duplicates, and is short of the
      whole log up to its cursor by exactly the numbers it jumped over. */
  lemma FaithfulStream(log: seq<Event>, items: seq<Item>)
    requires forall i :: 0 <= i < |log| ==> log[i].seqNum == i + 1
    requires Faithful(log, items)
    ensures Sound(log, Forwarded(items), Cursor(items))
    ensures Cursor(items) <= |log|
    ensures StrictlyIncreasing(Forwarded(items))
    ensures 0 <= Missed(items)
    ensures |Forwarded(items)| + Missed(items) == Cursor(items)
    ensures Forwarded(items) == log[..Cursor(items)] <==> Missed(items) == 0
  {
    FaithfulIsSound(log, items);
    SoundIsIncreasing(log, Forwarded(items), Cursor(items));
    MissedIsTheShortfall(log, items);
    SoundAndFullIsTheLog(log, Forwarded(items), Cursor(items));
  }

  // ----- every step keeps the invariant -----

  lemma PushKeepsSubs(s: System, body: string)
    requires Inv(s)
    ensures SubsInv(Step(s, Push(body)))
  {
    forall id | id in s.subs
      ensures SubInv(s.log + [Event(|s.log| + 1, body)], s.subs[id])
    {
      SubInvGrows(s.log, [Event(|s.log| + 1, body)], s.subs[id]);
    }
  }

  lemma PublishKeepsSubs(s: System, a: Action)
    requires Inv(s) && Enabled(s, a) && (a.PublishBuffered? || a.PublishLive?)
    ensures SubsInv(Step(s, a))
  {
    forall id | id in s.subs
      ensures a.PublishBuffered? ==> SubInv(s.log, s.subs[id].OfferBuffered(s.log[a.seqNum - 1]))
      ensures a.PublishLive? ==> SubInv(s.log, s.subs[id].OfferLive(Event(0, a.body)))
    {
      OfferKeepsSubInv(s.log, s.subs[id], if a.PublishBuffered? then s.log[a.seqNum - 1] else Event(0, a.body));
    }
  }

  /** What a replay answers is a stretch of the log up to its end. */
  lemma ReplayIsAStretch(v: LogView, epoch: nat, afterSeq: nat)
    requires v.dropped <= |v.log|
    ensures SnapshotInv(v.log, v.Replay(epoch, afterSeq))
  {
    assert v.log[|v.log|..] == [];
    assert v.log[..|v.log|] == v.log;
  }

  lemma SubscribeKeepsSubs(s: System, id: nat, epoch: nat, afterSeq: nat, capacity: nat)
    requires Inv(s)
    ensures SubInv(s.log, Subscribed(s.View().Replay(epoch, afterSeq), capacity))
  {
    ReplayIsAStretch(s.View(), epoch, afterSeq);
    var through := s.View().Replay(epoch, afterSeq).replayedThrough;
    assert Ascending(s.log, [], through) && LastSeq([], through) == through;
  }

  lemma StepKeepsLogAndSubs(s: System, a: Action)
    requires Inv(s) && Enabled(s, a)
    ensures LogInv(Step(s, a))
    ensures SubsInv(Step(s, a))
  {
    match a
    case Push(body) =>
      PushKeepsSubs(s, body);
    case PublishBuffered(_) =>
      PublishKeepsSubs(s, a);
    case PublishLive(_) =>
      PublishKeepsSubs(s, a);
    case Subscribe(id, epoch, afterSeq, capacity) =>
      SubscribeKeepsSubs(s, id, epoch, afterSeq, capacity);
    case Connect(id, capacity) =>
      SubscribeKeepsSubs(s, id, s.proxy.streamEpoch, s.proxy.afterSeq, capacity);
    case _ =>
  }

  /** Offers only append to a channel, so what the proxy has read of it stays as it was. */
  lemma OffersKeepConn(s: System, t: System)
    requires Inv(s) && t.proxy == s.proxy && t.streamEpoch == s.streamEpoch && s.subs.Keys <= t.subs.Keys
    requires forall id :: id in s.subs ==>
                            s.subs[id].sent <= t.subs[id].sent && s.subs[id].snapshot == t.subs[id].snapshot
    ensures ConnInv(t)
  {
    if s.proxy.conn.Some? && s.proxy.taken > 0 {
      var k := s.proxy.taken - 1;
      assert t.subs[s.proxy.conn.value].sent[..k] == s.subs[s.proxy.conn.value].sent[..k];
    }
  }

  lemma FaithfulAppend(log: seq<Event>, items: seq<Item>, item: Item)
    requires Faithful(log, items)
    requires ComesAfter(log, Cursor(items), item)
    ensures Faithful(log, items + [item])
    ensures Cursor(items + [item]) == CursorAfter(Cursor(items), item)
  {
    assert (items + [item])[..|items|] == items;
  }

  /** The event that the proxy takes next. */
  lemma EventTaken(s: System)
    requires Inv(s) && Enabled(s, Take) && s.proxy.taken > 0
    ensures var sub, k := s.subs[s.proxy.conn.value], s.proxy.taken - 1;
            && k < |sub.sent|
            && ComesAfter(s.log, s.proxy.afterSeq, EventItem(sub.sent[k]))
            && LastSeq(sub.sent[..k + 1], sub.snapshot.replayedThrough)
               == CursorAfter(s.proxy.afterSeq, EventItem(sub.sent[k])) <= |s.log|
  {
    var sub, k := s.subs[s.proxy.conn.value], s.proxy.taken - 1;
    AscendingPrefix(s.log, sub.sent, sub.snapshot.replayedThrough, k);
    LastSeqNext(sub.sent, sub.snapshot.replayedThrough, k);
  }

  lemma TakeEventKeepsProxy(s: System)
    requires Inv(s) && Enabled(s, Take) && s.proxy.taken > 0
    ensures ProxyInv(Step(s, Take))
    ensures ConnInv(Step(s, Take))
  {
    EventTaken(s);
    FaithfulAppend(s.log, s.proxy.forwarded, EventItem(s.subs[s.proxy.conn.value].sent[s.proxy.taken - 1]));
  }

  lemma PushKeepsProxy(s: System, body: string)
    requires Inv(s)
    ensures ProxyInv(Step(s, Push(body)))
    ensures ConnInv(Step(s, Push(body)))
  {
    FaithfulGrows(s.log, [Event(|s.log| + 1, body)], s.proxy.forwarded);
    OffersKeepConn(s, Step(s, Push(body)));
  }

  lemma OthersKeepProxy(s: System, a: Action)
    requires Inv(s) && Enabled(s, a) && !a.Push? && !a.Connect? && !a.Take? && !a.Disconnect?
    ensures ProxyInv(Step(s, a))
    ensures ConnInv(Step(s, a))
  {
    OffersKeepConn(s, Step(s, a));
  }

  lemma StepKeepsInv(s: System, a: Action)
    requires Inv(s) && Enabled(s, a)
    ensures Inv(Step(s, a))
  {
    StepKeepsLogAndSubs(s, a);
    if a.Push? {
      PushKeepsProxy(s, a.body);
    } else if a.Take? && s.proxy.taken > 0 {
      TakeEventKeepsProxy(s);
    } else if !a.Connect? && !a.Take? && !a.Disconnect? {
      OthersKeepProxy(s, a);
    }
  }

  lemma {:induction false} RunKeepsInv(states: seq<System>, actions: seq<Action>, i: nat)
    requires IsRun(states, actions) && i < |states|
    ensures Inv(states[i])
  {
    if i > 0 {
      RunKeepsInv(states, actions, i - 1);
      StepKeepsInv(states[i - 1], actions[i - 1]);
    }
  }

  // ----- what every run promises -----

  /** In every run, whatever the publishing order: a subscriber's replay and the buffered events on its
      channel are, together, strictly increasing, so no event is in both. */
  lemma SubscriberSeesNoDuplicate(states: seq<System>, actions: seq<Action>, i: nat, id: nat)
    requires IsRun(states, actions) && i < |states| && id in states[i].subs
    ensures var sub := states[i].subs[id];
            && Sound(states[i].log, sub.snapshot.events + Buffered(sub.sent), sub.afterSeq)
            && StrictlyIncreasing(sub.snapshot.events + Buffered(sub.sent))
  {
    RunKeepsInv(states, actions, i);
    var sub, log := states[i].subs[id], states[i].log;
    var through := sub.snapshot.replayedThrough;
    SoundAppend(log, [], 0, through - |sub.snapshot.events|, through);
    assert [] + sub.snapshot.events == sub.snapshot.events;
    SoundAppendSent(log, sub.snapshot.events, sub.sent, through);
    SoundIsIncreasing(log, sub.snapshot.events + Buffered(sub.sent), sub.afterSeq);
  }

  /** In every run, over any number of reconnections: what the proxy forwards has strictly increasing
      numbers, and it is the whole log up to the cursor exactly when no item jumped over a number. */
  lemma ProxyForwardsEachOnce(states: seq<System>, actions: seq<Action>, i: nat)
    requires IsRun(states, actions) && i < |states|
    ensures var s := states[i];
            && s.proxy.afterSeq <= |s.log|
            && Sound(s.log, Forwarded(s.proxy.forwarded), s.proxy.afterSeq)
            && StrictlyIncreasing(Forwarded(s.proxy.forwarded))
            && |Forwarded(s.proxy.forwarded)| + Missed(s.proxy.forwarded) == s.proxy.afterSeq
            && (Forwarded(s.proxy.forwarded) == s.log[..s.proxy.afterSeq] <==> Missed(s.proxy.forwarded) == 0)
  {
    RunKeepsInv(states, actions, i);
    FaithfulStream(states[i].log, states[i].proxy.forwarded);
  }

  // ----- in-order publishing -----

  ghost predicate IsInOrderRun(states: seq<System>, actions: seq<Action>) {
    IsRun(states, actions) && forall i :: 0 <= i < |actions| ==> InOrder(states[i], actions[i])
  }

  /** Everything up to `p` is published, and every open subscription is exactly up to date with it. */
  ghost predicate InOrderInv(s: System, p: nat) {
    && p <= |s.log|
    && (forall q :: q in s.inFlight <==> p < q <= |s.log|)
    && (forall id :: id in s.subs ==> FollowsLog(s.subs[id], p))
    && EventsAdjacent(s.proxy.forwarded)
  }

  lemma TakeKeepsInOrder(s: System, p: nat)
    requires Inv(s) && InOrderInv(s, p) && Enabled(s, Take)
    ensures InOrderInv(Step(s, Take), p)
  {
    var proxy, sub := s.proxy, s.subs[s.proxy.conn.value];
    if proxy.taken == 0 {
      EventsAdjacentAppend(proxy.forwarded, ReplayItem(sub.snapshot));
    } else {
      ConsecutivePrefix(sub.sent, sub.snapshot.replayedThrough, proxy.taken - 1);
      EventsAdjacentAppend(proxy.forwarded, EventItem(sub.sent[proxy.taken - 1]));
    }
  }

  /** The lowest number in flight is the one after the newest published. */
  lemma PublishKeepsInOrder(s: System, q: nat, p: nat)
    requires Inv(s) && InOrderInv(s, p) && Enabled(s, PublishBuffered(q)) && InOrder(s, PublishBuffered(q))
    ensures q == p + 1
    ensures InOrderInv(Step(s, PublishBuffered(q)), q)
  {
    LowestIsNext(s, q, p);
    forall id | id in s.subs
      ensures FollowsLog(s.subs[id].OfferBuffered(s.log[q - 1]), q)
    {
      assert SubInv(s.log, s.subs[id]);
      OfferFollowsLog(s.subs[id], s.log[q - 1], p);
    }
  }

  /** The subscription has taken what was published up to `p`. */
  predicate FollowsLog(sub: Subscription, p: nat) {
    var through := sub.snapshot.replayedThrough;
    Consecutive(sub.sent, through) && (sub.open ==> sub.afterSeq == if p > through then p else through)
  }

  lemma OfferFollowsLog(sub: Subscription, e: Event, p: nat)
    requires FollowsLog(sub, p) && sub.afterSeq == LastSeq(sub.sent, sub.snapshot.replayedThrough) && e.seqNum == p + 1
    ensures FollowsLog(sub.OfferBuffered(e), p + 1)
  {
    assert (sub.sent + [e])[..|sub.sent|] == sub.sent;
  }

  lemma LowestIsNext(s: System, q: nat, p: nat)
    requires InOrderInv(s, p) && q in s.inFlight && InOrder(s, PublishBuffered(q))
    ensures q == p + 1
  {
    assert p + 1 in s.inFlight;
  }

  lemma LiveKeepsInOrder(s: System, body: string, p: nat)
    requires InOrderInv(s, p)
    ensures InOrderInv(Step(s, PublishLive(body)), p)
  {
    forall id | id in s.subs
      ensures Consecutive(s.subs[id].OfferLive(Event(0, body)).sent, s.subs[id].snapshot.replayedThrough)
    {
      assert (s.subs[id].sent + [Event(0, body)])[..|s.subs[id].sent|] == s.subs[id].sent;
    }
  }

  lemma SubscribeKeepsInOrder(s: System, id: nat, sub: Subscription, t: System, p: nat)
    requires InOrderInv(s, p)
    requires sub.sent == [] && sub.afterSeq == sub.snapshot.replayedThrough == |s.log|
    requires t.log == s.log && t.inFlight == s.inFlight && t.proxy.forwarded == s.proxy.forwarded
    requires t.subs == s.subs[id := sub]
    ensures InOrderInv(t, p)
  {
  }

  lemma InOrderStep(s: System, a: Action, p: nat) returns (p': nat)
    requires Inv(s) && InOrderInv(s, p) && Enabled(s, a) && InOrder(s, a)
    ensures InOrderInv(Step(s, a), p')
  {
    p' := p;
    match a
    case PublishBuffered(q) =>
      PublishKeepsInOrder(s, q, p);
      p' := q;
    case PublishLive(body) =>
      LiveKeepsInOrder(s, body, p);
    case Subscribe(id, epoch, afterSeq, capacity) =>
      SubscribeKeepsInOrder(s, id, Subscribed(s.View().Replay(epoch, afterSeq), capacity), Step(s, a), p);
    case Connect(id, capacity) =>
      SubscribeKeepsInOrder(s, id, Step(s, a).subs[id], Step(s, a), p);
    case Take =>
      TakeKeepsInOrder(s, p);
    case _ =>
  }

  lemma {:induction false} InOrderRun(states: seq<System>, actions: seq<Action>, i: nat) returns (p: nat)
    requires IsInOrderRun(states, actions) && i < |states|
    ensures InOrderInv(states[i], p)
  {
    if i == 0 {
      p := 0;
    } else {
      p := InOrderRun(states, actions, i - 1);
      RunKeepsInv(states, actions, i - 1);
      p := InOrderStep(states[i - 1], actions[i - 1], p);
    }
  }

  /** With in-order publishing, a subscriber's replay and channel are one contiguous piece of the log;
      while it is not dropped, that piece ends at the newest published event or beyond. */
  lemma SubscriberSeesContiguousLog(states: seq<System>, actions: seq<Action>, i: nat, id: nat)
    requires IsInOrderRun(states, actions) && i < |states| && id in states[i].subs
    ensures var s, sub := states[i], states[i].subs[id];
            && |sub.snapshot.events| <= sub.snapshot.replayedThrough <= sub.afterSeq <= |s.log|
            && sub.snapshot.events + Buffered(sub.sent)
               == s.log[sub.snapshot.replayedThrough - |sub.snapshot.events|..sub.afterSeq]
            && (sub.open ==> forall q :: sub.afterSeq < q <= |s.log| ==> q in s.inFlight)
  {
    RunKeepsInv(states, actions, i);
    var p := InOrderRun(states, actions, i);
    var sub := states[i].subs[id];
    ConsecutiveIsTheLog(states[i].log, sub.sent, sub.snapshot.replayedThrough);
  }

  /** With in-order publishing, the client has the whole log up to its cursor exactly when every replay
      it was sent covered its cursor. */
  lemma ProxyForwardsEverythingIff(states: seq<System>, actions: seq<Action>, i: nat)
    requires IsInOrderRun(states, actions) && i < |states|
    ensures var s := states[i];
            && s.proxy.afterSeq <= |s.log|
            && (Forwarded(s.proxy.forwarded) == s.log[..s.proxy.afterSeq] <==> ReplaysComplete(s.proxy.forwarded))
  {
    ProxyForwardsEachOnce(states, actions, i);
    RunKeepsInv(states, actions, i);
    var p := InOrderRun(states, actions, i);
    MissedZeroIff(states[i].log, states[i].proxy.forwarded);
  }

  // ----- why the order matters -----

  function Offered(sub: Subscription, es: seq<Event>): Subscription {
    if es == [] then sub else Offered(sub, es[..|es| - 1]).OfferBuffered(es[|es| - 1])
  }

  /** Published in any order to a subscriber with room, an event arrives exactly when it is above the
      subscriber's cursor and above everything published before it. */
  lemma {:induction false} DeliveredIff(sub: Subscription, es: seq<Event>, j: nat)
    requires sub.open && sub.sent == [] && |es| <= sub.received + sub.capacity
    requires forall i, k :: 0 <= i < k < |es| ==> es[i].seqNum != es[k].seqNum
    requires j < |es|
    ensures es[j] in Offered(sub, es).sent <==>
            es[j].seqNum > sub.afterSeq && forall i :: 0 <= i < j ==> es[i].seqNum < es[j].seqNum
  {
    OfferedState(sub, es);
    var front, last := es[..|es| - 1], es[|es| - 1];
    OfferedState(sub, front);
    assert es[j] in Offered(sub, es).sent <==>
           es[j] in Offered(sub, front).sent || (j == |es| - 1 && last.seqNum > Offered(sub, front).afterSeq);
    if j < |front| {
      DeliveredIff(sub, front, j);
    } else {
      assert es[j] !in front;
    }
  }

  /** Published behind the subscriber's cursor and not on its channel: it will never see this event, and it
      is not told so. */
  predicate MissedForGood(s: System, id: nat, q: nat) {
    && id in s.subs
    && s.subs[id].open
    && s.subs[id].snapshot.replayedThrough < q <= |s.log|
    && q <= s.subs[id].afterSeq
    && q !in s.inFlight
    && s.log[q - 1] !in s.subs[id].sent
  }

  /** Whatever happens next, a missed event stays missed while the subscription is open. */
  lemma MissedStays(s: System, a: Action, id: nat, q: nat)
    requires LogInv(s) && Enabled(s, a) && MissedForGood(s, id, q)
    ensures MissedForGood(Step(s, a), id, q) || !Step(s, a).subs[id].open
  {
    assert s.log[q - 1].seqNum == q;
    if a.PublishBuffered? {
      OfferedIsOther(s.subs[id], s.log[a.seqNum - 1], s.log[q - 1]);
    } else if a.PublishLive? {
      OfferedIsOther(s.subs[id], Event(0, a.body), s.log[q - 1]);
    } else if a.Push? {
      assert Step(s, a).log[q - 1] == s.log[q - 1];
    }
  }

  lemma OfferedIsOther(sub: Subscription, offered: Event, e: Event)
    requires e !in sub.sent && 0 < e.seqNum <= sub.afterSeq
    ensures e !in sub.OfferBuffered(offered).sent && e.seqNum <= sub.OfferBuffered(offered).afterSeq
    ensures offered.seqNum == 0 ==> e !in sub.OfferLive(offered).sent
  {
  }

  function OutOfOrder(id: nat, capacity: nat): seq<Action> {
    [Subscribe(id, 0, 0, capacity)] + [Push("a")] + [Push("b")] + [PublishBuffered(2)] + [PublishBuffered(1)]
  }

  lemma RunSnoc(states: seq<System>, actions: seq<Action>, a: Action)
    requires IsRun(states, actions) && Enabled(states[|actions|], a)
    ensures IsRun(states + [Step(states[|actions|], a)], actions + [a])
  {
  }

  /** Subscribed to the empty log, with nothing sent yet. */
  predicate Subscribing(s: System, id: nat) {
    && id in s.subs
    && var sub := s.subs[id];
       sub.open && sub.sent == [] && sub.received == 0 < sub.capacity
       && sub.snapshot.replayedThrough == sub.afterSeq == 0
  }

  lemma TwoPushed(s0: System, id: nat, capacity: nat)
    returns (s: System, states: seq<System>)
    requires Initial(s0) && capacity > 0
    ensures IsRun(states, [Subscribe(id, 0, 0, capacity)] + [Push("a")] + [Push("b")])
    ensures states[0] == s0 && states[3] == s
    ensures Subscribing(s, id) && s.log == [Event(1, "a"), Event(2, "b")] && s.inFlight == {1, 2}
  {
    var a := Subscribe(id, 0, 0, capacity);
    var s1 := Step(s0, a);
    RunSnoc([s0], [], a);
    assert [] + [a] == [a] && Subscribing(s1, id);
    var s2 := Step(s1, Push("a"));
    RunSnoc([s0] + [s1], [a], Push("a"));
    assert s2.log == [Event(1, "a")] && s2.inFlight == {1};
    s := Step(s2, Push("b"));
    RunSnoc([s0] + [s1] + [s2], [a] + [Push("a")], Push("b"));
    assert s.inFlight == {1, 2};
    states := [s0] + [s1] + [s2] + [s];
  }

  lemma SecondFirst(s: System, id: nat)
    requires Subscribing(s, id) && s.log == [Event(1, "a"), Event(2, "b")] && s.inFlight == {1, 2}
    ensures Enabled(s, PublishBuffered(2)) && Enabled(Step(s, PublishBuffered(2)), PublishBuffered(1))
    ensures MissedForGood(Step(Step(s, PublishBuffered(2)), PublishBuffered(1)), id, 1)
  {
    var sub := s.subs[id];
    assert sub.OfferBuffered(s.log[1]) == sub.(sent := [Event(2, "b")], afterSeq := 2);
    assert Step(s, PublishBuffered(2)).subs[id].OfferBuffered(s.log[0]) == Step(s, PublishBuffered(2)).subs[id];
  }

  /** A run in which that happens, from any initial state: two senders push, and publish the other way round. */
  lemma OutOfOrderMisses(s0: System, id: nat, capacity: nat)
    requires Initial(s0) && capacity > 0
    ensures exists states ::
              IsRun(states, OutOfOrder(id, capacity)) && states[0] == s0 && MissedForGood(states[5], id, 1)
  {
    var s, states := TwoPushed(s0, id, capacity);
    SecondFirst(s, id);
    var actions := [Subscribe(id, 0, 0, capacity)] + [Push("a")] + [Push("b")];
    var s4 := Step(s, PublishBuffered(2));
    RunSnoc(states, actions, PublishBuffered(2));
    RunSnoc(states + [s4], actions + [PublishBuffered(2)], PublishBuffered(1));
    var all := states + [s4] + [Step(s4, PublishBuffered(1))];
    assert all[0] == s0 && all[5] == Step(s4, PublishBuffered(1));
  }

  lemma {:induction false} OfferedState(sub: Subscription, es: seq<Event>)
    requires sub.open && sub.sent == [] && |es| <= sub.received + sub.capacity
    ensures var r := Offered(sub, es);
            && r.open
            && r.received == sub.received
            && r.capacity == sub.capacity
            && |r.sent| <= |es|
            && (forall e :: e in r.sent ==> e in es)
            && sub.afterSeq <= r.afterSeq
            && (forall i :: 0 <= i < |es| ==> es[i].seqNum <= r.afterSeq)
            && (r.afterSeq == sub.afterSeq || exists i :: 0 <= i < |es| && es[i].seqNum == r.afterSeq)
  {
    if es != [] {
      OfferedState(sub, es[..|es| - 1]);
    }
  }
}
