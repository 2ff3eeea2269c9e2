/** The ring buffer of app transport events and its paged replay, refined to `EventLog`. */
module EventBuffer {
  import opened EventLog

  const DEFAULT_SIZE := 1024
  const JSON_SAFE := 0x20_0000_0000_0000

  /** A random 64-bit value made into an epoch that a JSON number can hold and that is never 0. */
  function JsonSafeEpoch(raw: nat): (epoch: nat)
    ensures 0 < epoch < JSON_SAFE
    ensures exists q: nat :: raw == q * JSON_SAFE + epoch || (raw == q * JSON_SAFE && epoch == 1)
  {
    assert raw == (raw / JSON_SAFE) * JSON_SAFE + raw % JSON_SAFE;
    if raw % JSON_SAFE == 0 then 1 else raw % JSON_SAFE
  }

  lemma WrapOnce(x: nat, size: nat)
    requires 0 < size && x < 2 * size
    ensures x % size == (if x < size then x else x - size)
  {
    var q, r := x / size, x % size;
    assert x == q * size + r;
    assert q >= 2 ==> q * size >= 2 * size;
    assert q == 1 ==> q * size == size;
  }

  /** The slot of the i-th of `count` stored items, counted from the oldest. */
  ghost function Slot(size: nat, head: nat, count: nat, i: nat): (slot: nat)
    requires head < size && i < count <= size
    ensures slot < size
  {
    if head + i >= count then head + i - count else head + i - count + size
  }

  /** What a ring holds, from the oldest item. */
  ghost function Ring<T>(slots: seq<T>, head: nat, count: nat): (s: seq<T>)
    requires head < |slots| && count <= |slots|
    ensures |s| == count
  {
    seq(count, i requires 0 <= i < count => slots[Slot(|slots|, head, count, i)])
  }

  /** A write at the head pushes out the oldest item of a full ring. */
  ghost function AfterWrite<T>(stored: seq<T>, size: nat, x: T): seq<T>
    requires |stored| <= size && 0 < size
  {
    (if |stored| == size then stored[1..] else stored) + [x]
  }

  /** The index arithmetic of the code finds the slots. */
  lemma SlotArithmetic(size: nat, head: nat, count: nat, i: nat)
    requires head < size && i < count <= size
    ensures (head + size - count) % size == Slot(size, head, count, 0)
    ensures (Slot(size, head, count, 0) + i) % size == Slot(size, head, count, i)
  {
    WrapOnce(head + size - count, size);
    WrapOnce(Slot(size, head, count, 0) + i, size);
  }

  lemma NextHead(head: nat, size: nat)
    requires head < size
    ensures (head + 1) % size == if head + 1 == size then 0 else head + 1
  {
    WrapOnce(head + 1, size);
  }

  lemma RingWrite<T>(slots: seq<T>, head: nat, count: nat, x: T)
    requires head < |slots| && count <= |slots|
    ensures var next := if head + 1 == |slots| then 0 else head + 1;
            Ring(slots[head := x], next, if count == |slots| then count else count + 1)
            == AfterWrite(Ring(slots, head, count), |slots|, x)
  {
  }

  lemma RingDrop<T>(slots: seq<T>, head: nat, count: nat, x: T)
    requires head < |slots| && 0 < count <= |slots|
    ensures Ring(slots[Slot(|slots|, head, count, 0) := x], head, count - 1) == Ring(slots, head, count)[1..]
  {
  }

  /** What is left of a sequence once `skip` items are skipped, item by item. */
  ghost function AfterSkip<T>(s: seq<T>, skip: nat, i: nat): seq<T>
    requires i <= |s|
  {
    if i <= skip then [] else s[skip..i]
  }

  lemma SkippedThen<T>(s: seq<T>, skip: nat, i: nat)
    requires i < |s|
    ensures AfterSkip(s, skip, i + 1) == if i < skip then AfterSkip(s, skip, i) else AfterSkip(s, skip, i) + [s[i]]
  {
  }

  ghost predicate SizesMatch(limits: Limits, sizes: seq<nat>, stored: seq<Event>) {
    |sizes| == |stored| && forall i :: 0 <= i < |stored| ==> sizes[i] == limits.EventSize(stored[i])
  }

  lemma SizesRest(limits: Limits, sizes: seq<nat>, stored: seq<Event>)
    requires SizesMatch(limits, sizes, stored) && stored != []
    ensures SizesMatch(limits, sizes[1..], stored[1..])
    ensures limits.TotalSize(stored[1..]) == limits.TotalSize(stored) - sizes[0]
  {
  }

  lemma AfterWriteSizes(limits: Limits, sizes: seq<nat>, stored: seq<Event>, e: Event)
    requires SizesMatch(limits, sizes, stored) && |stored| <= limits.size && 0 < limits.size
    ensures SizesMatch(limits, AfterWrite(sizes, limits.size, limits.EventSize(e)), AfterWrite(stored, limits.size, e))
    ensures limits.TotalSize(AfterWrite(stored, limits.size, e))
            == limits.TotalSize(stored) + limits.EventSize(e) - (if |stored| == limits.size then sizes[0] else 0)
  {
    limits.TotalSizeAppend(if |stored| == limits.size then stored[1..] else stored, e);
  }

  lemma AfterWriteFits(limits: Limits, stored: seq<Event>, e: Event)
    requires |stored| <= limits.size && 0 < limits.size
    ensures limits.LongestFitting(AfterWrite(stored, limits.size, e)) == limits.LongestFitting(stored + [e])
  {
    if |stored| == limits.size {
      assert (stored + [e])[1..] == stored[1..] + [e];
    }
  }

  class EventBuffer {
    const limits: Limits
    var events: array<Event>
    var eventSizes: array<nat>
    var head: nat
    var count: nat
    var bytesUsed: int
    var lastSeq: nat
    var streamEpoch: nat
    /** Everything pushed since the epoch began. */
    ghost var log: seq<Event>

    ghost predicate Shape()
      reads this
    {
      && events.Length == eventSizes.Length == limits.size
      && head < limits.size
      && count <= limits.size
      && streamEpoch != 0
      && lastSeq == |log|
      && (forall i :: 0 <= i < |log| ==> log[i].seqNum == i + 1)
    }

    /** The events in the ring, from the oldest. */
    ghost function Contents(): (s: seq<Event>)
      requires Shape()
      reads this, events
    {
      Ring(events[..], head, count)
    }

    ghost predicate Consistent()
      reads this, events, eventSizes
    {
      && Shape()
      && bytesUsed == limits.TotalSize(Contents())
      && SizesMatch(limits, Ring(eventSizes[..], head, count), Contents())
    }

    ghost predicate Valid()
      reads this, events, eventSizes
    {
      && Consistent()
      && Contents() == limits.LongestFitting(log)
    }

    /** The epoch's log and how much of it is gone. */
    ghost function View(): (v: LogView)
      requires Valid()
      reads this, events, eventSizes
      ensures v.Valid() && v.Kept() == Contents()
    {
      var dropped := limits.Dropped(log);
      LogView(streamEpoch, log, dropped)
    }

    constructor (size: int, byteBudget: int, encodedLen: Event -> nat, rawEpoch: nat)
      ensures Valid()
      ensures fresh(events)
      ensures fresh(eventSizes)
      ensures log == []
      ensures streamEpoch == JsonSafeEpoch(rawEpoch)
      ensures limits == Limits(if size <= 0 then DEFAULT_SIZE else size, byteBudget, encodedLen)
    {
      var n: nat := if size <= 0 then DEFAULT_SIZE else size;
      limits := Limits(n, byteBudget, encodedLen);
      events := new Event[n](_ => Event(0, ""));
      eventSizes := new nat[n](_ => 0);
      head, count, bytesUsed, lastSeq := 0, 0, 0, 0;
      streamEpoch := JsonSafeEpoch(rawEpoch);
      log := [];
    }

    /** Stamps the event with the next sequence number and retains the longest suffix of the log
        that fits both limits. */
    method Push(event: Event) returns (stamped: Event)
      requires Valid()
      modifies this, events, eventSizes
      ensures Valid()
      ensures events == old(events)
      ensures eventSizes == old(eventSizes)
      ensures stamped == event.(seqNum := |old(log)| + 1)
      ensures log == old(log) + [stamped]
      ensures streamEpoch == old(streamEpoch)
    {
      limits.LongestFittingAppend(log, event.(seqNum := lastSeq + 1));
      AfterWriteFits(limits, Contents(), event.(seqNum := lastSeq + 1));
      lastSeq := lastSeq + 1;
      stamped := event.(seqNum := lastSeq);
      log := log + [stamped];
      var eventSize := limits.encodedLen(stamped);
      if eventSize == 0 {
        eventSize := 1;
      }
      StoreNewest(stamped, eventSize);
      DropOverBudget();
    }

    /** Drops the oldest events until the rest is within the byte budget. */
    method DropOverBudget()
      requires Consistent()
      modifies this`bytesUsed, this`count, events, eventSizes
      ensures Consistent()
      ensures Contents() == limits.LongestFitting(old(Contents()))
    {
      if limits.byteBudget > 0 {
        while count > 0 && bytesUsed > limits.byteBudget
          invariant Consistent() && limits.LongestFitting(Contents()) == limits.LongestFitting(old(Contents()))
          decreases count
        {
          DropOldest();
        }
      }
    }

    /** Writes at the head, over the oldest event if the ring is full. */
    method StoreNewest(event: Event, eventSize: nat)
      requires Consistent() && eventSize == limits.EventSize(event)
      modifies this`bytesUsed, this`count, this`head, events, eventSizes
      ensures Consistent()
      ensures Contents() == AfterWrite(old(Contents()), limits.size, event)
    {
      ghost var stored, sizes := Contents(), Ring(eventSizes[..], head, count);
      AfterWriteSizes(limits, sizes, stored, event);
      if count == limits.size {
        assert sizes[0] == eventSizes[head];
        bytesUsed := bytesUsed - eventSizes[head];
      }
      WriteHead(event, eventSize);
      bytesUsed := bytesUsed + eventSize;
    }

    method WriteHead(event: Event, eventSize: nat)
      requires Shape()
      modifies this`count, this`head, events, eventSizes
      ensures Shape()
      ensures Contents() == AfterWrite(old(Contents()), limits.size, event)
      ensures Ring(eventSizes[..], head, count)
              == AfterWrite(old(Ring(eventSizes[..], head, count)), limits.size, eventSize)
    {
      RingWrite(events[..], head, count, event);
      RingWrite(eventSizes[..], head, count, eventSize);
      WriteSlot(head, event, eventSize);
      if count < limits.size {
        count := count + 1;
      }
      NextHead(head, limits.size);
      head := (head + 1) % limits.size;
    }

    method WriteSlot(slot: nat, event: Event, eventSize: nat)
      requires slot < events.Length == eventSizes.Length
      modifies events, eventSizes
      ensures events[..] == old(events[..])[slot := event]
      ensures eventSizes[..] == old(eventSizes[..])[slot := eventSize]
    {
      events[slot] := event;
      eventSizes[slot] := eventSize;
    }

    method DropOldest()
      requires Consistent()
      modifies this`bytesUsed, this`count, events, eventSizes
      ensures Consistent()
      ensures Contents() == if old(count) == 0 then [] else old(Contents())[1..]
    {
      if count == 0 {
        return;
      }
      SlotArithmetic(limits.size, head, count, 0);
      var oldest := (head + limits.size - count) % limits.size;
      ghost var stored, sizes := Contents(), Ring(eventSizes[..], head, count);
      assert sizes[0] == eventSizes[oldest];
      bytesUsed := bytesUsed - eventSizes[oldest];
      bytesUsed := if bytesUsed < 0 then 0 else bytesUsed;
      ClearOldest(oldest);
      SizesRest(limits, sizes, stored);
    }

    method ClearOldest(oldest: nat)
      requires Shape() && 0 < count && oldest == Slot(limits.size, head, count, 0)
      modifies this`count, events, eventSizes
      ensures Shape() && count == old(count) - 1
      ensures Contents() == old(Contents())[1..]
      ensures Ring(eventSizes[..], head, count) == old(Ring(eventSizes[..], head, count))[1..]
    {
      RingDrop(events[..], head, count, Event(0, ""));
      RingDrop(eventSizes[..], head, count, 0);
      WriteSlot(oldest, Event(0, ""), 0);
      count := count - 1;
    }

    method SnapshotAll() returns (result: seq<Event>)
      requires Shape()
      ensures result == Contents()
    {
      if count == 0 {
        return [];
      }
      SlotArithmetic(limits.size, head, count, 0);
      var oldest := (head + limits.size - count) % limits.size;
      result := [];
      for i := 0 to count
        invariant result == Contents()[..i]
      {
        SlotArithmetic(limits.size, head, count, i);
        result := result + [events[(oldest + i) % limits.size]];
      }
    }

    /** The ring answers every request as the log view does. */
    method ReplaySince(epoch: nat, afterSeq: nat) returns (snapshot: Snapshot)
      requires Valid()
      ensures snapshot == View().Replay(epoch, afterSeq)
    {
      ghost var view := View();
      if epoch == 0 || epoch != streamEpoch || afterSeq > lastSeq {
        var all := SnapshotAll();
        return Snapshot(all, Status.Reset, streamEpoch, lastSeq);
      }
      if count == 0 || afterSeq == lastSeq {
        return Snapshot([], Ok, streamEpoch, lastSeq);
      }
      SlotArithmetic(limits.size, head, count, 0);
      var oldest := (head + limits.size - count) % limits.size;
      assert events[oldest] == Contents()[0] == view.log[view.dropped];
      if afterSeq < events[oldest].seqNum - 1 {
        var all := SnapshotAll();
        return Snapshot(all, Gap, streamEpoch, lastSeq);
      }
      var result := CollectAfter(afterSeq, view.dropped);
      return Snapshot(result, Ok, streamEpoch, lastSeq);
    }

    /** The retained events after a covered cursor, found by looking at every slot. */
    method CollectAfter(afterSeq: nat, ghost dropped: nat) returns (result: seq<Event>)
      requires Shape() && 0 < count && dropped + count == |log| && Contents() == log[dropped..]
      requires dropped <= afterSeq <= lastSeq
      ensures result == log[afterSeq..]
    {
      ghost var contents := Contents();
      ghost var skip := afterSeq - dropped;
      SlotArithmetic(limits.size, head, count, 0);
      var oldest := (head + limits.size - count) % limits.size;
      result := [];
      for i := 0 to count
        invariant result == AfterSkip(contents, skip, i)
      {
        SlotArithmetic(limits.size, head, count, i);
        var event := events[(oldest + i) % limits.size];
        assert event == contents[i] == log[dropped + i];
        SkippedThen(contents, skip, i);
        if event.seqNum > afterSeq {
          result := result + [event];
        }
      }
    }

    /** One page of the answer. */
    method ReplaySincePage(epoch: nat, afterSeq: nat, maxBytes: int, maxEvents: int) returns (page: Page)
      requires Valid()
      ensures IsPage(limits, View().Replay(epoch, afterSeq), afterSeq, maxBytes, maxEvents, page)
    {
      var snapshot := ReplaySince(epoch, afterSeq);
      page := CutPage(limits, snapshot, afterSeq, maxBytes, maxEvents);
    }

    /** Forgets everything and starts a new epoch. */
    method Reset(rawEpoch: nat) returns (epoch: nat)
      requires Valid()
      modifies this, events, eventSizes
      ensures Valid()
      ensures events == old(events)
      ensures eventSizes == old(eventSizes)
      ensures log == []
      ensures epoch == streamEpoch == JsonSafeEpoch(rawEpoch)
    {
      forall i | 0 <= i < events.Length {
        events[i] := Event(0, "");
      }
      forall i | 0 <= i < eventSizes.Length {
        eventSizes[i] := 0;
      }
      head, count, bytesUsed, lastSeq := 0, 0, 0, 0;
      streamEpoch := JsonSafeEpoch(rawEpoch);
      log := [];
      return streamEpoch;
    }
  }

  // ----- pages -----

  datatype Page = Page(events: seq<Event>, status: Status, streamEpoch: nat, replayedThrough: nat,
                       hasMore: bool, nextAfterSeq: nat)

  predicate WithinPage(limits: Limits, events: seq<Event>, maxBytes: int, maxEvents: int) {
    && (maxEvents > 0 ==> |events| <= maxEvents)
    && (maxBytes > 0 && |events| > 1 ==> limits.TotalSize(events) <= maxBytes)
  }

  /** `page` is the longest prefix of the answer that is within the page limits; it is non-empty if
      the answer is. */
  ghost predicate IsPage(limits: Limits, answer: Snapshot, afterSeq: nat, maxBytes: int, maxEvents: int, page: Page) {
    var n := |page.events|;
    && n <= |answer.events|
    && page.events == answer.events[..n]
    && page.status == answer.status
    && page.streamEpoch == answer.streamEpoch
    && page.replayedThrough == answer.replayedThrough
    && (answer.events != [] ==> n > 0)
    && WithinPage(limits, page.events, maxBytes, maxEvents)
    && (n < |answer.events| ==> !WithinPage(limits, answer.events[..n + 1], maxBytes, maxEvents))
    && page.hasMore == (n < |answer.events|)
    && page.nextAfterSeq == (if n == 0 then afterSeq else page.events[n - 1].seqNum)
  }

  /** How large a page gets: at most the allowed number of events, and at most the allowed bytes unless a single
      event is larger; and one event more would have been too many or too much. */
  lemma PageIsFull(limits: Limits, answer: Snapshot, afterSeq: nat, maxBytes: int, maxEvents: int, page: Page)
    requires IsPage(limits, answer, afterSeq, maxBytes, maxEvents, page)
    ensures maxEvents > 0 ==> |page.events| <= maxEvents
    ensures maxBytes > 0 ==> |page.events| <= 1 || limits.TotalSize(page.events) <= maxBytes
    ensures page.hasMore ==>
              || (maxEvents > 0 && |page.events| == maxEvents)
              || (maxBytes > 0
                  && limits.TotalSize(page.events) + limits.EventSize(answer.events[|page.events|]) > maxBytes)
  {
    if page.hasMore {
      var n := |page.events|;
      assert answer.events[..n + 1] == page.events + [answer.events[n]];
      limits.TotalSizeAppend(page.events, answer.events[n]);
    }
  }

  /** Takes events into the page until one more would break a limit; the first event always goes in. */
  method CutPage(limits: Limits, snapshot: Snapshot, afterSeq: nat, maxBytes: int, maxEvents: int)
    returns (page: Page)
    ensures IsPage(limits, snapshot, afterSeq, maxBytes, maxEvents, page)
  {
    var all := snapshot.events;
    page := Page([], snapshot.status, snapshot.streamEpoch, snapshot.replayedThrough, false, afterSeq);
    if |all| == 0 {
      return;
    }
    var maxCount := if maxEvents <= 0 then |all| else maxEvents;
    var bytesUsed := 0;
    for i := 0 to |all|
      invariant |page.events| == i && page.events == all[..i] && !page.hasMore
      invariant page.status == snapshot.status && page.streamEpoch == snapshot.streamEpoch
      invariant page.replayedThrough == snapshot.replayedThrough
      invariant page.nextAfterSeq == if i == 0 then afterSeq else all[i - 1].seqNum
      invariant i <= maxCount
      invariant bytesUsed == limits.TotalSize(page.events)
      invariant maxBytes > 0 && i > 1 ==> bytesUsed <= maxBytes
    {
      assert all[..i + 1] == page.events + [all[i]];
      limits.TotalSizeAppend(page.events, all[i]);
      if |page.events| >= maxCount {
        page := page.(hasMore := true);
        return;
      }
      var eventSize := limits.encodedLen(all[i]);
      if eventSize == 0 {
        eventSize := 1;
      }
      if |page.events| > 0 && maxBytes > 0 && bytesUsed + eventSize > maxBytes {
        page := page.(hasMore := true);
        return;
      }
      page := page.(events := page.events + [all[i]], nextAfterSeq := all[i].seqNum);
      bytesUsed := bytesUsed + eventSize;
    }
  }

  /** `pages` is what a client gets that follows the cursor as long as there is more. */
  ghost predicate Followed(limits: Limits, v: LogView, epoch: nat, afterSeq: nat, maxBytes: int, maxEvents: int,
                           pages: seq<Page>)
    requires v.Valid()
    decreases |pages|
  {
    && pages != []
    && IsPage(limits, v.Replay(epoch, afterSeq), afterSeq, maxBytes, maxEvents, pages[0])
    && (|pages| > 1 ==>
          && pages[0].hasMore
          && Followed(limits, v, pages[0].streamEpoch, pages[0].nextAfterSeq, maxBytes, maxEvents, pages[1..]))
  }

  function Events(pages: seq<Page>): seq<Event> {
    if pages == [] then [] else pages[0].events + Events(pages[1..])
  }

  /** After a page that is not the last, the cursor is covered and asks for exactly the rest. */
  lemma NextPageAnswersTheRest(limits: Limits, v: LogView, epoch: nat, afterSeq: nat, maxBytes: int, maxEvents: int,
                               page: Page)
    requires v.Valid()
    requires IsPage(limits, v.Replay(epoch, afterSeq), afterSeq, maxBytes, maxEvents, page) && page.hasMore
    ensures v.Replay(page.streamEpoch, page.nextAfterSeq).status == Ok
    ensures v.Replay(page.streamEpoch, page.nextAfterSeq).events == v.Replay(epoch, afterSeq).events[|page.events|..]
  {
    var answer := v.Replay(epoch, afterSeq).events;
    var n := |page.events|;
    var from := if v.Replay(epoch, afterSeq).status == Ok then afterSeq else v.dropped;
    assert answer == v.log[from..];
    assert answer[n - 1] == v.log[from + n - 1];
    assert page.nextAfterSeq == from + n;
    assert v.log[from + n..] == answer[n..];
  }

  /** Following the cursor ends, and the pages together are the one-shot answer, whatever its status. */
  lemma {:induction false} PagesConcatenate(limits: Limits, v: LogView, epoch: nat, afterSeq: nat, maxBytes: int,
                                            maxEvents: int, pages: seq<Page>)
    requires v.Valid()
    requires Followed(limits, v, epoch, afterSeq, maxBytes, maxEvents, pages)
    ensures Events(pages) <= v.Replay(epoch, afterSeq).events
    ensures !pages[|pages| - 1].hasMore <==> Events(pages) == v.Replay(epoch, afterSeq).events
    ensures |pages| == 1 || |pages| <= |v.Replay(epoch, afterSeq).events|
    decreases |pages|
  {
    var answer, page := v.Replay(epoch, afterSeq), pages[0];
    PageIsPrefix(limits, answer, afterSeq, maxBytes, maxEvents, page);
    if |pages| == 1 {
      assert Events(pages) == page.events + Events([]) == page.events;
    } else {
      NextPageAnswersTheRest(limits, v, epoch, afterSeq, maxBytes, maxEvents, page);
      PagesConcatenate(limits, v, page.streamEpoch, page.nextAfterSeq, maxBytes, maxEvents, pages[1..]);
      FrontThen(answer.events, |page.events|, Events(pages[1..]));
    }
  }

  lemma PageIsPrefix(limits: Limits, answer: Snapshot, afterSeq: nat, maxBytes: int, maxEvents: int, page: Page)
    requires IsPage(limits, answer, afterSeq, maxBytes, maxEvents, page)
    ensures page.events <= answer.events && page.events == answer.events[..|page.events|]
    ensures page.hasMore <==> page.events != answer.events
    ensures page.hasMore ==> 0 < |page.events| < |answer.events|
  {
  }

  lemma FrontThen(answer: seq<Event>, n: nat, more: seq<Event>)
    requires n <= |answer| && more <= answer[n..]
    ensures answer[..n] + more <= answer
    ensures answer[..n] + more == answer <==> more == answer[n..]
  {
    assert answer == answer[..n] + answer[n..];
  }
}
