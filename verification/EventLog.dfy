/** The replay log as a value, which `EventBuffer` refines. */
module EventLog {
  // What the ring buffer is allowed to remember of everything pushed in one stream epoch, and what a
  // replay request answers.

  /** An app transport event.  `seqNum` is 0 for an event that never entered the buffer. */
  datatype Event = Event(seqNum: nat, body: string)

  /** The two limits of a buffer.  `encodedLen` is the length of an event's JSON encoding, and 0 for
      an event that cannot be encoded. */
  datatype Limits = Limits(size: nat, byteBudget: int, encodedLen: Event -> nat) {

    function EventSize(e: Event): nat {
      if encodedLen(e) > 0 then encodedLen(e) else 1
    }

    function TotalSize(s: seq<Event>): nat {
      if s == [] then 0 else EventSize(s[0]) + TotalSize(s[1..])
    }

    predicate Fits(s: seq<Event>) {
      && |s| <= size
      && (byteBudget > 0 ==> TotalSize(s) <= byteBudget)
    }

    /** What a buffer with these limits retains of the log `s`. */
    function LongestFitting(s: seq<Event>): seq<Event> {
      if Fits(s) then s else LongestFitting(s[1..])
    }

    /** How many of the oldest events are forgotten. */
    function Dropped(s: seq<Event>): (d: nat)
      ensures d <= |s|
      ensures LongestFitting(s) == s[d..]
    {
      if Fits(s) then 0 else 1 + Dropped(s[1..])
    }

    lemma {:induction false} TotalSizeAppend(s: seq<Event>, e: Event)
      ensures TotalSize(s + [e]) == TotalSize(s) + EventSize(e)
    {
      if s == [] {
        assert s + [e] == [e];
      } else {
        assert (s + [e])[1..] == s[1..] + [e];
        TotalSizeAppend(s[1..], e);
      }
    }

    /** The retained part is a suffix, it fits, and no longer suffix fits. */
    lemma {:induction false} RetainedIsLongest(s: seq<Event>)
      ensures LongestFitting(s) == s[Dropped(s)..]
      ensures forall k :: 0 <= k <= |s| ==> (Fits(s[k..]) <==> k >= Dropped(s))
    {
      if Fits(s) {
        forall k | 0 <= k <= |s|
          ensures Fits(s[k..])
        {
          TotalSizeSuffix(s, k);
        }
      } else {
        RetainedIsLongest(s[1..]);
        assert s[0..] == s;
        forall k | 0 < k <= |s|
          ensures Fits(s[k..]) <==> k >= Dropped(s)
        {
          assert s[k..] == s[1..][k - 1..];
        }
      }
    }

    lemma {:induction false} TotalSizeSuffix(s: seq<Event>, k: nat)
      requires k <= |s|
      ensures TotalSize(s[k..]) <= TotalSize(s)
    {
      if k == 0 {
        assert s[0..] == s;
      } else {
        assert s[k..] == s[1..][k - 1..];
        TotalSizeSuffix(s[1..], k - 1);
      }
    }

    /** Forgetting can be done as events arrive: what was dropped earlier never matters again. */
    lemma {:induction false} LongestFittingAppend(s: seq<Event>, e: Event)
      ensures LongestFitting(s + [e]) == LongestFitting(LongestFitting(s) + [e])
    {
      if !Fits(s) {
        TotalSizeAppend(s, e);
        assert !Fits(s + [e]);
        assert (s + [e])[1..] == s[1..] + [e];
        LongestFittingAppend(s[1..], e);
      }
    }

    /** The buffer is empty after a push exactly when the newest event alone is over the byte budget. */
    lemma {:induction false} EmptyIffNewestTooBig(s: seq<Event>)
      requires size > 0
      ensures LongestFitting(s) == [] <==> s == [] || (byteBudget > 0 && EventSize(s[|s| - 1]) > byteBudget)
    {
      if |s| == 1 {
        assert TotalSize(s) == EventSize(s[0]) + TotalSize(s[1..]) == EventSize(s[0]);
        assert s[1..] == [];
        assert Fits([]);
        assert LongestFitting([]) == [];
      } else if |s| > 1 {
        var front := s[..|s| - 1];
        assert s == front + [s[|s| - 1]];
        TotalSizeAppend(front, s[|s| - 1]);
        if !Fits(s) {
          EmptyIffNewestTooBig(s[1..]);
        }
      }
    }

    /** An event takes the bytes of its encoding, and one where it has none; so no more events are kept than there
        are bytes allowed. */
    lemma {:induction false} NoMoreThanBytes(s: seq<Event>)
      requires byteBudget > 0
      ensures |LongestFitting(s)| <= byteBudget
    {
      if Fits(s) {
        EachTakesAByte(s);
      } else {
        NoMoreThanBytes(s[1..]);
      }
    }

    lemma {:induction false} EachTakesAByte(s: seq<Event>)
      ensures TotalSize(s) >= |s|
      ensures forall i :: 0 <= i < |s| ==> TotalSize(s) >= encodedLen(s[i])
    {
      if s != [] {
        EachTakesAByte(s[1..]);
      }
    }

    /** Events whose encodings together are within the budget are kept, as far as their number allows. */
    lemma {:induction false} EncodedFits(s: seq<Event>)
      requires |s| <= size && forall i :: 0 <= i < |s| ==> encodedLen(s[i]) > 0
      requires byteBudget > 0 ==> SumOf(s) <= byteBudget
      ensures LongestFitting(s) == s
    {
      SizesAreEncodings(s);
    }

    function SumOf(s: seq<Event>): nat {
      if s == [] then 0 else encodedLen(s[0]) + SumOf(s[1..])
    }

    lemma {:induction false} SizesAreEncodings(s: seq<Event>)
      requires forall i :: 0 <= i < |s| ==> encodedLen(s[i]) > 0
      ensures TotalSize(s) == SumOf(s)
    {
      if s != [] {
        SizesAreEncodings(s[1..]);
      }
    }

    lemma OneTooBig(s: seq<Event>)
      requires size > 0 && |s| == 1 && 0 < byteBudget < EventSize(s[0])
      ensures Dropped(s) == 1
    {
      EmptyIffNewestTooBig(s);
      assert |s[Dropped(s)..]| == 0;
    }
  }

  datatype Status = Ok | Gap | Reset

  datatype Snapshot = Snapshot(events: seq<Event>, status: Status, streamEpoch: nat, replayedThrough: nat)

  /** One epoch's log, of which the first `dropped` events are no longer retained. */
  datatype LogView = LogView(streamEpoch: nat, log: seq<Event>, dropped: nat) {

    ghost predicate Valid() {
      && streamEpoch != 0
      && dropped <= |log|
      && forall i :: 0 <= i < |log| ==> log[i].seqNum == i + 1
    }

    function Kept(): seq<Event>
      requires dropped <= |log|
    {
      log[dropped..]
    }

    /** The answer to a replay request for everything after `afterSeq` in epoch `epoch`. */
    function Replay(epoch: nat, afterSeq: nat): Snapshot
      requires dropped <= |log|
    {
      if epoch == 0 || epoch != streamEpoch || afterSeq > |log| then
        Snapshot(Kept(), Reset, streamEpoch, |log|)
      else if dropped == |log| || afterSeq == |log| then
        Snapshot([], Ok, streamEpoch, |log|)
      else if afterSeq < dropped then
        Snapshot(Kept(), Gap, streamEpoch, |log|)
      else
        Snapshot(log[afterSeq..], Ok, streamEpoch, |log|)
    }

    /** `ok` means nothing after the cursor is missing, except that a buffer emptied by its byte
        budget answers `ok` with nothing: `ok` is complete exactly when something is retained or the
        cursor is already at the end. */
    lemma OkIsCompleteIfKept(epoch: nat, afterSeq: nat)
      requires Valid()
      requires Replay(epoch, afterSeq).status == Ok
      ensures Replay(epoch, afterSeq).events == log[afterSeq..] <==> Kept() != [] || afterSeq == |log|
    {
      assert dropped == |log| && afterSeq < |log| ==> |log[afterSeq..]| > 0;
    }

    /** In terms of the limits: an `ok` is complete unless the newest event alone is over the byte budget and
        the cursor is not at it yet. */
    lemma OkIsCompleteIff(limits: Limits, epoch: nat, afterSeq: nat)
      requires Valid() && limits.size > 0 && dropped == limits.Dropped(log)
      requires Replay(epoch, afterSeq).status == Ok
      ensures Replay(epoch, afterSeq).events == log[afterSeq..] <==>
              afterSeq == |log| || limits.byteBudget <= 0 || limits.EventSize(log[|log| - 1]) <= limits.byteBudget
    {
      OkIsCompleteIfKept(epoch, afterSeq);
      limits.EmptyIffNewestTooBig(log);
    }

    /** The status tells a reader exactly where its cursor stands. */
    lemma StatusIff(epoch: nat, afterSeq: nat)
      requires Valid()
      ensures Replay(epoch, afterSeq).status == Reset <==> epoch != streamEpoch || afterSeq > |log|
      ensures Replay(epoch, afterSeq).status == Gap <==>
              epoch == streamEpoch && afterSeq < dropped < |log|
      ensures var r := Replay(epoch, afterSeq);
              (forall e :: e in r.events <==>
                             e in log && e.seqNum > (if r.status == Ok && dropped < |log| then afterSeq else dropped))
    {
      var r := Replay(epoch, afterSeq);
      var from := if r.status == Ok && dropped < |log| then afterSeq else dropped;
      if r.events != [] || r.status != Ok {
        assert r.events == log[from..];
        forall e
          ensures e in r.events <==> e in log && e.seqNum > from
        {
          if e in log && e.seqNum > from {
            assert e == log[e.seqNum - 1];
            assert e == log[from..][e.seqNum - 1 - from];
          }
        }
      } else {
        forall e | e in log
          ensures e.seqNum <= from
        {
          assert e == log[e.seqNum - 1];
        }
      }
    }

    /** The event is lost and the answer is `ok`: one push, of an event over the byte budget. */
    static lemma OkCanLoseEvents(limits: Limits, streamEpoch: nat, body: string)
      requires streamEpoch != 0 && limits.size > 0
      requires 0 < limits.byteBudget < limits.EventSize(Event(1, body))
      ensures var log := [Event(1, body)];
              var v := LogView(streamEpoch, log, limits.Dropped(log));
              v.Valid() && v.Replay(streamEpoch, 0) == Snapshot([], Ok, streamEpoch, 1)
    {
      limits.OneTooBig([Event(1, body)]);
    }

    /** Such limits and events exist. */
    static lemma SomeEventIsOverBudget()
      ensures var limits := Limits(2, 5, (e: Event) => |e.body|);
              0 < limits.byteBudget < limits.EventSize(Event(1, "larger"))
    {
      assert |"larger"| == 6;
    }
  }
}
