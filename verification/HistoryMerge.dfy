/** Merging the locally recorded events of a run with those recovered from its provider. */
module HistoryMerge {
  import opened Options
  import opened Ordering
  import opened Words

  /** The fields that keys are made of; `diffs` counts a tool call's diffs, and the provider's subindex is
      given in decimal. */
  datatype Message = Message(messageId: string, partId: string, role: string, typ: string, text: string)

  datatype Tool = Tool(callId: string, kind: string, name: string, inputSummary: string, status: string,
                       outputText: string, errorText: string, diffs: nat)

  datatype EventRecord = EventRecord(eventId: string, seqNum: nat, emittedAt: int, recordedAt: int,
                                     providerRecordId: string, providerSubindex: string, kind: string, raw: string,
                                     message: Option<Message>, tool: Option<Tool>, planId: Option<string>)

  // ----- keys -----

  predicate IsSpaceChar(c: char) {
    IsSpaceCode(c as int)
  }

  /** The words of a text with single spaces between them. */
  function CollapseWhitespace(s: string): string {
    if s == "" then ""
    else if IsSpaceChar(s[0]) then CollapseWhitespace(s[1..])
    else
      var n := WordLength(IsSpaceChar, s);
      var rest := CollapseWhitespace(s[n..]);
      s[..n] + (if rest == "" then "" else " " + rest)
  }

  function StableKey(r: EventRecord): string {
    match r.kind
    case "message" =>
      if r.message == None then ""
      else
        var m := r.message.value;
        if m.messageId != "" || m.partId != "" then "message:" + m.role + ":" + m.messageId + ":" + m.partId
        else "message:" + m.role + ":" + m.typ + ":" + CollapseWhitespace(m.text)
    case "tool" =>
      if r.tool == None then ""
      else if r.tool.value.callId != "" then "tool:" + r.tool.value.callId
      else "tool:" + r.tool.value.kind + ":" + r.tool.value.name + ":" + CollapseWhitespace(r.tool.value.inputSummary)
    case "plan" =>
      if r.planId == None then "" else if r.planId.value != "" then "plan:" + r.planId.value else "plan"
    case "usage" => "usage"
    case "raw" => if r.raw != "" then "raw:" + r.raw else ""
    case _ => ""
  }

  /** A tool call with an id has one record while it runs and one when it has ended. */
  function MergeKey(r: EventRecord): string {
    if r.kind == "tool" && r.tool.Some? && r.tool.value.callId != "" then
      var t := r.tool.value;
      var ended :=
        t.status == "completed" || t.status == "failed" || t.outputText != "" || t.errorText != "" || t.diffs > 0;
      "tool:" + t.callId + ":" + (if ended then "terminal" else "active")
    else StableKey(r)
  }

  function ProviderKey(r: EventRecord): string {
    if r.providerRecordId == "" then "" else r.providerRecordId + "#" + r.providerSubindex
  }

  // ----- the merge -----

  predicate RecordLe(a: EventRecord, b: EventRecord) {
    if a.emittedAt != b.emittedAt then a.emittedAt < b.emittedAt
    else if a.seqNum != b.seqNum then a.seqNum < b.seqNum
    else if a.recordedAt != b.recordedAt then a.recordedAt < b.recordedAt
    else StrLe(a.eventId, b.eventId)
  }

  /** How records are matched and how a match is merged. */
  datatype Rules = Rules(mergeKey: EventRecord -> string, providerKey: EventRecord -> string,
                         merge: (EventRecord, EventRecord) -> EventRecord)

  /** The records so far, and where each key was seen. */
  datatype Index = Index(merged: seq<EventRecord>, byKey: map<string, nat>, byProvider: map<string, nat>)

  function Indexed(rules: Rules, ix: Index, r: EventRecord, at: nat): Index {
    ix.(byKey := if rules.mergeKey(r) != "" then ix.byKey[rules.mergeKey(r) := at] else ix.byKey,
        byProvider := if rules.providerKey(r) != "" then ix.byProvider[rules.providerKey(r) := at] else ix.byProvider)
  }

  function Appended(rules: Rules, ix: Index, r: EventRecord): Index {
    Indexed(rules, ix.(merged := ix.merged + [r]), r, |ix.merged|)
  }

  /** The local records, every key pointing to the last record that has it. */
  function IndexLocal(rules: Rules, local: seq<EventRecord>): (ix: Index)
    ensures InRange(ix)
    ensures ix.merged == local
  {
    if local == [] then Index([], map[], map[])
    else Appended(rules, IndexLocal(rules, local[..|local| - 1]), local[|local| - 1])
  }

  /** The record that a recovered one belongs to: by provider key first, then by merge key. */
  function FindMatch(rules: Rules, ix: Index, r: EventRecord): Option<nat> {
    if rules.providerKey(r) in ix.byProvider then Some(ix.byProvider[rules.providerKey(r)])
    else if rules.mergeKey(r) != "" && rules.mergeKey(r) in ix.byKey then Some(ix.byKey[rules.mergeKey(r)])
    else None
  }

  predicate InRange(ix: Index) {
    && (forall k :: k in ix.byKey ==> ix.byKey[k] < |ix.merged|)
    && (forall k :: k in ix.byProvider ==> ix.byProvider[k] < |ix.merged|)
  }

  function MergeOne(ix: Index, r: EventRecord, rules: Rules): (ix': Index)
    requires InRange(ix)
    ensures InRange(ix')
    ensures |ix'.merged| >= |ix.merged|
  {
    var at := FindMatch(rules, ix, r);
    if at.Some? then ix.(merged := ix.merged[at.value := rules.merge(ix.merged[at.value], r)])
    else Appended(rules, ix, r)
  }

  function MergeAll(ix: Index, backfill: seq<EventRecord>, rules: Rules): (ix': Index)
    requires InRange(ix)
    ensures InRange(ix')
    ensures |ix'.merged| >= |ix.merged|
  {
    if backfill == [] then ix
    else MergeOne(MergeAll(ix, backfill[..|backfill| - 1], rules), backfill[|backfill| - 1], rules)
  }

  /** The records recovered that belong to no record before them. */
  function Unmatched(ix: Index, backfill: seq<EventRecord>, rules: Rules): seq<EventRecord>
    requires InRange(ix)
  {
    if backfill == [] then []
    else
      var front, last := backfill[..|backfill| - 1], backfill[|backfill| - 1];
      Unmatched(ix, front, rules) + (if FindMatch(rules, MergeAll(ix, front, rules), last) == None then [last] else [])
  }

  /** The records merged into the i-th one, in order. */
  function MergedInto(ix: Index, backfill: seq<EventRecord>, rules: Rules, i: nat): seq<EventRecord>
    requires InRange(ix)
  {
    if backfill == [] then []
    else
      var front, last := backfill[..|backfill| - 1], backfill[|backfill| - 1];
      MergedInto(ix, front, rules, i) +
      (if FindMatch(rules, MergeAll(ix, front, rules), last) == Some(i) then [last] else [])
  }

  function Folded(r: EventRecord, more: seq<EventRecord>, rules: Rules): EventRecord {
    if more == [] then r else rules.merge(Folded(r, more[..|more| - 1], rules), more[|more| - 1])
  }

  /** One turn of the loop over the recovered records. */
  method MergeRecord(ix: Index, r: EventRecord, rules: Rules) returns (ix': Index)
    requires InRange(ix)
    ensures ix' == MergeOne(ix, r, rules)
  {
    var at := FindMatch(rules, ix, r);
    if at.Some? {
      var existing := ix.merged[at.value];
      return ix.(merged := ix.merged[at.value := rules.merge(existing, r)]);
    }
    return Appended(rules, ix, r);
  }

  method IndexRecords(rules: Rules, local: seq<EventRecord>) returns (ix: Index)
    ensures ix == IndexLocal(rules, local)
  {
    ix := Index([], map[], map[]);
    for i := 0 to |local|
      invariant ix == IndexLocal(rules, local[..i])
    {
      assert local[..i + 1][..i] == local[..i];
      ix := Appended(rules, ix, local[i]);
    }
    assert local[..|local|] == local;
  }

  function HistoryRules(merge: (EventRecord, EventRecord) -> EventRecord): Rules {
    Rules(MergeKey, ProviderKey, merge)
  }

  /** What the merge comes to, by whatever rules. */
  function Merged(local: seq<EventRecord>, backfill: seq<EventRecord>, rules: Rules): seq<EventRecord> {
    Sort(RecordLe, MergeAll(IndexLocal(rules, local), backfill, rules).merged)
  }

  method MergeEventRecords(local: seq<EventRecord>, backfill: seq<EventRecord>,
                           merge: (EventRecord, EventRecord) -> EventRecord)
    returns (records: seq<EventRecord>)
    ensures records == Merged(local, backfill, HistoryRules(merge))
  {
    var rules := HistoryRules(merge);
    var ix := IndexRecords(rules, local);
    ghost var start := ix;
    for i := 0 to |backfill|
      invariant InRange(ix) && ix == MergeAll(start, backfill[..i], rules)
    {
      MergeNext(start, backfill, rules, i);
      ix := MergeRecord(ix, backfill[i], rules);
    }
    assert backfill[..|backfill|] == backfill;
    records := Sort(RecordLe, ix.merged);
  }

  lemma MergeNext(ix: Index, backfill: seq<EventRecord>, rules: Rules, i: nat)
    requires InRange(ix) && i < |backfill|
    ensures MergeAll(ix, backfill[..i + 1], rules) == MergeOne(MergeAll(ix, backfill[..i], rules), backfill[i], rules)
  {
    assert backfill[..i + 1][..i] == backfill[..i];
  }

  // ----- nothing is lost, nothing comes twice -----

  /** Every index points to the last record that had the key when it came in, and no non-empty key is missing. */
  ghost predicate Covers(base: seq<EventRecord>, byKey: map<string, nat>, key: EventRecord -> string) {
    && (forall k :: k in byKey ==> k != "" && byKey[k] < |base| && key(base[byKey[k]]) == k)
    && (forall k, i :: k in byKey && byKey[k] < i < |base| ==> key(base[i]) != k)
    && (forall i :: 0 <= i < |base| && key(base[i]) != "" ==> key(base[i]) in byKey)
  }

  ghost predicate IndexCovers(rules: Rules, base: seq<EventRecord>, ix: Index) {
    && |base| == |ix.merged|
    && Covers(base, ix.byKey, rules.mergeKey)
    && Covers(base, ix.byProvider, rules.providerKey)
  }

  lemma CoversMore(base: seq<EventRecord>, byKey: map<string, nat>, key: EventRecord -> string, r: EventRecord)
    requires Covers(base, byKey, key)
    ensures Covers(base + [r], if key(r) != "" then byKey[key(r) := |base|] else byKey, key)
  {
    var all := base + [r];
    assert all[|base|] == r;
    forall i | 0 <= i < |all| && key(all[i]) != "" && key(all[i]) != key(r)
      ensures key(all[i]) in byKey
    {
      assert all[i] == base[i];
    }
  }

  lemma AppendCovers(rules: Rules, base: seq<EventRecord>, ix: Index, r: EventRecord)
    requires IndexCovers(rules, base, ix)
    ensures IndexCovers(rules, base + [r], Appended(rules, ix, r))
  {
    CoversMore(base, ix.byKey, rules.mergeKey, r);
    CoversMore(base, ix.byProvider, rules.providerKey, r);
  }

  lemma {:induction false} LocalCovers(rules: Rules, local: seq<EventRecord>)
    ensures IndexCovers(rules, local, IndexLocal(rules, local))
  {
    if local != [] {
      LocalCovers(rules, local[..|local| - 1]);
      AppendCovers(rules, local[..|local| - 1], IndexLocal(rules, local[..|local| - 1]), local[|local| - 1]);
      assert local == local[..|local| - 1] + [local[|local| - 1]];
    }
  }

  lemma {:induction false} MergeCovers(base: seq<EventRecord>, ix: Index, backfill: seq<EventRecord>,
                                       rules: Rules)
    requires InRange(ix) && IndexCovers(rules, base, ix)
    ensures IndexCovers(rules, base + Unmatched(ix, backfill, rules), MergeAll(ix, backfill, rules))
  {
    if backfill == [] {
      assert base + [] == base;
    } else {
      var front, last := backfill[..|backfill| - 1], backfill[|backfill| - 1];
      MergeCovers(base, ix, front, rules);
      var before, now := base + Unmatched(ix, front, rules), MergeAll(ix, front, rules);
      if FindMatch(rules, now, last) == None {
        AppendCovers(rules, before, now, last);
        assert base + (Unmatched(ix, front, rules) + [last]) == before + [last];
      } else {
        assert Unmatched(ix, backfill, rules) == Unmatched(ix, front, rules);
      }
    }
  }

  lemma {:induction false} MergedLength(base: seq<EventRecord>, ix: Index, backfill: seq<EventRecord>,
                                        rules: Rules)
    requires InRange(ix) && ix.merged == base
    ensures |MergeAll(ix, backfill, rules).merged| == |base| + |Unmatched(ix, backfill, rules)|
  {
    if backfill != [] {
      MergedLength(base, ix, backfill[..|backfill| - 1], rules);
    }
  }

  /** Nothing is merged into a place that is not there yet. */
  lemma {:induction false} NoneMergedAhead(base: seq<EventRecord>, ix: Index, backfill: seq<EventRecord>,
                                           rules: Rules, i: nat)
    requires InRange(ix) && ix.merged == base && i >= |base| + |Unmatched(ix, backfill, rules)|
    ensures MergedInto(ix, backfill, rules, i) == []
  {
    if backfill != [] {
      var front := backfill[..|backfill| - 1];
      NoneMergedAhead(base, ix, front, rules, i);
      MergedLength(base, ix, front, rules);
    }
  }

  lemma MergeOneAt(ix: Index, r: EventRecord, rules: Rules, i: nat)
    requires InRange(ix) && i < |MergeOne(ix, r, rules).merged|
    ensures MergeOne(ix, r, rules).merged[i] ==
            if i >= |ix.merged| then r
            else if FindMatch(rules, ix, r) == Some(i) then rules.merge(ix.merged[i], r) else ix.merged[i]
  {
  }

  lemma FoldedOneMore(r: EventRecord, into: seq<EventRecord>, last: EventRecord, rules: Rules)
    ensures Folded(r, into + [last], rules) == rules.merge(Folded(r, into, rules), last)
  {
    assert (into + [last])[..|into|] == into;
  }

  /** Each record is what came in at its place, with exactly its matches merged into it. */
  lemma {:induction false} MergedIs(base: seq<EventRecord>, ix: Index, backfill: seq<EventRecord>,
                                    rules: Rules, i: nat)
    requires InRange(ix) && ix.merged == base && i < |MergeAll(ix, backfill, rules).merged|
    ensures i < |base + Unmatched(ix, backfill, rules)|
    ensures MergeAll(ix, backfill, rules).merged[i] ==
            Folded((base + Unmatched(ix, backfill, rules))[i], MergedInto(ix, backfill, rules, i), rules)
  {
    MergedLength(base, ix, backfill, rules);
    if backfill != [] {
      var front, last := backfill[..|backfill| - 1], backfill[|backfill| - 1];
      var now := MergeAll(ix, front, rules);
      MergedLength(base, ix, front, rules);
      MergeOneAt(now, last, rules, i);
      if i < |now.merged| {
        MergedIs(base, ix, front, rules, i);
        StaysInPlace(base, Unmatched(ix, front, rules), last, i);
        FoldedOneMore((base + Unmatched(ix, front, rules))[i], MergedInto(ix, front, rules, i), last, rules);
        assert MergedInto(ix, front, rules, i) + [] == MergedInto(ix, front, rules, i);
        assert Unmatched(ix, front, rules) + [] == Unmatched(ix, front, rules);
      } else {
        NoneMergedAhead(base, ix, front, rules, i);
        ComesLast(base, Unmatched(ix, front, rules), last);
      }
    }
  }

  lemma StaysInPlace(base: seq<EventRecord>, added: seq<EventRecord>, last: EventRecord, i: nat)
    requires i < |base + added|
    ensures (base + (added + [last]))[i] == (base + added)[i]
  {
  }

  lemma ComesLast(base: seq<EventRecord>, added: seq<EventRecord>, last: EventRecord)
    ensures (base + (added + [last]))[|base| + |added|] == last
  {
  }

  /** The recovered records without a match: their non-empty keys differ from each other's and from every
      local key. */
  ghost predicate AppendsNewKeys(local: seq<EventRecord>, added: seq<EventRecord>, key: EventRecord -> string) {
    && (forall i, j :: 0 <= i < |local| && 0 <= j < |added| && key(added[j]) != "" ==> key(local[i]) != key(added[j]))
    && (forall i, j :: 0 <= i < j < |added| && key(added[j]) != "" ==> key(added[i]) != key(added[j]))
  }

  lemma NewKeyAppends(local: seq<EventRecord>, added: seq<EventRecord>, byKey: map<string, nat>,
                      key: EventRecord -> string, r: EventRecord)
    requires AppendsNewKeys(local, added, key) && Covers(local + added, byKey, key)
    requires key(r) != "" ==> key(r) !in byKey
    ensures AppendsNewKeys(local, added + [r], key)
  {
    var base, all := local + added, added + [r];
    assert forall i :: 0 <= i < |local| ==> base[i] == local[i];
    assert forall j :: 0 <= j < |added| ==> base[|local| + j] == added[j];
    forall i, j | 0 <= i < |local| && 0 <= j < |all| && key(all[j]) != ""
      ensures key(local[i]) != key(all[j])
    {
      assert key(base[i]) != "" ==> key(base[i]) in byKey;
    }
    forall i, j | 0 <= i < j < |all| && key(all[j]) != ""
      ensures key(all[i]) != key(all[j])
    {
      assert key(base[|local| + i]) != "" ==> key(base[|local| + i]) in byKey;
    }
  }

  lemma {:induction false} UnmatchedAreNew(local: seq<EventRecord>, backfill: seq<EventRecord>,
                                           rules: Rules)
    ensures var added := Unmatched(IndexLocal(rules, local), backfill, rules);
            AppendsNewKeys(local, added, rules.mergeKey) && AppendsNewKeys(local, added, rules.providerKey)
  {
    if backfill != [] {
      var front, last := backfill[..|backfill| - 1], backfill[|backfill| - 1];
      var ix := IndexLocal(rules, local);
      UnmatchedAreNew(local, front, rules);
      LocalCovers(rules, local);
      MergeCovers(local, ix, front, rules);
      var now := MergeAll(ix, front, rules);
      if FindMatch(rules, now, last) == None {
        NewKeyAppends(local, Unmatched(ix, front, rules), now.byKey, rules.mergeKey, last);
        NewKeyAppends(local, Unmatched(ix, front, rules), now.byProvider, rules.providerKey, last);
      } else {
        assert Unmatched(ix, backfill, rules) == Unmatched(ix, front, rules);
      }
    }
  }

  // ----- which record a recovered one is merged into -----

  /** The last record of `base` that has the key of `r`, if `r` has one. */
  ghost predicate IsLastWith(base: seq<EventRecord>, key: EventRecord -> string, r: EventRecord, i: nat) {
    && i < |base|
    && key(r) != ""
    && key(base[i]) == key(r)
    && forall j :: i < j < |base| ==> key(base[j]) != key(r)
  }

  /** The last record of the same provider key is taken, and where no record has it, the last of the same merge
      key; where none has that either, the record is new. */
  ghost predicate BelongsTo(base: seq<EventRecord>, rules: Rules, r: EventRecord, at: Option<nat>) {
    if at.Some? then
      || IsLastWith(base, rules.providerKey, r, at.value)
      || (!HasKeyOf(base, rules.providerKey, r) && IsLastWith(base, rules.mergeKey, r, at.value))
    else !HasKeyOf(base, rules.providerKey, r) && !HasKeyOf(base, rules.mergeKey, r)
  }

  ghost predicate HasKeyOf(base: seq<EventRecord>, key: EventRecord -> string, r: EventRecord) {
    key(r) != "" && exists i :: 0 <= i < |base| && key(base[i]) == key(r)
  }

  lemma LookupIs(base: seq<EventRecord>, byKey: map<string, nat>, key: EventRecord -> string, r: EventRecord)
    requires Covers(base, byKey, key) && key(r) != ""
    ensures key(r) in byKey <==> HasKeyOf(base, key, r)
    ensures key(r) in byKey ==> IsLastWith(base, key, r, byKey[key(r)])
  {
  }

  lemma MatchBelongs(rules: Rules, local: seq<EventRecord>, front: seq<EventRecord>, r: EventRecord)
    ensures var ix := MergeAll(IndexLocal(rules, local), front, rules);
            BelongsTo(local + Unmatched(IndexLocal(rules, local), front, rules), rules, r, FindMatch(rules, ix, r))
  {
    var start := IndexLocal(rules, local);
    var ix, base := MergeAll(start, front, rules), local + Unmatched(start, front, rules);
    LocalCovers(rules, local);
    MergeCovers(local, start, front, rules);
    if rules.providerKey(r) != "" {
      LookupIs(base, ix.byProvider, rules.providerKey, r);
    }
    if rules.mergeKey(r) != "" {
      LookupIs(base, ix.byKey, rules.mergeKey, r);
    }
  }

  // ----- what the keys say -----

  lemma NoShorterBeforeSharp(a: string, x: string, b: string, y: string)
    requires '#' !in x && a + "#" + x == b + "#" + y
    ensures |b| <= |a|
  {
    var key := a + "#" + x;
    assert forall i :: |a| < i < |key| ==> key[i] == x[i - |a| - 1] && key[i] != '#';
    assert key[|b|] == '#';
  }

  lemma SplitAtLastSharp(a: string, x: string, b: string, y: string)
    requires '#' !in x && '#' !in y && a + "#" + x == b + "#" + y
    ensures a == b && x == y
  {
    var key := a + "#" + x;
    NoShorterBeforeSharp(a, x, b, y);
    NoShorterBeforeSharp(b, y, a, x);
    assert key[..|a|] == a && key[..|a|] == b;
    assert key[|a| + 1..] == x && key[|a| + 1..] == y;
  }

  /** Provider keys agree exactly when the provider's record and its part do. */
  lemma ProviderKeyIff(a: EventRecord, b: EventRecord)
    requires a.providerRecordId != "" && '#' !in a.providerSubindex && '#' !in b.providerSubindex
    ensures ProviderKey(a) == ProviderKey(b) <==>
              a.providerRecordId == b.providerRecordId && a.providerSubindex == b.providerSubindex
    ensures ProviderKey(a) != ""
  {
    if ProviderKey(a) == ProviderKey(b) {
      assert b.providerRecordId != "";
      SplitAtLastSharp(a.providerRecordId, a.providerSubindex, b.providerRecordId, b.providerSubindex);
    }
  }

  predicate IsCall(r: EventRecord) {
    r.kind == "tool" && r.tool.Some? && r.tool.value.callId != ""
  }

  /** A tool call is over once it has succeeded or failed, or has any output, error or diff. */
  predicate HasEnded(t: Tool) {
    t.status in {"completed", "failed"} || |t.outputText| > 0 || |t.errorText| > 0 || t.diffs != 0
  }

  /** Two records of tool calls are merged exactly if they are of one call, both while it runs or both of its end. */
  lemma CallsMergeIff(a: EventRecord, b: EventRecord)
    requires IsCall(a) && IsCall(b)
    ensures MergeKey(a) != ""
    ensures MergeKey(a) == MergeKey(b) <==>
              a.tool.value.callId == b.tool.value.callId && (HasEnded(a.tool.value) <==> HasEnded(b.tool.value))
  {
    CallKeyParts(a);
    CallKeyParts(b);
    var key, other := MergeKey(a), MergeKey(b);
    if key == other {
      assert key[|key| - 1] == other[|other| - 1];
      assert (if HasEnded(a.tool.value) then 'l' else 'e') == (if HasEnded(b.tool.value) then 'l' else 'e');
    }
  }

  lemma CallKeyParts(r: EventRecord)
    requires IsCall(r)
    ensures var key, id, n := MergeKey(r), r.tool.value.callId, if HasEnded(r.tool.value) then 9 else 7;
            && |key| == 5 + |id| + n
            && key[5..5 + |id|] == id
            && key[|key| - 1] == (if HasEnded(r.tool.value) then 'l' else 'e')
            && key == "tool:" + id + (if HasEnded(r.tool.value) then ":terminal" else ":active")
  {
    var suffix := if HasEnded(r.tool.value) then ":terminal" else ":active";
    assert MergeKey(r) == "tool:" + r.tool.value.callId + suffix;
  }

  /** Collapsing keeps the words and nothing else. */
  lemma {:induction false} CollapsedIsWords(s: string)
    ensures CollapseWhitespace(s) == Joined(' ', WordsOf(IsSpaceChar, s))
    decreases |s|
  {
    if s != "" {
      if IsSpaceChar(s[0]) {
        CollapsedIsWords(s[1..]);
      } else {
        var n := WordLength(IsSpaceChar, s);
        CollapsedIsWords(s[n..]);
        var rest := WordsOf(IsSpaceChar, s[n..]);
        WordsOfAreWords(IsSpaceChar, s[n..]);
        assert ([s[..n]] + rest)[1..] == rest;
        JoinedIsEmpty(rest);
        if rest != [] {
          assert s[..n] + [' '] + Joined(' ', rest) == s[..n] + (" " + Joined(' ', rest));
        }
      }
    }
  }

  lemma JoinedIsEmpty(words: seq<string>)
    requires AreWords(IsSpaceChar, words)
    ensures Joined(' ', words) == "" <==> words == []
  {
  }

  lemma CollapsedSameIff(s: string, t: string)
    ensures CollapseWhitespace(s) == CollapseWhitespace(t) <==> WordsOf(IsSpaceChar, s) == WordsOf(IsSpaceChar, t)
  {
    CollapsedIsWords(s);
    CollapsedIsWords(t);
    WordsOfAreWords(IsSpaceChar, s);
    WordsOfAreWords(IsSpaceChar, t);
    WordsOfJoined(IsSpaceChar, ' ', WordsOf(IsSpaceChar, s));
    WordsOfJoined(IsSpaceChar, ' ', WordsOf(IsSpaceChar, t));
  }

  lemma TwoColons(a: string, b: string, c: string, x: string, y: string, z: string)
    requires ':' !in a && ':' !in b && ':' !in x && ':' !in y
    ensures a + ":" + b + ":" + c == x + ":" + y + ":" + z <==> a == x && b == y && c == z
  {
    assert a + ":" + b + ":" + c == a + [':'] + (b + [':'] + c);
    assert x + ":" + y + ":" + z == x + [':'] + (y + [':'] + z);
    if a + ":" + b + ":" + c == x + ":" + y + ":" + z {
      SplitsAtFirst(':', a, b + [':'] + c, x, y + [':'] + z);
      SplitsAtFirst(':', b, c, y, z);
    }
  }

  lemma BehindSame(prefix: string, s: string, t: string)
    ensures prefix + s == prefix + t <==> s == t
  {
    assert (prefix + s)[|prefix|..] == s && (prefix + t)[|prefix|..] == t;
  }

  predicate IsMessage(r: EventRecord) {
    r.kind == "message" && r.message.Some?
  }

  predicate HasIds(m: Message) {
    |m.messageId| + |m.partId| > 0
  }

  lemma MessageKeyIs(r: EventRecord)
    requires IsMessage(r)
    ensures var m := r.message.value;
            MergeKey(r) == "message:" + (if HasIds(m) then m.role + ":" + m.messageId + ":" + m.partId
                                         else m.role + ":" + m.typ + ":" + CollapseWhitespace(m.text))
  {
    var m := r.message.value;
    if HasIds(m) {
      assert "message:" + m.role + ":" + m.messageId + ":" + m.partId
          == "message:" + (m.role + ":" + m.messageId + ":" + m.partId);
    } else {
      assert "message:" + m.role + ":" + m.typ + ":" + CollapseWhitespace(m.text)
          == "message:" + (m.role + ":" + m.typ + ":" + CollapseWhitespace(m.text));
    }
  }

  /** Two messages with ids are merged exactly if role and ids agree, and two without if role, type and words do. */
  lemma MessagesMergeIff(a: EventRecord, b: EventRecord)
    requires IsMessage(a) && IsMessage(b) && (HasIds(a.message.value) <==> HasIds(b.message.value))
    requires ':' !in a.message.value.role && ':' !in b.message.value.role
    requires ':' !in a.message.value.messageId && ':' !in b.message.value.messageId
    requires ':' !in a.message.value.typ && ':' !in b.message.value.typ
    ensures var m, n := a.message.value, b.message.value;
            && MergeKey(a) != ""
            && (MergeKey(a) == MergeKey(b) <==>
                  && m.role == n.role
                  && if HasIds(m) then m.messageId == n.messageId && m.partId == n.partId
                     else m.typ == n.typ && WordsOf(IsSpaceChar, m.text) == WordsOf(IsSpaceChar, n.text))
  {
    var m, n := a.message.value, b.message.value;
    MessageKeyIs(a);
    MessageKeyIs(b);
    if HasIds(m) {
      BehindSame("message:", m.role + ":" + m.messageId + ":" + m.partId, n.role + ":" + n.messageId + ":" + n.partId);
      TwoColons(m.role, m.messageId, m.partId, n.role, n.messageId, n.partId);
    } else {
      var s, t := CollapseWhitespace(m.text), CollapseWhitespace(n.text);
      BehindSame("message:", m.role + ":" + m.typ + ":" + s, n.role + ":" + n.typ + ":" + t);
      TwoColons(m.role, m.typ, s, n.role, n.typ, t);
      CollapsedSameIff(m.text, n.text);
    }
  }

  predicate IsNamelessCall(r: EventRecord) {
    r.kind == "tool" && r.tool.Some? && |r.tool.value.callId| == 0
  }

  /** Tool calls without an id are merged exactly if their kinds, names and the words of their inputs agree. */
  lemma NamelessCallsMergeIff(a: EventRecord, b: EventRecord)
    requires IsNamelessCall(a) && IsNamelessCall(b)
    requires ':' !in a.tool.value.kind && ':' !in b.tool.value.kind
    requires ':' !in a.tool.value.name && ':' !in b.tool.value.name
    ensures var t, u := a.tool.value, b.tool.value;
            && MergeKey(a) != ""
            && (MergeKey(a) == MergeKey(b) <==>
                  && t.kind == u.kind
                  && t.name == u.name
                  && WordsOf(IsSpaceChar, t.inputSummary) == WordsOf(IsSpaceChar, u.inputSummary))
  {
    var t, u := a.tool.value, b.tool.value;
    var s, v := CollapseWhitespace(t.inputSummary), CollapseWhitespace(u.inputSummary);
    assert MergeKey(a) == "tool:" + (t.kind + ":" + t.name + ":" + s);
    assert MergeKey(b) == "tool:" + (u.kind + ":" + u.name + ":" + v);
    BehindSame("tool:", t.kind + ":" + t.name + ":" + s, u.kind + ":" + u.name + ":" + v);
    TwoColons(t.kind, t.name, s, u.kind, u.name, v);
    CollapsedSameIff(t.inputSummary, u.inputSummary);
  }

  /** Plans are merged by id, all usage records with each other, and raw ones by their text. */
  lemma OtherKindsMergeIff(a: EventRecord, b: EventRecord)
    requires a.kind == b.kind
    ensures a.kind == "plan" && a.planId.Some? && b.planId.Some? ==>
              MergeKey(a) != "" && (MergeKey(a) == MergeKey(b) <==> a.planId == b.planId)
    ensures a.kind == "usage" ==> MergeKey(a) == MergeKey(b) != ""
    ensures a.kind == "raw" && |a.raw| > 0 ==> MergeKey(a) != "" && (MergeKey(a) == MergeKey(b) <==> a.raw == b.raw)
  {
    if a.kind == "plan" && a.planId.Some? && b.planId.Some? {
      BehindSame("plan:", a.planId.value, b.planId.value);
    } else if a.kind == "raw" {
      BehindSame("raw:", a.raw, b.raw);
    }
  }

  /** A record without the part that its kind calls for has no key. */
  lemma KeylessIff(r: EventRecord)
    ensures MergeKey(r) == "" <==>
              !(|| IsMessage(r)
                || (r.kind == "tool" && r.tool.Some?)
                || (r.kind == "plan" && r.planId.Some?)
                || r.kind == "usage"
                || (r.kind == "raw" && |r.raw| > 0))
  {
  }

  function FirstLetter(kind: string): string {
    if kind == "message" then "m"
    else if kind == "tool" then "t"
    else if kind == "plan" then "p"
    else if kind == "usage" then "u"
    else if kind == "raw" then "r"
    else ""
  }

  lemma KeyStarts(r: EventRecord)
    ensures MergeKey(r) != "" ==> FirstLetter(r.kind) != "" && MergeKey(r)[..1] == FirstLetter(r.kind)
  {
    if r.kind == "message" && r.message.Some? {
    } else if r.kind == "tool" {
    } else if r.kind == "plan" {
    } else if r.kind == "usage" {
    } else if r.kind == "raw" {
    }
  }

  /** Records of different kinds have different keys. */
  lemma KindsKeptApart(a: EventRecord, b: EventRecord)
    requires MergeKey(a) == MergeKey(b) != ""
    ensures a.kind == b.kind
  {
    KeyStarts(a);
    KeyStarts(b);
  }

  // ----- the sorted result -----

  /** The order of the result: by the time of the event, then its number, then when it was recorded, then its id. */
  lemma RecordLeIff(a: EventRecord, b: EventRecord)
    ensures RecordLe(a, b) <==>
              || a.emittedAt < b.emittedAt
              || (a.emittedAt == b.emittedAt && a.seqNum < b.seqNum)
              || (a.emittedAt == b.emittedAt && a.seqNum == b.seqNum && a.recordedAt < b.recordedAt)
              || (a.emittedAt == b.emittedAt && a.seqNum == b.seqNum && a.recordedAt == b.recordedAt
                  && (a.eventId <= b.eventId || exists k :: DiffersAt(a.eventId, b.eventId, k)))
  {
    StrLeIff(a.eventId, b.eventId);
  }

  lemma RecordLeIsOrder()
    ensures IsOrder(RecordLe)
  {
    forall a, b
      ensures RecordLe(a, b) || RecordLe(b, a)
    {
      StrLeTotal(a.eventId, b.eventId);
    }
    forall a, b, c | RecordLe(a, b) && RecordLe(b, c)
      ensures RecordLe(a, c)
    {
      if StrLe(a.eventId, b.eventId) && StrLe(b.eventId, c.eventId) {
        StrLeTransitive(a.eventId, b.eventId, c.eventId);
      }
    }
  }

  /** The merge loses no local record and adds exactly the recovered ones that match nothing before them;
      the result is these records, with their matches merged in, in sorted order. */
  lemma MergeKeepsAll(local: seq<EventRecord>, backfill: seq<EventRecord>,
                      rules: Rules)
    ensures var ix := IndexLocal(rules, local);
            var added := Unmatched(ix, backfill, rules);
            var merged := MergeAll(ix, backfill, rules).merged;
            var records := Merged(local, backfill, rules);
            && |records| == |local| + |added|
            && SortedBy(RecordLe, records)
            && multiset(records) == multiset(merged)
            && |merged| == |local + added|
            && (forall i :: 0 <= i < |merged| ==>
                  merged[i] == Folded((local + added)[i], MergedInto(ix, backfill, rules, i), rules))
            && AppendsNewKeys(local, added, rules.mergeKey)
            && AppendsNewKeys(local, added, rules.providerKey)
  {
    var ix := IndexLocal(rules, local);
    MergedLength(local, ix, backfill, rules);
    UnmatchedAreNew(local, backfill, rules);
    var merged := MergeAll(ix, backfill, rules).merged;
    forall i | 0 <= i < |merged|
      ensures merged[i]
              == Folded((local + Unmatched(ix, backfill, rules))[i], MergedInto(ix, backfill, rules, i), rules)
    {
      MergedIs(local, ix, backfill, rules, i);
    }
    RecordLeIsOrder();
    SortKeeps(RecordLe, merged);
    SortSorts(RecordLe, merged);
  }

  /** Records that are equal for the order come out in the order in which they went in. */
  lemma EqualRecordsKeepOrder(local: seq<EventRecord>, backfill: seq<EventRecord>, rules: Rules, r: EventRecord)
    ensures var same := (x: EventRecord) => RecordLe(x, r) && RecordLe(r, x);
            Filter(same, Merged(local, backfill, rules))
            == Filter(same, MergeAll(IndexLocal(rules, local), backfill, rules).merged)
  {
    var same := (x: EventRecord) => RecordLe(x, r) && RecordLe(r, x);
    RecordLeIsOrder();
    SortIsStable(RecordLe, MergeAll(IndexLocal(rules, local), backfill, rules).merged, same);
  }

  predicate SharesKey(rules: Rules, a: EventRecord, b: EventRecord) {
    || (rules.providerKey(b) != "" && rules.providerKey(a) == rules.providerKey(b))
    || (rules.mergeKey(b) != "" && rules.mergeKey(a) == rules.mergeKey(b))
  }

  /** A record is merged only into one with which it shares a key. */
  lemma MatchesShareAKey(local: seq<EventRecord>, backfill: seq<EventRecord>, rules: Rules, i: nat, r: EventRecord)
    requires r in MergedInto(IndexLocal(rules, local), backfill, rules, i)
    ensures var base := local + Unmatched(IndexLocal(rules, local), backfill, rules);
            i < |base| && SharesKey(rules, base[i], r)
  {
    LocalCovers(rules, local);
    SharesInto(local, IndexLocal(rules, local), backfill, rules, i, r);
  }

  lemma {:induction false} SharesInto(local: seq<EventRecord>, ix: Index, backfill: seq<EventRecord>, rules: Rules,
                                      i: nat, r: EventRecord)
    requires InRange(ix) && IndexCovers(rules, local, ix) && r in MergedInto(ix, backfill, rules, i)
    ensures var base := local + Unmatched(ix, backfill, rules); i < |base| && SharesKey(rules, base[i], r)
  {
    var front, last := backfill[..|backfill| - 1], backfill[|backfill| - 1];
    var base := local + Unmatched(ix, front, rules);
    if r in MergedInto(ix, front, rules, i) {
      SharesInto(local, ix, front, rules, i, r);
    } else {
      MergeCovers(local, ix, front, rules);
      assert FindMatch(rules, MergeAll(ix, front, rules), last) == Some(i) && r == last;
      assert i < |base| && SharesKey(rules, base[i], r);
    }
    assert (local + Unmatched(ix, backfill, rules))[i] == base[i];
  }
}
