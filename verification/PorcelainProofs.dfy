/** Parsing what git prints gives back what it printed. */
module PorcelainProofs {
  import opened Options
  import opened ConfigValues
  import opened Framing
  import opened Words
  import opened FramingProofs
  import opened Porcelain

  /** One line of the output: a header or a file.  `fields` are those between the codes and the path. */
  datatype Entry =
    | OidLine(value: Bytes)
    | HeadLine(value: Bytes)
    | DetachedLine
    | UpstreamLine(value: Bytes)
    | CountsLine(aheadBy: nat, behindBy: nat)
    | OtherLine(value: Bytes)
    | OrdinaryFile(xy: Bytes, fields: seq<Bytes>, path: Bytes)
    | RenamedFile(xy: Bytes, fields: seq<Bytes>, path: Bytes, orig: Bytes)
    | UnmergedFile(xy: Bytes, fields: seq<Bytes>, path: Bytes)
    | UntrackedFile(path: Bytes)
    | IgnoredFile(path: Bytes)

  // ----- printing -----

  /** Fields joined by spaces, with the path last. */
  function Join(fields: seq<Bytes>, path: Bytes): Bytes {
    if fields == [] then path else fields[0] + [SPACE] + Join(fields[1..], path)
  }

  function CountsText(aheadBy: nat, behindBy: nat): Bytes {
    ([PLUS] + Decimal(aheadBy)) + [SPACE] + ([MINUS] + Decimal(behindBy))
  }

  function RecordOf(e: Entry): Bytes {
    match e
    case OidLine(v) => HASH + (OID + v)
    case HeadLine(v) => HASH + (HEAD + v)
    case DetachedLine => HASH + (HEAD + DETACHED)
    case UpstreamLine(v) => HASH + (UPSTREAM + v)
    case CountsLine(a, b) => HASH + (AHEAD_BEHIND + CountsText(a, b))
    case OtherLine(v) => HASH + v
    case OrdinaryFile(xy, fields, path) => [49, SPACE] + Join([xy] + fields, path)
    case RenamedFile(xy, fields, path, _) => [50, SPACE] + Join([xy] + fields, path)
    case UnmergedFile(xy, fields, path) => [117, SPACE] + Join([xy] + fields, path)
    case UntrackedFile(path) => [63, SPACE] + path
    case IgnoredFile(path) => [33, SPACE] + path
  }

  function Print(e: Entry): Bytes {
    RecordOf(e) + [NUL] + (if e.RenamedFile? then e.orig + [NUL] else [])
  }

  function PrintAll(entries: seq<Entry>): Bytes {
    if entries == [] then [] else Print(entries[0]) + PrintAll(entries[1..])
  }

  /** The spaces in a path and anything else but NUL are allowed. */
  predicate PathOk(path: Bytes) {
    path != [] && NUL !in path
  }

  predicate WordOk(word: Bytes) {
    SPACE !in word && NUL !in word
  }

  predicate FieldsOk(xy: Bytes, fields: seq<Bytes>, n: nat) {
    |xy| == 2 && WordOk(xy) && |fields| == n && forall i :: 0 <= i < |fields| ==> WordOk(fields[i])
  }

  predicate ValueOk(v: Bytes) {
    && v != []
    && NUL !in v
    && !IsSpace(v[0])
    && !IsSpace(v[|v| - 1])
  }

  predicate EntryOk(e: Entry) {
    match e
    case OidLine(v) => ValueOk(v)
    case HeadLine(v) => ValueOk(v) && v != DETACHED
    case DetachedLine => true
    case UpstreamLine(v) => ValueOk(v)
    case CountsLine(a, b) => a <= MAX_INT64 && b <= MAX_INT64
    case OtherLine(v) => NUL !in v && !(OID <= v) && !(HEAD <= v) && !(UPSTREAM <= v) && !(AHEAD_BEHIND <= v)
    case OrdinaryFile(xy, fields, path) => FieldsOk(xy, fields, 6) && PathOk(path)
    case RenamedFile(xy, fields, path, orig) => FieldsOk(xy, fields, 7) && PathOk(path) && PathOk(orig)
    case UnmergedFile(xy, fields, path) => FieldsOk(xy, fields, 8) && PathOk(path)
    case UntrackedFile(path) => PathOk(path)
    case IgnoredFile(path) => PathOk(path)
  }

  // ----- what the parse should give -----

  /** The code letter says that the file changed on that side. */
  predicate Changed(code: Byte) {
    code != 46 && code != SPACE && code != 63
  }

  function OrigOf(e: Entry): string {
    if e.RenamedFile? then Text(e.orig) else ""
  }

  predicate IsTracked(e: Entry) {
    e.OrdinaryFile? || e.RenamedFile?
  }

  predicate AllOk(entries: seq<Entry>) {
    forall i :: 0 <= i < |entries| ==> EntryOk(entries[i])
  }

  function StagedBy(e: Entry): seq<FileChange>
    requires EntryOk(e)
  {
    if IsTracked(e) && Changed(e.xy[0]) then [FileChange(Text(e.path), OrigOf(e), Text(e.xy), Staged)] else []
  }

  function UnstagedBy(e: Entry): seq<FileChange>
    requires EntryOk(e)
  {
    if IsTracked(e) && Changed(e.xy[1]) then [FileChange(Text(e.path), OrigOf(e), Text(e.xy), Unstaged)] else []
  }

  function UntrackedBy(e: Entry): seq<FileChange> {
    if e.UntrackedFile? then [FileChange(Text(e.path), "", "??", Untracked)] else []
  }

  function ConflictedBy(e: Entry): seq<FileChange> {
    if e.UnmergedFile? then [FileChange(Text(e.path), "", Text(e.xy), Conflicted)] else []
  }

  function InfoBy(info: BranchInfo, e: Entry): BranchInfo {
    match e
    case OidLine(v) => info.(head := Text(v))
    case HeadLine(v) => info.(detached := false, branch := Text(v))
    case DetachedLine => info.(detached := true, branch := "")
    case UpstreamLine(v) => info.(upstream := Text(v))
    case CountsLine(a, b) => info.(ahead := a, behind := b)
    case _ => info
  }

  /** The files of each bucket, in the order of the entries. */
  function StagedOf(entries: seq<Entry>): seq<FileChange>
    requires AllOk(entries)
  {
    if entries == [] then [] else StagedBy(entries[0]) + StagedOf(entries[1..])
  }

  function UnstagedOf(entries: seq<Entry>): seq<FileChange>
    requires AllOk(entries)
  {
    if entries == [] then [] else UnstagedBy(entries[0]) + UnstagedOf(entries[1..])
  }

  function UntrackedOf(entries: seq<Entry>): seq<FileChange> {
    if entries == [] then [] else UntrackedBy(entries[0]) + UntrackedOf(entries[1..])
  }

  function ConflictedOf(entries: seq<Entry>): seq<FileChange> {
    if entries == [] then [] else ConflictedBy(entries[0]) + ConflictedOf(entries[1..])
  }

  /** Each fact about the branch is what the last header about it says. */
  function InfoOf(info: BranchInfo, entries: seq<Entry>): BranchInfo
    decreases |entries|
  {
    if entries == [] then info else InfoOf(InfoBy(info, entries[0]), entries[1..])
  }

  function Expected(entries: seq<Entry>): ParsedStatus
    requires AllOk(entries)
  {
    ParsedStatus(InfoOf(NO_INFO, entries), StagedOf(entries), UnstagedOf(entries), UntrackedOf(entries),
                 ConflictedOf(entries))
  }

  // ----- the main results -----

  /** Whatever git prints for a list of well-formed headers and files, the parser puts each file with its
      paths into the right buckets, in order, and takes each header's value. */
  lemma ParseOfPrint(entries: seq<Entry>)
    requires AllOk(entries)
    ensures Parse(PrintAll(entries)) == Ok(Expected(entries))
  {
    EntriesRead(entries, Porcelain.NOTHING);
    AddedAllIs(entries, Porcelain.NOTHING);
    var all := AddedAll(Porcelain.NOTHING, entries);
    assert all.staged == StagedOf(entries) && all.unstaged == UnstagedOf(entries);
    assert all.untracked == UntrackedOf(entries) && all.conflicted == ConflictedOf(entries);
  }

  /** A record of one byte, where the kind calls for a field, stands at `k`, and the parser gets there. */
  predicate PanicsAt(records: seq<Bytes>, ps: ParsedStatus, k: nat) {
    && k < |records|
    && ParseRecords(records[..k], ps).Ok?
    && (records[k] == [49] || records[k] == [117] || (records[k] == [50] && k + 1 < |records|))
  }

  ghost predicate PanicsSomewhere(records: seq<Bytes>, ps: ParsedStatus) {
    exists k: nat :: PanicsAt(records, ps, k)
  }

  /** When the parser panics. */
  lemma PanicsIff(raw: Bytes)
    ensures Parse(raw) == Outcome.Panics <==> PanicsSomewhere(Records(raw), Porcelain.NOTHING)
  {
    RecordsPanicIff(Records(raw), Porcelain.NOTHING);
  }

  /** The one byte that tags an ordinary file, and nothing behind it. */
  lemma OneByteRecordPanics()
    ensures Parse([49]) == Outcome.Panics
  {
    var raw: Bytes := [49];
    IndexOfNone(raw, NUL);
    assert Records(raw) == [raw] && Records(raw)[..0] == [];
    assert PanicsAt(Records(raw), Porcelain.NOTHING, 0);
    PanicsIff(raw);
  }

  // ----- when it fails -----

  function Blanks(s: Bytes): nat {
    if s == [] then 0 else (if s[0] == SPACE then 1 else 0) + Blanks(s[1..])
  }

  /** A file's record with too few blanks for the fields of its kind. */
  predicate LacksFields(rec: Bytes) {
    && |rec| >= 2
    && ((rec[0] == 49 && Blanks(rec[2..]) < 7)
        || (rec[0] == 50 && Blanks(rec[2..]) < 8)
        || (rec[0] == 117 && Blanks(rec[2..]) < 9))
  }

  /** A record that lacks fields, or a rename without its second record, stands at `k`, and the parser gets there. */
  predicate FailsAt(records: seq<Bytes>, ps: ParsedStatus, k: nat) {
    && k < |records|
    && ParseRecords(records[..k], ps).Ok?
    && (LacksFields(records[k]) || (records[k] != [] && records[k][0] == 50 && k + 1 == |records|))
  }

  ghost predicate FailsSomewhere(records: seq<Bytes>, ps: ParsedStatus) {
    exists k: nat :: FailsAt(records, ps, k)
  }

  /** When the parser gives an error. */
  lemma FailsIff(raw: Bytes)
    ensures Parse(raw) == Outcome.Failed <==> FailsSomewhere(Records(raw), Porcelain.NOTHING)
  {
    RecordsFailIff(Records(raw), Porcelain.NOTHING);
  }

  /** What is passed over: empty records, untracked files without a path, and records of other kinds. */
  lemma PassedOver(rec: Bytes, more: seq<Bytes>, ps: ParsedStatus)
    requires rec != [] ==> rec[0] !in {35, 49, 50, 117, 63} || (rec[0] == 63 && |rec| <= 2)
    ensures ParseRecords([rec] + more, ps) == ParseRecords(more, ps)
  {
    assert ([rec] + more)[1..] == more;
  }

  // ----- the texts -----

  lemma TextAppend(a: Bytes, b: Bytes)
    ensures Text(a + b) == Text(a) + Text(b)
  {
  }

  lemma PrefixThen(prefix: Bytes, v: Bytes)
    ensures Text(HASH + (prefix + v)) == "# " + (Text(prefix) + Text(v))
  {
    TextAppend(HASH, prefix + v);
    TextAppend(prefix, v);
    assert Text(HASH) == "# ";
  }

  lemma PrefixTexts()
    ensures Text(OID) == "branch.oid " && Text(HEAD) == "branch.head "
    ensures Text(UPSTREAM) == "branch.upstream " && Text(AHEAD_BEHIND) == "branch.ab " && Text(DETACHED) == "(detached)"
  {
  }

  /** The headers as git prints them. */
  lemma HeaderTexts(v: Bytes, a: nat, b: nat)
    ensures Text(HASH + (OID + v)) == "# " + ("branch.oid " + Text(v))
    ensures Text(HASH + (HEAD + v)) == "# " + ("branch.head " + Text(v))
    ensures Text(HASH + (HEAD + DETACHED)) == "# " + ("branch.head " + "(detached)")
    ensures Text(HASH + (UPSTREAM + v)) == "# " + ("branch.upstream " + Text(v))
    ensures Text(HASH + (AHEAD_BEHIND + CountsText(a, b)))
            == "# " + ("branch.ab " + ("+" + Text(Decimal(a)) + " " + ("-" + Text(Decimal(b)))))
  {
    PrefixTexts();
    PrefixThen(OID, v);
    PrefixThen(HEAD, v);
    PrefixThen(HEAD, DETACHED);
    PrefixThen(UPSTREAM, v);
    PrefixThen(AHEAD_BEHIND, CountsText(a, b));
    CountsTextIs(a, b);
  }

  lemma CountsTextIs(a: nat, b: nat)
    ensures Text(CountsText(a, b)) == "+" + Text(Decimal(a)) + " " + ("-" + Text(Decimal(b)))
  {
    var plus, minus := [PLUS] + Decimal(a), [MINUS] + Decimal(b);
    TextAppend([PLUS], Decimal(a));
    TextAppend([MINUS], Decimal(b));
    TextAppend(plus, [SPACE]);
    TextAppend(plus + [SPACE], minus);
    assert Text([PLUS]) == "+" && Text([MINUS]) == "-" && Text([SPACE]) == " ";
  }

  /** The tag with which git prints an entry. */
  function TagOf(e: Entry): char {
    match e
    case OrdinaryFile(_, _, _) => '1'
    case RenamedFile(_, _, _, _) => '2'
    case UnmergedFile(_, _, _) => 'u'
    case UntrackedFile(_) => '?'
    case IgnoredFile(_) => '!'
    case _ => '#'
  }

  lemma Tagged(e: Entry)
    ensures |RecordOf(e)| >= 2 && RecordOf(e)[0] as char == TagOf(e) && RecordOf(e)[1] as char == ' '
  {
  }

  // ----- records and fields -----

  lemma RecordsStep(r: Bytes, more: Bytes)
    requires NUL !in r
    ensures Records(r + [NUL] + more) == [r] + Records(more)
  {
    var raw := r + [NUL] + more;
    assert raw[..|r|] == r && raw[|r| + 1..] == more;
    IndexOfAt(raw, NUL, |r|);
  }

  lemma FirstField(f: Bytes, rest: Bytes)
    requires SPACE !in f
    ensures var body := f + [SPACE] + rest;
            IndexOf(body, SPACE) == |f| < |body| && body[..|f|] == f && body[|f| + 1..] == rest
  {
    var body := f + [SPACE] + rest;
    assert body[..|f|] == f;
    IndexOfAt(body, SPACE, |f|);
  }

  lemma OneMoreOut(out: seq<Bytes>, fields: seq<Bytes>)
    requires fields != []
    ensures out + [fields[0]] + fields[1..] == out + fields
  {
  }

  lemma {:induction false} JoinSplits(out: seq<Bytes>, fields: seq<Bytes>, path: Bytes)
    requires forall i :: 0 <= i < |fields| ==> SPACE !in fields[i]
    ensures SplitFrom(out, Join(fields, path), |fields| + 1) == out + fields + [path]
    decreases |fields|
  {
    if fields == [] {
      assert out + fields == out;
    } else {
      FirstField(fields[0], Join(fields[1..], path));
      JoinSplits(out + [fields[0]], fields[1..], path);
      OneMoreOut(out, fields);
    }
  }

  lemma {:induction false} JoinHasNoNul(fields: seq<Bytes>, path: Bytes)
    requires NUL !in path && forall i :: 0 <= i < |fields| ==> WordOk(fields[i])
    ensures NUL !in Join(fields, path)
  {
    if fields != [] {
      JoinHasNoNul(fields[1..], path);
    }
  }

  lemma FileFields(xy: Bytes, fields: seq<Bytes>, path: Bytes, n: nat, tag: Byte)
    requires FieldsOk(xy, fields, n) && PathOk(path) && tag != NUL
    ensures var rec := [tag, SPACE] + Join([xy] + fields, path);
            && |rec| >= 2
            && rec[0] == tag
            && NUL !in rec
            && var split := SplitFields(rec[2..], n + 2);
            |split| == n + 2 && split[0] == xy && split[n + 1] == path
  {
    var all := [xy] + fields;
    assert forall i :: 0 <= i < |all| ==> WordOk(all[i]);
    JoinSplits([], all, path);
    JoinHasNoNul(all, path);
    assert ([tag, SPACE] + Join(all, path))[2..] == Join(all, path);
    assert [] + all == all;
  }

  // ----- headers -----

  /** The eighth letter tells the headers apart. */
  lemma HeadersDiffer(body: Bytes)
    ensures OID <= body ==> |body| > 7 && body[7] == 111
    ensures HEAD <= body ==> |body| > 7 && body[7] == 104
    ensures UPSTREAM <= body ==> |body| > 7 && body[7] == 117
    ensures AHEAD_BEHIND <= body ==> |body| > 7 && body[7] == 97
  {
    assert OID[7] == 111 && HEAD[7] == 104 && UPSTREAM[7] == 117 && AHEAD_BEHIND[7] == 97;
  }

  lemma BodyOf(prefix: Bytes, v: Bytes)
    ensures var rec := HASH + (prefix + v);
            HASH <= rec && rec[2..] == prefix + v && prefix <= prefix + v && (prefix + v)[|prefix|..] == v
  {
  }

  lemma CountsFields(a: nat, b: nat)
    ensures Fields(CountsText(a, b)) == [[PLUS] + Decimal(a), [MINUS] + Decimal(b)]
    ensures ValueOk(CountsText(a, b))
  {
    var u, v := [PLUS] + Decimal(a), [MINUS] + Decimal(b);
    var s := u + [SPACE] + v;
    assert u + [SPACE] + v == u + ([SPACE] + v);
    WordLengthIs(IsSpace, u, [SPACE] + v);
    assert s[..|u|] == u && s[|u|..] == [SPACE] + v;
    assert ([SPACE] + v)[1..] == v;
    WordLengthIs(IsSpace, v, []);
    assert v + [] == v && v[..|v|] == v && v[|v|..] == [];
    assert Fields(v) == [v] + Fields([]);
    assert Fields([SPACE] + v) == Fields(v);
    assert s[0] == PLUS;
    assert forall i :: 0 <= i < |s| ==> s[i] != NUL;
  }

  lemma CountsRead(info: BranchInfo, a: nat, b: nat)
    requires a <= MAX_INT64 && b <= MAX_INT64
    ensures NoteCounts(info, [[PLUS] + Decimal(a), [MINUS] + Decimal(b)]) == info.(ahead := a, behind := b)
  {
    var u, v := [PLUS] + Decimal(a), [MINUS] + Decimal(b);
    NumberIsRead(a);
    NumberIsRead(b);
    assert u[1..] == Decimal(a) && v[1..] == Decimal(b);
    var one: seq<Bytes>, two: seq<Bytes> := [u], [u, v];
    assert two[..1] == one && one[..0] == [];
    assert NoteCounts(info, one) == info.(ahead := a);
  }

  predicate IsHeader(e: Entry) {
    e.OidLine? || e.HeadLine? || e.DetachedLine? || e.UpstreamLine? || e.CountsLine? || e.OtherLine?
  }

  lemma DetachedValue()
    ensures ValueOk(DETACHED)
  {
    assert DETACHED[0] == 40 && DETACHED[9] == 41;
    forall i | 0 <= i < |DETACHED|
      ensures DETACHED[i] != NUL
    {
      assert "(detached)"[i] != 0 as char;
    }
  }

  lemma TrimValue(v: Bytes)
    requires ValueOk(v)
    ensures Trim(v) == v
  {
  }

  lemma OidRead(v: Bytes, info: BranchInfo)
    requires ValueOk(v)
    ensures ParseHeader(HASH + (OID + v), info) == info.(head := Text(v))
  {
    BodyOf(OID, v);
    TrimValue(v);
  }

  lemma HeadRead(v: Bytes, info: BranchInfo)
    requires ValueOk(v)
    ensures ParseHeader(HASH + (HEAD + v), info)
            == if v == DETACHED then info.(detached := true, branch := "")
               else info.(detached := false, branch := Text(v))
  {
    BodyOf(HEAD, v);
    HeadersDiffer(HEAD + v);
    TrimValue(v);
  }

  lemma UpstreamRead(v: Bytes, info: BranchInfo)
    requires ValueOk(v)
    ensures ParseHeader(HASH + (UPSTREAM + v), info) == info.(upstream := Text(v))
  {
    BodyOf(UPSTREAM, v);
    HeadersDiffer(UPSTREAM + v);
    TrimValue(v);
  }

  lemma CountsLineRead(a: nat, b: nat, info: BranchInfo)
    requires a <= MAX_INT64 && b <= MAX_INT64
    ensures ParseHeader(HASH + (AHEAD_BEHIND + CountsText(a, b)), info) == info.(ahead := a, behind := b)
  {
    var v := CountsText(a, b);
    BodyOf(AHEAD_BEHIND, v);
    HeadersDiffer(AHEAD_BEHIND + v);
    CountsFields(a, b);
    TrimValue(v);
    CountsRead(info, a, b);
  }

  lemma HeaderRead(e: Entry, info: BranchInfo)
    requires EntryOk(e) && IsHeader(e)
    ensures ParseHeader(RecordOf(e), info) == InfoBy(info, e)
  {
    match e {
      case OidLine(v) =>
        OidRead(v, info);
      case HeadLine(v) =>
        HeadRead(v, info);
      case DetachedLine =>
        DetachedValue();
        HeadRead(DETACHED, info);
      case UpstreamLine(v) =>
        UpstreamRead(v, info);
      case CountsLine(a, b) =>
        CountsLineRead(a, b, info);
      case OtherLine(v) =>
        assert (HASH + v)[2..] == v;
    }
  }

  // ----- one entry after the other -----

  /** What one entry adds to the status. */
  function Added(ps: ParsedStatus, e: Entry): ParsedStatus
    requires EntryOk(e)
  {
    ParsedStatus(InfoBy(ps.info, e), ps.staged + StagedBy(e), ps.unstaged + UnstagedBy(e),
                 ps.untracked + UntrackedBy(e), ps.conflicted + ConflictedBy(e))
  }

  function RecordsOf(e: Entry): seq<Bytes> {
    if e.RenamedFile? then [RecordOf(e), e.orig] else [RecordOf(e)]
  }

  lemma TrackedAdds(ps: ParsedStatus, e: Entry)
    requires EntryOk(e) && IsTracked(e)
    ensures AppendTracked(ps, Text(e.xy), Text(e.path), OrigOf(e)) == Added(ps, e)
  {
    var codes := Text(e.xy);
    assert codes[0] == e.xy[0] as char && codes[1] == e.xy[1] as char;
    assert IsChange(codes[0]) == Changed(e.xy[0]) && IsChange(codes[1]) == Changed(e.xy[1]);
  }

  lemma TrackedRead(ps: ParsedStatus, e: Entry)
    requires EntryOk(e) && IsTracked(e)
    ensures ParseTracked(RecordOf(e), OrigOf(e), ps) == Ok(Added(ps, e))
  {
    FileRead(ps, if e.RenamedFile? then 50 else 49, e.xy, e.fields, e.path, OrigOf(e));
    TrackedAdds(ps, e);
  }

  lemma FileRead(ps: ParsedStatus, tag: Byte, xy: Bytes, fields: seq<Bytes>, path: Bytes, orig: string)
    requires tag == 49 || tag == 50
    requires FieldsOk(xy, fields, FieldCount(tag) - 2) && PathOk(path)
    ensures ParseTracked([tag, SPACE] + Join([xy] + fields, path), orig, ps)
            == Ok(AppendTracked(ps, Text(xy), Text(path), orig))
  {
    FileFields(xy, fields, path, |fields|, tag);
    TrackedOf(ps, [tag, SPACE] + Join([xy] + fields, path), xy, path, orig, |fields| + 2);
  }

  lemma TrackedOf(ps: ParsedStatus, rec: Bytes, xy: Bytes, path: Bytes, orig: string, n: nat)
    requires |rec| >= 2 && n == FieldCount(rec[0])
    requires var split := SplitFields(rec[2..], n); |split| == n && split[0] == xy && split[n - 1] == path
    ensures ParseTracked(rec, orig, ps) == Ok(AppendTracked(ps, Text(xy), Text(path), orig))
  {
  }

  lemma ConflictedAdds(ps: ParsedStatus, e: Entry)
    requires EntryOk(e) && e.UnmergedFile?
    ensures AppendConflicted(ps, Text(e.xy), Text(e.path)) == Added(ps, e)
  {
  }

  lemma UnmergedRead(ps: ParsedStatus, e: Entry)
    requires EntryOk(e) && e.UnmergedFile?
    ensures ParseUnmerged(RecordOf(e), ps) == Ok(Added(ps, e))
  {
    FileFields(e.xy, e.fields, e.path, |e.fields|, 117);
    assert FieldCount(RecordOf(e)[0]) == |e.fields| + 2;
    ConflictedAdds(ps, e);
  }

  lemma PathRead(ps: ParsedStatus, e: Entry)
    requires EntryOk(e) && (e.UntrackedFile? || e.IgnoredFile?)
    ensures ParseRecord(RecordOf(e), ps) == Ok(Added(ps, e))
  {
    assert RecordOf(e)[2..] == e.path;
  }

  /** A record that stands alone, before more. */
  lemma RecordThen(rec: Bytes, more: seq<Bytes>, ps: ParsedStatus)
    requires rec != [] && rec[0] != 50
    ensures ParseRecords([rec] + more, ps) == Then(ParseRecord(rec, ps), more)
  {
    assert ([rec] + more)[1..] == more;
  }

  lemma RenameThen(rec: Bytes, orig: Bytes, more: seq<Bytes>, ps: ParsedStatus)
    requires rec != [] && rec[0] == 50
    ensures ParseRecords([rec, orig] + more, ps) == Then(ParseTracked(rec, Text(orig), ps), more)
  {
    assert ([rec, orig] + more)[1..] == [orig] + more;
    assert ([orig] + more)[1..] == more;
  }

  /** What the records before others amount to. */
  lemma {:induction false} ParseAppend(a: seq<Bytes>, b: seq<Bytes>, ps: ParsedStatus)
    requires ParseRecords(a, ps).Ok?
    ensures ParseRecords(a + b, ps) == ParseRecords(b, ParseRecords(a, ps).ps)
    decreases |a|
  {
    if a == [] {
      assert a + b == b;
    } else if a[0] != [] && a[0][0] == 50 {
      ParseAppend(a[2..], b, ParseTracked(a[0], Text(a[1]), ps).ps);
      RenameThen(a[0], a[1], a[2..] + b, ps);
      RenameThen(a[0], a[1], a[2..], ps);
      assert a == [a[0], a[1]] + a[2..];
      assert a + b == [a[0], a[1]] + (a[2..] + b);
    } else {
      var next := if a[0] == [] then ps else ParseRecord(a[0], ps).ps;
      ParseAppend(a[1..], b, next);
      assert (a + b)[1..] == a[1..] + b;
    }
  }

  lemma {:induction false} FirstBlank(s: Bytes)
    ensures var sp := IndexOf(s, SPACE);
            Blanks(s) == if sp == |s| then 0 else 1 + Blanks(s[sp + 1..])
  {
    if s != [] && s[0] != SPACE {
      FirstBlank(s[1..]);
    }
  }

  lemma {:induction false} FieldsByBlanks(out: seq<Bytes>, rest: Bytes, n: nat)
    requires n >= 1
    ensures |SplitFrom(out, rest, n)| == |out| + if Blanks(rest) < n then Blanks(rest) + 1 else n
    decreases n
  {
    var sp := IndexOf(rest, SPACE);
    FirstBlank(rest);
    if n > 1 && sp < |rest| {
      FieldsByBlanks(out + [rest[..sp]], rest[sp + 1..], n - 1);
    }
  }

  lemma LackingFails(rec: Bytes, orig: string, ps: ParsedStatus)
    requires rec != [] && rec[0] in {49, 50, 117}
    ensures LacksFields(rec) <==>
              (if rec[0] == 117 then ParseUnmerged(rec, ps) else ParseTracked(rec, orig, ps)) == Outcome.Failed
  {
    if |rec| >= 2 {
      FieldsByBlanks([], rec[2..], FieldCount(rec[0]));
    }
  }

  lemma RecordsFailIff(records: seq<Bytes>, ps: ParsedStatus)
    ensures ParseRecords(records, ps) == Outcome.Failed <==> FailsSomewhere(records, ps)
  {
    if ParseRecords(records, ps) == Outcome.Failed {
      FindFailure(records, ps);
    } else if FailsSomewhere(records, ps) {
      var k: nat :| FailsAt(records, ps, k);
      FailureFound(records, ps, k);
      assert false;
    }
  }

  lemma FailureFound(records: seq<Bytes>, ps: ParsedStatus, k: nat)
    requires FailsAt(records, ps, k)
    ensures ParseRecords(records, ps) == Outcome.Failed
  {
    ParseAppend(records[..k], records[k..], ps);
    assert records == records[..k] + records[k..];
    FirstFails(records[k..], ParseRecords(records[..k], ps).ps);
  }

  lemma FirstFails(rest: seq<Bytes>, ps: ParsedStatus)
    requires rest != [] && (LacksFields(rest[0]) || (rest[0] != [] && rest[0][0] == 50 && |rest| == 1))
    ensures ParseRecords(rest, ps) == Outcome.Failed
  {
    if |rest| > 1 || rest[0][0] != 50 {
      LackingFails(rest[0], if |rest| > 1 && rest[0][0] == 50 then Text(rest[1]) else "", ps);
    }
  }

  lemma {:induction false} FindFailure(records: seq<Bytes>, ps: ParsedStatus)
    requires ParseRecords(records, ps) == Outcome.Failed
    ensures exists k: nat :: FailsAt(records, ps, k)
    decreases |records|
  {
    var n := if records[0] != [] && records[0][0] == 50 then 2 else 1;
    if !FailsAt(records, ps, 0) {
      FirstParsed(records, ps, n);
      var mid := ParseRecords(records[..n], ps).ps;
      FindFailure(records[n..], mid);
      var k: nat :| FailsAt(records[n..], mid, k);
      ParseAppend(records[..n], records[n..][..k], ps);
      assert records[..n + k] == records[..n] + records[n..][..k];
      assert FailsAt(records, ps, n + k);
    }
  }

  lemma RecordsPanicIff(records: seq<Bytes>, ps: ParsedStatus)
    ensures ParseRecords(records, ps) == Outcome.Panics <==> PanicsSomewhere(records, ps)
  {
    if ParseRecords(records, ps) == Outcome.Panics {
      FindPanic(records, ps);
    } else if PanicsSomewhere(records, ps) {
      var k: nat :| PanicsAt(records, ps, k);
      PanicFound(records, ps, k);
      assert false;
    }
  }

  lemma PanicFound(records: seq<Bytes>, ps: ParsedStatus, k: nat)
    requires PanicsAt(records, ps, k)
    ensures ParseRecords(records, ps) == Outcome.Panics
  {
    ParseAppend(records[..k], records[k..], ps);
    assert records == records[..k] + records[k..];
    var rest := records[k..];
    if rest[0] == [50] {
      RenameThen(rest[0], rest[1], rest[2..], ParseRecords(records[..k], ps).ps);
      assert rest == [rest[0], rest[1]] + rest[2..];
    }
  }

  lemma {:induction false} FindPanic(records: seq<Bytes>, ps: ParsedStatus)
    requires ParseRecords(records, ps) == Outcome.Panics
    ensures exists k: nat :: PanicsAt(records, ps, k)
    decreases |records|
  {
    var n := if records[0] != [] && records[0][0] == 50 then 2 else 1;
    if records[0] != [] && |records[0]| < 2 && records[0][0] in {49, 50, 117} {
      assert records[0] == [records[0][0]];
      assert records[..0] == [];
      assert PanicsAt(records, ps, 0);
    } else {
      FirstParsed(records, ps, n);
      var mid := ParseRecords(records[..n], ps).ps;
      FindPanic(records[n..], mid);
      var k: nat :| PanicsAt(records[n..], mid, k);
      ParseAppend(records[..n], records[n..][..k], ps);
      assert records[..n + k] == records[..n] + records[n..][..k];
      assert PanicsAt(records, ps, n + k);
    }
  }

  lemma FirstParsed(records: seq<Bytes>, ps: ParsedStatus, n: nat)
    requires !ParseRecords(records, ps).Ok?
    requires n == if records[0] != [] && records[0][0] == 50 then 2 else 1
    requires ParseRecords(records, ps) == Outcome.Panics ==>
               records[0] == [] || |records[0]| >= 2 || records[0][0] !in {49, 50, 117}
    requires ParseRecords(records, ps) == Outcome.Failed ==> !FailsAt(records, ps, 0)
    ensures n <= |records| && ParseRecords(records[..n], ps).Ok?
    ensures n <= |records|
            && ParseRecords(records[n..], ParseRecords(records[..n], ps).ps) == ParseRecords(records, ps)
  {
    assert records[..0] == [];
    if records[0] != [] && records[0][0] in {49, 50, 117} {
      LackingFails(records[0], if n == 2 && |records| > 1 then Text(records[1]) else "", ps);
    }
    if n == 2 {
      RenameThen(records[0], records[1], records[2..], ps);
      RenameThen(records[0], records[1], [], ps);
      assert records == [records[0], records[1]] + records[2..];
      assert records[..2] == [records[0], records[1]] + [];
    } else {
      assert records[..1] == [records[0]];
      assert records[..1][1..] == [];
    }
  }

  lemma FileAlone(e: Entry, ps: ParsedStatus)
    requires EntryOk(e) && (e.OrdinaryFile? || e.UnmergedFile?)
    ensures RecordOf(e) != []
    ensures RecordOf(e)[0] != 50
    ensures ParseRecord(RecordOf(e), ps) == Ok(Added(ps, e))
  {
    if e.OrdinaryFile? {
      TrackedRead(ps, e);
      assert RecordOf(e)[0] == 49 && OrigOf(e) == "";
    } else {
      UnmergedRead(ps, e);
      assert RecordOf(e)[0] == 117;
    }
  }

  lemma HeaderOutcome(rec: Bytes, ps: ParsedStatus, info: BranchInfo)
    requires rec != [] && rec[0] == 35 && ParseHeader(rec, ps.info) == info
    ensures ParseRecord(rec, ps) == Ok(ps.(info := info))
  {
  }

  lemma HeaderAdds(ps: ParsedStatus, e: Entry)
    requires EntryOk(e) && IsHeader(e)
    ensures ps.(info := InfoBy(ps.info, e)) == Added(ps, e)
  {
  }

  lemma HeaderStarts(e: Entry)
    requires IsHeader(e)
    ensures RecordOf(e) != []
    ensures RecordOf(e)[0] == 35
  {
  }

  lemma HeaderAlone(e: Entry, ps: ParsedStatus)
    requires EntryOk(e) && IsHeader(e)
    ensures RecordOf(e) != []
    ensures RecordOf(e)[0] != 50
    ensures ParseRecord(RecordOf(e), ps) == Ok(Added(ps, e))
  {
    HeaderRead(e, ps.info);
    HeaderStarts(e);
    HeaderAdds(ps, e);
    HeaderOutcome(RecordOf(e), ps, InfoBy(ps.info, e));
  }

  lemma AloneRead(e: Entry, ps: ParsedStatus)
    requires EntryOk(e) && !e.RenamedFile?
    ensures RecordOf(e) != []
    ensures RecordOf(e)[0] != 50
    ensures ParseRecord(RecordOf(e), ps) == Ok(Added(ps, e))
  {
    if IsHeader(e) {
      HeaderAlone(e, ps);
    } else if e.OrdinaryFile? || e.UnmergedFile? {
      FileAlone(e, ps);
    } else {
      PathRead(ps, e);
    }
  }

  lemma EntryRead(e: Entry, more: seq<Bytes>, ps: ParsedStatus)
    requires EntryOk(e)
    ensures ParseRecords(RecordsOf(e) + more, ps) == ParseRecords(more, Added(ps, e))
  {
    if e.RenamedFile? {
      RenameThen(RecordOf(e), e.orig, more, ps);
      TrackedRead(ps, e);
    } else {
      AloneRead(e, ps);
      RecordThen(RecordOf(e), more, ps);
    }
  }

  lemma HeaderHasNoNul(e: Entry)
    requires EntryOk(e) && IsHeader(e)
    ensures NUL !in RecordOf(e)
  {
    LiteralsHaveNoNul();
    DetachedValue();
    if e.CountsLine? {
      CountsFields(e.aheadBy, e.behindBy);
    }
  }

  lemma LiteralsHaveNoNul()
    ensures NUL !in OID
    ensures NUL !in HEAD
    ensures NUL !in UPSTREAM
    ensures NUL !in AHEAD_BEHIND
    ensures NUL !in HASH
  {
    assert forall i :: 0 <= i < |OID| ==> OID[i] == "branch.oid "[i] as int as Byte != 0;
    assert forall i :: 0 <= i < |HEAD| ==> HEAD[i] == "branch.head "[i] as int as Byte != 0;
    assert forall i :: 0 <= i < |UPSTREAM| ==> UPSTREAM[i] == "branch.upstream "[i] as int as Byte != 0;
    assert forall i :: 0 <= i < |AHEAD_BEHIND| ==> AHEAD_BEHIND[i] == "branch.ab "[i] as int as Byte != 0;
  }

  lemma EntryHasNoNul(e: Entry)
    requires EntryOk(e)
    ensures NUL !in RecordOf(e)
  {
    if IsHeader(e) {
      HeaderHasNoNul(e);
    } else if e.OrdinaryFile? {
      FileFields(e.xy, e.fields, e.path, 6, 49);
    } else if e.RenamedFile? {
      FileFields(e.xy, e.fields, e.path, 7, 50);
    } else if e.UnmergedFile? {
      FileFields(e.xy, e.fields, e.path, 8, 117);
    }
  }

  lemma PrintedRecords(e: Entry, more: Bytes)
    requires EntryOk(e)
    ensures Records(Print(e) + more) == RecordsOf(e) + Records(more)
  {
    EntryHasNoNul(e);
    var r := RecordOf(e);
    if e.RenamedFile? {
      assert Print(e) + more == r + [NUL] + (e.orig + [NUL] + more);
      RecordsStep(r, e.orig + [NUL] + more);
      RecordsStep(e.orig, more);
      assert [r] + ([e.orig] + Records(more)) == [r, e.orig] + Records(more);
    } else {
      assert Print(e) + more == r + [NUL] + more;
      RecordsStep(r, more);
    }
  }

  /** The status after all the entries, starting from `ps`. */
  function AddedAll(ps: ParsedStatus, entries: seq<Entry>): ParsedStatus
    requires AllOk(entries)
    decreases |entries|
  {
    if entries == [] then ps else AddedAll(Added(ps, entries[0]), entries[1..])
  }

  lemma {:induction false} EntriesRead(entries: seq<Entry>, ps: ParsedStatus)
    requires AllOk(entries)
    ensures ParseRecords(Records(PrintAll(entries)), ps) == Ok(AddedAll(ps, entries))
    decreases |entries|
  {
    if entries != [] {
      var e, rest := entries[0], entries[1..];
      PrintedRecords(e, PrintAll(rest));
      EntryRead(e, Records(PrintAll(rest)), ps);
      EntriesRead(rest, Added(ps, e));
    }
  }

  lemma {:induction false} AddedAllIs(entries: seq<Entry>, ps: ParsedStatus)
    requires AllOk(entries)
    ensures var all := AddedAll(ps, entries);
            && all.info == InfoOf(ps.info, entries)
            && all.staged == ps.staged + StagedOf(entries)
            && all.unstaged == ps.unstaged + UnstagedOf(entries)
            && all.untracked == ps.untracked + UntrackedOf(entries)
            && all.conflicted == ps.conflicted + ConflictedOf(entries)
    decreases |entries|
  {
    if entries != [] {
      var e, rest := entries[0], entries[1..];
      AddedAllIs(rest, Added(ps, e));
      Regroup(ps.staged, StagedBy(e), StagedOf(rest));
      Regroup(ps.unstaged, UnstagedBy(e), UnstagedOf(rest));
      Regroup(ps.untracked, UntrackedBy(e), UntrackedOf(rest));
      Regroup(ps.conflicted, ConflictedBy(e), ConflictedOf(rest));
    }
  }

  lemma Regroup(a: seq<FileChange>, b: seq<FileChange>, c: seq<FileChange>)
    ensures a + b + c == a + (b + c)
  {
  }
}
