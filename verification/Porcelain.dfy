/** Parsing of `git status --porcelain=v2 -z` output, and the printing of well-formed output. */
module Porcelain {
  import opened Options
  import opened Framing
  import opened Words

  const NUL: Byte := 0

  /** The Go string made of some bytes: each byte becomes the char of the same code. */
  function Text(s: Bytes): (t: string)
    ensures |t| == |s|
    ensures forall i :: 0 <= i < |s| ==> t[i] as int == s[i] as int
  {
    seq(|s|, i requires 0 <= i < |s| => s[i] as char)
  }

  /** The bytes of an ASCII literal. */
  function Ascii(s: string): (b: Bytes)
    requires forall i :: 0 <= i < |s| ==> s[i] < 128 as char
    ensures |b| == |s|
  {
    seq(|s|, i requires 0 <= i < |s| => s[i] as int as Byte)
  }

  datatype FileBucket = Staged | Unstaged | Untracked | Conflicted

  datatype FileChange = FileChange(path: string, origPath: string, xy: string, bucket: FileBucket)

  /** What the headers say about the branch. */
  datatype BranchInfo = BranchInfo(branch: string, detached: bool, upstream: string, ahead: int, behind: int,
                                   head: string)

  datatype ParsedStatus = ParsedStatus(info: BranchInfo, staged: seq<FileChange>, unstaged: seq<FileChange>,
                                       untracked: seq<FileChange>, conflicted: seq<FileChange>)

  const NO_INFO := BranchInfo("", false, "", 0, 0, "")

  const NOTHING := ParsedStatus(NO_INFO, [], [], [], [])

  /** A slice out of range panics. */
  datatype Outcome = Ok(ps: ParsedStatus) | Failed | Panics

  // ----- records and fields -----

  /** The records before each NUL, and what follows the last NUL unless it is empty. */
  function Records(raw: Bytes): seq<Bytes> {
    if raw == [] then []
    else
      var i := IndexOf(raw, NUL);
      if i == |raw| then [raw] else [raw[..i]] + Records(raw[i + 1..])
  }

  /** The fields split off already, and at most `n` more; the last one keeps its spaces. */
  function SplitFrom(out: seq<Bytes>, rest: Bytes, n: nat): (fields: seq<Bytes>)
    requires n >= 1
    ensures |out| < |fields| <= |out| + n
    decreases n
  {
    var sp := IndexOf(rest, SPACE);
    if n == 1 || sp == |rest| then out + [rest] else SplitFrom(out + [rest[..sp]], rest[sp + 1..], n - 1)
  }

  function SplitFields(body: Bytes, n: nat): (fields: seq<Bytes>)
    requires n >= 1
    ensures 1 <= |fields| <= n
  {
    SplitFrom([], body, n)
  }

  method SplitFieldsN(body: Bytes, n: nat) returns (out: seq<Bytes>)
    requires n >= 1
    ensures out == SplitFields(body, n)
  {
    out := [];
    var rest := body;
    for i := 0 to n - 1
      invariant SplitFrom(out, rest, n - i) == SplitFields(body, n)
    {
      var sp := IndexOf(rest, SPACE);
      if sp == |rest| {
        out := out + [rest];
        return;
      }
      out := out + [rest[..sp]];
      rest := rest[sp + 1..];
    }
    out := out + [rest];
  }

  // ----- one record -----

  predicate IsChange(code: char) {
    code != '.' && code != ' ' && code != '?'
  }

  /** A change goes to the staged files by its first code and to the unstaged files by its second. */
  function AppendTracked(ps: ParsedStatus, xy: string, path: string, orig: string): ParsedStatus {
    if |xy| < 2 then ps
    else
      var staged := if IsChange(xy[0]) then ps.staged + [FileChange(path, orig, xy, Staged)] else ps.staged;
      var unstaged := if IsChange(xy[1]) then ps.unstaged + [FileChange(path, orig, xy, Unstaged)] else ps.unstaged;
      ps.(staged := staged, unstaged := unstaged)
  }

  /** How many fields a record of each kind has, the path among them. */
  function FieldCount(kind: Byte): (n: nat)
    ensures n >= 1
  {
    if kind == 49 then 8 else if kind == 50 then 9 else 10
  }

  function ParseTracked(rec: Bytes, orig: string, ps: ParsedStatus): Outcome
    requires rec != []
  {
    if |rec| < 2 then Outcome.Panics
    else
      var n := FieldCount(rec[0]);
      var fields := SplitFields(rec[2..], n);
      if |fields| < n then Failed else Ok(AppendTracked(ps, Text(fields[0]), Text(fields[n - 1]), orig))
  }

  function AppendConflicted(ps: ParsedStatus, xy: string, path: string): ParsedStatus {
    ps.(conflicted := ps.conflicted + [FileChange(path, "", xy, Conflicted)])
  }

  function ParseUnmerged(rec: Bytes, ps: ParsedStatus): Outcome
    requires rec != []
  {
    if |rec| < 2 then Outcome.Panics
    else
      var n := FieldCount(rec[0]);
      var fields := SplitFields(rec[2..], n);
      if |fields| < n then Failed else Ok(AppendConflicted(ps, Text(fields[0]), Text(fields[n - 1])))
  }

  function ParseUntracked(rec: Bytes, ps: ParsedStatus): ParsedStatus {
    if |rec| > 2 then ps.(untracked := ps.untracked + [FileChange(Text(rec[2..]), "", "??", Untracked)]) else ps
  }

  // ----- headers -----

  const HASH: Bytes := [35, 32]
  const OID: Bytes := Ascii("branch.oid ")
  const HEAD: Bytes := Ascii("branch.head ")
  const UPSTREAM: Bytes := Ascii("branch.upstream ")
  const AHEAD_BEHIND: Bytes := Ascii("branch.ab ")
  const DETACHED: Bytes := Ascii("(detached)")

  /** The words of a line. */
  function Fields(s: Bytes): seq<Bytes> {
    WordsOf(IsSpace, s)
  }

  function NoteCount(info: BranchInfo, field: Bytes): BranchInfo {
    if |field| < 2 || Atoi(field[1..]) == None then info
    else if field[0] == PLUS then info.(ahead := Atoi(field[1..]).value)
    else if field[0] == MINUS then info.(behind := Atoi(field[1..]).value)
    else info
  }

  function NoteCounts(info: BranchInfo, fields: seq<Bytes>): BranchInfo {
    if fields == [] then info else NoteCount(NoteCounts(info, fields[..|fields| - 1]), fields[|fields| - 1])
  }

  function ParseHeader(rec: Bytes, info: BranchInfo): BranchInfo {
    if !(HASH <= rec) then info
    else
      var body := rec[2..];
      if OID <= body then info.(head := Text(Trim(body[|OID|..])))
      else if HEAD <= body then
        var name := Trim(body[|HEAD|..]);
        if name == DETACHED then info.(detached := true, branch := "")
        else info.(detached := false, branch := Text(name))
      else if UPSTREAM <= body then info.(upstream := Text(Trim(body[|UPSTREAM|..])))
      else if AHEAD_BEHIND <= body then NoteCounts(info, Fields(Trim(body[|AHEAD_BEHIND|..])))
      else info
  }

  // ----- the whole output -----

  /** The outcome for the records from the first on; a rename takes two. */
  function ParseRecords(records: seq<Bytes>, ps: ParsedStatus): Outcome
    decreases |records|, 0
  {
    if records == [] then Ok(ps)
    else
      var rec, more := records[0], records[1..];
      if rec == [] then ParseRecords(more, ps)
      else
        match rec[0]
        case 35 => ParseRecords(more, ps.(info := ParseHeader(rec, ps.info)))
        case 49 => Then(ParseTracked(rec, "", ps), more)
        case 50 =>
          if more == [] then Failed else Then(ParseTracked(rec, Text(more[0]), ps), more[1..])
        case 117 => Then(ParseUnmerged(rec, ps), more)
        case 63 => ParseRecords(more, ParseUntracked(rec, ps))
        case _ => ParseRecords(more, ps)
  }

  function Then(o: Outcome, more: seq<Bytes>): Outcome
    decreases |more|, 1
  {
    if o.Ok? then ParseRecords(more, o.ps) else o
  }

  function Parse(raw: Bytes): Outcome {
    ParseRecords(Records(raw), NOTHING)
  }

  /** The outcome of one record of a kind that stands alone. */
  function ParseRecord(rec: Bytes, ps: ParsedStatus): Outcome
    requires rec != [] && rec[0] != 50
  {
    match rec[0]
    case 35 => Ok(ps.(info := ParseHeader(rec, ps.info)))
    case 49 => ParseTracked(rec, "", ps)
    case 117 => ParseUnmerged(rec, ps)
    case 63 => Ok(ParseUntracked(rec, ps))
    case _ => Ok(ps)
  }

  method ParsePorcelainV2(raw: Bytes) returns (o: Outcome)
    ensures o == Parse(raw)
  {
    var rest, ps := raw, NOTHING;
    while rest != []
      invariant ParseRecords(Records(rest), ps) == Parse(raw)
      decreases |rest|
    {
      var rec;
      ghost var records := Records(rest);
      rec, rest := Scan(rest);
      assert records[1..] == Records(rest);
      if rec == [] {
        continue;
      }
      if rec[0] == 50 {
        if rest == [] {
          return Failed;
        }
        var orig;
        ghost var more := Records(rest);
        orig, rest := Scan(rest);
        assert more[1..] == Records(rest);
        o := ParseTracked(rec, Text(orig), ps);
      } else {
        o := ParseRecord(rec, ps);
      }
      if !o.Ok? {
        return;
      }
      ps := o.ps;
    }
    o := Ok(ps);
  }

  /** The scanner's next record. */
  method Scan(raw: Bytes) returns (rec: Bytes, rest: Bytes)
    requires raw != []
    ensures Records(raw) == [rec] + Records(rest)
    ensures |rest| < |raw|
  {
    var i := IndexOf(raw, NUL);
    if i == |raw| {
      rec, rest := raw, [];
    } else {
      rec, rest := raw[..i], raw[i + 1..];
    }
  }
}
