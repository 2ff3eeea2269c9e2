/** Pages of changed files: four sorted buckets read in order, with a cursor from page to page. */
module GitPages {
  import opened Options
  import opened ConfigValues
  import opened Porcelain
  import opened Ordering

  /** The cursor a client sends back, with its bucket's rank (4 for a name that is no bucket); a cursor that
      cannot be decoded counts as none. */
  datatype Cursor = NoCursor | Behind(rank: nat, path: string)

  function BucketRank(b: FileBucket): nat {
    match b
    case Staged => 0
    case Unstaged => 1
    case Untracked => 2
    case Conflicted => 3
  }

  /** All files, bucket by bucket. */
  function Flat(ps: ParsedStatus): seq<FileChange> {
    ps.staged + ps.unstaged + ps.untracked + ps.conflicted
  }

  predicate Skipped(fc: FileChange, cursor: Cursor) {
    cursor.Behind? &&
    (BucketRank(fc.bucket) < cursor.rank || (BucketRank(fc.bucket) == cursor.rank && StrLe(fc.path, cursor.path)))
  }

  /** The files behind the cursor. */
  function Remaining(files: seq<FileChange>, cursor: Cursor): seq<FileChange> {
    if files == [] then []
    else (if Skipped(files[0], cursor) then [] else [files[0]]) + Remaining(files[1..], cursor)
  }

  function CursorAt(fc: FileChange): Cursor {
    Behind(BucketRank(fc.bucket), fc.path)
  }

  /** One page: at most `limit` of the remaining files, and the cursor if there are more. */
  predicate IsPage(files: seq<FileChange>, cursor: Cursor, limit: nat, page: seq<FileChange>, next: Cursor) {
    var rest := Remaining(files, cursor);
    if |rest| <= limit then page == rest && next == NoCursor
    else page == rest[..limit] && |page| > 0 && next == CursorAt(page[|page| - 1])
  }

  /** `all` is the page so far, with what the files not yet looked at will add. */
  predicate Collects(page: seq<FileChange>, files: seq<FileChange>, cursor: Cursor, all: seq<FileChange>) {
    page + Remaining(files, cursor) == all
  }

  method PaginateFiles(ps: ParsedStatus, cursor: Cursor, limit: nat) returns (page: seq<FileChange>, next: Cursor)
    requires limit >= 1
    ensures IsPage(Flat(ps), cursor, limit, page, next)
  {
    var buckets := [ps.staged, ps.unstaged, ps.untracked, ps.conflicted];
    ghost var all := Remaining(Flat(ps), cursor);
    page := [];
    for b := 0 to 4
      invariant Collects(page, Later(ps, b), cursor, all) && |page| <= limit
    {
      var full;
      LaterSplits(ps, b);
      page, full := PageBucket(buckets[b], Later(ps, b + 1), cursor, limit, page, all);
      if full {
        return page, CursorAt(page[|page| - 1]);
      }
    }
    return page, NoCursor;
  }

  /** The loop over one bucket; `full` says that another file is waiting behind a full page. */
  method PageBucket(bucket: seq<FileChange>, ghost later: seq<FileChange>, cursor: Cursor, limit: nat,
                    page: seq<FileChange>, ghost all: seq<FileChange>)
    returns (page': seq<FileChange>, full: bool)
    requires Collects(page, bucket + later, cursor, all) && |page| <= limit
    ensures full ==> |all| > limit && page' == all[..limit]
    ensures !full ==> Collects(page', later, cursor, all) && |page'| <= limit
  {
    page' := page;
    for k := 0 to |bucket|
      invariant Collects(page', bucket[k..] + later, cursor, all) && |page'| <= limit
    {
      var fc := bucket[k];
      NextFile(page', bucket, k, later, cursor, all);
      if Skipped(fc, cursor) {
        continue;
      }
      if |page'| >= limit {
        return page', true;
      }
      page' := page' + [fc];
    }
    assert bucket[|bucket|..] + later == later;
    full := false;
  }

  lemma NextFile(page: seq<FileChange>, bucket: seq<FileChange>, k: nat, later: seq<FileChange>, cursor: Cursor,
                 all: seq<FileChange>)
    requires k < |bucket| && Collects(page, bucket[k..] + later, cursor, all)
    ensures if Skipped(bucket[k], cursor) then Collects(page, bucket[k + 1..] + later, cursor, all)
            else
              && Collects(page + [bucket[k]], bucket[k + 1..] + later, cursor, all)
              && |all| > |page|
              && page == all[..|page|]
  {
    var files := bucket[k..] + later;
    assert files[0] == bucket[k] && files[1..] == bucket[k + 1..] + later;
    var more := Remaining(files[1..], cursor);
    if Skipped(bucket[k], cursor) {
      assert Remaining(files, cursor) == more;
    } else {
      assert page + ([bucket[k]] + more) == page + [bucket[k]] + more;
    }
  }

  /** The files of the buckets from the b-th on. */
  function Later(ps: ParsedStatus, b: nat): seq<FileChange> {
    if b == 0 then Flat(ps)
    else if b == 1 then ps.unstaged + ps.untracked + ps.conflicted
    else if b == 2 then ps.untracked + ps.conflicted
    else if b == 3 then ps.conflicted
    else []
  }

  lemma LaterSplits(ps: ParsedStatus, b: nat)
    requires b < 4
    ensures Later(ps, b) == [ps.staged, ps.unstaged, ps.untracked, ps.conflicted][b] + Later(ps, b + 1)
  {
  }

  // ----- following the cursor -----

  predicate Before(a: FileChange, b: FileChange) {
    BucketRank(a.bucket) < BucketRank(b.bucket)
    || (BucketRank(a.bucket) == BucketRank(b.bucket) && StrLe(a.path, b.path) && a.path != b.path)
  }

  /** One bucket: all its files are labelled with it, in strict path order. */
  predicate BucketOk(files: seq<FileChange>, bucket: FileBucket) {
    && (forall i :: 0 <= i < |files| ==> files[i].bucket == bucket)
    && (forall i, j :: 0 <= i < j < |files| ==> StrLe(files[i].path, files[j].path) && files[i].path != files[j].path)
  }

  predicate StatusOk(ps: ParsedStatus) {
    && BucketOk(ps.staged, Staged)
    && BucketOk(ps.unstaged, Unstaged)
    && BucketOk(ps.untracked, Untracked)
    && BucketOk(ps.conflicted, Conflicted)
  }

  predicate Ascending(files: seq<FileChange>) {
    forall i, j :: 0 <= i < j < |files| ==> Before(files[i], files[j])
  }

  lemma FlatAscends(ps: ParsedStatus)
    requires StatusOk(ps)
    ensures Ascending(Flat(ps))
  {
  }

  lemma SkippedIsNotAfter(fc: FileChange, at: FileChange)
    ensures Skipped(fc, CursorAt(at)) <==> !Before(at, fc)
  {
    StrLeTotal(fc.path, at.path);
    if StrLe(fc.path, at.path) && StrLe(at.path, fc.path) {
      StrLeAntisymmetric(fc.path, at.path);
    }
  }

  lemma {:induction false} NoneSkipped(files: seq<FileChange>, cursor: Cursor)
    requires forall i :: 0 <= i < |files| ==> !Skipped(files[i], cursor)
    ensures Remaining(files, cursor) == files
  {
    if files != [] {
      NoneSkipped(files[1..], cursor);
    }
  }

  lemma SkippedIff(files: seq<FileChange>, k: nat, i: nat)
    requires Ascending(files) && k < |files| && i < |files|
    ensures Skipped(files[i], CursorAt(files[k])) <==> i <= k
  {
    SkippedIsNotAfter(files[i], files[k]);
    if i < k {
      NotBoth(files[i], files[k]);
    } else if i == k {
      NotBoth(files[i], files[i]);
    }
  }

  /** The cursor of a file leaves exactly the files behind it. */
  lemma {:induction false} RemainingAfter(files: seq<FileChange>, k: nat)
    requires Ascending(files) && k < |files|
    ensures Remaining(files, CursorAt(files[k])) == files[k + 1..]
  {
    var rest, cursor := files[1..], CursorAt(files[k]);
    SkippedIff(files, k, 0);
    if k == 0 {
      forall i | 0 <= i < |rest|
        ensures !Skipped(rest[i], cursor)
      {
        SkippedIff(files, 0, i + 1);
      }
      NoneSkipped(rest, cursor);
    } else {
      RemainingAfter(rest, k - 1);
      assert rest[k - 1] == files[k] && rest[k..] == files[k + 1..];
    }
  }

  lemma NotBoth(a: FileChange, b: FileChange)
    ensures Before(a, b) ==> !Before(b, a)
  {
    if StrLe(a.path, b.path) && StrLe(b.path, a.path) {
      StrLeAntisymmetric(a.path, b.path);
    }
  }

  /** The pages that a client sees, following the cursor from page to page until there is none. */
  ghost predicate Follows(files: seq<FileChange>, cursor: Cursor, limit: nat, pages: seq<seq<FileChange>>,
                          cursors: seq<Cursor>)
    decreases |pages|
  {
    && |pages| == |cursors| > 0
    && IsPage(files, cursor, limit, pages[0], cursors[0])
    && if cursors[0] == NoCursor then |pages| == 1 else Follows(files, cursors[0], limit, pages[1..], cursors[1..])
  }

  function Concat(pages: seq<seq<FileChange>>): seq<FileChange> {
    if pages == [] then [] else pages[0] + Concat(pages[1..])
  }

  /** The client stands at the k-th file: that many are behind it. */
  predicate StandsAt(files: seq<FileChange>, cursor: Cursor, k: nat) {
    k <= |files| && Remaining(files, cursor) == files[k..]
  }

  lemma NextStandsAt(files: seq<FileChange>, cursor: Cursor, k: nat, limit: nat, page: seq<FileChange>, next: Cursor)
    requires Ascending(files) && limit >= 1 && StandsAt(files, cursor, k) && IsPage(files, cursor, limit, page, next)
    ensures if next == NoCursor then page == files[k..] && |files| - k <= limit
            else k + limit < |files| && page == files[k..k + limit] && StandsAt(files, next, k + limit)
  {
    if next != NoCursor {
      assert files[k..][..limit] == files[k..k + limit];
      assert page[|page| - 1] == files[k + limit - 1];
      RemainingAfter(files, k + limit - 1);
    }
  }

  lemma {:induction false} FollowingFrom(files: seq<FileChange>, cursor: Cursor, k: nat, limit: nat,
                                         pages: seq<seq<FileChange>>, cursors: seq<Cursor>)
    requires Ascending(files) && limit >= 1 && StandsAt(files, cursor, k)
    requires Follows(files, cursor, limit, pages, cursors)
    ensures Concat(pages) == files[k..]
    ensures forall i :: 0 <= i < |pages| - 1 ==> |pages[i]| == limit
    decreases |pages|
  {
    NextStandsAt(files, cursor, k, limit, pages[0], cursors[0]);
    if cursors[0] == NoCursor {
      assert pages == [pages[0]] && pages[1..] == [];
    } else {
      FollowingFrom(files, cursors[0], k + limit, limit, pages[1..], cursors[1..]);
      assert files[k..] == files[k..k + limit] + files[k + limit..];
      assert forall i :: 0 < i < |pages| ==> pages[i] == pages[1..][i - 1];
    }
  }

  lemma OneMoreTime(n: nat, limit: nat)
    ensures (n + 1) * limit == n * limit + limit
  {
  }

  /** Full pages take their files. */
  lemma {:induction false} FullPagesFit(pages: seq<seq<FileChange>>, limit: nat)
    requires pages != [] && forall i :: 0 <= i < |pages| - 1 ==> |pages[i]| == limit
    ensures (|pages| - 1) * limit <= |Concat(pages)|
  {
    if |pages| > 1 {
      assert forall i :: 0 <= i < |pages[1..]| ==> pages[1..][i] == pages[i + 1];
      FullPagesFit(pages[1..], limit);
      OneMoreTime(|pages| - 2, limit);
    }
  }

  /** From the empty cursor on, the pages hold every file once, in bucket and path order; all but the last
      are full. */
  lemma PagesAreTheFiles(ps: ParsedStatus, limit: nat, pages: seq<seq<FileChange>>, cursors: seq<Cursor>)
    requires StatusOk(ps) && limit >= 1 && Follows(Flat(ps), NoCursor, limit, pages, cursors)
    ensures Concat(pages) == ps.staged + ps.unstaged + ps.untracked + ps.conflicted
    ensures forall i :: 0 <= i < |pages| - 1 ==> |pages[i]| == limit
    ensures (|pages| - 1) * limit <= |Flat(ps)|
  {
    FlatAscends(ps);
    NoneSkipped(Flat(ps), NoCursor);
    FollowingFrom(Flat(ps), NoCursor, 0, limit, pages, cursors);
    FullPagesFit(pages, limit);
  }

  /** Following terminates: from any file on, there is a sequence of pages to the end. */
  lemma FollowingEnds(files: seq<FileChange>, cursor: Cursor, k: nat, limit: nat)
    requires Ascending(files) && limit >= 1 && StandsAt(files, cursor, k)
    ensures exists pages, cursors :: Follows(files, cursor, limit, pages, cursors)
  {
    var pages, cursors := PagesFrom(files, cursor, k, limit);
  }

  lemma {:induction false} PagesFrom(files: seq<FileChange>, cursor: Cursor, k: nat, limit: nat)
    returns (pages: seq<seq<FileChange>>, cursors: seq<Cursor>)
    requires Ascending(files) && limit >= 1 && StandsAt(files, cursor, k)
    ensures Follows(files, cursor, limit, pages, cursors)
    decreases |files| - k
  {
    var rest := Remaining(files, cursor);
    if |rest| <= limit {
      LastPage(files, cursor, limit);
      pages, cursors := [rest], [NoCursor];
    } else {
      var page := rest[..limit];
      var next := CursorAt(page[|page| - 1]);
      NextStandsAt(files, cursor, k, limit, page, next);
      pages, cursors := PagesFrom(files, next, k + limit, limit);
      FollowsOneMore(files, cursor, limit, page, next, pages, cursors);
      pages, cursors := [page] + pages, [next] + cursors;
    }
  }

  lemma LastPage(files: seq<FileChange>, cursor: Cursor, limit: nat)
    requires |Remaining(files, cursor)| <= limit
    ensures Follows(files, cursor, limit, [Remaining(files, cursor)], [NoCursor])
  {
  }

  lemma FollowsOneMore(files: seq<FileChange>, cursor: Cursor, limit: nat, page: seq<FileChange>, next: Cursor,
                       pages: seq<seq<FileChange>>, cursors: seq<Cursor>)
    requires IsPage(files, cursor, limit, page, next) && next != NoCursor
    requires Follows(files, next, limit, pages, cursors)
    ensures Follows(files, cursor, limit, [page] + pages, [next] + cursors)
  {
    assert ([page] + pages)[1..] == pages && ([next] + cursors)[1..] == cursors;
  }

  // ----- sorting the buckets -----

  predicate PathLe(a: FileChange, b: FileChange) {
    StrLe(a.path, b.path)
  }

  lemma PathLeIsOrder()
    ensures IsOrder(PathLe)
  {
    forall a, b
      ensures PathLe(a, b) || PathLe(b, a)
    {
      StrLeTotal(a.path, b.path);
    }
    forall a, b, c | PathLe(a, b) && PathLe(b, c)
      ensures PathLe(a, c)
    {
      StrLeTransitive(a.path, b.path, c.path);
    }
  }

  /** Sorted by path, a bucket of files with different paths is in strict order. */
  lemma SortedBucketOk(files: seq<FileChange>, bucket: FileBucket)
    requires forall i :: 0 <= i < |files| ==> files[i].bucket == bucket
    requires DistinctBy((fc: FileChange) => fc.path, files)
    ensures BucketOk(Sort(PathLe, files), bucket)
  {
    var sorted := Sort(PathLe, files);
    var path := (fc: FileChange) => fc.path;
    assert DistinctBy(path, files) by {
      assert forall i, j :: 0 <= i < j < |files| ==>
          ((fc: FileChange) => fc.path)(files[i]) != ((fc: FileChange) => fc.path)(files[j]);
    }
    PathLeIsOrder();
    SortKeeps(PathLe, files);
    SortSorts(PathLe, files);
    DistinctPermuted(path, files, sorted);
    forall i | 0 <= i < |sorted|
      ensures sorted[i].bucket == bucket
    {
      assert sorted[i] in multiset(files);
      assert sorted[i] in files;
    }
    assert forall i, j :: 0 <= i < j < |sorted| ==> path(sorted[i]) != path(sorted[j]);
  }
}
