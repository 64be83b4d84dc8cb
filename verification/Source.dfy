/** Which archive files a run reads, and which scopes they can cover. */
module Source {
  import opened Types
  import opened E2Store
  import opened Present
  import opened Pipeline
  import opened Storage
  import opened Sync
  import opened Reports

  /** A scanned file and the block ranges it holds. */
  datatype SourceFile = SourceFile(path: string, ranges: seq<Range>)

  /** A file found in the directory: the range its name implies, and the range its
      index gives, if it could be read. */
  datatype Candidate = Candidate(path: string, inferred: Range, index: Result<Option<Range>, SourceError>)

  predicate Overlaps(r: Range, from: U64, to: U64) {
    r.to >= from && r.from <= to
  }

  function RangeOfCandidate(inferred: Range, index: Option<Range>): Range {
    if index.Some? then index.value else inferred
  }

  /** The files whose range meets `[from, to]`; any unreadable index fails the scan. */
  function Scanned(cs: seq<Candidate>, from: U64, to: U64): Result<seq<SourceFile>, SourceError> {
    if cs == [] then Ok([])
    else
      var front :- Scanned(cs[..|cs| - 1], from, to);
      var last := cs[|cs| - 1];
      var index :- last.index;
      var range := RangeOfCandidate(last.inferred, index);
      Ok(front + if Overlaps(range, from, to) then [SourceFile(last.path, [range])] else [])
  }

  method ScanEra1Source(cs: seq<Candidate>, from: U64, to: U64) returns (r: Result<seq<SourceFile>, SourceError>)
    ensures r == Scanned(cs, from, to)
  {
    var files: seq<SourceFile> := [];
    for i := 0 to |cs|
      invariant Scanned(cs[..i], from, to) == Ok(files)
    {
      assert cs[..i + 1][..i] == cs[..i];
      if cs[i].index.Err? {
        ScanFails(cs, from, to, i);
        return Err(cs[i].index.error);
      }
      var range := RangeOfCandidate(cs[i].inferred, cs[i].index.value);
      assert files + [] == files;
      if range.to < from || range.from > to {
        continue;
      }
      files := files + [SourceFile(cs[i].path, [range])];
    }
    assert cs[..|cs|] == cs;
    return Ok(files);
  }

  lemma {:induction false} ScanFails(cs: seq<Candidate>, from: U64, to: U64, i: nat)
    requires i < |cs| && Scanned(cs[..i], from, to).Ok? && cs[i].index.Err?
    ensures Scanned(cs, from, to) == Err(cs[i].index.error)
    decreases |cs|
  {
    var n := |cs| - 1;
    if i < n {
      assert cs[..n][..i] == cs[..i];
      ScanFails(cs[..n], from, to, i);
    }
  }

  // ── Selection ──────────────────────────────────────────────────────────────

  /** A requested block range, bounds included. */
  datatype Request = Request(from: U64, to: U64)

  predicate Wanted(f: SourceFile, requests: seq<Request>) {
    exists r, q | r in f.ranges && q in requests :: Overlaps(r, q.from, q.to)
  }

  function Select(files: seq<SourceFile>, requests: seq<Request>): seq<SourceFile> {
    if files == [] then []
    else
      var last := files[|files| - 1];
      Select(files[..|files| - 1], requests) + if Wanted(last, requests) then [last] else []
  }

  /** All requests lie in `[from, to]`, as they do in the union range of the scopes. */
  ghost predicate InUnion(requests: seq<Request>, from: U64, to: U64) {
    forall q | q in requests :: from <= q.from && q.to <= to
  }

  /** A configured contract's bounds; a contract without an end is never prepared. */
  datatype Bounds = Bounds(from: U64, to: Option<U64>)

  function UnionFrom(cs: seq<Bounds>): U64 {
    if cs == [] then 0
    else if |cs| == 1 then cs[0].from
    else
      var rest := UnionFrom(cs[1..]);
      if cs[0].from < rest then cs[0].from else rest
  }

  /** The largest end among those given, if any. */
  function LastTo(cs: seq<Bounds>): Option<U64> {
    if cs == [] then None
    else
      var rest := LastTo(cs[1..]);
      if cs[0].to.None? then rest
      else if rest.None? || rest.value < cs[0].to.value then cs[0].to
      else rest
  }

  /** The scan's upper bound; with no end configured there is none. */
  function UnionTo(cs: seq<Bounds>): U64 {
    if LastTo(cs).Some? then LastTo(cs).value else U64_MAX
  }

  lemma {:induction false} UnionHolds(cs: seq<Bounds>, c: Bounds)
    requires c in cs
    ensures UnionFrom(cs) <= c.from
    ensures c.to.Some? ==> LastTo(cs).Some? && c.to.value <= LastTo(cs).value
  {
    if |cs| > 1 && c != cs[0] {
      UnionHolds(cs[1..], c);
    }
  }

  /** The scopes of a run lie in the union range of the configured contracts. */
  lemma ScopesInUnion(cs: seq<Bounds>, requests: seq<Request>)
    requires forall q | q in requests :: Bounds(q.from, Some(q.to)) in cs
    ensures InUnion(requests, UnionFrom(cs), UnionTo(cs))
  {
    forall q | q in requests ensures UnionFrom(cs) <= q.from && q.to <= UnionTo(cs) {
      UnionHolds(cs, Bounds(q.from, Some(q.to)));
    }
  }

  lemma {:induction false} UnionEndIsGiven(cs: seq<Bounds>)
    ensures if LastTo(cs).Some? then exists c :: c in cs && c.to == LastTo(cs) else forall c | c in cs :: c.to.None?
  {
    if cs != [] {
      UnionEndIsGiven(cs[1..]);
      assert forall c :: c in cs <==> c == cs[0] || c in cs[1..];
    }
  }

  /** And each bound is one of theirs. */
  lemma {:induction false} UnionIsTight(cs: seq<Bounds>)
    requires cs != []
    ensures exists c :: c in cs && c.from == UnionFrom(cs)
    ensures if forall c | c in cs :: c.to.None? then UnionTo(cs) == U64_MAX
            else exists c :: c in cs && c.to == Some(UnionTo(cs))
  {
    assert forall c :: c in cs <==> c == cs[0] || c in cs[1..];
    if |cs| > 1 {
      UnionIsTight(cs[1..]);
    }
    UnionEndIsGiven(cs);
  }

  lemma WantedIsInUnion(path: string, range: Range, requests: seq<Request>, from: U64, to: U64)
    requires InUnion(requests, from, to) && Wanted(SourceFile(path, [range]), requests)
    ensures Overlaps(range, from, to)
  {
  }

  lemma SelectConcat(a: seq<SourceFile>, last: SourceFile, requests: seq<Request>)
    ensures Select(a + [last], requests) == Select(a, requests) + if Wanted(last, requests) then [last] else []
  {
    assert (a + [last])[..|a|] == a;
  }

  /** Filtering by the union range and then by each scope's range selects the same
      files as filtering by the scope ranges alone. */
  lemma {:induction false} UnionFilterIsHarmless(cs: seq<Candidate>, requests: seq<Request>, from: U64, to: U64)
    requires InUnion(requests, from, to)
    requires Scanned(cs, from, to).Ok?
    ensures Scanned(cs, 0, U64_MAX).Ok?
    ensures Select(Scanned(cs, from, to).value, requests) == Select(Scanned(cs, 0, U64_MAX).value, requests)
  {
    if cs != [] {
      var front, last := cs[..|cs| - 1], cs[|cs| - 1];
      UnionFilterIsHarmless(front, requests, from, to);
      OneMoreCandidate(Scanned(front, from, to).value, Scanned(front, 0, U64_MAX).value, last.path,
                       RangeOfCandidate(last.inferred, last.index.value), requests, from, to);
    }
  }

  lemma OneMoreCandidate(narrow: seq<SourceFile>, wide: seq<SourceFile>, path: string, range: Range,
                         requests: seq<Request>, from: U64, to: U64)
    requires InUnion(requests, from, to) && Select(narrow, requests) == Select(wide, requests)
    ensures var file := SourceFile(path, [range]);
            Select(narrow + if Overlaps(range, from, to) then [file] else [], requests)
            == Select(wide + if Overlaps(range, 0, U64_MAX) then [file] else [], requests)
  {
    hide Wanted, Select, InUnion;
    var file := SourceFile(path, [range]);
    SelectConcat(narrow, file, requests);
    SelectConcat(wide, file, requests);
    assert narrow + [] == narrow;
    if Wanted(file, requests) {
      WantedIsInUnion(path, range, requests, from, to);
    }
  }

  lemma {:induction false} SelectMembers(files: seq<SourceFile>, requests: seq<Request>, f: SourceFile)
    ensures f in Select(files, requests) <==> f in files && Wanted(f, requests)
  {
    hide Wanted;
    if files != [] {
      SelectMembers(files[..|files| - 1], requests, f);
      assert files == files[..|files| - 1] + [files[|files| - 1]];
    }
  }

  // ── What is scanned and selected ───────────────────────────────────────────

  predicate Between(n: int, from: int, to: int) {
    from <= n <= to
  }

  /** The two ranges have a block in common. */
  ghost predicate ShareBlock(r: Range, from: U64, to: U64) {
    exists n :: Between(n, r.from, r.to) && Between(n, from, to)
  }

  lemma OverlapsIff(r: Range, from: U64, to: U64)
    requires r.from <= r.to && from <= to
    ensures Overlaps(r, from, to) <==> ShareBlock(r, from, to)
  {
    if Overlaps(r, from, to) {
      var n := if r.from < from then from else r.from;
      assert Between(n, r.from, r.to) && Between(n, from, to);
    }
  }

  ghost predicate ForwardRequests(requests: seq<Request>) {
    forall q | q in requests :: q.from <= q.to
  }

  /** The files a run reads are exactly those that share a block with a scope. */
  lemma SelectedIff(files: seq<SourceFile>, requests: seq<Request>, f: SourceFile)
    requires Forward(f) && ForwardRequests(requests)
    ensures f in Select(files, requests) <==>
            f in files && exists r, q | r in f.ranges && q in requests :: ShareBlock(r, q.from, q.to)
  {
    hide Overlaps, ShareBlock;
    SelectMembers(files, requests, f);
    forall r, q | r in f.ranges && q in requests
      ensures Overlaps(r, q.from, q.to) <==> ShareBlock(r, q.from, q.to)
    {
      OverlapsIff(r, q.from, q.to);
    }
  }

  /** A file with an index is filed under the range of its index, any other under the
      range its name implies. */
  ghost predicate FiledAs(c: Candidate, f: SourceFile) {
    && f.path == c.path
    && match c.index
       case Ok(Some(range)) => f.ranges == [range]
       case Ok(None) => f.ranges == [c.inferred]
       case Err(_) => false
  }

  /** The scan fails exactly when some index cannot be read, with the first such error. */
  lemma {:induction false} ScanErrorIs(cs: seq<Candidate>, from: U64, to: U64)
    ensures match Scanned(cs, from, to)
            case Ok(_) => forall i | 0 <= i < |cs| :: cs[i].index.Ok?
            case Err(e) =>
              exists i :: 0 <= i < |cs| && cs[i].index == Err(e) && forall j | 0 <= j < i :: cs[j].index.Ok?
  {
    if cs != [] {
      var n := |cs| - 1;
      ScanErrorIs(cs[..n], from, to);
      assert forall i | 0 <= i < n :: cs[..n][i] == cs[i];
      if Scanned(cs[..n], from, to).Err? {
        assert Scanned(cs, from, to) == Err(Scanned(cs[..n], from, to).error);
      } else if cs[n].index.Err? {
        assert Scanned(cs, from, to) == Err(cs[n].index.error);
      }
    }
  }

  lemma FiledRange(c: Candidate, f: SourceFile)
    requires c.index.Ok?
    ensures FiledAs(c, f) <==> f == SourceFile(c.path, [RangeOfCandidate(c.inferred, c.index.value)])
  {
  }

  /** The scan keeps exactly the files whose range shares a block with `[from, to]`. */
  lemma {:induction false} ScannedIff(cs: seq<Candidate>, from: U64, to: U64, f: SourceFile)
    requires from <= to && Forward(f) && Scanned(cs, from, to).Ok?
    ensures f in Scanned(cs, from, to).value <==>
            && |f.ranges| == 1 && ShareBlock(f.ranges[0], from, to)
            && exists i :: 0 <= i < |cs| && FiledAs(cs[i], f)
  {
    hide Overlaps, ShareBlock, FiledAs, RangeOfCandidate;
    if cs != [] {
      var n := |cs| - 1;
      ScannedIff(cs[..n], from, to, f);
      FiledRange(cs[n], f);
      assert forall i | 0 <= i < n :: cs[..n][i] == cs[i];
      if FiledAs(cs[n], f) {
        OverlapsIff(f.ranges[0], from, to);
      }
    }
  }

  /** A scan without bounds keeps every file, in directory order. */
  lemma {:induction false} WholeScan(cs: seq<Candidate>)
    requires Scanned(cs, 0, U64_MAX).Ok?
    ensures var files := Scanned(cs, 0, U64_MAX).value;
            |files| == |cs| && forall i | 0 <= i < |cs| :: FiledAs(cs[i], files[i])
  {
    if cs != [] {
      WholeScan(cs[..|cs| - 1]);
    }
  }

  // ── The block stream ───────────────────────────────────────────────────────

  function RangeNumbers(r: Range): seq<U64> {
    if r.to < r.from then [] else seq(r.to - r.from + 1, i requires 0 <= i <= r.to - r.from => r.from + i)
  }

  function RangesNumbers(rs: seq<Range>): seq<U64> {
    if rs == [] then [] else RangesNumbers(rs[..|rs| - 1]) + RangeNumbers(rs[|rs| - 1])
  }

  /** The block numbers the selected files hold, file after file. */
  function Numbers(files: seq<SourceFile>): seq<U64> {
    if files == [] then [] else Numbers(files[..|files| - 1]) + RangesNumbers(files[|files| - 1].ranges)
  }

  function RangesTotal(rs: seq<Range>): nat {
    if rs == [] then 0
    else
      var r := rs[|rs| - 1];
      RangesTotal(rs[..|rs| - 1]) + (if r.to < r.from then 0 else r.to - r.from) + 1
  }

  /** The progress total: saturating differences plus one, summed. */
  function TotalBlocks(files: seq<SourceFile>): nat {
    if files == [] then 0 else TotalBlocks(files[..|files| - 1]) + RangesTotal(files[|files| - 1].ranges)
  }

  ghost predicate Forward(f: SourceFile) {
    forall i | 0 <= i < |f.ranges| :: f.ranges[i].from <= f.ranges[i].to
  }

  lemma {:induction false} RangesTotalCounts(rs: seq<Range>)
    requires forall i | 0 <= i < |rs| :: rs[i].from <= rs[i].to
    ensures RangesTotal(rs) == |RangesNumbers(rs)|
  {
    if rs != [] {
      RangesTotalCounts(rs[..|rs| - 1]);
    }
  }

  lemma {:induction false} TotalCounts(files: seq<SourceFile>)
    requires forall i | 0 <= i < |files| :: Forward(files[i])
    ensures TotalBlocks(files) == |Numbers(files)|
  {
    if files != [] {
      TotalCounts(files[..|files| - 1]);
      assert Forward(files[|files| - 1]);
      RangesTotalCounts(files[|files| - 1].ranges);
    }
  }

  /** How opening a file goes: its items, or nothing. */
  type Opener = string -> Option<seq<Item>>

  /** One stream over all selected files; a file that cannot be opened is one error item. */
  function Blocks(open: Opener, files: seq<SourceFile>): seq<Item> {
    if files == [] then []
    else
      Blocks(open, files[..|files| - 1])
      + match open(files[|files| - 1].path) case Some(items) => items case None => [ReadError]
  }

  /** Reading the file gives an error. */
  ghost predicate Unreadable(open: Opener, f: SourceFile) {
    match open(f.path)
    case Some(items) => exists i :: 0 <= i < |items| && items[i].ReadError?
    case None => true
  }

  /** The stream has a read error exactly when some file cannot be opened or has one. */
  lemma {:induction false} StreamErrorIff(open: Opener, files: seq<SourceFile>)
    ensures ReadErrorSeen(Blocks(open, files), |Blocks(open, files)|) <==>
            exists i :: 0 <= i < |files| && Unreadable(open, files[i])
  {
    if files != [] {
      var n := |files| - 1;
      var front, last := files[..n], files[n];
      var stream, before := Blocks(open, files), Blocks(open, front);
      StreamErrorIff(open, front);
      assert forall i | 0 <= i < n :: front[i] == files[i];
      assert forall i | 0 <= i < |before| :: stream[i] == before[i];
      if Unreadable(open, last) {
        match open(last.path) {
          case Some(items) =>
            var i :| 0 <= i < |items| && items[i].ReadError?;
            assert stream[|before| + i] == items[i];
          case None =>
            assert stream[|before|].ReadError?;
        }
        assert Unreadable(open, files[n]);
      }
    }
  }

  /** Where the i-th file's items begin: one place per item of a file that can be
      opened, and one for a file that cannot. */
  function StreamPlace(open: Opener, files: seq<SourceFile>, i: nat): nat
    requires i <= |files|
  {
    if i == 0 then 0
    else
      var found := open(files[i - 1].path);
      StreamPlace(open, files, i - 1) + if found.Some? then |found.value| else 1
  }

  lemma BlocksNext(open: Opener, files: seq<SourceFile>, i: nat)
    requires i < |files|
    ensures var found := open(files[i].path);
            Blocks(open, files[..i + 1])
            == Blocks(open, files[..i]) + if found.Some? then found.value else [ReadError]
  {
    assert files[..i + 1][..i] == files[..i];
  }

  lemma {:induction false} StreamPlaceIs(open: Opener, files: seq<SourceFile>, i: nat)
    requires i <= |files|
    ensures |Blocks(open, files[..i])| == StreamPlace(open, files, i)
  {
    if i > 0 {
      StreamPlaceIs(open, files, i - 1);
      BlocksNext(open, files, i - 1);
    }
  }

  lemma {:induction false} StreamGrows(open: Opener, files: seq<SourceFile>, i: nat, n: nat)
    requires i <= n <= |files|
    ensures Blocks(open, files[..i]) <= Blocks(open, files[..n])
  {
    hide Blocks;
    if i < n {
      StreamGrows(open, files, i, n - 1);
      BlocksNext(open, files, n - 1);
    }
  }

  /** Every file's items are in the stream, in the order of the files and none dropped. */
  lemma StreamInOrder(open: Opener, files: seq<SourceFile>, i: nat)
    requires i < |files|
    ensures var stream := Blocks(open, files);
            var place, next := StreamPlace(open, files, i), StreamPlace(open, files, i + 1);
            && |stream| == StreamPlace(open, files, |files|)
            && place <= next <= |stream|
            && stream[place..next] == if open(files[i].path).Some? then open(files[i].path).value else [ReadError]
  {
    hide Blocks, StreamPlace;
    StreamPlaceIs(open, files, i);
    StreamPlaceIs(open, files, i + 1);
    StreamPlaceIs(open, files, |files|);
    BlocksNext(open, files, i);
    StreamGrows(open, files, i + 1, |files|);
    assert files[..|files|] == files;
    var upTo := Blocks(open, files[..i + 1]);
    var place, next := StreamPlace(open, files, i), StreamPlace(open, files, i + 1);
    assert Blocks(open, files)[..next] == upTo;
    assert Blocks(open, files)[place..next] == upTo[place..];
  }

  /** A scope is reported with a source failure exactly when none of its own blocks
      failed and some file that was selected cannot be opened or read to its end; such
      a file leaves every scope incomplete. */
  lemma SourceFailureIff(r: Run, db: Tables, i: nat, open: Opener, files: seq<SourceFile>, requests: seq<Request>)
    requires i < |r.scopes| && r.stream == Blocks(open, Select(files, requests))
    ensures var p := RunResult(r, db).phase;
            var bad := exists f :: f in files && Wanted(f, requests) && Unreadable(open, f);
            && i < |p.verdicts|
            && (bad ==> p.verdicts[i].Incomplete?)
            && (p.verdicts[i] == Incomplete(SourceFailure) <==> bad && !BlockFails(r, r.scopes[i]))
  {
    hide RunResult, FirstFailure, StoreFails, ReadErrorSeen, FailingBlock, GapsFrom, Blocks, Select, Wanted;
    hide Unreadable;
    VerdictExact(r, db, i);
    FirstFailureIff(r.env, r.scopes, r.scopes[i], r.stream, |r.stream|);
    var selected := Select(files, requests);
    StreamErrorIff(open, selected);
    forall f ensures f in selected <==> f in files && Wanted(f, requests) {
      SelectMembers(files, requests, f);
    }
    if j :| 0 <= j < |selected| && Unreadable(open, selected[j]) {
      assert selected[j] in selected;
    }
    if f :| f in files && Wanted(f, requests) && Unreadable(open, f) {
      assert f in selected;
      var j :| 0 <= j < |selected| && selected[j] == f;
    }
  }

  /** The stream is free of errors and its numbers are these. */
  ghost predicate Carries(items: seq<Item>, numbers: seq<U64>) {
    |items| == |numbers| && forall i | 0 <= i < |items| :: items[i].Block? && items[i].facts.blockNumber == numbers[i]
  }

  ghost predicate CleanFile(open: Opener, f: SourceFile) {
    open(f.path).Some? && Carries(open(f.path).value, RangesNumbers(f.ranges))
  }

  /** Clean files give a stream with exactly the blocks of their ranges, in order,
      as many as the progress total says. */
  lemma {:induction false} CleanStream(open: Opener, files: seq<SourceFile>)
    requires forall i | 0 <= i < |files| :: CleanFile(open, files[i]) && Forward(files[i])
    ensures Carries(Blocks(open, files), Numbers(files))
    ensures |Blocks(open, files)| == TotalBlocks(files)
  {
    hide Carries, RangesNumbers, Forward;
    TotalCounts(files);
    if files == [] {
      CarriesNone();
    } else {
      var front, last := files[..|files| - 1], files[|files| - 1];
      CleanStream(open, front);
      assert CleanFile(open, files[|files| - 1]);
      CarriesConcat(Blocks(open, front), Numbers(front), open(last.path).value, RangesNumbers(last.ranges));
    }
    CarriedLength(Blocks(open, files), Numbers(files));
  }

  lemma CarriesNone()
    ensures Carries([], [])
  {
  }

  lemma CarriesConcat(a: seq<Item>, an: seq<U64>, b: seq<Item>, bn: seq<U64>)
    requires Carries(a, an) && Carries(b, bn)
    ensures Carries(a + b, an + bn)
  {
  }

  lemma {:induction false} SeenNumbers(s: Scope, items: seq<Item>, numbers: seq<U64>, pos: nat)
    requires Carries(items, numbers) && pos <= |items|
    ensures forall n :: n in BlocksSeen(s, items, pos) <==> ContainsBlockNumber(s, n) && n in numbers[..pos]
    ensures NonDescending(numbers) ==> NonDescending(BlocksSeen(s, items, pos))
  {
    if pos > 0 {
      SeenNumbers(s, items, numbers, pos - 1);
      assert numbers[..pos] == numbers[..pos - 1] + [numbers[pos - 1]];
      if NonDescending(numbers) {
        var before := BlocksSeen(s, items, pos - 1);
        forall i | 0 <= i < |before| ensures before[i] <= numbers[pos - 1] {
          assert before[i] in numbers[..pos - 1];
        }
      }
    }
  }

  predicate ContainsBlockNumber(s: Scope, n: int) {
    s.from <= n <= s.to
  }

  lemma {:induction false} NumbersMembers(files: seq<SourceFile>, n: int)
    ensures n in Numbers(files) <==> exists f :: f in files && n in RangesNumbers(f.ranges)
  {
    hide RangesNumbers;
    if files != [] {
      var front, last := files[..|files| - 1], files[|files| - 1];
      NumbersMembers(front, n);
      assert files == front + [last];
      if n in Numbers(front) {
        var f :| f in front && n in RangesNumbers(f.ranges);
        assert f in files;
      }
      if n in RangesNumbers(last.ranges) {
        assert last in files;
      }
      if f :| f in files && n in RangesNumbers(f.ranges) {
        assert f in front || f == last;
      }
    }
  }

  lemma {:induction false} RangesMembers(rs: seq<Range>, n: int)
    requires n in RangesNumbers(rs)
    ensures exists r :: r in rs && r.from <= n <= r.to
  {
    var last := rs[|rs| - 1];
    if n in RangeNumbers(last) {
      assert last in rs && last.from <= n <= last.to;
    } else {
      RangesMembers(rs[..|rs| - 1], n);
      var r :| r in rs[..|rs| - 1] && r.from <= n <= r.to;
      assert r in rs;
    }
  }

  /** Selection drops no file that holds a block of a request. */
  lemma SelectionKeepsBlocks(files: seq<SourceFile>, requests: seq<Request>, q: Request, n: int)
    requires q in requests && q.from <= n <= q.to
    ensures n in Numbers(Select(files, requests)) <==> n in Numbers(files)
  {
    hide Numbers, RangesNumbers, Select;
    NumbersMembers(files, n);
    NumbersMembers(Select(files, requests), n);
    if f :| f in files && n in RangesNumbers(f.ranges) {
      RangesMembers(f.ranges, n);
      var r :| r in f.ranges && r.from <= n <= r.to;
      assert Overlaps(r, q.from, q.to);
      SelectMembers(files, requests, f);
    }
    if f :| f in Select(files, requests) && n in RangesNumbers(f.ranges) {
      SelectMembers(files, requests, f);
    }
  }

  /** One range per file, as a scan builds them, in ascending order without overlap. */
  ghost predicate Ascending(files: seq<SourceFile>) {
    && (forall i | 0 <= i < |files| :: |files[i].ranges| == 1 && Forward(files[i]))
    && (forall i, j | 0 <= i < j < |files| :: files[i].ranges[0].to < files[j].ranges[0].from)
  }

  lemma AscendingSnoc(files: seq<SourceFile>, last: SourceFile)
    ensures Ascending(files + [last]) <==>
            && Ascending(files) && |last.ranges| == 1 && Forward(last)
            && forall i | 0 <= i < |files| :: files[i].ranges[0].to < last.ranges[0].from
  {
    var all := files + [last];
    assert all[|files|] == last && forall i | 0 <= i < |files| :: all[i] == files[i];
    if Ascending(all) {
      assert Forward(all[|files|]);
      forall i | 0 <= i < |files| ensures |files[i].ranges| == 1 && Forward(files[i]) {
        assert |all[i].ranges| == 1 && Forward(all[i]);
      }
    }
  }

  lemma {:induction false} SelectAscending(files: seq<SourceFile>, requests: seq<Request>)
    requires Ascending(files)
    ensures Ascending(Select(files, requests))
  {
    if files != [] {
      var front, last := files[..|files| - 1], files[|files| - 1];
      assert files == front + [last];
      AscendingSnoc(front, last);
      SelectAscending(front, requests);
      var chosen := Select(front, requests);
      forall i | 0 <= i < |chosen| ensures chosen[i].ranges[0].to < last.ranges[0].from {
        SelectMembers(front, requests, chosen[i]);
      }
      hide Ascending, Wanted;
      AscendingSnoc(chosen, last);
      assert chosen + [] == chosen;
    }
  }

  ghost predicate AllBelow(numbers: seq<U64>, bound: int) {
    forall i | 0 <= i < |numbers| :: numbers[i] < bound
  }

  lemma AppendRange(before: seq<U64>, r: Range)
    requires r.from <= r.to && NonDescending(before) && AllBelow(before, r.from)
    ensures NonDescending(before + RangeNumbers(r)) && AllBelow(before + RangeNumbers(r), r.to + 1)
  {
  }

  lemma OneRange(rs: seq<Range>)
    requires |rs| == 1
    ensures RangesNumbers(rs) == RangeNumbers(rs[0])
  {
    hide RangeNumbers;
    assert rs[..|rs| - 1] == [];
    assert RangesNumbers([]) == [];
    assert [] + RangeNumbers(rs[0]) == RangeNumbers(rs[0]);
  }

  /** No number lies beyond the last file's range. */
  ghost predicate EndBound(files: seq<SourceFile>) {
    var n := |files| - 1;
    files != [] && |files[n].ranges| == 1 ==> AllBelow(Numbers(files), files[n].ranges[0].to + 1)
  }

  lemma {:induction false} AscendingNumbers(files: seq<SourceFile>)
    requires Ascending(files)
    ensures NonDescending(Numbers(files)) && EndBound(files)
  {
    hide RangeNumbers, RangesNumbers, NonDescending, AllBelow, Ascending, Forward;
    if files == [] {
      NoNumbers();
    } else {
      var front, last := files[..|files| - 1], files[|files| - 1];
      assert files == front + [last];
      AscendingSnoc(front, last);
      AscendingNumbers(front);
      LastFollows(front, last);
      OneRange(last.ranges);
      AppendRange(Numbers(front), last.ranges[0]);
    }
  }

  lemma LastFollows(front: seq<SourceFile>, last: SourceFile)
    requires Ascending(front + [last]) && EndBound(front)
    ensures |last.ranges| == 1 && last.ranges[0].from <= last.ranges[0].to
    ensures AllBelow(Numbers(front), last.ranges[0].from)
  {
    hide Numbers, RangeNumbers;
    AscendingSnoc(front, last);
    if front == [] {
      NoNumbers();
    }
  }

  lemma NoNumbers()
    ensures Numbers([]) == [] && NonDescending([])
  {
  }

  /** A stream that carries numbers has no read error. */
  lemma CleanStreamReads(items: seq<Item>, numbers: seq<U64>)
    requires Carries(items, numbers)
    ensures !ReadErrorSeen(items, |items|)
  {
  }

  /** End to end: reading clean files in ascending order, a scope is covered exactly
      when no block of its range failed, every store that was needed succeeded, the
      write of its coverage succeeded, and the files of the directory hold every
      block of its range. */
  lemma CoveredIffFilesHoldRange(r: Run, db: Tables, i: nat, open: Opener, files: seq<SourceFile>,
                                 requests: seq<Request>)
    requires i < |r.scopes| && r.scopes[i].from <= r.scopes[i].to < U64_MAX
    requires r.stream == Blocks(open, Select(files, requests))
    requires Request(r.scopes[i].from, r.scopes[i].to) in requests
    requires Ascending(files) && forall f | f in files :: CleanFile(open, f)
    ensures var p, s := RunResult(r, db).phase, r.scopes[i];
            && i < |p.verdicts|
            && (p.verdicts[i] == Covered <==>
                  && !BlockFails(r, s) && !StoreFails(r, |r.stream|) && r.covers(i, 0).Applied?
                  && forall n | s.from <= n <= s.to :: n in Numbers(files))
  {
    hide RunResult, Numbers, Select, Blocks, BlocksSeen, NonDescending, Carries, CleanFile, Forward, StoreFails;
    hide BlockFails, ReadErrorSeen;
    var s := r.scopes[i];
    var selected := Select(files, requests);
    var numbers := Numbers(selected);
    SelectAscending(files, requests);
    AscendingNumbers(selected);
    forall j | 0 <= j < |selected| ensures CleanFile(open, selected[j]) && Forward(selected[j]) {
      SelectMembers(files, requests, selected[j]);
    }
    CleanStream(open, selected);
    CleanStreamReads(r.stream, numbers);
    SeenNumbers(s, r.stream, numbers, |r.stream|);
    CarriedLength(r.stream, numbers);
    assert numbers[..|r.stream|] == numbers;
    CoveredIffAllArrived(r, db, i);
    forall n | s.from <= n <= s.to ensures n in BlocksSeen(s, r.stream, |r.stream|) <==> n in Numbers(files) {
      SelectionKeepsBlocks(files, requests, Request(s.from, s.to), n);
    }
  }

  lemma CarriedLength(items: seq<Item>, numbers: seq<U64>)
    requires Carries(items, numbers)
    ensures |items| == |numbers|
  {
  }
}
