/**
  Reading the pieces of a CDN task: `UpdateProgress` stores them by number
  (cdn/supervisor/task/manager.go), `GetSeedPieces` sorts them (cdn/supervisor/service.go) and
  `GetPieceTasks` serves them page by page (cdn/rpcserver/rpcserver.go).
 */
module SeedPieces {
  import opened SeedStream
  import opened Wrappers

  /** Every piece is stored under its own number. */
  ghost predicate Keyed(m: PieceMap) {
    forall n | n in m :: m[n].num == n
  }

  class PieceStore {
    var pieces: PieceMap

    constructor ()
      ensures pieces == map[] && Keyed(pieces)
    {
      pieces := map[];
    }

    method UpdateProgress(info: CdnPiece)
      modifies this
      ensures pieces == old(pieces)[info.num := info]
      ensures old(Keyed(pieces)) ==> Keyed(pieces)
    {
      pieces := pieces[info.num := info];
    }
  }

  ghost predicate Increasing(s: seq<CdnPiece>) {
    forall i, j | 0 <= i < j < |s| :: s[i].num < s[j].num
  }

  ghost predicate Sorted(s: seq<CdnPiece>) {
    forall i, j | 0 <= i < j < |s| :: s[i].num <= s[j].num
  }

  /** The pieces of the map in increasing order, each exactly once. */
  ghost predicate Lists(s: seq<CdnPiece>, m: PieceMap) {
    && Increasing(s)
    && forall p: CdnPiece :: p in s <==> p.num in m && m[p.num] == p
  }

  lemma InsertKeepsSorted(s: seq<CdnPiece>, at: nat, p: CdnPiece)
    requires Sorted(s) && at <= |s|
    requires forall j | 0 <= j < at :: s[j].num <= p.num
    requires forall j | at <= j < |s| :: p.num <= s[j].num
    ensures Sorted(s[..at] + [p] + s[at..])
    ensures Increasing(s) && (forall j | 0 <= j < |s| :: s[j].num != p.num) ==> Increasing(s[..at] + [p] + s[at..])
  {
  }

  lemma InsertAddsOne(s: seq<CdnPiece>, at: nat, p: CdnPiece)
    requires at <= |s|
    ensures multiset(s[..at] + [p] + s[at..]) == multiset(s) + multiset{p}
  {
    assert s == s[..at] + s[at..];
  }

  method InsertByPieceNum(s: seq<CdnPiece>, p: CdnPiece) returns (r: seq<CdnPiece>)
    requires Sorted(s)
    ensures Sorted(r) && multiset(r) == multiset(s) + multiset{p}
    ensures Increasing(s) && (forall j | 0 <= j < |s| :: s[j].num != p.num) ==> Increasing(r)
  {
    var at := 0;
    while at < |s| && s[at].num <= p.num
      invariant at <= |s| && forall j | 0 <= j < at :: s[j].num <= p.num
    {
      at := at + 1;
    }
    InsertKeepsSorted(s, at, p);
    InsertAddsOne(s, at, p);
    r := s[..at] + [p] + s[at..];
  }

  ghost predicate DistinctNums(s: seq<CdnPiece>) {
    forall i, j | 0 <= i < j < |s| :: s[i].num != s[j].num
  }

  lemma NewNum(s: seq<CdnPiece>, i: nat, r: seq<CdnPiece>)
    requires DistinctNums(s) && i < |s| && multiset(r) == multiset(s[..i])
    ensures forall j | 0 <= j < |r| :: r[j].num != s[i].num
  {
    forall j | 0 <= j < |r| ensures r[j].num != s[i].num {
      assert r[j] in multiset(r);
      assert r[j] in s[..i];
    }
  }

  /** A sort by piece number, standing for sort.Slice. */
  method SortByPieceNum(s: seq<CdnPiece>) returns (r: seq<CdnPiece>)
    ensures Sorted(r) && multiset(r) == multiset(s)
    ensures DistinctNums(s) ==> Increasing(r)
  {
    r := [];
    for i := 0 to |s|
      invariant Sorted(r) && multiset(r) == multiset(s[..i])
      invariant DistinctNums(s) ==> Increasing(r)
    {
      if DistinctNums(s) {
        NewNum(s, i, r);
      }
      assert s[..i + 1] == s[..i] + [s[i]];
      r := InsertByPieceNum(r, s[i]);
    }
    assert s[..|s|] == s;
  }

  method GetSeedPieces(pieceMap: PieceMap) returns (pieces: seq<CdnPiece>)
    requires Keyed(pieceMap)
    ensures Lists(pieces, pieceMap)
  {
    pieces := [];
    var left := pieceMap.Keys;
    while left != {}
      invariant left <= pieceMap.Keys
      invariant DistinctNums(pieces)
      invariant forall p :: p in pieces <==> p.num in pieceMap && p.num !in left && pieceMap[p.num] == p
      decreases left
    {
      var n :| n in left;
      assert forall i | 0 <= i < |pieces| :: pieces[i] in pieces && pieces[i].num != n;
      pieces := pieces + [pieceMap[n]];
      left := left - {n};
    }
    var sorted := SortByPieceNum(pieces);
    assert forall p :: p in sorted <==> p in multiset(sorted);
    assert forall p :: p in pieces <==> p in multiset(pieces);
    pieces := sorted;
  }

  // ---------------------------------------------------------------------------------------------
  // Paging
  // ---------------------------------------------------------------------------------------------

  function From(pieces: seq<CdnPiece>, start: Uint32): seq<CdnPiece> {
    if pieces == [] then []
    else (if pieces[0].num >= start then [pieces[0]] else []) + From(pieces[1..], start)
  }

  function Take(s: seq<CdnPiece>, limit: Uint32): seq<CdnPiece> {
    if limit == 0 || |s| <= limit then s else s[..limit]
  }

  /** A page: the first `limit` pieces from `start` on, or all of them when the limit is zero. */
  function Page(pieces: seq<CdnPiece>, start: Uint32, limit: Uint32): seq<CdnPiece> {
    Take(From(pieces, start), limit)
  }

  function ToBases(pieces: seq<CdnPiece>): seq<BasePiece> {
    seq(|pieces|, i requires 0 <= i < |pieces| => ToBase(pieces[i]))
  }

  lemma {:induction false} FromAppend(pieces: seq<CdnPiece>, p: CdnPiece, start: Uint32)
    ensures From(pieces + [p], start) == From(pieces, start) + if p.num >= start then [p] else []
  {
    if pieces != [] {
      FromAppend(pieces[1..], p, start);
      assert (pieces + [p])[1..] == pieces[1..] + [p];
    } else {
      assert pieces + [p] == [p];
    }
  }

  method CollectPage(pieces: seq<CdnPiece>, startNum: Uint32, limit: Uint32) returns (infos: seq<BasePiece>)
    ensures infos == ToBases(Page(pieces, startNum, limit))
  {
    infos := [];
    ghost var page: seq<CdnPiece> := [];
    var count := 0;
    for i := 0 to |pieces|
      invariant page == Page(pieces[..i], startNum, limit)
      invariant infos == ToBases(page) && count == |page|
    {
      assert pieces[..i + 1] == pieces[..i] + [pieces[i]];
      FromAppend(pieces[..i], pieces[i], startNum);
      if pieces[i].num >= startNum && (count < limit || limit <= 0) {
        infos := infos + [ToBase(pieces[i])];
        page := page + [pieces[i]];
        count := count + 1;
      }
    }
    assert pieces[..|pieces|] == pieces;
  }

  datatype PieceError = TaskNotFound | TaskLookupFailed | TaskFailed | PiecesLookupFailed
  datatype PageResult = Served(infos: seq<BasePiece>) | Refused(error: PieceError)

  /** A CDN task as GetPieceTasks finds it: whether it is in an error state, and its pieces if they
      can be read. */
  datatype TaskEntry = Missing | Unreadable | Entry(failed: bool, pieces: Option<PieceMap>)

  method GetPieceTasks(entry: TaskEntry, startNum: Uint32, limit: Uint32) returns (r: PageResult)
    requires entry.Entry? && entry.pieces.Some? ==> Keyed(entry.pieces.value)
    ensures r.Served? <==> entry.Entry? && !entry.failed && entry.pieces.Some?
    ensures r.Served? ==> exists sorted :: Lists(sorted, entry.pieces.value) && r.infos == ToBases(Page(sorted, startNum, limit))
    ensures r.Refused? ==> (r.error == TaskNotFound <==> entry.Missing?) && (r.error == TaskFailed <==> entry.Entry? && entry.failed)
  {
    if entry.Missing? {
      return Refused(TaskNotFound);
    }
    if entry.Unreadable? {
      return Refused(TaskLookupFailed);
    }
    if entry.failed {
      return Refused(TaskFailed);
    }
    if entry.pieces.None? {
      return Refused(PiecesLookupFailed);
    }
    var pieces := GetSeedPieces(entry.pieces.value);
    var infos := CollectPage(pieces, startNum, limit);
    r := Served(infos);
  }

  lemma {:induction false} IncreasingIsBounded(s: seq<CdnPiece>, bound: int)
    requires Increasing(s) && 0 <= bound && forall i | 0 <= i < |s| :: s[i].num < bound
    ensures |s| <= bound
  {
    if s != [] {
      IncreasingIsBounded(s[..|s| - 1], s[|s| - 1].num);
    }
  }

  /** The start number a client asks for next, in the uint32 of the request. */
  function NextStart(page: seq<CdnPiece>): Uint32
    requires page != []
  {
    var last := page[|page| - 1].num;
    if last == TWO_32 - 1 then 0 else last + 1
  }

  /** Everything a client gets that asks for page after page until one is empty. */
  function Enumerate(pieces: seq<CdnPiece>, start: Uint32, limits: seq<Uint32>): seq<CdnPiece>
    decreases |limits|
  {
    if limits == [] then []
    else
      var page := Page(pieces, start, limits[0]);
      if page == [] then [] else page + Enumerate(pieces, NextStart(page), limits[1..])
  }

  function Sum(limits: seq<Uint32>): nat {
    if limits == [] then 0 else limits[0] + Sum(limits[1..])
  }

  function Min(a: nat, b: nat): nat {
    if a <= b then a else b
  }

  ghost predicate AllPositive(limits: seq<Uint32>) {
    forall i | 0 <= i < |limits| :: limits[i] > 0
  }

  /** `start` is past the first k pieces and not past the others. */
  ghost predicate Splits(pieces: seq<CdnPiece>, k: nat, start: Uint32) {
    && k <= |pieces|
    && (forall i | 0 <= i < k :: pieces[i].num < start)
    && (forall i | k <= i < |pieces| :: pieces[i].num >= start)
  }

  /** On sorted pieces the filter is a suffix. */
  lemma {:induction false} FromIsSuffix(pieces: seq<CdnPiece>, start: Uint32, k: nat)
    requires Increasing(pieces)
    requires Splits(pieces, k, start)
    ensures From(pieces, start) == pieces[k..]
  {
    if pieces != [] {
      if k == 0 {
        FromIsSuffix(pieces[1..], start, 0);
      } else {
        FromIsSuffix(pieces[1..], start, k - 1);
        assert pieces[1..][k - 1..] == pieces[k..];
      }
    }
  }

  /** With limit zero a page is the whole remaining suffix. */
  lemma UnlimitedPageIsSuffix(pieces: seq<CdnPiece>, start: Uint32, k: nat)
    requires Increasing(pieces)
    requires Splits(pieces, k, start)
    ensures Page(pieces, start, 0) == pieces[k..]
  {
    FromIsSuffix(pieces, start, k);
  }

  lemma PageIsSlice(pieces: seq<CdnPiece>, k: nat, start: Uint32, limit: Uint32)
    requires Increasing(pieces) && limit > 0
    requires Splits(pieces, k, start)
    ensures Page(pieces, start, limit) == pieces[k..Min(k + limit, |pieces|)]
  {
    FromIsSuffix(pieces, start, k);
  }

  lemma SlicesJoin(pieces: seq<CdnPiece>, a: nat, b: nat, c: nat)
    requires a <= b <= c <= |pieces|
    ensures pieces[a..b] + pieces[b..c] == pieces[a..c]
  {
  }

  lemma NextStartAfterSlice(pieces: seq<CdnPiece>, a: nat, b: nat)
    requires Increasing(pieces) && a < b <= |pieces| && pieces[b - 1].num != TWO_32 - 1
    ensures Splits(pieces, b, NextStart(pieces[a..b]))
  {
  }

  ghost predicate NoLastNumber(pieces: seq<CdnPiece>) {
    forall i | 0 <= i < |pieces| :: pieces[i].num != TWO_32 - 1
  }

  /** The same enumeration by position instead of by number. */
  function Slices(pieces: seq<CdnPiece>, k: nat, limits: seq<Uint32>): seq<CdnPiece>
    requires k <= |pieces|
    decreases |limits|
  {
    if limits == [] || k == |pieces| then []
    else
      var k' := Min(k + limits[0], |pieces|);
      pieces[k..k'] + Slices(pieces, k', limits[1..])
  }

  lemma {:induction false} SlicesIsPrefix(pieces: seq<CdnPiece>, k: nat, limits: seq<Uint32>)
    requires k <= |pieces|
    ensures Slices(pieces, k, limits) == pieces[k..Min(k + Sum(limits), |pieces|)]
    decreases |limits|
  {
    if limits != [] && k < |pieces| {
      var k' := Min(k + limits[0], |pieces|);
      SlicesIsPrefix(pieces, k', limits[1..]);
      SlicesJoin(pieces, k, k', Min(k' + Sum(limits[1..]), |pieces|));
    }
  }

  lemma EnumerateAfterPage(pieces: seq<CdnPiece>, a: nat, b: nat, start: Uint32, limits: seq<Uint32>)
    requires a < b <= |pieces| && limits != [] && Page(pieces, start, limits[0]) == pieces[a..b]
    ensures Enumerate(pieces, start, limits) == pieces[a..b] + Enumerate(pieces, NextStart(pieces[a..b]), limits[1..])
  {
  }

  lemma OnePageOn(pieces: seq<CdnPiece>, k: nat, start: Uint32, limits: seq<Uint32>)
    requires Increasing(pieces) && NoLastNumber(pieces) && Splits(pieces, k, start) && k < |pieces|
    requires limits != [] && limits[0] > 0
    ensures var k' := Min(k + limits[0], |pieces|);
            && Splits(pieces, k', NextStart(pieces[k..k']))
            && Enumerate(pieces, start, limits) == pieces[k..k'] + Enumerate(pieces, NextStart(pieces[k..k']), limits[1..])
  {
    var k' := Min(k + limits[0], |pieces|);
    PageIsSlice(pieces, k, start, limits[0]);
    NextStartAfterSlice(pieces, k, k');
    EnumerateAfterPage(pieces, k, k', start, limits);
  }

  lemma {:induction false} EnumeratesSlices(pieces: seq<CdnPiece>, k: nat, start: Uint32, limits: seq<Uint32>)
    requires Increasing(pieces) && AllPositive(limits) && NoLastNumber(pieces) && Splits(pieces, k, start)
    ensures Enumerate(pieces, start, limits) == Slices(pieces, k, limits)
    decreases |limits|
  {
    if limits != [] {
      if k < |pieces| {
        var k' := Min(k + limits[0], |pieces|);
        OnePageOn(pieces, k, start, limits);
        EnumeratesSlices(pieces, k', NextStart(pieces[k..k']), limits[1..]);
      } else {
        PageIsSlice(pieces, k, start, limits[0]);
      }
    }
  }

  lemma FirstPageAgain(pieces: seq<CdnPiece>, limits: seq<Uint32>)
    requires Increasing(pieces) && pieces != [] && limits != [] && limits[0] == 1
    ensures |Enumerate(pieces, 0, limits)| >= 1
  {
    PageIsSlice(pieces, 0, 0, 1);
    EnumerateAfterPage(pieces, 0, 1, 0, limits);
  }

  lemma LastPageThenFirst(pieces: seq<CdnPiece>, start: Uint32, k: nat, limits: seq<Uint32>)
    requires Increasing(pieces) && k < |pieces| && pieces[|pieces| - 1].num == TWO_32 - 1 && Splits(pieces, k, start)
    requires |limits| >= 2 && limits[0] >= |pieces| - k && limits[1] == 1
    ensures |Enumerate(pieces, start, limits)| > |pieces| - k
  {
    PageIsSlice(pieces, k, start, limits[0]);
    EnumerateAfterPage(pieces, k, |pieces|, start, limits);
    assert NextStart(pieces[k..|pieces|]) == 0;
    FirstPageAgain(pieces, limits[1..]);
  }

  /** Paging past a piece numbered 2^32 - 1 starts over: the next start number wraps to zero. */
  lemma PagingWraps(pieces: seq<CdnPiece>)
    requires Increasing(pieces) && pieces != [] && pieces[|pieces| - 1].num == TWO_32 - 1
    ensures |Enumerate(pieces, 0, [TWO_32 - 1, 1, 1])| > |pieces|
  {
    var limits: seq<Uint32> := [TWO_32 - 1, 1, 1];
    IncreasingIsBounded(pieces, TWO_32);
    if |pieces| < TWO_32 {
      LastPageThenFirst(pieces, 0, 0, limits);
    } else {
      WrapsAfterTwoPages(pieces, limits);
    }
  }

  /** All 2^32 numbers are there: the first page ends one short of the last. */
  lemma WrapsAfterTwoPages(pieces: seq<CdnPiece>, limits: seq<Uint32>)
    requires Increasing(pieces) && |pieces| == TWO_32 && pieces[|pieces| - 1].num == TWO_32 - 1
    requires |limits| == 3 && limits[0] == TWO_32 - 1 && limits[1] == limits[2] == 1
    ensures |Enumerate(pieces, 0, limits)| > |pieces|
  {
    var last := |pieces| - 1;
    PageIsSlice(pieces, 0, 0, TWO_32 - 1);
    EnumerateAfterPage(pieces, 0, last, 0, limits);
    AllNumbers(pieces, last - 1);
    AllBelowLast(pieces);
    LastPageThenFirst(pieces, TWO_32 - 1, last, limits[1..]);
  }

  lemma AllBelowLast(pieces: seq<CdnPiece>)
    requires Increasing(pieces) && pieces != []
    ensures forall i | 0 <= i < |pieces| - 1 :: pieces[i].num < pieces[|pieces| - 1].num
  {
  }

  /** 2^32 increasing numbers below 2^32 are all of them. */
  lemma AllNumbers(pieces: seq<CdnPiece>, i: nat)
    requires Increasing(pieces) && |pieces| == TWO_32 && i < |pieces|
    ensures pieces[i].num == i
  {
    IncreasingIsBounded(pieces[..i], pieces[i].num);
    IncreasingAbove(pieces[i + 1..], pieces[i].num);
  }

  lemma {:induction false} IncreasingAbove(s: seq<CdnPiece>, low: int)
    requires Increasing(s) && 0 <= low < TWO_32 && forall i | 0 <= i < |s| :: s[i].num > low
    ensures |s| <= TWO_32 - 1 - low
  {
    if s != [] {
      IncreasingAbove(s[1..], s[0].num);
    }
  }

  ghost predicate PagesExactly(pieces: seq<CdnPiece>, limits: seq<Uint32>) {
    Enumerate(pieces, 0, limits) == pieces[..Min(Sum(limits), |pieces|)]
  }

  /** Paging with any positive limits enumerates the pieces in increasing order, each exactly once,
      until the limits or the pieces run out: exactly when no piece has the number 2^32 - 1. */
  lemma PagingIsExact(pieces: seq<CdnPiece>)
    requires Increasing(pieces)
    ensures (forall limits: seq<Uint32> | AllPositive(limits) :: PagesExactly(pieces, limits))
            <==> NoLastNumber(pieces)
  {
    if NoLastNumber(pieces) {
      forall limits: seq<Uint32> | AllPositive(limits) ensures PagesExactly(pieces, limits) {
        EnumeratesSlices(pieces, 0, 0, limits);
        SlicesIsPrefix(pieces, 0, limits);
      }
    } else {
      PagingWraps(pieces);
      var limits: seq<Uint32> := [TWO_32 - 1, 1, 1];
      assert AllPositive(limits) && !PagesExactly(pieces, limits);
    }
  }
}
