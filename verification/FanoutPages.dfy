/** The plan of a fan-out: its pages and their cursors, and who is in which chunk. */
module FanoutPages {
  import opened Basics
  import opened Listing
  import opened Fanout
  import opened Strides

  ghost predicate GoodPlan(p: Plan) {
    ValidPlan(p) && Ascending(p.all)
  }

  // ---------------------------------------------------------------- the chain of pages

  /** ceil(n / pageSize), and one page even for nobody. */
  function NumPages(p: Plan): nat
    requires ValidPlan(p)
  {
    if |p.all| == 0 then 1 else (|p.all| + p.pageSize - 1) / p.pageSize
  }

  predicate IsPage(p: Plan, k: nat) {
    k == 0 || Offset(p.pageSize, k) < |p.all|
  }

  lemma {:induction false} PageCount(p: Plan, k: nat)
    requires ValidPlan(p)
    ensures IsPage(p, k) <==> k < NumPages(p)
  {
    var n, s := |p.all|, p.pageSize;
    if n > 0 {
      var q := NumPages(p);
      Quotient(n + s - 1, s);
      if k < q {
        OffsetMonotone(s, k, q);
      } else if k > q {
        OffsetMonotone(s, q, k);
      }
    }
  }

  /** The cursor page k resumes after. */
  function Cursor(p: Plan, k: nat): Option<Id>
    requires IsPage(p, k) && ValidPlan(p)
  {
    if k == 0 then None else Some(p.all[Offset(p.pageSize, k) - 1])
  }

  function PageAt(p: Plan, k: nat): seq<Id>
    requires IsPage(p, k) && ValidPlan(p)
  {
    p.all[Offset(p.pageSize, k)..Min(Offset(p.pageSize, k) + p.pageSize, |p.all|)]
  }

  lemma {:induction false} PageAtCursor(p: Plan, k: nat)
    requires GoodPlan(p) && IsPage(p, k)
    ensures Rest(p.all, Cursor(p, k)) == p.all[Offset(p.pageSize, k)..]
    ensures Page(p, Cursor(p, k)) == PageAt(p, k)
    ensures |Rest(p.all, Cursor(p, k))| > p.pageSize <==> IsPage(p, k + 1)
    ensures IsPage(p, k + 1) ==> PageAt(p, k) != [] && Cursor(p, k + 1) == Some(PageAt(p, k)[|PageAt(p, k)| - 1])
  {
    var o := Offset(p.pageSize, k);
    if k > 0 {
      RestAfter(p.all, o);
    } else {
      assert p.all[0..] == p.all;
    }
    var rest := p.all[o..];
    assert Take(rest, p.pageSize) == PageAt(p, k);
  }

  lemma {:induction false} CursorsDiffer(p: Plan, j: nat, k: nat)
    requires GoodPlan(p) && IsPage(p, j) && IsPage(p, k) && Cursor(p, j) == Cursor(p, k)
    ensures j == k
  {
    if 0 < j < k {
      OffsetMonotone(p.pageSize, j, k);
    } else if 0 < k < j {
      OffsetMonotone(p.pageSize, k, j);
    }
  }

  function Chunks(p: Plan, k: nat): seq<seq<Id>>
    requires IsPage(p, k) && ValidPlan(p)
  {
    ChunksOf(Emailable(PageAt(p, k), p.emailable), p.chunkSize)
  }

  /** What the writes of page k are: the page's states, then its chunks, then the next page. */
  lemma {:induction false} WritesAt(p: Plan, k: nat)
    requires GoodPlan(p) && IsPage(p, k)
    ensures PageAt(p, k) == [] ==> WritesOf(p, Cursor(p, k)) == [] && Chunks(p, k) == [] && !IsPage(p, k + 1)
    ensures PageAt(p, k) != [] ==>
              WritesOf(p, Cursor(p, k)) == [InsertStates(PageAt(p, k))] + ChunkWrites(Chunks(p, k))
                                           + (if IsPage(p, k + 1) then [EnqueuePage(Cursor(p, k + 1).value)] else [])
    ensures forall c :: 0 <= c < |Chunks(p, k)| ==> Chunks(p, k)[c] != []
  {
    PageAtCursor(p, k);
    ChunksNonEmpty(Emailable(PageAt(p, k), p.emailable), p.chunkSize);
  }

  // ---------------------------------------------------------------- who is in which chunk

  lemma {:induction false} EmailableMembers(ids: seq<Id>, emailable: set<Id>)
    ensures forall x :: x in Emailable(ids, emailable) <==> x in ids && x in emailable
  {
    if ids != [] {
      EmailableMembers(ids[1..], emailable);
      assert ids == [ids[0]] + ids[1..];
    }
  }

  lemma {:induction false} EmailableAscending(ids: seq<Id>, emailable: set<Id>)
    requires Ascending(ids)
    ensures Ascending(Emailable(ids, emailable))
  {
    if ids != [] {
      EmailableAscending(ids[1..], emailable);
      EmailableMembers(ids[1..], emailable);
      var t := Emailable(ids[1..], emailable);
      forall i | 0 <= i < |t|
        ensures ids[0] < t[i]
      {
        assert t[i] in ids[1..];
      }
    }
  }

  lemma {:induction false} SliceOfTail(ids: seq<Id>, n: nat, a: nat, b: nat)
    requires n <= |ids| && a <= b <= |ids| - n
    ensures ids[n..][a..b] == ids[n + a..n + b]
  {
    assert forall i :: 0 <= i < b - a ==> ids[n..][a..b][i] == ids[n..][a + i] == ids[n + a + i];
  }

  lemma {:induction false} ChunkSlice(ids: seq<Id>, size: nat, c: nat)
    requires size >= 1 && c < |ChunksOf(ids, size)|
    ensures Offset(size, c) < |ids|
    ensures ChunksOf(ids, size)[c] == ids[Offset(size, c)..Min(Offset(size, c) + size, |ids|)]
  {
    if c > 0 {
      var a, tail := Offset(size, c - 1), ids[size..];
      ChunkSlice(tail, size, c - 1);
      var b := Min(a + size, |tail|);
      SliceOfTail(ids, size, a, b);
    }
  }

  lemma {:induction false} ChunkPosition(ids: seq<Id>, size: nat, c: nat, x: Id) returns (i: nat)
    requires size >= 1 && c < |ChunksOf(ids, size)| && x in ChunksOf(ids, size)[c]
    ensures i < |ids| && ids[i] == x && Offset(size, c) <= i < Offset(size, c) + size
  {
    ChunkSlice(ids, size, c);
    var j :| 0 <= j < |ChunksOf(ids, size)[c]| && ChunksOf(ids, size)[c][j] == x;
    i := Offset(size, c) + j;
  }

  lemma {:induction false} ChunkExists(ids: seq<Id>, size: nat, x: Id)
    requires size >= 1 && x in ids
    ensures exists c :: 0 <= c < |ChunksOf(ids, size)| && x in ChunksOf(ids, size)[c]
  {
    if |ids| <= size {
      assert x in ChunksOf(ids, size)[0];
    } else if x in ids[..size] {
      assert x in ChunksOf(ids, size)[0];
    } else {
      assert ids == ids[..size] + ids[size..];
      ChunkExists(ids[size..], size, x);
      var c :| 0 <= c < |ChunksOf(ids[size..], size)| && x in ChunksOf(ids[size..], size)[c];
      assert x in ChunksOf(ids, size)[c + 1];
    }
  }

  /** A listed id belongs to one chunk only. */
  lemma {:induction false} OneChunkPerId(ids: seq<Id>, size: nat, a: nat, b: nat, x: Id)
    requires size >= 1 && Ascending(ids)
    requires a < |ChunksOf(ids, size)| && x in ChunksOf(ids, size)[a]
    requires b < |ChunksOf(ids, size)| && x in ChunksOf(ids, size)[b]
    ensures a == b
  {
    var i := ChunkPosition(ids, size, a, x);
    var j := ChunkPosition(ids, size, b, x);
    assert i == j;
    SameBucket(size, a, b, i);
  }

  lemma {:induction false} PagePosition(p: Plan, k: nat, x: Id) returns (i: nat)
    requires GoodPlan(p) && IsPage(p, k) && x in PageAt(p, k)
    ensures i < |p.all| && p.all[i] == x && Offset(p.pageSize, k) <= i < Offset(p.pageSize, k) + p.pageSize
  {
    var j :| 0 <= j < |PageAt(p, k)| && PageAt(p, k)[j] == x;
    i := Offset(p.pageSize, k) + j;
  }

  lemma {:induction false} OnePagePerId(p: Plan, j: nat, k: nat, x: Id)
    requires GoodPlan(p) && IsPage(p, j) && IsPage(p, k) && x in PageAt(p, j) && x in PageAt(p, k)
    ensures j == k && x in p.all
  {
    var m := PagePosition(p, j, x);
    var n := PagePosition(p, k, x);
    assert m == n;
    SameBucket(p.pageSize, j, k, m);
  }

  lemma {:induction false} ChunkInPage(p: Plan, k: nat, c: nat, x: Id)
    requires GoodPlan(p) && IsPage(p, k) && c < |Chunks(p, k)| && x in Chunks(p, k)[c]
    ensures x in PageAt(p, k) && x in p.emailable
  {
    var i := ChunkPosition(Emailable(PageAt(p, k), p.emailable), p.chunkSize, c, x);
    EmailableMembers(PageAt(p, k), p.emailable);
  }

  lemma {:induction false} PageAscending(p: Plan, k: nat)
    requires GoodPlan(p) && IsPage(p, k)
    ensures Ascending(Emailable(PageAt(p, k), p.emailable))
  {
    EmailableAscending(PageAt(p, k), p.emailable);
  }

  /** Each e-mailable recipient is in exactly one chunk of exactly one page. */
  lemma {:induction false} OneChunkEach(p: Plan, j: nat, a: nat, k: nat, b: nat, x: Id)
    requires GoodPlan(p) && IsPage(p, j) && IsPage(p, k)
    requires a < |Chunks(p, j)| && x in Chunks(p, j)[a]
    requires b < |Chunks(p, k)| && x in Chunks(p, k)[b]
    ensures j == k && a == b && x in p.all && x in p.emailable
  {
    ChunkInPage(p, j, a, x);
    ChunkInPage(p, k, b, x);
    OnePagePerId(p, j, k, x);
    PageAscending(p, j);
    OneChunkPerId(Emailable(PageAt(p, j), p.emailable), p.chunkSize, a, b, x);
  }

  /** Every recipient is on a page, and in a chunk of it when e-mailable. */
  lemma {:induction false} EveryoneHasAPlace(p: Plan, x: Id) returns (k: nat, c: nat)
    requires GoodPlan(p) && x in p.all
    ensures IsPage(p, k) && x in PageAt(p, k)
    ensures x in p.emailable ==> c < |Chunks(p, k)| && x in Chunks(p, k)[c]
  {
    var i :| 0 <= i < |p.all| && p.all[i] == x;
    k := Bucket(p.pageSize, i);
    assert PageAt(p, k)[i - Offset(p.pageSize, k)] == x;
    c := 0;
    if x in p.emailable {
      c := InSomeChunk(p, k, x);
    }
  }

  lemma {:induction false} InSomeChunk(p: Plan, k: nat, x: Id) returns (c: nat)
    requires GoodPlan(p) && IsPage(p, k) && x in PageAt(p, k) && x in p.emailable
    ensures c < |Chunks(p, k)| && x in Chunks(p, k)[c]
  {
    EmailableMembers(PageAt(p, k), p.emailable);
    ChunkExists(Emailable(PageAt(p, k), p.emailable), p.chunkSize, x);
    c :| c < |Chunks(p, k)| && x in Chunks(p, k)[c];
  }

  lemma {:induction false} PreviousPage(p: Plan, k: nat)
    requires ValidPlan(p) && IsPage(p, k) && k > 0
    ensures IsPage(p, k - 1)
  {
    OffsetMonotone(p.pageSize, k - 1, k);
  }

  lemma {:induction false} WriteListAt(first: Write, chunks: seq<seq<Id>>, tail: seq<Write>, m: nat)
    requires m <= |chunks| + |tail| && |tail| <= 1
    ensures |[first] + ChunkWrites(chunks) + tail| == 1 + |chunks| + |tail|
    ensures ([first] + ChunkWrites(chunks) + tail)[m]
            == if m == 0 then first else if m <= |chunks| then EnqueueChunk(chunks[m - 1]) else tail[0]
  {
  }

  /** Which write comes m-th on page k. */
  lemma {:induction false} WriteAt(p: Plan, k: nat, m: nat)
    requires GoodPlan(p) && IsPage(p, k) && m < |WritesOf(p, Cursor(p, k))|
    ensures m == 0 ==> WritesOf(p, Cursor(p, k))[m] == InsertStates(PageAt(p, k))
    ensures 0 < m <= |Chunks(p, k)| ==>
              Chunks(p, k)[m - 1] != [] && WritesOf(p, Cursor(p, k))[m] == EnqueueChunk(Chunks(p, k)[m - 1])
    ensures m > |Chunks(p, k)| && m != 0 ==>
              IsPage(p, k + 1) && WritesOf(p, Cursor(p, k))[m] == EnqueuePage(Cursor(p, k + 1).value)
  {
    WritesAt(p, k);
    var tail := if IsPage(p, k + 1) then [EnqueuePage(Cursor(p, k + 1).value)] else [];
    WriteListAt(InsertStates(PageAt(p, k)), Chunks(p, k), tail, m);
  }

  lemma {:induction false} PageHasWrites(p: Plan, k: nat)
    requires GoodPlan(p) && IsPage(p, k)
    ensures Chunks(p, k) != [] ==> |WritesOf(p, Cursor(p, k))| > |Chunks(p, k)|
  {
    WritesAt(p, k);
  }

  lemma {:induction false} ChunkAscending(p: Plan, k: nat, c: nat)
    requires GoodPlan(p) && IsPage(p, k) && c < |Chunks(p, k)|
    ensures Ascending(Chunks(p, k)[c])
  {
    PageAscending(p, k);
    ChunkSlice(Emailable(PageAt(p, k), p.emailable), p.chunkSize, c);
  }

  lemma {:induction false} NotEarlier(p: Plan, m: nat)
    requires GoodPlan(p) && m >= 1 && IsPage(p, m - 1)
    ensures forall k: nat :: k < m - 1 && IsPage(p, k) ==> Cursor(p, k) != Cursor(p, m - 1)
  {
    forall k: nat | k < m - 1 && IsPage(p, k)
      ensures Cursor(p, k) != Cursor(p, m - 1)
    {
      if Cursor(p, k) == Cursor(p, m - 1) {
        CursorsDiffer(p, k, m - 1);
      }
    }
  }
}
