/** Paging through the moderation queue by cursor. */
module ModerationWalk {
  import opened Basics
  import opened Sorting
  import opened Strides
  import AdvertHistory

  type Advert = AdvertHistory.Advert

  datatype Entry = Entry(id: int, createdAt: Time, status: AdvertStatus)

  datatype Position = Position(createdAt: Time, id: int)

  datatype Page = Page(items: seq<Entry>, next: Option<string>, hasMore: bool, total: nat)

  const DEFAULT_LIMIT := 20
  const MIN_LIMIT := 1
  const MAX_LIMIT := 100

  /** Newest first, larger id first among equals. */
  predicate NewestLe(a: Entry, b: Entry) {
    a.createdAt > b.createdAt || (a.createdAt == b.createdAt && a.id >= b.id)
  }

  predicate Before(a: Entry, b: Entry) {
    a.createdAt > b.createdAt || (a.createdAt == b.createdAt && a.id > b.id)
  }

  predicate Past(p: Position, e: Entry) {
    !(e.createdAt > p.createdAt) && !(e.createdAt == p.createdAt && e.id >= p.id)
  }

  predicate Visible(adverts: map<int, Advert>, status: Option<AdvertStatus>, id: int) {
    id in adverts && adverts[id].deletedAt.None? && (status.Some? ==> adverts[id].status == status.value)
  }

  function EntryOf(adverts: map<int, Advert>, id: int): Entry
    requires id in adverts
  {
    Entry(id, adverts[id].createdAt, adverts[id].status)
  }

  ghost predicate Belongs(adverts: map<int, Advert>, status: Option<AdvertStatus>, e: Entry) {
    Visible(adverts, status, e.id) && e == EntryOf(adverts, e.id)
  }

  ghost predicate Strict(l: seq<Entry>) {
    forall i, j :: 0 <= i < j < |l| ==> Before(l[i], l[j])
  }

  /** l is the whole queue: every visible advert once, newest first. */
  ghost predicate IsQueue(l: seq<Entry>, adverts: map<int, Advert>, status: Option<AdvertStatus>) {
    Strict(l) && forall e :: e in l <==> Belongs(adverts, status, e)
  }

  /** The entries are those of the adverts that are not deleted and have the status asked for, once each,
      by creation time and number, the newest and largest first. */
  ghost predicate ListsVisible(l: seq<Entry>, adverts: map<int, Advert>, status: Option<AdvertStatus>) {
    && (forall id :: Occurs(l, id) <==>
          id in adverts && adverts[id].deletedAt == None && (status.Some? ==> adverts[id].status == status.value))
    && (forall i :: 0 <= i < |l| && l[i].id in adverts ==>
          l[i].createdAt == adverts[l[i].id].createdAt && l[i].status == adverts[l[i].id].status)
    && (forall i, j :: 0 <= i < j < |l| ==>
          l[i].createdAt > l[j].createdAt || (l[i].createdAt == l[j].createdAt && l[i].id > l[j].id))
  }

  ghost predicate Occurs(l: seq<Entry>, id: int) {
    exists i :: 0 <= i < |l| && l[i].id == id
  }

  lemma {:induction false} QueueMeans(l: seq<Entry>, adverts: map<int, Advert>, status: Option<AdvertStatus>)
    requires IsQueue(l, adverts, status)
    ensures ListsVisible(l, adverts, status)
  {
    forall i | 0 <= i < |l|
      ensures Belongs(adverts, status, l[i])
    {
      assert l[i] in l;
    }
    forall id | id in adverts && Visible(adverts, status, id)
      ensures Occurs(l, id)
    {
      assert Belongs(adverts, status, EntryOf(adverts, id));
      assert EntryOf(adverts, id) in l;
    }
    assert forall i, j :: 0 <= i < j < |l| ==> Before(l[i], l[j]);
  }

  lemma {:induction false} StrictUnique(a: seq<Entry>, b: seq<Entry>)
    requires Strict(a) && Strict(b) && forall e :: e in a <==> e in b
    ensures a == b
  {
    assert forall i :: 0 <= i < |b| ==> b[i] in a;
    assert forall i :: 0 <= i < |a| ==> a[i] in b;
    if a != [] {
      assert a[0] == b[0];
      forall e
        ensures e in a[1..] <==> e in b[1..]
      {
        assert e in a[1..] <==> e in a && e != a[0];
        assert e in b[1..] <==> e in b && e != b[0];
      }
      StrictUnique(a[1..], b[1..]);
    }
  }

  /** A queue is determined by the store. */
  lemma {:induction false} QueueUnique(
    a: seq<Entry>, b: seq<Entry>, adverts: map<int, Advert>, status: Option<AdvertStatus>)
    requires IsQueue(a, adverts, status) && IsQueue(b, adverts, status)
    ensures a == b
  {
    StrictUnique(a, b);
  }

  lemma {:induction false} NewestTotal()
    ensures TotalOrder(NewestLe)
  {
  }

  /** Sorting the visible adverts, in whatever order they were found, gives the queue. */
  lemma {:induction false} SortIsQueue(found: seq<Entry>, adverts: map<int, Advert>, status: Option<AdvertStatus>)
    requires Distinct(found) && forall e :: e in found <==> Belongs(adverts, status, e)
    ensures IsQueue(SortBy(found, NewestLe), adverts, status) && |SortBy(found, NewestLe)| == |found|
  {
    var l := SortBy(found, NewestLe);
    NewestTotal();
    SortMembers(found, NewestLe);
    SortOrdered(found, NewestLe);
    SortDistinct(found, NewestLe);
    forall i, j | 0 <= i < j < |l|
      ensures Before(l[i], l[j])
    {
      assert l[i] in found && l[j] in found;
      assert NewestLe(l[i], l[j]) && l[i] != l[j];
    }
  }

  lemma {:induction false} QueueExists(
    adverts: map<int, Advert>, status: Option<AdvertStatus>, ids: set<int>) returns (found: seq<Entry>)
    requires ids <= adverts.Keys
    ensures Distinct(found)
    ensures forall e :: e in found <==> Belongs(adverts, status, e) && e.id in ids
    decreases |ids|
  {
    if ids == {} {
      found := [];
    } else {
      assert (forall x :: x !in ids) ==> ids == {};
      var id :| id in ids;
      found := QueueExists(adverts, status, ids - {id});
      if Visible(adverts, status, id) {
        found := found + [EntryOf(adverts, id)];
      }
    }
  }

  lemma {:induction false} TheQueue(adverts: map<int, Advert>, status: Option<AdvertStatus>) returns (full: seq<Entry>)
    ensures IsQueue(full, adverts, status) && ListsVisible(full, adverts, status)
  {
    var found := QueueExists(adverts, status, adverts.Keys);
    SortIsQueue(found, adverts, status);
    full := SortBy(found, NewestLe);
    QueueMeans(full, adverts, status);
  }

  // ---------------------------------------------------------------- one page

  function From(l: seq<Entry>, after: Option<Position>): seq<Entry> {
    if l == [] then []
    else
      var front := From(l[..|l| - 1], after);
      if after.None? || Past(after.value, l[|l| - 1]) then front + [l[|l| - 1]] else front
  }

  function Take(l: seq<Entry>, n: nat): seq<Entry> {
    if |l| <= n then l else l[..n]
  }

  lemma {:induction false} FromStart(l: seq<Entry>)
    ensures From(l, None) == l
  {
    if l != [] {
      FromStart(l[..|l| - 1]);
    }
  }

  /** Resuming after the n-th entry of the queue yields the rest of it. */
  lemma {:induction false} FromEntry(l: seq<Entry>, n: nat, m: nat)
    requires Strict(l) && 0 < n <= |l| && m <= |l|
    ensures From(l[..m], Some(Position(l[n - 1].createdAt, l[n - 1].id))) == if m <= n then [] else l[n..m]
    decreases m
  {
    if m > 0 {
      FromEntry(l, n, m - 1);
      assert l[..m][..m - 1] == l[..m - 1];
      assert m > n ==> Before(l[n - 1], l[m - 1]);
      assert m < n ==> Before(l[m - 1], l[n - 1]);
      if m > n {
        assert l[n..m] == l[n..m - 1] + [l[m - 1]];
      }
    }
  }

  /** The cursor position after the first n entries. */
  function PositionAt(full: seq<Entry>, n: nat): Option<Position>
    requires n <= |full|
  {
    if n == 0 then None else Some(Position(full[n - 1].createdAt, full[n - 1].id))
  }

  /** Resuming at a position yields the page that starts there. */
  lemma {:induction false} PageAt(full: seq<Entry>, n: nat, limit: nat)
    requires Strict(full) && n <= |full|
    ensures From(full, PositionAt(full, n)) == full[n..]
    ensures Take(full[n..], limit) == full[n..Min(n + limit, |full|)]
  {
    if n == 0 {
      FromStart(full);
    } else {
      FromEntry(full, n, |full|);
      assert full[..|full|] == full;
    }
  }

  lemma {:induction false} PageJoins(full: seq<Entry>, n: nat, m: nat)
    requires n <= m <= |full|
    ensures full[..n] + full[n..m] == full[..m] && full[..|full|] == full
  {
  }

  class Queue {
    var adverts: map<int, Advert>
    /** The cursor codec; all that is asked of it is that it round-trips. */
    const encode: Position -> string
    const decode: string -> Option<Position>

    ghost predicate Codec() {
      forall p: Position :: decode(encode(p)) == Some(p)
    }

    constructor (adverts: map<int, Advert>, encode: Position -> string, decode: string -> Option<Position>)
      ensures this.adverts == adverts && this.encode == encode && this.decode == decode
    {
      this.adverts, this.encode, this.decode := adverts, encode, decode;
    }

    method Collect(status: Option<AdvertStatus>) returns (found: seq<Entry>)
      ensures Distinct(found) && forall e :: e in found <==> Belongs(adverts, status, e)
    {
      found := [];
      var todo := adverts.Keys;
      while todo != {}
        invariant todo <= adverts.Keys && Distinct(found)
        invariant forall e :: e in found <==> Belongs(adverts, status, e) && e.id !in todo
        decreases todo
      {
        assert (forall x :: x !in todo) ==> todo == {};
        var id :| id in todo;
        todo := todo - {id};
        if adverts[id].deletedAt.Some? || (status.Some? && adverts[id].status != status.value) {
          continue;
        }
        found := found + [EntryOf(adverts, id)];
      }
    }

    method ListForModeration(ghost full: seq<Entry>, status: Option<AdvertStatus>, after: Option<Position>, limit: nat)
      returns (rows: seq<Entry>, total: nat)
      requires IsQueue(full, adverts, status)
      ensures rows == Take(From(full, after), limit) && total == |full|
    {
      var found := Collect(status);
      SortIsQueue(found, adverts, status);
      var sorted := SortBy(found, NewestLe);
      QueueUnique(sorted, full, adverts, status);
      rows, total := sorted, |found|;
      FromStart(full);
      if after.Some? {
        rows := [];
        for i := 0 to |sorted|
          invariant rows == From(sorted[..i], after)
        {
          assert sorted[..i + 1][..i] == sorted[..i];
          if sorted[i].createdAt > after.value.createdAt {
            continue;
          }
          if sorted[i].createdAt == after.value.createdAt && sorted[i].id >= after.value.id {
            continue;
          }
          rows := rows + [sorted[i]];
        }
        assert sorted[..|sorted|] == sorted;
      }
      if |rows| > limit {
        rows := rows[..limit];
      }
    }

    method ListQueue(ghost full: seq<Entry>, status: Option<AdvertStatus>, cursor: Option<string>, limit: Option<int>)
      returns (r: Result<Page>)
      requires IsQueue(full, adverts, status)
      ensures r.Err? <==> (limit.Some? && !(1 <= limit.value <= 100))
                          || (cursor.Some? && decode(cursor.value).None?)
      ensures r.Ok? ==>
                var n := if limit.Some? then limit.value else 20;
                var rest := From(full, if cursor.Some? then decode(cursor.value) else None);
                && r.value.items == Take(rest, n) && r.value.total == |full|
                && (r.value.hasMore <==> |rest| > n) && (r.value.next.Some? <==> |rest| > n)
                && (|rest| > n ==> r.value.next == Some(encode(Position(rest[n - 1].createdAt, rest[n - 1].id))))
    {
      if limit.Some? && (limit.value < MIN_LIMIT || limit.value > MAX_LIMIT) {
        return Err(Validation);
      }
      var n := if limit.Some? then limit.value else DEFAULT_LIMIT;
      var after: Option<Position> := None;
      if cursor.Some? {
        after := decode(cursor.value);
        if after.None? {
          return Err(Validation);
        }
      }
      var rows, total := ListForModeration(full, status, after, n + 1);
      var hasMore := |rows| > n;
      if hasMore {
        rows := rows[..n];
      }
      var next: Option<string> := None;
      if hasMore && |rows| > 0 {
        next := Some(encode(Position(rows[|rows| - 1].createdAt, rows[|rows| - 1].id)));
      }
      return Ok(Page(rows, next, hasMore, total));
    }

    /** The cursor a reader holds after the first n entries. */
    ghost predicate CursorAt(full: seq<Entry>, n: nat, cursor: Option<string>) {
      n <= |full| && if n == 0 then cursor.None? else cursor == Some(encode(PositionAt(full, n).value))
    }

    method NextPage(
      ghost full: seq<Entry>, ghost n: nat, status: Option<AdvertStatus>, cursor: Option<string>, limit: int)
      returns (items: seq<Entry>, next: Option<string>)
      requires MIN_LIMIT <= limit <= MAX_LIMIT && Codec()
      requires IsQueue(full, adverts, status) && CursorAt(full, n, cursor)
      ensures items == full[n..Min(n + limit, |full|)]
      ensures next.None? <==> |full| <= n + limit
      ensures next.Some? ==> CursorAt(full, n + limit, next)
    {
      hide From, Take, Belongs;
      PageAt(full, n, limit);
      assert cursor.Some? ==> decode(cursor.value) == PositionAt(full, n);
      var page := ListQueue(full, status, cursor, Some(limit));
      items, next := page.value.items, page.value.next;
    }

    /** A reader who follows the cursors to the end has seen the whole queue: every visible advert
        exactly once, in order, in as few pages as the limit allows (Offset(limit, k) is k * limit). */
    method Walk(status: Option<AdvertStatus>, limit: int) returns (all: seq<Entry>, pages: nat)
      requires MIN_LIMIT <= limit <= MAX_LIMIT && Codec()
      ensures IsQueue(all, adverts, status)
      ensures ListsVisible(all, adverts, status)
      ensures pages >= 1 && |all| <= Offset(limit, pages) && (pages > 1 ==> |all| > Offset(limit, pages - 1))
    {
      hide IsQueue, Codec, ListsVisible, From, Take;
      ghost var full := TheQueue(adverts, status);
      all, pages := [], 0;
      var cursor: Option<string> := None;
      ghost var n: nat := 0;
      while true
        invariant n <= |full| && all == full[..n] && n == Offset(limit, pages) && CursorAt(full, n, cursor)
        invariant pages > 0 ==> n < |full|
        decreases |full| - n
      {
        var items;
        items, cursor := NextPage(full, n, status, cursor, limit);
        PageJoins(full, n, Min(n + limit, |full|));
        all, pages := all + items, pages + 1;
        if cursor.None? {
          return;
        }
        n := n + limit;
      }
    }
  }
}
