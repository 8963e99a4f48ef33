/** The media relations of one advert, as the rows of a table with unique assets, unique
    display orders and at most one cover. */
module RelationRows {
  import opened Basics
  import Sorting

  datatype Lifecycle =
    | UploadPending | Uploaded | Validating | MasterReady
    | ValidationFailed | CleanupCandidate | Deleting | PhysicallyDeleted

  datatype Asset = Asset(owner: Id, lifecycle: Lifecycle)

  datatype Relation = Relation(id: Id, asset: Id, order: int, cover: bool, createdAt: Time, updatedAt: Time)

  predicate Attachable(l: Lifecycle) {
    l == UploadPending || l == Uploaded || l == Validating || l == MasterReady
  }

  /** The table's constraints: unique assets, unique non-negative orders, one cover, no dangling asset. */
  ghost predicate RowsOk(rows: seq<Relation>, assets: map<Id, Asset>) {
    && (forall i, j :: 0 <= i < j < |rows| ==>
          rows[i].asset != rows[j].asset && rows[i].order != rows[j].order && !(rows[i].cover && rows[j].cover))
    && (forall i :: 0 <= i < |rows| ==> rows[i].order >= 0 && rows[i].asset != NIL_ID && rows[i].asset in assets)
  }

  ghost predicate Attached(rows: seq<Relation>, asset: Id) {
    exists i :: 0 <= i < |rows| && rows[i].asset == asset
  }

  ghost predicate FirstOf(rows: seq<Relation>, asset: Id, i: int) {
    0 <= i < |rows| && rows[i].asset == asset && forall k :: 0 <= k < i ==> rows[k].asset != asset
  }

  ghost predicate LastOf(rows: seq<Relation>, asset: Id, i: int) {
    0 <= i < |rows| && rows[i].asset == asset && forall k :: i < k < |rows| ==> rows[k].asset != asset
  }

  // ---------------------------------------------------------------- what the repository checks and writes

  predicate ClashesWith(row: Relation, rel: Relation) {
    row.asset == rel.asset || row.order == rel.order || (rel.cover && row.cover)
  }

  ghost predicate Clashes(rows: seq<Relation>, rel: Relation) {
    exists i :: 0 <= i < |rows| && ClashesWith(rows[i], rel)
  }

  ghost predicate OrderTaken(rows: seq<Relation>, asset: Id, order: int) {
    exists i :: 0 <= i < |rows| && rows[i].asset != asset && rows[i].order == order
  }

  ghost predicate OtherCover(rows: seq<Relation>, asset: Id) {
    exists i :: 0 <= i < |rows| && rows[i].asset != asset && rows[i].cover
  }

  function Without(rows: seq<Relation>, i: nat): seq<Relation>
    requires i < |rows|
  {
    rows[..i] + rows[i + 1..]
  }

  function Moved(rows: seq<Relation>, t: nat, order: int, now: Time): seq<Relation>
    requires t < |rows|
  {
    rows[t := rows[t].(order := order, updatedAt := now)]
  }

  function Covered(rows: seq<Relation>, t: nat, now: Time): seq<Relation>
    requires t < |rows|
  {
    rows[t := rows[t].(cover := true, updatedAt := now)]
  }

  function UncoveredRow(row: Relation, now: Time): Relation {
    if row.cover then row.(cover := false, updatedAt := now) else row
  }

  function Uncovered(rows: seq<Relation>, now: Time): seq<Relation> {
    seq(|rows|, i requires 0 <= i < |rows| => UncoveredRow(rows[i], now))
  }

  // ---------------------------------------------------------------- the stable sort by display order

  predicate ByOrder(a: Relation, b: Relation) {
    a.order <= b.order
  }

  function SortRows(l: seq<Relation>): seq<Relation> {
    Sorting.SortBy(l, ByOrder)
  }

  /** The listing is an ascending rearrangement of the stored rows. */
  lemma {:induction false} SortPermutes(l: seq<Relation>)
    ensures multiset(SortRows(l)) == multiset(l) && |SortRows(l)| == |l|
    ensures Sorting.Ordered(SortRows(l), ByOrder)
    ensures forall x :: x in SortRows(l) <==> x in l
  {
    Sorting.SortPermutes(l, ByOrder);
    Sorting.SortMembers(l, ByOrder);
    Sorting.SortOrdered(l, ByOrder);
  }

  lemma {:induction false} SortedLength(l: seq<Relation>)
    ensures |SortRows(l)| == |l|
  {
    SortPermutes(l);
  }

  predicate Listable(rows: seq<Relation>, assets: map<Id, Asset>) {
    forall i :: 0 <= i < |rows| ==> rows[i].asset in assets
  }

  lemma {:induction false} SortedListable(rows: seq<Relation>, assets: map<Id, Asset>)
    ensures Listable(SortRows(rows), assets) <==> Listable(rows, assets)
  {
    SortPermutes(rows);
    forall i | 0 <= i < |rows|
      ensures rows[i] in SortRows(rows)
    {
    }
    forall i | 0 <= i < |rows|
      ensures SortRows(rows)[i] in rows
    {
    }
  }

  /** The listing joined with each asset's lifecycle. */
  ghost predicate Joined(out: seq<(Relation, Lifecycle)>, rows: seq<Relation>, assets: map<Id, Asset>) {
    && |out| == |rows|
    && forall k :: 0 <= k < |rows| ==> rows[k].asset in assets && out[k] == (rows[k], assets[rows[k].asset].lifecycle)
  }

  // ---------------------------------------------------------------- attaching and detaching

  ghost predicate HasCover(rows: seq<Relation>) {
    exists i :: 0 <= i < |rows| && rows[i].cover
  }

  ghost predicate Taken(rows: seq<Relation>, order: int) {
    exists i :: 0 <= i < |rows| && rows[i].order == order
  }

  /** One past the largest order in use, zero when nothing is attached. */
  ghost predicate IsNextOrder(rows: seq<Relation>, order: int) {
    && order >= 0
    && (forall i :: 0 <= i < |rows| ==> rows[i].order < order)
    && (order > 0 ==> Taken(rows, order - 1))
  }

  /** The requested order when it is free, the next one otherwise. */
  ghost predicate ChosenOrder(rows: seq<Relation>, wanted: Option<int>, order: int) {
    if wanted.Some? && !Taken(rows, wanted.value) then order == wanted.value else IsNextOrder(rows, order)
  }

  /** The table gained one relation: in the chosen place, and the cover exactly when there was none. */
  ghost predicate GainedRow(
    rows: seq<Relation>, relationId: Id, asset: Id, wanted: Option<int>, now: Time, rows': seq<Relation>)
  {
    exists order :: ChosenOrder(rows, wanted, order)
                    && rows' == rows + [Relation(relationId, asset, order, !HasCover(rows), now, now)]
  }

  lemma {:induction false} AttachKeepsRows(rows: seq<Relation>, assets: map<Id, Asset>, rel: Relation)
    requires RowsOk(rows, assets) && rel.asset in assets && rel.asset != NIL_ID && rel.order >= 0
    requires !Attached(rows, rel.asset) && !Taken(rows, rel.order) && (rel.cover ==> !HasCover(rows))
    ensures !Clashes(rows, rel) && RowsOk(rows + [rel], assets)
  {
  }

  lemma {:induction false} FreeOrder(rows: seq<Relation>, wanted: Option<int>, nextOrder: int, order: int)
    requires IsNextOrder(rows, nextOrder) && (wanted.Some? ==> wanted.value >= 0)
    requires order == if wanted.Some? && !Taken(rows, wanted.value) then wanted.value else nextOrder
    ensures ChosenOrder(rows, wanted, order) && order >= 0 && !Taken(rows, order)
  {
  }

  lemma {:induction false} DetachKeepsRows(rows: seq<Relation>, assets: map<Id, Asset>, i: nat)
    requires RowsOk(rows, assets) && i < |rows|
    ensures RowsOk(Without(rows, i), assets)
    ensures rows[i].cover ==> !HasCover(Without(rows, i))
    ensures !Attached(Without(rows, i), rows[i].asset)
  {
  }

  /** Which attached assets can become the cover by themselves. */
  predicate Usable(l: Lifecycle) {
    l == MasterReady || l == Uploaded || l == Validating
  }

  /** A finished master beats anything else; among equals the smaller display order wins. */
  predicate AtLeastAsGood(a: Relation, la: Lifecycle, b: Relation, lb: Lifecycle) {
    (la == MasterReady && lb != MasterReady) || ((la == MasterReady <==> lb == MasterReady) && a.order <= b.order)
  }

  ghost predicate CoverChoice(rows: seq<Relation>, assets: map<Id, Asset>, t: int)
    requires RowsOk(rows, assets)
  {
    && 0 <= t < |rows| && Usable(assets[rows[t].asset].lifecycle)
    && forall k :: 0 <= k < |rows| && Usable(assets[rows[k].asset].lifecycle) ==>
                     AtLeastAsGood(rows[t], assets[rows[t].asset].lifecycle, rows[k], assets[rows[k].asset].lifecycle)
  }

  /** The best candidate becomes the cover, or nobody when there is none. */
  ghost predicate Promoted(rows: seq<Relation>, assets: map<Id, Asset>, now: Time, rows': seq<Relation>)
    requires RowsOk(rows, assets)
  {
    || (exists t :: CoverChoice(rows, assets, t) && rows' == Covered(rows, t, now))
    || (rows' == rows && forall k :: 0 <= k < |rows| ==> !Usable(assets[rows[k].asset].lifecycle))
  }

  lemma {:induction false} CoverKeepsRows(rows: seq<Relation>, assets: map<Id, Asset>, t: nat, now: Time)
    requires RowsOk(rows, assets) && t < |rows| && !OtherCover(rows, rows[t].asset)
    ensures RowsOk(Covered(rows, t, now), assets)
  {
  }

  /** The first match of the ascending listing is the best row of the table. */
  lemma {:induction false} ListingChoice(
    rows: seq<Relation>, assets: map<Id, Asset>, listed: seq<(Relation, Lifecycle)>, i: nat, t: nat)
    requires RowsOk(rows, assets) && Joined(listed, SortRows(rows), assets)
    requires i < |listed| && t < |rows| && rows[t].asset == listed[i].0.asset && Usable(listed[i].1)
    requires forall j :: 0 <= j < |listed| && Usable(listed[j].1) ==>
                           (listed[j].1 == MasterReady ==> listed[i].1 == MasterReady)
                           && (listed[j].1 == listed[i].1 || listed[i].1 != MasterReady ==> i <= j)
    ensures CoverChoice(rows, assets, t)
  {
    SortPermutes(rows);
    RowListed(rows, assets, listed, t, i);
    forall k | 0 <= k < |rows| && Usable(assets[rows[k].asset].lifecycle)
      ensures AtLeastAsGood(rows[t], assets[rows[t].asset].lifecycle, rows[k], assets[rows[k].asset].lifecycle)
    {
      assert rows[k] in SortRows(rows);
      var j :| 0 <= j < |listed| && SortRows(rows)[j] == rows[k];
    }
  }

  lemma {:induction false} RowListed(
    rows: seq<Relation>, assets: map<Id, Asset>, listed: seq<(Relation, Lifecycle)>, t: nat, i: nat)
    requires RowsOk(rows, assets) && Joined(listed, SortRows(rows), assets)
    requires i < |listed| && t < |rows| && rows[t].asset == listed[i].0.asset
    ensures rows[t] == listed[i].0
  {
    SortPermutes(rows);
    assert SortRows(rows)[i] in rows;
  }

  // ---------------------------------------------------------------- reordering

  /** ids lists every attached asset once and nothing else. */
  ghost predicate Covers(rows: seq<Relation>, ids: seq<Id>) {
    Sorting.Distinct(ids) && (forall x :: x in ids <==> Attached(rows, x))
  }

  function IdSet(ids: seq<Id>): set<Id> {
    set x | x in ids
  }

  lemma {:induction false} DistinctSize(ids: seq<Id>)
    requires Sorting.Distinct(ids)
    ensures |IdSet(ids)| == |ids|
  {
    if ids != [] {
      DistinctSize(ids[1..]);
      assert IdSet(ids) == IdSet(ids[1..]) + {ids[0]};
      assert ids[0] !in ids[1..];
    }
  }

  lemma {:induction false} SubsetOfSameSize(a: set<Id>, b: set<Id>)
    requires a <= b && |a| == |b|
    ensures a == b
  {
    assert b == a + (b - a);
    assert |b| == |a| + |b - a|;
  }

  function AssetsOf(rows: seq<Relation>): seq<Id> {
    seq(|rows|, i requires 0 <= i < |rows| => rows[i].asset)
  }

  /** Equal lengths, no repetition and membership are enough: the request is a permutation. */
  lemma {:induction false} ExactSetIsPermutation(rows: seq<Relation>, ids: seq<Id>)
    requires Sorting.Distinct(AssetsOf(rows)) && Sorting.Distinct(ids) && |ids| == |rows|
    requires forall i :: 0 <= i < |ids| ==> Attached(rows, ids[i])
    ensures Covers(rows, ids)
  {
    var own := AssetsOf(rows);
    DistinctSize(own);
    DistinctSize(ids);
    forall x | x in ids
      ensures x in own
    {
      var k :| 0 <= k < |rows| && rows[k].asset == x;
      assert own[k] == x;
    }
    assert IdSet(ids) <= IdSet(own);
    SubsetOfSameSize(IdSet(ids), IdSet(own));
    forall x
      ensures x in ids <==> Attached(rows, x)
    {
      if Attached(rows, x) {
        var k :| 0 <= k < |rows| && rows[k].asset == x;
        assert own[k] == x;
        assert x in IdSet(ids);
      }
    }
  }

  function Position(ids: seq<Id>, x: Id): (i: nat)
    requires x in ids
    ensures i < |ids| && ids[i] == x
  {
    if ids[0] == x then 0 else Position(ids[1..], x) + 1
  }

  /** Every row keeps its place, cover and creation time; its order becomes base plus the
      position of its asset in the request. */
  ghost predicate Reordered(rows: seq<Relation>, ids: seq<Id>, base: int, now: Time, n: nat, rows': seq<Relation>)
    requires Covers(rows, ids)
  {
    && |rows'| == |rows|
    && forall k :: 0 <= k < |rows| ==> rows'[k] == ReorderedRow(rows, ids, base, now, n, k)
  }

  /** Row k once the first n assets of the request have been given their orders. */
  ghost function ReorderedRow(rows: seq<Relation>, ids: seq<Id>, base: int, now: Time, n: nat, k: nat): Relation
    requires Covers(rows, ids) && k < |rows|
  {
    assert Attached(rows, rows[k].asset);
    var p := Position(ids, rows[k].asset);
    if p < n then rows[k].(order := base + p, updatedAt := now) else rows[k]
  }

  /** The window [base, base + size) is not in use. */
  predicate WindowFree(rows: seq<Relation>, base: int, size: nat) {
    forall k :: 0 <= k < |rows| ==> !(base <= rows[k].order < base + size)
  }

  lemma {:induction false} HasRows(rows: seq<Relation>, ids: seq<Id>)
    requires ids != [] && Covers(rows, ids)
    ensures rows != []
  {
    assert ids[0] in ids;
  }

  /** Writing the next order of the window meets no uniqueness check. */
  lemma {:induction false} NextOrderIsFree(
    rows: seq<Relation>, ids: seq<Id>, base: int, now: Time, n: nat, rows': seq<Relation>)
    requires Covers(rows, ids) && n < |ids| && Reordered(rows, ids, base, now, n, rows')
              && WindowFree(rows, base, |ids|)
    ensures Attached(rows', ids[n]) && !OrderTaken(rows', ids[n], base + n)
  {
    assert Attached(rows, ids[n]);
    var k :| 0 <= k < |rows| && rows[k].asset == ids[n];
    assert rows'[k].asset == ids[n];
  }

  lemma {:induction false} OneMoreMoved(
    rows: seq<Relation>, ids: seq<Id>, base: int, now: Time, n: nat, rows': seq<Relation>, t: nat)
    requires Covers(rows, ids) && Sorting.Distinct(AssetsOf(rows)) && n < |ids|
              && Reordered(rows, ids, base, now, n, rows')
    requires LastOf(rows', ids[n], t)
    ensures Reordered(rows, ids, base, now, n + 1, Moved(rows', t, base + n, now))
  {
    var moved := Moved(rows', t, base + n, now);
    forall k | 0 <= k < |rows|
      ensures moved[k] == ReorderedRow(rows, ids, base, now, n + 1, k)
    {
      assert rows'[k] == ReorderedRow(rows, ids, base, now, n, k);
      assert rows'[t] == ReorderedRow(rows, ids, base, now, n, t);
      assert AssetsOf(rows)[k] == rows[k].asset && AssetsOf(rows)[t] == rows[t].asset;
      assert Attached(rows, rows[k].asset);
    }
  }

  // ---------------------------------------------------------------- what a listing says about the rows

  /** Each listed relation is the one row with its asset. */
  lemma {:induction false} RowFromListing(
    rows: seq<Relation>, assets: map<Id, Asset>, listed: seq<(Relation, Lifecycle)>, i: nat)
    requires RowsOk(rows, assets) && Joined(listed, SortRows(rows), assets) && i < |listed|
    ensures Attached(rows, listed[i].0.asset)
    ensures forall k :: 0 <= k < |rows| && rows[k].asset == listed[i].0.asset ==> rows[k] == listed[i].0
  {
    SortPermutes(rows);
    assert SortRows(rows)[i] in rows;
  }

  /** Each row is listed. */
  lemma {:induction false} RowIsListed(
    rows: seq<Relation>, assets: map<Id, Asset>, listed: seq<(Relation, Lifecycle)>, k: nat)
    returns (i: nat)
    requires RowsOk(rows, assets) && Joined(listed, SortRows(rows), assets) && k < |rows|
    ensures i < |listed| && listed[i].0 == rows[k]
  {
    SortPermutes(rows);
    assert rows[k] in SortRows(rows);
    i :| i < |SortRows(rows)| && SortRows(rows)[i] == rows[k];
  }

  lemma {:induction false} ListingScan(
    rows: seq<Relation>, assets: map<Id, Asset>, listed: seq<(Relation, Lifecycle)>, asset: Id,
    hasCover: bool, nextOrder: int, taken: set<int>)
    requires RowsOk(rows, assets) && Joined(listed, SortRows(rows), assets)
    requires hasCover <==> exists k :: 0 <= k < |listed| && listed[k].0.cover
    requires nextOrder >= 0
    requires forall k :: 0 <= k < |listed| ==> listed[k].0.asset != asset && listed[k].0.order < nextOrder
    requires nextOrder > 0 ==> exists k :: 0 <= k < |listed| && listed[k].0.order == nextOrder - 1
    requires forall o :: o in taken <==> exists k :: 0 <= k < |listed| && listed[k].0.order == o
    ensures !Attached(rows, asset) && (hasCover <==> HasCover(rows)) && IsNextOrder(rows, nextOrder)
    ensures forall o :: o in taken <==> Taken(rows, o)
  {
    forall k | 0 <= k < |rows|
      ensures exists i :: 0 <= i < |listed| && listed[i].0 == rows[k]
    {
      var i := RowIsListed(rows, assets, listed, k);
    }
    forall i | 0 <= i < |listed|
      ensures exists k :: 0 <= k < |rows| && rows[k] == listed[i].0
    {
      RowFromListing(rows, assets, listed, i);
    }
  }

  lemma {:induction false} NotListed(
    rows: seq<Relation>, assets: map<Id, Asset>, listed: seq<(Relation, Lifecycle)>, asset: Id)
    requires RowsOk(rows, assets) && Joined(listed, SortRows(rows), assets)
    requires forall k :: 0 <= k < |listed| ==> listed[k].0.asset != asset
    ensures !Attached(rows, asset)
  {
    if Attached(rows, asset) {
      var k :| 0 <= k < |rows| && rows[k].asset == asset;
      var i := RowIsListed(rows, assets, listed, k);
      assert false;
    }
  }

  lemma {:induction false} NothingUsable(
    rows: seq<Relation>, assets: map<Id, Asset>, listed: seq<(Relation, Lifecycle)>)
    requires RowsOk(rows, assets) && Joined(listed, SortRows(rows), assets)
    requires forall j :: 0 <= j < |listed| ==> !Usable(listed[j].1)
    ensures forall k :: 0 <= k < |rows| ==> !Usable(assets[rows[k].asset].lifecycle)
  {
    forall k | 0 <= k < |rows|
      ensures !Usable(assets[rows[k].asset].lifecycle)
    {
      var i := RowIsListed(rows, assets, listed, k);
    }
  }

  lemma {:induction false} AttachedListed(
    rows: seq<Relation>, assets: map<Id, Asset>, listed: seq<(Relation, Lifecycle)>, attached: set<Id>)
    requires RowsOk(rows, assets) && Joined(listed, SortRows(rows), assets)
    requires forall x :: x in attached <==> exists k :: 0 <= k < |listed| && listed[k].0.asset == x
    ensures forall x :: x in attached <==> Attached(rows, x)
  {
    forall k | 0 <= k < |rows|
      ensures rows[k].asset in attached
    {
      var i := RowIsListed(rows, assets, listed, k);
    }
    forall i | 0 <= i < |listed|
      ensures Attached(rows, listed[i].0.asset)
    {
      RowFromListing(rows, assets, listed, i);
    }
  }

  lemma {:induction false} ListedBelow(
    rows: seq<Relation>, assets: map<Id, Asset>, listed: seq<(Relation, Lifecycle)>, bound: int)
    requires RowsOk(rows, assets) && Joined(listed, SortRows(rows), assets)
    requires forall i :: 0 <= i < |listed| ==> listed[i].0.order < bound
    ensures forall k :: 0 <= k < |rows| ==> rows[k].order < bound
  {
    forall k | 0 <= k < |rows|
      ensures rows[k].order < bound
    {
      var i := RowIsListed(rows, assets, listed, k);
    }
  }

  // ---------------------------------------------------------------- outcomes

  ghost predicate DetachedRows(rows: seq<Relation>, assets: map<Id, Asset>, i: nat, now: Time, rows': seq<Relation>)
    requires i < |rows|
  {
    && RowsOk(Without(rows, i), assets)
    && if rows[i].cover then Promoted(Without(rows, i), assets, now, rows') else rows' == Without(rows, i)
  }

  ghost predicate LostRow(
    rows: seq<Relation>, assets: map<Id, Asset>, asset: Id, now: Time, rows': seq<Relation>)
  {
    exists i :: FirstOf(rows, asset, i) && DetachedRows(rows, assets, i, now, rows')
  }

  /** An asset that can carry the cover by itself: finished, or at least uploaded. */
  ghost predicate Presentable(assets: map<Id, Asset>, row: Relation) {
    row.asset in assets && assets[row.asset].lifecycle in {MasterReady, Uploaded, Validating}
  }

  ghost predicate Finished(assets: map<Id, Asset>, row: Relation) {
    row.asset in assets && assets[row.asset].lifecycle == MasterReady
  }

  ghost predicate SameRelation(a: Relation, b: Relation) {
    a.id == b.id && a.asset == b.asset && a.order == b.order && a.createdAt == b.createdAt
  }

  /** The cover is on the best relation there is: a finished asset if any, else a presentable one, the first
      by order of its kind; and on none only when none is presentable. */
  ghost predicate BestIsCover(rows: seq<Relation>, assets: map<Id, Asset>) {
    && (forall m :: 0 <= m < |rows| && rows[m].cover ==> Presentable(assets, rows[m]))
    && (forall m, x :: 0 <= m < |rows| && 0 <= x < |rows| && rows[m].cover && Presentable(assets, rows[x]) ==>
          (Finished(assets, rows[m]) && !Finished(assets, rows[x]))
          || ((Finished(assets, rows[m]) <==> Finished(assets, rows[x])) && rows[m].order <= rows[x].order))
    && (forall x :: 0 <= x < |rows| && Presentable(assets, rows[x]) ==> HasCover(rows))
  }

  lemma {:induction false} PromotedMeans(rows: seq<Relation>, assets: map<Id, Asset>, now: Time, rows': seq<Relation>)
    requires RowsOk(rows, assets) && !HasCover(rows) && Promoted(rows, assets, now, rows')
    ensures |rows'| == |rows| && BestIsCover(rows', assets)
    ensures forall m :: 0 <= m < |rows'| ==> SameRelation(rows'[m], rows[m])
  {
    if rows' != rows {
      var t :| CoverChoice(rows, assets, t) && rows' == Covered(rows, t, now);
      assert rows'[t].cover;
    }
  }

  /** What is left when an asset has gone: the other relations in their places. If it was not the cover, the
      cover is where it was; if it was, the best of the others has it. */
  lemma {:induction false} DetachedMeans(
    rows: seq<Relation>, assets: map<Id, Asset>, asset: Id, now: Time, rows': seq<Relation>)
    requires RowsOk(rows, assets) && LostRow(rows, assets, asset, now, rows')
    ensures |rows'| == |rows| - 1 && !Attached(rows', asset)
    ensures forall m :: 0 <= m < |rows'| ==>
              exists k :: 0 <= k < |rows| && SameRelation(rows'[m], rows[k])
                          && (!IsCover(rows, asset) ==> rows'[m].cover == rows[k].cover)
    ensures IsCover(rows, asset) ==> BestIsCover(rows', assets)
  {
    var i :| FirstOf(rows, asset, i) && DetachedRows(rows, assets, i, now, rows');
    var left := Without(rows, i);
    DetachKeepsRows(rows, assets, i);
    assert IsCover(rows, asset) <==> rows[i].cover;
    hide RowsOk, Promoted, BestIsCover;
    if rows[i].cover {
      PromotedMeans(left, assets, now, rows');
    }
    forall m | 0 <= m < |rows'|
      ensures exists k :: 0 <= k < |rows| && SameRelation(rows'[m], rows[k])
                          && (!IsCover(rows, asset) ==> rows'[m].cover == rows[k].cover)
      ensures rows'[m].asset != asset
    {
      var k := if m < i then m else m + 1;
      assert left[m] == rows[k] && SameRelation(rows'[m], rows[k]);
      assert left[m].asset == asset ==> Attached(left, asset);
    }
  }

  /** The length, repetition and membership checks accept exactly the permutations of the attached assets. */
  lemma {:induction false} CoversIff(rows: seq<Relation>, assets: map<Id, Asset>, ids: seq<Id>)
    requires RowsOk(rows, assets) && Sorting.Distinct(ids)
    ensures Covers(rows, ids) <==> |rows| == |ids| && forall i :: 0 <= i < |ids| ==> Attached(rows, ids[i])
  {
    assert Sorting.Distinct(AssetsOf(rows));
    if |rows| == |ids| && forall i :: 0 <= i < |ids| ==> Attached(rows, ids[i]) {
      ExactSetIsPermutation(rows, ids);
    }
    if Covers(rows, ids) {
      var own := AssetsOf(rows);
      DistinctSize(own);
      DistinctSize(ids);
      forall x
        ensures x in IdSet(own) <==> x in IdSet(ids)
      {
        if x in own {
          var k :| 0 <= k < |own| && own[k] == x;
          assert Attached(rows, x);
        }
        if Attached(rows, x) {
          var k :| 0 <= k < |rows| && rows[k].asset == x;
          assert own[k] == x;
        }
      }
      assert IdSet(own) == IdSet(ids);
    }
  }

  lemma {:induction false} ReorderedOrders(
    rows: seq<Relation>, ids: seq<Id>, base: int, now: Time, rows': seq<Relation>, k: nat)
    requires Covers(rows, ids) && Reordered(rows, ids, base, now, |ids|, rows') && k < |rows|
    ensures rows[k].asset in ids
    ensures rows'[k] == rows[k].(order := base + Position(ids, rows[k].asset), updatedAt := now)
  {
    assert Attached(rows, rows[k].asset);
  }

  lemma {:induction false} SameAssets(rows: seq<Relation>, rows': seq<Relation>, ids: seq<Id>)
    requires |rows'| == |rows| && Covers(rows, ids)
    requires forall k :: 0 <= k < |rows| ==> rows'[k].asset == rows[k].asset
    ensures Covers(rows', ids)
  {
    forall x
      ensures Attached(rows', x) <==> Attached(rows, x)
    {
      if Attached(rows, x) {
        var k :| 0 <= k < |rows| && rows[k].asset == x;
        assert rows'[k].asset == x;
      }
    }
  }

  lemma {:induction false} ReorderedRowsOk(
    rows: seq<Relation>, assets: map<Id, Asset>, ids: seq<Id>, base: nat, now: Time, rows': seq<Relation>)
    requires RowsOk(rows, assets) && Covers(rows, ids) && Reordered(rows, ids, base, now, |ids|, rows')
    ensures RowsOk(rows', assets) && Covers(rows', ids)
  {
    forall k | 0 <= k < |rows|
      ensures rows[k].asset in ids
      ensures rows'[k] == rows[k].(order := base + Position(ids, rows[k].asset), updatedAt := now)
    {
      ReorderedOrders(rows, ids, base, now, rows', k);
    }
    SameAssets(rows, rows', ids);
  }

  /** After the first phase every order sits above the final range. */
  lemma {:induction false} LiftedRows(
    rows: seq<Relation>, assets: map<Id, Asset>, ids: seq<Id>, offset: nat, now: Time, lifted: seq<Relation>)
    requires RowsOk(rows, assets) && Covers(rows, ids) && offset >= |ids|
    requires Reordered(rows, ids, offset, now, |ids|, lifted)
    ensures RowsOk(lifted, assets) && Covers(lifted, ids) && WindowFree(lifted, 0, |ids|)
  {
    ReorderedRowsOk(rows, assets, ids, offset, now, lifted);
    forall k | 0 <= k < |lifted|
      ensures lifted[k].order >= offset
    {
      ReorderedOrders(rows, ids, offset, now, lifted, k);
    }
  }

  /** The two phases together give the i-th asset order i and touch nothing but orders and times. */
  lemma {:induction false} LandedRows(
    rows: seq<Relation>, assets: map<Id, Asset>, ids: seq<Id>, offset: nat, now: Time,
    lifted: seq<Relation>, landed: seq<Relation>)
    requires RowsOk(rows, assets) && Covers(rows, ids)
    requires Reordered(rows, ids, offset, now, |ids|, lifted)
    requires Covers(lifted, ids) && Reordered(lifted, ids, 0, now, |ids|, landed)
    ensures Reordered(rows, ids, 0, now, |ids|, landed) && RowsOk(landed, assets)
  {
    forall k | 0 <= k < |rows|
      ensures landed[k] == ReorderedRow(rows, ids, 0, now, |ids|, k)
    {
      ReorderedOrders(rows, ids, offset, now, lifted, k);
      ReorderedOrders(lifted, ids, 0, now, landed, k);
    }
    ReorderedRowsOk(rows, assets, ids, 0, now, landed);
  }

  lemma {:induction false} StrictlyAscendingFill(l: seq<Relation>, i: nat)
    requires forall j, k :: 0 <= j < k < |l| ==> l[j].order < l[k].order
    requires forall k :: 0 <= k < |l| ==> 0 <= l[k].order < |l|
    requires i < |l|
    ensures l[i].order >= i && |l| - l[i].order >= 1
  {
    if i > 0 {
      StrictlyAscendingFill(l, i - 1);
    }
  }

  lemma {:induction false} FillFromTop(l: seq<Relation>, i: nat)
    requires forall j, k :: 0 <= j < k < |l| ==> l[j].order < l[k].order
    requires forall k :: 0 <= k < |l| ==> 0 <= l[k].order < |l|
    requires i < |l|
    ensures l[i].order == i
    decreases |l| - i
  {
    StrictlyAscendingFill(l, i);
    if i + 1 < |l| {
      FillFromTop(l, i + 1);
    }
  }

  lemma {:induction false} RowsDiffer(rows: seq<Relation>, assets: map<Id, Asset>, x: Relation, y: Relation)
    requires RowsOk(rows, assets) && x in rows && y in rows && x != y
    ensures x.order != y.order
  {
    var i :| 0 <= i < |rows| && rows[i] == x;
    var j :| 0 <= j < |rows| && rows[j] == y;
  }

  lemma {:induction false} DistinctRows(rows: seq<Relation>, assets: map<Id, Asset>)
    requires RowsOk(rows, assets)
    ensures Sorting.Distinct(rows)
  {
  }

  lemma {:induction false} SortedDistinct(rows: seq<Relation>, assets: map<Id, Asset>, j: nat, k: nat)
    requires RowsOk(rows, assets) && j < k < |SortRows(rows)|
    ensures SortRows(rows)[j].order < SortRows(rows)[k].order
  {
    hide RowsOk;
    SortPermutes(rows);
    DistinctRows(rows, assets);
    Sorting.SortDistinct(rows, ByOrder);
    RowsDiffer(rows, assets, SortRows(rows)[j], SortRows(rows)[k]);
  }

  /** The response lists the assets in the requested order. */
  lemma {:induction false} SortedInOrder(
    rows: seq<Relation>, assets: map<Id, Asset>, ids: seq<Id>, now: Time, landed: seq<Relation>)
    requires RowsOk(rows, assets) && Covers(rows, ids) && |rows| == |ids|
    requires Reordered(rows, ids, 0, now, |ids|, landed) && RowsOk(landed, assets)
    ensures |SortRows(landed)| == |ids|
    ensures forall i :: 0 <= i < |ids| ==> SortRows(landed)[i].order == i && SortRows(landed)[i].asset == ids[i]
  {
    SortPermutes(landed);
    var l := SortRows(landed);
    forall j, k | 0 <= j < k < |l|
      ensures l[j].order < l[k].order
    {
      SortedDistinct(landed, assets, j, k);
    }
    forall k | 0 <= k < |l|
      ensures 0 <= l[k].order < |l| && l[k].asset == ids[l[k].order]
    {
      assert l[k] in landed;
      var m :| 0 <= m < |landed| && landed[m] == l[k];
      ReorderedOrders(rows, ids, 0, now, landed, m);
    }
    forall i | 0 <= i < |ids|
      ensures l[i].order == i
    {
      FillFromTop(l, i);
    }
  }

  ghost predicate IsCover(rows: seq<Relation>, asset: Id) {
    exists i :: 0 <= i < |rows| && rows[i].asset == asset && rows[i].cover
  }

  /** The asset's row is now the cover, every other row is not, and only rows whose flag flipped were touched. */
  ghost predicate CoverMoved(rows: seq<Relation>, asset: Id, now: Time, rows': seq<Relation>) {
    && |rows'| == |rows|
    && forall k :: 0 <= k < |rows| ==>
                     rows'[k] == if rows[k].asset == asset then rows[k].(cover := true, updatedAt := now)
                                 else UncoveredRow(rows[k], now)
  }

  lemma {:induction false} ClearedRows(rows: seq<Relation>, assets: map<Id, Asset>, asset: Id, now: Time)
    requires RowsOk(rows, assets) && Attached(rows, asset)
    ensures RowsOk(Uncovered(rows, now), assets) && !HasCover(Uncovered(rows, now))
    ensures Attached(Uncovered(rows, now), asset)
  {
    var k :| 0 <= k < |rows| && rows[k].asset == asset;
    assert Uncovered(rows, now)[k].asset == asset;
  }

  lemma {:induction false} MovedCover(
    rows: seq<Relation>, assets: map<Id, Asset>, asset: Id, now: Time, rows': seq<Relation>)
    requires RowsOk(rows, assets) && Attached(rows, asset) && !IsCover(rows, asset)
    requires exists t :: LastOf(Uncovered(rows, now), asset, t) && rows' == Covered(Uncovered(rows, now), t, now)
    ensures CoverMoved(rows, asset, now, rows') && RowsOk(rows', assets)
  {
  }
}
