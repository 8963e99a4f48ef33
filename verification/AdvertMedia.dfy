/** The media attached to an advert: ordered relations with at most one cover, edited under
    an optimistic media version by use cases whose transaction never undoes a write. */
module AdvertMedia {
  import opened Basics
  import opened RelationRows
  import opened Sorting

  datatype Advert = Advert(owner: Id, status: AdvertStatus, deleted: bool, mediaVersion: int)

  datatype Item = Item(asset: Id, order: int, cover: bool, lifecycle: Lifecycle)

  datatype View = View(advertId: int, mediaVersion: int, items: seq<Item>)

  predicate EditableForMedia(s: AdvertStatus) {
    s == Draft || s == ChangesRequested || s == Rejected || s == Published
  }

  /** The reads every use case starts with: ownership, deletion, status and version. */
  function Guard(adverts: map<int, Advert>, owner: Id, advertId: int, expected: int): Result<Advert> {
    if advertId !in adverts || adverts[advertId].owner != owner then Err(NotFound)
    else if adverts[advertId].deleted then Err(InvalidState)
    else if !EditableForMedia(adverts[advertId].status) then Err(InvalidState)
    else if adverts[advertId].mediaVersion != expected then Err(StaleVersion)
    else Ok(adverts[advertId])
  }

  /** What every call needs: the caller's own advert, not deleted, in a status that allows edits, and the
      media version it has now. */
  ghost predicate EditableBy(adverts: map<int, Advert>, owner: Id, advertId: int, expected: int) {
    && advertId in adverts && adverts[advertId].owner == owner && !adverts[advertId].deleted
    && adverts[advertId].status in {Draft, ChangesRequested, Rejected, Published}
    && adverts[advertId].mediaVersion == expected && expected >= 1
  }

  /** The items show exactly the rows, by ascending order, each with its asset's lifecycle. */
  ghost predicate Displays(items: seq<Item>, rows: seq<Relation>, assets: map<Id, Asset>) {
    && |items| == |rows|
    && (forall i, j :: 0 <= i < j < |items| ==> items[i].order < items[j].order)
    && (forall i :: 0 <= i < |items| ==> exists k :: 0 <= k < |rows| && ItemOf(items[i], rows[k], assets))
    && (forall k :: 0 <= k < |rows| ==> exists i :: 0 <= i < |items| && ItemOf(items[i], rows[k], assets))
  }

  ghost predicate ItemOf(item: Item, row: Relation, assets: map<Id, Asset>) {
    && item.asset == row.asset && item.order == row.order && item.cover == row.cover
    && row.asset in assets && item.lifecycle == assets[row.asset].lifecycle
  }

  lemma {:induction false} ItemsDisplay(rows: seq<Relation>, assets: map<Id, Asset>)
    requires RowsOk(rows, assets) && Listable(SortRows(rows), assets)
    ensures Displays(Items(SortRows(rows), assets), rows, assets)
  {
    var l, items := SortRows(rows), Items(SortRows(rows), assets);
    RelationRows.SortPermutes(rows);
    forall i, j | 0 <= i < j < |items|
      ensures items[i].order < items[j].order
    {
      SortedDistinct(rows, assets, i, j);
    }
    forall i | 0 <= i < |items|
      ensures exists k :: 0 <= k < |rows| && ItemOf(items[i], rows[k], assets)
    {
      assert l[i] in rows;
      var k :| 0 <= k < |rows| && rows[k] == l[i];
      assert ItemOf(items[i], rows[k], assets);
    }
    forall k | 0 <= k < |rows|
      ensures exists i :: 0 <= i < |items| && ItemOf(items[i], rows[k], assets)
    {
      assert rows[k] in l;
      var i :| 0 <= i < |l| && l[i] == rows[k];
      assert ItemOf(items[i], rows[k], assets);
    }
  }

  /** Why a call on one asset is refused. */
  function EditRefusal(adverts: map<int, Advert>, owner: Id, advertId: int, asset: Id, expected: int): Error {
    if asset == NIL_ID || expected < 1 then Validation
    else if Guard(adverts, owner, advertId, expected).Err? then Guard(adverts, owner, advertId, expected).error
    else Internal
  }

  function AttachRefusal(
    adverts: map<int, Advert>, assets: map<Id, Asset>, owner: Id, advertId: int, asset: Id, wanted: Option<int>,
    expected: int): Error
  {
    if wanted.Some? && wanted.value < 0 then Validation
    else if EditRefusal(adverts, owner, advertId, asset, expected) != Internal then
      EditRefusal(adverts, owner, advertId, asset, expected)
    else if asset !in assets || assets[asset].owner != owner then NotFound
    else InvalidState
  }

  function ReorderRefusal(adverts: map<int, Advert>, owner: Id, advertId: int, ids: seq<Id>, expected: int): Error {
    if expected < 1 || ids == [] || NIL_ID in ids || !Distinct(ids) then Validation
    else if Guard(adverts, owner, advertId, expected).Err? then Guard(adverts, owner, advertId, expected).error
    else Validation
  }

  function Items(rows: seq<Relation>, assets: map<Id, Asset>): seq<Item>
    requires Listable(rows, assets)
  {
    seq(|rows|, i requires 0 <= i < |rows| =>
      Item(rows[i].asset, rows[i].order, rows[i].cover, assets[rows[i].asset].lifecycle))
  }

  class MediaStore {
    var relations: map<int, seq<Relation>>
    var adverts: map<int, Advert>
    var assets: map<Id, Asset>
    /** Every (advert, expected version) with which some call has written. */
    ghost var writes: seq<(int, int)>

    function Rows(advertId: int): seq<Relation>
      reads this`relations
    {
      if advertId in relations then relations[advertId] else []
    }

    ghost predicate Valid()
      reads this
    {
      && (forall a :: a in relations ==> RowsOk(relations[a], assets))
      && (forall i :: 0 <= i < |writes| ==>
            writes[i].0 in adverts && writes[i].1 < adverts[writes[i].0].mediaVersion)
      && (forall i, j :: 0 <= i < j < |writes| ==> writes[i] != writes[j])
    }

    constructor (adverts: map<int, Advert>, assets: map<Id, Asset>)
      ensures Valid() && relations == map[] && this.adverts == adverts && this.assets == assets
    {
      this.adverts, this.assets := adverts, assets;
      relations, writes := map[], [];
    }

    // -------------------------------------------------------------- repository

    method ListAdvertMediaByAdvert(advertId: int) returns (r: Result<seq<(Relation, Lifecycle)>>)
      ensures !Listable(Rows(advertId), assets) ==> r == Err(NotFound)
      ensures Listable(Rows(advertId), assets) ==>
                r.Ok? && Joined(r.value, SortRows(Rows(advertId)), assets)
    {
      var rows := SortRows(Rows(advertId));
      SortedListable(Rows(advertId), assets);
      var out := [];
      for i := 0 to |rows|
        invariant |out| == i
        invariant forall k :: 0 <= k < i ==> rows[k].asset in assets
                                             && out[k] == (rows[k], assets[rows[k].asset].lifecycle)
      {
        if rows[i].asset !in assets {
          return Err(NotFound);
        }
        out := out + [(rows[i], assets[rows[i].asset].lifecycle)];
      }
      return Ok(out);
    }

    method InsertRelation(advertId: int, rel: Relation) returns (r: Result<()>)
      modifies this`relations
      ensures r == if Clashes(old(Rows(advertId)), rel) then Err(Conflict) else Ok(())
      ensures relations == if r.Ok? then old(relations)[advertId := old(Rows(advertId)) + [rel]] else old(relations)
    {
      var rows := Rows(advertId);
      for i := 0 to |rows|
        invariant forall k :: 0 <= k < i ==> !ClashesWith(rows[k], rel)
      {
        if rows[i].asset == rel.asset {
          return Err(Conflict);
        }
        if rows[i].order == rel.order {
          return Err(Conflict);
        }
        if rel.cover && rows[i].cover {
          return Err(Conflict);
        }
      }
      relations := relations[advertId := rows + [rel]];
      return Ok(());
    }

    method RemoveRelation(advertId: int, asset: Id) returns (removed: bool, wasCover: bool)
      modifies this`relations
      ensures removed <==> Attached(old(Rows(advertId)), asset)
      ensures !removed ==> relations == old(relations) && !wasCover
      ensures removed ==> exists i :: FirstOf(old(Rows(advertId)), asset, i)
                                      && wasCover == old(Rows(advertId))[i].cover
                                      && relations == old(relations)[advertId := Without(old(Rows(advertId)), i)]
    {
      var rows := Rows(advertId);
      for i := 0 to |rows|
        invariant forall k :: 0 <= k < i ==> rows[k].asset != asset
      {
        if rows[i].asset != asset {
          continue;
        }
        assert FirstOf(rows, asset, i);
        relations := relations[advertId := rows[..i] + rows[i + 1..]];
        return true, rows[i].cover;
      }
      return false, false;
    }

    method UpdateDisplayOrder(advertId: int, asset: Id, order: int, now: Time) returns (r: Result<()>)
      modifies this`relations
      ensures r == if OrderTaken(old(Rows(advertId)), asset, order) then Err(Conflict)
                   else if !Attached(old(Rows(advertId)), asset) then Err(NotFound) else Ok(())
      ensures r.Err? ==> relations == old(relations)
      ensures r.Ok? ==> exists t :: LastOf(old(Rows(advertId)), asset, t)
                                    && relations
                                       == old(relations)[advertId := Moved(old(Rows(advertId)), t, order, now)]
    {
      var rows := Rows(advertId);
      var target := -1;
      for i := 0 to |rows|
        invariant target == -1 ==> forall k :: 0 <= k < i ==> rows[k].asset != asset
        invariant target != -1 ==> 0 <= target < i && rows[target].asset == asset
                                   && forall k :: target < k < i ==> rows[k].asset != asset
        invariant forall k :: 0 <= k < i && rows[k].asset != asset ==> rows[k].order != order
      {
        if rows[i].asset == asset {
          target := i;
          continue;
        }
        if rows[i].order == order {
          return Err(Conflict);
        }
      }
      if target < 0 {
        return Err(NotFound);
      }
      assert LastOf(rows, asset, target);
      relations := relations[advertId := Moved(rows, target, order, now)];
      return Ok(());
    }

    method ClearCover(advertId: int, now: Time)
      modifies this`relations
      ensures Rows(advertId) == Uncovered(old(Rows(advertId)), now)
      ensures relations == old(relations)
                || relations == old(relations)[advertId := Uncovered(old(Rows(advertId)), now)]
    {
      ghost var was := Rows(advertId);
      for i := 0 to |Rows(advertId)|
        invariant |Rows(advertId)| == |was|
        invariant relations == old(relations) || relations == old(relations)[advertId := Rows(advertId)]
        invariant forall k :: 0 <= k < i ==> Rows(advertId)[k] == UncoveredRow(was[k], now)
        invariant forall k :: i <= k < |was| ==> Rows(advertId)[k] == was[k]
      {
        var rows := Rows(advertId);
        if rows[i].cover {
          relations := relations[advertId := rows[i := rows[i].(cover := false, updatedAt := now)]];
        }
      }
      assert Rows(advertId) == Uncovered(was, now);
    }

    method SetCover(advertId: int, asset: Id, now: Time) returns (r: Result<()>)
      modifies this`relations
      ensures r == if OtherCover(old(Rows(advertId)), asset) then Err(Conflict)
                   else if !Attached(old(Rows(advertId)), asset) then Err(NotFound) else Ok(())
      ensures r.Err? ==> relations == old(relations)
      ensures r.Ok? ==> exists t :: LastOf(old(Rows(advertId)), asset, t)
                                    && relations == old(relations)[advertId := Covered(old(Rows(advertId)), t, now)]
    {
      var rows := Rows(advertId);
      var target := -1;
      for i := 0 to |rows|
        invariant target == -1 ==> forall k :: 0 <= k < i ==> rows[k].asset != asset
        invariant target != -1 ==> 0 <= target < i && rows[target].asset == asset
                                   && forall k :: target < k < i ==> rows[k].asset != asset
        invariant forall k :: 0 <= k < i && rows[k].asset != asset ==> !rows[k].cover
      {
        if rows[i].asset == asset {
          target := i;
          continue;
        }
        if rows[i].cover {
          return Err(Conflict);
        }
      }
      if target < 0 {
        return Err(NotFound);
      }
      assert LastOf(rows, asset, target);
      relations := relations[advertId := Covered(rows, target, now)];
      return Ok(());
    }

    /** The guarded write that ends every use case; it logs the version it consumed. */
    method BumpMediaVersion(owner: Id, advertId: int, expected: int) returns (r: Result<int>)
      modifies this`adverts, this`writes
      ensures Guard(old(adverts), owner, advertId, expected).Ok? ==>
                r == Ok(expected + 1)
                && adverts == old(adverts)[advertId := old(adverts)[advertId].(mediaVersion := expected + 1)]
                && writes == old(writes) + [(advertId, expected)]
      ensures Guard(old(adverts), owner, advertId, expected).Err? ==>
                r == Err(if advertId !in adverts || adverts[advertId].owner != owner then NotFound else StaleVersion)
                && adverts == old(adverts) && writes == old(writes)
    {
      if advertId !in adverts || adverts[advertId].owner != owner {
        return Err(NotFound);
      }
      var a := adverts[advertId];
      if a.deleted || a.mediaVersion != expected || !EditableForMedia(a.status) {
        return Err(StaleVersion);
      }
      adverts := adverts[advertId := a.(mediaVersion := a.mediaVersion + 1)];
      writes := writes + [(advertId, expected)];
      return Ok(a.mediaVersion + 1);
    }

    // -------------------------------------------------------------- use cases

    /** The projection every use case returns: the relations in display order. */
    ghost function ViewOf(advertId: int, version: int): View
      requires RowsOk(Rows(advertId), assets)
      reads this`relations, this`assets
    {
      SortedListable(Rows(advertId), assets);
      View(advertId, version, Items(SortRows(Rows(advertId)), assets))
    }

    /** The answer shows the advert's media as stored, at its current media version. */
    ghost predicate Answers(view: View, advertId: int)
      reads this
    {
      && view.advertId == advertId && advertId in adverts && view.mediaVersion == adverts[advertId].mediaVersion
      && Displays(view.items, Rows(advertId), assets)
    }

    lemma {:induction false} ViewAnswers(advertId: int)
      requires RowsOk(Rows(advertId), assets) && advertId in adverts
      ensures Answers(ViewOf(advertId, adverts[advertId].mediaVersion), advertId)
    {
      SortedListable(Rows(advertId), assets);
      ItemsDisplay(Rows(advertId), assets);
    }

    lemma {:induction false} RowsAreOk(advertId: int)
      requires Valid()
      ensures RowsOk(Rows(advertId), assets)
    {
    }

    /** The items of an already sorted listing; the projection sorts them once more, which by
        Sorting.SortOfOrdered changes nothing. */
    method MakeView(advertId: int, version: int, listed: seq<(Relation, Lifecycle)>) returns (view: View)
      requires RowsOk(Rows(advertId), assets)
      requires Joined(listed, SortRows(Rows(advertId)), assets)
      ensures view == ViewOf(advertId, version)
    {
      var items := [];
      for i := 0 to |listed|
        invariant |items| == i
        invariant forall k :: 0 <= k < i ==>
                                items[k] == Item(listed[k].0.asset, listed[k].0.order, listed[k].0.cover, listed[k].1)
      {
        items := items + [Item(listed[i].0.asset, listed[i].0.order, listed[i].0.cover, listed[i].1)];
      }
      SortedListable(Rows(advertId), assets);
      assert items == Items(SortRows(Rows(advertId)), assets);
      view := View(advertId, version, items);
    }

    method Project(advertId: int, version: int) returns (view: View)
      requires RowsOk(Rows(advertId), assets)
      ensures view == ViewOf(advertId, version)
    {
      var listed := ListAdvertMediaByAdvert(advertId);
      assert listed.Ok?;
      view := MakeView(advertId, version, listed.value);
    }

    /** The media version moved on by one, and the call is on record as the writer of `expected`. */
    twostate predicate Bumped(advertId: int, expected: int)
      reads this
    {
      && advertId in old(adverts)
      && adverts == old(adverts)[advertId := old(adverts)[advertId].(mediaVersion := expected + 1)]
      && writes == old(writes) + [(advertId, expected)]
    }

    twostate predicate NothingWritten()
      reads this
    {
      relations == old(relations) && adverts == old(adverts) && writes == old(writes)
    }

    method BumpAndProject(owner: Id, advertId: int, expected: int) returns (r: Result<View>)
      requires Valid() && Guard(adverts, owner, advertId, expected).Ok?
      modifies this`adverts, this`writes
      ensures Valid() && Bumped(advertId, expected)
      ensures r == Ok(ViewOf(advertId, expected + 1))
    {
      hide RowsOk, SortRows;
      var bumped := BumpMediaVersion(owner, advertId, expected);
      var view := Project(advertId, bumped.value);
      return Ok(view);
    }

    /** Where the next relation would go, what is taken, and whether a cover exists. */
    method ScanListing(listed: seq<(Relation, Lifecycle)>, ghost rows: seq<Relation>, asset: Id)
      returns (found: bool, hasCover: bool, nextOrder: int, taken: set<int>)
      requires RowsOk(rows, assets) && Joined(listed, SortRows(rows), assets)
      ensures found <==> Attached(rows, asset)
      ensures !found ==> (hasCover <==> HasCover(rows)) && IsNextOrder(rows, nextOrder)
                         && forall o :: o in taken <==> Taken(rows, o)
    {
      found, hasCover, nextOrder, taken := false, false, 0, {};
      for i := 0 to |listed|
        invariant hasCover <==> exists k :: 0 <= k < i && listed[k].0.cover
        invariant nextOrder >= 0
        invariant forall k :: 0 <= k < i ==> listed[k].0.asset != asset && listed[k].0.order < nextOrder
        invariant nextOrder > 0 ==> exists k :: 0 <= k < i && listed[k].0.order == nextOrder - 1
        invariant forall o :: o in taken <==> exists k :: 0 <= k < i && listed[k].0.order == o
      {
        var rel := listed[i].0;
        if rel.asset == asset {
          RowFromListing(rows, assets, listed, i);
          return true, hasCover, nextOrder, taken;
        }
        if rel.cover {
          hasCover := true;
        }
        taken := taken + {rel.order};
        if rel.order >= nextOrder {
          nextOrder := rel.order + 1;
        }
      }
      ListingScan(rows, assets, listed, asset, hasCover, nextOrder, taken);
    }

    ghost predicate CanAttach(owner: Id, advertId: int, asset: Id, wanted: Option<int>, expected: int)
      reads this
    {
      && asset != NIL_ID && expected >= 1 && (wanted.Some? ==> wanted.value >= 0)
      && Guard(adverts, owner, advertId, expected).Ok?
      && asset in assets && assets[asset].owner == owner && Attachable(assets[asset].lifecycle)
    }

    method AttachMediaToAdvert(
      owner: Id, advertId: int, asset: Id, wanted: Option<int>, expected: int, relationId: Id, now: Time)
      returns (r: Result<View>)
      requires Valid()
      modifies this`relations, this`adverts, this`writes
      ensures Valid()
      ensures r.Ok? <==> old(CanAttach(owner, advertId, asset, wanted, expected))
      ensures r.Ok? <==> EditableBy(old(adverts), owner, advertId, expected) && asset != NIL_ID
                         && (wanted.Some? ==> wanted.value >= 0) && asset in assets && assets[asset].owner == owner
                         && assets[asset].lifecycle in {UploadPending, Uploaded, Validating, MasterReady}
      ensures r.Err? ==> NothingWritten()
      ensures r.Err? ==> r == Err(AttachRefusal(old(adverts), assets, owner, advertId, asset, wanted, expected))
      ensures r.Ok? && old(Attached(Rows(advertId), asset)) ==>
                NothingWritten() && r.value == ViewOf(advertId, expected)
      ensures r.Ok? && !old(Attached(Rows(advertId), asset)) ==>
                Bumped(advertId, expected) && r.value == ViewOf(advertId, expected + 1)
      ensures r.Ok? && !old(Attached(Rows(advertId), asset)) ==>
                GainedRow(old(Rows(advertId)), relationId, asset, wanted, now, Rows(advertId))
                && relations == old(relations)[advertId := Rows(advertId)]
    {
      if asset == NIL_ID || expected < 1 || (wanted.Some? && wanted.value < 0) {
        return Err(Validation);
      }
      var guarded := Guard(adverts, owner, advertId, expected);
      if guarded.Err? {
        return Err(guarded.error);
      }
      if asset !in assets || assets[asset].owner != owner {
        return Err(NotFound);
      }
      if !Attachable(assets[asset].lifecycle) {
        return Err(InvalidState);
      }
      RowsAreOk(advertId);
      ghost var was := Rows(advertId);
      var listed := ListAdvertMediaByAdvert(advertId);
      var found, hasCover, nextOrder, taken := ScanListing(listed.value, was, asset);
      if found {
        var view := MakeView(advertId, expected, listed.value);
        return Ok(view);
      }
      var order := nextOrder;
      if wanted.Some? && wanted.value !in taken {
        order := wanted.value;
      }
      FreeOrder(was, wanted, nextOrder, order);
      r := AttachRow(owner, advertId, expected, Relation(relationId, asset, order, !hasCover, now, now));
    }

    /** The write section of an attach; the insert cannot be refused any more. */
    method AttachRow(owner: Id, advertId: int, expected: int, rel: Relation) returns (r: Result<View>)
      requires Valid() && Guard(adverts, owner, advertId, expected).Ok?
      requires rel.asset in assets && rel.asset != NIL_ID && rel.order >= 0
      requires !Attached(Rows(advertId), rel.asset) && !Taken(Rows(advertId), rel.order)
      requires rel.cover ==> !HasCover(Rows(advertId))
      modifies this`relations, this`adverts, this`writes
      ensures Valid() && Bumped(advertId, expected)
      ensures relations == old(relations)[advertId := old(Rows(advertId)) + [rel]]
      ensures r == Ok(ViewOf(advertId, expected + 1))
    {
      hide RowsOk, SortRows;
      RowsAreOk(advertId);
      AttachKeepsRows(Rows(advertId), assets, rel);
      var inserted := InsertRelation(advertId, rel);
      assert inserted == Ok(());
      r := BumpAndProject(owner, advertId, expected);
    }

    /** The asset the cover should move to: the first finished master of the listing, or else the
        first attachable asset whose upload is not pending. */
    method PickCover(listed: seq<(Relation, Lifecycle)>) returns (choice: Option<nat>)
      ensures choice.Some? ==> choice.value < |listed| && Usable(listed[choice.value].1)
      ensures choice.Some? ==> forall j :: 0 <= j < |listed| && Usable(listed[j].1) ==>
                (listed[j].1 == MasterReady ==> listed[choice.value].1 == MasterReady)
                && (listed[j].1 == listed[choice.value].1 || listed[choice.value].1 != MasterReady ==>
                    choice.value <= j)
      ensures choice.None? ==> forall j :: 0 <= j < |listed| ==> !Usable(listed[j].1)
    {
      var fallback: Option<nat> := None;
      for i := 0 to |listed|
        invariant forall j :: 0 <= j < i ==> listed[j].1 != MasterReady
        invariant fallback.None? ==> forall j :: 0 <= j < i ==> !Usable(listed[j].1)
        invariant fallback.Some? ==> fallback.value < i && Usable(listed[fallback.value].1)
                                     && forall j :: 0 <= j < fallback.value ==> !Usable(listed[j].1)
      {
        if listed[i].1 == MasterReady {
          return Some(i);
        }
        if fallback.None? && Attachable(listed[i].1) && listed[i].1 != UploadPending {
          fallback := Some(i);
        }
      }
      return fallback;
    }

    method PromoteCover(advertId: int, now: Time)
      requires RowsOk(Rows(advertId), assets) && !HasCover(Rows(advertId))
      modifies this`relations
      ensures RowsOk(Rows(advertId), assets)
      ensures Promoted(old(Rows(advertId)), assets, now, Rows(advertId))
      ensures relations == old(relations) || relations == old(relations)[advertId := Rows(advertId)]
    {
      ghost var was := Rows(advertId);
      var listed := ListAdvertMediaByAdvert(advertId);
      var choice := PickCover(listed.value);
      if choice.Some? {
        var asset := listed.value[choice.value].0.asset;
        RowFromListing(was, assets, listed.value, choice.value);
        var set_ := SetCover(advertId, asset, now);
        assert set_ == Ok(());
        ghost var t :| LastOf(was, asset, t) && relations == old(relations)[advertId := Covered(was, t, now)];
        ListingChoice(was, assets, listed.value, choice.value, t);
        CoverKeepsRows(was, assets, t, now);
      } else {
        NothingUsable(was, assets, listed.value);
      }
    }

    ghost predicate CanEdit(owner: Id, advertId: int, asset: Id, expected: int)
      reads this
    {
      asset != NIL_ID && expected >= 1 && Guard(adverts, owner, advertId, expected).Ok?
    }

    method DetachMediaFromAdvert(owner: Id, advertId: int, asset: Id, expected: int, now: Time)
      returns (r: Result<View>)
      requires Valid()
      modifies this`relations, this`adverts, this`writes
      ensures Valid()
      ensures r.Ok? <==> old(CanEdit(owner, advertId, asset, expected))
      ensures r.Ok? <==> EditableBy(old(adverts), owner, advertId, expected) && asset != NIL_ID
      ensures r.Err? ==> r == Err(EditRefusal(old(adverts), owner, advertId, asset, expected))
      ensures r.Err? || !old(Attached(Rows(advertId), asset)) ==> NothingWritten()
      ensures r.Ok? && !old(Attached(Rows(advertId), asset)) ==> r.value == ViewOf(advertId, expected)
      ensures r.Ok? && old(Attached(Rows(advertId), asset)) ==>
                Bumped(advertId, expected) && r.value == ViewOf(advertId, expected + 1)
      ensures r.Ok? && old(Attached(Rows(advertId), asset)) ==>
                LostRow(old(Rows(advertId)), assets, asset, now, Rows(advertId))
                && relations == old(relations)[advertId := Rows(advertId)]
    {
      if asset == NIL_ID || expected < 1 {
        return Err(Validation);
      }
      var guarded := Guard(adverts, owner, advertId, expected);
      if guarded.Err? {
        return Err(guarded.error);
      }
      RowsAreOk(advertId);
      var removed := DetachRow(advertId, asset, now);
      if !removed {
        var view := Project(advertId, guarded.value.mediaVersion);
        return Ok(view);
      }
      r := BumpAndProject(owner, advertId, expected);
    }

    /** The relation goes, and when it was the cover the best remaining one is promoted. */
    method DetachRow(advertId: int, asset: Id, now: Time) returns (removed: bool)
      requires RowsOk(Rows(advertId), assets)
      modifies this`relations
      ensures RowsOk(Rows(advertId), assets)
      ensures removed <==> old(Attached(Rows(advertId), asset))
      ensures !removed ==> relations == old(relations)
      ensures removed ==> LostRow(old(Rows(advertId)), assets, asset, now, Rows(advertId))
                          && relations == old(relations)[advertId := Rows(advertId)]
    {
      ghost var was := Rows(advertId);
      var wasCover;
      removed, wasCover := RemoveRelation(advertId, asset);
      if removed {
        ghost var i :| FirstOf(was, asset, i) && wasCover == was[i].cover
                       && relations == old(relations)[advertId := Without(was, i)];
        DetachKeepsRows(was, assets, i);
        if wasCover {
          PromoteCover(advertId, now);
        }
        assert DetachedRows(was, assets, i, now, Rows(advertId));
      }
    }

    method ValidateOrderedAssetIds(ids: seq<Id>) returns (r: Result<()>)
      ensures r == if ids != [] && NIL_ID !in ids && Distinct(ids) then Ok(()) else Err(Validation)
    {
      if |ids| == 0 {
        return Err(Validation);
      }
      var seen: set<Id> := {};
      for i := 0 to |ids|
        invariant forall x :: x in seen <==> x in ids[..i]
        invariant NIL_ID !in ids[..i]
        invariant forall j, k :: 0 <= j < k < i ==> ids[j] != ids[k]
      {
        if ids[i] == NIL_ID {
          return Err(Validation);
        }
        if ids[i] in seen {
          return Err(Validation);
        }
        seen := seen + {ids[i]};
        assert ids[..i + 1] == ids[..i] + [ids[i]];
      }
      assert ids[..|ids|] == ids;
      return Ok(());
    }

    method CollectAssets(listed: seq<(Relation, Lifecycle)>) returns (attached: set<Id>)
      ensures forall x :: x in attached <==> exists k :: 0 <= k < |listed| && listed[k].0.asset == x
    {
      attached := {};
      for i := 0 to |listed|
        invariant forall x :: x in attached <==> exists k :: 0 <= k < i && listed[k].0.asset == x
      {
        attached := attached + {listed[i].0.asset};
      }
    }

    method RequireExactRelationSet(listed: seq<(Relation, Lifecycle)>, ghost rows: seq<Relation>, ids: seq<Id>)
      returns (r: Result<()>)
      requires RowsOk(rows, assets) && Joined(listed, SortRows(rows), assets)
      ensures r == if |rows| == |ids| && forall i :: 0 <= i < |ids| ==> Attached(rows, ids[i])
                   then Ok(()) else Err(Validation)
    {
      SortedLength(rows);
      if |listed| != |ids| {
        return Err(Validation);
      }
      var attached := CollectAssets(listed);
      AttachedListed(rows, assets, listed, attached);
      for i := 0 to |ids|
        invariant forall k :: 0 <= k < i ==> Attached(rows, ids[k])
      {
        if ids[i] !in attached {
          return Err(Validation);
        }
      }
      return Ok(());
    }

    /** One pass of the two-phase write: asset i of the request gets order base + i. */
    method WriteOrders(advertId: int, ids: seq<Id>, base: int, now: Time)
      requires RowsOk(Rows(advertId), assets) && Covers(Rows(advertId), ids)
      requires WindowFree(Rows(advertId), base, |ids|)
      modifies this`relations
      ensures Reordered(old(Rows(advertId)), ids, base, now, |ids|, Rows(advertId))
      ensures relations == old(relations) || relations == old(relations)[advertId := Rows(advertId)]
    {
      ghost var was := Rows(advertId);
      for i := 0 to |ids|
        invariant Reordered(was, ids, base, now, i, Rows(advertId))
        invariant relations == old(relations) || relations == old(relations)[advertId := Rows(advertId)]
      {
        WriteOneOrder(advertId, was, ids, base, i, now);
      }
    }

    /** No intermediate write of a pass meets the uniqueness check. */
    method WriteOneOrder(advertId: int, ghost was: seq<Relation>, ids: seq<Id>, base: int, i: nat, now: Time)
      requires Covers(was, ids) && Distinct(AssetsOf(was)) && WindowFree(was, base, |ids|) && i < |ids|
      requires Reordered(was, ids, base, now, i, Rows(advertId))
      modifies this`relations
      ensures Reordered(was, ids, base, now, i + 1, Rows(advertId))
      ensures relations == old(relations)[advertId := Rows(advertId)]
    {
      ghost var before := Rows(advertId);
      NextOrderIsFree(was, ids, base, now, i, before);
      var updated := UpdateDisplayOrder(advertId, ids[i], base + i, now);
      assert updated == Ok(());
      ghost var t :| LastOf(before, ids[i], t)
                     && relations == old(relations)[advertId := Moved(before, t, base + i, now)];
      OneMoreMoved(was, ids, base, now, i, before, t);
    }

    method OffsetAbove(listed: seq<(Relation, Lifecycle)>, ghost rows: seq<Relation>, n: nat) returns (offset: int)
      requires RowsOk(rows, assets) && Joined(listed, SortRows(rows), assets)
      ensures offset >= n && forall k :: 0 <= k < |rows| ==> rows[k].order < offset
    {
      offset := n;
      for i := 0 to |listed|
        invariant offset >= n && forall k :: 0 <= k < i ==> listed[k].0.order < offset
      {
        if listed[i].0.order >= offset {
          offset := listed[i].0.order + 1;
        }
      }
      ListedBelow(rows, assets, listed, offset);
    }

    ghost predicate CanReorder(owner: Id, advertId: int, ids: seq<Id>, expected: int)
      reads this
    {
      && expected >= 1 && ids != [] && NIL_ID !in ids && Covers(Rows(advertId), ids)
      && Guard(adverts, owner, advertId, expected).Ok?
    }

    method ReorderAdvertMedia(owner: Id, advertId: int, ids: seq<Id>, expected: int, now: Time)
      returns (r: Result<View>)
      requires Valid()
      modifies this`relations, this`adverts, this`writes
      ensures Valid()
      ensures r.Ok? <==> old(CanReorder(owner, advertId, ids, expected))
      ensures r.Ok? <==> EditableBy(old(adverts), owner, advertId, expected)
                         && ids != [] && NIL_ID !in ids && Covers(old(Rows(advertId)), ids)
      ensures r.Err? ==> r == Err(ReorderRefusal(old(adverts), owner, advertId, ids, expected))
      ensures r.Err? ==> NothingWritten()
      ensures r.Ok? ==> Bumped(advertId, expected) && r.value == ViewOf(advertId, expected + 1)
      ensures r.Ok? ==> Reordered(old(Rows(advertId)), ids, 0, now, |ids|, Rows(advertId))
                        && relations == old(relations)[advertId := Rows(advertId)]
      ensures r.Ok? ==> |r.value.items| == |ids|
                        && forall i :: 0 <= i < |ids| ==>
                            r.value.items[i].asset == ids[i] && r.value.items[i].order == i
    {
      if expected < 1 {
        return Err(Validation);
      }
      var checked := ValidateOrderedAssetIds(ids);
      if checked.Err? {
        return Err(checked.error);
      }
      var guarded := Guard(adverts, owner, advertId, expected);
      if guarded.Err? {
        return Err(guarded.error);
      }
      RowsAreOk(advertId);
      ghost var was := Rows(advertId);
      var listed := ListAdvertMediaByAdvert(advertId);
      var exact := RequireExactRelationSet(listed.value, was, ids);
      CoversIff(was, assets, ids);
      if exact.Err? {
        return Err(exact.error);
      }
      r := WriteNewOrder(owner, advertId, ids, expected, listed.value, now);
      SortedInOrder(was, assets, ids, now, Rows(advertId));
    }

    /** The write section of a reorder: first every relation moves above everything in use, then
        each takes its final order. No write of either phase can be refused. */
    method WriteNewOrder(
      owner: Id, advertId: int, ids: seq<Id>, expected: int, listed: seq<(Relation, Lifecycle)>, now: Time)
      returns (r: Result<View>)
      requires Valid() && Guard(adverts, owner, advertId, expected).Ok?
      requires RowsOk(Rows(advertId), assets) && Joined(listed, SortRows(Rows(advertId)), assets)
      requires ids != [] && Covers(Rows(advertId), ids)
      modifies this`relations, this`adverts, this`writes
      ensures Valid() && Bumped(advertId, expected)
      ensures Reordered(old(Rows(advertId)), ids, 0, now, |ids|, Rows(advertId))
      ensures relations == old(relations)[advertId := Rows(advertId)]
      ensures r == Ok(ViewOf(advertId, expected + 1))
    {
      hide RowsOk, Covers, Reordered, WindowFree, SortRows;
      ghost var was := Rows(advertId);
      HasRows(was, ids);
      var offset := OffsetAbove(listed, was, |ids|);
      WriteOrders(advertId, ids, offset, now);
      ghost var lifted := Rows(advertId);
      LiftedRows(was, assets, ids, offset, now, lifted);
      WriteOrders(advertId, ids, 0, now);
      LandedRows(was, assets, ids, offset, now, lifted, Rows(advertId));
      r := BumpAndProject(owner, advertId, expected);
    }

    method FindRelation(listed: seq<(Relation, Lifecycle)>, ghost rows: seq<Relation>, asset: Id)
      returns (attached: bool, alreadyCover: bool)
      requires RowsOk(rows, assets) && Joined(listed, SortRows(rows), assets)
      ensures attached <==> Attached(rows, asset)
      ensures attached ==> forall k :: 0 <= k < |rows| && rows[k].asset == asset ==> rows[k].cover == alreadyCover
    {
      for i := 0 to |listed|
        invariant forall k :: 0 <= k < i ==> listed[k].0.asset != asset
      {
        if listed[i].0.asset == asset {
          RowFromListing(rows, assets, listed, i);
          return true, listed[i].0.cover;
        }
      }
      NotListed(rows, assets, listed, asset);
      return false, false;
    }

    method SetAdvertCover(owner: Id, advertId: int, asset: Id, expected: int, now: Time) returns (r: Result<View>)
      requires Valid()
      modifies this`relations, this`adverts, this`writes
      ensures Valid()
      ensures r.Ok? <==> old(CanEdit(owner, advertId, asset, expected) && Attached(Rows(advertId), asset))
      ensures r.Ok? <==> EditableBy(old(adverts), owner, advertId, expected) && asset != NIL_ID
                         && old(Attached(Rows(advertId), asset))
      ensures r.Err? ==> r == Err(if old(CanEdit(owner, advertId, asset, expected)) then InvalidState
                                  else EditRefusal(old(adverts), owner, advertId, asset, expected))
      ensures r.Err? || old(IsCover(Rows(advertId), asset)) ==> NothingWritten()
      ensures r.Ok? && old(IsCover(Rows(advertId), asset)) ==> r.value == ViewOf(advertId, expected)
      ensures r.Ok? && !old(IsCover(Rows(advertId), asset)) ==>
                Bumped(advertId, expected) && r.value == ViewOf(advertId, expected + 1)
                && CoverMoved(old(Rows(advertId)), asset, now, Rows(advertId))
                && relations == old(relations)[advertId := Rows(advertId)]
    {
      if asset == NIL_ID || expected < 1 {
        return Err(Validation);
      }
      var guarded := Guard(adverts, owner, advertId, expected);
      if guarded.Err? {
        return Err(guarded.error);
      }
      RowsAreOk(advertId);
      ghost var was := Rows(advertId);
      var listed := ListAdvertMediaByAdvert(advertId);
      var attached, alreadyCover := FindRelation(listed.value, was, asset);
      if !attached {
        return Err(InvalidState);
      }
      if alreadyCover {
        var view := Project(advertId, guarded.value.mediaVersion);
        return Ok(view);
      }
      r := MoveCover(owner, advertId, asset, expected, now);
    }

    /** The write section of a cover change: clear the old flag, then set the new one. */
    method MoveCover(owner: Id, advertId: int, asset: Id, expected: int, now: Time) returns (r: Result<View>)
      requires Valid() && Guard(adverts, owner, advertId, expected).Ok?
      requires Attached(Rows(advertId), asset) && !IsCover(Rows(advertId), asset)
      modifies this`relations, this`adverts, this`writes
      ensures Valid() && Bumped(advertId, expected)
      ensures CoverMoved(old(Rows(advertId)), asset, now, Rows(advertId))
      ensures relations == old(relations)[advertId := Rows(advertId)]
      ensures r == Ok(ViewOf(advertId, expected + 1))
    {
      hide RowsOk, SortRows;
      RowsAreOk(advertId);
      ghost var was := Rows(advertId);
      ClearCover(advertId, now);
      ClearedRows(was, assets, asset, now);
      var set_ := SetCover(advertId, asset, now);
      assert set_ == Ok(());
      MovedCover(was, assets, asset, now, Rows(advertId));
      r := BumpAndProject(owner, advertId, expected);
    }
  }
}
