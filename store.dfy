/** The in-memory guide store of backend/src/db.rs: a list of guides behind a
    lock, searched by id. The store answers with the first guide whose id
    matches; ids stay distinct as long as every new guide gets a fresh one. */
module Db {
  import opened Options
  import opened Models
  import opened Errors

  /** Where the first guide with `id` is, if any: `iter().position(...)`. */
  function IndexOfId(guides: seq<Guide>, id: Uuid): (r: Option<nat>)
    ensures r.Some? ==>
      r.value < |guides| && guides[r.value].id == id && forall k :: 0 <= k < r.value ==> guides[k].id != id
    ensures r.None? <==> forall k :: 0 <= k < |guides| ==> guides[k].id != id
  {
    if guides == [] then None
    else if guides[0].id == id then Some(0)
    else
      match IndexOfId(guides[1..], id)
      case None => None
      case Some(i) => Some(i + 1)
  }

  /** `get_guide`: the first guide with `id`, or `GuideNotFound`. */
  function Lookup(guides: seq<Guide>, id: Uuid): (r: Result<Guide>)
    ensures r.Ok? ==> r.value in guides && r.value.id == id
    ensures r.Err? <==> forall k :: 0 <= k < |guides| ==> guides[k].id != id
    ensures r.Err? ==> r.error == GuideNotFound
  {
    match IndexOfId(guides, id)
    case Some(i) => Ok(guides[i])
    case None => Err(GuideNotFound)
  }

  /** The list after `update_guide(id, update)`: the first guide with `id` is
      replaced, or nothing changes. */
  function AfterUpdate(guides: seq<Guide>, id: Uuid, update: Guide): (r: seq<Guide>)
    ensures |r| == |guides|
    ensures IndexOfId(guides, id).None? ==> r == guides
    ensures IndexOfId(guides, id).Some? ==>
      r[IndexOfId(guides, id).value] == update
      && forall k :: 0 <= k < |r| && k != IndexOfId(guides, id).value ==> r[k] == guides[k]
  {
    match IndexOfId(guides, id)
    case Some(i) => guides[i := update]
    case None => guides
  }

  /** The list after `delete_guide(id)`: the first guide with `id` is
      removed, or nothing changes. */
  function AfterDelete(guides: seq<Guide>, id: Uuid): (r: seq<Guide>)
    ensures IndexOfId(guides, id).None? ==> r == guides
    ensures IndexOfId(guides, id).Some? ==>
      var i := IndexOfId(guides, id).value;
      |r| == |guides| - 1
      && (forall k :: 0 <= k < i ==> r[k] == guides[k])
      && (forall k :: i <= k < |r| ==> r[k] == guides[k + 1])
  {
    match IndexOfId(guides, id)
    case Some(i) => guides[..i] + guides[i + 1..]
    case None => guides
  }

  predicate UniqueIds(guides: seq<Guide>) {
    forall i, j :: 0 <= i < j < |guides| ==> guides[i].id != guides[j].id
  }

  /** A guide added under an id no stored guide has can be read back, and
      every other id reads as before. */
  lemma CreateThenGet(guides: seq<Guide>, g: Guide)
    requires forall k :: 0 <= k < |guides| ==> guides[k].id != g.id
    ensures Lookup(guides + [g], g.id) == Ok(g)
    ensures forall id :: id != g.id ==> Lookup(guides + [g], id) == Lookup(guides, id)
  {
    forall id | id != g.id
      ensures Lookup(guides + [g], id) == Lookup(guides, id)
    {
      IndexOfIdAppend(guides, g, id);
    }
    IndexOfIdAppend(guides, g, g.id);
  }

  /** Adding a guide under a fresh id keeps the ids distinct. */
  lemma CreateKeepsUnique(guides: seq<Guide>, g: Guide)
    requires UniqueIds(guides) && forall k :: 0 <= k < |guides| ==> guides[k].id != g.id
    ensures UniqueIds(guides + [g])
  {
  }

  lemma {:induction false} IndexOfIdAppend(guides: seq<Guide>, g: Guide, id: Uuid)
    ensures IndexOfId(guides + [g], id) ==
      if IndexOfId(guides, id).Some? then IndexOfId(guides, id)
      else if g.id == id then Some(|guides|)
      else None
  {
    if guides != [] {
      assert (guides + [g])[1..] == guides[1..] + [g];
      IndexOfIdAppend(guides[1..], g, id);
    }
  }

  /** With distinct ids, the guide with `id` is the only one: any position
      holding it is the one the store finds. */
  lemma UniqueIndex(guides: seq<Guide>, id: Uuid, i: nat)
    requires UniqueIds(guides) && i < |guides| && guides[i].id == id
    ensures IndexOfId(guides, id) == Some(i)
  {
  }

  /** Replacing a guide by one with the same id keeps the ids distinct; the
      replacement is what is read back, and other guides read as before. */
  lemma UpdateThenGet(guides: seq<Guide>, id: Uuid, update: Guide)
    requires UniqueIds(guides) && update.id == id
    ensures UniqueIds(AfterUpdate(guides, id, update))
    ensures IndexOfId(guides, id).Some? ==> Lookup(AfterUpdate(guides, id, update), id) == Ok(update)
    ensures IndexOfId(guides, id).None? ==> AfterUpdate(guides, id, update) == guides
    ensures forall other :: other != id ==> Lookup(AfterUpdate(guides, id, update), other) == Lookup(guides, other)
  {
    match IndexOfId(guides, id)
    case None =>
    case Some(i) =>
      var r := guides[i := update];
      assert UniqueIds(r);
      UniqueIndex(r, id, i);
      forall other | other != id
        ensures Lookup(r, other) == Lookup(guides, other)
      {
        SameIdsElsewhere(guides, r, i, other);
      }
  }

  /** Two lists that differ only at a position not holding `id` find `id` at
      the same place and hold the same guide there. */
  lemma {:induction false} SameIdsElsewhere(a: seq<Guide>, b: seq<Guide>, i: nat, id: Uuid)
    requires |a| == |b| && i < |a| && a[i].id != id && b[i].id != id
    requires forall k :: 0 <= k < |a| && k != i ==> a[k] == b[k]
    ensures IndexOfId(a, id) == IndexOfId(b, id)
    ensures Lookup(a, id) == Lookup(b, id)
  {
    if a[0].id != id && 0 < i {
      SameIdsElsewhere(a[1..], b[1..], i - 1, id);
    } else if a[0].id != id {
      assert a[1..] == b[1..];
    }
  }

  /** Removing position `i` shifts the guides after it down by one and keeps
      distinct ids distinct. */
  lemma RemoveAtShifts(guides: seq<Guide>, i: nat)
    requires UniqueIds(guides) && i < |guides|
    ensures var r := guides[..i] + guides[i + 1..];
      |r| == |guides| - 1 && UniqueIds(r) &&
      forall k :: 0 <= k < |r| ==> r[k] == (if k < i then guides[k] else guides[k + 1])
  {
    var r := guides[..i] + guides[i + 1..];
    assert forall k :: 0 <= k < |r| ==> r[k] == (if k < i then guides[k] else guides[k + 1]);
    forall a, b | 0 <= a < b < |r|
      ensures r[a].id != r[b].id
    {
      var a' := if a < i then a else a + 1;
      var b' := if b < i then b else b + 1;
      assert r[a] == guides[a'] && r[b] == guides[b'] && a' < b';
    }
  }

  /** Deleting a guide keeps the ids distinct; with distinct ids, the deleted
      guide can no longer be read, and the others read as before. */
  lemma DeleteThenGet(guides: seq<Guide>, id: Uuid)
    requires UniqueIds(guides)
    ensures UniqueIds(AfterDelete(guides, id))
    ensures Lookup(AfterDelete(guides, id), id) == Err(GuideNotFound)
    ensures forall other :: other != id ==> Lookup(AfterDelete(guides, id), other) == Lookup(guides, other)
  {
    match IndexOfId(guides, id)
    case None =>
    case Some(i) =>
      var r := guides[..i] + guides[i + 1..];
      RemoveAtShifts(guides, i);
      assert forall k :: 0 <= k < |r| ==> r[k].id != id;
      forall other | other != id
        ensures Lookup(r, other) == Lookup(guides, other)
      {
        match IndexOfId(guides, other)
        case None =>
        case Some(j) =>
          var j' := if j < i then j else j - 1;
          assert r[j'] == guides[j];
          UniqueIndex(r, other, j');
      }
  }

  /** With `id` stored more than once, first at `i` and next at `j`, one
      deletion removes only the copy at `i`: the guide from `j` moves down one
      place and is what the store then finds. */
  lemma DeleteRemovesFirstOnly(guides: seq<Guide>, id: Uuid, i: nat, j: nat)
    requires i < j < |guides| && guides[i].id == id && guides[j].id == id
    requires forall k :: 0 <= k < j && k != i ==> guides[k].id != id
    ensures IndexOfId(guides, id) == Some(i)
    ensures AfterDelete(guides, id)[j - 1] == guides[j]
    ensures Lookup(AfterDelete(guides, id), id) == Ok(guides[j])
  {
    FirstIdAt(guides, id, i);
    var r := AfterDelete(guides, id);
    forall k | 0 <= k < j - 1
      ensures r[k].id != id
    {
      if k < i {
        assert r[k] == guides[k];
      } else {
        assert r[k] == guides[k + 1];
      }
    }
    FirstIdAt(r, id, j - 1);
  }

  /** The store finds `id` at `i` when `i` holds it and no earlier position does. */
  lemma FirstIdAt(guides: seq<Guide>, id: Uuid, i: nat)
    requires i < |guides| && guides[i].id == id
    requires forall k :: 0 <= k < i ==> guides[k].id != id
    ensures IndexOfId(guides, id) == Some(i)
  {
  }

  /** `Store`: the guides in the order they were added. */
  class Store {
    var guides: seq<Guide>

    /** `Store::new` */
    constructor()
      ensures guides == []
    {
      guides := [];
    }

    /** The scan of `iter().position(|g| g.id == id)`. */
    method Position(id: Uuid) returns (index: Option<nat>)
      ensures index == IndexOfId(guides, id)
    {
      var k := 0;
      while k < |guides|
        invariant 0 <= k <= |guides|
        invariant forall j :: 0 <= j < k ==> guides[j].id != id
      {
        if guides[k].id == id {
          return Some(k);
        }
        k := k + 1;
      }
      return None;
    }

    /** `create_guide`: the guide is stored under a fresh id, drawn by the
        store whatever id the guide came with, and returned. */
    method CreateGuide(guide: Guide, freshId: Uuid) returns (r: Result<Guide>)
      modifies this
      ensures r == Ok(guide.(id := freshId))
      ensures guides == old(guides) + [guide.(id := freshId)]
    {
      var stored := guide.(id := freshId);
      guides := guides + [stored];
      r := Ok(stored);
    }

    /** `get_guides`: a copy of every stored guide, in order. */
    method GetGuides() returns (all: seq<Guide>)
      ensures all == guides
    {
      all := guides;
    }

    /** `get_guide` */
    method GetGuide(id: Uuid) returns (r: Result<Guide>)
      ensures r == Lookup(guides, id)
    {
      var index := Position(id);
      match index
      case Some(i) => r := Ok(guides[i]);
      case None => r := Err(GuideNotFound);
    }

    /** `update_guide`: the first guide with `id` is replaced by `update`, which
        is returned; without one, `GuideNotFound` and nothing changes. */
    method UpdateGuide(id: Uuid, update: Guide) returns (r: Result<Guide>)
      modifies this
      ensures guides == AfterUpdate(old(guides), id, update)
      ensures r == if IndexOfId(old(guides), id).Some? then Ok(update) else Err(GuideNotFound)
    {
      var index := Position(id);
      match index
      case Some(i) =>
        guides := guides[i := update];
        r := Ok(update);
      case None =>
        r := Err(GuideNotFound);
    }

    /** `delete_guide`: the first guide with `id` is removed; without one,
        `GuideNotFound` and nothing changes. */
    method DeleteGuide(id: Uuid) returns (r: Result<()>)
      modifies this
      ensures guides == AfterDelete(old(guides), id)
      ensures r == if IndexOfId(old(guides), id).Some? then Ok(()) else Err(GuideNotFound)
    {
      var index := Position(id);
      match index
      case Some(i) =>
        guides := guides[..i] + guides[i + 1..];
        r := Ok(());
      case None =>
        r := Err(GuideNotFound);
    }
  }
}
