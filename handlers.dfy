/** The request handlers of backend/src/handlers.rs. Each one answers with a
    JSON body or rejects the request with one of the service's errors, which
    `handle_rejection` then turns into an error reply. The shared store is
    passed in; fresh ids and the clock's readings are parameters. */
module Handlers {
  import opened Options
  import opened Models
  import opened Errors
  import opened Db

  /** What a handler gives back: a reply carrying `value` as JSON, or a rejection. */
  datatype Outcome<T> = Replied(value: T) | Rejected(rejection: Rejection)

  /** The JSON body of a successful deletion. */
  datatype Deleted = Deleted(success: bool, message: string)

  /** The guide `create_guide` builds from a request: a new id, the request's
      fields, and the two clock readings as creation and update times. */
  function BuildGuide(req: CreateGuideRequest, id: Uuid, created: Timestamp, updated: Timestamp): (g: Guide)
    ensures g.id == id && g.createdAt == created && g.updatedAt == updated
    ensures CreateGuideRequest(g.title, g.mainImage, g.tags, g.content) == req
  {
    Guide(id, req.title, req.mainImage, req.tags, req.content, created, updated)
  }

  /** `field.unwrap_or(current)`: the request's value when it carries one,
      the current value otherwise. */
  function OrElse<T>(field: Option<T>, current: T): (r: T)
    ensures field.Some? ==> r == field.value
    ensures field.None? ==> r == current
  {
    match field
    case Some(v) => v
    case None => current
  }

  /** The guide `update_guide` stores: every field the request carries
      replaces the current one, the others stay; the id is the requested
      one, the creation time is kept and the update time is the clock's. */
  function MergeUpdate(current: Guide, id: Uuid, req: UpdateGuideRequest, now: Timestamp): (g: Guide)
    ensures g.id == id && g.createdAt == current.createdAt && g.updatedAt == now
  {
    Guide(id,
      OrElse(req.title, current.title),
      OrElse(req.mainImage, current.mainImage),
      OrElse(req.tags, current.tags),
      OrElse(req.content, current.content),
      current.createdAt,
      now)
  }

  /** A request without fields changes only the update time. */
  lemma EmptyUpdateKeepsGuide(current: Guide, now: Timestamp)
    ensures MergeUpdate(current, current.id, UpdateGuideRequest(None, None, None, None), now)
      == current.(updatedAt := now)
  {
  }

  /** A request with every field replaces all the guide's contents. */
  lemma FullUpdateReplaces(current: Guide, id: Uuid, title: string, mainImage: string,
                           tags: seq<string>, content: seq<Sections.Section>, now: Timestamp)
    ensures MergeUpdate(current, id, UpdateGuideRequest(Some(title), Some(mainImage), Some(tags), Some(content)), now)
      == Guide(id, title, mainImage, tags, content, current.createdAt, now)
  {
  }

  /** Sending the same request twice gives what sending it once gives, up to
      the update time. */
  lemma UpdateIdempotent(current: Guide, id: Uuid, req: UpdateGuideRequest, now1: Timestamp, now2: Timestamp)
    ensures MergeUpdate(MergeUpdate(current, id, req, now1), id, req, now2)
      == MergeUpdate(current, id, req, now2)
  {
  }

  /** `create_guide`: the handler builds the guide with an id of its own,
      which the store replaces with the id it draws; the stored guide is the
      reply. */
  method CreateGuide(store: Store, req: CreateGuideRequest, handlerId: Uuid, storeId: Uuid,
                     created: Timestamp, updated: Timestamp) returns (out: Outcome<Guide>)
    modifies store
    ensures out == Replied(BuildGuide(req, storeId, created, updated))
    ensures store.guides == old(store.guides) + [BuildGuide(req, storeId, created, updated)]
  {
    var guide := BuildGuide(req, handlerId, created, updated);
    var r := store.CreateGuide(guide, storeId);
    match r
    case Ok(created) => out := Replied(created);
    case Err(e) => out := Rejected(Custom(e));
  }

  /** `get_guides`: every stored guide. */
  method GetGuides(store: Store) returns (out: Outcome<seq<Guide>>)
    ensures out == Replied(store.guides)
  {
    var all := store.GetGuides();
    out := Replied(all);
  }

  /** `get_guide`: the guide with `id`, or a rejection that answers 404
      "Guide not found". */
  method GetGuide(store: Store, id: Uuid) returns (out: Outcome<Guide>)
    ensures out.Replied? <==> exists k :: 0 <= k < |store.guides| && store.guides[k].id == id
    ensures out.Replied? ==> out.value.id == id && Lookup(store.guides, id) == Ok(out.value)
    ensures out.Rejected? ==>
      out.rejection == Custom(GuideNotFound) && HandleRejection(out.rejection) == ErrorReply(NOT_FOUND, "Guide not found")
  {
    var r := store.GetGuide(id);
    match r
    case Ok(guide) => out := Replied(guide);
    case Err(e) => out := Rejected(Custom(e));
  }

  /** `update_guide`: the current guide is read, merged with the request and
      written back under the requested id; a missing guide is rejected with
      `GuideNotFound` and nothing changes. */
  method UpdateGuide(store: Store, id: Uuid, req: UpdateGuideRequest, now: Timestamp) returns (out: Outcome<Guide>)
    modifies store
    ensures Lookup(old(store.guides), id).Err? ==>
      out == Rejected(Custom(GuideNotFound)) && store.guides == old(store.guides)
    ensures Lookup(old(store.guides), id).Ok? ==>
      var updated := MergeUpdate(Lookup(old(store.guides), id).value, id, req, now);
      out == Replied(updated) && store.guides == AfterUpdate(old(store.guides), id, updated)
  {
    var current := store.GetGuide(id);
    if current.Err? {
      return Rejected(Custom(current.error));
    }
    var updated := MergeUpdate(current.value, id, req, now);
    var r := store.UpdateGuide(id, updated);
    match r
    case Ok(guide) => out := Replied(guide);
    case Err(e) => out := Rejected(Custom(e));
  }

  /** `delete_guide`: a confirmation, or `GuideNotFound` when no guide has `id`. */
  method DeleteGuide(store: Store, id: Uuid) returns (out: Outcome<Deleted>)
    modifies store
    ensures store.guides == AfterDelete(old(store.guides), id)
    ensures out.Replied? <==> Lookup(old(store.guides), id).Ok?
    ensures out.Replied? ==> out.value == Deleted(true, "Guide deleted")
    ensures out.Rejected? ==> out.rejection == Custom(GuideNotFound)
  {
    var r := store.DeleteGuide(id);
    match r
    case Ok(_) => out := Replied(Deleted(true, "Guide deleted"));
    case Err(e) => out := Rejected(Custom(e));
  }

  /** After an update that found its guide, reading the guide back gives the
      merged guide, as long as ids are distinct. */
  lemma UpdateThenRead(guides: seq<Guide>, id: Uuid, req: UpdateGuideRequest, now: Timestamp)
    requires UniqueIds(guides) && Lookup(guides, id).Ok?
    ensures var updated := MergeUpdate(Lookup(guides, id).value, id, req, now);
      Lookup(AfterUpdate(guides, id, updated), id) == Ok(updated)
  {
    var updated := MergeUpdate(Lookup(guides, id).value, id, req, now);
    UpdateThenGet(guides, id, updated);
  }
}
