/** The strat book of each map: strats and their images are appended with a
    sort order one past the largest of their group, and a strat is reached
    only through the map it belongs to. */
module StratsController {
  import opened Wrappers
  import opened Models
  import opened Tables
  import opened Forms
  import Text
  import UserModel

  /** A row of `maps`, as far as the strat pages use it. */
  datatype GameMap = GameMap(id: int, slug: string)

  datatype StratForm = StratForm(title: string, description: Option<string>, valoplantUrl: Option<string>)

  /** An uploaded file: whether it passed the size and extension rules, the
      first error message if it did not, and the client's file name. */
  datatype Upload = Upload(isValid: bool, firstError: Option<string>, clientName: string)

  /** What a handler answers: 404 from `firstOrFail`, an empty body to an htmx
      request, or a redirect (`"back"` for the referring page) with an optional flash. */
  datatype Outcome = NotFound | EmptyBody | Redirect(path: string, flash: Option<Flash>)

  // ------------------------------------------------------------------ sort order

  /** `max(sort_order)` over the rows satisfying `p`; NULL when there are none. */
  function MaxSortOrder<R>(rows: seq<R>, p: R -> bool, order: R -> int): (m: Option<int>)
    ensures m.None? <==> forall i :: 0 <= i < |rows| ==> !p(rows[i])
    ensures m.Some? ==> (exists i :: 0 <= i < |rows| && p(rows[i]) && order(rows[i]) == m.value)
    ensures m.Some? ==> forall i :: 0 <= i < |rows| && p(rows[i]) ==> order(rows[i]) <= m.value
  {
    if rows == [] then None
    else
      var rest := MaxSortOrder(rows[1..], p, order);
      assert forall i :: 1 <= i < |rows| ==> rows[i] == rows[1..][i - 1];
      if !p(rows[0]) then
        (if rest.Some? then
           var i :| 0 <= i < |rows[1..]| && p(rows[1..][i]) && order(rows[1..][i]) == rest.value;
           assert rows[i + 1] == rows[1..][i];
           rest
         else rest)
      else if rest.None? || order(rows[0]) >= rest.value then Some(order(rows[0]))
      else
        var i :| 0 <= i < |rows[1..]| && p(rows[1..][i]) && order(rows[1..][i]) == rest.value;
        assert rows[i + 1] == rows[1..][i];
        rest
  }

  /** `(maxOrder || 0) + 1`: a NULL or zero maximum counts as 0. */
  function NextSortOrder(maxOrder: Option<int>): int {
    (if maxOrder.Some? && maxOrder.value != 0 then maxOrder.value else 0) + 1
  }

  /** The new sort order is larger than every existing one of its group, and
      the first of a group gets 1. */
  lemma NextSortOrderAbove<R>(rows: seq<R>, p: R -> bool, order: R -> int)
    ensures forall i :: 0 <= i < |rows| && p(rows[i]) ==> order(rows[i]) < NextSortOrder(MaxSortOrder(rows, p, order))
    ensures (forall i :: 0 <= i < |rows| ==> !p(rows[i])) ==> NextSortOrder(MaxSortOrder(rows, p, order)) == 1
  {
  }

  function StratOrder(s: StratBook): int { s.sortOrder }

  function ImageOrder(i: StratImage): int { i.sortOrder }

  function OnMap(mapId: int): StratBook -> bool {
    (s: StratBook) => s.mapId == mapId
  }

  function OfStrat(stratId: int): StratImage -> bool {
    (i: StratImage) => i.stratBookId == stratId
  }

  // ------------------------------------------------------------------ lookups

  function HasSlug(slug: string): GameMap -> bool {
    (m: GameMap) => m.slug == slug
  }

  /** `Map.query().where('slug', slug).firstOrFail()`. */
  function FindMap(maps: seq<GameMap>, slug: string): (r: Option<GameMap>)
    ensures r.Some? ==> r.value in maps && r.value.slug == slug
    ensures r.None? ==> forall m :: m in maps ==> m.slug != slug
  {
    var i := FirstIndex(maps, HasSlug(slug));
    if i.None? then None else Some(maps[i.value])
  }

  function IdOnMap(id: int, mapId: int): StratBook -> bool {
    (s: StratBook) => s.id == id && s.mapId == mapId
  }

  /** `StratBook.query().where('id', id).where('mapId', map.id).firstOrFail()`:
      the position of the strat, only if it belongs to the map. */
  function FindStrat(strats: seq<StratBook>, id: int, mapId: int): (r: Option<nat>)
    ensures r.Some? ==> r.value < |strats| && strats[r.value].id == id && strats[r.value].mapId == mapId
    ensures r.None? <==> forall s :: s in strats ==> !(s.id == id && s.mapId == mapId)
  {
    FirstIndex(strats, IdOnMap(id, mapId))
  }

  /** The strat a request under a map's slug reaches, if any. */
  function Reached(maps: seq<GameMap>, strats: seq<StratBook>, slug: string, id: int): (r: Option<nat>)
    ensures r.Some? ==>
      (r.value < |strats| && FindMap(maps, slug).Some?
       && strats[r.value].id == id && strats[r.value].mapId == FindMap(maps, slug).value.id)
  {
    var m := FindMap(maps, slug);
    if m.None? then None else FindStrat(strats, id, m.value.id)
  }

  /** A strat of another map is never reached through this map's slug. */
  lemma OtherMapNotReached(maps: seq<GameMap>, strats: seq<StratBook>, slug: string, id: int)
    requires FindMap(maps, slug).Some?
    requires forall s :: s in strats && s.id == id ==> s.mapId != FindMap(maps, slug).value.id
    ensures Reached(maps, strats, slug, id).None?
  {
  }

  function MapPath(slug: string): string {
    "/strats/" + slug
  }

  function EditPath(slug: string, id: int): string {
    "/strats/" + slug + "/" + Text.IntToString(id) + "/edit"
  }

  // ------------------------------------------------------------------ handlers

  /** `store`: append a strat at the end of its map's order. `newId` is the id the database assigns. */
  method Store(strats: Table<StratBook>, maps: seq<GameMap>, slug: string, data: StratForm, newId: int)
    returns (outcome: Outcome)
    modifies strats
    ensures FindMap(maps, slug).None? ==> outcome == NotFound && strats.rows == old(strats.rows)
    ensures FindMap(maps, slug).Some? ==>
      var m := FindMap(maps, slug).value;
      outcome == Redirect(MapPath(slug), Some(Flash(FlashSuccess, "Strat created successfully")))
      && strats.rows == old(strats.rows) + [StratBook(newId, m.id, data.title, OrNull(data.description), OrNull(data.valoplantUrl),
                                                      NextSortOrder(MaxSortOrder(old(strats.rows), OnMap(m.id), StratOrder)))]
  {
    var m := FindMap(maps, slug);
    if m.None? {
      return NotFound;
    }
    var maxOrder := MaxSortOrder(strats.rows, OnMap(m.value.id), StratOrder);
    strats.Insert(StratBook(newId, m.value.id, data.title, OrNull(data.description), OrNull(data.valoplantUrl),
                            NextSortOrder(maxOrder)));
    outcome := Redirect(MapPath(slug), Some(Flash(FlashSuccess, "Strat created successfully")));
  }

  /** `update`: only title, description and link change; the strat keeps its
      map and its place, and no other row changes. */
  method Update(strats: Table<StratBook>, maps: seq<GameMap>, slug: string, id: int, data: StratForm)
    returns (outcome: Outcome)
    modifies strats
    ensures Reached(maps, old(strats.rows), slug, id).None? ==> outcome == NotFound && strats.rows == old(strats.rows)
    ensures Reached(maps, old(strats.rows), slug, id).Some? ==>
      var i := Reached(maps, old(strats.rows), slug, id).value;
      var s := old(strats.rows)[i];
      outcome == Redirect(MapPath(slug), Some(Flash(FlashSuccess, "Strat updated successfully")))
      && strats.rows == old(strats.rows)[i := s.(title := data.title, description := OrNull(data.description),
                                                 valoplantUrl := OrNull(data.valoplantUrl))]
      && strats.rows[i].sortOrder == s.sortOrder && strats.rows[i].mapId == s.mapId && strats.rows[i].id == s.id
  {
    var i := Reached(maps, strats.rows, slug, id);
    if i.None? {
      return NotFound;
    }
    var s := strats.rows[i.value];
    strats.rows := strats.rows[i.value := s.(title := data.title, description := OrNull(data.description),
                                             valoplantUrl := OrNull(data.valoplantUrl))];
    outcome := Redirect(MapPath(slug), Some(Flash(FlashSuccess, "Strat updated successfully")));
  }

  function HasStratId(id: int): StratBook -> bool {
    (s: StratBook) => s.id == id
  }

  /** `destroy`: the strat goes, and with it (by the foreign key's cascade) its
      images. `htmx` says whether the request carries the `HX-Request` header. */
  method Destroy(strats: Table<StratBook>, images: Table<StratImage>, maps: seq<GameMap>, slug: string, id: int, htmx: bool)
    returns (outcome: Outcome)
    modifies strats, images
    ensures Reached(maps, old(strats.rows), slug, id).None? ==>
      outcome == NotFound && strats.rows == old(strats.rows) && images.rows == old(images.rows)
    ensures Reached(maps, old(strats.rows), slug, id).Some? ==>
      strats.rows == Filter(old(strats.rows), Not(HasStratId(id)))
      && images.rows == Filter(old(images.rows), Not(OfStrat(id)))
      && outcome == (if htmx then EmptyBody else Redirect(MapPath(slug), Some(Flash(FlashSuccess, "Strat deleted successfully"))))
  {
    var i := Reached(maps, strats.rows, slug, id);
    if i.None? {
      return NotFound;
    }
    var _ := strats.DeleteWhere(HasStratId(id));
    var _ := images.DeleteWhere(OfStrat(id));
    outcome := if htmx then EmptyBody else Redirect(MapPath(slug), Some(Flash(FlashSuccess, "Strat deleted successfully")));
  }

  /** `uploadImage`: refuse a missing or invalid file, otherwise append the
      image at the end of its strat's order. `filename` is the generated
      storage name and `newId` the id the database assigns. */
  method UploadImage(images: Table<StratImage>, strats: seq<StratBook>, maps: seq<GameMap>, slug: string, id: int,
                     upload: Option<Upload>, filename: string, newId: int)
    returns (outcome: Outcome)
    modifies images
    ensures outcome != Redirect(EditPath(slug, id), Some(Flash(FlashSuccess, "Image uploaded successfully"))) ==>
      images.rows == old(images.rows)
    ensures Reached(maps, strats, slug, id).None? ==> outcome == NotFound
    ensures Reached(maps, strats, slug, id).Some? && upload.None? ==>
      outcome == Redirect(EditPath(slug, id), Some(Flash(FlashError, "Please select an image to upload")))
    ensures Reached(maps, strats, slug, id).Some? && upload.Some? && !upload.value.isValid ==>
      outcome == Redirect(EditPath(slug, id), Some(Flash(FlashError,
        if Truthy(upload.value.firstError) then upload.value.firstError.value else "Invalid image")))
    ensures Reached(maps, strats, slug, id).Some? && upload.Some? && upload.value.isValid ==>
      var s := strats[Reached(maps, strats, slug, id).value];
      images.rows == old(images.rows) + [StratImage(newId, s.id, filename, upload.value.clientName,
                                                    NextSortOrder(MaxSortOrder(old(images.rows), OfStrat(s.id), ImageOrder)))]
  {
    var i := Reached(maps, strats, slug, id);
    if i.None? {
      return NotFound;
    }
    if upload.None? {
      return Redirect(EditPath(slug, id), Some(Flash(FlashError, "Please select an image to upload")));
    }
    if !upload.value.isValid {
      var message := if Truthy(upload.value.firstError) then upload.value.firstError.value else "Invalid image";
      return Redirect(EditPath(slug, id), Some(Flash(FlashError, message)));
    }
    var s := strats[i.value];
    var maxOrder := MaxSortOrder(images.rows, OfStrat(s.id), ImageOrder);
    images.Insert(StratImage(newId, s.id, filename, upload.value.clientName, NextSortOrder(maxOrder)));
    outcome := Redirect(EditPath(slug, id), Some(Flash(FlashSuccess, "Image uploaded successfully")));
  }

  function HasImageId(id: int): StratImage -> bool {
    (i: StratImage) => i.id == id
  }

  /** `deleteImage`: the image with that primary key goes, whatever strat or map it belongs to. */
  method DeleteImage(images: Table<StratImage>, id: int, htmx: bool) returns (outcome: Outcome)
    modifies images
    ensures (forall i :: i in old(images.rows) ==> i.id != id) ==> outcome == NotFound && images.rows == old(images.rows)
    ensures (exists i :: i in old(images.rows) && i.id == id) ==>
      images.rows == Filter(old(images.rows), Not(HasImageId(id)))
      && outcome == (if htmx then EmptyBody else Redirect("back", Some(Flash(FlashSuccess, "Image deleted successfully"))))
  {
    var found := FirstIndex(images.rows, HasImageId(id));
    if found.None? {
      return NotFound;
    }
    var _ := images.DeleteWhere(HasImageId(id));
    outcome := if htmx then EmptyBody else Redirect("back", Some(Flash(FlashSuccess, "Image deleted successfully")));
  }
}
