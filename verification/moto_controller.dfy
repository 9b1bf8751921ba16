/**
 * The motorcycle endpoints: a paged listing, lookup, creation, full update and deletion, with
 * hypermedia links on every response. The table-level behaviour defined here is shared by the
 * versioned controller.
 */
module MotoController {
  import opened Wrappers
  import opened Rows
  import opened Store
  import opened Responses
  import opened Hypermedia
  import opened ActionResults
  import Paging

  /** CreateMoto: the motorcycle is stored under the key the store assigns; nothing is validated. */
  function Create(t: Tables, m: Moto, newId: int): Outcome<Moto> {
    var stored := m.(idMoto := newId);
    Outcome(CreatedAt("GetMoto", map["id" := Number(newId)], stored),
            t.(motos := Insert(t.motos, MotoKey, stored)))
  }

  /**
   * UpdateMoto: an id that differs from the motorcycle's is a bad request, an absent
   * motorcycle is not found; otherwise the row is replaced.
   */
  function Update(t: Tables, id: int, m: Moto): Outcome<()> {
    if id != m.idMoto then Outcome(BadRequest(None), t)
    else if !HasKey(t.motos, MotoKey, id) then Outcome(NotFound, t)
    else Outcome(NoContent, t.(motos := Replace(t.motos, MotoKey, m)))
  }

  /**
   * DeleteMoto: an absent motorcycle is not found. A motorcycle that maintenance records still
   * refer to cannot be deleted (the foreign key is ON DELETE RESTRICT): SaveChanges throws and
   * nothing changes. Otherwise the row is removed.
   */
  function Delete(t: Tables, id: int): Outcome<()> {
    if !HasKey(t.motos, MotoKey, id) then Outcome(NotFound, t)
    else if MotoReferenced(t.manutencoes, id) then Outcome(Thrown(ForeignKeyViolation), t)
    else Outcome(NoContent, t.(motos := Remove(t.motos, MotoKey, id)))
  }

  /**
   * Creation always succeeds, changes only the motorcycle table, by exactly the new row, which
   * the new key then finds, and keeps the tables consistent.
   */
  lemma CreateContract(t: Tables, m: Moto, newId: int)
    requires Consistent(t) && !HasKey(t.motos, MotoKey, newId)
    ensures var o := Create(t, m, newId);
      && o.result.CreatedAt? && o.result.value == m.(idMoto := newId)
      && o.after.vagas == t.vagas && o.after.manutencoes == t.manutencoes
      && o.after.usuarios == t.usuarios && o.after.logins == t.logins
      && |o.after.motos| == |t.motos| + 1
      && Find(o.after.motos, MotoKey, newId) == Some(m.(idMoto := newId))
      && (forall k | k != newId :: Find(o.after.motos, MotoKey, k) == Find(t.motos, MotoKey, k))
      && Consistent(o.after)
  {
    var stored := m.(idMoto := newId);
    var rows := Insert(t.motos, MotoKey, stored);
    InsertOrdered(t.motos, MotoKey, stored);
    FindInsert(t.motos, MotoKey, stored, newId);
    forall k | k != newId
      ensures Find(rows, MotoKey, k) == Find(t.motos, MotoKey, k)
    {
      FindInsert(t.motos, MotoKey, stored, k);
    }
    forall i | 0 <= i < |t.manutencoes|
      ensures HasKey(rows, MotoKey, t.manutencoes[i].idMoto)
    {
      FindInsert(t.motos, MotoKey, stored, t.manutencoes[i].idMoto);
    }
  }

  /**
   * An update answers NoContent exactly when the ids agree and the motorcycle exists; then the
   * id finds the new row, every other id what it found before, and no other table changes.
   * In every other case nothing changes.
   */
  lemma UpdateContract(t: Tables, id: int, m: Moto)
    requires Consistent(t)
    ensures var o := Update(t, id, m);
      && (o.result == NoContent <==> id == m.idMoto && HasKey(t.motos, MotoKey, id))
      && (o.result == BadRequest(None) <==> id != m.idMoto)
      && (o.result != NoContent ==> o.after == t)
      && (o.result == NoContent ==>
            && o.after.vagas == t.vagas && o.after.manutencoes == t.manutencoes
            && o.after.usuarios == t.usuarios && o.after.logins == t.logins
            && |o.after.motos| == |t.motos|
            && Find(o.after.motos, MotoKey, id) == Some(m)
            && forall k | k != id :: Find(o.after.motos, MotoKey, k) == Find(t.motos, MotoKey, k))
      && Consistent(o.after)
  {
    var o := Update(t, id, m);
    if o.result == NoContent {
      var rows := Replace(t.motos, MotoKey, m);
      ReplaceOrdered(t.motos, MotoKey, m);
      FindReplace(t.motos, MotoKey, m, id);
      forall k | k != id
        ensures Find(rows, MotoKey, k) == Find(t.motos, MotoKey, k)
      {
        FindReplace(t.motos, MotoKey, m, k);
      }
      forall i | 0 <= i < |t.manutencoes|
        ensures HasKey(rows, MotoKey, t.manutencoes[i].idMoto)
      {
        FindReplace(t.motos, MotoKey, m, t.manutencoes[i].idMoto);
      }
    }
  }

  /**
   * A deletion answers NoContent exactly when the motorcycle exists and no maintenance record
   * refers to it; then that row alone is gone. A referenced motorcycle makes SaveChanges throw
   * and, like an absent one, changes nothing. Either way no maintenance record is left
   * pointing at a missing motorcycle.
   */
  lemma DeleteContract(t: Tables, id: int)
    requires Consistent(t)
    ensures var o := Delete(t, id);
      && (o.result == NotFound <==> !HasKey(t.motos, MotoKey, id))
      && (o.result == Thrown(ForeignKeyViolation) <==> HasKey(t.motos, MotoKey, id) && MotoReferenced(t.manutencoes, id))
      && (o.result != NoContent ==> o.after == t)
      && (o.result == NoContent ==>
            && o.after.vagas == t.vagas && o.after.manutencoes == t.manutencoes
            && o.after.usuarios == t.usuarios && o.after.logins == t.logins
            && |o.after.motos| == |t.motos| - 1
            && Find(o.after.motos, MotoKey, id) == None
            && forall k | k != id :: Find(o.after.motos, MotoKey, k) == Find(t.motos, MotoKey, k))
      && Consistent(o.after)
  {
    var o := Delete(t, id);
    if o.result == NoContent {
      var rows := Remove(t.motos, MotoKey, id);
      RemoveOrdered(t.motos, MotoKey, id);
      RemoveCount(t.motos, MotoKey, id);
      FindRemove(t.motos, MotoKey, id, id);
      forall k | k != id
        ensures Find(rows, MotoKey, k) == Find(t.motos, MotoKey, k)
      {
        FindRemove(t.motos, MotoKey, id, k);
      }
      forall i | 0 <= i < |t.manutencoes|
        ensures HasKey(rows, MotoKey, t.manutencoes[i].idMoto)
      {
        assert t.manutencoes[i].idMoto != id;
        FindRemove(t.motos, MotoKey, id, t.manutencoes[i].idMoto);
      }
    }
  }

  /** A page of the listing holds motorcycles in ascending IdMoto order. */
  lemma ListingOrdered(t: Tables, pageNumber: int, pageSize: int)
    requires Consistent(t) && pageNumber > 0 && pageSize > 0
    ensures var page := Paging.Page(t.motos, pageNumber, pageSize);
      forall a, b | 0 <= a < b < |page| :: page[a].idMoto < page[b].idMoto
  {
    Paging.PageOrdered(t.motos, MotoKey, pageNumber, pageSize);
  }

  /** MotoController (unversioned routes): the endpoints over the context, with Url.Action for its links. */
  class MotoController {
    const context: NextParkContext
    const url: UrlHelper

    constructor(context: NextParkContext, url: UrlHelper)
      ensures this.context == context && this.url == url
    {
      this.context := context;
      this.url := url;
    }

    /** The URL of a page of the listing. */
    function PageHref(pageNumber: int, pageSize: int): Option<string> {
      url("GetMotos", map["pageNumber" := Number(pageNumber), "pageSize" := Number(pageSize)])
    }

    /** The URL of an action on one motorcycle. */
    function RecordHref(action: string, id: int): Option<string> {
      url(action, map["id" := Number(id)])
    }

    /** The links of page pageNumber of the listing. */
    function PageLinks(pageNumber: int, pageSize: int, totalPages: int): seq<Link> {
      CollectionLinks(PageHref(pageNumber, pageSize), PageHref(pageNumber - 1, pageSize),
                      PageHref(pageNumber + 1, pageSize), url("CreateMoto", map[]),
                      pageNumber, totalPages)
    }

    /** The links of one motorcycle. */
    function RecordLinks(id: int): seq<Link> {
      ResourceLinks(RecordHref("GetMoto", id), RecordHref("UpdateMoto", id), RecordHref("DeleteMoto", id))
    }

    /**
     * GetMotos: BadRequest for a page number or size that is not positive; otherwise the page
     * of motorcycles in IdMoto order, the size of the whole table, and the links.
     */
    method GetMotos(pageNumber: int, pageSize: int) returns (r: ActionResult<PagedResponse<Moto>>)
      ensures pageNumber <= 0 || pageSize <= 0 ==> r == BadRequest(Some(PagingMessage))
      ensures pageNumber > 0 && pageSize > 0 ==>
        && r.Ok? && fresh(r.value)
        && r.value.items == Paging.Page(context.motos, pageNumber, pageSize)
        && r.value.totalCount == |context.motos|
        && r.value.pageNumber == pageNumber && r.value.pageSize == pageSize
        && r.value.totalPages == TotalPages(|context.motos|, pageSize)
        && r.value.links.items == PageLinks(pageNumber, pageSize, r.value.totalPages)
    {
      if pageNumber <= 0 || pageSize <= 0 {
        return BadRequest(Some(PagingMessage));
      }
      var rows := context.motos;
      var items := Paging.Page(rows, pageNumber, pageSize);
      var response := new PagedResponse(items, |rows|, pageNumber, pageSize);
      AddCollectionLinks(response, pageNumber, pageSize);
      return Ok(response);
    }

    /** GetMoto: NotFound for an absent id, otherwise the motorcycle with its links. */
    method GetMoto(id: int) returns (r: ActionResult<ResourceResponse<Moto>>)
      ensures Find(context.motos, MotoKey, id).None? ==> r == NotFound
      ensures Find(context.motos, MotoKey, id).Some? ==>
        && r.Ok? && fresh(r.value)
        && r.value.data == Find(context.motos, MotoKey, id).value
        && r.value.links.items == RecordLinks(id)
    {
      var found := Find(context.motos, MotoKey, id);
      if found.None? {
        return NotFound;
      }
      var response := CreateResourceResponse(found.value);
      return Ok(response);
    }

    /** CreateMoto: the tables become those of Create; the stored row is answered with its links. */
    method CreateMoto(m: Moto, newId: int) returns (r: ActionResult<ResourceResponse<Moto>>)
      requires !HasKey(context.motos, MotoKey, newId)
      modifies context
      ensures var o := Create(old(context.State()), m, newId);
        && context.State() == o.after
        && r.CreatedAt? && r.action == o.result.action && r.routeValues == o.result.routeValues
        && fresh(r.value) && r.value.data == o.result.value
        && r.value.links.items == RecordLinks(newId)
    {
      var stored := m.(idMoto := newId);
      context.motos := Insert(context.motos, MotoKey, stored);
      var response := CreateResourceResponse(stored);
      return CreatedAt("GetMoto", map["id" := Number(newId)], response);
    }

    /** UpdateMoto: answer and tables are those of Update. */
    method UpdateMoto(id: int, m: Moto) returns (r: ActionResult<()>)
      modifies context
      ensures Outcome(r, context.State()) == Update(old(context.State()), id, m)
    {
      if id != m.idMoto {
        return BadRequest(None);
      }
      var present := HasKey(context.motos, MotoKey, id);
      if !present {
        return NotFound;
      }
      context.motos := Replace(context.motos, MotoKey, m);
      return NoContent;
    }

    /** DeleteMoto: answer and tables are those of Delete. */
    method DeleteMoto(id: int) returns (r: ActionResult<()>)
      modifies context
      ensures Outcome(r, context.State()) == Delete(old(context.State()), id)
    {
      var found := Find(context.motos, MotoKey, id);
      if found.None? {
        return NotFound;
      }
      if MotoReferenced(context.manutencoes, id) {
        return Thrown(ForeignKeyViolation);
      }
      context.motos := Remove(context.motos, MotoKey, id);
      return NoContent;
    }

    /** AddCollectionLinks: appends self, previous, next and create as their conditions allow. */
    method AddCollectionLinks(response: PagedResponse<Moto>, pageNumber: int, pageSize: int)
      modifies response.links
      ensures response.links.items == old(response.links.items) + PageLinks(pageNumber, pageSize, response.totalPages)
    {
      var before := response.links.items;
      var self, previous, next, create := PageHref(pageNumber, pageSize), PageHref(pageNumber - 1, pageSize),
                                          PageHref(pageNumber + 1, pageSize), url("CreateMoto", map[]);
      AddLink(response.links, self, "self", "GET");
      if pageNumber > 1 {
        AddLink(response.links, previous, "previous", "GET");
      }
      ghost var upToPrevious := response.links.items;
      assert upToPrevious == before + LinkFor(self, "self", "GET") + (if pageNumber > 1 then LinkFor(previous, "previous", "GET") else []);
      if pageNumber < response.totalPages {
        AddLink(response.links, next, "next", "GET");
      }
      assert response.links.items == upToPrevious + (if pageNumber < response.totalPages then LinkFor(next, "next", "GET") else []);
      AddLink(response.links, create, "create", "POST");
      AppendCollectionLinks(before, self, previous, next, create, pageNumber, response.totalPages);
    }

    /** CreateResourceResponse: the motorcycle in a fresh envelope with its self, update and delete links. */
    method CreateResourceResponse(m: Moto) returns (resource: ResourceResponse<Moto>)
      ensures fresh(resource) && fresh(resource.links)
      ensures resource.data == m && resource.links.items == RecordLinks(m.idMoto)
    {
      resource := new ResourceResponse(m);
      AddLink(resource.links, RecordHref("GetMoto", m.idMoto), "self", "GET");
      AddLink(resource.links, RecordHref("UpdateMoto", m.idMoto), "update", "PUT");
      AddLink(resource.links, RecordHref("DeleteMoto", m.idMoto), "delete", "DELETE");
    }
  }
}
