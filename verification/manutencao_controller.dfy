/**
 * The maintenance-record endpoints: a paged listing, lookup, creation for a known motorcycle,
 * full update and deletion, with hypermedia links on every response.
 */
module ManutencaoController {
  import opened Wrappers
  import opened Rows
  import opened Store
  import opened Responses
  import opened Hypermedia
  import opened ActionResults
  import Paging

  /** CreateManutencao: rejected for an unknown motorcycle, otherwise stored under the key the store assigns. */
  function Create(t: Tables, m: Manutencao, newId: int): Outcome<Manutencao> {
    if !HasKey(t.motos, MotoKey, m.idMoto) then Outcome(BadRequest(Some(UnknownMotoMessage)), t)
    else
      var stored := m.(idManutencao := newId);
      Outcome(CreatedAt("GetManutencao", map["id" := Number(newId)], stored),
              t.(manutencoes := Insert(t.manutencoes, ManutencaoKey, stored)))
  }

  /**
   * UpdateManutencao: an id that differs from the record's is a bad request, an absent record
   * is not found, an unknown motorcycle is a bad request, in that order; otherwise the record
   * is replaced.
   */
  function Update(t: Tables, id: int, m: Manutencao): Outcome<()> {
    if id != m.idManutencao then Outcome(BadRequest(None), t)
    else if !HasKey(t.manutencoes, ManutencaoKey, id) then Outcome(NotFound, t)
    else if !HasKey(t.motos, MotoKey, m.idMoto) then Outcome(BadRequest(Some(UnknownMotoMessage)), t)
    else Outcome(NoContent, t.(manutencoes := Replace(t.manutencoes, ManutencaoKey, m)))
  }

  /** DeleteManutencao: an absent record is not found; otherwise it is removed. */
  function Delete(t: Tables, id: int): Outcome<()> {
    if !HasKey(t.manutencoes, ManutencaoKey, id) then Outcome(NotFound, t)
    else Outcome(NoContent, t.(manutencoes := Remove(t.manutencoes, ManutencaoKey, id)))
  }

  /**
   * Creation is rejected exactly for an unknown motorcycle, and then changes nothing;
   * otherwise only the maintenance table changes, by exactly the new record, which its key
   * now finds.
   */
  lemma CreateContract(t: Tables, m: Manutencao, newId: int)
    requires Consistent(t) && !HasKey(t.manutencoes, ManutencaoKey, newId)
    ensures var o := Create(t, m, newId);
      && (o.result.BadRequest? <==> !HasKey(t.motos, MotoKey, m.idMoto))
      && (o.result.BadRequest? ==> o.after == t)
      && (!o.result.BadRequest? ==>
            && o.result.CreatedAt? && o.result.value == m.(idManutencao := newId)
            && o.after.motos == t.motos && o.after.vagas == t.vagas
            && o.after.usuarios == t.usuarios && o.after.logins == t.logins
            && |o.after.manutencoes| == |t.manutencoes| + 1
            && Find(o.after.manutencoes, ManutencaoKey, newId) == Some(m.(idManutencao := newId))
            && forall k | k != newId :: Find(o.after.manutencoes, ManutencaoKey, k) == Find(t.manutencoes, ManutencaoKey, k))
      && Consistent(o.after)
  {
    var o := Create(t, m, newId);
    if HasKey(t.motos, MotoKey, m.idMoto) {
      var stored := m.(idManutencao := newId);
      var rows := Insert(t.manutencoes, ManutencaoKey, stored);
      InsertOrdered(t.manutencoes, ManutencaoKey, stored);
      FindInsert(t.manutencoes, ManutencaoKey, stored, newId);
      forall k | k != newId
        ensures Find(rows, ManutencaoKey, k) == Find(t.manutencoes, ManutencaoKey, k)
      {
        FindInsert(t.manutencoes, ManutencaoKey, stored, k);
      }
      forall i | 0 <= i < |rows|
        ensures HasKey(t.motos, MotoKey, rows[i].idMoto)
      {
        assert rows[i] in multiset(rows);
        if rows[i] != stored {
          assert rows[i] in multiset(t.manutencoes);
          var j :| 0 <= j < |t.manutencoes| && t.manutencoes[j] == rows[i];
        }
      }
    }
  }

  /**
   * An update answers NoContent exactly when the ids agree, the record exists and its
   * motorcycle is known; then the id finds the new record, every other id what it found
   * before, and no other table changes. In every other case nothing changes.
   */
  lemma UpdateContract(t: Tables, id: int, m: Manutencao)
    requires Consistent(t)
    ensures var o := Update(t, id, m);
      && (o.result == NoContent <==>
            id == m.idManutencao && HasKey(t.manutencoes, ManutencaoKey, id) && HasKey(t.motos, MotoKey, m.idMoto))
      && (o.result != NoContent ==> o.after == t)
      && (o.result == NoContent ==>
            && o.after.motos == t.motos && o.after.vagas == t.vagas
            && o.after.usuarios == t.usuarios && o.after.logins == t.logins
            && |o.after.manutencoes| == |t.manutencoes|
            && Find(o.after.manutencoes, ManutencaoKey, id) == Some(m)
            && forall k | k != id :: Find(o.after.manutencoes, ManutencaoKey, k) == Find(t.manutencoes, ManutencaoKey, k))
      && Consistent(o.after)
  {
    var o := Update(t, id, m);
    if o.result == NoContent {
      var rows := Replace(t.manutencoes, ManutencaoKey, m);
      ReplaceKeepsConsistent(t, m);
      FindReplace(t.manutencoes, ManutencaoKey, m, id);
      forall k | k != id
        ensures Find(rows, ManutencaoKey, k) == Find(t.manutencoes, ManutencaoKey, k)
      {
        FindReplace(t.manutencoes, ManutencaoKey, m, k);
      }
    }
  }

  /** Replacing a record by one that refers to a known motorcycle keeps the tables consistent. */
  lemma ReplaceKeepsConsistent(t: Tables, m: Manutencao)
    requires Consistent(t) && HasKey(t.motos, MotoKey, m.idMoto)
    ensures Consistent(t.(manutencoes := Replace(t.manutencoes, ManutencaoKey, m)))
  {
    var rows := Replace(t.manutencoes, ManutencaoKey, m);
    ReplaceOrdered(t.manutencoes, ManutencaoKey, m);
    forall i | 0 <= i < |rows|
      ensures HasKey(t.motos, MotoKey, rows[i].idMoto)
    {
      if rows[i] != m {
        assert rows[i] == t.manutencoes[i];
      }
    }
  }

  /**
   * A deletion answers NoContent exactly when the record exists; then it alone is gone and
   * nothing else changes. An absent record changes nothing.
   */
  lemma DeleteContract(t: Tables, id: int)
    requires Consistent(t)
    ensures var o := Delete(t, id);
      && (o.result == NotFound <==> !HasKey(t.manutencoes, ManutencaoKey, id))
      && (o.result == NotFound ==> o.after == t)
      && (o.result != NotFound ==>
            && o.result == NoContent
            && o.after.motos == t.motos && o.after.vagas == t.vagas
            && o.after.usuarios == t.usuarios && o.after.logins == t.logins
            && |o.after.manutencoes| == |t.manutencoes| - 1
            && Find(o.after.manutencoes, ManutencaoKey, id) == None
            && forall k | k != id :: Find(o.after.manutencoes, ManutencaoKey, k) == Find(t.manutencoes, ManutencaoKey, k))
      && Consistent(o.after)
  {
    var rows := Remove(t.manutencoes, ManutencaoKey, id);
    RemoveKeepsConsistent(t, id);
    RemoveCount(t.manutencoes, ManutencaoKey, id);
    FindRemove(t.manutencoes, ManutencaoKey, id, id);
    forall k | k != id
      ensures Find(rows, ManutencaoKey, k) == Find(t.manutencoes, ManutencaoKey, k)
    {
      FindRemove(t.manutencoes, ManutencaoKey, id, k);
    }
  }

  /** Removing a maintenance record keeps the tables consistent. */
  lemma RemoveKeepsConsistent(t: Tables, id: int)
    requires Consistent(t)
    ensures Consistent(t.(manutencoes := Remove(t.manutencoes, ManutencaoKey, id)))
  {
    var rows := Remove(t.manutencoes, ManutencaoKey, id);
    RemoveOrdered(t.manutencoes, ManutencaoKey, id);
    forall i | 0 <= i < |rows|
      ensures HasKey(t.motos, MotoKey, rows[i].idMoto)
    {
      var j :| 0 <= j < |t.manutencoes| && t.manutencoes[j] == rows[i];
    }
  }

  /** A page of the listing holds records in ascending IdManutencao order. */
  lemma ListingOrdered(t: Tables, pageNumber: int, pageSize: int)
    requires Consistent(t) && pageNumber > 0 && pageSize > 0
    ensures var page := Paging.Page(t.manutencoes, pageNumber, pageSize);
      forall a, b | 0 <= a < b < |page| :: page[a].idManutencao < page[b].idManutencao
  {
    Paging.PageOrdered(t.manutencoes, ManutencaoKey, pageNumber, pageSize);
  }

  /** ManutencaoController: the endpoints over the context, with Url.Action for its links. */
  class ManutencaoController {
    const context: NextParkContext
    const url: UrlHelper

    constructor(context: NextParkContext, url: UrlHelper)
      ensures this.context == context && this.url == url
    {
      this.context := context;
      this.url := url;
    }

    /** The URL of a page of the listing. */
    function PageHref(pageNumber: int, pageSize: int): Option<string> {
      url("GetManutencoes", map["pageNumber" := Number(pageNumber), "pageSize" := Number(pageSize)])
    }

    /** The URL of an action on one record. */
    function RecordHref(action: string, id: int): Option<string> {
      url(action, map["id" := Number(id)])
    }

    /** The links of page pageNumber of the listing. */
    function PageLinks(pageNumber: int, pageSize: int, totalPages: int): seq<Link> {
      CollectionLinks(PageHref(pageNumber, pageSize), PageHref(pageNumber - 1, pageSize),
                      PageHref(pageNumber + 1, pageSize), url("CreateManutencao", map[]),
                      pageNumber, totalPages)
    }

    /** The links of one record. */
    function RecordLinks(id: int): seq<Link> {
      ResourceLinks(RecordHref("GetManutencao", id), RecordHref("UpdateManutencao", id),
                    RecordHref("DeleteManutencao", id))
    }

    /**
     * GetManutencoes: BadRequest for a page number or size that is not positive; otherwise
     * the page of records in IdManutencao order, the size of the whole table, and the links.
     */
    method GetManutencoes(pageNumber: int, pageSize: int) returns (r: ActionResult<PagedResponse<Manutencao>>)
      ensures pageNumber <= 0 || pageSize <= 0 ==> r == BadRequest(Some(PagingMessage))
      ensures pageNumber > 0 && pageSize > 0 ==>
        && r.Ok? && fresh(r.value)
        && r.value.items == Paging.Page(context.manutencoes, pageNumber, pageSize)
        && r.value.totalCount == |context.manutencoes|
        && r.value.pageNumber == pageNumber && r.value.pageSize == pageSize
        && r.value.totalPages == TotalPages(|context.manutencoes|, pageSize)
        && r.value.links.items == PageLinks(pageNumber, pageSize, r.value.totalPages)
    {
      if pageNumber <= 0 || pageSize <= 0 {
        return BadRequest(Some(PagingMessage));
      }
      var rows := context.manutencoes;
      var items := Paging.Page(rows, pageNumber, pageSize);
      var response := new PagedResponse(items, |rows|, pageNumber, pageSize);
      AddCollectionLinks(response, pageNumber, pageSize);
      return Ok(response);
    }

    /** GetManutencao: NotFound for an absent id, otherwise the record with its links. */
    method GetManutencao(id: int) returns (r: ActionResult<ResourceResponse<Manutencao>>)
      ensures Find(context.manutencoes, ManutencaoKey, id).None? ==> r == NotFound
      ensures Find(context.manutencoes, ManutencaoKey, id).Some? ==>
        && r.Ok? && fresh(r.value)
        && r.value.data == Find(context.manutencoes, ManutencaoKey, id).value
        && r.value.links.items == RecordLinks(id)
    {
      var found := Find(context.manutencoes, ManutencaoKey, id);
      if found.None? {
        return NotFound;
      }
      var response := CreateResourceResponse(found.value);
      return Ok(response);
    }

    /**
     * CreateManutencao: the tables become those of Create; the answer is its answer, with the
     * stored record wrapped in a resource carrying its links.
     */
    method CreateManutencao(m: Manutencao, newId: int) returns (r: ActionResult<ResourceResponse<Manutencao>>)
      requires !HasKey(context.manutencoes, ManutencaoKey, newId)
      modifies context
      ensures var o := Create(old(context.State()), m, newId);
        && context.State() == o.after
        && (o.result.BadRequest? ==> r == BadRequest(o.result.reason))
        && (o.result.CreatedAt? ==>
              && r.CreatedAt? && r.action == o.result.action && r.routeValues == o.result.routeValues
              && fresh(r.value) && r.value.data == o.result.value
              && r.value.links.items == RecordLinks(newId))
    {
      var moto := Find(context.motos, MotoKey, m.idMoto);
      if moto.None? {
        return BadRequest(Some(UnknownMotoMessage));
      }
      var stored := m.(idManutencao := newId);
      context.manutencoes := Insert(context.manutencoes, ManutencaoKey, stored);
      var response := CreateResourceResponse(stored);
      return CreatedAt("GetManutencao", map["id" := Number(newId)], response);
    }

    /** UpdateManutencao: answer and tables are those of Update. */
    method UpdateManutencao(id: int, m: Manutencao) returns (r: ActionResult<()>)
      modifies context
      ensures Outcome(r, context.State()) == Update(old(context.State()), id, m)
    {
      if id != m.idManutencao {
        return BadRequest(None);
      }
      var present := HasKey(context.manutencoes, ManutencaoKey, id);
      if !present {
        return NotFound;
      }
      var moto := Find(context.motos, MotoKey, m.idMoto);
      if moto.None? {
        return BadRequest(Some(UnknownMotoMessage));
      }
      context.manutencoes := Replace(context.manutencoes, ManutencaoKey, m);
      return NoContent;
    }

    /** DeleteManutencao: answer and tables are those of Delete. */
    method DeleteManutencao(id: int) returns (r: ActionResult<()>)
      modifies context
      ensures Outcome(r, context.State()) == Delete(old(context.State()), id)
    {
      var found := Find(context.manutencoes, ManutencaoKey, id);
      if found.None? {
        return NotFound;
      }
      context.manutencoes := Remove(context.manutencoes, ManutencaoKey, id);
      return NoContent;
    }

    /** AddCollectionLinks: appends self, previous, next and create as their conditions allow. */
    method AddCollectionLinks(response: PagedResponse<Manutencao>, pageNumber: int, pageSize: int)
      modifies response.links
      ensures response.links.items == old(response.links.items) + PageLinks(pageNumber, pageSize, response.totalPages)
    {
      var before := response.links.items;
      var self, previous, next, create := PageHref(pageNumber, pageSize), PageHref(pageNumber - 1, pageSize),
                                          PageHref(pageNumber + 1, pageSize), url("CreateManutencao", map[]);
      AddLink(response.links, self, "self", "GET");
      if pageNumber > 1 {
        AddLink(response.links, previous, "previous", "GET");
      }
      ghost var upToPrevious := response.links.items;
      assert upToPrevious == before + LinkFor(self, "self", "GET") + (if pageNumber > 1 then LinkFor(previous, "previous", "GET") else []);
      if pageNumber < response.totalPages {
        AddLink(response.links, next, "next", "GET");
      }
      assert response.links.items == upToPrevious + (if pageNumber < response.totalPages then LinkFor(next, "next", "GET") else []);
      AddLink(response.links, create, "create", "POST");
      AppendCollectionLinks(before, self, previous, next, create, pageNumber, response.totalPages);
    }

    /** CreateResourceResponse: the record in a fresh envelope with its self, update and delete links. */
    method CreateResourceResponse(m: Manutencao) returns (resource: ResourceResponse<Manutencao>)
      ensures fresh(resource) && fresh(resource.links)
      ensures resource.data == m && resource.links.items == RecordLinks(m.idManutencao)
    {
      resource := new ResourceResponse(m);
      AddLink(resource.links, RecordHref("GetManutencao", m.idManutencao), "self", "GET");
      AddLink(resource.links, RecordHref("UpdateManutencao", m.idManutencao), "update", "PUT");
      AddLink(resource.links, RecordHref("DeleteManutencao", m.idManutencao), "delete", "DELETE");
    }
  }
}
