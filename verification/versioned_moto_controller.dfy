/**
 * The motorcycle endpoints under versioned routes. The behaviour on the tables is that of the
 * unversioned controller; every URL the controller asks for carries the API version of the
 * request, "1.0" when the request names none.
 */
module VersionedMotoController {
  import opened Wrappers
  import opened Rows
  import opened Store
  import opened Responses
  import opened Hypermedia
  import opened ActionResults
  import Paging
  import MotoSpec = MotoController

  /** The version used when the request names none. */
  const DefaultApiVersion: string := "1.0"

  /** GetCurrentApiVersion: the requested version, or the default. */
  function CurrentApiVersion(requested: Option<string>): (v: string)
    ensures requested.Some? ==> v == requested.value
    ensures requested.None? ==> v == DefaultApiVersion
  {
    requested.GetOr(DefaultApiVersion)
  }

  /** The route values of a URL: the version, then the action's own values. */
  function WithVersion(version: string, values: RouteValues): (r: RouteValues)
    ensures "version" in r && r["version"] == Version(version)
    ensures forall name | name in values && name != "version" :: name in r && r[name] == values[name]
    ensures forall name | name in r :: name == "version" || name in values
  {
    values["version" := Version(version)]
  }

  /** MotoController (versioned routes): the endpoints over the context, with Url.Action for its links. */
  class MotoController {
    const context: NextParkContext
    const url: UrlHelper
    /** The API version the request names, if any. */
    const requestedApiVersion: Option<string>

    constructor(context: NextParkContext, url: UrlHelper, requestedApiVersion: Option<string>)
      ensures this.context == context && this.url == url && this.requestedApiVersion == requestedApiVersion
    {
      this.context := context;
      this.url := url;
      this.requestedApiVersion := requestedApiVersion;
    }

    /** The URL of an action, with the current version among its route values. */
    function VersionedHref(action: string, values: RouteValues): Option<string> {
      url(action, WithVersion(CurrentApiVersion(requestedApiVersion), values))
    }

    /** The URL of a page of the listing. */
    function PageHref(pageNumber: int, pageSize: int): Option<string> {
      VersionedHref("GetMotos", map["pageNumber" := Number(pageNumber), "pageSize" := Number(pageSize)])
    }

    /** The URL of an action on one motorcycle. */
    function RecordHref(action: string, id: int): Option<string> {
      VersionedHref(action, map["id" := Number(id)])
    }

    /** The links of page pageNumber of the listing. */
    function PageLinks(pageNumber: int, pageSize: int, totalPages: int): seq<Link> {
      CollectionLinks(PageHref(pageNumber, pageSize), PageHref(pageNumber - 1, pageSize),
                      PageHref(pageNumber + 1, pageSize), VersionedHref("CreateMoto", map[]),
                      pageNumber, totalPages)
    }

    /** The links of one motorcycle. */
    function RecordLinks(id: int): seq<Link> {
      ResourceLinks(RecordHref("GetMoto", id), RecordHref("UpdateMoto", id), RecordHref("DeleteMoto", id))
    }

    /**
     * GetMotos: BadRequest for a page number or size that is not positive; otherwise the page
     * of motorcycles in IdMoto order, the size of the whole table, and the versioned links.
     */
    method GetMotos(pageNumber: int, pageSize: int) returns (r: ActionResult<PagedResponse<Moto>>)
      ensures pageNumber <= 0 || pageSize <= 0 ==> r == BadRequest(Some(PagingMessage))
      ensures pageNumber > 0 && pageSize > 0 ==>
        && r.Ok? && fresh(r.value)
        && r.value.items == Paging.Page(context.motos, pageNumber, pageSize)
        && r.value.totalCount == |context.motos|
        && r.value.pageNumber == pageNumber && r.value.pageSize == pageSize
        && r.value.totalPages == TotalPages(|context.motos|, pageSize)
        && r.value.links.items == PageLinks(pageNumber, pageSize, r.value.totalPages)
    {
      if pageNumber <= 0 || pageSize <= 0 {
        return BadRequest(Some(PagingMessage));
      }
      var rows := context.motos;
      var items := Paging.Page(rows, pageNumber, pageSize);
      var response := new PagedResponse(items, |rows|, pageNumber, pageSize);
      AddCollectionLinks(response, pageNumber, pageSize);
      return Ok(response);
    }

    /** GetMoto: NotFound for an absent id, otherwise the motorcycle with its versioned links. */
    method GetMoto(id: int) returns (r: ActionResult<ResourceResponse<Moto>>)
      ensures Find(context.motos, MotoKey, id).None? ==> r == NotFound
      ensures Find(context.motos, MotoKey, id).Some? ==>
        && r.Ok? && fresh(r.value)
        && r.value.data == Find(context.motos, MotoKey, id).value
        && r.value.links.items == RecordLinks(id)
    {
      var found := Find(context.motos, MotoKey, id);
      if found.None? {
        return NotFound;
      }
      var response := CreateResourceResponse(found.value);
      return Ok(response);
    }

    /**
     * CreateMoto: the tables become those of the shared Create; the location names GetMoto
     * with the current version and the new id.
     */
    method CreateMoto(m: Moto, newId: int) returns (r: ActionResult<ResourceResponse<Moto>>)
      requires !HasKey(context.motos, MotoKey, newId)
      modifies context
      ensures var o := MotoSpec.Create(old(context.State()), m, newId);
        && context.State() == o.after
        && r.CreatedAt? && r.action == o.result.action
        && r.routeValues == WithVersion(CurrentApiVersion(requestedApiVersion), o.result.routeValues)
        && fresh(r.value) && r.value.data == o.result.value
        && r.value.links.items == RecordLinks(newId)
    {
      var stored := m.(idMoto := newId);
      context.motos := Insert(context.motos, MotoKey, stored);
      var response := CreateResourceResponse(stored);
      var version := CurrentApiVersion(requestedApiVersion);
      return CreatedAt("GetMoto", map["id" := Number(newId), "version" := Version(version)], response);
    }

    /** UpdateMoto: answer and tables are those of the shared Update. */
    method UpdateMoto(id: int, m: Moto) returns (r: ActionResult<()>)
      modifies context
      ensures Outcome(r, context.State()) == MotoSpec.Update(old(context.State()), id, m)
    {
      if id != m.idMoto {
        return BadRequest(None);
      }
      var present := CountKey(context.motos, MotoKey, id) > 0;
      if !present {
        return NotFound;
      }
      context.motos := Replace(context.motos, MotoKey, m);
      return NoContent;
    }

    /** DeleteMoto: answer and tables are those of the shared Delete. */
    method DeleteMoto(id: int) returns (r: ActionResult<()>)
      modifies context
      ensures Outcome(r, context.State()) == MotoSpec.Delete(old(context.State()), id)
    {
      var found := Find(context.motos, MotoKey, id);
      if found.None? {
        return NotFound;
      }
      if MotoReferenced(context.manutencoes, id) {
        return Thrown(ForeignKeyViolation);
      }
      context.motos := Remove(context.motos, MotoKey, id);
      return NoContent;
    }

    /** AddCollectionLinks: appends self, previous, next and create as their conditions allow. */
    method AddCollectionLinks(response: PagedResponse<Moto>, pageNumber: int, pageSize: int)
      modifies response.links
      ensures response.links.items == old(response.links.items) + PageLinks(pageNumber, pageSize, response.totalPages)
    {
      var before := response.links.items;
      var self, previous, next, create := PageHref(pageNumber, pageSize), PageHref(pageNumber - 1, pageSize),
                                          PageHref(pageNumber + 1, pageSize), VersionedHref("CreateMoto", map[]);
      AddLink(response.links, self, "self", "GET");
      if pageNumber > 1 {
        AddLink(response.links, previous, "previous", "GET");
      }
      ghost var upToPrevious := response.links.items;
      assert upToPrevious == before + LinkFor(self, "self", "GET") + (if pageNumber > 1 then LinkFor(previous, "previous", "GET") else []);
      if pageNumber < response.totalPages {
        AddLink(response.links, next, "next", "GET");
      }
      assert response.links.items == upToPrevious + (if pageNumber < response.totalPages then LinkFor(next, "next", "GET") else []);
      AddLink(response.links, create, "create", "POST");
      AppendCollectionLinks(before, self, previous, next, create, pageNumber, response.totalPages);
    }

    /** CreateResourceResponse: the motorcycle in a fresh envelope with its versioned self, update and delete links. */
    method CreateResourceResponse(m: Moto) returns (resource: ResourceResponse<Moto>)
      ensures fresh(resource) && fresh(resource.links)
      ensures resource.data == m && resource.links.items == RecordLinks(m.idMoto)
    {
      resource := new ResourceResponse(m);
      AddLink(resource.links, RecordHref("GetMoto", m.idMoto), "self", "GET");
      AddLink(resource.links, RecordHref("UpdateMoto", m.idMoto), "update", "PUT");
      AddLink(resource.links, RecordHref("DeleteMoto", m.idMoto), "delete", "DELETE");
    }
  }
}
