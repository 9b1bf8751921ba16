/**
 * The hypermedia links the controllers attach to their responses. URL generation is left to
 * the routing layer (Url.Action), which may produce no URL or a blank one; a link is added
 * only for a usable URL.
 */
module Hypermedia {
  import opened Wrappers
  import Text
  import opened Responses

  /** A value of an anonymous route-values object. */
  datatype RouteValue = Number(n: int) | Version(v: string)

  type RouteValues = map<string, RouteValue>

  /** Url.Action(action, values): the URL of an action, or null when no route matches. */
  type UrlHelper = (string, RouteValues) -> Option<string>

  /** The href is neither null, empty nor white space. */
  predicate IsUsableHref(href: Option<string>) {
    href.Some? && !Text.IsBlank(href.value)
  }

  /** The links AddLink appends: one for a usable href, none otherwise. */
  function LinkFor(href: Option<string>, rel: string, verb: string): (links: seq<Link>)
    ensures |links| <= 1
    ensures links != [] <==> IsUsableHref(href)
    ensures links != [] ==> links[0] == Link(href.value, rel, verb)
  {
    if IsUsableHref(href) then [Link(href.value, rel, verb)] else []
  }

  /** AddLink: appends a link to the list when its href is usable. */
  method AddLink(links: LinkList, href: Option<string>, rel: string, verb: string)
    modifies links
    ensures links.items == old(links.items) + LinkFor(href, rel, verb)
  {
    if href.Some? && !Text.IsBlank(href.value) {
      links.Add(Link(href.value, rel, verb));
    }
  }

  /**
   * The links of a page of a collection: self, previous (past the first page), next (before
   * the last page) and create, each when its href is usable.
   */
  function CollectionLinks(self: Option<string>, previous: Option<string>, next: Option<string>,
                           create: Option<string>, pageNumber: int, totalPages: int): seq<Link>
  {
    LinkFor(self, "self", "GET")
    + (if pageNumber > 1 then LinkFor(previous, "previous", "GET") else [])
    + (if pageNumber < totalPages then LinkFor(next, "next", "GET") else [])
    + LinkFor(create, "create", "POST")
  }

  /** The collection links after existing links, as they are appended one by one. */
  lemma AppendCollectionLinks(before: seq<Link>, self: Option<string>, previous: Option<string>,
                              next: Option<string>, create: Option<string>, pageNumber: int, totalPages: int)
    ensures before + CollectionLinks(self, previous, next, create, pageNumber, totalPages) ==
      before + LinkFor(self, "self", "GET")
      + (if pageNumber > 1 then LinkFor(previous, "previous", "GET") else [])
      + (if pageNumber < totalPages then LinkFor(next, "next", "GET") else [])
      + LinkFor(create, "create", "POST")
  {
  }

  /** The links of a single resource: self, update and delete, each when its href is usable. */
  function ResourceLinks(self: Option<string>, update: Option<string>, delete: Option<string>): seq<Link> {
    LinkFor(self, "self", "GET") + LinkFor(update, "update", "PUT") + LinkFor(delete, "delete", "DELETE")
  }

  /** Some link has relation rel. */
  predicate HasRel(links: seq<Link>, rel: string) {
    exists i | 0 <= i < |links| :: links[i].rel == rel
  }

  /** The relations of the links, in order. */
  function Rels(links: seq<Link>): (rels: seq<string>)
    ensures |rels| == |links|
    ensures forall i | 0 <= i < |links| :: rels[i] == links[i].rel
  {
    if links == [] then [] else [links[0].rel] + Rels(links[1..])
  }

  lemma RelsAppend(a: seq<Link>, b: seq<Link>)
    ensures Rels(a + b) == Rels(a) + Rels(b)
  {
    assert forall i | 0 <= i < |a + b| :: Rels(a + b)[i] == (Rels(a) + Rels(b))[i];
  }

  lemma HasRelAppend(a: seq<Link>, b: seq<Link>, rel: string)
    ensures HasRel(a + b, rel) <==> HasRel(a, rel) || HasRel(b, rel)
  {
    if HasRel(a + b, rel) {
      var i :| 0 <= i < |a + b| && (a + b)[i].rel == rel;
      if i >= |a| {
        assert b[i - |a|].rel == rel;
      }
    }
    if HasRel(a, rel) {
      var i :| 0 <= i < |a| && a[i].rel == rel;
      assert (a + b)[i].rel == rel;
    }
    if HasRel(b, rel) {
      var i :| 0 <= i < |b| && b[i].rel == rel;
      assert (a + b)[|a| + i].rel == rel;
    }
  }

  lemma HasRelOfLink(href: Option<string>, rel: string, verb: string, wanted: string)
    ensures HasRel(LinkFor(href, rel, verb), wanted) <==> IsUsableHref(href) && rel == wanted
  {
    if IsUsableHref(href) && rel == wanted {
      assert LinkFor(href, rel, verb)[0].rel == wanted;
    }
  }

  /**
   * Which relations a collection page carries: previous exactly past the first page, next
   * exactly before the last, each only with a usable href; self and create whenever theirs is.
   */
  lemma CollectionLinkRels(self: Option<string>, previous: Option<string>, next: Option<string>,
                           create: Option<string>, pageNumber: int, totalPages: int)
    ensures var links := CollectionLinks(self, previous, next, create, pageNumber, totalPages);
      && (HasRel(links, "self") <==> IsUsableHref(self))
      && (HasRel(links, "previous") <==> pageNumber > 1 && IsUsableHref(previous))
      && (HasRel(links, "next") <==> pageNumber < totalPages && IsUsableHref(next))
      && (HasRel(links, "create") <==> IsUsableHref(create))
  {
    RelNamesDistinct();
    CollectionRel(self, previous, next, create, pageNumber, totalPages, "self");
    CollectionRel(self, previous, next, create, pageNumber, totalPages, "previous");
    CollectionRel(self, previous, next, create, pageNumber, totalPages, "next");
    CollectionRel(self, previous, next, create, pageNumber, totalPages, "create");
  }

  /** The four relation names of a collection differ pairwise. */
  lemma RelNamesDistinct()
    ensures "self" != "previous" && "self" != "next" && "self" != "create"
    ensures "previous" != "next" && "previous" != "create" && "next" != "create"
  {
    assert "self"[0] == 's' && "previous"[0] == 'p' && "next"[0] == 'n' && "create"[0] == 'c';
  }

  /** A collection link with relation rel is there exactly when its condition and href allow it. */
  lemma CollectionRel(self: Option<string>, previous: Option<string>, next: Option<string>,
                      create: Option<string>, pageNumber: int, totalPages: int, rel: string)
    ensures HasRel(CollectionLinks(self, previous, next, create, pageNumber, totalPages), rel) <==>
      || (IsUsableHref(self) && rel == "self")
      || (pageNumber > 1 && IsUsableHref(previous) && rel == "previous")
      || (pageNumber < totalPages && IsUsableHref(next) && rel == "next")
      || (IsUsableHref(create) && rel == "create")
  {
    var s := LinkFor(self, "self", "GET");
    var p := if pageNumber > 1 then LinkFor(previous, "previous", "GET") else [];
    var n := if pageNumber < totalPages then LinkFor(next, "next", "GET") else [];
    var c := LinkFor(create, "create", "POST");
    HasRelAppend(s, p, rel);
    HasRelAppend(s + p, n, rel);
    HasRelAppend(s + p + n, c, rel);
    RelsOfLinks(self, previous, next, create, rel);
    if pageNumber <= 1 { assert !HasRel(p, rel); }
    if pageNumber >= totalPages { assert !HasRel(n, rel); }
  }

  lemma RelsOfLinks(self: Option<string>, previous: Option<string>, next: Option<string>,
                    create: Option<string>, rel: string)
    ensures HasRel(LinkFor(self, "self", "GET"), rel) <==> IsUsableHref(self) && rel == "self"
    ensures HasRel(LinkFor(previous, "previous", "GET"), rel) <==> IsUsableHref(previous) && rel == "previous"
    ensures HasRel(LinkFor(next, "next", "GET"), rel) <==> IsUsableHref(next) && rel == "next"
    ensures HasRel(LinkFor(create, "create", "POST"), rel) <==> IsUsableHref(create) && rel == "create"
  {
    HasRelOfLink(self, "self", "GET", rel);
    HasRelOfLink(previous, "previous", "GET", rel);
    HasRelOfLink(next, "next", "GET", rel);
    HasRelOfLink(create, "create", "POST", rel);
  }

  /** With usable hrefs everywhere, the relations come in the order self, previous, next, create. */
  lemma CollectionLinkOrder(self: Option<string>, previous: Option<string>, next: Option<string>,
                            create: Option<string>, pageNumber: int, totalPages: int)
    requires IsUsableHref(self) && IsUsableHref(previous) && IsUsableHref(next) && IsUsableHref(create)
    ensures Rels(CollectionLinks(self, previous, next, create, pageNumber, totalPages))
      == ["self"]
         + (if pageNumber > 1 then ["previous"] else [])
         + (if pageNumber < totalPages then ["next"] else [])
         + ["create"]
  {
    var s := LinkFor(self, "self", "GET");
    var p := if pageNumber > 1 then LinkFor(previous, "previous", "GET") else [];
    var n := if pageNumber < totalPages then LinkFor(next, "next", "GET") else [];
    var c := LinkFor(create, "create", "POST");
    RelsAppend(s, p);
    RelsAppend(s + p, n);
    RelsAppend(s + p + n, c);
  }

  /** With usable hrefs, a resource carries exactly self/GET, update/PUT and delete/DELETE, in that order. */
  lemma ResourceLinksComplete(self: Option<string>, update: Option<string>, delete: Option<string>)
    requires IsUsableHref(self) && IsUsableHref(update) && IsUsableHref(delete)
    ensures ResourceLinks(self, update, delete)
      == [Link(self.value, "self", "GET"), Link(update.value, "update", "PUT"), Link(delete.value, "delete", "DELETE")]
  {
  }

  /** No link of either kind has a blank href. */
  lemma LinksAreUsable(self: Option<string>, previous: Option<string>, next: Option<string>,
                       create: Option<string>, pageNumber: int, totalPages: int,
                       recordSelf: Option<string>, update: Option<string>, delete: Option<string>)
    ensures forall l | l in CollectionLinks(self, previous, next, create, pageNumber, totalPages) :: !Text.IsBlank(l.href)
    ensures forall l | l in ResourceLinks(recordSelf, update, delete) :: !Text.IsBlank(l.href)
  {
  }
}
