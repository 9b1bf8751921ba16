/**
 * The parking-space endpoints: listing, lookup, creation, update and deletion, answered with
 * plain rows (no paging and no links).
 */
module VagaController {
  import opened Wrappers
  import opened Rows
  import opened Store
  import opened ActionResults
  import opened Hypermedia

  /** CreateVaga: the space is stored under the key the store assigns. */
  function Create(t: Tables, v: Vaga, newId: int): Outcome<Vaga> {
    var stored := v.(idVaga := newId);
    Outcome(CreatedAt("GetVaga", map["id" := Number(newId)], stored),
            t.(vagas := Insert(t.vagas, VagaKey, stored)))
  }

  /**
   * UpdateVaga: an id that differs from the space's is a bad request. There is no existence
   * check: marking an absent row modified makes SaveChanges update no row, and the resulting
   * concurrency exception escapes. Otherwise the row is replaced.
   */
  function Update(t: Tables, id: int, v: Vaga): Outcome<()> {
    if id != v.idVaga then Outcome(BadRequest(None), t)
    else if !HasKey(t.vagas, VagaKey, id) then Outcome(Thrown(ConcurrencyFailure), t)
    else Outcome(NoContent, t.(vagas := Replace(t.vagas, VagaKey, v)))
  }

  /** DeleteVaga: an absent space is not found; otherwise it is removed. */
  function Delete(t: Tables, id: int): Outcome<()> {
    if !HasKey(t.vagas, VagaKey, id) then Outcome(NotFound, t)
    else Outcome(NoContent, t.(vagas := Remove(t.vagas, VagaKey, id)))
  }

  /** Creation always succeeds and changes only the space table, by exactly the new row. */
  lemma CreateContract(t: Tables, v: Vaga, newId: int)
    requires Consistent(t) && !HasKey(t.vagas, VagaKey, newId)
    ensures var o := Create(t, v, newId);
      && o.result.CreatedAt? && o.result.value == v.(idVaga := newId)
      && o.after.motos == t.motos && o.after.manutencoes == t.manutencoes
      && o.after.usuarios == t.usuarios && o.after.logins == t.logins
      && |o.after.vagas| == |t.vagas| + 1
      && Find(o.after.vagas, VagaKey, newId) == Some(v.(idVaga := newId))
      && (forall k | k != newId :: Find(o.after.vagas, VagaKey, k) == Find(t.vagas, VagaKey, k))
      && Consistent(o.after)
  {
    var stored := v.(idVaga := newId);
    var rows := Insert(t.vagas, VagaKey, stored);
    InsertOrdered(t.vagas, VagaKey, stored);
    FindInsert(t.vagas, VagaKey, stored, newId);
    forall k | k != newId
      ensures Find(rows, VagaKey, k) == Find(t.vagas, VagaKey, k)
    {
      FindInsert(t.vagas, VagaKey, stored, k);
    }
  }

  /**
   * An update of an absent space throws and an id mismatch is a bad request, both changing
   * nothing; NoContent comes exactly when the ids agree and the space exists, and then only
   * that row changes.
   */
  lemma UpdateContract(t: Tables, id: int, v: Vaga)
    requires Consistent(t)
    ensures var o := Update(t, id, v);
      && (o.result == BadRequest(None) <==> id != v.idVaga)
      && (o.result == Thrown(ConcurrencyFailure) <==> id == v.idVaga && !HasKey(t.vagas, VagaKey, id))
      && (o.result == NoContent <==> id == v.idVaga && HasKey(t.vagas, VagaKey, id))
      && (o.result != NoContent ==> o.after == t)
      && (o.result == NoContent ==>
            && o.after.motos == t.motos && o.after.manutencoes == t.manutencoes
            && o.after.usuarios == t.usuarios && o.after.logins == t.logins
            && |o.after.vagas| == |t.vagas|
            && Find(o.after.vagas, VagaKey, id) == Some(v)
            && forall k | k != id :: Find(o.after.vagas, VagaKey, k) == Find(t.vagas, VagaKey, k))
      && Consistent(o.after)
  {
    var o := Update(t, id, v);
    if o.result == NoContent {
      var rows := Replace(t.vagas, VagaKey, v);
      ReplaceOrdered(t.vagas, VagaKey, v);
      FindReplace(t.vagas, VagaKey, v, id);
      forall k | k != id
        ensures Find(rows, VagaKey, k) == Find(t.vagas, VagaKey, k)
      {
        FindReplace(t.vagas, VagaKey, v, k);
      }
    }
  }

  /** A deletion answers NoContent exactly when the space exists; then it alone is gone. */
  lemma DeleteContract(t: Tables, id: int)
    requires Consistent(t)
    ensures var o := Delete(t, id);
      && (o.result == NotFound <==> !HasKey(t.vagas, VagaKey, id))
      && (o.result == NotFound ==> o.after == t)
      && (o.result != NotFound ==>
            && o.result == NoContent
            && o.after.motos == t.motos && o.after.manutencoes == t.manutencoes
            && o.after.usuarios == t.usuarios && o.after.logins == t.logins
            && |o.after.vagas| == |t.vagas| - 1
            && Find(o.after.vagas, VagaKey, id) == None
            && forall k | k != id :: Find(o.after.vagas, VagaKey, k) == Find(t.vagas, VagaKey, k))
      && Consistent(o.after)
  {
    var rows := Remove(t.vagas, VagaKey, id);
    RemoveOrdered(t.vagas, VagaKey, id);
    RemoveCount(t.vagas, VagaKey, id);
    FindRemove(t.vagas, VagaKey, id, id);
    forall k | k != id
      ensures Find(rows, VagaKey, k) == Find(t.vagas, VagaKey, k)
    {
      FindRemove(t.vagas, VagaKey, id, k);
    }
  }

  /** VagaController: the endpoints over the context. */
  class VagaController {
    const context: NextParkContext

    constructor(context: NextParkContext)
      ensures this.context == context
    {
      this.context := context;
    }

    /** GetVagas: every space. */
    method GetVagas() returns (r: ActionResult<seq<Vaga>>)
      ensures r == Ok(context.vagas)
    {
      return Ok(context.vagas);
    }

    /** GetVaga: NotFound for an absent id, otherwise the space with that id. */
    method GetVaga(id: int) returns (r: ActionResult<Vaga>)
      ensures !HasKey(context.vagas, VagaKey, id) ==> r == NotFound
      ensures HasKey(context.vagas, VagaKey, id) ==> r.Ok? && r.value in context.vagas && r.value.idVaga == id
    {
      var found := Find(context.vagas, VagaKey, id);
      if found.None? {
        return NotFound;
      }
      return Ok(found.value);
    }

    /** CreateVaga: answer and tables are those of Create. */
    method CreateVaga(v: Vaga, newId: int) returns (r: ActionResult<Vaga>)
      requires !HasKey(context.vagas, VagaKey, newId)
      modifies context
      ensures Outcome(r, context.State()) == Create(old(context.State()), v, newId)
    {
      var stored := v.(idVaga := newId);
      context.vagas := Insert(context.vagas, VagaKey, stored);
      return CreatedAt("GetVaga", map["id" := Number(newId)], stored);
    }

    /** UpdateVaga: answer and tables are those of Update. */
    method UpdateVaga(id: int, v: Vaga) returns (r: ActionResult<()>)
      modifies context
      ensures Outcome(r, context.State()) == Update(old(context.State()), id, v)
    {
      if id != v.idVaga {
        return BadRequest(None);
      }
      if !HasKey(context.vagas, VagaKey, id) {
        return Thrown(ConcurrencyFailure);
      }
      context.vagas := Replace(context.vagas, VagaKey, v);
      return NoContent;
    }

    /** DeleteVaga: answer and tables are those of Delete. */
    method DeleteVaga(id: int) returns (r: ActionResult<()>)
      modifies context
      ensures Outcome(r, context.State()) == Delete(old(context.State()), id)
    {
      var found := Find(context.vagas, VagaKey, id);
      if found.None? {
        return NotFound;
      }
      context.vagas := Remove(context.vagas, VagaKey, id);
      return NoContent;
    }
  }
}
