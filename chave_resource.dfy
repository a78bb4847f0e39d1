/**
  The key endpoints: `TB_ChavesResource.post` and `TB_ChaveResource.put` and
  `delete`.
*/
module ChaveResource {
  import opened Schema
  import opened Http
  import opened ChaveModel
  import opened RetiradaModel
  import opened Store

  /** `POST /chaves`: a full load, then the room it names must exist (404), then the insert. */
  method PostChave(db: Database, p: ChavePayload) returns (out: Response)
    requires db.Valid()
    modifies db`chaves, db`nextChaveId
    ensures db.Valid()
    ensures LoadChave(p, false).Rejected? ==>
              out == Unprocessable(LoadChave(p, false).errors) && unchanged(db)
    ensures LoadChave(p, false).Loaded? && p.salaId.value !in db.salas ==>
              out == NotFound && unchanged(db)
    ensures LoadChave(p, false).Loaded? && p.salaId.value in db.salas ==>
              && out == Created(old(db.nextChaveId))
              && out.id !in old(db.chaves)
              && db.chaves == old(db.chaves)[out.id := NewChave(LoadChave(p, false).value)]
              && db.nextChaveId == old(db.nextChaveId) + 1
    ensures out.Created? ==>
              db.chaves[out.id] == Chave(p.chaveNome.value, p.salaId.value, p.disponivel.value)
  {
    var loaded := LoadChave(p, false);
    if loaded.Rejected? {
      return Unprocessable(loaded.errors);
    }
    if loaded.value.salaId.value !in db.salas {
      return NotFound;
    }
    var id := db.nextChaveId;
    db.chaves := db.chaves[id := NewChave(loaded.value)];
    db.nextChaveId := id + 1;
    return Created(id);
  }

  /**
    `PUT /chaves/<id>`: 404 before the load; a supplied `sala_id` naming no
    room fails while the handler builds its log message from the missing room,
    so the request ends in 500 with nothing written; otherwise each supplied
    field replaces the stored one.
  */
  method PutChave(db: Database, id: int, p: ChavePayload) returns (out: Response)
    requires db.Valid()
    modifies db`chaves
    ensures db.Valid()
    ensures id !in old(db.chaves) ==> out == NotFound && unchanged(db)
    ensures id in old(db.chaves) && LoadChave(p, true).Rejected? ==>
              out == Unprocessable(LoadChave(p, true).errors) && unchanged(db)
    ensures id in old(db.chaves) && LoadChave(p, true).Loaded? && p.salaId.Given? && p.salaId.value !in db.salas ==>
              out == InternalError && unchanged(db)
    ensures id in old(db.chaves) && LoadChave(p, true).Loaded? && (p.salaId.Given? ==> p.salaId.value in db.salas) ==>
              && out == Done
              && db.chaves == old(db.chaves)[id := ApplyChave(old(db.chaves)[id], LoadChave(p, true).value)]
    ensures out == Done ==>
              && db.chaves[id].chaveNome == (if p.chaveNome.Given? then p.chaveNome.value else old(db.chaves)[id].chaveNome)
              && db.chaves[id].salaId == (if p.salaId.Given? then p.salaId.value else old(db.chaves)[id].salaId)
              && db.chaves[id].disponivel == (if p.disponivel.Given? then p.disponivel.value else old(db.chaves)[id].disponivel)
  {
    if id !in db.chaves {
      return NotFound;
    }
    var loaded := LoadChave(p, true);
    if loaded.Rejected? {
      return Unprocessable(loaded.errors);
    }
    if loaded.value.salaId.Some? && loaded.value.salaId.value !in db.salas {
      return InternalError;
    }
    ApplyChaveChangesOnlySupplied(db.chaves[id], loaded.value);
    db.chaves := db.chaves[id := ApplyChave(db.chaves[id], loaded.value)];
    return Done;
  }

  /** Whether some checkout, open or returned, still names the key. */
  predicate ChaveReferenced(retiradas: map<int, Retirada>, id: int) {
    exists k :: k in retiradas && retiradas[k].chaveId == id
  }

  /**
    `DELETE /chaves/<id>`: 404, then 400 while the key is out. A key that any
    checkout names, even a returned one, cannot go: the checkout's NOT NULL
    foreign key makes the commit fail (500).
  */
  method DeleteChave(db: Database, id: int) returns (out: Response)
    requires db.Valid()
    modifies db`chaves
    ensures db.Valid()
    ensures id !in old(db.chaves) ==> out == NotFound && unchanged(db)
    ensures id in old(db.chaves) && !old(db.chaves)[id].disponivel ==> out == BadRequest && unchanged(db)
    ensures id in old(db.chaves) && old(db.chaves)[id].disponivel && ChaveReferenced(db.retiradas, id) ==>
              out == InternalError && unchanged(db)
    ensures id in old(db.chaves) && old(db.chaves)[id].disponivel && !ChaveReferenced(db.retiradas, id) ==>
              out == Done && db.chaves == old(db.chaves) - {id}
  {
    if id !in db.chaves {
      return NotFound;
    }
    if !db.chaves[id].disponivel {
      return BadRequest;
    }
    if ChaveReferenced(db.retiradas, id) {
      return InternalError;
    }
    db.chaves := db.chaves - {id};
    return Done;
  }
}
