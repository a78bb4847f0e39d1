/**
  The room endpoints: `TB_SalasResource.post` and `TB_SalaResource.get`,
  `put` and `delete`. Every request is one step on the store that either
  commits or leaves it as it was.
*/
module SalaResource {
  import opened Schema
  import opened Http
  import opened SalaModel
  import opened ChaveModel
  import opened ReservaModel
  import opened Store

  /** `GET /salas/<id>`: the room, or 404. */
  function GetSala(salas: map<int, Sala>, id: int): (r: Option<Sala>)
    ensures r.None? <==> id !in salas
    ensures r.Some? ==> r.value == salas[id]
  {
    Lookup(salas, id)
  }

  /** `POST /salas`: a full load, then the room is inserted under the next id. */
  method PostSala(db: Database, p: SalaPayload) returns (out: Response)
    requires db.Valid()
    modifies db`salas, db`nextSalaId
    ensures db.Valid()
    ensures LoadSala(p, false).Rejected? ==>
              out == Unprocessable(LoadSala(p, false).errors) && unchanged(db)
    ensures LoadSala(p, false).Loaded? ==>
              && out == Created(old(db.nextSalaId))
              && out.id !in old(db.salas)
              && db.salas == old(db.salas)[out.id := NewSala(LoadSala(p, false).value)]
              && db.nextSalaId == old(db.nextSalaId) + 1
    ensures out.Created? ==>
              db.salas[out.id] == Sala(p.salaNome.value, p.disponivel.value)
  {
    var loaded := LoadSala(p, false);
    if loaded.Rejected? {
      return Unprocessable(loaded.errors);
    }
    var id := db.nextSalaId;
    db.salas := db.salas[id := NewSala(loaded.value)];
    db.nextSalaId := id + 1;
    return Created(id);
  }

  /** `PUT /salas/<id>`: 404 before the load; then each supplied field replaces the stored one. */
  method PutSala(db: Database, id: int, p: SalaPayload) returns (out: Response)
    requires db.Valid()
    modifies db`salas
    ensures db.Valid()
    ensures id !in old(db.salas) ==> out == NotFound && unchanged(db)
    ensures id in old(db.salas) && LoadSala(p, true).Rejected? ==>
              out == Unprocessable(LoadSala(p, true).errors) && unchanged(db)
    ensures id in old(db.salas) && LoadSala(p, true).Loaded? ==>
              && out == Done
              && db.salas == old(db.salas)[id := ApplySala(old(db.salas)[id], LoadSala(p, true).value)]
    ensures out == Done ==>
              && db.salas[id].salaNome == (if p.salaNome.Given? then p.salaNome.value else old(db.salas)[id].salaNome)
              && db.salas[id].disponivel == (if p.disponivel.Given? then p.disponivel.value else old(db.salas)[id].disponivel)
  {
    if id !in db.salas {
      return NotFound;
    }
    var loaded := LoadSala(p, true);
    if loaded.Rejected? {
      return Unprocessable(loaded.errors);
    }
    ApplySalaChangesOnlySupplied(db.salas[id], loaded.value);
    db.salas := db.salas[id := ApplySala(db.salas[id], loaded.value)];
    return Done;
  }

  /** Whether some key or reservation still names the room. */
  predicate SalaReferenced(chaves: map<int, Chave>, reservas: map<int, Reserva>, id: int) {
    (exists k :: k in chaves && chaves[k].salaId == id)
    || (exists k :: k in reservas && reservas[k].salaId == id)
  }

  /**
    `DELETE /salas/<id>`. The handler itself checks nothing but existence:
    neither the room's availability nor its keys or reservations. A room that
    keys or reservations still name cannot go, because their NOT NULL foreign
    keys make the commit fail (500).
  */
  method DeleteSala(db: Database, id: int) returns (out: Response)
    requires db.Valid()
    modifies db`salas
    ensures db.Valid()
    ensures id !in old(db.salas) ==> out == NotFound && unchanged(db)
    ensures id in old(db.salas) && SalaReferenced(db.chaves, db.reservas, id) ==>
              out == InternalError && unchanged(db)
    ensures id in old(db.salas) && !SalaReferenced(db.chaves, db.reservas, id) ==>
              out == Done && db.salas == old(db.salas) - {id}
  {
    if id !in db.salas {
      return NotFound;
    }
    if SalaReferenced(db.chaves, db.reservas, id) {
      return InternalError;
    }
    db.salas := db.salas - {id};
    return Done;
  }
}
