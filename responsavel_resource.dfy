/**
  The responsável endpoints: `TB_ResponsaveisResource.get` (the database
  listing) and `post`, and `TB_ResponsavelResource.put` and `delete`. The
  schema's outcome is a parameter, since models/TB_Responsavel.py is not part
  of this model.
*/
module ResponsavelResource {
  import opened Schema
  import opened Http
  import opened ResponsavelModel
  import opened ReservaModel
  import opened RetiradaModel
  import opened Store

  /**
    `query.offset((page - 1) * per_page).limit(per_page)` over a listing.
    The database refuses a negative offset or limit, which ends the request
    in 500 (`None` here).
  */
  function Page<T>(rows: seq<T>, page: int, perPage: int): (r: Option<seq<T>>)
    ensures r.None? <==> (page - 1) * perPage < 0 || perPage < 0
    ensures r.Some? ==> |r.value| <= perPage
    ensures r.Some? && |r.value| > 0 ==> (page - 1) * perPage + |r.value| <= |rows|
    ensures r.Some? ==> forall i :: 0 <= i < |r.value| ==> r.value[i] == rows[(page - 1) * perPage + i]
    // a page is short only when the listing runs out
    ensures r.Some? && |r.value| < perPage ==> (page - 1) * perPage + |r.value| >= |rows|
  {
    var offset := (page - 1) * perPage;
    if offset < 0 || perPage < 0 then None
    else if offset >= |rows| then Some([])
    else if offset + perPage >= |rows| then Some(rows[offset..])
    else Some(rows[offset..offset + perPage])
  }

  /** Two consecutive pages hold the rows of the listing that follow each other, none skipped or repeated. */
  lemma ConsecutivePagesTile<T>(rows: seq<T>, page: int, perPage: int)
    requires page >= 1 && perPage >= 0
    ensures Page(rows, page, perPage).Some? && Page(rows, page + 1, perPage).Some?
    ensures var start := (page - 1) * perPage;
            var stop := if start + 2 * perPage <= |rows| then start + 2 * perPage else |rows|;
            start <= stop ==>
              Page(rows, page, perPage).value + Page(rows, page + 1, perPage).value == rows[start..stop]
  {
    var start := (page - 1) * perPage;
    assert page * perPage == start + perPage;
    assert 0 <= start;
  }

  /** `GET /responsavel` without a search text: the responsáveis in id order, one page of them. */
  function ListResponsaveis(responsaveis: map<int, Responsavel>, next: int, page: int, perPage: int)
    : (r: Option<seq<(int, Responsavel)>>)
    ensures r == Page(Rows(responsaveis, next), page, perPage)
    ensures r.Some? ==> forall i :: 0 <= i < |r.value| ==>
              r.value[i].0 in responsaveis && r.value[i].1 == responsaveis[r.value[i].0]
  {
    Page(Rows(responsaveis, next), page, perPage)
  }

  /** The ids on a page ascend, so no responsável appears twice on it. */
  lemma ListedInIdOrder(responsaveis: map<int, Responsavel>, next: int, page: int, perPage: int, i: int, j: int)
    requires ListResponsaveis(responsaveis, next, page, perPage).Some?
    requires 0 <= i < j < |ListResponsaveis(responsaveis, next, page, perPage).value|
    ensures ListResponsaveis(responsaveis, next, page, perPage).value[i].0
            < ListResponsaveis(responsaveis, next, page, perPage).value[j].0
  {
    OrderedIdsBelow(responsaveis, next);
    var offset := (page - 1) * perPage;
    var rows := Rows(responsaveis, next);
    assert rows[offset + i].0 == OrderedIds(responsaveis, next)[offset + i];
    assert rows[offset + j].0 == OrderedIds(responsaveis, next)[offset + j];
  }

  /** `POST /responsavel`: the loaded record is inserted under the next id. */
  method PostResponsavel(db: Database, loaded: Load<Responsavel>) returns (out: Response)
    requires db.Valid()
    modifies db`responsaveis, db`nextResponsavelId
    ensures db.Valid()
    ensures loaded.Rejected? ==> out == Unprocessable(loaded.errors) && unchanged(db)
    ensures loaded.Loaded? ==>
              && out == Created(old(db.nextResponsavelId))
              && out.id !in old(db.responsaveis)
              && db.responsaveis == old(db.responsaveis)[out.id := loaded.value]
              && db.nextResponsavelId == old(db.nextResponsavelId) + 1
  {
    if loaded.Rejected? {
      return Unprocessable(loaded.errors);
    }
    var id := db.nextResponsavelId;
    db.responsaveis := db.responsaveis[id := loaded.value];
    db.nextResponsavelId := id + 1;
    return Created(id);
  }

  /** `PUT /responsavel/<id>`: 404 before the load; then each supplied field replaces the stored one. */
  method PutResponsavel(db: Database, id: int, loaded: Load<ResponsavelFields>) returns (out: Response)
    requires db.Valid()
    modifies db`responsaveis
    ensures db.Valid()
    ensures id !in old(db.responsaveis) ==> out == NotFound && unchanged(db)
    ensures id in old(db.responsaveis) && loaded.Rejected? ==> out == Unprocessable(loaded.errors) && unchanged(db)
    ensures id in old(db.responsaveis) && loaded.Loaded? ==>
              && out == Done
              && db.responsaveis == old(db.responsaveis)[id := ApplyResponsavel(old(db.responsaveis)[id], loaded.value)]
    ensures out == Done && loaded.value.ativo.None? ==> db.responsaveis[id].ativo == old(db.responsaveis)[id].ativo
  {
    if id !in db.responsaveis {
      return NotFound;
    }
    if loaded.Rejected? {
      return Unprocessable(loaded.errors);
    }
    ApplyResponsavelChangesOnlySupplied(db.responsaveis[id], loaded.value);
    db.responsaveis := db.responsaveis[id := ApplyResponsavel(db.responsaveis[id], loaded.value)];
    return Done;
  }

  /** Whether some reservation or checkout still names the responsável. */
  predicate ResponsavelReferenced(reservas: map<int, Reserva>, retiradas: map<int, Retirada>, id: int) {
    (exists k :: k in reservas && reservas[k].responsavelId == id)
    || (exists k :: k in retiradas && retiradas[k].responsavelId == id)
  }

  /**
    `DELETE /responsavel/<id>`: 404, then 409 while the responsável is active.
    One that reservations or checkouts still name cannot go: their NOT NULL
    foreign keys make the commit fail (500).
  */
  method DeleteResponsavel(db: Database, id: int) returns (out: Response)
    requires db.Valid()
    modifies db`responsaveis
    ensures db.Valid()
    ensures id !in old(db.responsaveis) ==> out == NotFound && unchanged(db)
    ensures id in old(db.responsaveis) && old(db.responsaveis)[id].ativo ==> out == Conflict && unchanged(db)
    ensures id in old(db.responsaveis) && !old(db.responsaveis)[id].ativo && ResponsavelReferenced(db.reservas, db.retiradas, id) ==>
              out == InternalError && unchanged(db)
    ensures id in old(db.responsaveis) && !old(db.responsaveis)[id].ativo && !ResponsavelReferenced(db.reservas, db.retiradas, id) ==>
              out == Done && db.responsaveis == old(db.responsaveis) - {id}
  {
    if id !in db.responsaveis {
      return NotFound;
    }
    if db.responsaveis[id].ativo {
      return Conflict;
    }
    if ResponsavelReferenced(db.reservas, db.retiradas, id) {
      return InternalError;
    }
    db.responsaveis := db.responsaveis - {id};
    return Done;
  }
}
