/**
  The checkout endpoints: `TB_RetiradasResource.post` and
  `TB_RetiradaResource.put` and `delete`, with the key and room availability
  they switch.
*/
module RetiradaResource {
  import opened Schema
  import opened Http
  import opened Calendar
  import opened SalaModel
  import opened ChaveModel
  import opened ResponsavelModel
  import opened ReservaModel
  import opened RetiradaModel
  import opened Store
  import ReservaResource

  /**
    Whether some open checkout is of a key of room `salaId`. The query joins
    each checkout to its key, so it sees the room through the key.
  */
  predicate ExisteRetiradaAtiva(retiradas: map<int, Retirada>, chaves: map<int, Chave>, salaId: int) {
    exists k :: k in retiradas && IsOpen(retiradas[k].status) && retiradas[k].chaveId in chaves
                && chaves[retiradas[k].chaveId].salaId == salaId
  }

  /**
    What a linked reservation demands of a checkout at `hora` on `today`: it
    is active and today lies in its date range; a weekly or fortnightly one
    also needs today among its weekdays and `hora` from ten minutes before its
    start (wrapping past midnight) to its end, both ends included. A single or
    monthly one puts no bound on the time.
  */
  predicate ReservaPermits(r: Reserva, today: Date, hora: Time) {
    && r.status == Ativa
    && AtOrBefore(r.dataInicio, today) && AtOrBefore(today, r.dataFim)
    && (r.frequencia == Semanal || r.frequencia == Quinzenal ==>
          IsoWeekday(today) in r.dias && TenMinutesBefore(r.horaInicio) <= hora <= r.horaFim)
  }

  /**
    For a weekly or fortnightly reservation that starts before 00:10 the
    earliest checkout time wraps to the previous evening, so a checkout is
    permitted only from that evening time up to the reservation's end time,
    which must itself be at least that late.
  */
  lemma EarlyStartWindowWraps(r: Reserva, today: Date, hora: Time)
    requires r.frequencia == Semanal || r.frequencia == Quinzenal
    requires r.horaInicio < 10
    requires ReservaPermits(r, today, hora)
    ensures hora >= r.horaInicio + 1430
    ensures r.horaFim >= r.horaInicio + 1430
  {
  }

  /** The linked reservation, if any, exists and permits the checkout. */
  predicate ReservaOk(reservas: map<int, Reserva>, f: RetiradaFields, today: Date)
    requires RetiradaFieldsComplete(f)
  {
    f.reservaId.Some? ==>
      f.reservaId.value in reservas && ReservaPermits(reservas[f.reservaId.value], today, f.horaRetirada.value)
  }

  /** The key exists, lies in the linked reservation's room, is available, and its room has no open checkout. */
  predicate ChaveOk(chaves: map<int, Chave>, reservas: map<int, Reserva>, retiradas: map<int, Retirada>, f: RetiradaFields)
    requires RetiradaFieldsComplete(f)
  {
    && f.chaveId.value in chaves
    && (f.reservaId.Some? && f.reservaId.value in reservas ==>
          reservas[f.reservaId.value].salaId == chaves[f.chaveId.value].salaId)
    && chaves[f.chaveId.value].disponivel
    && !ExisteRetiradaAtiva(retiradas, chaves, chaves[f.chaveId.value].salaId)
  }

  /** Everything a loaded checkout needs to be accepted. */
  predicate CheckoutAllowed(db: Database, f: RetiradaFields, today: Date)
    requires RetiradaFieldsComplete(f)
    reads db
  {
    && f.dataRetirada.value == today
    && ReservaOk(db.reservas, f, today)
    && ChaveOk(db.chaves, db.reservas, db.retiradas, f)
    && ReservaResource.ResponsavelAtivo(db.responsaveis, f.responsavelId.value)
  }

  // ---------------------------------------------------------------------------
  // The custody invariants.

  /** Every open checkout holds its key and room: both are marked unavailable. */
  ghost predicate OpenCheckoutsHoldKeys(salas: map<int, Sala>, chaves: map<int, Chave>, retiradas: map<int, Retirada>) {
    forall k :: k in retiradas && IsOpen(retiradas[k].status) ==>
      && retiradas[k].chaveId in chaves
      && !chaves[retiradas[k].chaveId].disponivel
      && chaves[retiradas[k].chaveId].salaId in salas
      && !salas[chaves[retiradas[k].chaveId].salaId].disponivel
  }

  /** No room has two open checkouts. */
  ghost predicate OneOpenPerSala(chaves: map<int, Chave>, retiradas: map<int, Retirada>) {
    forall k1, k2 ::
      && k1 in retiradas && k2 in retiradas
      && IsOpen(retiradas[k1].status) && IsOpen(retiradas[k2].status)
      && retiradas[k1].chaveId in chaves && retiradas[k2].chaveId in chaves
      && chaves[retiradas[k1].chaveId].salaId == chaves[retiradas[k2].chaveId].salaId
      ==> k1 == k2
  }

  ghost predicate Custody(db: Database)
    reads db
  {
    OpenCheckoutsHoldKeys(db.salas, db.chaves, db.retiradas) && OneOpenPerSala(db.chaves, db.retiradas)
  }

  // ---------------------------------------------------------------------------
  // Creation.

  /** Recording a checkout of a key whose room has no open checkout keeps both custody invariants. */
  lemma CheckoutKeepsCustody(salas: map<int, Sala>, chaves: map<int, Chave>, retiradas: map<int, Retirada>,
                             id: int, r: Retirada)
    requires OpenCheckoutsHoldKeys(salas, chaves, retiradas) && OneOpenPerSala(chaves, retiradas)
    requires id !in retiradas && r.chaveId in chaves && chaves[r.chaveId].salaId in salas
    requires !ExisteRetiradaAtiva(retiradas, chaves, chaves[r.chaveId].salaId)
    ensures var chave := chaves[r.chaveId];
            var chaves' := chaves[r.chaveId := chave.(disponivel := false)];
            var salas' := salas[chave.salaId := salas[chave.salaId].(disponivel := false)];
            var retiradas' := retiradas[id := r];
            OpenCheckoutsHoldKeys(salas', chaves', retiradas') && OneOpenPerSala(chaves', retiradas')
  {
    var chave := chaves[r.chaveId];
    var chaves' := chaves[r.chaveId := chave.(disponivel := false)];
    var salas' := salas[chave.salaId := salas[chave.salaId].(disponivel := false)];
    var retiradas' := retiradas[id := r];
    assert forall k :: k in retiradas && IsOpen(retiradas[k].status) && retiradas[k].chaveId in chaves ==>
             chaves[retiradas[k].chaveId].salaId != chave.salaId;
    forall k | k in retiradas && retiradas[k].chaveId in chaves
      ensures chaves'[retiradas[k].chaveId].salaId == chaves[retiradas[k].chaveId].salaId
    {
    }
  }

  /** The rows a checkout writes keep every foreign key resolving and every row well formed. */
  lemma CheckoutKeepsReferences(salas: map<int, Sala>, chaves: map<int, Chave>, responsaveis: map<int, Responsavel>,
                                reservas: map<int, Reserva>, retiradas: map<int, Retirada>, id: int, r: Retirada)
    requires ReferencesResolve(salas, chaves, responsaveis, reservas, retiradas)
    requires r.chaveId in chaves && r.responsavelId in responsaveis
    requires r.reservaId.Some? ==> r.reservaId.value in reservas
    requires forall k :: k in salas ==> SalaWellFormed(salas[k])
    requires forall k :: k in chaves ==> ChaveWellFormed(chaves[k])
    ensures var chave := chaves[r.chaveId];
            var chaves' := chaves[r.chaveId := chave.(disponivel := false)];
            var salas' := salas[chave.salaId := salas[chave.salaId].(disponivel := false)];
            && ReferencesResolve(salas', chaves', responsaveis, reservas, retiradas[id := r])
            && (forall k :: k in salas' ==> SalaWellFormed(salas'[k]))
            && (forall k :: k in chaves' ==> ChaveWellFormed(chaves'[k]))
  {
    var chave := chaves[r.chaveId];
    var chaves' := chaves[r.chaveId := chave.(disponivel := false)];
    var salas' := salas[chave.salaId := salas[chave.salaId].(disponivel := false)];
    assert salas'.Keys == salas.Keys;
    assert chaves'.Keys == chaves.Keys;
  }

  /** The insert and the two flag changes of a checkout that passed every guard. */
  method CommitCheckout(db: Database, f: RetiradaFields) returns (id: int)
    requires db.Valid()
    requires RetiradaFieldsComplete(f) && RetiradaFieldsValid(f)
    requires f.chaveId.value in db.chaves && f.responsavelId.value in db.responsaveis
    requires f.reservaId.Some? ==> f.reservaId.value in db.reservas
    requires !ExisteRetiradaAtiva(db.retiradas, db.chaves, db.chaves[f.chaveId.value].salaId)
    modifies db`retiradas, db`nextRetiradaId, db`chaves, db`salas
    ensures db.Valid()
    ensures old(Custody(db)) ==> Custody(db)
    ensures var chave := old(db.chaves)[f.chaveId.value];
            && id == old(db.nextRetiradaId) && id !in old(db.retiradas)
            && db.retiradas == old(db.retiradas)[id := NewRetirada(f)]
            && db.nextRetiradaId == old(db.nextRetiradaId) + 1
            && db.chaves == old(db.chaves)[f.chaveId.value := chave.(disponivel := false)]
            && db.salas == old(db.salas)[chave.salaId := old(db.salas)[chave.salaId].(disponivel := false)]
  {
    var chave := db.chaves[f.chaveId.value];
    var r := NewRetirada(f);
    if Custody(db) {
      CheckoutKeepsCustody(db.salas, db.chaves, db.retiradas, db.nextRetiradaId, r);
    }
    CheckoutKeepsReferences(db.salas, db.chaves, db.responsaveis, db.reservas, db.retiradas, db.nextRetiradaId, r);
    id := db.nextRetiradaId;
    db.retiradas := db.retiradas[id := r];
    db.nextRetiradaId := id + 1;
    db.chaves := db.chaves[f.chaveId.value := chave.(disponivel := false)];
    db.salas := db.salas[chave.salaId := db.salas[chave.salaId].(disponivel := false)];
  }

  /**
    `POST /retiradas`: a full load (422); a checkout date other than today
    (404); the linked reservation: missing (404), or not permitting the
    checkout (409); the key: missing (404), in another room than the
    reservation, unavailable, or its room already has an open checkout (409);
    the responsável missing or inactive (400). Then the checkout is inserted
    with the submitted status, and the key and its room become unavailable.
    The schema rejects a `reserva_id` of 0, so the handler's step that reads 0
    as no reservation never runs.
  */
  method PostRetirada(db: Database, p: RetiradaPayload, today: Date) returns (out: Response)
    requires db.Valid()
    modifies db`retiradas, db`nextRetiradaId, db`chaves, db`salas
    ensures db.Valid()
    ensures old(Custody(db)) ==> Custody(db)
    ensures !out.Created? ==> unchanged(db)
    ensures LoadRetirada(p, false).Rejected? ==> out == Unprocessable(LoadRetirada(p, false).errors)
    ensures out.Created? <==> LoadRetirada(p, false).Loaded? && old(CheckoutAllowed(db, LoadRetirada(p, false).value, today))
    ensures LoadRetirada(p, false).Loaded? ==>
              var f := LoadRetirada(p, false).value;
              && (f.dataRetirada.value != today ==> out == NotFound)
              && (f.dataRetirada.value == today && f.reservaId.Some? && f.reservaId.value !in db.reservas ==> out == NotFound)
              && ((f.dataRetirada.value == today && f.reservaId.Some? && f.reservaId.value in db.reservas
                   && !ReservaPermits(db.reservas[f.reservaId.value], today, f.horaRetirada.value)) ==> out == Conflict)
              && (f.dataRetirada.value == today && ReservaOk(db.reservas, f, today) && f.chaveId.value !in old(db.chaves) ==>
                    out == NotFound)
              && ((f.dataRetirada.value == today && ReservaOk(db.reservas, f, today) && f.chaveId.value in old(db.chaves)
                   && !ChaveOk(old(db.chaves), db.reservas, old(db.retiradas), f)) ==> out == Conflict)
              && ((f.dataRetirada.value == today && ReservaOk(db.reservas, f, today)
                   && ChaveOk(old(db.chaves), db.reservas, old(db.retiradas), f)
                   && !ReservaResource.ResponsavelAtivo(db.responsaveis, f.responsavelId.value)) ==> out == BadRequest)
    ensures out.Created? ==>
              var f := LoadRetirada(p, false).value;
              var chave := old(db.chaves)[f.chaveId.value];
              && out.id == old(db.nextRetiradaId) && out.id !in old(db.retiradas)
              && db.retiradas == old(db.retiradas)[out.id := NewRetirada(f)]
              && db.nextRetiradaId == old(db.nextRetiradaId) + 1
              && db.chaves == old(db.chaves)[f.chaveId.value := chave.(disponivel := false)]
              && db.salas == old(db.salas)[chave.salaId := old(db.salas)[chave.salaId].(disponivel := false)]
  {
    var loaded := LoadRetirada(p, false);
    if loaded.Rejected? {
      return Unprocessable(loaded.errors);
    }
    var f := loaded.value;
    if f.dataRetirada.value != today {
      return NotFound;
    }
    if f.reservaId.Some? {
      if f.reservaId.value !in db.reservas {
        return NotFound;
      }
      var reserva := db.reservas[f.reservaId.value];
      if reserva.status != Ativa {
        return Conflict;
      }
      if !(AtOrBefore(reserva.dataInicio, today) && AtOrBefore(today, reserva.dataFim)) {
        return Conflict;
      }
      if reserva.frequencia != Unica && reserva.frequencia != Mensal {
        if IsoWeekday(today) !in reserva.dias {
          return Conflict;
        }
        var horaMinima := TenMinutesBefore(reserva.horaInicio);
        if !(horaMinima <= f.horaRetirada.value <= reserva.horaFim) {
          return Conflict;
        }
      }
    }
    if f.chaveId.value !in db.chaves {
      return NotFound;
    }
    var chave := db.chaves[f.chaveId.value];
    if f.reservaId.Some? && db.reservas[f.reservaId.value].salaId != chave.salaId {
      return Conflict;
    }
    if !chave.disponivel {
      return Conflict;
    }
    if ExisteRetiradaAtiva(db.retiradas, db.chaves, chave.salaId) {
      return Conflict;
    }
    if !ReservaResource.ResponsavelAtivo(db.responsaveis, f.responsavelId.value) {
      return BadRequest;
    }
    var id := CommitCheckout(db, f);
    return Created(id);
  }

  // ---------------------------------------------------------------------------
  // Update.

  /** The copy loop of the update: only `status` and `hora_devolucao` are taken from the loaded dict. */
  function UpdateRetirada(r: Retirada, f: RetiradaFields): (u: Retirada)
    ensures u.(status := r.status, horaDevolucao := r.horaDevolucao) == r
    ensures u.status == GetOr(f.status, r.status)
    ensures f.horaDevolucao.Some? ==> u.horaDevolucao == f.horaDevolucao
    ensures f.horaDevolucao.None? ==> u.horaDevolucao == r.horaDevolucao
  {
    var r := if f.status.Some? then r.(status := f.status.value) else r;
    if f.horaDevolucao.Some? then r.(horaDevolucao := f.horaDevolucao) else r
  }

  /** An update that takes an open checkout to returned. */
  predicate Closes(before: StatusRetirada, after: StatusRetirada) {
    IsOpen(before) && after == Devolvida
  }

  /** An update that takes a returned checkout back to open, which nothing forbids. */
  predicate Reopens(before: StatusRetirada, after: StatusRetirada) {
    !IsOpen(before) && IsOpen(after)
  }

  /** Whether updating checkout `id` to `u` returns the last open checkout of its key's room. */
  predicate ReleasesKey(chaves: map<int, Chave>, retiradas: map<int, Retirada>, id: int, u: Retirada)
    requires id in retiradas && retiradas[id].chaveId in chaves
  {
    Closes(retiradas[id].status, u.status)
    && !ExisteRetiradaAtiva(retiradas[id := u], chaves, chaves[retiradas[id].chaveId].salaId)
  }

  /** When no two open checkouts share a room, closing one always leaves its room without an open checkout. */
  lemma ClosingReleasesUnderOneOpen(chaves: map<int, Chave>, retiradas: map<int, Retirada>, id: int, u: Retirada)
    requires OneOpenPerSala(chaves, retiradas)
    requires id in retiradas && retiradas[id].chaveId in chaves && u.chaveId == retiradas[id].chaveId
    requires Closes(retiradas[id].status, u.status)
    ensures ReleasesKey(chaves, retiradas, id, u)
  {
    var salaId := chaves[retiradas[id].chaveId].salaId;
    var retiradas' := retiradas[id := u];
    forall k | k in retiradas' && IsOpen(retiradas'[k].status) && retiradas'[k].chaveId in chaves
      ensures chaves[retiradas'[k].chaveId].salaId != salaId
    {
      assert k != id;
      assert k in retiradas && IsOpen(retiradas[k].status);
    }
  }

  /**
    An update that does not reopen a checkout keeps both custody invariants:
    the flags change only when the room's last open checkout is returned.
  */
  lemma UpdateKeepsCustody(salas: map<int, Sala>, chaves: map<int, Chave>, retiradas: map<int, Retirada>,
                           id: int, u: Retirada)
    requires OpenCheckoutsHoldKeys(salas, chaves, retiradas) && OneOpenPerSala(chaves, retiradas)
    requires id in retiradas && u == retiradas[id].(status := u.status, horaDevolucao := u.horaDevolucao)
    requires retiradas[id].chaveId in chaves && chaves[retiradas[id].chaveId].salaId in salas
    requires !Reopens(retiradas[id].status, u.status)
    ensures var chave := chaves[u.chaveId];
            var release := ReleasesKey(chaves, retiradas, id, u);
            var chaves' := if release then chaves[u.chaveId := chave.(disponivel := true)] else chaves;
            var salas' := if release then salas[chave.salaId := salas[chave.salaId].(disponivel := true)] else salas;
            OpenCheckoutsHoldKeys(salas', chaves', retiradas[id := u]) && OneOpenPerSala(chaves', retiradas[id := u])
  {
    var chave := chaves[u.chaveId];
    var retiradas' := retiradas[id := u];
    if ReleasesKey(chaves, retiradas, id, u) {
      var chaves' := chaves[u.chaveId := chave.(disponivel := true)];
      var salas' := salas[chave.salaId := salas[chave.salaId].(disponivel := true)];
      forall k | k in retiradas' && retiradas'[k].chaveId in chaves
        ensures chaves'[retiradas'[k].chaveId].salaId == chaves[retiradas'[k].chaveId].salaId
      {
      }
      forall k | k in retiradas' && IsOpen(retiradas'[k].status)
        ensures retiradas'[k].chaveId != u.chaveId && chaves[retiradas'[k].chaveId].salaId != chave.salaId
      {
        assert k != id;
        assert k in retiradas && IsOpen(retiradas[k].status) && retiradas[k].chaveId in chaves;
      }
    }
  }

  /** Marking a key and its room available again keeps the store valid. */
  method ReleaseKey(db: Database, chaveId: int)
    requires db.Valid() && chaveId in db.chaves
    modifies db`chaves, db`salas
    ensures db.Valid()
    ensures var chave := old(db.chaves)[chaveId];
            && db.chaves == old(db.chaves)[chaveId := chave.(disponivel := true)]
            && db.salas == old(db.salas)[chave.salaId := old(db.salas)[chave.salaId].(disponivel := true)]
  {
    var chave := db.chaves[chaveId];
    assert db.salas[chave.salaId := db.salas[chave.salaId].(disponivel := true)].Keys == db.salas.Keys;
    assert db.chaves[chaveId := chave.(disponivel := true)].Keys == db.chaves.Keys;
    db.salas := db.salas[chave.salaId := db.salas[chave.salaId].(disponivel := true)];
    db.chaves := db.chaves[chaveId := chave.(disponivel := true)];
  }

  /** The writes of an update: the row, then the two flags when the update returns the room's last open checkout. */
  method RecordUpdate(db: Database, id: int, u: Retirada)
    requires db.Valid()
    requires id in db.retiradas && u == db.retiradas[id].(status := u.status, horaDevolucao := u.horaDevolucao)
    modifies db`retiradas, db`chaves, db`salas
    ensures db.Valid()
    ensures db.retiradas == old(db.retiradas)[id := u]
    ensures var chave := old(db.chaves)[u.chaveId];
            if ReleasesKey(old(db.chaves), old(db.retiradas), id, u) then
              && db.chaves == old(db.chaves)[u.chaveId := chave.(disponivel := true)]
              && db.salas == old(db.salas)[chave.salaId := old(db.salas)[chave.salaId].(disponivel := true)]
            else
              db.chaves == old(db.chaves) && db.salas == old(db.salas)
    ensures old(Custody(db)) && !Reopens(old(db.retiradas)[id].status, u.status) ==> Custody(db)
    ensures old(OneOpenPerSala(db.chaves, db.retiradas)) && Closes(old(db.retiradas)[id].status, u.status) ==>
              db.chaves[u.chaveId].disponivel && db.salas[old(db.chaves)[u.chaveId].salaId].disponivel
  {
    var statusAnterior := db.retiradas[id].status;
    if Custody(db) && !Reopens(statusAnterior, u.status) {
      UpdateKeepsCustody(db.salas, db.chaves, db.retiradas, id, u);
    }
    if OneOpenPerSala(db.chaves, db.retiradas) && Closes(statusAnterior, u.status) {
      ClosingReleasesUnderOneOpen(db.chaves, db.retiradas, id, u);
    }
    db.retiradas := db.retiradas[id := u];
    if IsOpen(statusAnterior) && u.status == Devolvida {
      var chave := db.chaves[u.chaveId];
      if !ExisteRetiradaAtiva(db.retiradas, db.chaves, chave.salaId) {
        ReleaseKey(db, u.chaveId);
      }
    }
  }

  /**
    `PUT /retiradas/<id>`: 404; the partial load (422); the copy of `status`
    and `hora_devolucao`; then, when the checkout goes from open to returned
    and no open checkout is left in its key's room, the key and the room
    become available again. Nothing else changes the flags.
  */
  method PutRetirada(db: Database, id: int, p: RetiradaPayload) returns (out: Response)
    requires db.Valid()
    modifies db`retiradas, db`chaves, db`salas
    ensures db.Valid()
    ensures id !in old(db.retiradas) ==> out == NotFound && unchanged(db)
    ensures id in old(db.retiradas) && LoadRetirada(p, true).Rejected? ==>
              out == Unprocessable(LoadRetirada(p, true).errors) && unchanged(db)
    ensures id in old(db.retiradas) && LoadRetirada(p, true).Loaded? ==>
              var r := old(db.retiradas)[id];
              var u := UpdateRetirada(r, LoadRetirada(p, true).value);
              var chave := old(db.chaves)[r.chaveId];
              && out == Done
              && db.retiradas == old(db.retiradas)[id := u]
              && (ReleasesKey(old(db.chaves), old(db.retiradas), id, u) ==>
                    && db.chaves == old(db.chaves)[r.chaveId := chave.(disponivel := true)]
                    && db.salas == old(db.salas)[chave.salaId := old(db.salas)[chave.salaId].(disponivel := true)])
              && (!ReleasesKey(old(db.chaves), old(db.retiradas), id, u) ==>
                    db.chaves == old(db.chaves) && db.salas == old(db.salas))
    ensures out == Done && old(Custody(db)) && !Reopens(old(db.retiradas)[id].status, db.retiradas[id].status) ==>
              Custody(db)
    // returning the only open checkout of a room gives back the key and the room
    ensures out == Done && old(OneOpenPerSala(db.chaves, db.retiradas))
            && Closes(old(db.retiradas)[id].status, db.retiradas[id].status) ==>
              var chave := old(db.chaves)[old(db.retiradas)[id].chaveId];
              db.chaves[old(db.retiradas)[id].chaveId].disponivel && db.salas[chave.salaId].disponivel
  {
    if id !in db.retiradas {
      return NotFound;
    }
    var loaded := LoadRetirada(p, true);
    if loaded.Rejected? {
      return Unprocessable(loaded.errors);
    }
    var u := UpdateRetirada(db.retiradas[id], loaded.value);
    RecordUpdate(db, id, u);
    return Done;
  }

  // ---------------------------------------------------------------------------
  // Deletion.

  /** `DELETE /retiradas/<id>`: 404, then 409 while the checkout is open; otherwise it goes. */
  method DeleteRetirada(db: Database, id: int) returns (out: Response)
    requires db.Valid()
    modifies db`retiradas
    ensures db.Valid()
    ensures old(Custody(db)) ==> Custody(db)
    ensures id !in old(db.retiradas) ==> out == NotFound && unchanged(db)
    ensures id in old(db.retiradas) && IsOpen(old(db.retiradas)[id].status) ==> out == Conflict && unchanged(db)
    ensures id in old(db.retiradas) && !IsOpen(old(db.retiradas)[id].status) ==>
              out == Done && db.retiradas == old(db.retiradas) - {id}
  {
    if id !in db.retiradas {
      return NotFound;
    }
    if IsOpen(db.retiradas[id].status) {
      return Conflict;
    }
    db.retiradas := db.retiradas - {id};
    return Done;
  }
}
