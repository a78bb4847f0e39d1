/**
  The reservation endpoints: the conflict query `existe_conflito_reserva_raw`,
  `merge_reserva`, `TB_ReservasResource.post` and `TB_ReservaResource.put` and
  `delete`.
*/
module ReservaResource {
  import opened Schema
  import opened Http
  import opened Calendar
  import opened ReservaModel
  import opened ResponsavelModel
  import opened RetiradaModel
  import opened Store

  // ---------------------------------------------------------------------------
  // The conflict query.

  /**
    Whether stored reservation `r` falls on date `d` as the query reads it,
    by the stored reservation's own frequency: a weekly one on a weekday among
    its day rows, a monthly one on the day of the month it started, a single
    one on its start date. The query has no branch for a fortnightly one.
  */
  predicate Aligned(r: Reserva, d: Date) {
    match r.frequencia
    case Semanal => IsoWeekday(d) in r.dias
    case Mensal => r.dataInicio.day == d.day
    case Unica => r.dataInicio == d
    case Quinzenal => false
  }

  /**
    The query's condition on one stored reservation: active, same room, the
    time windows overlap as half-open intervals, the candidate's start date
    lies in the stored date range and the stored reservation falls on it, and
    it is not the excluded one. The candidate's own end date and weekday list
    take no part.
  */
  predicate ConflictsWith(id: int, r: Reserva, salaId: int, horaInicio: Time, horaFim: Time,
                          dataInicio: Date, excluir: Option<int>) {
    && r.status == Ativa
    && r.salaId == salaId
    && horaInicio < r.horaFim && horaFim > r.horaInicio
    && AtOrBefore(r.dataInicio, dataInicio) && AtOrBefore(dataInicio, r.dataFim)
    && Aligned(r, dataInicio)
    && (excluir.None? || id != excluir.value)
  }

  /** `existe_conflito_reserva_raw`: whether some stored reservation meets the condition. */
  predicate ExisteConflito(reservas: map<int, Reserva>, salaId: int, horaInicio: Time, horaFim: Time,
                           dataInicio: Date, excluir: Option<int>) {
    exists id :: id in reservas && ConflictsWith(id, reservas[id], salaId, horaInicio, horaFim, dataInicio, excluir)
  }

  /** A time window that ends when another starts, or starts when it ends, never conflicts with it. */
  lemma BackToBackNeverConflict(reservas: map<int, Reserva>, salaId: int, horaInicio: Time, horaFim: Time,
                                dataInicio: Date, excluir: Option<int>)
    requires forall id :: id in reservas && reservas[id].salaId == salaId ==>
               horaFim <= reservas[id].horaInicio || reservas[id].horaFim <= horaInicio
    ensures !ExisteConflito(reservas, salaId, horaInicio, horaFim, dataInicio, excluir)
  {
  }

  /** Stored fortnightly, cancelled or finished reservations never conflict, whatever the candidate. */
  lemma OnlyActiveNonFortnightlyConflict(id: int, r: Reserva, salaId: int, horaInicio: Time, horaFim: Time,
                                         dataInicio: Date, excluir: Option<int>)
    requires r.frequencia == Quinzenal || r.status != Ativa
    ensures !ConflictsWith(id, r, salaId, horaInicio, horaFim, dataInicio, excluir)
  {
  }

  /** Excluding a reservation's id is the same as asking the table without it. */
  lemma {:induction false} ExcludingIsRemoving(reservas: map<int, Reserva>, id: int, salaId: int, horaInicio: Time,
                                               horaFim: Time, dataInicio: Date)
    ensures ExisteConflito(reservas, salaId, horaInicio, horaFim, dataInicio, Some(id))
        <==> ExisteConflito(reservas - {id}, salaId, horaInicio, horaFim, dataInicio, None)
  {
    var rest := reservas - {id};
    if ExisteConflito(reservas, salaId, horaInicio, horaFim, dataInicio, Some(id)) {
      var k :| k in reservas && ConflictsWith(k, reservas[k], salaId, horaInicio, horaFim, dataInicio, Some(id));
      assert k in rest && ConflictsWith(k, rest[k], salaId, horaInicio, horaFim, dataInicio, None);
    }
    if ExisteConflito(rest, salaId, horaInicio, horaFim, dataInicio, None) {
      var k :| k in rest && ConflictsWith(k, rest[k], salaId, horaInicio, horaFim, dataInicio, None);
      assert k in reservas && ConflictsWith(k, reservas[k], salaId, horaInicio, horaFim, dataInicio, Some(id));
    }
  }

  /**
    Only the candidate's start date is looked at. A weekly reservation on the
    weekday of 2026-10-15, from that day to the end of the year, does not
    conflict with an identical one stored from 2026-10-22, although both fall
    on 2026-10-22 and on every seventh day after it.
  */
  lemma StartDateOnly()
    ensures var w := IsoWeekday(Ymd(2026, 10, 15));
            var stored := Reserva(1, 1, 480, 600, Ymd(2026, 10, 22), Ymd(2026, 12, 31), Semanal, Ativa, [w]);
            && IsoWeekday(Ymd(2026, 10, 22)) == w
            && Aligned(stored, Ymd(2026, 10, 22))
            && !ExisteConflito(map[1 := stored], 1, 480, 600, Ymd(2026, 10, 15), None)
  {
    SameWeekdayWeeksApart(Ymd(2026, 10, 15), Ymd(2026, 10, 22), 1);
  }

  // ---------------------------------------------------------------------------
  // Creation.

  /** A responsável that exists and is active. */
  predicate ResponsavelAtivo(responsaveis: map<int, Responsavel>, id: int) {
    id in responsaveis && responsaveis[id].ativo
  }

  /**
    The record a full load is stored as: a single reservation's end date is
    set to its start date, and its day rows are the submitted list, or none.
  */
  function StoredReserva(f: ReservaFields): (r: Reserva)
    requires ReservaFieldsComplete(f)
    ensures r.dias == GetOr(f.diasSemana, [])
    ensures r.frequencia == Unica ==> r.dataFim == r.dataInicio
    ensures r.frequencia != Unica ==> r.dataFim == f.dataFim.value
    ensures r.status == f.status.value && r.frequencia == f.frequencia.value
    ensures r.salaId == f.salaId.value && r.responsavelId == f.responsavelId.value
    ensures r.horaInicio == f.horaInicio.value && r.horaFim == f.horaFim.value
    ensures r.dataInicio == f.dataInicio.value
    // apart from the end date and the day rows, the record is the constructor's
    ensures r.(dataFim := f.dataFim.value, dias := []) == NewReserva(f)
  {
    var r := NewReserva(f);
    var r := if r.frequencia == Unica then r.(dataFim := r.dataInicio) else r;
    r.(dias := GetOr(f.diasSemana, []))
  }

  /** After a full load a single reservation's end date already equals its start, so forcing it changes nothing. */
  lemma UnicaEndAlreadyStart(p: ReservaPayload, today: Date, now: Time)
    requires LoadReserva(p, false, today, now).Loaded?
    requires LoadReserva(p, false, today, now).value.frequencia == Some(Unica)
    ensures var f := LoadReserva(p, false, today, now).value;
            f.dataFim == f.dataInicio && StoredReserva(f).dataFim == f.dataFim.value
  {
  }

  /**
    A stored active reservation that is not fortnightly conflicts with the
    same request made again: posting it twice gives 409 the second time.
  */
  lemma {:induction false} RepeatConflicts(id: int, f: ReservaFields, today: Date, now: Time)
    requires ReservaFieldsComplete(f) && DatasHorasOk(f, today, now)
    requires f.status == Some(Ativa) && f.frequencia != Some(Quinzenal)
    ensures ConflictsWith(id, StoredReserva(f), f.salaId.value, f.horaInicio.value, f.horaFim.value, f.dataInicio.value, None)
  {
    var r := StoredReserva(f);
    assert AtOrBefore(r.dataInicio, r.dataFim) by {
      if r.frequencia != Unica {
        assert !Before(f.dataFim.value, f.dataInicio.value);
      }
    }
  }

  /** A fortnightly reservation never conflicts with itself posted again: the room can be booked twice. */
  lemma QuinzenalRepeatUndetected(id: int, f: ReservaFields)
    requires ReservaFieldsComplete(f) && f.frequencia == Some(Quinzenal)
    ensures !ConflictsWith(id, StoredReserva(f), f.salaId.value, f.horaInicio.value, f.horaFim.value, f.dataInicio.value, None)
  {
  }

  /**
    `POST /reservas`: a full load (422), then the room (404), the responsável
    (400, missing or inactive) and the conflict query (409); then the
    reservation is inserted with one day row per submitted weekday.
  */
  method PostReserva(db: Database, p: ReservaPayload, today: Date, now: Time) returns (out: Response)
    requires db.Valid()
    modifies db`reservas, db`nextReservaId
    ensures db.Valid()
    ensures LoadReserva(p, false, today, now).Rejected? ==>
              out == Unprocessable(LoadReserva(p, false, today, now).errors) && unchanged(db)
    ensures LoadReserva(p, false, today, now).Loaded? ==>
              var f := LoadReserva(p, false, today, now).value;
              && (f.salaId.value !in db.salas ==> out == NotFound && unchanged(db))
              && (f.salaId.value in db.salas && !ResponsavelAtivo(db.responsaveis, f.responsavelId.value) ==>
                    out == BadRequest && unchanged(db))
              && (f.salaId.value in db.salas && ResponsavelAtivo(db.responsaveis, f.responsavelId.value)
                  && ExisteConflito(old(db.reservas), f.salaId.value, f.horaInicio.value, f.horaFim.value, f.dataInicio.value, None) ==>
                    out == Conflict && unchanged(db))
              && (f.salaId.value in db.salas && ResponsavelAtivo(db.responsaveis, f.responsavelId.value)
                  && !ExisteConflito(old(db.reservas), f.salaId.value, f.horaInicio.value, f.horaFim.value, f.dataInicio.value, None) ==>
                    && out == Created(old(db.nextReservaId))
                    && out.id !in old(db.reservas)
                    && db.reservas == old(db.reservas)[out.id := StoredReserva(f)]
                    && db.nextReservaId == old(db.nextReservaId) + 1)
    ensures out.Created? ==> db.reservas[out.id].dias == (if p.diasSemana.Given? then p.diasSemana.value else [])
  {
    var loaded := LoadReserva(p, false, today, now);
    if loaded.Rejected? {
      return Unprocessable(loaded.errors);
    }
    var f := loaded.value;
    var dias := GetOr(f.diasSemana, []);
    var reserva := NewReserva(f);
    if reserva.frequencia == Unica {
      reserva := reserva.(dataFim := reserva.dataInicio);
    }
    if f.salaId.value !in db.salas {
      return NotFound;
    }
    if !ResponsavelAtivo(db.responsaveis, f.responsavelId.value) {
      return BadRequest;
    }
    if ExisteConflito(db.reservas, f.salaId.value, f.horaInicio.value, f.horaFim.value, f.dataInicio.value, None) {
      return Conflict;
    }
    var id := db.nextReservaId;
    // one day row per submitted weekday, in order
    var rows: seq<int> := [];
    var i := 0;
    while i < |dias|
      invariant 0 <= i <= |dias|
      invariant rows == dias[..i]
    {
      rows := rows + [dias[i]];
      i := i + 1;
    }
    assert dias[..|dias|] == dias;
    db.reservas := db.reservas[id := reserva.(dias := rows)];
    db.nextReservaId := id + 1;
    return Created(id);
  }

  // ---------------------------------------------------------------------------
  // Update.

  /** `merge_reserva`, with the day rows the update will store. */
  function MergeReserva(stored: Reserva, f: ReservaFields, dias: seq<int>): Reserva {
    Reserva(
      GetOr(f.salaId, stored.salaId),
      GetOr(f.responsavelId, stored.responsavelId),
      GetOr(f.horaInicio, stored.horaInicio),
      GetOr(f.horaFim, stored.horaFim),
      GetOr(f.dataInicio, stored.dataInicio),
      GetOr(f.dataFim, stored.dataFim),
      GetOr(f.frequencia, stored.frequencia),
      GetOr(f.status, stored.status),
      dias)
  }

  /** Every field the patch carries holds in `r`. */
  predicate PatchHolds(r: Reserva, f: ReservaFields) {
    && (f.salaId.Some? ==> r.salaId == f.salaId.value)
    && (f.responsavelId.Some? ==> r.responsavelId == f.responsavelId.value)
    && (f.horaInicio.Some? ==> r.horaInicio == f.horaInicio.value)
    && (f.horaFim.Some? ==> r.horaFim == f.horaFim.value)
    && (f.dataInicio.Some? ==> r.dataInicio == f.dataInicio.value)
    && (f.dataFim.Some? ==> r.dataFim == f.dataFim.value)
    && (f.frequencia.Some? ==> r.frequencia == f.frequencia.value)
    && (f.status.Some? ==> r.status == f.status.value)
  }

  /** Every field the patch leaves out is the same in `r` as in `stored`. */
  predicate RestKept(r: Reserva, stored: Reserva, f: ReservaFields) {
    && (f.salaId.None? ==> r.salaId == stored.salaId)
    && (f.responsavelId.None? ==> r.responsavelId == stored.responsavelId)
    && (f.horaInicio.None? ==> r.horaInicio == stored.horaInicio)
    && (f.horaFim.None? ==> r.horaFim == stored.horaFim)
    && (f.dataInicio.None? ==> r.dataInicio == stored.dataInicio)
    && (f.dataFim.None? ==> r.dataFim == stored.dataFim)
    && (f.frequencia.None? ==> r.frequencia == stored.frequencia)
    && (f.status.None? ==> r.status == stored.status)
  }

  /** The merge takes exactly the supplied fields, keeps the rest, and merging the same patch again changes nothing. */
  lemma MergeTakesSuppliedFields(stored: Reserva, f: ReservaFields, dias: seq<int>)
    ensures PatchHolds(MergeReserva(stored, f, dias), f)
    ensures RestKept(MergeReserva(stored, f, dias), stored, f)
    ensures MergeReserva(MergeReserva(stored, f, dias), f, dias) == MergeReserva(stored, f, dias)
    ensures f == ReservaFields(None, None, None, None, None, None, None, None, None) ==>
              MergeReserva(stored, f, stored.dias) == stored
  {
  }

  /** The frequency the update reasons with: the submitted member, else the stored one. */
  function FrequenciaFinal(stored: Reserva, p: ReservaPayload): (r: Field<string>)
    ensures !r.Absent?
    // without a submitted frequency, the stored one is reasoned with, and it parses back
    ensures p.frequencia.Absent? ==> r.Given? && ParseFrequencia(r.value) == Some(stored.frequencia)
    ensures p.frequencia.Given? ==> r == p.frequencia
  {
    ParseFrequenciaRoundTrip(stored.frequencia);
    if p.frequencia.Absent? then Given(FrequenciaName(stored.frequencia)) else p.frequencia
  }

  /**
    The day set the update stores: none for a single or monthly reservation,
    else the submitted list, else (member missing or null) the stored rows.
  */
  function DiasFinais(stored: Reserva, p: ReservaPayload): (r: seq<int>)
    // every entry comes from the submitted list or the stored rows
    ensures forall i :: 0 <= i < |r| ==>
              (p.diasSemana.Given? && r[i] in p.diasSemana.value) || r[i] in stored.dias
    // a stored single or monthly reservation keeps no rows unless the update changes its frequency
    ensures p.frequencia.Absent? && (stored.frequencia == Unica || stored.frequencia == Mensal) ==> r == []
    // the stored rows are kept when the update is recurring and brings no list
    ensures (p.frequencia.Absent? && !p.diasSemana.Given?
             && (stored.frequencia == Semanal || stored.frequencia == Quinzenal)) ==> r == stored.dias
  {
    var freq := FrequenciaFinal(stored, p);
    if freq == Given("única") || freq == Given("mensal") then []
    else if p.diasSemana.Given? then p.diasSemana.value
    else stored.dias
  }

  /** The body the update loads: `frequencia` and `dias_semana` are always set before the partial load. */
  function UpdatePayload(stored: Reserva, p: ReservaPayload): (q: ReservaPayload)
    ensures q.frequencia.Given? || q.frequencia.Null?
    ensures q.diasSemana == Given(DiasFinais(stored, p))
  {
    p.(frequencia := FrequenciaFinal(stored, p), diasSemana := Given(DiasFinais(stored, p)))
  }

  /**
    What a loaded update guarantees about the day set it stores: every entry
    in 1..7, none for a single or monthly result, and a weekly or fortnightly
    result has at least one, including the weekday of a supplied start date.
  */
  lemma {:induction false} UpdatedDaysValid(stored: Reserva, p: ReservaPayload, today: Date, now: Time)
    requires LoadReserva(UpdatePayload(stored, p), true, today, now).Loaded?
    ensures var f := LoadReserva(UpdatePayload(stored, p), true, today, now).value;
            var m := MergeReserva(stored, f, DiasFinais(stored, p));
            && DiasValidos(m.dias)
            && (m.frequencia == Unica || m.frequencia == Mensal ==> m.dias == [])
            && (m.frequencia == Semanal || m.frequencia == Quinzenal ==>
                  |m.dias| > 0 && (p.dataInicio.Given? ==> IsoWeekday(p.dataInicio.value) in m.dias))
  {
    var q := UpdatePayload(stored, p);
    var f := LoadReserva(q, true, today, now).value;
    assert f.frequencia.Some?;
    assert f.diasSemana == Some(DiasFinais(stored, p));
    ParseFrequenciaRoundTrip(stored.frequencia);
    assert f.frequencia.Some? ==> FrequenciaName(f.frequencia.value) == q.frequencia.value;
  }

  /**
    `PUT /reservas/<id>`: 404; the partial load of the body with the final
    frequency and day set filled in (422); the conflict query on the merged
    record with this reservation excluded (409); then the supplied fields are
    written, the day rows replaced by the final day set, and the commit checks
    the room and responsável the record names (500 when either is missing).
    Unlike creation, the update does not check that the responsável is active.
  */
  method PutReserva(db: Database, id: int, p: ReservaPayload, today: Date, now: Time) returns (out: Response)
    requires db.Valid()
    modifies db`reservas
    ensures db.Valid()
    ensures id !in old(db.reservas) ==> out == NotFound && unchanged(db)
    ensures id in old(db.reservas) ==>
              var stored := old(db.reservas)[id];
              var loaded := LoadReserva(UpdatePayload(stored, p), true, today, now);
              && (loaded.Rejected? ==> out == Unprocessable(loaded.errors) && unchanged(db))
              && (loaded.Loaded? ==>
                    var m := MergeReserva(stored, loaded.value, DiasFinais(stored, p));
                    && (ExisteConflito(old(db.reservas), m.salaId, m.horaInicio, m.horaFim, m.dataInicio, Some(id)) ==>
                          out == Conflict && unchanged(db))
                    && (!ExisteConflito(old(db.reservas), m.salaId, m.horaInicio, m.horaFim, m.dataInicio, Some(id))
                        && (m.salaId !in db.salas || m.responsavelId !in db.responsaveis) ==>
                          out == InternalError && unchanged(db))
                    && (!ExisteConflito(old(db.reservas), m.salaId, m.horaInicio, m.horaFim, m.dataInicio, Some(id))
                        && m.salaId in db.salas && m.responsavelId in db.responsaveis ==>
                          out == Done && db.reservas == old(db.reservas)[id := m]))
  {
    if id !in db.reservas {
      return NotFound;
    }
    var stored := db.reservas[id];
    var diasFinais := DiasFinais(stored, p);
    var loaded := LoadReserva(UpdatePayload(stored, p), true, today, now);
    if loaded.Rejected? {
      return Unprocessable(loaded.errors);
    }
    var merged := MergeReserva(stored, loaded.value, diasFinais);
    if ExisteConflito(db.reservas, merged.salaId, merged.horaInicio, merged.horaFim, merged.dataInicio, Some(id)) {
      return Conflict;
    }
    if merged.salaId !in db.salas || merged.responsavelId !in db.responsaveis {
      return InternalError;
    }
    // the stored rows are deleted, then one row is inserted per final weekday
    var rows: seq<int> := [];
    var i := 0;
    while i < |diasFinais|
      invariant 0 <= i <= |diasFinais|
      invariant rows == diasFinais[..i]
    {
      rows := rows + [diasFinais[i]];
      i := i + 1;
    }
    assert diasFinais[..|diasFinais|] == diasFinais;
    UpdatedDaysValid(stored, p, today, now);
    db.reservas := db.reservas[id := MergeReserva(stored, loaded.value, rows)];
    return Done;
  }

  /**
    A single-day reservation can be stored with an end date after its start:
    an update that changes only the frequency skips the single-day rule, since
    neither date is in the loaded dict.
  */
  lemma UpdateToUnicaKeepsDates(stored: Reserva, today: Date, now: Time)
    requires stored.dataFim != stored.dataInicio
    ensures var p := ReservaPayload(Absent, Absent, Absent, Absent, Absent, Absent, Given("única"), Absent, Absent);
            && LoadReserva(UpdatePayload(stored, p), true, today, now).Loaded?
            && var m := MergeReserva(stored, LoadReserva(UpdatePayload(stored, p), true, today, now).value, DiasFinais(stored, p));
               m.frequencia == Unica && m.dataFim != m.dataInicio
  {
    var p := ReservaPayload(Absent, Absent, Absent, Absent, Absent, Absent, Given("única"), Absent, Absent);
    assert ParseFrequencia("única") == Some(Unica);
    assert ReservaFieldErrors(UpdatePayload(stored, p), true) == {};
  }

  // ---------------------------------------------------------------------------
  // Deletion.

  /**
    What deleting reservation `id` does to the checkouts: the ORM clears the
    nullable `reserva_id` of every checkout that named it.
  */
  function DetachReserva(retiradas: map<int, Retirada>, id: int): (r: map<int, Retirada>)
    ensures r.Keys == retiradas.Keys
    ensures forall k :: k in r ==> r[k].reservaId != Some(id)
    ensures forall k :: k in r ==> r[k] == retiradas[k].(reservaId := r[k].reservaId)
    ensures forall k :: k in r && retiradas[k].reservaId != Some(id) ==> r[k] == retiradas[k]
  {
    map k | k in retiradas :: if retiradas[k].reservaId == Some(id) then retiradas[k].(reservaId := None) else retiradas[k]
  }

  /**
    `DELETE /reservas/<id>`: 404, then 409 while the reservation is active;
    otherwise it goes with its day rows, and checkouts that named it keep
    their rows without the reference.
  */
  method DeleteReserva(db: Database, id: int) returns (out: Response)
    requires db.Valid()
    modifies db`reservas, db`retiradas
    ensures db.Valid()
    ensures id !in old(db.reservas) ==> out == NotFound && unchanged(db)
    ensures id in old(db.reservas) && old(db.reservas)[id].status == Ativa ==> out == Conflict && unchanged(db)
    ensures id in old(db.reservas) && old(db.reservas)[id].status != Ativa ==>
              && out == Done
              && db.reservas == old(db.reservas) - {id}
              && db.retiradas == DetachReserva(old(db.retiradas), id)
  {
    if id !in db.reservas {
      return NotFound;
    }
    if db.reservas[id].status == Ativa {
      return Conflict;
    }
    db.retiradas := DetachReserva(db.retiradas, id);
    db.reservas := db.reservas - {id};
    return Done;
  }
}
