/**
  `tb_retirada` rows (key checkouts), `TB_RetiradaSchema` and the module-level
  function `validate_retirada`. That function carries the `@validates_schema`
  decorator but sits outside the schema class, so marshmallow never runs it:
  `LoadRetirada` applies the field rules alone, and `ValidateRetirada` is the
  function on its own.
*/
module RetiradaModel {
  import opened Schema
  import opened Calendar

  datatype StatusRetirada = Retirada | Atrasada | Devolvida

  /** A checkout still out: 'retirada' or 'atrasada'. */
  predicate IsOpen(s: StatusRetirada) {
    s == Retirada || s == Atrasada
  }

  function StatusName(s: StatusRetirada): string {
    match s
    case Retirada => "retirada"
    case Atrasada => "atrasada"
    case Devolvida => "devolvida"
  }

  /** `validate.OneOf(["retirada", "atrasada", "devolvida"])`. */
  function ParseStatus(s: string): (r: Option<StatusRetirada>)
    ensures r.Some? ==> StatusName(r.value) == s
  {
    if s == "retirada" then Some(Retirada)
    else if s == "atrasada" then Some(Atrasada)
    else if s == "devolvida" then Some(Devolvida)
    else None
  }

  lemma ParseStatusRoundTrip(s: StatusRetirada)
    ensures ParseStatus(StatusName(s)) == Some(s)
  {
  }

  /** A stored checkout; `reservaId` and `horaDevolucao` are the nullable columns. */
  datatype Retirada = RetiradaRow(
    chaveId: int,
    responsavelId: int,
    reservaId: Option<int>,
    dataRetirada: Date,
    horaRetirada: Time,
    horaPrevistaDevolucao: Time,
    horaDevolucao: Option<Time>,
    status: StatusRetirada)

  /** The request body `TB_RetiradaSchema` reads; `retirada_id` is dump-only. */
  datatype RetiradaPayload = RetiradaPayload(
    chaveId: Field<int>,
    responsavelId: Field<int>,
    reservaId: Field<int>,
    dataRetirada: Field<Date>,
    horaRetirada: Field<Time>,
    horaPrevistaDevolucao: Field<Time>,
    horaDevolucao: Field<Time>,
    status: Field<string>)

  /** The dict `schema.load` returns; an explicit null `reserva_id` reads back as no reservation. */
  datatype RetiradaFields = RetiradaFields(
    chaveId: Option<int>,
    responsavelId: Option<int>,
    reservaId: Option<int>,
    dataRetirada: Option<Date>,
    horaRetirada: Option<Time>,
    horaPrevistaDevolucao: Option<Time>,
    horaDevolucao: Option<Time>,
    status: Option<StatusRetirada>)

  predicate IsStatus(s: string) {
    ParseStatus(s).Some?
  }

  function RetiradaFieldErrors(p: RetiradaPayload, partial: bool): set<string> {
    Check("chave_id", p.chaveId, true, false, partial, Positive)
    + Check("responsavel_id", p.responsavelId, true, false, partial, Positive)
    // `validate_positive` here lets None through; an explicit null is allowed by `allow_none`
    + Check("reserva_id", p.reservaId, false, true, partial, Positive)
    + Check("data_retirada", p.dataRetirada, true, false, partial, AnyValue)
    + Check("hora_retirada", p.horaRetirada, true, false, partial, AnyValue)
    + Check("hora_prevista_devolucao", p.horaPrevistaDevolucao, true, false, partial, AnyValue)
    + Check("hora_devolucao", p.horaDevolucao, false, false, partial, AnyValue)
    + Check("status", p.status, true, false, partial, IsStatus)
  }

  function ParsedFields(p: RetiradaPayload): RetiradaFields {
    RetiradaFields(
      Present(p.chaveId), Present(p.responsavelId), Present(p.reservaId),
      Present(p.dataRetirada), Present(p.horaRetirada), Present(p.horaPrevistaDevolucao),
      Present(p.horaDevolucao),
      if p.status.Given? then ParseStatus(p.status.value) else None)
  }

  predicate RetiradaFieldsValid(f: RetiradaFields) {
    (f.chaveId.Some? ==> Positive(f.chaveId.value))
    && (f.responsavelId.Some? ==> Positive(f.responsavelId.value))
    && (f.reservaId.Some? ==> Positive(f.reservaId.value))
  }

  predicate RetiradaFieldsComplete(f: RetiradaFields) {
    f.chaveId.Some? && f.responsavelId.Some? && f.dataRetirada.Some? && f.horaRetirada.Some?
    && f.horaPrevistaDevolucao.Some? && f.status.Some?
  }

  /** `TB_RetiradaSchema().load(dados, partial=partial)`: field rules only. */
  function LoadRetirada(p: RetiradaPayload, partial: bool): (r: Load<RetiradaFields>)
    ensures r.Loaded? <==> RetiradaFieldErrors(p, partial) == {}
    ensures r.Loaded? ==> r.value == ParsedFields(p) && RetiradaFieldsValid(r.value)
    ensures r.Loaded? && !partial ==> RetiradaFieldsComplete(r.value)
    ensures r.Rejected? ==> r.errors == RetiradaFieldErrors(p, partial) && r.errors != {}
  {
    var errors := RetiradaFieldErrors(p, partial);
    if errors == {} then Loaded(ParsedFields(p)) else Rejected(errors)
  }

  /** A stored checkout written through the schema: positive references. */
  predicate RetiradaWellFormed(r: Retirada) {
    Positive(r.chaveId) && Positive(r.responsavelId) && (r.reservaId.Some? ==> Positive(r.reservaId.value))
  }

  /** `TB_Retirada(**validado)` after a full load: the status is the one submitted. */
  function NewRetirada(f: RetiradaFields): (r: Retirada)
    requires RetiradaFieldsComplete(f) && RetiradaFieldsValid(f)
    ensures RetiradaWellFormed(r)
    ensures r.status == f.status.value && r.horaDevolucao == f.horaDevolucao
    ensures r.chaveId == f.chaveId.value && r.reservaId == f.reservaId
    ensures r.responsavelId == f.responsavelId.value && r.dataRetirada == f.dataRetirada.value
    ensures r.horaRetirada == f.horaRetirada.value && r.horaPrevistaDevolucao == f.horaPrevistaDevolucao.value
  {
    RetiradaRow(f.chaveId.value, f.responsavelId.value, f.reservaId, f.dataRetirada.value,
                f.horaRetirada.value, f.horaPrevistaDevolucao.value, f.horaDevolucao, f.status.value)
  }

  /** A `reserva_id` of 0 never gets through the load, so the resource's 0 -> None step never fires. */
  lemma ZeroReservaIdRejected(p: RetiradaPayload, partial: bool)
    requires p.reservaId == Given(0)
    ensures LoadRetirada(p, partial).Rejected?
    ensures "reserva_id" in LoadRetirada(p, partial).errors
  {
  }

  // ---------------------------------------------------------------------------
  // `validate_retirada`, which the schema never calls.

  /**
    The rules of `validate_retirada` in the order it raises, giving the field
    named by the first one broken. `today` and `now` are `date.today()` and
    `datetime.now()` (at minute resolution).
  */
  function ValidateRetirada(f: RetiradaFields, partial: bool, today: Date, now: Time): (e: Option<string>)
    ensures e.Some? ==> e.value in {"status", "data_retirada", "hora_retirada", "hora_prevista_devolucao", "hora_devolucao"}
    // the status rule is checked first, then the date rule
    ensures e == Some("status") <==> !partial && f.status != Some(Retirada)
    ensures e == Some("data_retirada") <==>
              (partial || f.status == Some(Retirada)) && f.dataRetirada.Some? && f.dataRetirada.value != today
  {
    var agora := Moment(today, now);
    if !partial && f.status != Some(Retirada) then Some("status")
    else if f.dataRetirada.Some? && f.dataRetirada.value != today then Some("data_retirada")
    else if f.dataRetirada.Some? && Before(today, f.dataRetirada.value) then Some("data_retirada")
    else if f.dataRetirada == Some(today) && f.horaRetirada.Some? && Moment(today, f.horaRetirada.value) < agora - 10 then
      Some("hora_retirada")
    else if f.dataRetirada == Some(today) && f.horaRetirada.Some? && Moment(today, f.horaRetirada.value) < agora - 5 then
      Some("hora_retirada")
    else if f.horaRetirada.Some? && f.horaPrevistaDevolucao.Some? && f.horaPrevistaDevolucao.value <= f.horaRetirada.value then
      Some("hora_prevista_devolucao")
    else if f.horaDevolucao.Some? && f.horaRetirada.Some? && f.horaDevolucao.value < f.horaRetirada.value then
      Some("hora_devolucao")
    else if !partial && f.horaDevolucao.Some? then Some("hora_devolucao")
    else if f.status == Some(Devolvida) && f.horaDevolucao.None? then Some("hora_devolucao")
    else if f.status != Some(Devolvida) && f.horaDevolucao.Some? then Some("hora_devolucao")
    else None
  }

  /**
    The rules `validate_retirada` states, read each on its own: a full load is
    a new checkout (status `retirada`, no return time); the checkout is today,
    at most five minutes in the past; the expected return is after the
    checkout, and an actual return not before it; and a checkout is returned
    exactly when it has a return time.
  */
  predicate RetiradaRules(f: RetiradaFields, partial: bool, today: Date, now: Time) {
    && (!partial ==> f.status == Some(Retirada) && f.horaDevolucao.None?)
    && (f.dataRetirada.Some? ==> f.dataRetirada.value == today)
    && (f.dataRetirada.Some? && f.horaRetirada.Some? ==> Moment(today, f.horaRetirada.value) >= Moment(today, now) - 5)
    && (f.horaRetirada.Some? && f.horaPrevistaDevolucao.Some? ==> f.horaPrevistaDevolucao.value > f.horaRetirada.value)
    && (f.horaRetirada.Some? && f.horaDevolucao.Some? ==> f.horaDevolucao.value >= f.horaRetirada.value)
    && (f.status == Some(Devolvida) <==> f.horaDevolucao.Some?)
  }

  /** Passing `validate_retirada` means exactly that every one of its rules holds. */
  lemma ValidateRetiradaMeaning(f: RetiradaFields, partial: bool, today: Date, now: Time)
    ensures ValidateRetirada(f, partial, today, now).None? <==> RetiradaRules(f, partial, today, now)
  {
  }

  /**
    The same validator without its two dead checks: the future-date test
    (a date equal to today is never after it) and the 10-minute test (the
    5-minute test rejects everything it would, naming the same field).
  */
  function ValidateRetiradaEffective(f: RetiradaFields, partial: bool, today: Date, now: Time): Option<string> {
    var agora := Moment(today, now);
    if !partial && f.status != Some(Retirada) then Some("status")
    else if f.dataRetirada.Some? && f.dataRetirada.value != today then Some("data_retirada")
    else if f.dataRetirada == Some(today) && f.horaRetirada.Some? && Moment(today, f.horaRetirada.value) < agora - 5 then
      Some("hora_retirada")
    else if f.horaRetirada.Some? && f.horaPrevistaDevolucao.Some? && f.horaPrevistaDevolucao.value <= f.horaRetirada.value then
      Some("hora_prevista_devolucao")
    else if f.horaDevolucao.Some? && f.horaRetirada.Some? && f.horaDevolucao.value < f.horaRetirada.value then
      Some("hora_devolucao")
    else if !partial && f.horaDevolucao.Some? then Some("hora_devolucao")
    else if f.status == Some(Devolvida) && f.horaDevolucao.None? then Some("hora_devolucao")
    else if f.status != Some(Devolvida) && f.horaDevolucao.Some? then Some("hora_devolucao")
    else None
  }

  lemma DeadChecksNeverDecide(f: RetiradaFields, partial: bool, today: Date, now: Time)
    ensures ValidateRetirada(f, partial, today, now) == ValidateRetiradaEffective(f, partial, today, now)
  {
  }
}
