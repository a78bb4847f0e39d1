/** `tb_reserva` rows, `TB_ReservaSchema` and its cross-field validator `validate_datas_horas`. */
module ReservaModel {
  import opened Schema
  import opened Calendar

  datatype Frequencia = Unica | Semanal | Quinzenal | Mensal
  datatype StatusReserva = Ativa | Cancelada | Finalizada

  /** The text stored in the `frequencia` column. */
  function FrequenciaName(f: Frequencia): string {
    match f
    case Unica => "única"
    case Semanal => "semanal"
    case Quinzenal => "quinzenal"
    case Mensal => "mensal"
  }

  /** `validate.OneOf(["única", "semanal", "quinzenal", "mensal"])`. */
  function ParseFrequencia(s: string): (r: Option<Frequencia>)
    ensures r.Some? ==> FrequenciaName(r.value) == s
  {
    if s == "única" then Some(Unica)
    else if s == "semanal" then Some(Semanal)
    else if s == "quinzenal" then Some(Quinzenal)
    else if s == "mensal" then Some(Mensal)
    else None
  }

  lemma ParseFrequenciaRoundTrip(f: Frequencia)
    ensures ParseFrequencia(FrequenciaName(f)) == Some(f)
  {
  }

  /** The text stored in the `status` column. */
  function StatusName(s: StatusReserva): string {
    match s
    case Ativa => "ativa"
    case Cancelada => "cancelada"
    case Finalizada => "finalizada"
  }

  /** `validate.OneOf(["ativa", "cancelada", "finalizada"])`. */
  function ParseStatus(s: string): (r: Option<StatusReserva>)
    ensures r.Some? ==> StatusName(r.value) == s
  {
    if s == "ativa" then Some(Ativa)
    else if s == "cancelada" then Some(Cancelada)
    else if s == "finalizada" then Some(Finalizada)
    else None
  }

  lemma ParseStatusRoundTrip(s: StatusReserva)
    ensures ParseStatus(StatusName(s)) == Some(s)
  {
  }

  /**
    A stored reservation. `dias` are its `tb_reserva_dia` rows (weekday numbers,
    in insertion order): each row belongs to this reservation alone, through a
    NOT NULL foreign key, and goes when the reservation goes (ON DELETE CASCADE
    and the delete-orphan relationship).
  */
  datatype Reserva = Reserva(
    salaId: int,
    responsavelId: int,
    horaInicio: Time,
    horaFim: Time,
    dataInicio: Date,
    dataFim: Date,
    frequencia: Frequencia,
    status: StatusReserva,
    dias: seq<int>)

  /** The request body `TB_ReservaSchema` reads; `reserva_id` is dump-only. */
  datatype ReservaPayload = ReservaPayload(
    salaId: Field<int>,
    responsavelId: Field<int>,
    horaInicio: Field<Time>,
    horaFim: Field<Time>,
    dataInicio: Field<Date>,
    dataFim: Field<Date>,
    frequencia: Field<string>,
    status: Field<string>,
    diasSemana: Field<seq<int>>)

  /** The dict `schema.load` returns: a key is present only when it was supplied. */
  datatype ReservaFields = ReservaFields(
    salaId: Option<int>,
    responsavelId: Option<int>,
    horaInicio: Option<Time>,
    horaFim: Option<Time>,
    dataInicio: Option<Date>,
    dataFim: Option<Date>,
    frequencia: Option<Frequencia>,
    status: Option<StatusReserva>,
    diasSemana: Option<seq<int>>)

  /** Every `dias_semana` entry lies in 1..7 (`validate.Range(min=1, max=7)` on each item). */
  predicate DiasValidos(dias: seq<int>) {
    forall i :: 0 <= i < |dias| ==> 1 <= dias[i] <= 7
  }

  predicate IsFrequencia(s: string) {
    ParseFrequencia(s).Some?
  }

  predicate IsStatus(s: string) {
    ParseStatus(s).Some?
  }

  /** The field rules of the schema, one set of names per load. */
  function ReservaFieldErrors(p: ReservaPayload, partial: bool): set<string> {
    Check("sala_id", p.salaId, true, false, partial, Positive)
    + Check("responsavel_id", p.responsavelId, true, false, partial, Positive)
    + Check("hora_inicio", p.horaInicio, true, false, partial, AnyValue)
    + Check("hora_fim", p.horaFim, true, false, partial, AnyValue)
    + Check("data_inicio", p.dataInicio, true, false, partial, AnyValue)
    + Check("data_fim", p.dataFim, true, false, partial, AnyValue)
    + Check("frequencia", p.frequencia, true, false, partial, IsFrequencia)
    + Check("status", p.status, true, false, partial, IsStatus)
    + Check("dias_semana", p.diasSemana, false, false, partial, DiasValidos)
  }

  function ParsedFields(p: ReservaPayload): ReservaFields {
    ReservaFields(
      Present(p.salaId), Present(p.responsavelId),
      Present(p.horaInicio), Present(p.horaFim),
      Present(p.dataInicio), Present(p.dataFim),
      if p.frequencia.Given? then ParseFrequencia(p.frequencia.value) else None,
      if p.status.Given? then ParseStatus(p.status.value) else None,
      Present(p.diasSemana))
  }

  /** The stored values a loaded dict may carry. */
  predicate ReservaFieldsValid(f: ReservaFields) {
    (f.salaId.Some? ==> Positive(f.salaId.value))
    && (f.responsavelId.Some? ==> Positive(f.responsavelId.value))
    && (f.diasSemana.Some? ==> DiasValidos(f.diasSemana.value))
  }

  predicate ReservaFieldsComplete(f: ReservaFields) {
    f.salaId.Some? && f.responsavelId.Some? && f.horaInicio.Some? && f.horaFim.Some?
    && f.dataInicio.Some? && f.dataFim.Some? && f.frequencia.Some? && f.status.Some?
  }

  /**
    The rules of `validate_datas_horas`, each read only when every field it
    mentions is in the dict; `today` and `now` are the clock readings
    `date.today()` and `datetime.now().time()`.
  */
  predicate DatasHorasOk(f: ReservaFields, today: Date, now: Time) {
    var dias := GetOr(f.diasSemana, []);
    (f.frequencia == Some(Unica) && f.dataInicio.Some? && f.dataFim.Some? ==> f.dataFim == f.dataInicio)
    && (f.dataInicio.Some? ==> !Before(f.dataInicio.value, today))
    && (f.dataInicio == Some(today) && f.horaInicio.Some? ==> f.horaInicio.value > now)
    && (f.horaInicio.Some? && f.horaFim.Some? ==> f.horaFim.value > f.horaInicio.value)
    && (f.dataInicio.Some? && f.dataFim.Some? ==> !Before(f.dataFim.value, f.dataInicio.value))
    && (f.frequencia != Some(Unica) && f.frequencia != Some(Mensal) ==>
          |dias| > 0 && (f.dataInicio.Some? ==> IsoWeekday(f.dataInicio.value) in dias))
  }

  /**
    `validate_datas_horas`: the rules in the order the validator raises, giving
    the field named by the first one broken.
  */
  function DatasHorasError(f: ReservaFields, today: Date, now: Time): (e: Option<string>)
    ensures e.None? <==> DatasHorasOk(f, today, now)
    ensures e.Some? ==> e.value in {"data_fim", "data_inicio", "hora_inicio", "hora_fim", "dias_semana"}
  {
    var dias := GetOr(f.diasSemana, []);
    if f.frequencia == Some(Unica) && f.dataFim.Some? && f.dataInicio.Some? && f.dataFim != f.dataInicio then
      Some("data_fim")
    else if f.dataInicio.Some? && Before(f.dataInicio.value, today) then
      Some("data_inicio")
    else if f.dataInicio.Some? && f.horaInicio.Some? && f.dataInicio.value == today && f.horaInicio.value <= now then
      Some("hora_inicio")
    else if f.horaInicio.Some? && f.horaFim.Some? && f.horaFim.value <= f.horaInicio.value then
      Some("hora_fim")
    else if f.dataInicio.Some? && f.dataFim.Some? && Before(f.dataFim.value, f.dataInicio.value) then
      Some("data_fim")
    else if f.frequencia != Some(Unica) && f.frequencia != Some(Mensal) && |dias| == 0 then
      Some("dias_semana")
    else if f.frequencia != Some(Unica) && f.frequencia != Some(Mensal) && f.dataInicio.Some?
            && IsoWeekday(f.dataInicio.value) !in dias then
      Some("dias_semana")
    else
      None
  }

  /** `TB_ReservaSchema().load(dados, partial=partial)` at `today`, `now`. */
  function LoadReserva(p: ReservaPayload, partial: bool, today: Date, now: Time): (r: Load<ReservaFields>)
    ensures r.Loaded? ==> r.value == ParsedFields(p)
    ensures r.Loaded? ==> ReservaFieldsValid(r.value) && DatasHorasOk(r.value, today, now)
    ensures r.Loaded? && !partial ==> ReservaFieldsComplete(r.value)
    ensures r.Loaded? <==> ReservaFieldErrors(p, partial) == {} && DatasHorasOk(ParsedFields(p), today, now)
    ensures r.Rejected? && ReservaFieldErrors(p, partial) != {} ==> r.errors == ReservaFieldErrors(p, partial)
    ensures r.Rejected? && ReservaFieldErrors(p, partial) == {} ==> |r.errors| == 1
  {
    var errors := ReservaFieldErrors(p, partial);
    if errors != {} then Rejected(errors)
    else
      var f := ParsedFields(p);
      match DatasHorasError(f, today, now)
      case Some(field) => Rejected({field})
      case None => Loaded(f)
  }

  /** The record `TB_Reserva(**validado)` builds, before any day row is attached. */
  function NewReserva(f: ReservaFields): (r: Reserva)
    requires ReservaFieldsComplete(f)
    ensures r.dias == []
    ensures r.salaId == f.salaId.value && r.responsavelId == f.responsavelId.value
    ensures r.dataInicio == f.dataInicio.value && r.dataFim == f.dataFim.value
    ensures r.horaInicio == f.horaInicio.value && r.horaFim == f.horaFim.value
    ensures r.frequencia == f.frequencia.value && r.status == f.status.value
  {
    Reserva(f.salaId.value, f.responsavelId.value, f.horaInicio.value, f.horaFim.value,
            f.dataInicio.value, f.dataFim.value, f.frequencia.value, f.status.value, [])
  }

  /** What every stored reservation satisfies: positive references and weekday rows in 1..7. */
  predicate ReservaWellFormed(r: Reserva) {
    Positive(r.salaId) && Positive(r.responsavelId) && DiasValidos(r.dias)
  }

  // ---------------------------------------------------------------------------
  // What a successful load guarantees.

  /** A loaded single-day reservation that carries both dates has them equal. */
  lemma UnicaLoadedHasOneDay(p: ReservaPayload, partial: bool, today: Date, now: Time)
    requires LoadReserva(p, partial, today, now).Loaded?
    requires LoadReserva(p, partial, today, now).value.frequencia == Some(Unica)
    requires p.dataInicio.Given? && p.dataFim.Given?
    ensures p.dataInicio.value == p.dataFim.value
  {
  }

  /** A loaded start date is never in the past, and today's start time is still ahead. */
  lemma LoadedStartNotPast(p: ReservaPayload, partial: bool, today: Date, now: Time)
    requires LoadReserva(p, partial, today, now).Loaded?
    requires p.dataInicio.Given?
    ensures AtOrBefore(today, p.dataInicio.value)
    ensures p.dataInicio.value == today && p.horaInicio.Given? ==> p.horaInicio.value > now
  {
  }

  /**
    A loaded weekly or fortnightly reservation names a non-empty weekday list
    that holds its start date's weekday.
  */
  lemma RecurringLoadedHasStartWeekday(p: ReservaPayload, partial: bool, today: Date, now: Time)
    requires LoadReserva(p, partial, today, now).Loaded?
    requires p.frequencia == Given("semanal") || p.frequencia == Given("quinzenal")
    requires p.dataInicio.Given?
    ensures p.diasSemana.Given? && |p.diasSemana.value| > 0
    ensures IsoWeekday(p.dataInicio.value) in p.diasSemana.value
  {
  }

  /**
    Under a partial load only the supplied fields are cross-checked: a body
    carrying nothing but an end time earlier than the stored start time is
    accepted, since `hora_inicio` is not in the dict.
  */
  lemma PartialLoadChecksOnlySupplied(today: Date, now: Time, horaFim: Time)
    ensures LoadReserva(
              ReservaPayload(Absent, Absent, Absent, Given(horaFim), Absent, Absent, Given("mensal"), Absent, Absent),
              true, today, now).Loaded?
  {
    var p := ReservaPayload(Absent, Absent, Absent, Given(horaFim), Absent, Absent, Given("mensal"), Absent, Absent);
    assert ParseFrequencia("mensal") == Some(Mensal);
    assert ReservaFieldErrors(p, true) == {};
  }
}
