/** `tb_reserva_dia` rows and `TB_ReservaDiaSchema`. */
module ReservaDiaModel {
  import opened Schema
  import opened ReservaModel

  /** One weekday row: the reservation it belongs to (NOT NULL foreign key) and the weekday. */
  datatype ReservaDia = ReservaDia(reservaId: int, diaSemana: int)

  /** The request body `TB_ReservaDiaSchema` reads; `reserva_dia_id` is dump-only. */
  datatype ReservaDiaPayload = ReservaDiaPayload(reservaId: Field<int>, diaSemana: Field<int>)

  predicate DiaSemanaValido(d: int) {
    1 <= d <= 7
  }

  /** `TB_ReservaDiaSchema().load(dados, partial=partial)`: the names of the fields in error. */
  function ReservaDiaErrors(p: ReservaDiaPayload, partial: bool): (e: set<string>)
    ensures e <= {"reserva_id", "dia_semana"}
    ensures "dia_semana" !in e <==> Accepts(p.diaSemana, true, false, partial, DiaSemanaValido)
    ensures "reserva_id" !in e <==> Accepts(p.reservaId, true, false, partial, Positive)
  {
    Check("reserva_id", p.reservaId, true, false, partial, Positive)
    + Check("dia_semana", p.diaSemana, true, false, partial, DiaSemanaValido)
  }

  /**
    The weekday rows stored for reservation `reservaId`, one per entry of its
    day list; under a database id, every row of a well-formed reservation
    passes `TB_ReservaDiaSchema`.
  */
  function DayRows(reservaId: int, r: Reserva): (rows: seq<ReservaDia>)
    ensures |rows| == |r.dias|
    ensures forall i :: 0 <= i < |rows| ==> rows[i] == ReservaDia(reservaId, r.dias[i])
    ensures reservaId > 0 && ReservaWellFormed(r) ==>
              forall i :: 0 <= i < |rows| ==>
                ReservaDiaErrors(ReservaDiaPayload(Given(rows[i].reservaId), Given(rows[i].diaSemana)), false) == {}
  {
    seq(|r.dias|, i requires 0 <= i < |r.dias| => ReservaDia(reservaId, r.dias[i]))
  }
}
