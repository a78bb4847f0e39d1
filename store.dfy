/**
  The relational store behind the resources: one table per entity, keyed by
  its autoincrement id. A request either commits all its changes or none of
  them, so each request is modelled as one step on this object.
*/
module Store {
  import opened Schema
  import opened SalaModel
  import opened ChaveModel
  import opened ResponsavelModel
  import opened ReservaModel
  import opened RetiradaModel

  /** Every id in the table was already handed out by the table's sequence. */
  ghost predicate IdsBelow<T>(m: map<int, T>, next: int) {
    1 <= next && forall k :: k in m ==> 1 <= k < next
  }

  class Database {
    var salas: map<int, Sala>
    var chaves: map<int, Chave>
    var responsaveis: map<int, Responsavel>
    var reservas: map<int, Reserva>
    var retiradas: map<int, Retirada>

    // the next value of each table's id sequence
    var nextSalaId: int
    var nextChaveId: int
    var nextResponsavelId: int
    var nextReservaId: int
    var nextRetiradaId: int

    /**
      Ids come from the sequences, every stored row satisfies the field rules
      of the schema it was written through, and every reference names a stored
      row: the foreign keys of the tables, which the database enforces at
      commit.
    */
    ghost predicate Valid()
      reads this
    {
      && IdsBelow(salas, nextSalaId)
      && IdsBelow(chaves, nextChaveId)
      && IdsBelow(responsaveis, nextResponsavelId)
      && IdsBelow(reservas, nextReservaId)
      && IdsBelow(retiradas, nextRetiradaId)
      && (forall k :: k in salas ==> SalaWellFormed(salas[k]))
      && (forall k :: k in chaves ==> ChaveWellFormed(chaves[k]))
      && (forall k :: k in reservas ==> ReservaWellFormed(reservas[k]))
      && (forall k :: k in retiradas ==> RetiradaWellFormed(retiradas[k]))
      && ReferencesResolve(salas, chaves, responsaveis, reservas, retiradas)
    }

    constructor ()
      ensures Valid()
      ensures salas == map[] && chaves == map[] && responsaveis == map[]
      ensures reservas == map[] && retiradas == map[]
    {
      salas, chaves, responsaveis, reservas, retiradas := map[], map[], map[], map[], map[];
      nextSalaId, nextChaveId, nextResponsavelId, nextReservaId, nextRetiradaId := 1, 1, 1, 1, 1;
    }
  }

  /**
    The foreign keys: a key's room (models/TB_Chave.py), a reservation's room
    and responsável (models/TB_Reserva.py), a checkout's key, responsável and
    optional reservation (models/TB_Retirada.py).
  */
  ghost predicate ReferencesResolve(
    salas: map<int, Sala>, chaves: map<int, Chave>, responsaveis: map<int, Responsavel>,
    reservas: map<int, Reserva>, retiradas: map<int, Retirada>)
  {
    && (forall k :: k in chaves ==> chaves[k].salaId in salas)
    && (forall k :: k in reservas ==> reservas[k].salaId in salas && reservas[k].responsavelId in responsaveis)
    && (forall k :: k in retiradas ==>
          && retiradas[k].chaveId in chaves
          && retiradas[k].responsavelId in responsaveis
          && (retiradas[k].reservaId.Some? ==> retiradas[k].reservaId.value in reservas))
  }

  /** `db.session.get(Model, id)`: the row, or nothing. */
  function Lookup<T>(m: map<int, T>, id: int): (r: Option<T>)
    ensures r.Some? <==> id in m
    ensures r.Some? ==> r.value == m[id]
  {
    if id in m then Some(m[id]) else None
  }

  /** The ids of a table below `next`, in ascending order (`ORDER BY <id>`). */
  function OrderedIds<T>(m: map<int, T>, next: int): (ids: seq<int>)
    decreases next
  {
    if next <= 1 then []
    else OrderedIds(m, next - 1) + (if next - 1 in m then [next - 1] else [])
  }

  /** Strictly ascending. */
  predicate Ascending(ids: seq<int>) {
    forall i, j :: 0 <= i < j < |ids| ==> ids[i] < ids[j]
  }

  /** The ordered listing holds exactly the ids of the table in `[1, next)`, in ascending order. */
  lemma {:induction false} OrderedIdsBelow<T>(m: map<int, T>, next: int)
    ensures Ascending(OrderedIds(m, next))
    ensures forall k :: k in OrderedIds(m, next) <==> k in m && 1 <= k < next
    decreases next
  {
    if next > 1 {
      OrderedIdsBelow(m, next - 1);
      var prefix := OrderedIds(m, next - 1);
      assert forall i :: 0 <= i < |prefix| ==> prefix[i] < next - 1 by {
        forall i | 0 <= i < |prefix| ensures prefix[i] < next - 1 {
          assert prefix[i] in prefix;
        }
      }
    }
  }

  /** With every id handed out by the sequence, the listing is the whole table. */
  lemma OrderedIdsListsTable<T>(m: map<int, T>, next: int)
    requires IdsBelow(m, next)
    ensures Ascending(OrderedIds(m, next))
    ensures forall k :: k in m <==> k in OrderedIds(m, next)
  {
    OrderedIdsBelow(m, next);
  }

  /** A table read in id order (`ORDER BY <id>`), as id and row pairs. */
  function Rows<T>(m: map<int, T>, next: int): (rows: seq<(int, T)>)
    ensures |rows| == |OrderedIds(m, next)|
    ensures forall i :: 0 <= i < |rows| ==>
              rows[i].0 == OrderedIds(m, next)[i] && rows[i].0 in m && rows[i].1 == m[rows[i].0]
  {
    OrderedIdsBelow(m, next);
    var ids := OrderedIds(m, next);
    assert forall i :: 0 <= i < |ids| ==> ids[i] in m by {
      forall i | 0 <= i < |ids| ensures ids[i] in m {
        assert ids[i] in ids;
      }
    }
    seq(|ids|, i requires 0 <= i < |ids| => (ids[i], m[ids[i]]))
  }
}
