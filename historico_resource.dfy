/**
  The checkout history: `HistoricoResource.get` and `HistoricoByIdResource.get`.
  Both are one SELECT over returned checkouts joined to their key, the key's
  room and the responsável; the listing adds the optional filters of the
  query string and orders the rows from the latest checkout to the earliest.
*/
module HistoricoResource {
  import opened Schema
  import opened Calendar
  import opened SalaModel
  import opened ChaveModel
  import opened ResponsavelModel
  import opened RetiradaModel
  import opened Store

  /** One joined row of the history, with the columns the SELECT lists. */
  datatype HistoricoRow = HistoricoRow(
    retiradaId: int,
    dataRetirada: Date,
    horaRetirada: Time,
    horaPrevistaDevolucao: Time,
    horaDevolucao: Option<Time>,
    status: StatusRetirada,
    salaId: int,
    salaNome: string,
    chaveId: int,
    chaveNome: string,
    responsavelId: int,
    responsavelNome: string)

  /**
    The query-string filters. A missing or empty argument is no filter, so
    `None` stands for both.
  */
  datatype Filtros = Filtros(salaId: Option<int>, responsavelId: Option<int>, responsavelNome: Option<string>)

  // ---------------------------------------------------------------------------
  // The name filter: `LOWER(nome) LIKE '%' || lower(q) || '%'`.

  /** ASCII lower case, as `str.lower` and SQL `LOWER` act on ASCII letters. */
  function Lower(s: string): (r: string)
    ensures |r| == |s|
    ensures forall i :: 0 <= i < |s| ==>
              r[i] == (if 'A' <= s[i] <= 'Z' then (s[i] as int + 32) as char else s[i])
  {
    if s == [] then []
    else [if 'A' <= s[0] <= 'Z' then (s[0] as int + 32) as char else s[0]] + Lower(s[1..])
  }

  /** No `LIKE` wildcard in the text. */
  predicate Literal(q: string) {
    forall i :: 0 <= i < |q| ==> q[i] != '%' && q[i] != '_'
  }

  /** SQL `LIKE`: `%` matches any run of characters, `_` exactly one, any other character itself. */
  function Like(s: string, pattern: string): (b: bool)
    // a pattern without wildcards matches only itself
    ensures Literal(pattern) ==> (b <==> s == pattern)
    decreases |s| + |pattern|
  {
    if pattern == [] then s == []
    else if pattern[0] == '%' then Like(s, pattern[1..]) || (s != [] && Like(s[1..], pattern))
    else if pattern[0] == '_' then s != [] && Like(s[1..], pattern[1..])
    else s != [] && s[0] == pattern[0] && Like(s[1..], pattern[1..])
  }

  /** `q` occurs in `s` at some position. */
  predicate Contains(s: string, q: string) {
    exists i :: 0 <= i <= |s| && q <= s[i..]
  }

  /** A lone `%` matches every string. */
  lemma {:induction false} PercentMatchesAll(s: string)
    ensures Like(s, "%")
    decreases |s|
  {
    if s != [] {
      PercentMatchesAll(s[1..]);
    }
  }

  /** A wildcard-free text followed by `%` matches exactly the strings it starts. */
  lemma {:induction false} LiteralThenPercent(s: string, q: string)
    requires Literal(q)
    ensures Like(s, q + "%") <==> q <= s
    decreases |q|
  {
    if q == [] {
      assert q + "%" == "%";
      PercentMatchesAll(s);
    } else {
      assert (q + "%")[1..] == q[1..] + "%";
      if s != [] {
        LiteralThenPercent(s[1..], q[1..]);
      }
    }
  }

  /** A match of a leading `%` pattern leaves a suffix, at `i`, that the rest of the pattern matches. */
  lemma {:induction false} LeadingPercentSuffix(s: string, rest: string) returns (i: int)
    requires Like(s, "%" + rest)
    ensures 0 <= i <= |s| && Like(s[i..], rest)
    decreases |s|
  {
    assert ("%" + rest)[1..] == rest;
    if Like(s, rest) {
      i := 0;
      assert s[0..] == s;
    } else {
      var j := LeadingPercentSuffix(s[1..], rest);
      i := j + 1;
      assert s[1..][j..] == s[i..];
    }
  }

  /** A suffix, at `i`, that the rest of the pattern matches gives a match of the leading `%` pattern. */
  lemma {:induction false} SuffixLeadingPercent(s: string, rest: string, i: int)
    requires 0 <= i <= |s| && Like(s[i..], rest)
    ensures Like(s, "%" + rest)
    decreases i
  {
    assert ("%" + rest)[1..] == rest;
    if i == 0 {
      assert s[0..] == s;
    } else {
      assert s[1..][i - 1..] == s[i..];
      SuffixLeadingPercent(s[1..], rest, i - 1);
    }
  }

  /** Without wildcards in the search text, the name filter is a substring test. */
  lemma NameFilterIsSubstring(nome: string, q: string)
    requires Literal(q)
    ensures Like(nome, "%" + q + "%") <==> Contains(nome, q)
  {
    assert "%" + q + "%" == "%" + (q + "%");
    if Like(nome, "%" + (q + "%")) {
      var i := LeadingPercentSuffix(nome, q + "%");
      LiteralThenPercent(nome[i..], q);
    }
    if Contains(nome, q) {
      var i :| 0 <= i <= |nome| && q <= nome[i..];
      LiteralThenPercent(nome[i..], q);
      SuffixLeadingPercent(nome, q + "%", i);
    }
  }

  // ---------------------------------------------------------------------------
  // The join and the filters.

  /** A checkout the SELECT returns: returned, with its key, the key's room and its responsável all present. */
  predicate Joined(salas: map<int, Sala>, chaves: map<int, Chave>, responsaveis: map<int, Responsavel>, r: Retirada) {
    && r.status == Devolvida
    && r.chaveId in chaves
    && chaves[r.chaveId].salaId in salas
    && r.responsavelId in responsaveis
  }

  /** The row the SELECT builds for a joined checkout. */
  function JoinRow(salas: map<int, Sala>, chaves: map<int, Chave>, responsaveis: map<int, Responsavel>,
                   id: int, r: Retirada): (h: HistoricoRow)
    requires Joined(salas, chaves, responsaveis, r)
    ensures h.retiradaId == id && h.status == Devolvida
    ensures h.chaveId == r.chaveId && h.responsavelId == r.responsavelId
    ensures h.salaId == chaves[r.chaveId].salaId
    ensures h.dataRetirada == r.dataRetirada && h.horaRetirada == r.horaRetirada
    ensures h.horaPrevistaDevolucao == r.horaPrevistaDevolucao && h.horaDevolucao == r.horaDevolucao
    ensures h.salaNome == salas[chaves[r.chaveId].salaId].salaNome
    ensures h.chaveNome == chaves[r.chaveId].chaveNome
    ensures h.responsavelNome == responsaveis[r.responsavelId].responsavelNome
  {
    var chave := chaves[r.chaveId];
    HistoricoRow(id, r.dataRetirada, r.horaRetirada, r.horaPrevistaDevolucao, r.horaDevolucao, r.status,
                 chave.salaId, salas[chave.salaId].salaNome, r.chaveId, chave.chaveNome,
                 r.responsavelId, responsaveis[r.responsavelId].responsavelNome)
  }

  /** The WHERE clause of the listing: joined, and every given filter holds. */
  predicate Selected(salas: map<int, Sala>, chaves: map<int, Chave>, responsaveis: map<int, Responsavel>,
                     r: Retirada, filtros: Filtros)
  {
    && Joined(salas, chaves, responsaveis, r)
    && (filtros.salaId.Some? ==> chaves[r.chaveId].salaId == filtros.salaId.value)
    && (filtros.responsavelId.Some? ==> r.responsavelId == filtros.responsavelId.value)
    && (filtros.responsavelNome.Some? ==>
          Like(Lower(responsaveis[r.responsavelId].responsavelNome), "%" + Lower(filtros.responsavelNome.value) + "%"))
  }

  /** The joined rows of the checkouts in `rows` that the WHERE clause keeps, in the order given. */
  function Candidatos(salas: map<int, Sala>, chaves: map<int, Chave>, responsaveis: map<int, Responsavel>,
                      rows: seq<(int, Retirada)>, filtros: Filtros): (r: seq<HistoricoRow>)
    ensures forall h :: h in r ==>
              exists i :: 0 <= i < |rows| && Selected(salas, chaves, responsaveis, rows[i].1, filtros)
                          && h == JoinRow(salas, chaves, responsaveis, rows[i].0, rows[i].1)
    ensures forall i :: 0 <= i < |rows| && Selected(salas, chaves, responsaveis, rows[i].1, filtros) ==>
              JoinRow(salas, chaves, responsaveis, rows[i].0, rows[i].1) in r
  {
    if rows == [] then []
    else
      var rest := Candidatos(salas, chaves, responsaveis, rows[1..], filtros);
      assert forall i :: 1 <= i < |rows| ==> rows[i] == rows[1..][i - 1];
      if Selected(salas, chaves, responsaveis, rows[0].1, filtros)
      then [JoinRow(salas, chaves, responsaveis, rows[0].0, rows[0].1)] + rest
      else rest
  }

  // ---------------------------------------------------------------------------
  // `ORDER BY data_retirada DESC, hora_retirada DESC`.

  /** `a` may come before `b`: its checkout moment is not earlier. */
  predicate NotEarlier(a: HistoricoRow, b: HistoricoRow) {
    Moment(a.dataRetirada, a.horaRetirada) >= Moment(b.dataRetirada, b.horaRetirada)
  }

  predicate Descending(s: seq<HistoricoRow>) {
    forall i, j :: 0 <= i < j < |s| ==> NotEarlier(s[i], s[j])
  }

  /** `NotEarlier` is the order of the ORDER BY: the later date first, on the same date the later time first. */
  lemma NotEarlierIsOrderBy(a: HistoricoRow, b: HistoricoRow)
    ensures NotEarlier(a, b) <==>
              Before(b.dataRetirada, a.dataRetirada)
              || (a.dataRetirada == b.dataRetirada && a.horaRetirada >= b.horaRetirada)
  {
    MomentOrder(a.dataRetirada, a.horaRetirada, b.dataRetirada, b.horaRetirada);
  }

  /** Puts `x` into a descending sequence after every row not earlier than it. */
  function Insert(x: HistoricoRow, s: seq<HistoricoRow>): (r: seq<HistoricoRow>)
    requires Descending(s)
    ensures Descending(r)
    ensures multiset(r) == multiset(s) + multiset{x}
  {
    if s == [] then [x]
    else if NotEarlier(x, s[0]) then [x] + s
    else
      var rest := Insert(x, s[1..]);
      assert s == [s[0]] + s[1..];
      assert forall i :: 0 <= i < |rest| ==> NotEarlier(s[0], rest[i]) by {
        forall i | 0 <= i < |rest|
          ensures NotEarlier(s[0], rest[i])
        {
          var y := rest[i];
          assert y in multiset(rest);
          if y != x {
            assert y in multiset(s[1..]);
            var j :| 0 <= j < |s[1..]| && s[1..][j] == y;
            assert s[j + 1] == y;
          }
        }
      }
      [s[0]] + rest
  }

  /** The rows in ORDER BY order; rows at the same moment keep their relative order. */
  function SortDesc(s: seq<HistoricoRow>): (r: seq<HistoricoRow>)
    ensures Descending(r)
    ensures multiset(r) == multiset(s)
  {
    if s == [] then []
    else
      assert s == [s[0]] + s[1..];
      Insert(s[0], SortDesc(s[1..]))
  }

  // ---------------------------------------------------------------------------
  // The endpoints.

  /**
    `GET /historico`: the joined rows the filters keep, latest first. The
    checkouts are gathered in id order before the sort; the database leaves the
    order of rows at the same moment unspecified.
  */
  function Historico(salas: map<int, Sala>, chaves: map<int, Chave>, responsaveis: map<int, Responsavel>,
                     retiradas: map<int, Retirada>, next: int, filtros: Filtros): (r: seq<HistoricoRow>)
    ensures Descending(r)
    ensures multiset(r) == multiset(Candidatos(salas, chaves, responsaveis, Rows(retiradas, next), filtros))
  {
    SortDesc(Candidatos(salas, chaves, responsaveis, Rows(retiradas, next), filtros))
  }

  /** The history lists exactly the joined rows of the checkouts the filters keep. */
  lemma HistoricoListsSelected(salas: map<int, Sala>, chaves: map<int, Chave>, responsaveis: map<int, Responsavel>,
                               retiradas: map<int, Retirada>, next: int, filtros: Filtros, h: HistoricoRow)
    requires IdsBelow(retiradas, next)
    ensures h in Historico(salas, chaves, responsaveis, retiradas, next, filtros) <==>
              exists k :: k in retiradas && Selected(salas, chaves, responsaveis, retiradas[k], filtros)
                          && h == JoinRow(salas, chaves, responsaveis, k, retiradas[k])
  {
    var rows := Rows(retiradas, next);
    var c := Candidatos(salas, chaves, responsaveis, rows, filtros);
    var r := Historico(salas, chaves, responsaveis, retiradas, next, filtros);
    assert h in r <==> h in c by {
      assert h in r <==> h in multiset(r);
      assert h in c <==> h in multiset(c);
    }
    if exists k :: k in retiradas && Selected(salas, chaves, responsaveis, retiradas[k], filtros)
                   && h == JoinRow(salas, chaves, responsaveis, k, retiradas[k]) {
      var k :| k in retiradas && Selected(salas, chaves, responsaveis, retiradas[k], filtros)
               && h == JoinRow(salas, chaves, responsaveis, k, retiradas[k]);
      OrderedIdsListsTable(retiradas, next);
      var ids := OrderedIds(retiradas, next);
      var i :| 0 <= i < |ids| && ids[i] == k;
      assert rows[i] == (k, retiradas[k]);
    }
  }

  /** Every row of the history is a returned checkout, and matches each filter that was given. */
  lemma HistoricoRowsMatchFilters(salas: map<int, Sala>, chaves: map<int, Chave>, responsaveis: map<int, Responsavel>,
                                  retiradas: map<int, Retirada>, next: int, filtros: Filtros, h: HistoricoRow)
    requires IdsBelow(retiradas, next)
    requires h in Historico(salas, chaves, responsaveis, retiradas, next, filtros)
    ensures h.status == Devolvida && h.retiradaId in retiradas
    ensures filtros.salaId.Some? ==> h.salaId == filtros.salaId.value
    ensures filtros.responsavelId.Some? ==> h.responsavelId == filtros.responsavelId.value
    ensures filtros.responsavelNome.Some? ==>
              Like(Lower(h.responsavelNome), "%" + Lower(filtros.responsavelNome.value) + "%")
  {
    HistoricoListsSelected(salas, chaves, responsaveis, retiradas, next, filtros, h);
  }

  /**
    `GET /historico/<id>`: the joined row of that checkout when it is returned
    and its key, room and responsável exist; otherwise 404 (`None`).
  */
  function HistoricoById(salas: map<int, Sala>, chaves: map<int, Chave>, responsaveis: map<int, Responsavel>,
                         retiradas: map<int, Retirada>, id: int): (r: Option<HistoricoRow>)
    ensures r.Some? <==> id in retiradas && Joined(salas, chaves, responsaveis, retiradas[id])
    ensures r.Some? ==> r.value == JoinRow(salas, chaves, responsaveis, id, retiradas[id])
  {
    if id in retiradas && Joined(salas, chaves, responsaveis, retiradas[id])
    then Some(JoinRow(salas, chaves, responsaveis, id, retiradas[id]))
    else None
  }

  /**
    The lookup by id finds a row exactly when the unfiltered listing has a row
    for that checkout, and then it is that row.
  */
  lemma ByIdAgreesWithListing(salas: map<int, Sala>, chaves: map<int, Chave>, responsaveis: map<int, Responsavel>,
                              retiradas: map<int, Retirada>, next: int, id: int)
    requires IdsBelow(retiradas, next)
    ensures var byId := HistoricoById(salas, chaves, responsaveis, retiradas, id);
            var listing := Historico(salas, chaves, responsaveis, retiradas, next, Filtros(None, None, None));
            && (byId.Some? <==> exists h :: h in listing && h.retiradaId == id)
            && (byId.Some? ==> byId.value in listing)
            && (forall h :: h in listing && h.retiradaId == id ==> byId == Some(h))
  {
    var byId := HistoricoById(salas, chaves, responsaveis, retiradas, id);
    var listing := Historico(salas, chaves, responsaveis, retiradas, next, Filtros(None, None, None));
    if byId.Some? {
      HistoricoListsSelected(salas, chaves, responsaveis, retiradas, next, Filtros(None, None, None), byId.value);
    }
    forall h | h in listing && h.retiradaId == id
      ensures byId == Some(h)
    {
      HistoricoListsSelected(salas, chaves, responsaveis, retiradas, next, Filtros(None, None, None), h);
    }
  }

  /** In a consistent store every returned checkout appears in the unfiltered history. */
  lemma EveryReturnedCheckoutListed(db: Database, id: int)
    requires db.Valid()
    requires id in db.retiradas && db.retiradas[id].status == Devolvida
    ensures HistoricoById(db.salas, db.chaves, db.responsaveis, db.retiradas, id).Some?
    ensures HistoricoById(db.salas, db.chaves, db.responsaveis, db.retiradas, id).value
            in Historico(db.salas, db.chaves, db.responsaveis, db.retiradas, db.nextRetiradaId, Filtros(None, None, None))
  {
    ByIdAgreesWithListing(db.salas, db.chaves, db.responsaveis, db.retiradas, db.nextRetiradaId, id);
  }
}
