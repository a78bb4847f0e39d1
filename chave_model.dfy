/** `tb_chave` rows and `TB_ChaveSchema`. */
module ChaveModel {
  import opened Schema

  /** A stored key: name, the room it opens and its availability flag. */
  datatype Chave = Chave(chaveNome: string, salaId: int, disponivel: bool)

  /** The request body `TB_ChaveSchema` reads; `chave_id` is dump-only and never taken from input. */
  datatype ChavePayload = ChavePayload(chaveNome: Field<string>, salaId: Field<int>, disponivel: Field<bool>)

  /** The dict `schema.load` returns. */
  datatype ChaveFields = ChaveFields(chaveNome: Option<string>, salaId: Option<int>, disponivel: Option<bool>)

  predicate ChaveWellFormed(c: Chave) {
    NameLength(c.chaveNome) && Positive(c.salaId)
  }

  predicate ChaveFieldsValid(f: ChaveFields) {
    (f.chaveNome.Some? ==> NameLength(f.chaveNome.value))
    && (f.salaId.Some? ==> Positive(f.salaId.value))
  }

  function ChaveErrors(p: ChavePayload, partial: bool): set<string> {
    Check("chave_nome", p.chaveNome, true, false, partial, NameLength)
    + Check("sala_id", p.salaId, true, false, partial, Positive)
    + Check("disponivel", p.disponivel, true, false, partial, AnyValue)
  }

  /** `TB_ChaveSchema().load(dados, partial=partial)`. */
  function LoadChave(p: ChavePayload, partial: bool): (r: Load<ChaveFields>)
    ensures r.Loaded? <==>
      Accepts(p.chaveNome, true, false, partial, NameLength)
      && Accepts(p.salaId, true, false, partial, Positive)
      && Accepts(p.disponivel, true, false, partial, AnyValue)
    ensures r.Loaded? ==> r.value == ChaveFields(Present(p.chaveNome), Present(p.salaId), Present(p.disponivel))
    ensures r.Loaded? ==> ChaveFieldsValid(r.value)
    ensures r.Loaded? && !partial ==> r.value.chaveNome.Some? && r.value.salaId.Some? && r.value.disponivel.Some?
    ensures r.Rejected? ==> r.errors != {} && r.errors <= {"chave_nome", "sala_id", "disponivel"}
    // every failing field is reported, and only those
    ensures r.Rejected? ==>
              && ("chave_nome" in r.errors <==> !Accepts(p.chaveNome, true, false, partial, NameLength))
              && ("sala_id" in r.errors <==> !Accepts(p.salaId, true, false, partial, Positive))
              && ("disponivel" in r.errors <==> !Accepts(p.disponivel, true, false, partial, AnyValue))
    ensures p.salaId.Given? && p.salaId.value <= 0 ==> r.Rejected? && "sala_id" in r.errors
  {
    var errors := ChaveErrors(p, partial);
    if errors == {} then Loaded(ChaveFields(Present(p.chaveNome), Present(p.salaId), Present(p.disponivel)))
    else Rejected(errors)
  }

  /** `TB_Chave(**validado)` after a full load. */
  function NewChave(f: ChaveFields): (c: Chave)
    requires f.chaveNome.Some? && f.salaId.Some? && f.disponivel.Some?
    requires ChaveFieldsValid(f)
    ensures ChaveWellFormed(c)
    ensures c.chaveNome == f.chaveNome.value && c.salaId == f.salaId.value && c.disponivel == f.disponivel.value
  {
    Chave(f.chaveNome.value, f.salaId.value, f.disponivel.value)
  }

  /** The `setattr` loop of an update: each loaded field replaces the stored one. */
  function ApplyChave(c: Chave, f: ChaveFields): Chave {
    Chave(GetOr(f.chaveNome, c.chaveNome), GetOr(f.salaId, c.salaId), GetOr(f.disponivel, c.disponivel))
  }

  /** An update changes exactly the supplied fields and keeps the key well formed. */
  lemma ApplyChaveChangesOnlySupplied(c: Chave, f: ChaveFields)
    requires ChaveWellFormed(c) && ChaveFieldsValid(f)
    ensures ChaveWellFormed(ApplyChave(c, f))
    ensures ApplyChave(c, f).chaveNome == (if f.chaveNome.Some? then f.chaveNome.value else c.chaveNome)
    ensures ApplyChave(c, f).salaId == (if f.salaId.Some? then f.salaId.value else c.salaId)
    ensures ApplyChave(c, f).disponivel == (if f.disponivel.Some? then f.disponivel.value else c.disponivel)
  {
  }
}
