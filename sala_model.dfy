/** `tb_sala` rows and `TB_SalaSchema`. */
module SalaModel {
  import opened Schema

  /** A stored room: both columns are NOT NULL, so a stored room always has a name and a flag. */
  datatype Sala = Sala(salaNome: string, disponivel: bool)

  /** The request body `TB_SalaSchema` reads; `sala_id` is dump-only and never taken from input. */
  datatype SalaPayload = SalaPayload(salaNome: Field<string>, disponivel: Field<bool>)

  /** The dict `schema.load` returns. */
  datatype SalaFields = SalaFields(salaNome: Option<string>, disponivel: Option<bool>)

  /** What every room written through the schema satisfies. */
  predicate SalaWellFormed(s: Sala) {
    NameLength(s.salaNome)
  }

  predicate SalaFieldsValid(f: SalaFields) {
    f.salaNome.Some? ==> NameLength(f.salaNome.value)
  }

  function SalaErrors(p: SalaPayload, partial: bool): set<string> {
    Check("sala_nome", p.salaNome, true, false, partial, NameLength)
    + Check("disponivel", p.disponivel, true, false, partial, AnyValue)
  }

  /** `TB_SalaSchema().load(dados, partial=partial)`. */
  function LoadSala(p: SalaPayload, partial: bool): (r: Load<SalaFields>)
    ensures r.Loaded? <==>
      Accepts(p.salaNome, true, false, partial, NameLength) && Accepts(p.disponivel, true, false, partial, AnyValue)
    ensures r.Loaded? ==> r.value == SalaFields(Present(p.salaNome), Present(p.disponivel))
    ensures r.Loaded? ==> SalaFieldsValid(r.value)
    ensures r.Loaded? && !partial ==> r.value.salaNome.Some? && r.value.disponivel.Some?
    ensures r.Rejected? ==> r.errors != {} && r.errors <= {"sala_nome", "disponivel"}
    // every failing field is reported, and only those
    ensures r.Rejected? ==>
              && ("sala_nome" in r.errors <==> !Accepts(p.salaNome, true, false, partial, NameLength))
              && ("disponivel" in r.errors <==> !Accepts(p.disponivel, true, false, partial, AnyValue))
  {
    var errors := SalaErrors(p, partial);
    if errors == {} then Loaded(SalaFields(Present(p.salaNome), Present(p.disponivel)))
    else Rejected(errors)
  }

  /** `TB_Sala(**validado)` after a full load. */
  function NewSala(f: SalaFields): (s: Sala)
    requires f.salaNome.Some? && f.disponivel.Some?
    requires SalaFieldsValid(f)
    ensures SalaWellFormed(s)
    ensures s.salaNome == f.salaNome.value && s.disponivel == f.disponivel.value
  {
    Sala(f.salaNome.value, f.disponivel.value)
  }

  /** The `setattr` loop of an update: each loaded field replaces the stored one. */
  function ApplySala(s: Sala, f: SalaFields): Sala {
    Sala(GetOr(f.salaNome, s.salaNome), GetOr(f.disponivel, s.disponivel))
  }

  /** An update changes exactly the supplied fields and keeps the room well formed. */
  lemma ApplySalaChangesOnlySupplied(s: Sala, f: SalaFields)
    requires SalaWellFormed(s) && SalaFieldsValid(f)
    ensures SalaWellFormed(ApplySala(s, f))
    ensures ApplySala(s, f).salaNome == (if f.salaNome.Some? then f.salaNome.value else s.salaNome)
    ensures ApplySala(s, f).disponivel == (if f.disponivel.Some? then f.disponivel.value else s.disponivel)
    ensures f == SalaFields(None, None) ==> ApplySala(s, f) == s
  {
  }
}
