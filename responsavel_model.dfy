/**
  `tb_responsavel` rows, with the columns the resource reads. The schema that
  validates them (models/TB_Responsavel.py) is not part of this model: its
  outcome reaches the resource as a parameter.
*/
module ResponsavelModel {
  import opened Schema
  import opened Calendar

  datatype Responsavel = Responsavel(
    responsavelNome: string,
    responsavelCpf: string,
    responsavelSiap: string,
    ativo: bool,
    dataNascimento: Option<Date>)

  /** The dict a partial load returns: only the supplied fields are present. */
  datatype ResponsavelFields = ResponsavelFields(
    responsavelNome: Option<string>,
    responsavelCpf: Option<string>,
    responsavelSiap: Option<string>,
    ativo: Option<bool>,
    dataNascimento: Option<Option<Date>>)

  /** The `setattr` loop of an update: each loaded field replaces the stored one. */
  function ApplyResponsavel(r: Responsavel, f: ResponsavelFields): Responsavel {
    Responsavel(
      GetOr(f.responsavelNome, r.responsavelNome),
      GetOr(f.responsavelCpf, r.responsavelCpf),
      GetOr(f.responsavelSiap, r.responsavelSiap),
      GetOr(f.ativo, r.ativo),
      GetOr(f.dataNascimento, r.dataNascimento))
  }

  /** An update changes exactly the supplied fields. */
  lemma ApplyResponsavelChangesOnlySupplied(r: Responsavel, f: ResponsavelFields)
    ensures ApplyResponsavel(r, f).responsavelNome ==
              (if f.responsavelNome.Some? then f.responsavelNome.value else r.responsavelNome)
    ensures ApplyResponsavel(r, f).responsavelCpf ==
              (if f.responsavelCpf.Some? then f.responsavelCpf.value else r.responsavelCpf)
    ensures ApplyResponsavel(r, f).responsavelSiap ==
              (if f.responsavelSiap.Some? then f.responsavelSiap.value else r.responsavelSiap)
    ensures ApplyResponsavel(r, f).ativo == (if f.ativo.Some? then f.ativo.value else r.ativo)
    ensures ApplyResponsavel(r, f).dataNascimento ==
              (if f.dataNascimento.Some? then f.dataNascimento.value else r.dataNascimento)
    ensures f == ResponsavelFields(None, None, None, None, None) ==> ApplyResponsavel(r, f) == r
  {
  }
}
