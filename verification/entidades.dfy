/** The persistent entities of the ledger: users and ledger entries (lancamentos). */
module Entidades {
  import opened Wrappers

  /** Java's `int`, the range of a boxed `Integer`. */
  const IntMin: int := -0x8000_0000
  const IntMax: int := 0x7fff_ffff
  type Int32 = x: int | IntMin <= x <= IntMax

  /** Kind of an entry: income (RECEITA) or expense (DESPESA). */
  datatype TipoLancamento = RECEITA | DESPESA

  /** Lifecycle marker of an entry. */
  datatype StatusLancamento = PENDENTE | EFETIVADO | CANCELADO

  /** A `java.time.LocalDate`; the model only carries it around. */
  datatype Data = Data(ano: int, mes: int, dia: int)

  /** A registered user. The email is the key of the user directory and the stored
      password is a plain string compared by equality. */
  datatype Usuario = Usuario(id: Option<int>, nome: Option<string>, email: string, senha: string)

  /** A ledger entry. Every Java field may be null, hence every field is an `Option`;
      the `BigDecimal` amount is an exact `real`. */
  datatype Lancamento = Lancamento(
    id: Option<int>,
    descricao: Option<string>,
    mes: Option<Int32>,
    ano: Option<Int32>,
    usuario: Option<Usuario>,
    valor: Option<real>,
    dataCadastro: Option<Data>,
    tipo: Option<TipoLancamento>,
    status: Option<StatusLancamento>)
}
