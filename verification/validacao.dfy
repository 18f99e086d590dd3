/** `LancamentoServiceImpl.validar`: six business rules checked in a fixed order; the
    first one that fails names the error. */
module ValidacaoLancamento {
  import opened Wrappers
  import opened Entidades
  import opened Texto

  /** The six rules, one per error message. */
  datatype Regra = Descricao | Mes | Ano | UsuarioInformado | Valor | Tipo

  /** The order in which the rules are checked. */
  function Posicao(r: Regra): nat {
    match r
    case Descricao => 0
    case Mes => 1
    case Ano => 2
    case UsuarioInformado => 3
    case Valor => 4
    case Tipo => 5
  }

  /** The message of the `RegraNegocioException` raised for a violated rule. */
  function Mensagem(r: Regra): string {
    match r
    case Descricao => "Informe descrição válida!"
    case Mes => "Informe um mês válido!"
    case Ano => "Informe um ano válido!"
    case UsuarioInformado => "Informe um usuário!"
    case Valor => "Informe um valor válido!"
    case Tipo => "Informe um tipo de lançamento!"
  }

  /** What each rule demands, stated directly on the field values rather than through
      `trim` and `toString`. */
  predicate Cumpre(l: Lancamento, r: Regra) {
    match r
    case Descricao => l.descricao.Some? && !EmBranco(l.descricao.value)
    case Mes => l.mes.Some? && 1 <= l.mes.value <= 12
    case Ano => l.ano.Some? && (1000 <= l.ano.value <= 9999 || -999 <= l.ano.value <= -100)
    case UsuarioInformado => l.usuario.Some? && l.usuario.value.id.Some?
    case Valor => l.valor.Some? && l.valor.value > 0.0
    case Tipo => l.tipo.Some?
  }

  /** The description test of the service: `trim()` leaves nothing. */
  function DescricaoEmBranco(d: string): (b: bool)
    ensures b <==> EmBranco(d)
  {
    Trim(d) == ""
  }

  /** The year test of the service: the decimal text of the year has length 4. */
  function AnoComQuatroCaracteres(ano: Int32): (ok: bool)
    ensures ok <==> (1000 <= ano <= 9999 || -999 <= ano <= -100)
  {
    TextoDeQuatroCaracteres(ano);
    |IntegerToString(ano)| == 4
  }

  /** The checks in the order and form the service writes them: blankness through `trim`,
      the year through the length of its decimal text, the amount through
      `compareTo(ZERO) < 1`. The result passes exactly when every rule holds, and a failure
      names a violated rule all of whose predecessors hold. */
  function Validar(l: Lancamento): (r: Outcome<Regra>)
    ensures r.Pass? <==> forall regra :: Cumpre(l, regra)
    ensures r.Fail? ==> !Cumpre(l, r.error)
    ensures r.Fail? ==> forall regra :: Posicao(regra) < Posicao(r.error) ==> Cumpre(l, regra)
  {
    if l.descricao.None? || DescricaoEmBranco(l.descricao.value) then
      assert !Cumpre(l, Descricao);
      Fail(Descricao)
    else if l.mes.None? || l.mes.value < 1 || l.mes.value > 12 then
      assert !Cumpre(l, Mes);
      Fail(Mes)
    else if l.ano.None? || !AnoComQuatroCaracteres(l.ano.value) then
      assert !Cumpre(l, Ano);
      Fail(Ano)
    else if l.usuario.None? || l.usuario.value.id.None? then
      assert !Cumpre(l, UsuarioInformado);
      Fail(UsuarioInformado)
    else if l.valor.None? || !(l.valor.value > 0.0) then
      assert !Cumpre(l, Valor);
      Fail(Valor)
    else if l.tipo.None? then
      assert !Cumpre(l, Tipo);
      Fail(Tipo)
    else
      Pass
  }

  /** The failing rule is unique: it is the earliest violated rule in checking order, so when
      several rules fail at once the reported one is fixed. */
  lemma PrimeiraRegraViolada(l: Lancamento, regra: Regra)
    requires !Cumpre(l, regra)
    ensures Validar(l).Fail?
    ensures Posicao(Validar(l).error) <= Posicao(regra)
    ensures forall outra :: Posicao(outra) < Posicao(regra) && !Cumpre(l, outra) ==>
              Posicao(Validar(l).error) <= Posicao(outra)
  {
  }

  /** A missing or blank description is reported whatever the other fields hold. */
  lemma DescricaoEmBrancoSempreFalha(l: Lancamento)
    requires l.descricao.None? || EmBranco(l.descricao.value)
    ensures Validar(l) == Fail(Descricao)
    ensures Mensagem(Validar(l).error) == "Informe descrição válida!"
  {
  }

  /** The status and the id play no part in validation. */
  lemma ValidarIgnoraStatusEId(l: Lancamento, s: Option<StatusLancamento>, id: Option<int>)
    ensures Validar(l.(status := s, id := id)) == Validar(l)
  {
  }

  /** The sequence of checks the service test walks through, field by field. */
  lemma CenarioDoTesteDeValidacao()
    ensures var vazio := Lancamento(None, None, None, None, None, None, None, None, None);
      var u := Usuario(None, None, "", "");
      && Validar(vazio) == Fail(Descricao)
      && Validar(vazio.(descricao := Some(" "))) == Fail(Descricao)
      && Validar(vazio.(descricao := Some("Salário"))) == Fail(Mes)
      && Validar(vazio.(descricao := Some("Salário"), ano := Some(13))) == Fail(Mes)
      && Validar(vazio.(descricao := Some("Salário"), ano := Some(13), mes := Some(1))) == Fail(Ano)
      && Validar(vazio.(descricao := Some("Salário"), ano := Some(202), mes := Some(1))) == Fail(Ano)
      && Validar(vazio.(descricao := Some("Salário"), ano := Some(2020), mes := Some(1))) == Fail(UsuarioInformado)
      && Validar(vazio.(descricao := Some("Salário"), ano := Some(2020), mes := Some(1),
                        usuario := Some(u))) == Fail(UsuarioInformado)
      && Validar(vazio.(descricao := Some("Salário"), ano := Some(2020), mes := Some(1),
                        usuario := Some(u.(id := Some(1))))) == Fail(Valor)
      && Validar(vazio.(descricao := Some("Salário"), ano := Some(2020), mes := Some(1),
                        usuario := Some(u.(id := Some(1))), valor := Some(0.0))) == Fail(Valor)
      && Validar(vazio.(descricao := Some("Salário"), ano := Some(2020), mes := Some(1),
                        usuario := Some(u.(id := Some(1))), valor := Some(1.0))) == Fail(Tipo)
  {
    assert !EmBranco("Salário") by { assert !Aparavel("Salário"[0]); }
  }

  /** A year of three digits is refused; a negative year of three digits passes the check. */
  lemma AnoPorTamanhoDoTexto(l: Lancamento)
    requires forall regra :: regra != Ano ==> Cumpre(l, regra)
    ensures l.ano == Some(202) ==> Validar(l) == Fail(Ano)
    ensures l.ano == Some(2020) ==> Validar(l) == Pass
    ensures l.ano == Some(-999) ==> Validar(l) == Pass
    ensures l.ano == Some(10000) ==> Validar(l) == Fail(Ano)
  {
  }
}
