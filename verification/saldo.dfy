/** `obterSaldoPorUsuario` and the aggregate query it issues twice. */
module SaldoLancamento {
  import opened Wrappers
  import opened Entidades
  import opened ServicoLancamento
  import opened ValidacaoLancamento

  /** The sums the model talks about: the amounts of one kind for one user (what the
      repository's aggregate query adds up), or the user's net movement (income counted
      positive, expense negative). */
  datatype Parcela = DoTipo(usuarioId: int, tipo: TipoLancamento) | Liquida(usuarioId: int)

  predicate DoUsuario(l: Lancamento, usuarioId: int) {
    l.usuario.Some? && l.usuario.value.id == Some(usuarioId)
  }

  /** A row the aggregate query for `usuarioId` and `tipo` adds: it matches both and its
      amount is not null (SQL `SUM` skips nulls). */
  predicate Somada(l: Lancamento, usuarioId: int, tipo: TipoLancamento) {
    DoUsuario(l, usuarioId) && l.tipo == Some(tipo) && l.valor.Some?
  }

  /** What one row adds to a sum. */
  function ValorParcela(p: Parcela, l: Lancamento): real {
    match p
    case DoTipo(u, t) => if Somada(l, u, t) then l.valor.value else 0.0
    case Liquida(u) =>
      if Somada(l, u, RECEITA) then l.valor.value
      else if Somada(l, u, DESPESA) then -l.valor.value
      else 0.0
  }

  /** A store that is not empty has a row to pick. */
  lemma NaoVazioTemChave(m: Lancamentos)
    requires m != map[]
    ensures exists k :: k in m
  {
    if forall k :: k !in m {
      // map extensionality: no key at all would make `m` the empty map
      assert false;
    }
  }

  /** The sum of `p` over every row of the store, in no particular order. */
  ghost function Somatorio(m: Lancamentos, p: Parcela): real
    decreases |m|
  {
    if m == map[] then 0.0
    else
      NaoVazioTemChave(m);
      var k :| k in m;
      ValorParcela(p, m[k]) + Somatorio(m - {k}, p)
  }

  /** Any row can be taken out of the sum first: the order of summation does not matter. */
  lemma {:induction false} SomatorioSem(m: Lancamentos, p: Parcela, k: int)
    requires k in m
    ensures Somatorio(m, p) == ValorParcela(p, m[k]) + Somatorio(m - {k}, p)
    decreases |m|
  {
    var j :| j in m && Somatorio(m, p) == ValorParcela(p, m[j]) + Somatorio(m - {j}, p);
    if j != k {
      var mk := m - {k};
      var mj := m - {j};
      assert mk - {j} == mj - {k};
      SomatorioSem(mk, p, j);
      SomatorioSem(mj, p, k);
    }
  }

  /** A sum over a store where no row contributes is zero. */
  lemma {:induction false} SomatorioNulo(m: Lancamentos, p: Parcela)
    requires forall k :: k in m ==> ValorParcela(p, m[k]) == 0.0
    ensures Somatorio(m, p) == 0.0
    decreases |m|
  {
    if m != map[] {
      NaoVazioTemChave(m);
      var k :| k in m;
      SomatorioSem(m, p, k);
      SomatorioNulo(m - {k}, p);
    }
  }

  /** The net movement is the income sum minus the expense sum. */
  lemma {:induction false} LiquidaEhReceitaMenosDespesa(m: Lancamentos, u: int)
    ensures Somatorio(m, Liquida(u)) == Somatorio(m, DoTipo(u, RECEITA)) - Somatorio(m, DoTipo(u, DESPESA))
    decreases |m|
  {
    if m != map[] {
      NaoVazioTemChave(m);
      var k :| k in m;
      SomatorioSem(m, Liquida(u), k);
      SomatorioSem(m, DoTipo(u, RECEITA), k);
      SomatorioSem(m, DoTipo(u, DESPESA), k);
      LiquidaEhReceitaMenosDespesa(m - {k}, u);
    }
  }

  /** The repository's aggregate query `obterSaldoPorTipoLancamentoEUsuario`: the sum of the
      amounts of the user's rows of that kind, or `None` (SQL NULL) when no row is added. */
  method ObterSaldoPorTipoLancamentoEUsuario(m: Lancamentos, usuarioId: int, tipo: TipoLancamento)
    returns (r: Option<real>)
    ensures r.None? <==> forall k :: k in m ==> !Somada(m[k], usuarioId, tipo)
    ensures r.Some? ==> r.value == Somatorio(m, DoTipo(usuarioId, tipo))
  {
    var resto := m;
    var soma := 0.0;
    var achou := false;
    while resto != map[]
      invariant forall k :: k in resto ==> k in m && resto[k] == m[k]
      invariant soma + Somatorio(resto, DoTipo(usuarioId, tipo)) == Somatorio(m, DoTipo(usuarioId, tipo))
      invariant achou <==> exists k :: k in m && k !in resto && Somada(m[k], usuarioId, tipo)
      decreases |resto|
    {
      var k :| k in resto;
      SomatorioSem(resto, DoTipo(usuarioId, tipo), k);
      if Somada(resto[k], usuarioId, tipo) {
        soma := soma + resto[k].valor.value;
        achou := true;
      }
      resto := resto - {k};
    }
    if achou {
      r := Some(soma);
    } else {
      r := None;
    }
  }

  /** `obterSaldoPorUsuario`: income minus expense, an absent sum counting as zero. The result
      is the user's net movement over the whole store, and zero for a user with no rows. */
  method ObterSaldoPorUsuario(m: Lancamentos, usuarioId: int) returns (saldo: real)
    ensures saldo == Somatorio(m, DoTipo(usuarioId, RECEITA)) - Somatorio(m, DoTipo(usuarioId, DESPESA))
    ensures saldo == Somatorio(m, Liquida(usuarioId))
    ensures (forall k :: k in m ==> !DoUsuario(m[k], usuarioId)) ==> saldo == 0.0
  {
    var receitas := ObterSaldoPorTipoLancamentoEUsuario(m, usuarioId, RECEITA);
    var despesas := ObterSaldoPorTipoLancamentoEUsuario(m, usuarioId, DESPESA);
    if receitas.None? {
      SomatorioNulo(m, DoTipo(usuarioId, RECEITA));
      receitas := Some(0.0);
    }
    if despesas.None? {
      SomatorioNulo(m, DoTipo(usuarioId, DESPESA));
      despesas := Some(0.0);
    }
    saldo := receitas.value - despesas.value;
    LiquidaEhReceitaMenosDespesa(m, usuarioId);
    if forall k :: k in m ==> !DoUsuario(m[k], usuarioId) {
      SomatorioNulo(m, Liquida(usuarioId));
    }
  }

  /** Inserting a new row adds its contribution to any sum. */
  lemma InserirLinha(m: Lancamentos, k: int, l: Lancamento, p: Parcela)
    requires k !in m
    ensures Somatorio(m[k := l], p) == Somatorio(m, p) + ValorParcela(p, l)
  {
    SomatorioSem(m[k := l], p, k);
    assert m[k := l] - {k} == m;
  }

  /** Saving a new entry moves its owner's balance by the entry's signed amount. */
  lemma SalvarMoveSaldo(m: Lancamentos, l: Lancamento, novoId: int, u: int)
    requires novoId !in m
    requires l.id.None?
    requires forall regra :: Cumpre(l, regra)
    ensures Somatorio(Salvar(m, l, novoId).estado, Liquida(u))
              == Somatorio(m, Liquida(u)) + ValorParcela(Liquida(u), l)
  {
    InserirLinha(m, novoId, l.(id := Some(novoId), status := Some(PENDENTE)), Liquida(u));
  }

  /** Replacing a stored row replaces its contribution to any sum. */
  lemma SubstituirLinha(m: Lancamentos, k: int, l: Lancamento, p: Parcela)
    requires k in m
    ensures Somatorio(m[k := l], p) == Somatorio(m, p) - ValorParcela(p, m[k]) + ValorParcela(p, l)
  {
    SomatorioSem(m[k := l], p, k);
    SomatorioSem(m, p, k);
    assert m[k := l] - {k} == m - {k};
  }

  /** Updating a stored entry replaces its old contribution to the balance by the new one. */
  lemma AtualizarMoveSaldo(m: Lancamentos, l: Lancamento, novoId: int, u: int)
    requires novoId !in m
    requires l.id.Some? && l.id.value in m
    requires forall regra :: Cumpre(l, regra)
    ensures Somatorio(Atualizar(m, l, novoId).estado, Liquida(u))
              == Somatorio(m, Liquida(u)) - ValorParcela(Liquida(u), m[l.id.value]) + ValorParcela(Liquida(u), l)
  {
    SubstituirLinha(m, l.id.value, l, Liquida(u));
  }

  /** Deleting a stored entry takes its contribution out of the balance. */
  lemma DeletarMoveSaldo(m: Lancamentos, l: Lancamento, u: int)
    requires l.id.Some? && l.id.value in m
    ensures Somatorio(Deletar(m, l).estado, Liquida(u))
              == Somatorio(m, Liquida(u)) - ValorParcela(Liquida(u), m[l.id.value])
  {
    SomatorioSem(m, Liquida(u), l.id.value);
  }
}
