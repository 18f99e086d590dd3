/** The ledger operations of `LancamentoServiceImpl` over an abstract entry store. */
module ServicoLancamento {
  import opened Wrappers
  import opened Entidades
  import opened Excecoes
  import opened ValidacaoLancamento

  /** The entry repository: rows keyed by their id. */
  type Lancamentos = map<int, Lancamento>

  /** Every row carries its own key as id. */
  predicate ArmazemValido(m: Lancamentos) {
    forall k :: k in m ==> m[k].id == Some(k)
  }

  /** An entry operation's result together with the store it leaves. */
  type EfeitoLancamento<T> = Efeito<T, Erro, Lancamentos>

  /** The repository's `save`: a row whose id is present in the store is overwritten;
      otherwise the row is inserted under the identity the database generates, `novoId`. */
  function GravarNoRepositorio(m: Lancamentos, l: Lancamento, novoId: int): (r: (Lancamento, Lancamentos))
    requires novoId !in m
    ensures r.0.id.Some? && r.1 == m[r.0.id.value := r.0]
    ensures r.0 == l.(id := r.0.id)
    ensures l.id.Some? && l.id.value in m ==> r.0.id == l.id
    ensures !(l.id.Some? && l.id.value in m) ==> r.0.id == Some(novoId)
  {
    if l.id.Some? && l.id.value in m then
      (l, m[l.id.value := l])
    else
      var g := l.(id := Some(novoId));
      (g, m[novoId := g])
  }

  /** The `RegraNegocioException` raised for a failed validation. */
  function ErroDeValidacao(v: Outcome<Regra>): Erro
    requires v.Fail?
  {
    RegraNegocio(Mensagem(v.error))
  }

  /** `salvar`: validate, force PENDENTE, persist. A failed validation leaves the store as it
      was; otherwise the stored and returned entry is the caller's with status PENDENTE,
      overwriting the stored row when its id is already stored (the test suite uses `salvar`
      as an update this way) and filed under the generated id otherwise. */
  function Salvar(m: Lancamentos, l: Lancamento, novoId: int): (r: EfeitoLancamento<Lancamento>)
    requires novoId !in m
    ensures r.saida.Failure? <==> exists regra :: !Cumpre(l, regra)
    ensures Validar(l).Fail? ==>
              r.saida == Failure(RegraNegocio(Mensagem(Validar(l).error))) && r.estado == m
    ensures r.saida.Success? ==>
              var s := r.saida.value;
              && s.status == Some(PENDENTE)
              && s.id.Some?
              && s == l.(id := s.id, status := Some(PENDENTE))
              && r.estado == m[s.id.value := s]
              && (l.id.Some? && l.id.value in m ==> s.id == l.id)
              && (!(l.id.Some? && l.id.value in m) ==> s.id == Some(novoId))
    ensures ArmazemValido(m) ==> ArmazemValido(r.estado)
  {
    var v := Validar(l);
    if v.Fail? then
      Efeito(Failure(ErroDeValidacao(v)), m)
    else
      var (s, m') := GravarNoRepositorio(m, l.(status := Some(PENDENTE)), novoId);
      Efeito(Success(s), m')
  }

  /** `atualizar`: a missing id fails with `IdNulo` before anything else; then validate and
      persist the entry as given, keeping the caller's status. */
  function Atualizar(m: Lancamentos, l: Lancamento, novoId: int): (r: EfeitoLancamento<Lancamento>)
    requires novoId !in m
    ensures l.id.None? ==> r.saida == Failure(IdNulo) && r.estado == m
    ensures l.id.Some? ==> (r.saida.Success? <==> forall regra :: Cumpre(l, regra))
    ensures l.id.Some? && Validar(l).Fail? ==>
              r.saida == Failure(RegraNegocio(Mensagem(Validar(l).error))) && r.estado == m
    ensures r.saida.Success? ==>
              var s := r.saida.value;
              && s.status == l.status
              && s.id.Some?
              && s == l.(id := s.id)
              && r.estado == m[s.id.value := s]
              && (l.id.value in m ==> s == l)
              && (l.id.value !in m ==> s.id == Some(novoId))
    ensures ArmazemValido(m) ==> ArmazemValido(r.estado)
  {
    if l.id.None? then
      Efeito(Failure(IdNulo), m)
    else
      var v := Validar(l);
      if v.Fail? then
        Efeito(Failure(ErroDeValidacao(v)), m)
      else
        var (s, m') := GravarNoRepositorio(m, l, novoId);
        Efeito(Success(s), m')
  }

  /** `deletar`: a missing id fails with `IdNulo`; otherwise the row with that id is removed
      (a no-op when there is none) without re-validating the entry. */
  function Deletar(m: Lancamentos, l: Lancamento): (r: EfeitoLancamento<()>)
    ensures l.id.None? ==> r.saida == Failure(IdNulo) && r.estado == m
    ensures l.id.Some? ==> r.saida.Success?
    ensures l.id.Some? ==> r.estado.Keys == m.Keys - {l.id.value}
    ensures forall k :: k in r.estado ==> k in m && r.estado[k] == m[k]
    ensures ArmazemValido(m) ==> ArmazemValido(r.estado)
  {
    if l.id.None? then
      Efeito(Failure(IdNulo), m)
    else
      Efeito(Success(()), m - {l.id.value})
  }

  /** `atualizarStatus`: set the status, then update. It fails exactly as updating the caller's
      entry would (status takes no part in validation) and on success the stored entry has
      the requested status and otherwise the caller's fields. The status may be null: nothing
      rejects it, and the row is then stored without a status. */
  function AtualizarStatus(m: Lancamentos, l: Lancamento, status: Option<StatusLancamento>, novoId: int)
    : (r: EfeitoLancamento<Lancamento>)
    requires novoId !in m
    ensures r.saida.Failure? <==> Atualizar(m, l, novoId).saida.Failure?
    ensures r.saida.Failure? ==> r.saida == Atualizar(m, l, novoId).saida && r.estado == m
    ensures r.saida.Success? ==>
              var s := r.saida.value;
              && s.status == status
              && s == l.(id := s.id, status := status)
              && s.id.Some? && r.estado == m[s.id.value := s]
              && (l.id.value in m ==> s == l.(status := status))
              && (l.id.value !in m ==> s.id == Some(novoId))
    ensures ArmazemValido(m) ==> ArmazemValido(r.estado)
  {
    ValidarIgnoraStatusEId(l, status, l.id);
    Atualizar(m, l.(status := status), novoId)
  }

  /** `obterPorId`: the stored row, or `None` when there is none; never an error. */
  function ObterPorId(m: Lancamentos, id: int): (r: Option<Lancamento>)
    ensures r.Some? <==> id in m
    ensures r.Some? ==> r.value == m[id]
    ensures ArmazemValido(m) && r.Some? ==> r.value.id == Some(id)
  {
    if id in m then Some(m[id]) else None
  }

  /** Saving then fetching by the assigned id returns the caller's entry, differing only in
      the id and the forced PENDENTE status. */
  lemma SalvarDepoisObter(m: Lancamentos, l: Lancamento, novoId: int)
    requires novoId !in m
    requires forall regra :: Cumpre(l, regra)
    ensures var r := Salvar(m, l, novoId);
      && r.saida.Success?
      && ObterPorId(r.estado, r.saida.value.id.value) == Some(l.(id := r.saida.value.id, status := Some(PENDENTE)))
  {
  }

  /** After a status update the row fetched by id has the new status. */
  lemma AtualizarStatusDepoisObter(m: Lancamentos, l: Lancamento, status: Option<StatusLancamento>, novoId: int)
    requires novoId !in m
    requires l.id.Some? && l.id.value in m
    requires forall regra :: Cumpre(l, regra)
    ensures var r := AtualizarStatus(m, l, status, novoId);
      && r.saida.Success?
      && ObterPorId(r.estado, l.id.value) == Some(l.(status := status))
  {
  }

  /** After deleting, the id is no longer found, whatever the rest of the entry holds. */
  lemma DeletarDepoisObter(m: Lancamentos, l: Lancamento)
    requires l.id.Some?
    ensures ObterPorId(Deletar(m, l).estado, l.id.value).None?
  {
  }
}
