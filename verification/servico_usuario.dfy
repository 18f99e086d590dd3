/** `UsuarioServiceImpl`: authentication and registration against the user directory. */
module ServicoUsuario {
  import opened Wrappers
  import opened Entidades
  import opened Excecoes

  /** The user directory, keyed by email (emails are unique). */
  type Usuarios = map<string, Usuario>

  /** Every user is filed under its own email, and no two users share an id. */
  predicate DiretorioValido(d: Usuarios) {
    && (forall e :: e in d ==> d[e].email == e)
    && (forall e1, e2 :: e1 in d && e2 in d && d[e1].id.Some? && d[e1].id == d[e2].id ==> e1 == e2)
  }

  /** The id `novoId` is not held by any stored user, as for an identity the database generates. */
  predicate IdLivre(d: Usuarios, novoId: int) {
    forall e :: e in d ==> d[e].id != Some(novoId)
  }

  /** Some stored user holds the id `id`. */
  predicate IdCadastrado(d: Usuarios, id: Option<int>) {
    id.Some? && exists e :: e in d && d[e].id == id
  }

  const MsgUsuarioNaoEncontrado: string := "Usuario não encontrado para o email informado!"
  const MsgSenhaInvalida: string := "Senha inválida!"
  const MsgEmailJaCadastrado: string := "Já existe um usuário cadastrado com este email"

  /** `autenticar`: an unknown email is reported before any password comparison; a known
      email with a different (or null) password is refused; otherwise the stored user is
      returned. The directory is only read. */
  function Autenticar(d: Usuarios, email: string, senha: Option<string>): (r: Result<Usuario, Erro>)
    ensures email !in d ==> r == Failure(ErroAutenticacao(MsgUsuarioNaoEncontrado))
    ensures email in d && senha != Some(d[email].senha) ==> r == Failure(ErroAutenticacao(MsgSenhaInvalida))
    ensures r.Success? <==> email in d && senha == Some(d[email].senha)
    ensures r.Success? ==> r.value == d[email] && Some(r.value.senha) == senha
    ensures r.Success? && DiretorioValido(d) ==> r.value.email == email
  {
    if email !in d then
      Failure(ErroAutenticacao(MsgUsuarioNaoEncontrado))
    else if !(senha.Some? && d[email].senha == senha.value) then
      Failure(ErroAutenticacao(MsgSenhaInvalida))
    else
      Success(d[email])
  }

  /** `validarEmail`: fails exactly when the email is already registered. */
  function ValidarEmail(d: Usuarios, email: string): (r: Outcome<Erro>)
    ensures r.Fail? <==> email in d
    ensures r.Fail? ==> r.error == RegraNegocio(MsgEmailJaCadastrado)
  {
    if email in d then Fail(RegraNegocio(MsgEmailJaCadastrado)) else Pass
  }

  /** The directory after a registration, together with the stored user or the error. */
  type Cadastro = Efeito<Usuario, Erro, Usuarios>

  /** The repository's `save` for users: a user whose id is already stored replaces the row
      holding that id (so that row's old email key goes away); otherwise the user is inserted
      under the identity the database generates, `novoId`. Either way it is filed under its
      email and no other row changes. */
  function GravarUsuario(d: Usuarios, u: Usuario, novoId: int): (r: (Usuario, Usuarios))
    requires IdLivre(d, novoId)
    ensures r.0 == u.(id := r.0.id)
    ensures IdCadastrado(d, u.id) ==> r.0.id == u.id
    ensures !IdCadastrado(d, u.id) ==> r.0.id == Some(novoId)
    ensures u.email in r.1 && r.1[u.email] == r.0
    ensures forall e :: e in d && e != u.email && d[e].id != r.0.id ==> e in r.1 && r.1[e] == d[e]
    ensures forall e :: e in r.1 && e != u.email ==> e in d && d[e].id != r.0.id
  {
    var salvo := if IdCadastrado(d, u.id) then u else u.(id := Some(novoId));
    var outros := map e | e in d && d[e].id != salvo.id :: d[e];
    (salvo, outros[u.email := salvo])
  }

  /** `salvarUsuario`: a registered email is refused and the directory stays as it was;
      otherwise the user is saved through the repository and returned: a user whose id is
      already stored replaces that row, any other user is added with the generated id. Every
      row holding neither the email nor the saved id is untouched. */
  function SalvarUsuario(d: Usuarios, u: Usuario, novoId: int): (r: Cadastro)
    requires IdLivre(d, novoId)
    ensures u.email in d ==>
              r.saida == Failure(RegraNegocio(MsgEmailJaCadastrado)) && r.estado == d
    ensures u.email !in d ==> r.saida.Success?
    ensures r.saida.Success? ==>
              var salvo := r.saida.value;
              && salvo == u.(id := salvo.id)
              && salvo.id == (if IdCadastrado(d, u.id) then u.id else Some(novoId))
              && u.email in r.estado && r.estado[u.email] == salvo
              && (forall e :: e in d && d[e].id != salvo.id ==> e in r.estado && r.estado[e] == d[e])
              && (forall e :: e in r.estado && e != u.email ==> e in d && d[e].id != salvo.id)
    ensures u.email !in d && !IdCadastrado(d, u.id) ==> r.estado.Keys == d.Keys + {u.email}
    ensures DiretorioValido(d) ==> DiretorioValido(r.estado)
  {
    var v := ValidarEmail(d, u.email);
    if v.Fail? then
      Efeito(Failure(v.error), d)
    else
      var (salvo, d') := GravarUsuario(d, u, novoId);
      Efeito(Success(salvo), d')
  }

  /** Saving a user under a fresh email but with the id of a stored user replaces that user:
      its old email leaves the directory and every other user stays. */
  lemma SalvarUsuarioComIdCadastrado(d: Usuarios, u: Usuario, novoId: int, antigo: string)
    requires IdLivre(d, novoId)
    requires DiretorioValido(d)
    requires u.email !in d
    requires antigo in d && u.id.Some? && d[antigo].id == u.id
    ensures var r := SalvarUsuario(d, u, novoId);
      && r.saida == Success(u)
      && r.estado.Keys == d.Keys - {antigo} + {u.email}
  {
  }

  /** A user just registered can authenticate with the password it was registered with. */
  lemma CadastrarDepoisAutenticar(d: Usuarios, u: Usuario, novoId: int)
    requires IdLivre(d, novoId)
    requires u.email !in d
    ensures var r := SalvarUsuario(d, u, novoId);
      Autenticar(r.estado, u.email, Some(u.senha)) == r.saida
  {
  }

  /** The scenario of a known email and a wrong password. */
  lemma SenhaErradaRecusada()
    ensures var d := map["a@x.com" := Usuario(Some(1), None, "a@x.com", "right")];
      Autenticar(d, "a@x.com", Some("wrong")) == Failure(ErroAutenticacao("Senha inválida!"))
  {
  }
}
