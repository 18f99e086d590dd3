# minhasfinancas ledger core in Dafny

This project models the business rules of the *minhasfinancas* personal-finance backend.
Users register and authenticate. Each user records ledger entries (*lançamentos*): income
(RECEITA) or expense (DESPESA), tagged with month, year and status. A balance is derived per
user from those entries.

The repositories are abstract values:
- the entry store is a `map<int, Lancamento>` keyed by id;
- the user directory is a `map<string, Usuario>` keyed by email.

Every service operation is pure. An operation that writes takes the store and its input and
returns the result together with the new store. An operation that only reads takes the store
and returns only its result. The balance and the aggregate query it issues are methods. The
query loops over the store, and the balance calls the query twice. The rest are functions.
A Java exception becomes the `Failure` side of a result:
- `RegraNegocioException` becomes `RegraNegocio(message)`;
- `ErroAutenticacao` becomes `ErroAutenticacao(message)`;
- the `NullPointerException` from `Objects.requireNonNull` becomes `IdNulo`.

Modules:
- `Wrappers` (wrappers.dfy): `Option`, `Result`, `Outcome`, and `Efeito`, which pairs a result
  with the store an operation leaves.
- `Entidades` (entidades.dfy): the entities, with every nullable Java field as an `Option`.
  The `BigDecimal` amount is an exact `real`. `Integer` fields range over Java's 32-bit `int`.
- `Excecoes` (excecoes.dfy): the error values.
- `Texto` (texto.dfy): `String.trim()` and `Integer.toString(int)`, as the validator uses them.
- `ValidacaoLancamento` (validacao.dfy): `validar`, with its six rules in checking order.
- `ServicoLancamento` (servico_lancamento.dfy): `salvar`, `atualizar`, `deletar`,
  `atualizarStatus`, `obterPorId`.
- `SaldoLancamento` (saldo.dfy): the per-kind aggregate query and `obterSaldoPorUsuario`.
- `ServicoUsuario` (servico_usuario.dfy): `autenticar`, `validarEmail`, `salvarUsuario`.

The repositories' `save` is modelled the same way for entries and users:
- a row whose id is already stored is overwritten in place;
- any other row is inserted under the identity the database generates, the parameter `novoId`.

Under JPA the second case covers both a null id and an id that is not stored, because a merge
of an unknown detached row inserts it. Repository `delete` of an id that is not stored does
nothing. The aggregate query is not declared in the repository interface the code shows. It
is modelled with SQL `SUM` semantics: rows of that user and kind with a non-null amount are
added, and the result is null when there are none.

Two details of the code are reproduced exactly, including their edge cases:
- **Blank description.** A description is blank when `trim()` leaves it empty. That happens
  exactly when every character has code at most U+0020, not only for whitespace.
- **Year check.** The year passes when `Integer.toString(ano)` has length 4. That accepts
  1000..9999 and also -999..-100, because the minus sign counts as a character.
  `Texto.TextoDeQuatroCaracteres` proves this.

The user rule in `validar` checks only that the user and its id are non-null. Whether a user
with that id exists is not checked by `validar`. In the source, the database enforces it
through the foreign key of the user reference when the entry is written. The model does not
express that check (see "## Left out").

## Model

| member | source | states |
|---|---|---|
| Texto.Trim | src/main/java/com/primeiroteste/minhasfinancas/service/impl/LancamentoServiceImpl.java:70 | `trim` returns a slice of the text. Everything it drops before and after has code ≤ U+0020, and a non-empty result starts and ends with a character above U+0020. The result is empty exactly when every character is ≤ U+0020 |
| Texto.IntegerToString | src/main/java/com/primeiroteste/minhasfinancas/service/impl/LancamentoServiceImpl.java:76 | the text of a Java integer is non-empty and starts with '-' exactly when the number is negative |
| Texto.IntegerToStringLeDeVolta | src/main/java/com/primeiroteste/minhasfinancas/service/impl/LancamentoServiceImpl.java:76 | after the optional minus sign, the text of `Integer.toString(n)` is all decimal digits and reads back to the absolute value of n |
| Texto.LerDigitosDeDigitos | src/main/java/com/primeiroteste/minhasfinancas/service/impl/LancamentoServiceImpl.java:76 | reading back the decimal text of a year's magnitude gives the number, so the text measured by the year check is the canonical decimal form |
| Texto.TamanhoDigitos | src/main/java/com/primeiroteste/minhasfinancas/service/impl/LancamentoServiceImpl.java:76 | a number has at most k decimal digits exactly when it is below 10^k |
| Texto.TextoDeQuatroCaracteres | src/main/java/com/primeiroteste/minhasfinancas/service/impl/LancamentoServiceImpl.java:76 | `Integer.toString(n)` has length 4 exactly when n is in 1000..9999 or in -999..-100 |
| ValidacaoLancamento.DescricaoEmBranco | src/main/java/com/primeiroteste/minhasfinancas/service/impl/LancamentoServiceImpl.java:70 | `trim()` leaves a description empty exactly when every character is ≤ U+0020 |
| ValidacaoLancamento.AnoComQuatroCaracteres | src/main/java/com/primeiroteste/minhasfinancas/service/impl/LancamentoServiceImpl.java:76 | the year's text has length 4 exactly for 1000..9999 and -999..-100 |
| ValidacaoLancamento.Validar | src/main/java/com/primeiroteste/minhasfinancas/service/impl/LancamentoServiceImpl.java:69-88 | validation passes exactly when all six rules hold. A failure names a rule the entry violates, and every earlier rule in the order description, month, year, user, amount, kind holds |
| ValidacaoLancamento.PrimeiraRegraViolada | src/main/java/com/primeiroteste/minhasfinancas/service/impl/LancamentoServiceImpl.java:69-88 | when any rule is violated, validation fails with the earliest violated rule in checking order |
| ValidacaoLancamento.DescricaoEmBrancoSempreFalha | src/main/java/com/primeiroteste/minhasfinancas/service/impl/LancamentoServiceImpl.java:70-72 | a null description, or one made only of characters ≤ U+0020, always fails with "Informe descrição válida!", whatever the other fields hold |
| ValidacaoLancamento.AnoPorTamanhoDoTexto | src/main/java/com/primeiroteste/minhasfinancas/service/impl/LancamentoServiceImpl.java:76-78 | with every other rule satisfied, years 202 and 10000 are refused while 2020 and -999 pass |
| ValidacaoLancamento.ValidarIgnoraStatusEId | src/main/java/com/primeiroteste/minhasfinancas/service/impl/LancamentoServiceImpl.java:69-88 | neither the status nor the id affects validation |
| ValidacaoLancamento.CenarioDoTesteDeValidacao | src/test/java/com/primeiroteste/minhasfinancas/service/LancamentoServiceTest.java:160-206 | the service test's field-by-field sequence reports description, description, month, month, year, year, user, user, amount, amount, kind, in that order |
| ServicoLancamento.GravarNoRepositorio | src/main/java/com/primeiroteste/minhasfinancas/service/impl/LancamentoServiceImpl.java:33 | the repository's `save` stores the entry under an id and returns it unchanged apart from that id. A known id is kept; otherwise the generated id is assigned |
| ServicoLancamento.Salvar | src/main/java/com/primeiroteste/minhasfinancas/service/impl/LancamentoServiceImpl.java:30-34 | `salvar` fails exactly when some rule is violated, with that rule's message, and then leaves the store unchanged. Otherwise the stored and returned entry is the caller's with status PENDENTE, whatever status was passed in. An entry whose id is already stored overwrites that row and keeps its id. Any other entry gets the generated id. The store invariant "each row's id is its key" is preserved |
| ServicoLancamento.Atualizar | src/main/java/com/primeiroteste/minhasfinancas/service/impl/LancamentoServiceImpl.java:38-42 | a null id fails with `IdNulo`, distinct from any validation error, and the store is untouched. With an id, `atualizar` succeeds exactly when all rules hold. It stores the entry with the caller's status. An entry whose id is already stored overwrites that row unchanged; one whose id is not stored is filed under the generated id. The store invariant is preserved |
| ServicoLancamento.Deletar | src/main/java/com/primeiroteste/minhasfinancas/service/impl/LancamentoServiceImpl.java:46-50 | a null id fails with `IdNulo` and the store is untouched. With an id, `deletar` always succeeds without validating, removes exactly that id, and keeps every other row as it was |
| ServicoLancamento.AtualizarStatus | src/main/java/com/primeiroteste/minhasfinancas/service/impl/LancamentoServiceImpl.java:62-66 | fails exactly when `atualizar` on the caller's entry fails, with the same error, including `IdNulo`. On success the stored entry has the requested status, which may be null, and otherwise the caller's fields. An entry whose id is already stored is updated in place; one whose id is not stored is filed under the generated id. The store invariant is preserved |
| ServicoLancamento.ObterPorId | src/main/java/com/primeiroteste/minhasfinancas/service/impl/LancamentoServiceImpl.java:91-93 | returns the stored row when the id is present and `None` otherwise; a missing row is never an error. In a well-formed store the row's id is the requested one |
| ServicoLancamento.SalvarDepoisObter | src/main/java/com/primeiroteste/minhasfinancas/service/impl/LancamentoServiceImpl.java:30-34 | a valid entry that is saved and then fetched by its assigned id equals the caller's entry, except for the id and the status, which is PENDENTE |
| ServicoLancamento.AtualizarStatusDepoisObter | src/main/java/com/primeiroteste/minhasfinancas/service/impl/LancamentoServiceImpl.java:62-66 | after a status change to a stored valid entry, fetching it by id returns the entry with the new status |
| ServicoLancamento.DeletarDepoisObter | src/main/java/com/primeiroteste/minhasfinancas/service/impl/LancamentoServiceImpl.java:46-50 | after `deletar`, the id is no longer found |
| SaldoLancamento.ObterSaldoPorTipoLancamentoEUsuario | src/main/java/com/primeiroteste/minhasfinancas/service/impl/LancamentoServiceImpl.java:98-99 | the aggregate query returns null exactly when no row of that user and kind has an amount. Otherwise it returns the sum of those amounts over the whole store |
| SaldoLancamento.ObterSaldoPorUsuario | src/main/java/com/primeiroteste/minhasfinancas/service/impl/LancamentoServiceImpl.java:97-108 | the balance is the RECEITA sum minus the DESPESA sum, with an absent sum counting as 0. It equals the user's net signed movement, and it is 0 for a user with no entries |
| SaldoLancamento.SomatorioSem | src/main/java/com/primeiroteste/minhasfinancas/service/impl/LancamentoServiceImpl.java:98-99 | the aggregate does not depend on row order: any row can be summed first |
| SaldoLancamento.LiquidaEhReceitaMenosDespesa | src/main/java/com/primeiroteste/minhasfinancas/service/impl/LancamentoServiceImpl.java:107 | income sum minus expense sum equals the sum of signed amounts (income positive, expense negative) |
| SaldoLancamento.InserirLinha | src/main/java/com/primeiroteste/minhasfinancas/service/impl/LancamentoServiceImpl.java:98-99 | inserting a row under a new id adds that row's contribution to any aggregate |
| SaldoLancamento.SalvarMoveSaldo | src/main/java/com/primeiroteste/minhasfinancas/service/impl/LancamentoServiceImpl.java:30-34 | saving a new entry moves each user's balance by that entry's signed contribution |
| SaldoLancamento.SubstituirLinha | src/main/java/com/primeiroteste/minhasfinancas/service/impl/LancamentoServiceImpl.java:98-99 | replacing one stored row changes any aggregate by the new row's contribution minus the old one's |
| SaldoLancamento.AtualizarMoveSaldo | src/main/java/com/primeiroteste/minhasfinancas/service/impl/LancamentoServiceImpl.java:38-42 | updating a stored entry replaces its old contribution to the balance with the new one |
| SaldoLancamento.DeletarMoveSaldo | src/main/java/com/primeiroteste/minhasfinancas/service/impl/LancamentoServiceImpl.java:46-50 | deleting a stored entry removes its contribution from the balance |
| ServicoUsuario.Autenticar | src/main/java/com/primeiroteste/minhasfinancas/service/impl/UsuarioServiceImpl.java:26-35 | an unknown email fails with "Usuario não encontrado para o email informado!" before any password comparison. A known email with a different or null password fails with "Senha inválida!". Success happens exactly otherwise and returns the stored user, whose password equals the one supplied. The directory is only read |
| ServicoUsuario.ValidarEmail | src/main/java/com/primeiroteste/minhasfinancas/service/impl/UsuarioServiceImpl.java:45-52 | fails with "Já existe um usuário cadastrado com este email" exactly when the email is registered, and only reads the directory |
| ServicoUsuario.GravarUsuario | src/main/java/com/primeiroteste/minhasfinancas/service/impl/UsuarioServiceImpl.java:41 | the user repository's `save` files the user under its email. A user whose id is stored replaces the row holding that id; any other user gets the generated id. No row holding neither that email nor that id changes |
| ServicoUsuario.SalvarUsuario | src/main/java/com/primeiroteste/minhasfinancas/service/impl/UsuarioServiceImpl.java:39-42 | a registered email fails with the duplicate-email message and leaves the directory unchanged. A fresh email saves the user through the repository and returns it. A user whose id is already stored replaces that row; any other user is added with the generated id. Every row holding neither the email nor the saved id is untouched. "Each user is filed under its email, and ids are unique" is preserved |
| ServicoUsuario.SalvarUsuarioComIdCadastrado | src/main/java/com/primeiroteste/minhasfinancas/service/impl/UsuarioServiceImpl.java:39-42 | registering a fresh email with the id of a stored user replaces that user: its old email leaves the directory and every other email stays |
| ServicoUsuario.CadastrarDepoisAutenticar | src/main/java/com/primeiroteste/minhasfinancas/service/impl/UsuarioServiceImpl.java:26-42 | a user just registered under a fresh email authenticates with its own password and gets back the stored record |
| ServicoUsuario.SenhaErradaRecusada | src/main/java/com/primeiroteste/minhasfinancas/service/impl/UsuarioServiceImpl.java:31-33 | a stored password "right" with "wrong" supplied fails with "Senha inválida!" |

## Left out

- `buscar` (LancamentoServiceImpl.java:54-59): its matching (case-insensitive, substring, null fields unconstrained) is done by Spring Data's `Example`/`ExampleMatcher`. That library code is not part of this model.
- HTTP resources and DTOs (`UsuarioResource`, `LancamentoDto`, `UsuarioDto`): these are request routing and field carriers with no business rule. This includes the 404 for an unknown user on the balance route.
- The entry's user is the caller's `Usuario` value, not a reference into the user directory. In the source the user is a many-to-one reference stored only as its id (Lancamento.java:31-33). An entry that is merged or fetched again therefore carries the user row stored under that id, not the caller's object. An entry whose user id belongs to no stored user is rejected by the database's foreign key when it is written, not by `validar`. The model's `Salvar` and `Atualizar` accept such an entry, because the entry store and the user directory are kept apart.
- Transactions and clocks: `@Transactional` boundaries are not modelled. `dataCadastro` is carried as an opaque value and never computed.
- AtualizarStatus: the Java method sets the new status on the caller's object before calling `atualizar`. After a failed call (a null id or a validation error), the caller's object therefore already holds the new status. The model works on values, so a failure leaves the caller's entry as it was.
- Salvar: the Java method writes PENDENTE into the caller's object. The model returns the updated entry instead of changing the argument.
- Null arguments: in the source, passing a null entry to `salvar`, `atualizar`, `deletar` or `validar` throws a `NullPointerException`. So does passing a null user to `salvarUsuario`, at `usuario.getEmail()` (UsuarioServiceImpl.java:40). Every entry and user in the model exists, so these calls cannot be expressed.
- ObterPorId: the id is a non-null `int`. In the source a null id goes straight to the repository's `findById` (LancamentoServiceImpl.java:92), which documents an `IllegalArgumentException` for it. The model cannot express that failure.
- ObterSaldoPorUsuario: the user id is a non-null `int`. The source accepts a null `Long` (LancamentoServiceImpl.java:97) and passes it to the aggregate query; the model cannot express that call.
- Usuario: the email and the stored password are non-null strings. A null email and the `NullPointerException` on a null stored password (UsuarioServiceImpl.java:31) are not modelled.
- Entry ids and user ids (`Usuario.id`) are unbounded integers, not 64-bit `Long`s. No operation does arithmetic on them.
- BigDecimal scale is not modelled: amounts are exact rationals, which matches `compareTo` and `subtract`.
