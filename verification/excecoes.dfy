/** The failures the services raise, as values instead of Java exceptions. */
module Excecoes {

  /** `RegraNegocioException` and `ErroAutenticacao` carry a message; the
      `NullPointerException` of `Objects.requireNonNull` on a missing id is `IdNulo`,
      kept distinct because it marks a caller defect rather than bad business data. */
  datatype Erro =
    | RegraNegocio(mensagem: string)
    | ErroAutenticacao(mensagem: string)
    | IdNulo
}
