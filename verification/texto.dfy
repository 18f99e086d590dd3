/** The two pieces of `java.lang` text handling the validator relies on:
    `String.trim()` and `Integer.toString(int)`. */
module Texto {

  /** `String.trim()` removes every leading and trailing character whose code is at most
      U+0020 (space), not only what other APIs call whitespace. */
  predicate Aparavel(c: char) {
    c <= ' '
  }

  predicate EmBranco(s: string) {
    forall i :: 0 <= i < |s| ==> Aparavel(s[i])
  }

  /** First loop of `trim`: advance `st` past trimmable characters. */
  function InicioTrim(s: string, st: nat): (r: nat)
    requires st <= |s|
    ensures st <= r <= |s|
    ensures forall i :: st <= i < r ==> Aparavel(s[i])
    ensures r < |s| ==> !Aparavel(s[r])
    decreases |s| - st
  {
    if st < |s| && Aparavel(s[st]) then InicioTrim(s, st + 1) else st
  }

  /** Second loop of `trim`: pull `len` back over trimmable characters, never below `st`. */
  function FimTrim(s: string, st: nat, len: nat): (r: nat)
    requires st <= len <= |s|
    ensures st <= r <= len
    ensures forall i :: r <= i < len ==> Aparavel(s[i])
    ensures st < r ==> !Aparavel(s[r - 1])
    decreases len
  {
    if st < len && Aparavel(s[len - 1]) then FimTrim(s, st, len - 1) else len
  }

  /** `String.trim()`: the result is a slice of `s` that drops exactly the trimmable prefix
      and suffix; it is empty exactly when every character of `s` is trimmable. */
  function Trim(s: string): (t: string)
    ensures |t| <= |s|
    ensures t == "" <==> EmBranco(s)
    ensures t != "" ==> !Aparavel(t[0]) && !Aparavel(t[|t| - 1])
    ensures var st := InicioTrim(s, 0);
      && st + |t| <= |s|
      && t == s[st..st + |t|]
      && (forall i :: 0 <= i < st ==> Aparavel(s[i]))
      && (forall i :: st + |t| <= i < |s| ==> Aparavel(s[i]))
  {
    var st := InicioTrim(s, 0);
    var len := FimTrim(s, st, |s|);
    s[st..len]
  }

  /** 10 to the power `k`. */
  function Pow10(k: nat): (p: nat)
    ensures p >= 1
  {
    if k == 0 then 1 else 10 * Pow10(k - 1)
  }

  function Digito(d: nat): (c: char)
    requires d < 10
    ensures '0' <= c <= '9'
  {
    "0123456789"[d]
  }

  function ValorDigito(c: char): (d: nat)
    requires '0' <= c <= '9'
    ensures d < 10
  {
    (c as int - '0' as int) as nat
  }

  /** Every character is a decimal digit. */
  predicate SoDigitos(s: string) {
    forall i :: 0 <= i < |s| ==> '0' <= s[i] <= '9'
  }

  /** Decimal digits of a natural number, most significant first, without leading zeros. */
  function Digitos(n: nat): (s: string)
    ensures |s| >= 1
    ensures SoDigitos(s)
    ensures s[0] == '0' ==> n == 0
  {
    if n < 10 then [Digito(n)] else Digitos(n / 10) + [Digito(n % 10)]
  }

  /** Reads back a string of decimal digits (the inverse of `Digitos`). */
  function LerDigitos(s: string): nat
    requires SoDigitos(s)
  {
    if |s| == 0 then 0 else 10 * LerDigitos(s[..|s| - 1]) + ValorDigito(s[|s| - 1])
  }

  /** `Integer.toString(n)`: a minus sign followed by the digits of |n| when n is negative. */
  function IntegerToString(n: int): (s: string)
    ensures |s| >= 1
    ensures s[0] == '-' <==> n < 0
  {
    if n < 0 then "-" + Digitos(-n) else Digitos(n)
  }

  lemma DigitoInverso(d: nat)
    requires d < 10
    ensures ValorDigito(Digito(d)) == d
  {
  }

  /** Reading the digits back gives the number: `Digitos` is the canonical decimal text. */
  lemma {:induction false} LerDigitosDeDigitos(n: nat)
    ensures LerDigitos(Digitos(n)) == n
  {
    var s := Digitos(n);
    if n < 10 {
      DigitoInverso(n);
      assert s[..|s| - 1] == [];
    } else {
      LerDigitosDeDigitos(n / 10);
      DigitoInverso(n % 10);
      assert s[..|s| - 1] == Digitos(n / 10);
    }
  }

  /** `Integer.toString` is the canonical decimal text: after the optional minus sign every
      character is a digit, and the digits read back to |n|. */
  lemma IntegerToStringLeDeVolta(n: int)
    ensures var s := IntegerToString(n);
      var corpo := if n < 0 then s[1..] else s;
      && |corpo| >= 1
      && SoDigitos(corpo)
      && LerDigitos(corpo) == (if n < 0 then -n else n)
  {
    var s := IntegerToString(n);
    if n < 0 {
      var d := Digitos(-n);
      LerDigitosDeDigitos(-n);
      assert s == "-" + d;
      assert s[1..] == d;
    } else {
      LerDigitosDeDigitos(n);
      assert s == Digitos(n);
    }
  }

  /** A number has at most `k` digits exactly when it is below 10^k. */
  lemma {:induction false} TamanhoDigitos(n: nat, k: nat)
    requires k >= 1
    ensures |Digitos(n)| <= k <==> n < Pow10(k)
  {
    if n < 10 {
      assert Pow10(k) == 10 * Pow10(k - 1);
    } else if k == 1 {
      assert |Digitos(n)| == |Digitos(n / 10)| + 1;
      assert Pow10(1) == 10;
    } else {
      TamanhoDigitos(n / 10, k - 1);
      assert |Digitos(n)| == |Digitos(n / 10)| + 1;
      assert Pow10(k) == 10 * Pow10(k - 1);
      assert n / 10 < Pow10(k - 1) <==> n < 10 * Pow10(k - 1);
    }
  }

  /** The text of a Java integer has length 4 exactly for 1000..9999 and, because the
      minus sign is a character, for -999..-100. */
  lemma TextoDeQuatroCaracteres(n: int)
    ensures |IntegerToString(n)| == 4 <==> (1000 <= n <= 9999 || -999 <= n <= -100)
  {
    assert Pow10(2) == 100 && Pow10(3) == 1000 && Pow10(4) == 10000;
    if n < 0 {
      TamanhoDigitos(-n, 2);
      TamanhoDigitos(-n, 3);
    } else {
      if n >= 1 {
        TamanhoDigitos(n, 3);
        TamanhoDigitos(n, 4);
      } else {
        TamanhoDigitos(0, 3);
      }
    }
  }
}
