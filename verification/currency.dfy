/** The currency whitelist consulted before an account is created or a transfer is made. */
module Currency {

  const EUR: string := "EUR"
  const CAD: string := "CAD"
  const USD: string := "USD"
  const GBP: string := "GBP"
  const GHS: string := "GHS"
  const NGN: string := "NGN"
  const KES: string := "KES"
  const FCFA: string := "FCFA"
  const ZAR: string := "ZAR"
  const YEN: string := "YEN"
  const CNY: string := "CNY"

  /** Every currency code the package declares, in declaration order. */
  const Declared: seq<string> := [EUR, CAD, USD, GBP, GHS, NGN, KES, FCFA, ZAR, YEN, CNY]

  /** The codes a transfer or an account may use. */
  const Accepted: set<string> := {EUR, CAD, USD, GBP, GHS, NGN, KES, FCFA, ZAR, CNY}

  /** A code made only of the capital letters A to Z, three or four of them. */
  predicate IsUpperCode(c: string) {
    3 <= |c| <= 4 && forall i :: 0 <= i < |c| ==> 'A' <= c[i] <= 'Z'
  }

  /** Exact, case-sensitive membership in the whitelist; `YEN` is declared but not accepted. */
  function IsSupportedCurrency(currency: string): (ok: bool)
    ensures ok <==> currency in Accepted
    ensures ok ==> currency in Declared && currency != YEN
    ensures ok ==> IsUpperCode(currency)
  {
    currency == EUR || currency == CAD || currency == USD || currency == GBP || currency == GHS
    || currency == NGN || currency == KES || currency == FCFA || currency == ZAR || currency == CNY
  }

  /** The accepted codes are a strict subset of the declared ones, and `YEN` is the difference. */
  lemma AcceptedStrictlyInsideDeclared()
    ensures forall c :: c in Accepted ==> c in Declared
    ensures forall i :: 0 <= i < |Declared| ==> Declared[i] in Accepted || Declared[i] == YEN
    ensures YEN in Declared && YEN !in Accepted
    ensures !IsSupportedCurrency(YEN)
  {
    assert Declared[9] == YEN;
  }

  /** A code containing any character outside `A`..`Z`, or of the wrong length, is rejected:
      lower-case spellings, padded codes and the empty string among them. */
  lemma OnlyExactCodesAccepted(currency: string, i: int)
    requires (0 <= i < |currency| && !('A' <= currency[i] <= 'Z')) || |currency| < 3 || |currency| > 4
    ensures !IsSupportedCurrency(currency)
  {
  }

  /** Concrete instances of the exact-match rule. */
  lemma ExactMatchExamples()
    ensures !IsSupportedCurrency("usd") && !IsSupportedCurrency(" USD") && !IsSupportedCurrency("USD ")
    ensures !IsSupportedCurrency("") && !IsSupportedCurrency("Eur")
    ensures IsSupportedCurrency("FCFA") && IsSupportedCurrency("CNY")
  {
    OnlyExactCodesAccepted("usd", 0);
    OnlyExactCodesAccepted(" USD", 0);
    OnlyExactCodesAccepted("USD ", 3);
    OnlyExactCodesAccepted("", 0);
    OnlyExactCodesAccepted("Eur", 1);
  }
}
