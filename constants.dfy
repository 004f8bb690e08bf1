/**
 * The fixtures: the default company profile and the document a new quote starts from.
 * The sample document reads the clock when the module loads; here the month, year and
 * the day's ISO date are parameters.
 */
module Constants {
  import opened Wrappers
  import opened Types
  import Decimal

  const InitialProfile: CompanyProfile := CompanyProfile(
    "Ma Société S.A.R.L",
    "123 Bd Mohammed V, Casablanca, Maroc",
    "+212 6 00 00 00 00",
    "contact@masociete.com",
    None,
    Some("001234567890000"),
    Some("12345"),
    Some("9876543"),
    None,
    None,
    Some("Attijariwafa Bank"),
    Some("123 456 7890000000000000 00"),
    None,
    Some("seq-mmyy"),
    Some(""))

  const SampleItem: DocItem := DocItem("1", "Service ou produit exemple", 1.0, 100.0, 100.0, false, false)

  /** The number the sample document carries: `1-MMYY` for the month it was loaded in. */
  function InitialNumber(month: nat, year: nat): string {
    "1-" + Decimal.PeriodSuffix(month, year)
  }

  function InitialDocument(month: nat, year: nat, today: string): DocumentData {
    DocumentData(
      "", None, Devis, InitialNumber(month, year), today, Draft, Some(Classic),
      "", "", Some(""), Some(""), Some(""), "",
      [SampleItem],
      100.0, Some(false), 20.0, 0.0, 100.0,
      Some(true), Some(50.0), Some(50.0),
      None, "DH")
  }

  /** The fixture's sample row is self-consistent and its amounts agree with one another. */
  lemma InitialDocumentAmounts(month: nat, year: nat, today: string)
    ensures var d := InitialDocument(month, year, today);
            && |d.items| == 1
            && !d.items[0].isSectionHeader && !d.items[0].isTotalOverridden
            && d.items[0].total == d.items[0].quantity * d.items[0].unitPrice
            && d.subTotal == d.items[0].total
            && !IsTrue(d.hasVat) && d.vatAmount == 0.0 && d.totalTTC == d.subTotal
            && IsTrue(d.hasDeposit) && d.depositAmount == Some(d.totalTTC * (d.depositPercentage.value / 100.0))
  {
  }

  /** The profile's numbering defaults: `seq-mmyy` with no prefix. */
  lemma InitialProfileNumbering()
    ensures InitialProfile.docNumberFormat == Some("seq-mmyy")
    ensures InitialProfile.docNumberPrefix == Some("")
  {
  }
}
