/**
 * The application's records.  A field the TypeScript declares optional (`x?: T`)
 * is an `Option`.  Amounts are exact reals.
 */
module Types {
  import opened Wrappers

  /** A quote (devis) or an invoice (facture); there are exactly these two kinds. */
  datatype DocType = Devis | Facture

  datatype DocStatus = Draft | Sent | Paid | Accepted

  datatype TemplateType = Classic | Minimal | Modern

  /**
   * The company profile.  `docNumberFormat` and `docNumberPrefix` are read by the
   * numbering code and set in the fixture although the interface does not declare
   * them; here they are optional fields of the record.
   */
  datatype CompanyProfile = CompanyProfile(
    name: string,
    address: string,
    phone: string,
    email: string,
    website: Option<string>,
    ice: Option<string>,
    rc: Option<string>,
    ifTax: Option<string>,
    cnss: Option<string>,
    patente: Option<string>,
    bankName: Option<string>,
    rib: Option<string>,
    logoUrl: Option<string>,
    docNumberFormat: Option<string>,
    docNumberPrefix: Option<string>)

  /** A payment received; the source's `method` field (Espèces, Chèque, Virement) is `paymentMethod`. */
  datatype Payment = Payment(id: string, date: string, amount: real, paymentMethod: string, note: Option<string>)

  datatype ProjectImage = ProjectImage(id: string, url: string, caption: Option<string>)

  datatype Project = Project(
    id: string,
    title: string,
    description: string,
    date: string,
    beforeImages: seq<ProjectImage>,
    afterImages: seq<ProjectImage>)

  /** A client; `customTotal` and `customTotalNote` are the manual budget override, each optional on its own. */
  datatype Client = Client(
    id: string,
    name: string,
    email: string,
    phone: string,
    address: string,
    ice: string,
    payments: seq<Payment>,
    projects: seq<Project>,
    notes: Option<string>,
    createdAt: string,
    customTotal: Option<real>,
    customTotalNote: Option<string>)

  datatype Supplier = Supplier(
    id: string,
    name: string,
    category: string,
    phone: string,
    email: string,
    address: string,
    ice: Option<string>,
    notes: Option<string>)

  /**
   * One row of a document.  With `isTotalOverridden` the stored `total` is authoritative
   * and is not recalculated; a row with `isSectionHeader` is a category heading, not a
   * priced line.
   */
  datatype DocItem = DocItem(
    id: string,
    designation: string,
    quantity: real,
    unitPrice: real,
    total: real,
    isTotalOverridden: bool,
    isSectionHeader: bool)

  /**
   * A quote or invoice.  The client fields are a copy taken when the client was chosen,
   * linked by the optional `clientId`, not a live view of the client record.
   * `hasVat` and `template` are declared required but documents stored by older versions
   * lack them, so they are optional here as they are in storage; the field the source
   * calls `object` (the "Objet" line) is `subject`, `type` is `docType`.
   */
  datatype DocumentData = DocumentData(
    id: string,
    clientId: Option<string>,
    docType: DocType,
    number: string,
    date: string,
    status: DocStatus,
    template: Option<TemplateType>,
    clientName: string,
    clientAddress: string,
    clientIce: Option<string>,
    clientEmail: Option<string>,
    clientPhone: Option<string>,
    subject: string,
    items: seq<DocItem>,
    subTotal: real,
    hasVat: Option<bool>,
    vatRate: real,
    vatAmount: real,
    totalTTC: real,
    hasDeposit: Option<bool>,
    depositPercentage: Option<real>,
    depositAmount: Option<real>,
    notes: Option<string>,
    currency: string)

  /** The `id` of each keyed record, for the keyed collections. */
  function ItemId(item: DocItem): string { item.id }
  function DocumentId(doc: DocumentData): string { doc.id }
  function ClientId(client: Client): string { client.id }
  function SupplierId(supplier: Supplier): string { supplier.id }
  function ProjectId(project: Project): string { project.id }

  /** JavaScript truthiness of an optional boolean: `undefined` counts as false. */
  predicate IsTrue(b: Option<bool>) {
    b == Some(true)
  }

  /** `s || fallback` for an optional string: an absent or empty string gives way. */
  function NonEmptyOr(s: Option<string>, fallback: string): string {
    if s.Some? && s.value != "" then s.value else fallback
  }
}
