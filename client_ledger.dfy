/**
 * The client ledger: the financial summary of a client (invoiced total, manual budget
 * override, payments, balance) and the updates the client page makes to a client record
 * (payments, budget override and its reset, projects).  Each update builds a new client
 * value; saving it is the storage's business.
 */
module ClientLedger {
  import opened Wrappers
  import opened Types
  import Keyed

  predicate IsClientInvoice(doc: DocumentData, clientId: string) {
    doc.clientId == Some(clientId) && doc.docType == Facture
  }

  /** `docs.filter(d => d.clientId === id && d.type === FACTURE).reduce((sum, d) => sum + d.totalTTC, 0)`. */
  function InvoiceTotal(docs: seq<DocumentData>, clientId: string): real {
    if docs == [] then 0.0
    else InvoiceTotal(docs[..|docs| - 1], clientId)
         + (if IsClientInvoice(docs[|docs| - 1], clientId) then docs[|docs| - 1].totalTTC else 0.0)
  }

  /** `payments.reduce((sum, p) => sum + p.amount, 0)`. */
  function TotalPaid(payments: seq<Payment>): real {
    if payments == [] then 0.0 else TotalPaid(payments[..|payments| - 1]) + payments[|payments| - 1].amount
  }

  /** The figures the client page shows. */
  datatype Financials = Financials(invoiceTotal: real, finalTotal: real, totalPaid: real, balance: real, isCustom: bool)

  /** `calculateClientFinancials`: the override, when present (even zero), replaces the invoiced total. */
  function CalculateFinancials(client: Client, docs: seq<DocumentData>): Financials {
    var invoiceTotal := InvoiceTotal(docs, client.id);
    var totalPaid := TotalPaid(client.payments);
    var isCustom := client.customTotal.Some?;
    var finalTotal := if isCustom then client.customTotal.value else invoiceTotal;
    Financials(invoiceTotal, finalTotal, totalPaid, finalTotal - totalPaid, isCustom)
  }

  /** `totalDevis`: the sum of grand totals of the quotes among the (already client-filtered) documents. */
  function QuoteTotal(docs: seq<DocumentData>): real {
    if docs == [] then 0.0
    else QuoteTotal(docs[..|docs| - 1]) + (if docs[|docs| - 1].docType == Devis then docs[|docs| - 1].totalTTC else 0.0)
  }

  // An independent reading of the invoiced total: filter first, then sum.

  function ClientDocs(docs: seq<DocumentData>, clientId: string): seq<DocumentData> {
    if docs == [] then []
    else (if docs[0].clientId == Some(clientId) then [docs[0]] else []) + ClientDocs(docs[1..], clientId)
  }

  function Invoices(docs: seq<DocumentData>): seq<DocumentData> {
    if docs == [] then []
    else (if docs[0].docType == Facture then [docs[0]] else []) + Invoices(docs[1..])
  }

  function SumTTC(docs: seq<DocumentData>): real {
    if docs == [] then 0.0 else docs[0].totalTTC + SumTTC(docs[1..])
  }

  lemma {:induction false} InvoiceTotalPrepend(d: DocumentData, docs: seq<DocumentData>, clientId: string)
    ensures InvoiceTotal([d] + docs, clientId)
            == (if IsClientInvoice(d, clientId) then d.totalTTC else 0.0) + InvoiceTotal(docs, clientId)
    decreases |docs|
  {
    if docs != [] {
      var init := docs[..|docs| - 1];
      assert ([d] + docs)[..|docs|] == [d] + init;
      InvoiceTotalPrepend(d, init, clientId);
    } else {
      assert [d][..0] == [];
    }
  }

  /** The invoiced total is the sum of grand totals over exactly this client's invoices: quotes and other clients' documents are left out. */
  lemma {:induction false} InvoiceTotalIsFilteredSum(docs: seq<DocumentData>, clientId: string)
    ensures InvoiceTotal(docs, clientId) == SumTTC(Invoices(ClientDocs(docs, clientId)))
    decreases |docs|
  {
    if docs != [] {
      assert docs == [docs[0]] + docs[1..];
      InvoiceTotalPrepend(docs[0], docs[1..], clientId);
      InvoiceTotalIsFilteredSum(docs[1..], clientId);
      if docs[0].clientId == Some(clientId) {
        assert ClientDocs(docs, clientId) == [docs[0]] + ClientDocs(docs[1..], clientId);
        var cs := ClientDocs(docs[1..], clientId);
        assert ([docs[0]] + cs)[0] == docs[0] && ([docs[0]] + cs)[1..] == cs;
        if docs[0].docType == Facture {
          var inv := Invoices(cs);
          assert Invoices([docs[0]] + cs) == [docs[0]] + inv;
          assert ([docs[0]] + inv)[0] == docs[0] && ([docs[0]] + inv)[1..] == inv;
        } else {
          assert Invoices([docs[0]] + cs) == Invoices(cs);
        }
      } else {
        assert ClientDocs(docs, clientId) == [] + ClientDocs(docs[1..], clientId) == ClientDocs(docs[1..], clientId);
      }
    }
  }

  lemma {:induction false} QuoteTotalPrepend(d: DocumentData, docs: seq<DocumentData>)
    ensures QuoteTotal([d] + docs) == (if d.docType == Devis then d.totalTTC else 0.0) + QuoteTotal(docs)
    decreases |docs|
  {
    if docs != [] {
      var init := docs[..|docs| - 1];
      assert ([d] + docs)[..|docs|] == [d] + init;
      QuoteTotalPrepend(d, init);
    } else {
      assert [d][..0] == [];
    }
  }

  /** Over a client's documents, quotes and invoices together make up every grand total: a document is one or the other. */
  lemma {:induction false} QuotesAndInvoicesPartition(docs: seq<DocumentData>, clientId: string)
    requires forall k :: 0 <= k < |docs| ==> docs[k].clientId == Some(clientId)
    ensures QuoteTotal(docs) + InvoiceTotal(docs, clientId) == SumTTC(docs)
    decreases |docs|
  {
    if docs != [] {
      assert docs == [docs[0]] + docs[1..];
      QuoteTotalPrepend(docs[0], docs[1..]);
      InvoiceTotalPrepend(docs[0], docs[1..], clientId);
      QuotesAndInvoicesPartition(docs[1..], clientId);
    }
  }

  lemma {:induction false} TotalPaidPrepend(p: Payment, payments: seq<Payment>)
    ensures TotalPaid([p] + payments) == p.amount + TotalPaid(payments)
    decreases |payments|
  {
    if payments != [] {
      var init := payments[..|payments| - 1];
      assert ([p] + payments)[..|payments|] == [p] + init;
      TotalPaidPrepend(p, init);
    } else {
      assert [p][..0] == [];
    }
  }

  /** The summary's laws: custom exactly when an override is present, the final total chosen accordingly, the balance may go negative. */
  lemma FinancialsLaws(client: Client, docs: seq<DocumentData>)
    ensures var f := CalculateFinancials(client, docs);
            && (f.isCustom <==> client.customTotal.Some?)
            && f.finalTotal == (if client.customTotal.Some? then client.customTotal.value else f.invoiceTotal)
            && f.balance == f.finalTotal - f.totalPaid
            && f.invoiceTotal == SumTTC(Invoices(ClientDocs(docs, client.id)))
            && (f.totalPaid > f.finalTotal ==> f.balance < 0.0)
    ensures forall o :: CalculateFinancials(client.(customTotal := o), docs).invoiceTotal == CalculateFinancials(client, docs).invoiceTotal
  {
    InvoiceTotalIsFilteredSum(docs, client.id);
  }

  // ---------------------------------------------------------------------------
  // Payments
  // ---------------------------------------------------------------------------

  /** The payment form's partial payment. */
  datatype PaymentDraft = PaymentDraft(amount: Option<real>, paymentMethod: Option<string>, date: Option<string>, note: Option<string>)

  predicate ValidAmount(draft: PaymentDraft) {
    draft.amount.Some? && draft.amount.value > 0.0
  }

  /** The payment recorded for a draft; `freshId` and `now` stand for `Date.now()` and the current ISO time. */
  function NewPayment(draft: PaymentDraft, freshId: string, now: string): Payment
    requires ValidAmount(draft)
  {
    Payment(freshId, NonEmptyOr(draft.date, now), draft.amount.value, NonEmptyOr(draft.paymentMethod, "Espèces"), draft.note)
  }

  /** `handleAddPayment`: a missing, zero or negative amount does nothing; otherwise the payment goes first. */
  function AddPayment(client: Client, draft: PaymentDraft, freshId: string, now: string): Client {
    if !ValidAmount(draft) then client
    else client.(payments := [NewPayment(draft, freshId, now)] + client.payments)
  }

  /** A rejected amount leaves the client as it was. */
  lemma AddPaymentRejects(client: Client, draft: PaymentDraft, freshId: string, now: string, docs: seq<DocumentData>)
    requires draft.amount.None? || draft.amount.value <= 0.0
    ensures AddPayment(client, draft, freshId, now) == client
    ensures CalculateFinancials(AddPayment(client, draft, freshId, now), docs) == CalculateFinancials(client, docs)
  {
  }

  /** A valid payment goes first, with the entered method or cash, the entered date or now, and the note; the older payments keep their order, nothing else changes, and the amount paid grows by exactly the amount. */
  lemma AddPaymentPrepends(client: Client, draft: PaymentDraft, freshId: string, now: string, docs: seq<DocumentData>)
    requires draft.amount.Some? && draft.amount.value > 0.0
    ensures var r := AddPayment(client, draft, freshId, now);
            && |r.payments| == |client.payments| + 1
            && r.payments[1..] == client.payments
            && r.payments[0].amount == draft.amount.value
            && r.payments[0].id == freshId
            && r.payments[0].paymentMethod == NonEmptyOr(draft.paymentMethod, "Espèces")
            && (draft.paymentMethod.None? || draft.paymentMethod == Some("") ==> r.payments[0].paymentMethod == "Espèces")
            && (draft.paymentMethod.Some? && draft.paymentMethod.value != "" ==> r.payments[0].paymentMethod == draft.paymentMethod.value)
            && r.payments[0].date == NonEmptyOr(draft.date, now)
            && (draft.date.None? || draft.date == Some("") ==> r.payments[0].date == now)
            && (draft.date.Some? && draft.date.value != "" ==> r.payments[0].date == draft.date.value)
            && r.payments[0].note == draft.note
            && r.(payments := client.payments) == client
    ensures TotalPaid(AddPayment(client, draft, freshId, now).payments) == TotalPaid(client.payments) + draft.amount.value
    ensures CalculateFinancials(AddPayment(client, draft, freshId, now), docs).balance
            == CalculateFinancials(client, docs).balance - draft.amount.value
  {
    TotalPaidPrepend(NewPayment(draft, freshId, now), client.payments);
  }

  // ---------------------------------------------------------------------------
  // Budget override
  // ---------------------------------------------------------------------------

  /** `handleBudgetAdjustment`: a positive amount sets the override, anything else clears it; the note is stored verbatim either way. */
  function SetBudget(client: Client, amount: real, note: string): Client {
    client.(customTotal := if amount > 0.0 then Some(amount) else None, customTotalNote := Some(note))
  }

  /** "Réinitialiser (Auto)": both override fields cleared. */
  function ResetBudget(client: Client): Client {
    client.(customTotal := None, customTotalNote := None)
  }

  lemma SetBudgetEffect(client: Client, amount: real, note: string, docs: seq<DocumentData>)
    ensures var r := SetBudget(client, amount, note);
            var f := CalculateFinancials(r, docs);
            && r.customTotalNote == Some(note)
            && (amount > 0.0 ==> f.isCustom && f.finalTotal == amount)
            && (amount <= 0.0 ==> !f.isCustom && f.finalTotal == f.invoiceTotal)
            && f.invoiceTotal == CalculateFinancials(client, docs).invoiceTotal
            && f.totalPaid == CalculateFinancials(client, docs).totalPaid
            && r.(customTotal := client.customTotal, customTotalNote := client.customTotalNote) == client
  {
  }

  /** After the reset the client is in automatic mode: the final total is the invoiced total. */
  lemma ResetBudgetEffect(client: Client, docs: seq<DocumentData>)
    ensures var r := ResetBudget(client);
            var f := CalculateFinancials(r, docs);
            && r.customTotal.None? && r.customTotalNote.None?
            && !f.isCustom && f.finalTotal == f.invoiceTotal
            && f.balance == f.invoiceTotal - f.totalPaid
            && r.(customTotal := client.customTotal, customTotalNote := client.customTotalNote) == client
  {
  }

  // ---------------------------------------------------------------------------
  // Projects
  // ---------------------------------------------------------------------------

  /** The project form's partial project. */
  datatype ProjectDraft = ProjectDraft(
    title: Option<string>,
    description: Option<string>,
    date: Option<string>,
    beforeImages: Option<seq<ProjectImage>>,
    afterImages: Option<seq<ProjectImage>>)

  /** `handleAddProject`: an empty title does nothing; otherwise the project goes first. */
  function AddProject(client: Client, draft: ProjectDraft, freshId: string, now: string): Client {
    if draft.title.None? || draft.title.value == "" then client
    else
      var project := Project(freshId, draft.title.value, NonEmptyOr(draft.description, ""), NonEmptyOr(draft.date, now),
                             draft.beforeImages.GetOr([]), draft.afterImages.GetOr([]));
      client.(projects := [project] + client.projects)
  }

  /** `handleDeleteProject`, once confirmed: the projects with that id are dropped. */
  function DeleteProject(client: Client, projectId: string): Client {
    client.(projects := Keyed.RemoveById(client.projects, ProjectId, projectId))
  }

  lemma AddProjectLaws(client: Client, draft: ProjectDraft, freshId: string, now: string)
    ensures draft.title.None? || draft.title == Some("") ==> AddProject(client, draft, freshId, now) == client
    ensures draft.title.Some? && draft.title.value != "" ==>
              var r := AddProject(client, draft, freshId, now);
              && r.projects[1..] == client.projects
              && r.projects[0].id == freshId && r.projects[0].title == draft.title.value
              && r.(projects := client.projects) == client
  {
  }

  /** Deleting removes only the projects with a matching id; deleting a project just added restores the list as it was without that id. */
  lemma DeleteProjectLaws(client: Client, projectId: string, draft: ProjectDraft, now: string)
    ensures forall k :: 0 <= k < |DeleteProject(client, projectId).projects| ==> DeleteProject(client, projectId).projects[k].id != projectId
    ensures forall p :: multiset(DeleteProject(client, projectId).projects)[p]
                        == if p.id == projectId then 0 else multiset(client.projects)[p]
    ensures DeleteProject(client, projectId).(projects := client.projects) == client
    ensures DeleteProject(AddProject(client, draft, projectId, now), projectId) == DeleteProject(client, projectId)
    ensures !Keyed.HasId(client.projects, ProjectId, projectId) ==>
              DeleteProject(AddProject(client, draft, projectId, now), projectId) == client
  {
    forall p ensures multiset(DeleteProject(client, projectId).projects)[p]
                     == if p.id == projectId then 0 else multiset(client.projects)[p] {
      Keyed.RemoveCounts(client.projects, ProjectId, projectId, p);
    }
    var added := AddProject(client, draft, projectId, now);
    if added != client {
      Keyed.RemoveConcat([added.projects[0]], client.projects, ProjectId, projectId);
      assert added.projects == [added.projects[0]] + client.projects;
    }
    if !Keyed.HasId(client.projects, ProjectId, projectId) {
      Keyed.RemoveAbsent(client.projects, ProjectId, projectId);
    }
  }

  // ---------------------------------------------------------------------------
  // Worked cases
  // ---------------------------------------------------------------------------

  function Invoice(clientId: string, totalTTC: real): DocumentData {
    DocumentData("", Some(clientId), Facture, "", "", Sent, None, "", "", None, None, None, "", [],
                 totalTTC, None, 20.0, 0.0, totalTTC, None, None, None, None, "DH")
  }

  function Paid(amount: real): Payment {
    Payment("", "", amount, "Espèces", None)
  }

  /** Two invoices of 3000 and 2000 and payments of 2000 and 1000: owed 2000 in automatic mode, 1000 with an override of 4000, which still shows the invoiced 5000. */
  lemma BalanceCases(client: Client)
    requires client.payments == [Paid(2000.0), Paid(1000.0)]
    ensures var docs := [Invoice(client.id, 3000.0), Invoice(client.id, 2000.0)];
            && CalculateFinancials(client.(customTotal := None), docs) == Financials(5000.0, 5000.0, 3000.0, 2000.0, false)
            && CalculateFinancials(client.(customTotal := Some(4000.0)), docs) == Financials(5000.0, 4000.0, 3000.0, 1000.0, true)
  {
    var docs := [Invoice(client.id, 3000.0), Invoice(client.id, 2000.0)];
    assert docs[..1] == [docs[0]] && docs[..1][..0] == [];
    assert client.payments[..1] == [client.payments[0]] && client.payments[..1][..0] == [];
    assert InvoiceTotal(docs[..1], client.id) == 3000.0;
    assert InvoiceTotal(docs, client.id) == 5000.0;
    assert TotalPaid(client.payments[..1]) == 2000.0;
    assert TotalPaid(client.payments) == 3000.0;
  }
}
