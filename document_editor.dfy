/**
 * The document editor's line-item and totals engine: the recompute pass that keeps rows,
 * subtotal, VAT, grand total and deposit consistent, the per-row edits, the row list
 * operations, the client snapshot and the defaults applied to a loaded document.
 * React's state and effect are replaced by explicit calls: `Recompute` is the effect.
 */
module DocumentEditor {
  import opened Wrappers
  import opened Types
  import Keyed
  import Constants

  // ---------------------------------------------------------------------------
  // The recompute pass
  // ---------------------------------------------------------------------------

  /** `quantity * unitPrice`. */
  function AutoTotal(item: DocItem): real {
    item.quantity * item.unitPrice
  }

  /** What one row adds to the subtotal: nothing for a header, the stored total when overridden. */
  function Contribution(item: DocItem): real {
    if item.isSectionHeader then 0.0
    else if item.isTotalOverridden then item.total
    else AutoTotal(item)
  }

  /** The row the pass returns: a stale automatic total is rewritten, anything else is returned as it is. */
  function Healed(item: DocItem): DocItem {
    if item.isSectionHeader then item
    else if !item.isTotalOverridden && item.total != AutoTotal(item) then item.(total := AutoTotal(item))
    else item
  }

  /** A row the pass has nothing to rewrite in. */
  predicate RowConsistent(item: DocItem) {
    item.isSectionHeader || item.isTotalOverridden || item.total == AutoTotal(item)
  }

  function HealAll(items: seq<DocItem>): (r: seq<DocItem>)
    ensures |r| == |items| && forall i :: 0 <= i < |items| ==> r[i] == Healed(items[i])
  {
    seq(|items|, i requires 0 <= i < |items| => Healed(items[i]))
  }

  /** The running `subTotal += finalTotal` of the pass, in the order of the rows. */
  function SubTotalOf(items: seq<DocItem>): real {
    if items == [] then 0.0 else SubTotalOf(items[..|items| - 1]) + Contribution(items[|items| - 1])
  }

  function VatAmountOf(hasVat: Option<bool>, vatRate: real, subTotal: real): real {
    if IsTrue(hasVat) then subTotal * (vatRate / 100.0) else 0.0
  }

  /** `hasDeposit && depositPercentage && depositPercentage > 0`: an absent or zero percentage gives none. */
  function DepositAmountOf(hasDeposit: Option<bool>, depositPercentage: Option<real>, totalTTC: real): real {
    if IsTrue(hasDeposit) && depositPercentage.Some? && depositPercentage.value > 0.0
    then totalTTC * (depositPercentage.value / 100.0)
    else 0.0
  }

  /**
   * The document after one auto-calculation pass.  When no row and no total differs the
   * document is returned as it is (no state update happens); `items` is replaced only
   * when some row changed.
   */
  function Recomputed(doc: DocumentData): DocumentData {
    var newItems := HealAll(doc.items);
    var subTotal := SubTotalOf(doc.items);
    var vatAmount := VatAmountOf(doc.hasVat, doc.vatRate, subTotal);
    var totalTTC := subTotal + vatAmount;
    var depositAmount := DepositAmountOf(doc.hasDeposit, doc.depositPercentage, totalTTC);
    var itemsChanged := newItems != doc.items;
    if itemsChanged || subTotal != doc.subTotal || totalTTC != doc.totalTTC
       || vatAmount != doc.vatAmount || Some(depositAmount) != doc.depositAmount
    then doc.(items := if itemsChanged then newItems else doc.items,
              subTotal := subTotal, vatAmount := vatAmount, totalTTC := totalTTC,
              depositAmount := Some(depositAmount))
    else doc
  }

  /**
   * The auto-calculation effect, step by step: one pass over the rows that accumulates the
   * subtotal and builds the new rows, then the global totals and the conditional update.
   * `updated` says whether the state is set.
   */
  method Recompute(doc: DocumentData) returns (next: DocumentData, updated: bool)
    ensures next == Recomputed(doc)
    ensures updated <==> next != doc
  {
    var newItems, subTotal := HealRows(doc.items);
    var itemsChanged := newItems != doc.items;
    var vatAmount := if doc.hasVat == Some(true) then subTotal * (doc.vatRate / 100.0) else 0.0;
    var totalTTC := subTotal + vatAmount;
    var depositAmount := if doc.hasDeposit == Some(true) && doc.depositPercentage.Some? && doc.depositPercentage.value > 0.0
      then totalTTC * (doc.depositPercentage.value / 100.0) else 0.0;
    assert vatAmount == VatAmountOf(doc.hasVat, doc.vatRate, subTotal);
    assert depositAmount == DepositAmountOf(doc.hasDeposit, doc.depositPercentage, totalTTC);
    updated := itemsChanged || subTotal != doc.subTotal || totalTTC != doc.totalTTC
      || vatAmount != doc.vatAmount || Some(depositAmount) != doc.depositAmount;
    if updated {
      next := doc.(items := if itemsChanged then newItems else doc.items,
                   subTotal := subTotal, vatAmount := vatAmount, totalTTC := totalTTC,
                   depositAmount := Some(depositAmount));
    } else {
      next := doc;
    }
  }

  /**
   * The loop of the auto-calculation effect: every row is healed into a fresh array and the
   * subtotal accumulates each line's final total.
   */
  method HealRows(items: seq<DocItem>) returns (newRows: seq<DocItem>, subTotal: real)
    ensures newRows == HealAll(items)
    ensures subTotal == SubTotalOf(items)
  {
    var n := |items|;
    var newItems := new DocItem[n];
    subTotal := 0.0;
    var i := 0;
    while i < n
      invariant 0 <= i <= n
      invariant forall k :: 0 <= k < i ==> newItems[k] == Healed(items[k])
      invariant subTotal == SubTotalOf(items[..i])
    {
      var item := items[i];
      assert items[..i + 1][..i] == items[..i];
      if item.isSectionHeader {
        newItems[i] := item;
      } else {
        var autoTotal := item.quantity * item.unitPrice;
        var finalTotal := if item.isTotalOverridden then item.total else autoTotal;
        subTotal := subTotal + finalTotal;
        if !item.isTotalOverridden && item.total != autoTotal {
          newItems[i] := item.(total := autoTotal);
        } else {
          newItems[i] := item;
        }
      }
      i := i + 1;
    }
    assert items[..n] == items;
    newRows := newItems[..];
    assert newRows == HealAll(items);
  }

  /** A document the pass leaves untouched: every row consistent and every total derived. */
  predicate Consistent(doc: DocumentData) {
    && (forall i :: 0 <= i < |doc.items| ==> RowConsistent(doc.items[i]))
    && doc.subTotal == SubTotalOf(doc.items)
    && doc.vatAmount == VatAmountOf(doc.hasVat, doc.vatRate, doc.subTotal)
    && doc.totalTTC == doc.subTotal + doc.vatAmount
    && doc.depositAmount == Some(DepositAmountOf(doc.hasDeposit, doc.depositPercentage, doc.totalTTC))
  }

  lemma HealedIsConsistent(item: DocItem)
    ensures RowConsistent(Healed(item))
    ensures Contribution(Healed(item)) == Contribution(item)
    ensures Healed(item) == item <==> RowConsistent(item)
  {
  }

  lemma HealAllIdentity(items: seq<DocItem>)
    ensures HealAll(items) == items <==> forall i :: 0 <= i < |items| ==> RowConsistent(items[i])
  {
    if forall i :: 0 <= i < |items| ==> RowConsistent(items[i]) {
      assert forall i :: 0 <= i < |items| ==> HealAll(items)[i] == items[i];
    }
  }

  /** The rows after the pass: same length, each the healed version of the row at its place. */
  lemma RecomputedRows(doc: DocumentData)
    ensures |Recomputed(doc).items| == |doc.items|
    ensures Recomputed(doc).items == HealAll(doc.items)
  {
    HealAllIdentity(doc.items);
    if HealAll(doc.items) == doc.items {
    }
  }

  /** An automatic row is rewritten to `quantity * unitPrice`, stale or not; nothing else in it changes. */
  lemma RecomputeHealsAutoRow(doc: DocumentData, i: nat)
    requires i < |doc.items|
    requires !doc.items[i].isSectionHeader && !doc.items[i].isTotalOverridden
    ensures Recomputed(doc).items[i] == doc.items[i].(total := doc.items[i].quantity * doc.items[i].unitPrice)
  {
    RecomputedRows(doc);
  }

  /** An overridden row keeps its stored total and a section header is returned unchanged. */
  lemma RecomputeKeepsFixedRow(doc: DocumentData, i: nat)
    requires i < |doc.items|
    requires doc.items[i].isSectionHeader || doc.items[i].isTotalOverridden
    ensures Recomputed(doc).items[i] == doc.items[i]
  {
    RecomputedRows(doc);
  }

  /** `items` is replaced exactly when some row was stale. */
  lemma RecomputeReplacesItemsOnlyWhenStale(doc: DocumentData)
    ensures Recomputed(doc).items == doc.items <==> forall i :: 0 <= i < |doc.items| ==> RowConsistent(doc.items[i])
  {
    RecomputedRows(doc);
    HealAllIdentity(doc.items);
  }

  /** The derived totals after the pass, by the formulas of the source. */
  lemma RecomputeTotals(doc: DocumentData)
    ensures Recomputed(doc).subTotal == SubTotalOf(doc.items)
    ensures Recomputed(doc).vatAmount
            == if IsTrue(doc.hasVat) then Recomputed(doc).subTotal * (doc.vatRate / 100.0) else 0.0
    ensures Recomputed(doc).totalTTC == Recomputed(doc).subTotal + Recomputed(doc).vatAmount
    ensures Recomputed(doc).depositAmount.Some?
    ensures Recomputed(doc).depositAmount.value
            == if IsTrue(doc.hasDeposit) && doc.depositPercentage.Some? && doc.depositPercentage.value > 0.0
               then Recomputed(doc).totalTTC * (doc.depositPercentage.value / 100.0) else 0.0
    ensures !IsTrue(doc.hasVat) ==> Recomputed(doc).vatAmount == 0.0 && Recomputed(doc).totalTTC == Recomputed(doc).subTotal
    ensures !IsTrue(doc.hasDeposit) ==> Recomputed(doc).depositAmount == Some(0.0)
  {
  }

  /** The pass changes only rows and totals: flags, rates, client copy and the rest are kept. */
  lemma RecomputeKeepsInputs(doc: DocumentData)
    ensures var r := Recomputed(doc);
            r.(items := doc.items, subTotal := doc.subTotal, vatAmount := doc.vatAmount,
               totalTTC := doc.totalTTC, depositAmount := doc.depositAmount) == doc
  {
  }

  // Subtotal laws

  lemma {:induction false} SubTotalConcat(a: seq<DocItem>, b: seq<DocItem>)
    ensures SubTotalOf(a + b) == SubTotalOf(a) + SubTotalOf(b)
    decreases |b|
  {
    if b == [] {
      assert a + b == a;
    } else {
      var b' := b[..|b| - 1];
      assert (a + b)[..|a + b| - 1] == a + b';
      SubTotalConcat(a, b');
    }
  }

  /** A section header adds nothing to the subtotal, whatever its amounts. */
  lemma SubTotalSkipsHeader(a: seq<DocItem>, header: DocItem, b: seq<DocItem>)
    requires header.isSectionHeader
    ensures SubTotalOf(a + [header] + b) == SubTotalOf(a + b)
  {
    SubTotalConcat(a + [header], b);
    SubTotalConcat(a, [header]);
    SubTotalConcat(a, b);
    assert [header][..0] == [];
  }

  /** An overridden row adds its stored total, not `quantity * unitPrice`. */
  lemma SubTotalCountsOverride(a: seq<DocItem>, item: DocItem, b: seq<DocItem>)
    requires item.isTotalOverridden && !item.isSectionHeader
    ensures SubTotalOf(a + [item] + b) == SubTotalOf(a) + item.total + SubTotalOf(b)
  {
    SubTotalConcat(a + [item], b);
    SubTotalConcat(a, [item]);
    assert [item][..0] == [];
  }

  /** Healing the rows does not change the subtotal they give. */
  lemma {:induction false} SubTotalOfHealed(items: seq<DocItem>)
    ensures SubTotalOf(HealAll(items)) == SubTotalOf(items)
    decreases |items|
  {
    if items != [] {
      var init := items[..|items| - 1];
      assert HealAll(items)[..|items| - 1] == HealAll(init);
      HealedIsConsistent(items[|items| - 1]);
      SubTotalOfHealed(init);
    }
  }

  // Fixed points and idempotence

  /** The pass leaves a document as it is exactly when the document is consistent. */
  lemma FixedPointIffConsistent(doc: DocumentData)
    ensures Recomputed(doc) == doc <==> Consistent(doc)
  {
    HealAllIdentity(doc.items);
  }

  /** One pass makes any document consistent. */
  lemma RecomputedIsConsistent(doc: DocumentData)
    ensures Consistent(Recomputed(doc))
  {
    var r := Recomputed(doc);
    RecomputedRows(doc);
    forall i | 0 <= i < |r.items| ensures RowConsistent(r.items[i]) {
      HealedIsConsistent(doc.items[i]);
    }
    SubTotalOfHealed(doc.items);
  }

  /** Recomputing twice gives the same document as recomputing once, and the second pass updates nothing. */
  lemma RecomputeIdempotent(doc: DocumentData)
    ensures Recomputed(Recomputed(doc)) == Recomputed(doc)
  {
    RecomputedIsConsistent(doc);
    FixedPointIffConsistent(Recomputed(doc));
  }

  // ---------------------------------------------------------------------------
  // Per-row edits
  // ---------------------------------------------------------------------------

  /** `handleItemChange(id, field, value)`: which field of the row is set, and to what. */
  datatype ItemEdit =
    | SetId(newId: string)
    | SetDesignation(designation: string)
    | SetQuantity(quantity: real)
    | SetUnitPrice(unitPrice: real)
    | SetTotal(total: real)
    | SetTotalOverridden(overridden: bool)
    | SetSectionHeader(header: bool)

  /** The row after one edit: a quantity or price edit clears the override, a total edit sets it. */
  function ApplyEdit(item: DocItem, edit: ItemEdit): DocItem {
    match edit
    case SetId(v) => item.(id := v)
    case SetDesignation(v) => item.(designation := v)
    case SetQuantity(v) => item.(quantity := v, isTotalOverridden := false)
    case SetUnitPrice(v) => item.(unitPrice := v, isTotalOverridden := false)
    case SetTotal(v) => item.(total := v, isTotalOverridden := true)
    case SetTotalOverridden(v) => item.(isTotalOverridden := v)
    case SetSectionHeader(v) => item.(isSectionHeader := v)
  }

  /** Every row with the given id gets the edit; the "↺" reset is `SetTotalOverridden(false)`. */
  function ChangeItem(doc: DocumentData, id: string, edit: ItemEdit): DocumentData {
    doc.(items := seq(|doc.items|, k requires 0 <= k < |doc.items| =>
                    if doc.items[k].id == id then ApplyEdit(doc.items[k], edit) else doc.items[k]))
  }

  /** An edit touches only the rows with that id, and nothing outside the rows. */
  lemma ChangeItemScope(doc: DocumentData, id: string, edit: ItemEdit)
    ensures var r := ChangeItem(doc, id, edit);
            && |r.items| == |doc.items|
            && r.(items := doc.items) == doc
            && (forall k :: 0 <= k < |doc.items| && doc.items[k].id != id ==> r.items[k] == doc.items[k])
            && (forall k :: 0 <= k < |doc.items| && doc.items[k].id == id ==> r.items[k] == ApplyEdit(doc.items[k], edit))
  {
  }

  /**
   * An edit stores the new value in its field and changes nothing else, except that a
   * quantity or price edit clears the override flag and a total edit sets it.
   */
  lemma EditOverrideRules(item: DocItem, edit: ItemEdit)
    ensures (edit.SetQuantity? || edit.SetUnitPrice?) ==> !ApplyEdit(item, edit).isTotalOverridden
    ensures edit.SetQuantity? ==> ApplyEdit(item, edit) == item.(quantity := edit.quantity, isTotalOverridden := false)
    ensures edit.SetUnitPrice? ==> ApplyEdit(item, edit) == item.(unitPrice := edit.unitPrice, isTotalOverridden := false)
    ensures edit.SetTotal? ==> ApplyEdit(item, edit).isTotalOverridden && ApplyEdit(item, edit).total == edit.total
    ensures edit.SetTotal? ==> ApplyEdit(item, edit) == item.(total := edit.total, isTotalOverridden := true)
    ensures edit.SetTotalOverridden? ==> ApplyEdit(item, edit) == item.(isTotalOverridden := edit.overridden)
    ensures edit.SetId? ==> ApplyEdit(item, edit) == item.(id := edit.newId)
    ensures edit.SetDesignation? ==> ApplyEdit(item, edit) == item.(designation := edit.designation)
    ensures edit.SetSectionHeader? ==> ApplyEdit(item, edit) == item.(isSectionHeader := edit.header)
    ensures (edit.SetId? || edit.SetDesignation? || edit.SetSectionHeader?) ==>
              ApplyEdit(item, edit).isTotalOverridden == item.isTotalOverridden
              && ApplyEdit(item, edit).total == item.total
  {
  }

  /** After a quantity or price edit and a pass, the row's total is the new `quantity * unitPrice`. */
  lemma PriceEditThenRecompute(doc: DocumentData, id: string, edit: ItemEdit, k: nat)
    requires edit.SetQuantity? || edit.SetUnitPrice?
    requires k < |doc.items| && doc.items[k].id == id && !doc.items[k].isSectionHeader
    ensures var edited := ChangeItem(doc, id, edit).items[k];
            var row := Recomputed(ChangeItem(doc, id, edit)).items[k];
            && !row.isTotalOverridden
            && row.total == edited.quantity * edited.unitPrice
            && (edit.SetQuantity? ==> row.quantity == edit.quantity)
            && (edit.SetUnitPrice? ==> row.unitPrice == edit.unitPrice)
  {
    RecomputeHealsAutoRow(ChangeItem(doc, id, edit), k);
  }

  /** After a total edit and a pass, the typed total stays and is what the subtotal counts. */
  lemma TotalEditThenRecompute(doc: DocumentData, id: string, t: real, k: nat)
    requires k < |doc.items| && doc.items[k].id == id && !doc.items[k].isSectionHeader
    ensures var row := Recomputed(ChangeItem(doc, id, SetTotal(t))).items[k];
            row.isTotalOverridden && row.total == t && Contribution(row) == t
  {
    RecomputeKeepsFixedRow(ChangeItem(doc, id, SetTotal(t)), k);
  }

  /** The "↺" button followed by a pass puts the row back to `quantity * unitPrice`. */
  lemma ResetThenRecompute(doc: DocumentData, id: string, k: nat)
    requires k < |doc.items| && doc.items[k].id == id && !doc.items[k].isSectionHeader
    ensures Recomputed(ChangeItem(doc, id, SetTotalOverridden(false))).items[k]
            == doc.items[k].(isTotalOverridden := false, total := AutoTotal(doc.items[k]))
  {
    RecomputeHealsAutoRow(ChangeItem(doc, id, SetTotalOverridden(false)), k);
  }

  // ---------------------------------------------------------------------------
  // Row list operations
  // ---------------------------------------------------------------------------

  /** The blank line `addItem` appends; `freshId` stands for the random id. */
  function NewLine(freshId: string): DocItem {
    DocItem(freshId, "", 1.0, 0.0, 0.0, false, false)
  }

  /** The heading `addSection` appends. */
  function NewSection(freshId: string): DocItem {
    DocItem(freshId, "Nouvelle section", 0.0, 0.0, 0.0, true, true)
  }

  function AddItem(doc: DocumentData, freshId: string): DocumentData {
    doc.(items := doc.items + [NewLine(freshId)])
  }

  function AddSection(doc: DocumentData, freshId: string): DocumentData {
    doc.(items := doc.items + [NewSection(freshId)])
  }

  /** A new line or section adds nothing to the subtotal, and a consistent document stays consistent. */
  lemma AddRowKeepsTotals(doc: DocumentData, freshId: string)
    ensures SubTotalOf(AddItem(doc, freshId).items) == SubTotalOf(doc.items)
    ensures SubTotalOf(AddSection(doc, freshId).items) == SubTotalOf(doc.items)
    ensures Consistent(doc) ==> Recomputed(AddItem(doc, freshId)) == AddItem(doc, freshId)
    ensures Consistent(doc) ==> Recomputed(AddSection(doc, freshId)) == AddSection(doc, freshId)
  {
    assert AddItem(doc, freshId).items[..|doc.items|] == doc.items;
    assert AddSection(doc, freshId).items[..|doc.items|] == doc.items;
    FixedPointIffConsistent(AddItem(doc, freshId));
    FixedPointIffConsistent(AddSection(doc, freshId));
  }

  function DeleteItem(doc: DocumentData, id: string): DocumentData {
    doc.(items := Keyed.RemoveById(doc.items, ItemId, id))
  }

  /** Deleting removes exactly the rows with that id and keeps the others in order (piecewise). */
  lemma DeleteItemLaws(doc: DocumentData, id: string, x: DocItem, a: seq<DocItem>, b: seq<DocItem>)
    ensures forall k :: 0 <= k < |DeleteItem(doc, id).items| ==> DeleteItem(doc, id).items[k].id != id
    ensures multiset(DeleteItem(doc, id).items)[x] == if x.id == id then 0 else multiset(doc.items)[x]
    ensures doc.items == a + b ==> DeleteItem(doc, id).items == Keyed.RemoveById(a, ItemId, id) + Keyed.RemoveById(b, ItemId, id)
    ensures (forall k :: 0 <= k < |doc.items| ==> doc.items[k].id != id) ==> DeleteItem(doc, id) == doc
  {
    Keyed.RemoveCounts(doc.items, ItemId, id, x);
    Keyed.RemoveConcat(a, b, ItemId, id);
    if forall k :: 0 <= k < |doc.items| ==> doc.items[k].id != id {
      Keyed.RemoveAbsent(doc.items, ItemId, id);
    }
  }

  datatype Direction = Up | Down

  /** The rows with the entries at `i` and `i + 1` exchanged. */
  function SwapAdjacent(items: seq<DocItem>, i: nat): (r: seq<DocItem>)
    requires i + 1 < |items|
  {
    items[i := items[i + 1]][i + 1 := items[i]]
  }

  /**
   * `moveItem(index, direction)`: copy the rows and swap the row with its neighbour, or do
   * nothing when there is no neighbour on that side.  The editor passes the index of a
   * displayed row.
   */
  method MoveItem(items: seq<DocItem>, index: nat, direction: Direction) returns (r: seq<DocItem>)
    requires index < |items|
    ensures |r| == |items| && multiset(r) == multiset(items)
    ensures direction == Up && index > 0 ==> r == SwapAdjacent(items, index - 1)
    ensures direction == Down && index + 1 < |items| ==> r == SwapAdjacent(items, index)
    ensures (direction == Up && index == 0) || (direction == Down && index + 1 == |items|) ==> r == items
  {
    var newItems := CopyRows(items);
    if direction == Up && index > 0 {
      SwapSlots(newItems, index - 1);
      r := newItems[..];
      assert r == SwapAdjacent(items, index - 1);
      SwapAdjacentPermutes(items, index - 1);
    } else if direction == Down && index < newItems.Length - 1 {
      SwapSlots(newItems, index);
      r := newItems[..];
      assert r == SwapAdjacent(items, index);
      SwapAdjacentPermutes(items, index);
    } else {
      r := newItems[..];
      assert r == items;
    }
  }

  /** `[...items]`: a fresh array holding the rows. */
  method CopyRows(items: seq<DocItem>) returns (a: array<DocItem>)
    ensures fresh(a) && a[..] == items
  {
    a := new DocItem[|items|](k requires 0 <= k < |items| => items[k]);
    assert a[..] == items;
  }

  /** `[a[i], a[i + 1]] = [a[i + 1], a[i]]` on the copied array. */
  method SwapSlots(a: array<DocItem>, i: nat)
    requires i + 1 < a.Length
    modifies a
    ensures a[..] == SwapAdjacent(old(a[..]), i)
  {
    a[i], a[i + 1] := a[i + 1], a[i];
  }

  lemma SwapAdjacentPermutes(items: seq<DocItem>, i: nat)
    requires i + 1 < |items|
    ensures |SwapAdjacent(items, i)| == |items|
    ensures multiset(SwapAdjacent(items, i)) == multiset(items)
  {
    var a, x, y, b := items[..i], items[i], items[i + 1], items[i + 2..];
    assert items == a + [x, y] + b;
    assert SwapAdjacent(items, i) == a + [y, x] + b;
  }

  /** Moving a row changes no row's amounts and not the subtotal. */
  lemma {:induction false} SwapKeepsSubTotal(items: seq<DocItem>, i: nat)
    requires i + 1 < |items|
    ensures SubTotalOf(SwapAdjacent(items, i)) == SubTotalOf(items)
  {
    var a, x, y, b := items[..i], items[i], items[i + 1], items[i + 2..];
    assert items == a + [x, y] + b;
    assert SwapAdjacent(items, i) == a + [y, x] + b;
    SubTotalConcat(a + [x, y], b);
    SubTotalConcat(a + [y, x], b);
    SubTotalConcat(a, [x, y]);
    SubTotalConcat(a, [y, x]);
    assert [x, y][..1] == [x] && [y, x][..1] == [y];
    assert [x][..0] == [] && [y][..0] == [];
  }

  // ---------------------------------------------------------------------------
  // Client snapshot and defaults
  // ---------------------------------------------------------------------------

  /** `selectClient`: copy the client's contact fields into the document and link it by id. */
  function SelectClient(doc: DocumentData, client: Client): DocumentData {
    doc.(clientId := Some(client.id), clientName := client.name, clientAddress := client.address,
         clientEmail := Some(client.email), clientPhone := Some(client.phone), clientIce := Some(client.ice))
  }

  /** The document holds a copy of the contact fields at selection time; nothing else changes, and totals are unaffected. */
  lemma SelectClientSnapshot(doc: DocumentData, client: Client)
    ensures var r := SelectClient(doc, client);
            && r.clientId == Some(client.id) && r.clientName == client.name
            && r.clientAddress == client.address && r.clientEmail == Some(client.email)
            && r.clientPhone == Some(client.phone) && r.clientIce == Some(client.ice)
            && r.(clientId := doc.clientId, clientName := doc.clientName, clientAddress := doc.clientAddress,
                  clientEmail := doc.clientEmail, clientPhone := doc.clientPhone, clientIce := doc.clientIce) == doc
    ensures Recomputed(SelectClient(doc, client)) == SelectClient(Recomputed(doc), client)
  {
  }

  /** The defaults the editor fills into a loaded document before editing it. */
  function EditorDefaults(initial: DocumentData): DocumentData {
    initial.(hasVat := Some(initial.hasVat.GetOr(false)),
             template := Some(initial.template.GetOr(Classic)),
             hasDeposit := Some(initial.hasDeposit.GetOr(initial.docType == Devis)),
             depositPercentage := Some(initial.depositPercentage.GetOr(50.0)),
             depositAmount := Some(initial.depositAmount.GetOr(0.0)),
             clientEmail := Some(initial.clientEmail.GetOr("")),
             clientPhone := Some(initial.clientPhone.GetOr("")),
             clientId := Some(initial.clientId.GetOr("")))
  }

  /** Present values are kept, missing ones get their documented default, and applying the defaults twice changes nothing more. */
  lemma EditorDefaultsFill(initial: DocumentData)
    ensures var r := EditorDefaults(initial);
            && r.hasVat == (if initial.hasVat.Some? then initial.hasVat else Some(false))
            && r.template == (if initial.template.Some? then initial.template else Some(Classic))
            && r.hasDeposit == (if initial.hasDeposit.Some? then initial.hasDeposit else Some(initial.docType == Devis))
            && r.depositPercentage == (if initial.depositPercentage.Some? then initial.depositPercentage else Some(50.0))
            && r.depositAmount == (if initial.depositAmount.Some? then initial.depositAmount else Some(0.0))
            && r.clientEmail == (if initial.clientEmail.Some? then initial.clientEmail else Some(""))
            && r.clientPhone == (if initial.clientPhone.Some? then initial.clientPhone else Some(""))
            && r.clientId == (if initial.clientId.Some? then initial.clientId else Some(""))
            && r.items == initial.items && r.subTotal == initial.subTotal && r.docType == initial.docType
    ensures EditorDefaults(EditorDefaults(initial)) == EditorDefaults(initial)
  {
  }

  // ---------------------------------------------------------------------------
  // The fixture against the engine
  // ---------------------------------------------------------------------------

  /** The sample document is consistent: loading it in the editor and recomputing changes nothing but the empty client link. */
  lemma InitialDocumentIsFixedPoint(month: nat, year: nat, today: string)
    ensures Consistent(Constants.InitialDocument(month, year, today))
    ensures Recomputed(Constants.InitialDocument(month, year, today)) == Constants.InitialDocument(month, year, today)
    ensures EditorDefaults(Constants.InitialDocument(month, year, today))
            == Constants.InitialDocument(month, year, today).(clientId := Some(""))
  {
    var d := Constants.InitialDocument(month, year, today);
    assert d.items[..0] == [];
    assert SubTotalOf(d.items) == 100.0;
    FixedPointIffConsistent(d);
  }

  // ---------------------------------------------------------------------------
  // Worked cases
  // ---------------------------------------------------------------------------

  function Row(id: string, quantity: real, unitPrice: real, total: real, overridden: bool, header: bool): DocItem {
    DocItem(id, "", quantity, unitPrice, total, overridden, header)
  }

  /** An overridden 500 on a 1 x 1 row stays 500 and counts 500; a stale 999 on 3 x 10 becomes 30. */
  lemma OverrideAndSelfHealCases(doc: DocumentData)
    requires doc.items == [Row("a", 1.0, 1.0, 500.0, true, false), Row("b", 3.0, 10.0, 999.0, false, false)]
    ensures Recomputed(doc).items[0].total == 500.0
    ensures Recomputed(doc).items[1].total == 30.0
    ensures Recomputed(doc).subTotal == 530.0
  {
    RecomputedRows(doc);
    RecomputeTotals(doc);
    assert doc.items[..1] == [doc.items[0]];
    assert doc.items[..1][..0] == [];
    assert SubTotalOf(doc.items[..1]) == 500.0;
    assert SubTotalOf(doc.items) == 530.0;
  }

  /** A header row next to a 2 x 50 row: the subtotal is 100 and the header is untouched. */
  lemma HeaderCase(doc: DocumentData)
    requires doc.items == [DocItem("h", "Phase 1", 7.0, 7.0, 7.0, false, true), Row("x", 2.0, 50.0, 0.0, false, false)]
    ensures Recomputed(doc).subTotal == 100.0
    ensures Recomputed(doc).items[0] == doc.items[0]
  {
    RecomputedRows(doc);
    RecomputeTotals(doc);
    assert doc.items[..1] == [doc.items[0]];
    assert doc.items[..1][..0] == [];
    assert SubTotalOf(doc.items[..1]) == 0.0;
    assert SubTotalOf(doc.items) == 100.0;
  }

  /** 20% VAT on 1000 gives 200 and a grand total of 1200; a 50% deposit of that is 600. */
  lemma TaxAndDepositCase(doc: DocumentData)
    requires doc.items == [Row("x", 1.0, 1000.0, 1000.0, false, false)]
    requires doc.hasVat == Some(true) && doc.vatRate == 20.0
    requires doc.hasDeposit == Some(true) && doc.depositPercentage == Some(50.0)
    ensures Recomputed(doc).vatAmount == 200.0 && Recomputed(doc).totalTTC == 1200.0
    ensures Recomputed(doc).depositAmount == Some(600.0)
  {
    assert doc.items[..0] == [];
    RecomputeTotals(doc);
  }
}
