/** The post-sale corrections (POST /cancel-item, POST /return-item,
    POST /mark-as-rendu) and the payment update (PUT /:id/update-payment),
    each as one transaction over the tables: the committed tables, or the
    error after which nothing is kept. */
module Corrections {
  import opened Common
  import opened Schema
  import opened Inventory
  import opened Clients
  import opened Reconcile

  // ---------------------------------------------------------------------
  // The line a correction names
  // ---------------------------------------------------------------------

  /** `WHERE id = itemId AND vente_id = venteId` selects a line. */
  predicate HasItem(items: seq<SaleItem>, venteId: nat, itemId: nat)
  {
    1 <= itemId <= |items| && items[itemId - 1].venteId == venteId
  }

  /** UPDATE vente_items SET statut_vente, cancellation_reason WHERE id = itemId.
      The line's current status is not consulted: a line already cancelled,
      returned or restocked is overwritten again. */
  function Mark(items: seq<SaleItem>, itemId: nat, st: ItemStatus, reason: Option<string>): (r: seq<SaleItem>)
    requires 1 <= itemId <= |items|
    ensures |r| == |items|
    ensures r[itemId - 1].statut == st && r[itemId - 1].reason == reason
    ensures r[itemId - 1] == items[itemId - 1].(statut := st, reason := reason)
    ensures forall j :: 0 <= j < |items| && j != itemId - 1 ==> r[j] == items[j]
  {
    items[itemId - 1 := items[itemId - 1].(statut := st, reason := reason)]
  }

  /** The steps every correction shares once its line is found: overwrite
      line `k` of sale `v`, put the corrected products and returns log in
      place, then settle the sale (total, status, invoices, override). */
  function Correct(db: Db, v: nat, k: nat, st: ItemStatus, reason: Option<string>,
                   ps: seq<Product>, log: seq<ReturnRecord>): Result<Db, Error>
    requires 1 <= k <= |db.items|
  {
    Settle(db.(items := Mark(db.items, k, st, reason), products := ps, returnLog := log), v)
  }

  // ---------------------------------------------------------------------
  // The three corrections
  // ---------------------------------------------------------------------

  /** POST /cancel-item. The product goes back to 'active' only for a line
      that is not special, when a product id is given and its IMEI matches. */
  function CancelTransaction(db: Db, venteId: nat, itemId: nat, produitId: nat, imei: string,
                             reason: Option<string>): Result<Db, Error>
  {
    if !HasItem(db.items, venteId, itemId) then Err(SaleItemNotFound)
    else
      var it := db.items[itemId - 1];
      var ps := if !it.isSpecial && produitId != 0
                then SetStatusWhereImei(db.products, produitId, imei, Active) else db.products;
      Correct(db, venteId, itemId, Annule, reason, ps, db.returnLog)
  }

  /** The row return-item appends to the returns log: the client of that
      name (0 when there is none), the unit description the request carries,
      and the line's own special flag. */
  function ReturnRow(db: Db, venteItemId: nat, venteId: nat, clientNom: string, imei: string,
                     reason: string, produitId: nat, attrs: Attributes): (rec: ReturnRecord)
    requires 1 <= venteItemId <= |db.items|
    ensures rec.clientId == 0 <==> forall j :: 0 <= j < |db.clients| ==> db.clients[j].nom != clientNom
    ensures rec.clientId != 0 ==> rec.clientId <= |db.clients| && db.clients[rec.clientId - 1].nom == clientNom
    ensures rec.isSpecial == db.items[venteItemId - 1].isSpecial && rec.statut == Retourne
  {
    ReturnRecord(venteItemId, venteId, ReturnClientId(db.clients, clientNom), attrs, imei, reason,
                 Retourne, produitId, db.items[venteItemId - 1].isSpecial)
  }

  /** POST /return-item. The five identifying fields are required; the
      product becomes 'returned' under the same guard as cancel-item; a
      return record is always written. */
  function ReturnTransaction(db: Db, venteItemId: nat, venteId: nat, clientNom: string, imei: string,
                             reason: string, produitId: nat, attrs: Attributes): Result<Db, Error>
  {
    if venteItemId == 0 || venteId == 0 || imei == "" || reason == "" || clientNom == "" then Err(MissingData)
    else if !HasItem(db.items, venteId, venteItemId) then Err(SaleItemNotFound)
    else
      var it := db.items[venteItemId - 1];
      var ps := if !it.isSpecial && produitId != 0
                then SetStatusWhereImei(db.products, produitId, imei, Returned) else db.products;
      var rec := ReturnRow(db, venteItemId, venteId, clientNom, imei, reason, produitId, attrs);
      Correct(db, venteId, venteItemId, Retourne, Some(reason), ps, db.returnLog + [rec])
  }

  /** POST /mark-as-rendu. The product id is required; the product goes back
      to 'active' with one more unit on hand when its IMEI matches, whatever
      the line's special flag. */
  function RenduTransaction(db: Db, venteItemId: nat, venteId: nat, imei: string, reason: string,
                            produitId: nat): Result<Db, Error>
  {
    if venteItemId == 0 || venteId == 0 || imei == "" || reason == "" || produitId == 0 then Err(MissingData)
    else if !HasItem(db.items, venteId, venteItemId) then Err(SaleItemNotFound)
    else
      Correct(db, venteId, venteItemId, Rendu, Some(reason), Restock(db.products, produitId, imei), db.returnLog)
  }

  // ---------------------------------------------------------------------
  // What every correction promises
  // ---------------------------------------------------------------------

  /** A correction of line `k` of sale `v` commits and leaves: that line with
      its new status and reason and every other line as it was; sale `v`
      reconciled with its lines and invoices, its amount paid kept and its
      total the sale's 'actif' sum before the correction, minus the line's
      amount when the line was 'actif'. A stored total that was not that sum
      (a negotiated one) is replaced by it; a stored total that was is lowered
      by exactly the line's amount. Every other sale row and every
      invoice row of another sale untouched; the clients untouched; and the
      products and returns log the correction supplies. */
  lemma CorrectFacts(db: Db, v: nat, k: nat, st: ItemStatus, reason: Option<string>,
                     ps: seq<Product>, log: seq<ReturnRecord>)
    requires WellFormed(db) && HasItem(db.items, v, k) && IsInactive(st)
    ensures Correct(db, v, k, st, reason, ps, log).Ok?
    ensures var r := Correct(db, v, k, st, reason, ps, log).value;
      var line := db.items[k - 1];
      && |r.items| == |db.items|
      && r.items[k - 1] == line.(statut := st, reason := reason)
      && (forall j :: 0 <= j < |db.items| && j != k - 1 ==> r.items[j] == db.items[j])
      && r.products == ps && r.returnLog == log && r.clients == db.clients
      && Reconciled(r, v)
      && r.ventes[v - 1].montantPaye == db.ventes[v - 1].montantPaye
      && (line.statut == Actif ==>
            r.ventes[v - 1].montantTotal == ActiveTotal(db.items, v) - line.prixVente * line.quantiteVendue)
      && (line.statut != Actif ==> r.ventes[v - 1].montantTotal == ActiveTotal(db.items, v))
      && (Reconciled(db, v) && line.statut == Actif ==>
            r.ventes[v - 1].montantTotal == db.ventes[v - 1].montantTotal - line.prixVente * line.quantiteVendue)
      && |r.ventes| == |db.ventes| && |r.factures| == |db.factures|
      && (forall w :: 0 <= w < |db.ventes| && w != v - 1 ==> r.ventes[w] == db.ventes[w])
      && (forall i :: 0 <= i < |db.factures| && db.factures[i].venteId != v ==> r.factures[i] == db.factures[i])
  {
    var items := Mark(db.items, k, st, reason);
    ActiveTotalUpdate(db.items, k - 1, items[k - 1], v);
    SettleReconciles(db.(items := items, products := ps, returnLog := log), v);
  }

  /** A correction keeps the referential invariant when the products table
      keeps its size. */
  lemma CorrectKeepsWellFormed(db: Db, v: nat, k: nat, st: ItemStatus, reason: Option<string>,
                               ps: seq<Product>, log: seq<ReturnRecord>)
    requires WellFormed(db) && HasItem(db.items, v, k) && IsInactive(st) && |ps| == |db.products|
    ensures WellFormed(Correct(db, v, k, st, reason, ps, log).value)
  {
    CorrectFacts(db, v, k, st, reason, ps, log);
    var r := Correct(db, v, k, st, reason, ps, log).value;
    forall i | 0 <= i < |r.ventes| ensures 1 <= r.ventes[i].clientId <= |r.clients| {
      if i == v - 1 {
        assert r.ventes[i].clientId == db.ventes[i].clientId;
      }
    }
    forall i | 0 <= i < |r.items|
      ensures 1 <= r.items[i].venteId <= |r.ventes| && 1 <= r.items[i].produitId <= |r.products|
    {
      assert r.items[i].venteId == db.items[i].venteId && r.items[i].produitId == db.items[i].produitId;
    }
    forall i | 0 <= i < |r.factures| ensures 1 <= r.factures[i].venteId <= |r.ventes| {
      if db.factures[i].venteId != v {
        assert r.factures[i] == db.factures[i];
      }
    }
  }

  /** A correction of sale `v` leaves every other reconciled sale reconciled:
      neither its lines, nor its row, nor its invoices move. */
  lemma CorrectKeepsOthers(db: Db, v: nat, k: nat, st: ItemStatus, reason: Option<string>,
                           ps: seq<Product>, log: seq<ReturnRecord>, w: nat)
    requires WellFormed(db) && HasItem(db.items, v, k) && w != v && Reconciled(db, w)
    ensures Correct(db, v, k, st, reason, ps, log).Ok?
    ensures Reconciled(Correct(db, v, k, st, reason, ps, log).value, w)
  {
    var items := Mark(db.items, k, st, reason);
    LineOfOtherSale(db.items, k - 1, items[k - 1], w);
    var mid := db.(items := items, products := ps, returnLog := log);
    assert Reconciled(mid, w);
    SettleKeepsOthers(mid, v, w);
  }

  // ---------------------------------------------------------------------
  // Each correction's own effects
  // ---------------------------------------------------------------------

  /** `after` is `before` with product `id` given status `st` when `hit`
      holds, and every product as it was otherwise. */
  ghost predicate StatusSetWhen(before: seq<Product>, after: seq<Product>, id: nat, hit: bool, st: ProductStatus)
  {
    && |after| == |before|
    && forall j :: 0 <= j < |before| ==>
         after[j] == if hit && j == id - 1 then before[j].(status := st) else before[j]
  }

  /** The guard of the inventory update in cancel-item and return-item: a
      line that is not special, a product id given, and that product's IMEI. */
  predicate ProductHit(db: Db, k: nat, produitId: nat, imei: string)
    requires 1 <= k <= |db.items|
  {
    && !db.items[k - 1].isSpecial && produitId != 0
    && produitId <= |db.products| && db.products[produitId - 1].imei == imei
  }

  /** cancel-item fails with "line not found" unless the line belongs to the
      sale; otherwise the line becomes 'annule' with the given reason, the
      product is set back to 'active' exactly under the guard, nothing is
      logged, and the sale is reconciled. */
  lemma CancelEffects(db: Db, venteId: nat, itemId: nat, produitId: nat, imei: string, reason: Option<string>)
    requires WellFormed(db)
    ensures !HasItem(db.items, venteId, itemId) ==>
      CancelTransaction(db, venteId, itemId, produitId, imei, reason) == Err(SaleItemNotFound)
    ensures HasItem(db.items, venteId, itemId) ==>
      && CancelTransaction(db, venteId, itemId, produitId, imei, reason).Ok?
      && var r := CancelTransaction(db, venteId, itemId, produitId, imei, reason).value;
      && r.items[itemId - 1].statut == Annule && r.items[itemId - 1].reason == reason
      && StatusSetWhen(db.products, r.products, produitId, ProductHit(db, itemId, produitId, imei), Active)
      && r.returnLog == db.returnLog
      && Reconciled(r, venteId)
  {
    if HasItem(db.items, venteId, itemId) {
      var it := db.items[itemId - 1];
      var ps := if !it.isSpecial && produitId != 0
                then SetStatusWhereImei(db.products, produitId, imei, Active) else db.products;
      CorrectFacts(db, venteId, itemId, Annule, reason, ps, db.returnLog);
    }
  }

  /** Cancelling a line that was just cancelled, with the same request,
      changes nothing more: the route can be re-applied safely. */
  lemma CancelIdempotent(db: Db, venteId: nat, itemId: nat, produitId: nat, imei: string, reason: Option<string>)
    requires WellFormed(db) && HasItem(db.items, venteId, itemId)
    ensures CancelTransaction(db, venteId, itemId, produitId, imei, reason).Ok?
    ensures var r := CancelTransaction(db, venteId, itemId, produitId, imei, reason).value;
      CancelTransaction(r, venteId, itemId, produitId, imei, reason) == Ok(r)
  {
    var it := db.items[itemId - 1];
    var ps := if !it.isSpecial && produitId != 0
              then SetStatusWhereImei(db.products, produitId, imei, Active) else db.products;
    CorrectFacts(db, venteId, itemId, Annule, reason, ps, db.returnLog);
    var r := CancelTransaction(db, venteId, itemId, produitId, imei, reason).value;
    assert r.items[itemId - 1].isSpecial == it.isSpecial;
    var ps2 := if !it.isSpecial && produitId != 0
               then SetStatusWhereImei(r.products, produitId, imei, Active) else r.products;
    assert ps2 == r.products;
    assert Mark(r.items, itemId, Annule, reason) == r.items;
    assert r.(items := r.items, products := ps2, returnLog := r.returnLog) == r;
    SettleReconciledIsNoop(r, venteId);
  }

  /** return-item fails with "missing data" when any of the line id, sale id,
      IMEI, reason or client name is absent, then with "line not found"
      unless the line belongs to the sale; otherwise the line becomes
      'retourne' with the reason, the product becomes 'returned' exactly under
      the cancel-item guard, exactly one return record is appended, and the
      sale is reconciled. */
  lemma ReturnEffects(db: Db, venteItemId: nat, venteId: nat, clientNom: string, imei: string,
                      reason: string, produitId: nat, attrs: Attributes)
    requires WellFormed(db)
    ensures venteItemId == 0 || venteId == 0 || imei == "" || reason == "" || clientNom == "" ==>
      ReturnTransaction(db, venteItemId, venteId, clientNom, imei, reason, produitId, attrs) == Err(MissingData)
    ensures venteItemId != 0 && venteId != 0 && clientNom != "" && imei != "" && reason != "" &&
            !HasItem(db.items, venteId, venteItemId) ==>
      ReturnTransaction(db, venteItemId, venteId, clientNom, imei, reason, produitId, attrs) == Err(SaleItemNotFound)
    ensures clientNom != "" && imei != "" && reason != "" && HasItem(db.items, venteId, venteItemId) ==>
      && ReturnTransaction(db, venteItemId, venteId, clientNom, imei, reason, produitId, attrs).Ok?
      && var r := ReturnTransaction(db, venteItemId, venteId, clientNom, imei, reason, produitId, attrs).value;
      && r.items[venteItemId - 1].statut == Retourne && r.items[venteItemId - 1].reason == Some(reason)
      && StatusSetWhen(db.products, r.products, produitId, ProductHit(db, venteItemId, produitId, imei), Returned)
      && r.returnLog == db.returnLog + [ReturnRow(db, venteItemId, venteId, clientNom, imei, reason, produitId, attrs)]
      && Reconciled(r, venteId)
  {
    if clientNom != "" && imei != "" && reason != "" && HasItem(db.items, venteId, venteItemId) {
      var it := db.items[venteItemId - 1];
      var ps := if !it.isSpecial && produitId != 0
                then SetStatusWhereImei(db.products, produitId, imei, Returned) else db.products;
      var rec := ReturnRow(db, venteItemId, venteId, clientNom, imei, reason, produitId, attrs);
      CorrectFacts(db, venteId, venteItemId, Retourne, Some(reason), ps, db.returnLog + [rec]);
    }
  }

  /** `after` is `before` with product `id` back to 'active' and one more unit
      on hand when `hit` holds, and every product as it was otherwise. */
  ghost predicate RestockedWhen(before: seq<Product>, after: seq<Product>, id: nat, hit: bool)
  {
    && |after| == |before|
    && forall j :: 0 <= j < |before| ==>
         after[j] == if hit && j == id - 1
                     then before[j].(status := Active, quantite := before[j].quantite + 1)
                     else before[j]
  }

  /** mark-as-rendu fails with "missing data" when any of the line id, sale
      id, IMEI, reason or product id is absent, then with "line not found"
      unless the line belongs to the sale; otherwise the line becomes 'rendu'
      with the reason, the product is restocked whenever its IMEI matches
      (special line or not), nothing is logged, and the sale is reconciled. */
  lemma RenduEffects(db: Db, venteItemId: nat, venteId: nat, imei: string, reason: string, produitId: nat)
    requires WellFormed(db)
    ensures venteItemId == 0 || venteId == 0 || imei == "" || reason == "" || produitId == 0 ==>
      RenduTransaction(db, venteItemId, venteId, imei, reason, produitId) == Err(MissingData)
    ensures venteItemId != 0 && venteId != 0 && imei != "" && reason != "" && produitId != 0 &&
            !HasItem(db.items, venteId, venteItemId) ==>
      RenduTransaction(db, venteItemId, venteId, imei, reason, produitId) == Err(SaleItemNotFound)
    ensures imei != "" && reason != "" && produitId != 0 && HasItem(db.items, venteId, venteItemId) ==>
      && RenduTransaction(db, venteItemId, venteId, imei, reason, produitId).Ok?
      && var r := RenduTransaction(db, venteItemId, venteId, imei, reason, produitId).value;
      && r.items[venteItemId - 1].statut == Rendu && r.items[venteItemId - 1].reason == Some(reason)
      && RestockedWhen(db.products, r.products, produitId,
                       produitId <= |db.products| && db.products[produitId - 1].imei == imei)
      && r.returnLog == db.returnLog
      && Reconciled(r, venteId)
  {
    if imei != "" && reason != "" && produitId != 0 && HasItem(db.items, venteId, venteItemId) {
      CorrectFacts(db, venteId, venteItemId, Rendu, Some(reason), Restock(db.products, produitId, imei), db.returnLog);
    }
  }

  /** Unlike cancel-item, mark-as-rendu is not idempotent: the line stays
      'rendu' and the sale does not move, but a matching product is restocked
      once per request, so marking the same line twice adds two units. */
  lemma RenduTwiceRestocksTwice(db: Db, venteItemId: nat, venteId: nat, imei: string, reason: string, produitId: nat)
    requires WellFormed(db) && RenduTransaction(db, venteItemId, venteId, imei, reason, produitId).Ok?
    requires produitId <= |db.products| && db.products[produitId - 1].imei == imei
    ensures var r := RenduTransaction(db, venteItemId, venteId, imei, reason, produitId).value;
      && RenduTransaction(r, venteItemId, venteId, imei, reason, produitId).Ok?
      && var r2 := RenduTransaction(r, venteItemId, venteId, imei, reason, produitId).value;
      && r2.items == r.items && r2.ventes == r.ventes && r2.factures == r.factures
      && r2.products[produitId - 1].quantite == db.products[produitId - 1].quantite + 2
  {
    RenduEffects(db, venteItemId, venteId, imei, reason, produitId);
    var r := RenduTransaction(db, venteItemId, venteId, imei, reason, produitId).value;
    CorrectKeepsWellFormed(db, venteId, venteItemId, Rendu, Some(reason), Restock(db.products, produitId, imei), db.returnLog);
    RenduEffects(r, venteItemId, venteId, imei, reason, produitId);
    var ps := Restock(r.products, produitId, imei);
    assert Mark(r.items, venteItemId, Rendu, Some(reason)) == r.items;
    SettleReconciledIsNoop(r.(products := ps), venteId);
  }

  // ---------------------------------------------------------------------
  // The payment update
  // ---------------------------------------------------------------------

  /** The total update-payment works with: a numeric new_total_amount, or
      else the sale's current total. */
  function FinalTotal(s: Sale, newTotal: Numeric): int
  {
    if newTotal.Num? then newTotal.value else s.montantTotal
  }

  /** The validation chain of update-payment, in the handler's order; None
      when the update may proceed. */
  function PaymentCheck(db: Db, saleId: nat, paid: Numeric, newTotal: Numeric): Option<Error>
  {
    if !(1 <= saleId <= |db.ventes|) then Some(SaleNotFound)
    else
      var s := db.ventes[saleId - 1];
      var total := FinalTotal(s, newTotal);
      if paid.NotANumber? || paid.value < 0 then Some(InvalidPaidAmount)
      else if total <= 0 then Some(InvalidTotalAmount)
      else if paid.value > total then Some(PaidExceedsTotal(paid.value, total))
      else if s.montantPaye.Num? && total < s.montantPaye.value && s.montantPaye.value > 0
      then Some(TotalBelowPaid(total, s.montantPaye.value))
      else None
  }

  /** PUT /:id/update-payment: store the paid amount, the final total and the
      derived status, and sync the invoice rows. The "every line inactive"
      override is not applied here. */
  function PaymentTransaction(db: Db, saleId: nat, paid: Numeric, newTotal: Numeric): Result<Db, Error>
  {
    match PaymentCheck(db, saleId, paid, newTotal)
    case Some(e) => Err(e)
    case None =>
      var s := db.ventes[saleId - 1];
      var total := FinalTotal(s, newTotal);
      var st := PaymentUpdateStatus(total, paid.value);
      Ok(db.(ventes := db.ventes[saleId - 1 := s.(montantPaye := paid, montantTotal := total, statut := st)],
             factures := SyncInvoices(db.factures, saleId, st, total, paid)))
  }

  /** update-payment commits exactly when the sale exists, the paid amount is
      a number from 0 up to the final total, the final total is positive, and
      the final total does not fall below an amount already paid. */
  lemma PaymentAccepted(db: Db, saleId: nat, paid: Numeric, newTotal: Numeric)
    ensures PaymentTransaction(db, saleId, paid, newTotal).Ok? <==>
      && 1 <= saleId <= |db.ventes| && paid.Num?
      && var s := db.ventes[saleId - 1];
      && 0 < FinalTotal(s, newTotal) && 0 <= paid.value <= FinalTotal(s, newTotal)
      && (s.montantPaye.Num? && s.montantPaye.value > 0 ==> FinalTotal(s, newTotal) >= s.montantPaye.value)
  {
  }

  /** The validation order of update-payment: a missing sale is reported
      first, then a bad paid amount, then a bad total, then a paid amount
      above the total, then a total below what was already paid. */
  lemma PaymentErrors(db: Db, saleId: nat, paid: Numeric, newTotal: Numeric)
    ensures !(1 <= saleId <= |db.ventes|) ==> PaymentTransaction(db, saleId, paid, newTotal) == Err(SaleNotFound)
    ensures 1 <= saleId <= |db.ventes| && (paid.NotANumber? || paid.value < 0) ==>
      PaymentTransaction(db, saleId, paid, newTotal) == Err(InvalidPaidAmount)
    ensures 1 <= saleId <= |db.ventes| && paid.Num? && paid.value >= 0 ==>
      var s := db.ventes[saleId - 1];
      var total := FinalTotal(s, newTotal);
      && (total <= 0 ==> PaymentTransaction(db, saleId, paid, newTotal) == Err(InvalidTotalAmount))
      && (0 < total < paid.value ==>
            PaymentTransaction(db, saleId, paid, newTotal) == Err(PaidExceedsTotal(paid.value, total)))
      && (0 < total && paid.value <= total && s.montantPaye.Num? && 0 < s.montantPaye.value && total < s.montantPaye.value ==>
            PaymentTransaction(db, saleId, paid, newTotal) == Err(TotalBelowPaid(total, s.montantPaye.value)))
  {
  }

  /** A committed payment update stores a paid amount between 0 and a
      positive total (the new total when one is given, else the old one) and
      the status that pair derives, mirrors the sale on each of its invoice
      rows with a non-negative amount due, and changes nothing else. */
  lemma PaymentEffects(db: Db, saleId: nat, paid: Numeric, newTotal: Numeric)
    requires PaymentTransaction(db, saleId, paid, newTotal).Ok?
    ensures var r := PaymentTransaction(db, saleId, paid, newTotal).value;
      var old_s := db.ventes[saleId - 1];
      var s := r.ventes[saleId - 1];
      && s.montantPaye == paid && paid.Num? && 0 <= paid.value <= s.montantTotal && 0 < s.montantTotal
      && (newTotal.Num? ==> s.montantTotal == newTotal.value)
      && (newTotal.NotANumber? ==> s.montantTotal == old_s.montantTotal)
      && s.statut == DeriveStatus(s.montantTotal, paid)
      && s.clientId == old_s.clientId && s.isFactureSpeciale == old_s.isFactureSpeciale
      && |r.ventes| == |db.ventes| && |r.factures| == |db.factures|
      && (forall w :: 0 <= w < |db.ventes| && w != saleId - 1 ==> r.ventes[w] == db.ventes[w])
      && (forall i :: 0 <= i < |db.factures| && db.factures[i].venteId == saleId ==>
            && r.factures[i] == Invoice(saleId, s.statut, s.montantTotal, Due(s.montantTotal, paid), paid)
            && r.factures[i].montantActuelDu.Num? && r.factures[i].montantActuelDu.value >= 0)
      && (forall i :: 0 <= i < |db.factures| && db.factures[i].venteId != saleId ==> r.factures[i] == db.factures[i])
      && r.items == db.items && r.products == db.products && r.clients == db.clients && r.returnLog == db.returnLog
  {
  }

  /** update-payment leaves sale `saleId` reconciled exactly when its total
      is the sum over its 'actif' lines and it still has an 'actif' line: a
      negotiated total, or a payment on a sale whose lines are all inactive
      (the 'annulee' override is not applied), leaves the sale out of step
      with its lines until the next correction recomputes it. */
  lemma PaymentReconciledIff(db: Db, saleId: nat, paid: Numeric, newTotal: Numeric)
    requires PaymentTransaction(db, saleId, paid, newTotal).Ok?
    ensures var r := PaymentTransaction(db, saleId, paid, newTotal).value;
      Reconciled(r, saleId) <==>
        r.ventes[saleId - 1].montantTotal == ActiveTotal(db.items, saleId) && !AllLinesInactive(db.items, saleId)
  {
    PaymentEffects(db, saleId, paid, newTotal);
  }

  /** update-payment keeps the referential invariant and every other
      reconciled sale reconciled. */
  lemma PaymentKeepsOthers(db: Db, saleId: nat, paid: Numeric, newTotal: Numeric, w: nat)
    requires WellFormed(db) && PaymentTransaction(db, saleId, paid, newTotal).Ok?
    ensures WellFormed(PaymentTransaction(db, saleId, paid, newTotal).value)
    ensures w != saleId && Reconciled(db, w) ==> Reconciled(PaymentTransaction(db, saleId, paid, newTotal).value, w)
  {
    PaymentEffects(db, saleId, paid, newTotal);
    var r := PaymentTransaction(db, saleId, paid, newTotal).value;
    forall i | 0 <= i < |r.ventes| ensures 1 <= r.ventes[i].clientId <= |r.clients| {
      assert r.ventes[i].clientId == db.ventes[i].clientId;
    }
    forall i | 0 <= i < |r.factures| ensures 1 <= r.factures[i].venteId <= |r.ventes| {
      assert r.factures[i].venteId == db.factures[i].venteId;
    }
  }
}
