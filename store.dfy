/** The database the sale routes work on, as one object whose tables the
    handlers update in place, statement by statement. Each route is a
    transaction: BEGIN takes a snapshot of the tables, ROLLBACK puts it back,
    COMMIT keeps what the statements wrote. Each method is proved to leave
    exactly the tables its transaction function (Checkout, Corrections)
    describes, or the tables it started from when that function fails. */
module Ventes {
  import opened Common
  import opened Schema
  import opened Inventory
  import opened Clients
  import opened Reconcile
  import opened Checkout
  import opened Corrections

  class Store {
    var clients: seq<Client>
    var products: seq<Product>
    var ventes: seq<Sale>
    var items: seq<SaleItem>
    var factures: seq<Invoice>
    var returnLog: seq<ReturnRecord>

    /** The six tables as one value. */
    function Tables(): Db
      reads this
    {
      Db(clients, products, ventes, items, factures, returnLog)
    }

    /** Every foreign key the routes rely on resolves. */
    ghost predicate Valid()
      reads this
    {
      WellFormed(Tables())
    }

    constructor (db: Db)
      requires WellFormed(db)
      ensures Tables() == db && Valid()
    {
      clients, products, ventes := db.clients, db.products, db.ventes;
      items, factures, returnLog := db.items, db.factures, db.returnLog;
    }

    /** ROLLBACK: every table back to the snapshot taken at BEGIN. */
    method Rollback(snapshot: Db)
      modifies this
      ensures Tables() == snapshot
    {
      clients, products, ventes := snapshot.clients, snapshot.products, snapshot.ventes;
      items, factures, returnLog := snapshot.items, snapshot.factures, snapshot.returnLog;
    }

    // -------------------------------------------------------------------
    // POST /
    // -------------------------------------------------------------------

    /** Step 1 of creation: find the client by name, updating a differing
        phone, or insert a new client; the client's id. */
    method ResolveClientRow(nom: string, phone: Option<string>) returns (clientId: nat)
      modifies this
      ensures (clients, clientId) == ResolveClient(old(clients), nom, phone)
      ensures products == old(products) && ventes == old(ventes) && items == old(items)
      ensures factures == old(factures) && returnLog == old(returnLog)
    {
      var found := FindClient(clients, nom);
      match found
      case Some(id) =>
        if Truthy(phone) && phone != clients[id - 1].telephone {
          clients := clients[id - 1 := clients[id - 1].(telephone := phone)];
        }
        clientId := id;
      case None =>
        clients := clients + [Client(nom, if Truthy(phone) then phone else None)];
        clientId := |clients|;
    }

    /** POST /: resolve the client, price the request (the validation loop,
        skipped when a numeric negotiated amount is given), prepare the lines,
        insert the sale, insert its lines, mark their products 'sold'. Any
        failure after BEGIN rolls the client step back. */
    method CreateSale(nom: string, phone: Option<string>, reqs: seq<RequestItem>,
                      paid: Numeric, special: bool, negotiated: Numeric) returns (r: Result<nat, Error>)
      requires Valid()
      modifies this
      ensures Valid()
      ensures var t := SaleTransaction(old(Tables()), nom, phone, reqs, paid, special, negotiated);
        && (t.Ok? ==> r == Ok(t.value.1) && Tables() == t.value.0)
        && (t.Err? ==> r == Err(t.error) && Tables() == old(Tables()))
    {
      if nom == "" || reqs == [] {
        return Err(MissingData);
      }
      var snapshot := Tables();
      var clientId := ResolveClientRow(nom, phone);
      ghost var resolved := ResolveClient(snapshot.clients, nom, phone);
      assert Tables() == snapshot.(clients := resolved.0) && clientId == resolved.1;
      var priced := PriceRequest(products, reqs, negotiated, special);
      if priced.Err? {
        assert SaleTransaction(snapshot, nom, phone, reqs, paid, special, negotiated) == Err(priced.error);
        Rollback(snapshot);
        return Err(priced.error);
      }
      var (total, ls) := priced.value;
      assert SaleTransaction(snapshot, nom, phone, reqs, paid, special, negotiated) ==
        Ok(Commit(snapshot, nom, phone, total, ls, paid, special));
      ghost var sale := Sale(clientId, total, paid, DeriveStatus(total, paid), special);
      var v := WriteSale(clientId, total, ls, paid, special);
      ghost var written := snapshot.(clients := resolved.0, ventes := snapshot.ventes + [sale],
                                      items := snapshot.items + Attach(ls, v),
                                      products := MarkSold(snapshot.products, ls));
      assert Tables() == written;
      assert written == Commit(snapshot, nom, phone, total, ls, paid, special).0;
      CreationWellFormed(snapshot, nom, phone, reqs, paid, special, negotiated);
      return Ok(v);
    }

    /** Steps 3 to 5 of creation: insert the sale row with the status derived
        from total and paid, insert its lines, mark their products 'sold'. */
    method WriteSale(clientId: nat, total: int, ls: seq<Line>, paid: Numeric, special: bool) returns (v: nat)
      modifies this
      ensures v == |old(ventes)| + 1
      ensures Tables() == old(Tables()).(ventes := old(ventes) + [Sale(clientId, total, paid, DeriveStatus(total, paid), special)],
                                         items := old(items) + Attach(ls, v),
                                         products := MarkSold(old(products), ls))
    {
      ventes := ventes + [Sale(clientId, total, paid, DeriveStatus(total, paid), special)];
      v := |ventes|;
      InsertLines(ls, v);
      MarkProductsSold(ls);
    }

    /** The insert loop: one 'actif' row of sale `v` per prepared line, in order. */
    method InsertLines(ls: seq<Line>, v: nat)
      modifies this
      ensures items == old(items) + Attach(ls, v)
      ensures clients == old(clients) && products == old(products) && ventes == old(ventes)
      ensures factures == old(factures) && returnLog == old(returnLog)
    {
      var k := 0;
      while k < |ls|
        invariant 0 <= k <= |ls|
        invariant items == old(items) + Attach(ls[..k], v)
        invariant clients == old(clients) && products == old(products) && ventes == old(ventes)
        invariant factures == old(factures) && returnLog == old(returnLog)
      {
        assert Attach(ls[..k + 1], v) == Attach(ls[..k], v) + [ItemOf(ls[k], v)];
        items := items + [ItemOf(ls[k], v)];
        k := k + 1;
      }
      assert ls[..k] == ls;
    }

    /** The `productStatusUpdates` loop: each line's product set to 'sold'. */
    method MarkProductsSold(ls: seq<Line>)
      modifies this
      ensures products == MarkSold(old(products), ls)
      ensures clients == old(clients) && ventes == old(ventes) && items == old(items)
      ensures factures == old(factures) && returnLog == old(returnLog)
    {
      var k := 0;
      while k < |ls|
        invariant 0 <= k <= |ls|
        invariant products == MarkSold(old(products), ls[..k])
        invariant clients == old(clients) && ventes == old(ventes) && items == old(items)
        invariant factures == old(factures) && returnLog == old(returnLog)
      {
        assert Init(ls[..k + 1]) == ls[..k] && Last(ls[..k + 1]) == ls[k];
        products := SetProductStatus(products, ls[k].produitId, Sold);
        k := k + 1;
      }
      assert ls[..k] == ls;
    }

    // -------------------------------------------------------------------
    // The tail every correction shares
    // -------------------------------------------------------------------

    /** Recompute sale `v` over its 'actif' lines, derive its status from the
        stored amount paid (with the rendu handler's derivation when `rendu`),
        write the sale and its invoices, then apply the "every line inactive"
        override to both. */
    method SettleSale(v: nat, rendu: bool)
      requires 1 <= v <= |ventes|
      modifies this
      ensures Settle(old(Tables()), v) == Ok(Tables())
    {
      var total := ActiveTotal(items, v);
      var paid := ventes[v - 1].montantPaye;
      var st := if rendu then RenduStatus(total, paid) else CorrectionStatus(total, paid);
      ventes := ventes[v - 1 := ventes[v - 1].(montantTotal := total, statut := st)];
      factures := SyncInvoices(factures, v, st, total, paid);
      if AllLinesInactive(items, v) {
        ventes := ventes[v - 1 := ventes[v - 1].(statut := Annulee)];
        SyncThenOverride(old(factures), v, st, Annulee, total, paid);
        factures := SetInvoiceStatus(factures, v, Annulee);
      }
      assert ventes == old(ventes)[v - 1 := Settled(old(ventes[v - 1]), items, v)];
      assert factures == SettledInvoices(old(factures), items, v, paid);
    }

    // -------------------------------------------------------------------
    // POST /cancel-item, POST /return-item, POST /mark-as-rendu
    // -------------------------------------------------------------------

    /** POST /cancel-item. */
    method CancelItem(venteId: nat, itemId: nat, produitId: nat, imei: string, reason: Option<string>)
      returns (r: Outcome<Error>)
      requires Valid()
      modifies this
      ensures Valid()
      ensures var t := CancelTransaction(old(Tables()), venteId, itemId, produitId, imei, reason);
        && (t.Ok? ==> r == Pass && Tables() == t.value)
        && (t.Err? ==> r == Fail(t.error) && Tables() == old(Tables()))
    {
      if !(1 <= itemId <= |items| && items[itemId - 1].venteId == venteId) {
        return Fail(SaleItemNotFound);
      }
      ghost var before := Tables();
      var it := items[itemId - 1];
      items := items[itemId - 1 := it.(statut := Annule, reason := reason)];
      if !it.isSpecial && produitId != 0 {
        products := SetStatusWhereImei(products, produitId, imei, Active);
      }
      SettleSale(venteId, false);
      CorrectKeepsWellFormed(before, venteId, itemId, Annule, reason, products, returnLog);
      return Pass;
    }

    /** POST /return-item. */
    method ReturnItem(venteItemId: nat, venteId: nat, clientNom: string, imei: string,
                      reason: string, produitId: nat, attrs: Attributes) returns (r: Outcome<Error>)
      requires Valid()
      modifies this
      ensures Valid()
      ensures var t := ReturnTransaction(old(Tables()), venteItemId, venteId, clientNom, imei, reason, produitId, attrs);
        && (t.Ok? ==> r == Pass && Tables() == t.value)
        && (t.Err? ==> r == Fail(t.error) && Tables() == old(Tables()))
    {
      if venteItemId == 0 || venteId == 0 || imei == "" || reason == "" || clientNom == "" {
        return Fail(MissingData);
      }
      if !(1 <= venteItemId <= |items| && items[venteItemId - 1].venteId == venteId) {
        return Fail(SaleItemNotFound);
      }
      ghost var before := Tables();
      var it := items[venteItemId - 1];
      items := items[venteItemId - 1 := it.(statut := Retourne, reason := Some(reason))];
      if !it.isSpecial && produitId != 0 {
        products := SetStatusWhereImei(products, produitId, imei, Returned);
      }
      var clientId := ReturnClientId(clients, clientNom);
      returnLog := returnLog + [ReturnRecord(venteItemId, venteId, clientId, attrs, imei, reason,
                                             Retourne, produitId, it.isSpecial)];
      SettleSale(venteId, false);
      CorrectKeepsWellFormed(before, venteId, venteItemId, Retourne, Some(reason), products, returnLog);
      return Pass;
    }

    /** POST /mark-as-rendu. */
    method MarkRendu(venteItemId: nat, venteId: nat, imei: string, reason: string, produitId: nat)
      returns (r: Outcome<Error>)
      requires Valid()
      modifies this
      ensures Valid()
      ensures var t := RenduTransaction(old(Tables()), venteItemId, venteId, imei, reason, produitId);
        && (t.Ok? ==> r == Pass && Tables() == t.value)
        && (t.Err? ==> r == Fail(t.error) && Tables() == old(Tables()))
    {
      if venteItemId == 0 || venteId == 0 || imei == "" || reason == "" || produitId == 0 {
        return Fail(MissingData);
      }
      if !(1 <= venteItemId <= |items| && items[venteItemId - 1].venteId == venteId) {
        return Fail(SaleItemNotFound);
      }
      ghost var before := Tables();
      items := items[venteItemId - 1 := items[venteItemId - 1].(statut := Rendu, reason := Some(reason))];
      products := Restock(products, produitId, imei);
      SettleSale(venteId, true);
      CorrectKeepsWellFormed(before, venteId, venteItemId, Rendu, Some(reason), products, returnLog);
      return Pass;
    }

    // -------------------------------------------------------------------
    // PUT /:id/update-payment
    // -------------------------------------------------------------------

    /** PUT /:id/update-payment: the validation chain, then the sale row and
        its invoices. */
    method UpdatePayment(saleId: nat, paid: Numeric, newTotal: Numeric) returns (r: Outcome<Error>)
      requires Valid()
      modifies this
      ensures Valid()
      ensures var t := PaymentTransaction(old(Tables()), saleId, paid, newTotal);
        && (t.Ok? ==> r == Pass && Tables() == t.value)
        && (t.Err? ==> r == Fail(t.error) && Tables() == old(Tables()))
    {
      if !(1 <= saleId <= |ventes|) {
        return Fail(SaleNotFound);
      }
      var s := ventes[saleId - 1];
      var total := FinalTotal(s, newTotal);
      if paid.NotANumber? || paid.value < 0 {
        return Fail(InvalidPaidAmount);
      }
      if total <= 0 {
        return Fail(InvalidTotalAmount);
      }
      if paid.value > total {
        return Fail(PaidExceedsTotal(paid.value, total));
      }
      if s.montantPaye.Num? && total < s.montantPaye.value && s.montantPaye.value > 0 {
        return Fail(TotalBelowPaid(total, s.montantPaye.value));
      }
      ghost var before := Tables();
      var st := PaymentUpdateStatus(total, paid.value);
      ventes := ventes[saleId - 1 := s.(montantPaye := paid, montantTotal := total, statut := st)];
      factures := SyncInvoices(factures, saleId, st, total, paid);
      PaymentKeepsOthers(before, saleId, paid, newTotal, 0);
      return Pass;
    }
  }
}
