/** Sale creation (POST /): the product lookup, the validation loop that
    prices the request, the preparation of the sale lines and of the
    inventory updates, and the whole transaction as a function of the tables
    before it. */
module Checkout {
  import opened Common
  import opened Schema
  import opened Reconcile
  import opened Inventory
  import opened Clients

  /** One entry of the request's `items`; `kind` is its `type` field and
      `prixUnitaireVente` its optional price override. */
  datatype RequestItem = RequestItem(
    imei: string, marque: string, modele: string,
    stockage: Option<string>, kind: Option<string>, typeCarton: Option<string>,
    quantiteVendue: int, prixUnitaireVente: Option<int>)

  /** An entry of `saleItems`, prepared before the sale row (and its id) exists. */
  datatype Line = Line(
    produitId: nat, imei: string, quantiteVendue: int, prixVente: int, prixAchat: int,
    marque: string, modele: string, typeCarton: Option<string>,
    stockage: Option<string>, kind: Option<string>, isSpecial: bool)

  // ---------------------------------------------------------------------
  // Product lookup and pricing
  // ---------------------------------------------------------------------

  /** The WHERE clause of the product query: IMEI, brand and model equal, and
      each of storage, type and carton type equal, NULL matching only NULL. */
  predicate Matches(p: Product, it: RequestItem)
  {
    && p.imei == it.imei && p.marque == it.marque && p.modele == it.modele
    && p.stockage == it.stockage && p.kind == it.kind && p.typeCarton == it.typeCarton
  }

  /** The id of the row `productResult.rows[0]` names: the first matching product. */
  function FindProduct(ps: seq<Product>, it: RequestItem): (r: Option<nat>)
    ensures r.Some? ==> 1 <= r.value <= |ps|
  {
    if ps == [] then None
    else if Matches(ps[0], it) then Some(1)
    else match FindProduct(ps[1..], it)
      case None => None
      case Some(id) => Some(id + 1)
  }

  /** The lookup finds the first matching product, and finds none exactly
      when no product matches. */
  lemma {:induction false} FindProductFirst(ps: seq<Product>, it: RequestItem)
    ensures FindProduct(ps, it).Some? ==> Matches(ps[FindProduct(ps, it).value - 1], it)
    ensures FindProduct(ps, it).Some? ==>
      forall j :: 0 <= j < FindProduct(ps, it).value - 1 ==> !Matches(ps[j], it)
    ensures FindProduct(ps, it).None? <==> forall j :: 0 <= j < |ps| ==> !Matches(ps[j], it)
  {
    if ps != [] {
      FindProductFirst(ps[1..], it);
      assert forall j :: 1 <= j < |ps| ==> ps[j] == ps[1..][j - 1];
    }
  }

  /** `item.prix_unitaire_vente || product.prix_vente`: an override of 0 is falsy. */
  function FinalPrice(it: RequestItem, p: Product): int
  {
    match it.prixUnitaireVente
    case Some(x) => if x != 0 then x else p.prixVente
    case None => p.prixVente
  }

  /** An item the validation loop lets through: its product exists, is
      'active', and its final price is at least the purchase price and above 0. */
  predicate Sellable(ps: seq<Product>, it: RequestItem)
  {
    match FindProduct(ps, it)
    case None => false
    case Some(id) =>
      var p := ps[id - 1];
      p.status == Active && FinalPrice(it, p) >= p.prixAchat && FinalPrice(it, p) > 0
  }

  /** The checks of one pass of the validation loop, in the handler's order:
      a missing product is refused first, then a product that is not
      'active', then a price below the purchase price, and only then a price
      of 0 or less (so a price of 0 under a positive cost is "below cost"). */
  function ItemCheck(ps: seq<Product>, it: RequestItem): (r: Option<Error>)
    ensures r.None? <==> Sellable(ps, it)
    ensures FindProduct(ps, it).None? ==> r == Some(ProductNotFound(it.imei))
    ensures FindProduct(ps, it).Some? ==>
      var p := ps[FindProduct(ps, it).value - 1];
      var price := FinalPrice(it, p);
      && (p.status != Active ==> r == Some(ProductUnavailable(it.imei, p.status)))
      && (p.status == Active && price < p.prixAchat ==> r == Some(PriceBelowCost(it.imei, price, p.prixAchat)))
      && (p.status == Active && p.prixAchat <= price <= 0 ==> r == Some(InvalidPrice(it.imei, price)))
    ensures r.Some? ==> !r.value.MissingData? && !r.value.Internal?
  {
    match FindProduct(ps, it)
    case None => Some(ProductNotFound(it.imei))
    case Some(id) =>
      var p := ps[id - 1];
      var price := FinalPrice(it, p);
      if p.status != Active then Some(ProductUnavailable(it.imei, p.status))
      else if price < p.prixAchat then Some(PriceBelowCost(it.imei, price, p.prixAchat))
      else if price <= 0 then Some(InvalidPrice(it.imei, price))
      else None
  }

  /** `item.quantite_vendue * prixUnitaireVenteFinal`. */
  function Amount(ps: seq<Product>, it: RequestItem): int
    requires FindProduct(ps, it).Some?
  {
    it.quantiteVendue * FinalPrice(it, ps[FindProduct(ps, it).value - 1])
  }

  /** Σ quantite_vendue * (prix_unitaire_vente || prix_vente) over the request,
      for a request whose products all exist. */
  function RequestedTotal(ps: seq<Product>, reqs: seq<RequestItem>): int
    requires forall i :: 0 <= i < |reqs| ==> FindProduct(ps, reqs[i]).Some?
  {
    if reqs == [] then 0 else Amount(ps, reqs[0]) + RequestedTotal(ps, reqs[1..])
  }

  // ---------------------------------------------------------------------
  // The validation loop
  // ---------------------------------------------------------------------

  /** What the validation loop over `reqs` ends with: the accumulated total,
      or the error of the first item that fails its checks. */
  function ValidatedTotal(ps: seq<Product>, reqs: seq<RequestItem>): Result<int, Error>
  {
    if reqs == [] then Ok(0)
    else
      match ValidatedTotal(ps, Init(reqs))
      case Err(e) => Err(e)
      case Ok(t) =>
        match ItemCheck(ps, Last(reqs))
        case Some(e) => Err(e)
        case None => Ok(t + Amount(ps, Last(reqs)))
  }

  /** The loop gets through exactly when every item passes its checks, and
      otherwise fails with the error of the first item that does not. */
  lemma {:induction false} ValidatedTotalOk(ps: seq<Product>, reqs: seq<RequestItem>)
    ensures ValidatedTotal(ps, reqs).Ok? <==> forall i :: 0 <= i < |reqs| ==> Sellable(ps, reqs[i])
    ensures ValidatedTotal(ps, reqs).Err? ==>
      exists i :: 0 <= i < |reqs| && ItemCheck(ps, reqs[i]) == Some(ValidatedTotal(ps, reqs).error) &&
        forall j :: 0 <= j < i ==> Sellable(ps, reqs[j])
  {
    if reqs != [] {
      ValidatedTotalOk(ps, Init(reqs));
      assert forall i :: 0 <= i < |reqs| - 1 ==> Init(reqs)[i] == reqs[i];
    }
  }

  /** Once a prefix of the request has failed, the loop's outcome is that failure. */
  lemma {:induction false} ValidatedTotalStops(ps: seq<Product>, reqs: seq<RequestItem>, n: nat)
    requires n <= |reqs| && ValidatedTotal(ps, reqs[..n]).Err?
    ensures ValidatedTotal(ps, reqs) == ValidatedTotal(ps, reqs[..n])
    decreases |reqs| - n
  {
    if n < |reqs| {
      assert Init(reqs)[..n] == reqs[..n];
      ValidatedTotalStops(ps, Init(reqs), n);
    } else {
      assert reqs[..n] == reqs;
    }
  }

  /** The validation loop of the handler: look each item up, refuse it as the
      handler does, and add quantity times final price to the total. */
  method ValidateItems(ps: seq<Product>, reqs: seq<RequestItem>) returns (r: Result<int, Error>)
    ensures r == ValidatedTotal(ps, reqs)
  {
    var total := 0;
    var i := 0;
    while i < |reqs|
      invariant 0 <= i <= |reqs|
      invariant ValidatedTotal(ps, reqs[..i]) == Ok(total)
    {
      var it := reqs[i];
      assert Init(reqs[..i + 1]) == reqs[..i] && Last(reqs[..i + 1]) == it;
      var found := FindProduct(ps, it);
      if found.None? {
        ValidatedTotalStops(ps, reqs, i + 1);
        return Err(ProductNotFound(it.imei));
      }
      var p := ps[found.value - 1];
      if p.status != Active {
        ValidatedTotalStops(ps, reqs, i + 1);
        return Err(ProductUnavailable(it.imei, p.status));
      }
      var price := FinalPrice(it, p);
      if price < p.prixAchat {
        ValidatedTotalStops(ps, reqs, i + 1);
        return Err(PriceBelowCost(it.imei, price, p.prixAchat));
      }
      if price <= 0 {
        ValidatedTotalStops(ps, reqs, i + 1);
        return Err(InvalidPrice(it.imei, price));
      }
      total := total + it.quantiteVendue * price;
      i := i + 1;
    }
    assert reqs[..i] == reqs;
    return Ok(total);
  }

  /** The validation loop's total is Σ quantity * final price over the request. */
  lemma {:induction false} ValidatedTotalValue(ps: seq<Product>, reqs: seq<RequestItem>)
    requires ValidatedTotal(ps, reqs).Ok?
    ensures forall i :: 0 <= i < |reqs| ==> FindProduct(ps, reqs[i]).Some?
    ensures ValidatedTotal(ps, reqs).value == RequestedTotal(ps, reqs)
  {
    if reqs != [] {
      ValidatedTotalOk(ps, reqs);
      ValidatedTotalValue(ps, Init(reqs));
      RequestedTotalSnoc(ps, reqs);
    }
  }

  lemma {:induction false} RequestedTotalSnoc(ps: seq<Product>, reqs: seq<RequestItem>)
    requires reqs != []
    requires forall i :: 0 <= i < |reqs| ==> FindProduct(ps, reqs[i]).Some?
    ensures RequestedTotal(ps, reqs) == RequestedTotal(ps, Init(reqs)) + Amount(ps, Last(reqs))
  {
    if |reqs| == 1 {
      assert Init(reqs) == [];
    } else {
      var rest := reqs[1..];
      assert Init(reqs)[0] == reqs[0] && Init(reqs)[1..] == Init(rest) && Last(rest) == Last(reqs);
      RequestedTotalSnoc(ps, rest);
    }
  }

  // ---------------------------------------------------------------------
  // Preparing the sale lines and the inventory updates
  // ---------------------------------------------------------------------

  /** The `saleItems` entry for request item `it`, whose product is `p` of id `id`. */
  function LineFor(it: RequestItem, id: nat, p: Product, special: bool): Line
  {
    Line(id, it.imei, it.quantiteVendue, FinalPrice(it, p), p.prixAchat,
         p.marque, p.modele, p.typeCarton, p.stockage, p.kind, special)
  }

  /** What the second loop ends with: one line per request item, in order, or
      an internal error when a product is missing (reading a field of the
      undefined `productResult.rows[0]` throws, and the handler rolls back). */
  function Lines(ps: seq<Product>, reqs: seq<RequestItem>, special: bool): Result<seq<Line>, Error>
  {
    if reqs == [] then Ok([])
    else
      match Lines(ps, Init(reqs), special)
      case Err(e) => Err(e)
      case Ok(ls) =>
        match FindProduct(ps, Last(reqs))
        case None => Err(Internal)
        case Some(id) => Ok(ls + [LineFor(Last(reqs), id, ps[id - 1], special)])
  }

  /** The second loop gets through exactly when every product is found, with
      one line per item; otherwise it throws. */
  lemma {:induction false} LinesOk(ps: seq<Product>, reqs: seq<RequestItem>, special: bool)
    ensures Lines(ps, reqs, special).Ok? <==> forall i :: 0 <= i < |reqs| ==> FindProduct(ps, reqs[i]).Some?
    ensures Lines(ps, reqs, special).Ok? ==> |Lines(ps, reqs, special).value| == |reqs|
    ensures Lines(ps, reqs, special).Err? ==> Lines(ps, reqs, special).error == Internal
  {
    if reqs != [] {
      LinesOk(ps, Init(reqs), special);
      assert forall i :: 0 <= i < |reqs| - 1 ==> Init(reqs)[i] == reqs[i];
    }
  }

  /** Line `i` of a priced request describes request item `i` and its product. */
  lemma {:induction false} LineAt(ps: seq<Product>, reqs: seq<RequestItem>, special: bool, i: nat)
    requires Lines(ps, reqs, special).Ok? && i < |reqs|
    ensures FindProduct(ps, reqs[i]).Some?
    ensures i < |Lines(ps, reqs, special).value|
    ensures Lines(ps, reqs, special).value[i] ==
      LineFor(reqs[i], FindProduct(ps, reqs[i]).value, ps[FindProduct(ps, reqs[i]).value - 1], special)
  {
    LinesOk(ps, Init(reqs), special);
    if i < |reqs| - 1 {
      LineAt(ps, Init(reqs), special, i);
    }
  }

  /** The second loop of the handler: look each product up again and build its line. */
  method PrepareLines(ps: seq<Product>, reqs: seq<RequestItem>, special: bool) returns (r: Result<seq<Line>, Error>)
    ensures r == Lines(ps, reqs, special)
  {
    var lines: seq<Line> := [];
    var i := 0;
    while i < |reqs|
      invariant 0 <= i <= |reqs|
      invariant Lines(ps, reqs[..i], special) == Ok(lines)
    {
      var it := reqs[i];
      assert Init(reqs[..i + 1]) == reqs[..i] && Last(reqs[..i + 1]) == it;
      var found := FindProduct(ps, it);
      if found.None? {
        LinesOk(ps, reqs, special);
        return Err(Internal);
      }
      lines := lines + [LineFor(it, found.value, ps[found.value - 1], special)];
      i := i + 1;
    }
    assert reqs[..i] == reqs;
    return Ok(lines);
  }

  /** The vente_items row inserted for line `l` of sale `v`. */
  function ItemOf(l: Line, v: nat): SaleItem
  {
    SaleItem(v, l.produitId, l.imei, l.quantiteVendue, l.prixVente, l.prixAchat,
             l.marque, l.modele, l.typeCarton, l.stockage, l.kind, Actif, l.isSpecial, None)
  }

  /** The rows the insert loop adds for the lines of sale `v`. */
  function Attach(ls: seq<Line>, v: nat): seq<SaleItem>
  {
    seq(|ls|, i requires 0 <= i < |ls| => ItemOf(ls[i], v))
  }

  /** The products table after the `productStatusUpdates` loop: each line's
      product set to 'sold', in order. */
  function MarkSold(ps: seq<Product>, ls: seq<Line>): seq<Product>
  {
    if ls == [] then ps
    else SetProductStatus(MarkSold(ps, Init(ls)), Last(ls).produitId, Sold)
  }

  /** Every product a line names ends 'sold', the others are untouched, and
      no column but the status changes. */
  lemma {:induction false} MarkSoldFacts(ps: seq<Product>, ls: seq<Line>)
    ensures |MarkSold(ps, ls)| == |ps|
    ensures forall k :: 0 <= k < |ls| && 1 <= ls[k].produitId <= |ps| ==> MarkSold(ps, ls)[ls[k].produitId - 1].status == Sold
    ensures forall i :: 0 <= i < |ps| ==> MarkSold(ps, ls)[i] == ps[i].(status := MarkSold(ps, ls)[i].status)
    ensures forall i :: 0 <= i < |ps| && Unnamed(ls, i + 1) ==> MarkSold(ps, ls)[i] == ps[i]
  {
    if ls != [] {
      MarkSoldFacts(ps, Init(ls));
      assert forall k :: 0 <= k < |ls| - 1 ==> Init(ls)[k] == ls[k];
    }
  }

  /** No line names product `id`. */
  predicate Unnamed(ls: seq<Line>, id: nat)
  {
    forall k :: 0 <= k < |ls| ==> ls[k].produitId != id
  }

  /** Σ prix_unitaire_vente * quantite_vendue over prepared lines. */
  function LinesTotal(ls: seq<Line>): int
  {
    if ls == [] then 0 else ls[0].prixVente * ls[0].quantiteVendue + LinesTotal(ls[1..])
  }

  /** Recomputing over freshly attached rows, all 'actif' and all of sale
      `v`, gives the lines' own total. */
  lemma {:induction false} AttachTotal(ls: seq<Line>, v: nat)
    ensures ActiveTotal(Attach(ls, v), v) == LinesTotal(ls)
  {
    if ls != [] {
      assert Attach(ls, v)[1..] == Attach(ls[1..], v);
      AttachTotal(ls[1..], v);
    }
  }

  /** Two sums agree term by term. */
  lemma {:induction false} SumsAgree(ps: seq<Product>, reqs: seq<RequestItem>, ls: seq<Line>)
    requires |ls| == |reqs|
    requires forall i :: 0 <= i < |reqs| ==> FindProduct(ps, reqs[i]).Some?
    requires forall i :: 0 <= i < |reqs| ==> ls[i].prixVente * ls[i].quantiteVendue == Amount(ps, reqs[i])
    ensures LinesTotal(ls) == RequestedTotal(ps, reqs)
  {
    if reqs != [] {
      SumsAgree(ps, reqs[1..], ls[1..]);
    }
  }

  /** The prepared lines of a request total Σ quantity * final price over it. */
  lemma LinesTotalValue(ps: seq<Product>, reqs: seq<RequestItem>, ls: seq<Line>, special: bool)
    requires Lines(ps, reqs, special) == Ok(ls)
    ensures forall i :: 0 <= i < |reqs| ==> FindProduct(ps, reqs[i]).Some?
    ensures LinesTotal(ls) == RequestedTotal(ps, reqs)
  {
    LinesOk(ps, reqs, special);
    forall i | 0 <= i < |reqs|
      ensures FindProduct(ps, reqs[i]).Some?
      ensures ls[i].prixVente * ls[i].quantiteVendue == Amount(ps, reqs[i])
    {
      LineAt(ps, reqs, special, i);
    }
    SumsAgree(ps, reqs, ls);
  }

  // ---------------------------------------------------------------------
  // The whole transaction
  // ---------------------------------------------------------------------

  /** The total and the lines of the sale, or the error that rolls it back.
      A numeric montant_negocie is the total and skips the validation loop. */
  function SaleOutcome(ps: seq<Product>, reqs: seq<RequestItem>, negotiated: Numeric, special: bool): Result<(int, seq<Line>), Error>
  {
    var total := if negotiated.Num? then Ok(negotiated.value) else ValidatedTotal(ps, reqs);
    match total
    case Err(e) => Err(e)
    case Ok(t) =>
      match Lines(ps, reqs, special)
      case Err(e) => Err(e)
      case Ok(ls) => Ok((t, ls))
  }

  /** Pricing a request as the handler does: the negotiated total or else the
      validation loop's, then the line loop, stopping at the first error. */
  method PriceRequest(ps: seq<Product>, reqs: seq<RequestItem>, negotiated: Numeric, special: bool)
    returns (r: Result<(int, seq<Line>), Error>)
    ensures r == SaleOutcome(ps, reqs, negotiated, special)
  {
    var total: int;
    if negotiated.Num? {
      total := negotiated.value;
    } else {
      var checked := ValidateItems(ps, reqs);
      if checked.Err? {
        return Err(checked.error);
      }
      total := checked.value;
    }
    var prepared := PrepareLines(ps, reqs, special);
    if prepared.Err? {
      return Err(prepared.error);
    }
    return Ok((total, prepared.value));
  }

  /** The tables once a priced sale is written: the client resolved, the sale
      row appended with its derived status, its lines appended as 'actif'
      rows, and their products set to 'sold'. */
  function Commit(db: Db, nom: string, phone: Option<string>, total: int, ls: seq<Line>,
                  paid: Numeric, special: bool): (Db, nat)
  {
    var resolved := ResolveClient(db.clients, nom, phone);
    var v := |db.ventes| + 1;
    (db.(clients := resolved.0,
         products := MarkSold(db.products, ls),
         ventes := db.ventes + [Sale(resolved.1, total, paid, DeriveStatus(total, paid), special)],
         items := db.items + Attach(ls, v)), v)
  }

  /** POST / as one transaction over the tables `db`: the committed tables and
      the new sale's id, or the error after which nothing is kept. */
  function SaleTransaction(db: Db, nom: string, phone: Option<string>, reqs: seq<RequestItem>,
                           paid: Numeric, special: bool, negotiated: Numeric): Result<(Db, nat), Error>
  {
    if nom == "" || reqs == [] then Err(MissingData)
    else
      match SaleOutcome(db.products, reqs, negotiated, special)
      case Err(e) => Err(e)
      case Ok(sale) => Ok(Commit(db, nom, phone, sale.0, sale.1, paid, special))
  }

  /** A successful creation is the commit of the request's lines, priced by the
      negotiated total or else by the validation loop, whose items all passed. */
  lemma SaleTransactionCommits(db: Db, nom: string, phone: Option<string>, reqs: seq<RequestItem>,
                               paid: Numeric, special: bool, negotiated: Numeric)
    requires SaleTransaction(db, nom, phone, reqs, paid, special, negotiated).Ok?
    ensures nom != "" && reqs != []
    ensures negotiated.NotANumber? ==> ValidatedTotal(db.products, reqs).Ok?
    ensures Lines(db.products, reqs, special).Ok?
    ensures forall i :: 0 <= i < |reqs| ==> FindProduct(db.products, reqs[i]).Some?
    ensures SaleTransaction(db, nom, phone, reqs, paid, special, negotiated).value ==
      Commit(db, nom, phone,
             if negotiated.Num? then negotiated.value else ValidatedTotal(db.products, reqs).value,
             Lines(db.products, reqs, special).value, paid, special)
  {
    LinesOk(db.products, reqs, special);
  }

  /** Creation fails with a missing-data error exactly when the client name
      or the item list is empty: no later check reports that error. */
  lemma CreationMissingData(db: Db, nom: string, phone: Option<string>, reqs: seq<RequestItem>,
                            paid: Numeric, special: bool, negotiated: Numeric)
    ensures (SaleTransaction(db, nom, phone, reqs, paid, special, negotiated) == Err(MissingData)) <==>
      (nom == "" || reqs == [])
  {
    if nom != "" && reqs != [] {
      ValidatedTotalOk(db.products, reqs);
      LinesOk(db.products, reqs, special);
    }
  }

  /** When creation succeeds, and exactly when: without a numeric negotiated
      total every item must pass the validation loop; with one, only the
      product lookup of the second loop can fail, and then with an internal
      error. No status or price check runs on that path. */
  lemma CreationSucceeds(db: Db, nom: string, phone: Option<string>, reqs: seq<RequestItem>,
                         paid: Numeric, special: bool, negotiated: Numeric)
    requires nom != "" && reqs != []
    ensures negotiated.NotANumber? ==>
      (SaleTransaction(db, nom, phone, reqs, paid, special, negotiated).Ok? <==>
         forall i :: 0 <= i < |reqs| ==> Sellable(db.products, reqs[i]))
    ensures negotiated.Num? ==>
      (SaleTransaction(db, nom, phone, reqs, paid, special, negotiated).Ok? <==>
         forall i :: 0 <= i < |reqs| ==> FindProduct(db.products, reqs[i]).Some?)
    ensures negotiated.Num? && SaleTransaction(db, nom, phone, reqs, paid, special, negotiated).Err? ==>
      SaleTransaction(db, nom, phone, reqs, paid, special, negotiated).error == Internal
  {
    ValidatedTotalOk(db.products, reqs);
    LinesOk(db.products, reqs, special);
    if negotiated.NotANumber? && ValidatedTotal(db.products, reqs).Ok? {
      ValidatedTotalValue(db.products, reqs);
    }
  }

  /** Without a numeric negotiated total, the first item that fails the
      validation loop decides the error: its product is missing, not
      'active', priced below cost, or priced at 0 or less. */
  lemma CreationRejects(db: Db, nom: string, phone: Option<string>, reqs: seq<RequestItem>,
                        paid: Numeric, special: bool, negotiated: Numeric, i: nat)
    requires nom != "" && negotiated.NotANumber?
    requires i < |reqs| && !Sellable(db.products, reqs[i])
    requires forall j :: 0 <= j < i ==> Sellable(db.products, reqs[j])
    ensures SaleTransaction(db, nom, phone, reqs, paid, special, negotiated) == Err(ItemCheck(db.products, reqs[i]).value)
  {
    ValidatedTotalOk(db.products, reqs);
    var r := ValidatedTotal(db.products, reqs);
    assert r.Err?;
    var k :| 0 <= k < |reqs| && ItemCheck(db.products, reqs[k]) == Some(r.error)
      && forall j :: 0 <= j < k ==> Sellable(db.products, reqs[j]);
    assert !Sellable(db.products, reqs[k]);
    assert k == i;
  }

  /** The sale row the commit appends: the resolved client, the total, the
      paid amount as given, the special flag, and the status derived from
      total and paid; the invoices and the returns log are not touched. */
  lemma CommitSale(db: Db, nom: string, phone: Option<string>, total: int, ls: seq<Line>,
                   paid: Numeric, special: bool)
    ensures var (after, v) := Commit(db, nom, phone, total, ls, paid, special);
      && v == |db.ventes| + 1 && |after.ventes| == v
      && after.ventes[..v - 1] == db.ventes
      && after.clients == ResolveClient(db.clients, nom, phone).0
      && after.ventes[v - 1] == Sale(ResolveClient(db.clients, nom, phone).1, total, paid, after.ventes[v - 1].statut, special)
      && after.ventes[v - 1].statut == DeriveStatus(total, paid)
      && after.factures == db.factures && after.returnLog == db.returnLog
  {
    var (after, v) := Commit(db, nom, phone, total, ls, paid, special);
    assert after.ventes[..v - 1] == db.ventes;
  }

  /** The lines the commit appends: one 'actif' row per line, in order, for
      sale `v`, carrying the line's product, snapshot, prices and special flag
      and no reason; the rows already there are kept. */
  lemma CommitLines(db: Db, nom: string, phone: Option<string>, total: int, ls: seq<Line>,
                    paid: Numeric, special: bool)
    ensures var (after, v) := Commit(db, nom, phone, total, ls, paid, special);
      && |after.items| == |db.items| + |ls|
      && after.items[..|db.items|] == db.items
      && forall i :: 0 <= i < |ls| ==> after.items[|db.items| + i] == ItemOf(ls[i], v)
  {
    var (after, v) := Commit(db, nom, phone, total, ls, paid, special);
    assert after.items[..|db.items|] == db.items;
  }

  /** Row `row` is the 'actif' line of sale `v` for request item `it`: it
      names the matching product and carries that product's attribute
      snapshot, the final and purchase prices, the special flag, and no
      reason. */
  predicate SoldRow(row: SaleItem, it: RequestItem, ps: seq<Product>, v: nat, special: bool)
  {
    match FindProduct(ps, it)
    case None => false
    case Some(id) => row == ItemOf(LineFor(it, id, ps[id - 1], special), v)
  }

  /** The rows attached for a priced request, one per request item, in order. */
  lemma AttachRows(ps: seq<Product>, reqs: seq<RequestItem>, ls: seq<Line>, special: bool, v: nat)
    requires Lines(ps, reqs, special) == Ok(ls)
    ensures |Attach(ls, v)| == |reqs|
    ensures forall i :: 0 <= i < |reqs| ==> SoldRow(Attach(ls, v)[i], reqs[i], ps, v, special)
  {
    LinesOk(ps, reqs, special);
    forall i | 0 <= i < |reqs| ensures SoldRow(Attach(ls, v)[i], reqs[i], ps, v, special) {
      LineAt(ps, reqs, special, i);
    }
  }

  /** The rows the commit of a priced request appends, one per request item. */
  lemma CommitRows(db: Db, nom: string, phone: Option<string>, total: int, reqs: seq<RequestItem>,
                   ls: seq<Line>, paid: Numeric, special: bool)
    requires Lines(db.products, reqs, special) == Ok(ls)
    ensures var after := Commit(db, nom, phone, total, ls, paid, special).0;
      var v := |db.ventes| + 1;
      && |after.items| == |db.items| + |reqs|
      && after.items[..|db.items|] == db.items
      && forall i :: 0 <= i < |reqs| ==> SoldRow(after.items[|db.items| + i], reqs[i], db.products, v, special)
  {
    var v := |db.ventes| + 1;
    AttachRows(db.products, reqs, ls, special, v);
    var after := Commit(db, nom, phone, total, ls, paid, special).0;
    assert after.items == db.items + Attach(ls, v);
    assert after.items[..|db.items|] == db.items;
  }

  /** The lines a successful creation inserts: one 'actif' row per request
      item, in order, carrying its product's id and attribute snapshot, the
      final and purchase prices, the special flag of the request and no reason;
      the rows already there are kept. */
  lemma CreationLines(db: Db, nom: string, phone: Option<string>, reqs: seq<RequestItem>,
                      paid: Numeric, special: bool, negotiated: Numeric)
    requires SaleTransaction(db, nom, phone, reqs, paid, special, negotiated).Ok?
    ensures var after := SaleTransaction(db, nom, phone, reqs, paid, special, negotiated).value.0;
      var v := |db.ventes| + 1;
      && |after.items| == |db.items| + |reqs|
      && after.items[..|db.items|] == db.items
      && forall i :: 0 <= i < |reqs| ==> SoldRow(after.items[|db.items| + i], reqs[i], db.products, v, special)
  {
    SaleTransactionCommits(db, nom, phone, reqs, paid, special, negotiated);
    var total := if negotiated.Num? then negotiated.value else ValidatedTotal(db.products, reqs).value;
    CommitRows(db, nom, phone, total, reqs, Lines(db.products, reqs, special).value, paid, special);
  }

  /** Recomputing the new sale's total over its 'actif' rows right after the
      commit gives Σ quantity * final price over the request. */
  lemma CommitActiveTotal(db: Db, nom: string, phone: Option<string>, total: int, reqs: seq<RequestItem>,
                          ls: seq<Line>, paid: Numeric, special: bool)
    requires WellFormed(db)
    requires Lines(db.products, reqs, special) == Ok(ls)
    ensures forall i :: 0 <= i < |reqs| ==> FindProduct(db.products, reqs[i]).Some?
    ensures ActiveTotal(Commit(db, nom, phone, total, ls, paid, special).0.items, |db.ventes| + 1)
              == RequestedTotal(db.products, reqs)
  {
    var v := |db.ventes| + 1;
    assert NoActiveLine(db.items, v);
    NoActiveLineTotal(db.items, v);
    ActiveTotalAppend(db.items, Attach(ls, v), v);
    AttachTotal(ls, v);
    LinesTotalValue(db.products, reqs, ls, special);
  }

  /** The total a successful creation records: the negotiated value when one
      was given; otherwise Σ quantity * final price over the request, which is
      also what recomputing over the new sale's 'actif' lines gives. The
      status is derived from that total and the paid amount as given. */
  lemma CreationTotal(db: Db, nom: string, phone: Option<string>, reqs: seq<RequestItem>,
                      paid: Numeric, special: bool, negotiated: Numeric)
    requires WellFormed(db)
    requires SaleTransaction(db, nom, phone, reqs, paid, special, negotiated).Ok?
    ensures forall i :: 0 <= i < |reqs| ==> FindProduct(db.products, reqs[i]).Some?
    ensures var (after, v) := SaleTransaction(db, nom, phone, reqs, paid, special, negotiated).value;
      && v == |db.ventes| + 1 && |after.ventes| == v
      && after.ventes[..v - 1] == db.ventes
      && after.ventes[v - 1].montantPaye == paid
      && after.ventes[v - 1].isFactureSpeciale == special
      && after.ventes[v - 1].statut == DeriveStatus(after.ventes[v - 1].montantTotal, paid)
      && (negotiated.Num? ==> after.ventes[v - 1].montantTotal == negotiated.value)
      && (negotiated.NotANumber? ==>
            && after.ventes[v - 1].montantTotal == RequestedTotal(db.products, reqs)
            && after.ventes[v - 1].montantTotal == ActiveTotal(after.items, v))
  {
    SaleTransactionCommits(db, nom, phone, reqs, paid, special, negotiated);
    var ls := Lines(db.products, reqs, special).value;
    var total := if negotiated.Num? then negotiated.value else ValidatedTotal(db.products, reqs).value;
    CommitSale(db, nom, phone, total, ls, paid, special);
    CommitActiveTotal(db, nom, phone, total, reqs, ls, paid, special);
    if negotiated.NotANumber? {
      ValidatedTotalValue(db.products, reqs);
    }
  }

  /** A successful creation resolves the client by name (found, phone
      updated, or inserted) and records that client on the new sale row. */
  lemma CreationClient(db: Db, nom: string, phone: Option<string>, reqs: seq<RequestItem>,
                       paid: Numeric, special: bool, negotiated: Numeric)
    requires SaleTransaction(db, nom, phone, reqs, paid, special, negotiated).Ok?
    ensures var (after, v) := SaleTransaction(db, nom, phone, reqs, paid, special, negotiated).value;
      && v == |db.ventes| + 1 && |after.ventes| == v
      && after.clients == ResolveClient(db.clients, nom, phone).0
      && after.ventes[v - 1].clientId == ResolveClient(db.clients, nom, phone).1
      && after.factures == db.factures && after.returnLog == db.returnLog
  {
    SaleTransactionCommits(db, nom, phone, reqs, paid, special, negotiated);
    var total := if negotiated.Num? then negotiated.value else ValidatedTotal(db.products, reqs).value;
    CommitSale(db, nom, phone, total, Lines(db.products, reqs, special).value, paid, special);
  }

  /** The products table the commit leaves: each line's product 'sold', the
      others untouched, no column but the status changed. */
  lemma CommitInventory(db: Db, nom: string, phone: Option<string>, total: int, reqs: seq<RequestItem>,
                        ls: seq<Line>, paid: Numeric, special: bool)
    requires Lines(db.products, reqs, special) == Ok(ls)
    ensures forall i :: 0 <= i < |reqs| ==> FindProduct(db.products, reqs[i]).Some?
    ensures var after := Commit(db, nom, phone, total, ls, paid, special).0;
      && |after.products| == |db.products|
      && (forall i :: 0 <= i < |reqs| ==> after.products[FindProduct(db.products, reqs[i]).value - 1].status == Sold)
      && (forall j :: 0 <= j < |db.products| ==> after.products[j] == db.products[j].(status := after.products[j].status))
      && (forall j :: 0 <= j < |db.products| && Unreferenced(db.products, reqs, j + 1) ==> after.products[j] == db.products[j])
  {
    LinesProducts(db.products, reqs, ls, special);
    MarkSoldFacts(db.products, ls);
    forall id | 1 <= id <= |db.products| && Unreferenced(db.products, reqs, id) ensures Unnamed(ls, id) {
    }
  }

  /** Each line names the product its request item was matched to. */
  lemma LinesProducts(ps: seq<Product>, reqs: seq<RequestItem>, ls: seq<Line>, special: bool)
    requires Lines(ps, reqs, special) == Ok(ls)
    ensures |ls| == |reqs|
    ensures forall i :: 0 <= i < |reqs| ==> FindProduct(ps, reqs[i]) == Some(ls[i].produitId)
  {
    LinesOk(ps, reqs, special);
    forall i | 0 <= i < |reqs| ensures FindProduct(ps, reqs[i]) == Some(ls[i].produitId) {
      LineAt(ps, reqs, special, i);
    }
  }

  /** No item of the request names product `id`. */
  predicate Unreferenced(ps: seq<Product>, reqs: seq<RequestItem>, id: nat)
  {
    forall i :: 0 <= i < |reqs| ==> FindProduct(ps, reqs[i]) != Some(id)
  }

  /** The inventory after a successful creation: every product a line
      refers to is 'sold', other products are untouched, and no column other
      than the status changes. */
  lemma CreationInventory(db: Db, nom: string, phone: Option<string>, reqs: seq<RequestItem>,
                          paid: Numeric, special: bool, negotiated: Numeric)
    requires SaleTransaction(db, nom, phone, reqs, paid, special, negotiated).Ok?
    ensures forall i :: 0 <= i < |reqs| ==> FindProduct(db.products, reqs[i]).Some?
    ensures var after := SaleTransaction(db, nom, phone, reqs, paid, special, negotiated).value.0;
      && |after.products| == |db.products|
      && (forall i :: 0 <= i < |reqs| ==> after.products[FindProduct(db.products, reqs[i]).value - 1].status == Sold)
      && (forall j :: 0 <= j < |db.products| ==> after.products[j] == db.products[j].(status := after.products[j].status))
      && (forall j :: 0 <= j < |db.products| && Unreferenced(db.products, reqs, j + 1) ==> after.products[j] == db.products[j])
  {
    SaleTransactionCommits(db, nom, phone, reqs, paid, special, negotiated);
    var total := if negotiated.Num? then negotiated.value else ValidatedTotal(db.products, reqs).value;
    CommitInventory(db, nom, phone, total, reqs, Lines(db.products, reqs, special).value, paid, special);
  }

  /** The commit keeps the foreign keys intact when every line names an
      existing product. */
  lemma CommitWellFormed(db: Db, nom: string, phone: Option<string>, total: int, ls: seq<Line>,
                         paid: Numeric, special: bool)
    requires WellFormed(db)
    requires forall k :: 0 <= k < |ls| ==> 1 <= ls[k].produitId <= |db.products|
    ensures WellFormed(Commit(db, nom, phone, total, ls, paid, special).0)
  {
    CommitLines(db, nom, phone, total, ls, paid, special);
    CommitSale(db, nom, phone, total, ls, paid, special);
    MarkSoldFacts(db.products, ls);
    var (after, v) := Commit(db, nom, phone, total, ls, paid, special);
    forall i | 0 <= i < |after.ventes|
      ensures 1 <= after.ventes[i].clientId <= |after.clients|
    {
      if i < |db.ventes| {
        assert after.ventes[i] == db.ventes[i];
      }
    }
    forall i | 0 <= i < |after.items|
      ensures 1 <= after.items[i].venteId <= |after.ventes| && 1 <= after.items[i].produitId <= |after.products|
    {
      if i < |db.items| {
        assert after.items[i] == db.items[i];
      } else {
        assert after.items[i] == ItemOf(ls[i - |db.items|], v);
      }
    }
    assert after.factures == db.factures;
  }

  /** A successful creation keeps the foreign keys intact. */
  lemma CreationWellFormed(db: Db, nom: string, phone: Option<string>, reqs: seq<RequestItem>,
                           paid: Numeric, special: bool, negotiated: Numeric)
    requires WellFormed(db)
    requires SaleTransaction(db, nom, phone, reqs, paid, special, negotiated).Ok?
    ensures WellFormed(SaleTransaction(db, nom, phone, reqs, paid, special, negotiated).value.0)
  {
    SaleTransactionCommits(db, nom, phone, reqs, paid, special, negotiated);
    var ls := Lines(db.products, reqs, special).value;
    var total := if negotiated.Num? then negotiated.value else ValidatedTotal(db.products, reqs).value;
    LinesOk(db.products, reqs, special);
    forall k | 0 <= k < |ls| ensures 1 <= ls[k].produitId <= |db.products| {
      LineAt(db.products, reqs, special, k);
    }
    CommitWellFormed(db, nom, phone, total, ls, paid, special);
  }

  /** A commit priced at the sum of its lines leaves the new sale reconciled:
      its total is the sum over its 'actif' rows, it has such a row so no
      override applies, and no invoice row names it yet. */
  lemma CommitReconciled(db: Db, nom: string, phone: Option<string>, ls: seq<Line>,
                         paid: Numeric, special: bool)
    requires WellFormed(db) && ls != []
    ensures var (after, v) := Commit(db, nom, phone, LinesTotal(ls), ls, paid, special);
      Reconciled(after, v)
  {
    var (after, v) := Commit(db, nom, phone, LinesTotal(ls), ls, paid, special);
    assert NoActiveLine(db.items, v);
    NoActiveLineTotal(db.items, v);
    ActiveTotalAppend(db.items, Attach(ls, v), v);
    AttachTotal(ls, v);
    assert after.items[|db.items|] == ItemOf(ls[0], v);
    AllLinesInactiveIff(after.items, v);
    assert after.factures == db.factures;
  }

  /** A sale created without a negotiated amount starts reconciled with its
      lines (see Reconcile.Reconciled), so settling it changes nothing; a
      negotiated total need not be the sum of the lines, and the first
      correction replaces it by that sum. */
  lemma CreationReconciled(db: Db, nom: string, phone: Option<string>, reqs: seq<RequestItem>,
                           paid: Numeric, special: bool, negotiated: Numeric)
    requires WellFormed(db) && negotiated.NotANumber?
    requires SaleTransaction(db, nom, phone, reqs, paid, special, negotiated).Ok?
    ensures var (after, v) := SaleTransaction(db, nom, phone, reqs, paid, special, negotiated).value;
      Reconciled(after, v) && Settle(after, v) == Ok(after)
  {
    SaleTransactionCommits(db, nom, phone, reqs, paid, special, negotiated);
    var ls := Lines(db.products, reqs, special).value;
    LinesOk(db.products, reqs, special);
    ValidatedTotalValue(db.products, reqs);
    LinesTotalValue(db.products, reqs, ls, special);
    CommitReconciled(db, nom, phone, ls, paid, special);
    var (after, v) := SaleTransaction(db, nom, phone, reqs, paid, special, negotiated).value;
    SettleReconciledIsNoop(after, v);
  }
}
