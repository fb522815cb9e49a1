/** The rows of the five tables the sale routes touch (clients, products,
    ventes, vente_items, factures) and of the append-only returns log.
    By convention of this model a row's id is its position in its table
    plus one, so id 0 never names a row. The database's SERIAL ids need not
    be dense (a sequence value is not given back on ROLLBACK, so a client
    inserted by a failed creation leaves a gap); the model only compares
    ids and never computes with them, so only their identity matters. */
module Schema {
  import opened Common

  /** products.status: 'active', 'sold', 'returned'. */
  datatype ProductStatus = Active | Sold | Returned

  /** vente_items.statut_vente: 'actif', 'annule', 'retourne', 'rendu'. */
  datatype ItemStatus = Actif | Annule | Retourne | Rendu

  /** ventes.statut_paiement and factures.statut_facture: 'en_attente_paiement',
      'paiement_partiel', 'payee_integralement', 'annulee'. */
  datatype PaymentStatus = EnAttentePaiement | PaiementPartiel | PayeeIntegralement | Annulee

  datatype Client = Client(nom: string, telephone: Option<string>)

  /** An inventory unit; `kind` is the `type` column. */
  datatype Product = Product(
    imei: string, marque: string, modele: string,
    stockage: Option<string>, kind: Option<string>, typeCarton: Option<string>,
    status: ProductStatus, prixVente: int, prixAchat: int, quantite: int)

  /** A row of ventes; `montantPaye` keeps whatever `parseFloat` gave at creation. */
  datatype Sale = Sale(
    clientId: nat, montantTotal: int, montantPaye: Numeric,
    statut: PaymentStatus, isFactureSpeciale: bool)

  /** A row of vente_items: the unit's attributes are copied at sale time. */
  datatype SaleItem = SaleItem(
    venteId: nat, produitId: nat, imei: string, quantiteVendue: int,
    prixVente: int, prixAchat: int,
    marque: string, modele: string, typeCarton: Option<string>,
    stockage: Option<string>, kind: Option<string>,
    statut: ItemStatus, isSpecial: bool, reason: Option<string>)

  /** A row of factures; rows are created elsewhere and only updated here. */
  datatype Invoice = Invoice(
    venteId: nat, statut: PaymentStatus, montantOriginal: int,
    montantActuelDu: Numeric, montantPaye: Numeric)

  /** The unit description a return request carries. */
  datatype Attributes = Attributes(
    marque: Option<string>, modele: Option<string>, stockage: Option<string>,
    kind: Option<string>, typeCarton: Option<string>)

  /** A row of returns; `clientId` is 0 when the client name was not found,
      `productId` is 0 when the request gave none. */
  datatype ReturnRecord = ReturnRecord(
    venteItemId: nat, venteId: nat, clientId: nat, attributes: Attributes,
    imei: string, reason: string, statut: ItemStatus, productId: nat, isSpecial: bool)

  datatype Db = Db(
    clients: seq<Client>, products: seq<Product>, ventes: seq<Sale>,
    items: seq<SaleItem>, factures: seq<Invoice>, returnLog: seq<ReturnRecord>)

  /** The failures a route reports; every one of them leaves the tables as they were. */
  datatype Error =
    | MissingData                               // 400: required request field absent
    | SaleNotFound                              // 404
    | SaleItemNotFound                          // 404
    | ProductNotFound(imei: string)             // 404
    | ProductUnavailable(imei: string, status: ProductStatus)       // 400
    | PriceBelowCost(imei: string, price: int, cost: int)           // 400
    | InvalidPrice(imei: string, price: int)                        // 400
    | InvalidPaidAmount                         // 400
    | InvalidTotalAmount                        // 400
    | PaidExceedsTotal(paid: int, total: int)   // 400
    | TotalBelowPaid(total: int, paid: int)     // 400
    | Internal                                  // 500: an exception inside the transaction

  /** The foreign keys the routes rely on: a sale names an existing client,
      a sale line an existing sale and an existing product, an invoice an
      existing sale. */
  ghost predicate WellFormed(db: Db)
  {
    && (forall i :: 0 <= i < |db.ventes| ==> 1 <= db.ventes[i].clientId <= |db.clients|)
    && (forall i :: 0 <= i < |db.items| ==>
          1 <= db.items[i].venteId <= |db.ventes| && 1 <= db.items[i].produitId <= |db.products|)
    && (forall i :: 0 <= i < |db.factures| ==> 1 <= db.factures[i].venteId <= |db.ventes|)
  }
}
