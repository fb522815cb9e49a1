/** What every correction recomputes once a line's status has changed: the
    sale total over its 'actif' lines, the payment status, the mirrored
    invoice rows and the "every line inactive" override. The payment-status
    derivation appears four times in the handlers, each written slightly
    differently; all four are here and are shown to agree. */
module Reconcile {
  import opened Common
  import opened Schema

  // ---------------------------------------------------------------------
  // Recomputed total: SUM over the 'actif' lines of one sale
  // ---------------------------------------------------------------------

  /** What line `it` adds to the recomputed total of sale `v`. */
  function Contribution(it: SaleItem, v: nat): int
  {
    if it.venteId == v && it.statut == Actif then it.prixVente * it.quantiteVendue else 0
  }

  /** COALESCE(SUM(prix_unitaire_vente * quantite_vendue), 0) over the lines of
      sale `v` whose statut_vente is 'actif'. */
  function ActiveTotal(items: seq<SaleItem>, v: nat): int
  {
    if items == [] then 0 else Contribution(items[0], v) + ActiveTotal(items[1..], v)
  }

  lemma {:induction false} ActiveTotalAppend(a: seq<SaleItem>, b: seq<SaleItem>, v: nat)
    ensures ActiveTotal(a + b, v) == ActiveTotal(a, v) + ActiveTotal(b, v)
  {
    if a == [] {
      assert a + b == b;
    } else {
      assert (a + b)[1..] == a[1..] + b;
      ActiveTotalAppend(a[1..], b, v);
    }
  }

  /** Overwriting one line changes the total by exactly the difference of the
      two lines' contributions: a cancelled, returned or restocked 'actif' line
      of the sale takes its own amount off the total, and nothing else moves. */
  lemma {:induction false} ActiveTotalUpdate(items: seq<SaleItem>, k: nat, x: SaleItem, v: nat)
    requires k < |items|
    ensures ActiveTotal(items[k := x], v) == ActiveTotal(items, v) - Contribution(items[k], v) + Contribution(x, v)
  {
    if k == 0 {
      assert items[k := x][1..] == items[1..];
    } else {
      assert items[k := x][1..] == items[1..][k - 1 := x];
      ActiveTotalUpdate(items[1..], k - 1, x, v);
    }
  }

  // ---------------------------------------------------------------------
  // The "every line inactive" check
  // ---------------------------------------------------------------------

  /** The statuses listed in `statut_vente IN ('annule', 'retourne', 'rendu')`. */
  predicate IsInactive(s: ItemStatus)
  {
    s == Annule || s == Retourne || s == Rendu
  }

  /** COUNT(*) over the lines of sale `v`. */
  function CountLines(items: seq<SaleItem>, v: nat): nat
  {
    if items == [] then 0
    else (if items[0].venteId == v then 1 else 0) + CountLines(items[1..], v)
  }

  /** SUM(CASE WHEN statut_vente IN (...) THEN 1 ELSE 0 END) over the lines of sale `v`. */
  function CountInactive(items: seq<SaleItem>, v: nat): nat
  {
    if items == [] then 0
    else (if items[0].venteId == v && IsInactive(items[0].statut) then 1 else 0) + CountInactive(items[1..], v)
  }

  /** The test `parseInt(inactive_items) === parseInt(total_items)`. Over no
      rows SUM is NULL and parseInt gives NaN, so a sale without lines never
      passes it. */
  predicate AllLinesInactive(items: seq<SaleItem>, v: nat)
  {
    CountLines(items, v) > 0 && CountInactive(items, v) == CountLines(items, v)
  }

  ghost predicate HasLine(items: seq<SaleItem>, v: nat)
  {
    exists i :: 0 <= i < |items| && items[i].venteId == v
  }

  ghost predicate NoActiveLine(items: seq<SaleItem>, v: nat)
  {
    forall i :: 0 <= i < |items| && items[i].venteId == v ==> items[i].statut != Actif
  }

  lemma {:induction false} CountsAgree(items: seq<SaleItem>, v: nat)
    ensures CountInactive(items, v) <= CountLines(items, v)
    ensures CountLines(items, v) > 0 <==> HasLine(items, v)
    ensures CountInactive(items, v) == CountLines(items, v) <==> NoActiveLine(items, v)
  {
    if items != [] {
      var rest := items[1..];
      CountsAgree(rest, v);
      if HasLine(rest, v) {
        var j :| 0 <= j < |rest| && rest[j].venteId == v;
        assert items[j + 1].venteId == v;
      }
      if HasLine(items, v) && items[0].venteId != v {
        var j :| 0 <= j < |items| && items[j].venteId == v;
        assert rest[j - 1].venteId == v;
      }
      if NoActiveLine(items, v) {
        forall i | 0 <= i < |rest| && rest[i].venteId == v
          ensures rest[i].statut != Actif
        {
          assert rest[i] == items[i + 1];
        }
      }
      if NoActiveLine(rest, v) && (items[0].venteId == v ==> items[0].statut != Actif) {
        forall i | 0 <= i < |items| && items[i].venteId == v
          ensures items[i].statut != Actif
        {
          if i > 0 { assert items[i] == rest[i - 1]; }
        }
      }
      if NoActiveLine(items, v) {
        assert items[0].venteId == v ==> items[0].statut != Actif;
      }
    }
  }

  /** The override fires exactly when the sale has lines and none of them is 'actif'. */
  lemma AllLinesInactiveIff(items: seq<SaleItem>, v: nat)
    ensures AllLinesInactive(items, v) <==> HasLine(items, v) && NoActiveLine(items, v)
  {
    CountsAgree(items, v);
  }

  /** A sale with no 'actif' line has a recomputed total of 0. */
  lemma {:induction false} NoActiveLineTotal(items: seq<SaleItem>, v: nat)
    requires NoActiveLine(items, v)
    ensures ActiveTotal(items, v) == 0
  {
    if items != [] {
      var rest := items[1..];
      assert items[0].venteId == v ==> items[0].statut != Actif;
      forall i | 0 <= i < |rest| && rest[i].venteId == v
        ensures rest[i].statut != Actif
      {
        assert rest[i] == items[i + 1];
      }
      NoActiveLineTotal(rest, v);
    }
  }

  /** Overwriting a line of one sale does not move another sale's recomputed
      total nor its "every line inactive" check. */
  lemma LineOfOtherSale(items: seq<SaleItem>, k: nat, x: SaleItem, w: nat)
    requires k < |items| && items[k].venteId != w && x.venteId != w
    ensures ActiveTotal(items[k := x], w) == ActiveTotal(items, w)
    ensures AllLinesInactive(items[k := x], w) == AllLinesInactive(items, w)
  {
    ActiveTotalUpdate(items, k, x, w);
    AllLinesInactiveIff(items, w);
    AllLinesInactiveIff(items[k := x], w);
    var after := items[k := x];
    if HasLine(items, w) {
      var j :| 0 <= j < |items| && items[j].venteId == w;
      assert after[j].venteId == w;
    }
    if HasLine(after, w) {
      var j :| 0 <= j < |after| && after[j].venteId == w;
      assert items[j].venteId == w;
    }
    forall i | 0 <= i < |items| && i != k ensures after[i] == items[i] { }
    assert NoActiveLine(after, w) <==> NoActiveLine(items, w);
  }

  // ---------------------------------------------------------------------
  // Payment status, as each handler writes it
  // ---------------------------------------------------------------------

  /** The derivation at sale creation: paid >= total gives 'payee_integralement',
      otherwise paid > 0 gives 'paiement_partiel', otherwise 'en_attente_paiement'.
      A NaN paid amount fails both comparisons. */
  function DeriveStatus(total: int, paid: Numeric): (s: PaymentStatus)
    ensures s != Annulee
    ensures s == PayeeIntegralement <==> paid.Num? && paid.value >= total
    ensures s == PaiementPartiel <==> paid.Num? && 0 < paid.value < total
    ensures s == EnAttentePaiement <==> paid.NotANumber? || (paid.value < total && paid.value <= 0)
  {
    match paid
    case NotANumber => EnAttentePaiement
    case Num(p) =>
      if p >= total then PayeeIntegralement
      else if p > 0 then PaiementPartiel
      else EnAttentePaiement
  }

  /** The derivation after cancel-item and return-item (default 'en_attente_paiement',
      then total <= paid, paid > 0, paid === 0). */
  function CorrectionStatus(total: int, paid: Numeric): (s: PaymentStatus)
    ensures s == DeriveStatus(total, paid)
  {
    var s0 := EnAttentePaiement;
    match paid
    case NotANumber => s0
    case Num(p) =>
      if total <= p then PayeeIntegralement
      else if p > 0 then PaiementPartiel
      else if p == 0 then EnAttentePaiement
      else s0
  }

  /** The derivation after mark-as-rendu. Its 'annulee' branch (total and paid
      both 0) can never be taken: total <= paid already holds there. */
  function RenduStatus(total: int, paid: Numeric): (s: PaymentStatus)
    ensures s == DeriveStatus(total, paid)
    ensures s != Annulee
  {
    var s0 := EnAttentePaiement;
    match paid
    case NotANumber => s0
    case Num(p) =>
      if total <= p then PayeeIntegralement
      else if p > 0 then PaiementPartiel
      else if total == 0 && p == 0 then Annulee
      else s0
  }

  /** The derivation in update-payment, whose default is 'paiement_partiel'.
      The default survives only for a negative paid amount, which that
      route has already refused. */
  function PaymentUpdateStatus(total: int, paid: int): (s: PaymentStatus)
    ensures paid >= 0 ==> s == DeriveStatus(total, Num(paid))
    ensures paid < 0 && paid < total ==> s == PaiementPartiel
  {
    var s0 := PaiementPartiel;
    if paid >= total then PayeeIntegralement
    else if paid > 0 then PaiementPartiel
    else if paid == 0 then EnAttentePaiement
    else s0
  }

  /** montant_actuel_du: total minus paid, NaN when paid is NaN. */
  function Due(total: int, paid: Numeric): Numeric
  {
    match paid
    case NotANumber => NotANumber
    case Num(p) => Num(total - p)
  }

  // ---------------------------------------------------------------------
  // Invoice mirror
  // ---------------------------------------------------------------------

  /** UPDATE factures SET statut_facture, montant_original_facture,
      montant_actuel_du, montant_paye_facture WHERE vente_id = v: every
      invoice row of the sale, none when there is no such row. */
  function SyncInvoices(fs: seq<Invoice>, v: nat, statut: PaymentStatus, total: int, paid: Numeric): (r: seq<Invoice>)
    ensures |r| == |fs|
    ensures forall i :: 0 <= i < |fs| && fs[i].venteId != v ==> r[i] == fs[i]
    ensures forall i :: 0 <= i < |fs| && fs[i].venteId == v ==>
      r[i].venteId == v && r[i].statut == statut && r[i].montantOriginal == total &&
      r[i].montantActuelDu == Due(total, paid) && r[i].montantPaye == paid
  {
    seq(|fs|, i requires 0 <= i < |fs| =>
      if fs[i].venteId == v then Invoice(v, statut, total, Due(total, paid), paid) else fs[i])
  }

  /** UPDATE factures SET statut_facture = statut WHERE vente_id = v. */
  function SetInvoiceStatus(fs: seq<Invoice>, v: nat, statut: PaymentStatus): (r: seq<Invoice>)
    ensures |r| == |fs|
    ensures forall i :: 0 <= i < |fs| ==> r[i] == if fs[i].venteId == v then fs[i].(statut := statut) else fs[i]
  {
    seq(|fs|, i requires 0 <= i < |fs| => if fs[i].venteId == v then fs[i].(statut := statut) else fs[i])
  }

  /** Overriding the status of freshly synced rows is the same as syncing
      them with the overriding status. */
  lemma SyncThenOverride(fs: seq<Invoice>, v: nat, statut: PaymentStatus, override: PaymentStatus, total: int, paid: Numeric)
    ensures SetInvoiceStatus(SyncInvoices(fs, v, statut, total, paid), v, override) == SyncInvoices(fs, v, override, total, paid)
  {
    var a := SetInvoiceStatus(SyncInvoices(fs, v, statut, total, paid), v, override);
    var b := SyncInvoices(fs, v, override, total, paid);
    assert |a| == |b|;
    forall i | 0 <= i < |a| ensures a[i] == b[i] { }
  }

  // ---------------------------------------------------------------------
  // The sale and its invoices after a correction
  // ---------------------------------------------------------------------

  /** The status a correction leaves on sale `v`: 'annulee' when every line is
      inactive, otherwise the status derived from the recomputed total. */
  function SettledStatus(items: seq<SaleItem>, v: nat, paid: Numeric): PaymentStatus
  {
    if AllLinesInactive(items, v) then Annulee else DeriveStatus(ActiveTotal(items, v), paid)
  }

  /** Sale row `s` (of id `v`) once a correction has recomputed it from `items`. */
  function Settled(s: Sale, items: seq<SaleItem>, v: nat): Sale
  {
    s.(montantTotal := ActiveTotal(items, v), statut := SettledStatus(items, v, s.montantPaye))
  }

  /** The invoice rows once a correction of sale `v` has synced them. */
  function SettledInvoices(fs: seq<Invoice>, items: seq<SaleItem>, v: nat, paid: Numeric): seq<Invoice>
  {
    SyncInvoices(fs, v, SettledStatus(items, v, paid), ActiveTotal(items, v), paid)
  }

  /** What a correction promises about the sale: the total is the sum over its
      'actif' lines, the amount paid and the other columns are kept, and the
      status is 'annulee' with a total of 0 when no line is left active,
      otherwise the status derived from (total, paid). */
  lemma SettledFacts(s: Sale, items: seq<SaleItem>, v: nat)
    ensures var r := Settled(s, items, v);
      && r.montantTotal == ActiveTotal(items, v)
      && r.montantPaye == s.montantPaye && r.clientId == s.clientId
      && r.isFactureSpeciale == s.isFactureSpeciale
      && (AllLinesInactive(items, v) ==> r.statut == Annulee && r.montantTotal == 0)
      && (!AllLinesInactive(items, v) ==> r.statut == DeriveStatus(r.montantTotal, s.montantPaye))
      && (HasLine(items, v) && NoActiveLine(items, v) ==> r.statut == Annulee)
  {
    AllLinesInactiveIff(items, v);
    if AllLinesInactive(items, v) {
      NoActiveLineTotal(items, v);
    }
  }

  /** What a correction promises about the invoice mirror: every row of the
      sale carries the sale's new status and total, the unchanged amount paid,
      and an amount due equal to total minus paid; other rows are untouched. */
  lemma SettledInvoicesFacts(fs: seq<Invoice>, s: Sale, items: seq<SaleItem>, v: nat)
    ensures var r := SettledInvoices(fs, items, v, s.montantPaye);
      var sale := Settled(s, items, v);
      && |r| == |fs|
      && (forall i :: 0 <= i < |fs| && fs[i].venteId != v ==> r[i] == fs[i])
      && (forall i :: 0 <= i < |fs| && fs[i].venteId == v ==>
            r[i].statut == sale.statut && r[i].montantOriginal == sale.montantTotal &&
            r[i].montantPaye == sale.montantPaye &&
            r[i].montantActuelDu == Due(sale.montantTotal, sale.montantPaye))
  {
  }

  // ---------------------------------------------------------------------
  // The shared tail of every correction, on the whole tables
  // ---------------------------------------------------------------------

  /** Recompute sale `v` from its lines, derive its status, sync its invoices
      and apply the override. Reading `montant_paye` of a missing sale row
      throws, which rolls the correction back. */
  function Settle(db: Db, v: nat): Result<Db, Error>
  {
    if 1 <= v <= |db.ventes| then
      var s := db.ventes[v - 1];
      Ok(db.(ventes := db.ventes[v - 1 := Settled(s, db.items, v)],
             factures := SettledInvoices(db.factures, db.items, v, s.montantPaye)))
    else Err(Internal)
  }

  /** Sale `v` agrees with its lines and its invoices mirror it: the total is
      the sum over its 'actif' lines, the status is the settled status for
      the amount paid, and every invoice row of the sale carries that status,
      that total, the amount paid and total minus paid as the amount due. */
  ghost predicate Reconciled(db: Db, v: nat)
  {
    && 1 <= v <= |db.ventes|
    && var s := db.ventes[v - 1];
    && s.montantTotal == ActiveTotal(db.items, v)
    && s.statut == SettledStatus(db.items, v, s.montantPaye)
    && forall i :: 0 <= i < |db.factures| && db.factures[i].venteId == v ==>
         db.factures[i] == Invoice(v, s.statut, s.montantTotal, Due(s.montantTotal, s.montantPaye), s.montantPaye)
  }

  /** Settling an existing sale reconciles it, keeps its amount paid, and
      touches no other sale, no invoice of another sale, and no other table. */
  lemma SettleReconciles(db: Db, v: nat)
    requires 1 <= v <= |db.ventes|
    ensures Settle(db, v).Ok?
    ensures var r := Settle(db, v).value;
      && Reconciled(r, v)
      && r.ventes[v - 1].montantPaye == db.ventes[v - 1].montantPaye
      && |r.ventes| == |db.ventes| && |r.factures| == |db.factures|
      && (forall w :: 0 <= w < |db.ventes| && w != v - 1 ==> r.ventes[w] == db.ventes[w])
      && (forall i :: 0 <= i < |db.factures| && db.factures[i].venteId != v ==> r.factures[i] == db.factures[i])
      && r.items == db.items && r.products == db.products && r.clients == db.clients
      && r.returnLog == db.returnLog
  {
  }

  /** Settling a sale that is already reconciled changes nothing; with
      SettleReconciles, settling twice is the same as settling once. */
  lemma SettleReconciledIsNoop(db: Db, v: nat)
    requires Reconciled(db, v)
    ensures Settle(db, v) == Ok(db)
  {
    var s := db.ventes[v - 1];
    assert Settled(s, db.items, v) == s;
    var fs := SettledInvoices(db.factures, db.items, v, s.montantPaye);
    assert |fs| == |db.factures|;
    forall i | 0 <= i < |fs| ensures fs[i] == db.factures[i] { }
    assert fs == db.factures;
    assert db.ventes[v - 1 := s] == db.ventes;
  }

  /** Settling twice is settling once. */
  lemma SettleIdempotent(db: Db, v: nat)
    requires 1 <= v <= |db.ventes|
    ensures Settle(Settle(db, v).value, v) == Settle(db, v)
  {
    SettleReconciles(db, v);
    SettleReconciledIsNoop(Settle(db, v).value, v);
  }

  /** Settling sale `v` leaves every other reconciled sale reconciled. */
  lemma SettleKeepsOthers(db: Db, v: nat, w: nat)
    requires 1 <= v <= |db.ventes| && w != v && Reconciled(db, w)
    ensures Reconciled(Settle(db, v).value, w)
  {
    SettleReconciles(db, v);
  }
}
