# Sales and inventory reconciliation (ventes.js) in Dafny

This project models the sale routes of the INA back office in `ventes.js`. They work on a
PostgreSQL database with five tables: `clients`, `products` (the inventory), `ventes` (sales),
`vente_items` (sale lines) and `factures` (invoices). They also append to a `returns` log.

The routes modelled are:

- `POST /` creates a sale. It finds or creates the client by name, then prices the request with
  the validation loop. That loop is skipped when a numeric `montant_negocie` is given. It then
  prepares one line per item, inserts the sale and its `actif` lines, and marks the products `sold`.
- `POST /cancel-item` cancels one sale line.
- `POST /return-item` returns one sale line.
- `POST /mark-as-rendu` marks one sale line as handed back.
- `PUT /:id/update-payment` runs an ordered validation chain, then stores the amount paid, the
  total and the derived status, and syncs the invoice rows.

The three line corrections share one tail:

1. Overwrite the line's status and reason. The current status is not checked.
2. Apply the route's inventory effect.
3. Return only: append a return record.
4. Recompute the sale total over its `actif` lines.
5. Re-derive the payment status from the stored amount paid.
6. Sync the invoice rows of the sale.
7. Set sale and invoices to `annulee` when every line of the sale is inactive.

Each route is one transaction. It commits new tables, or fails with an error and leaves the
tables as they were (BEGIN/ROLLBACK/COMMIT).

Layout:

- `common.dfy` holds `Option`, `Result`, `Outcome` and `Numeric`. `Numeric` is an amount as
  `parseFloat` yields it: NaN, or whole CFA units.
- `schema.dfy` holds the rows, the statuses, the errors, the tables `Db` and the referential
  invariant `WellFormed`. By convention of the model, a row's id is its position plus one.
  The database's SERIAL ids can have gaps (a sequence value taken by a rolled-back insert is
  not reused); the model does not reproduce them, as it only compares ids.
- `inventory.dfy` holds the three `UPDATE products` statements.
- `clients.dfy` holds the client lookup, insert and phone update.
- `reconcile.dfy` holds the active-line total and the four payment-status derivations as each
  handler writes them, each shown equal to one rule (`DeriveStatus`). It also holds the invoice
  mirror, the "every line inactive" check and `Settle`, the shared tail of every correction.
- `checkout.dfy` holds creation: product lookup, the validation loop (`ValidateItems`), the line
  loop (`PrepareLines`) and the whole transaction `SaleTransaction`.
- `corrections.dfy` holds the three corrections and the payment update, each as a function from
  the tables to the committed tables or an error.
- `store.dfy` holds the class `Ventes.Store`. It keeps the six tables as fields and runs each route
  statement by statement: insert loops, status loop, rollback to the snapshot taken at BEGIN.
  Each method is proved to leave exactly the tables its transaction function gives.

## Model

| member | source | states |
|---|---|---|
| Inventory.SetProductStatus | ventes.js:311-314 | `UPDATE products SET status WHERE id`: its effect over a whole line loop is stated by Checkout.MarkSoldFacts |
| Inventory.SetStatusWhereImei | ventes.js:368-371 | `UPDATE products SET status WHERE id AND imei` (also at ventes.js:564-567): its effect is stated by Corrections.CancelEffects and Corrections.ReturnEffects |
| Inventory.Restock | ventes.js:688-691 | `SET status 'active', quantite + 1 WHERE id AND imei`: its effect is stated by Corrections.RenduEffects and Corrections.RenduTwiceRestocksTwice |
| Clients.FindClient | ventes.js:170-172 | the id is that of the first client with the name, and there is none exactly when no client has it |
| Clients.ResolveClient | ventes.js:168-185 | an existing client keeps its id and gets a supplied, differing phone; an unknown name is appended with the phone or NULL; the resulting client bears the name |
| Clients.ReturnClientId | ventes.js:571-577 | the id of a client with that name, and 0 exactly when no client has it |
| Ventes.Store.ResolveClientRow | ventes.js:168-185 | the client step leaves the client table and id ResolveClient gives and no other table changed |
| Checkout.FindProduct | ventes.js:194-201 | the product query's `rows[0]`; a found id names a row of the table; first-match semantics are stated by Checkout.FindProductFirst |
| Checkout.FindProductFirst | ventes.js:194-201 | the lookup returns a product matching IMEI, brand, model and the three nullable attributes (NULL only matching NULL), the first such, and none exactly when nothing matches |
| Checkout.FinalPrice | ventes.js:216 | the request's price override, an override of 0 or none falling back to the product's price; used by Checkout.ItemCheck and Checkout.ValidatedTotalValue |
| Checkout.ItemCheck | ventes.js:203-230 | an item passes exactly when its product exists, is 'active', and its final price is at least the purchase price and above 0; otherwise the first failing check, in the handler's order, names the error: not found, then not 'active' (with its status), then below cost, then a price of 0 or less; a price of 0 under a positive cost is reported as below cost |
| Checkout.ValidatedTotal | ventes.js:190-233 | the validation loop's result: see Checkout.ValidatedTotalOk, Checkout.ValidatedTotalValue and Checkout.ValidateItems |
| Checkout.ValidatedTotalOk | ventes.js:193-232 | the validation loop succeeds exactly when every item passes, and otherwise fails with the error of the first failing item |
| Checkout.ValidatedTotalValue | ventes.js:216-231 | the loop's total is the sum of quantity times final price, the override when non-zero, else the product's price |
| Checkout.ValidateItems | ventes.js:188-233 | the loop method returns the validation result: total, or the first item's error |
| Checkout.Lines | ventes.js:239-272 | the line loop's result: see Checkout.LinesOk, Checkout.LineAt and Checkout.PrepareLines |
| Checkout.LinesOk | ventes.js:239-272 | the line loop yields one line per item exactly when every product is found, else an internal error (the undefined row throws) |
| Checkout.LineAt | ventes.js:239-272 | line i names the product item i finds, its attribute snapshot, the final and purchase prices and the special flag |
| Checkout.PrepareLines | ventes.js:236-272 | the line loop method returns the lines described by Lines |
| Checkout.MarkSold | ventes.js:309-315 | the products after the status loop: see Checkout.MarkSoldFacts and Ventes.Store.MarkProductsSold |
| Checkout.MarkSoldFacts | ventes.js:309-315 | after the status loop every named product is 'sold', no other column changes, and unnamed products are untouched |
| Checkout.SaleOutcome | ventes.js:188-272 | the total (negotiated, else validated) and the lines, or the first error: see Checkout.CreationSucceeds and Checkout.CreationRejects |
| Checkout.PriceRequest | ventes.js:188-272 | the pricing steps of the handler (negotiated total or validation loop, then the line loop) return exactly SaleOutcome's total and lines, or its first error |
| Checkout.Commit | ventes.js:276-315 | the tables a priced sale writes: see Checkout.CreationClient, Checkout.CreationTotal, Checkout.CreationLines and Checkout.CreationInventory |
| Checkout.SaleTransaction | ventes.js:151-334 | creation as one transaction: see Checkout.CreationMissingData, Checkout.CreationSucceeds, Checkout.CreationRejects and the Creation lemmas below |
| Checkout.CreationMissingData | ventes.js:158-161 | creation fails with the missing-data error exactly when the client name or the item list is empty |
| Checkout.CreationSucceeds | ventes.js:188-250 | without a negotiated total creation succeeds exactly when every item passes; with one, exactly when every product exists, otherwise with an internal error |
| Checkout.CreationRejects | ventes.js:203-230 | the first item that fails its checks makes creation fail with that item's error |
| Checkout.CreationClient | ventes.js:168-291 | a successful creation leaves the client table ResolveClient gives and records the resolved client on the new sale row, with the next sale id; invoices and the returns log are untouched |
| Checkout.CreationLines | ventes.js:239-306 | a successful creation inserts one 'actif' row per request item, with its product's id and snapshot, both prices, the request's special flag and no reason |
| Checkout.CreationTotal | ventes.js:188-291 | the stored total is the negotiated value when given, else the sum over the request, which is also the sum over the new sale's 'actif' rows; the status is derived from it and paid |
| Checkout.CreationInventory | ventes.js:255-315 | every product the request names becomes 'sold', only the status column changes, and other products are untouched |
| Checkout.CreationWellFormed | ventes.js:168-315 | creation keeps every client, sale and product reference resolvable |
| Checkout.CreationReconciled | ventes.js:188-291 | a sale created without a negotiated total starts reconciled with its lines, so settling it changes nothing |
| Ventes.Store.InsertLines | ventes.js:294-306 | the insert loop appends exactly the rows of the lines, in order |
| Ventes.Store.MarkProductsSold | ventes.js:309-315 | the status loop leaves the products MarkSold describes |
| Ventes.Store.WriteSale | ventes.js:286-315 | the sale insert, the line insert loop and the status loop leave the tables with the sale row appended under the next id, its lines attached, and their products 'sold' |
| Ventes.Store.CreateSale | ventes.js:151-334 | the route commits exactly the tables and id of SaleTransaction, or returns its error with every table, clients included, rolled back |
| Reconcile.ActiveTotal | ventes.js:375-381 | `COALESCE(SUM(prix * quantite), 0)` over the sale's 'actif' lines: see Reconcile.ActiveTotalUpdate and Reconcile.NoActiveLineTotal |
| Reconcile.CountLines | ventes.js:412-416 | `COUNT(*)` over the sale's lines: see Reconcile.CountsAgree |
| Reconcile.CountInactive | ventes.js:412-416 | the `SUM(CASE ...)` of inactive lines: see Reconcile.CountsAgree |
| Reconcile.AllLinesInactive | ventes.js:411-418 | the `parseInt` equality test of the two counts: see Reconcile.AllLinesInactiveIff |
| Reconcile.DeriveStatus | ventes.js:276-283 | 'payee_integralement' exactly when paid is a number at least the total, 'paiement_partiel' exactly when 0 < paid < total, 'en_attente_paiement' otherwise, never 'annulee' |
| Reconcile.CorrectionStatus | ventes.js:387-394 | the cancel derivation (repeated in return-item) gives the same status as DeriveStatus |
| Reconcile.RenduStatus | ventes.js:706-713 | the rendu derivation gives the same status as DeriveStatus; its 'annulee' branch is never taken |
| Reconcile.PaymentUpdateStatus | ventes.js:486-493 | for a paid amount of 0 or more the update-payment derivation agrees with DeriveStatus; its default survives only for a negative amount |
| Reconcile.ActiveTotalUpdate | ventes.js:375-382 | overwriting one line moves the active-line total by the difference of the two lines' contributions |
| Reconcile.CountsAgree | ventes.js:411-416 | the inactive count never exceeds the line count; the line count is positive exactly when the sale has a line; the counts agree exactly when no line of the sale is 'actif' |
| Reconcile.AllLinesInactiveIff | ventes.js:411-418 | the override fires exactly when the sale has lines and none is 'actif' |
| Reconcile.NoActiveLineTotal | ventes.js:375-382 | a sale with no 'actif' line has a recomputed total of 0 (COALESCE) |
| Reconcile.LineOfOtherSale | ventes.js:375-416 | overwriting a line of one sale moves neither another sale's total nor its override check |
| Reconcile.SyncInvoices | ventes.js:403-409 | every invoice row of the sale gets status, total, total minus paid and paid; other rows are untouched |
| Reconcile.SetInvoiceStatus | ventes.js:424-427 | only the status of the sale's invoice rows changes |
| Reconcile.SyncThenOverride | ventes.js:403-427 | syncing and then overriding the status equals syncing with the override status |
| Reconcile.Settle | ventes.js:375-428 | the shared tail of every correction: see Reconcile.SettledFacts, Reconcile.SettleReconciles, Reconcile.SettleIdempotent and Ventes.Store.SettleSale |
| Reconcile.SettledFacts | ventes.js:375-427 | after a correction the total is the 'actif' sum, paid and the other columns are kept, the status is 'annulee' (total 0) when every line is inactive and the derived status otherwise |
| Reconcile.SettledInvoicesFacts | ventes.js:400-427 | each invoice row of the sale carries the sale's new status and total, the unchanged paid amount and total minus paid as due |
| Reconcile.SettleReconciles | ventes.js:375-427 | settling an existing sale reconciles it with its lines and invoices, keeps paid, and touches no other sale, invoice of another sale, or table |
| Reconcile.SettleReconciledIsNoop | ventes.js:375-427 | settling a reconciled sale changes nothing |
| Reconcile.SettleIdempotent | ventes.js:375-427 | settling twice is settling once |
| Reconcile.SettleKeepsOthers | ventes.js:375-427 | settling one sale leaves every other reconciled sale reconciled |
| Ventes.Store.SettleSale | ventes.js:375-428 | the in-place recompute, derivation, invoice update and override leave exactly the tables Settle gives |
| Corrections.Mark | ventes.js:357-360 | the named line gets the new status and reason and every other line is kept |
| Corrections.ReturnRow | ventes.js:571-588 | the return record carries the client of that name or 0 exactly when there is none, the line's own special flag and status 'retourne' |
| Corrections.Correct | ventes.js:357-428 | marking one line and settling its sale: see Corrections.CorrectFacts |
| Corrections.CorrectFacts | ventes.js:357-428 | a correction commits; the line gets its status and reason; the sale is reconciled with paid kept; its total becomes the sale's 'actif' sum before the correction, minus the line's amount when the line was 'actif' (a negotiated total is replaced; a total already equal to that sum drops by exactly the line's amount); other sales and their invoices are untouched |
| Corrections.CorrectKeepsWellFormed | ventes.js:357-428 | a correction keeps every reference resolvable |
| Corrections.CorrectKeepsOthers | ventes.js:375-428 | a correction of one sale leaves every other reconciled sale reconciled |
| Corrections.CancelTransaction | ventes.js:337-444 | cancel-item as one transaction: see Corrections.CancelEffects and Corrections.CancelIdempotent |
| Corrections.CancelEffects | ventes.js:337-444 | cancel fails when the line is not the sale's; otherwise the line is 'annule' with the reason, the product goes back to 'active' exactly for a non-special line with a product id and matching IMEI, nothing is logged, and the sale is reconciled |
| Corrections.CancelIdempotent | ventes.js:357-428 | repeating the same cancel changes nothing more |
| Corrections.ReturnTransaction | ventes.js:526-658 | return-item as one transaction: see Corrections.ReturnEffects |
| Corrections.ReturnEffects | ventes.js:526-658 | return fails when a required field is missing, then when the line is not the sale's; otherwise the line is 'retourne', the product 'returned' under the cancel guard, one return record is appended, and the sale is reconciled |
| Corrections.RenduTransaction | ventes.js:661-764 | mark-as-rendu as one transaction: see Corrections.RenduEffects and Corrections.RenduTwiceRestocksTwice |
| Corrections.RenduEffects | ventes.js:661-764 | rendu fails when a required field is missing, then when the line is not the sale's; otherwise the line is 'rendu', a product with matching IMEI is set 'active' with one more unit, special or not, and the sale is reconciled |
| Corrections.RenduTwiceRestocksTwice | ventes.js:673-692 | repeating the same rendu leaves lines, sales and invoices as they were but adds a second unit to the product |
| Corrections.FinalTotal | ventes.js:465 | the new total when it parses as a number, else the stored one: see Corrections.PaymentEffects |
| Corrections.PaymentCheck | ventes.js:456-483 | the ordered validation chain: see Corrections.PaymentAccepted and Corrections.PaymentErrors |
| Corrections.PaymentTransaction | ventes.js:447-523 | update-payment as one transaction: see Corrections.PaymentEffects and Corrections.PaymentReconciledIff |
| Corrections.PaymentAccepted | ventes.js:456-483 | update-payment commits exactly when the sale exists, paid is a number from 0 to the final total, the final total is positive, and it is not below an amount already paid |
| Corrections.PaymentErrors | ventes.js:456-483 | the errors come in the handler's order: missing sale, bad paid amount, bad total, paid above total, total below what was paid |
| Corrections.PaymentEffects | ventes.js:486-507 | on success paid is between 0 and a positive total (the new one when numeric, else the old), the status is derived from them, each invoice row of the sale mirrors it with a due of total minus paid, at least 0, and nothing else changes |
| Corrections.PaymentReconciledIff | ventes.js:486-507 | after an update the sale is reconciled exactly when its total is its 'actif' sum and it still has an 'actif' line |
| Corrections.PaymentKeepsOthers | ventes.js:494-507 | an update keeps every reference resolvable and every other reconciled sale reconciled |
| Ventes.Store.CancelItem | ventes.js:337-444 | the route leaves exactly the tables of CancelTransaction, or returns its error with nothing changed, and keeps every reference resolvable |
| Ventes.Store.ReturnItem | ventes.js:526-658 | the route leaves exactly the tables of ReturnTransaction, or returns its error with nothing changed |
| Ventes.Store.MarkRendu | ventes.js:661-764 | the route leaves exactly the tables of RenduTransaction, or returns its error with nothing changed |
| Ventes.Store.UpdatePayment | ventes.js:447-523 | the route leaves exactly the tables of PaymentTransaction, or returns its error with nothing changed |
| Ventes.Store.Rollback | ventes.js:327 | ROLLBACK puts back every table of the snapshot taken at BEGIN |

## Left out

- HTTP routing, status codes, response bodies and `console` logging. Routes return a result or an
  error value instead.
- The read-only listing and detail routes (ventes.js:32-147), the PDF route and its HTML template
  (ventes.js:769-1025), and the helpers `formatAmount` and `formatDate` (ventes.js:7-28).
  These are presentation code.
- Floating point. Amounts are whole CFA units. `parseFloat` is modelled only as a number or NaN
  (`Numeric`), so fractional amounts and rounding are not modelled.
- A price override that is truthy but not numeric (a NaN final price) is not modelled. The
  override is `Option<int>`, and 0 counts as absent.
- Route ids and body fields that are not numbers. Ids are `nat`, and 0 stands for an absent id.
- `NOW()` timestamps (`date_vente`, `rendu_date`, `return_date`) are not stored.
- The `FOR UPDATE` row lock, concurrent requests and the connection pool. Every route runs alone
  and atomically.
- db.js (pool setup) is not part of this model. Neither is server.js (CORS, wiring, dashboard
  counts, `/api/benefices`).
- A stricter rule that only an `actif` line may be cancelled, returned or rendu is not modelled.
  The code does not enforce it, and the model follows the code.
- The error raised when a line exists but its sale row does not (reading `montant_paye` of an
  undefined row) is kept only in the transaction functions, as `Internal`. Under `WellFormed`,
  which every `Store` method keeps, that case cannot occur, so the methods have no branch for it.
- Database errors other than those paths (a failing INSERT, a constraint violation) are not
  modelled.
- Rows returned by a `SELECT` without `ORDER BY` are taken in id order. The first match is the
  lowest id.
