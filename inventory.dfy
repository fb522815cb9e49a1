/** The updates the routes make to the products table, each keyed by the
    product's id (its position plus one). */
module Inventory {
  import opened Schema

  /** UPDATE products SET status = st WHERE id = id (sale creation). */
  function SetProductStatus(ps: seq<Product>, id: nat, st: ProductStatus): seq<Product>
  {
    if 1 <= id <= |ps| then ps[id - 1 := ps[id - 1].(status := st)] else ps
  }

  /** UPDATE products SET status = st WHERE id = id AND imei = imei
      (cancel-item with 'active', return-item with 'returned'). */
  function SetStatusWhereImei(ps: seq<Product>, id: nat, imei: string, st: ProductStatus): seq<Product>
  {
    if 1 <= id <= |ps| && ps[id - 1].imei == imei then ps[id - 1 := ps[id - 1].(status := st)] else ps
  }

  /** UPDATE products SET status = 'active', quantite = quantite + 1
      WHERE id = id AND imei = imei (mark-as-rendu). */
  function Restock(ps: seq<Product>, id: nat, imei: string): seq<Product>
  {
    if 1 <= id <= |ps| && ps[id - 1].imei == imei
    then ps[id - 1 := ps[id - 1].(status := Active, quantite := ps[id - 1].quantite + 1)]
    else ps
  }
}
