/** The three tables the sale recorder touches, as an immutable value, and
    the single-statement reads and writes it issues against them. */
module Store {
  import opened Wrappers
  import opened Decimals

  /** A row of `produtos`. The sale price and cost price are nullable numeric
      columns; the stock is an integer with no lower bound. */
  datatype Product = Product(
    code: string,
    name: string,
    category: string,
    costPrice: Option<Dec>,
    salePrice: Option<Dec>,
    stock: int,
    notes: string)

  /** A row of `vendas`. */
  datatype Sale = Sale(customer: string, channel: string, total: Dec, commission: Dec, net: Dec)

  /** A row of `itens_venda`: the unit price is copied at the time of sale. */
  datatype Item = Item(saleId: int, productId: int, quantity: int, unitPrice: Dec)

  /** The database: products and sales keyed by id, line items in insertion
      order, and the sequence that hands out sale ids. */
  datatype Db = Db(
    products: map<int, Product>,
    sales: map<int, Sale>,
    items: seq<Item>,
    nextSaleId: int)

  /** Referential integrity and a sequence ahead of every sale id. */
  predicate Valid(db: Db) {
    && (forall id :: id in db.sales ==> id < db.nextSaleId)
    && (forall i :: 0 <= i < |db.items| ==>
          db.items[i].saleId in db.sales && db.items[i].productId in db.products)
  }

  /** `SELECT preco_venda FROM produtos WHERE id = :id`: nothing when there is
      no such row or the column is NULL. */
  function SalePrice(db: Db, id: int): (r: Option<Dec>)
    ensures r.Some? <==> id in db.products && db.products[id].salePrice.Some?
    ensures r.Some? ==> Some(r.value) == db.products[id].salePrice
  {
    if id in db.products then db.products[id].salePrice else None
  }

  /** `INSERT INTO vendas ... RETURNING id`: the row gets the sequence's next
      value; the insert fails when a row already holds that id. */
  function InsertSale(db: Db, sale: Sale): (r: Option<(int, Db)>)
    ensures r.Some? <==> db.nextSaleId !in db.sales
    ensures r.Some? ==>
      var (id, db') := r.value;
      && id == db.nextSaleId && id !in db.sales
      && db'.sales == db.sales[id := sale]
      && db'.products == db.products
      && db'.items == db.items
      && db'.nextSaleId == id + 1
  {
    var id := db.nextSaleId;
    if id in db.sales then None
    else Some((id, db.(sales := db.sales[id := sale], nextSaleId := id + 1)))
  }

  /** `INSERT INTO itens_venda ...`: one row appended after all existing ones. */
  function InsertItem(db: Db, item: Item): (r: Db)
    ensures |r.items| == |db.items| + 1 && r.items[..|db.items|] == db.items
    ensures r.items[|db.items|] == item
    ensures r.products == db.products && r.sales == db.sales && r.nextSaleId == db.nextSaleId
  {
    db.(items := db.items + [item])
  }

  /** `UPDATE produtos SET estoque_atual = estoque_atual - :qtd WHERE id = :id`:
      no floor, and no effect when no row has that id. */
  function DecrementStock(db: Db, id: int, quantity: int): (r: Db)
    ensures r.products.Keys == db.products.Keys
    ensures id in db.products ==> r.products[id] == db.products[id].(stock := db.products[id].stock - quantity)
    ensures forall k :: k in db.products && k != id ==> r.products[k] == db.products[k]
    ensures r.sales == db.sales && r.items == db.items && r.nextSaleId == db.nextSaleId
  {
    if id in db.products then
      var p := db.products[id];
      db.(products := db.products[id := p.(stock := p.stock - quantity)])
    else db
  }

  /** The quantity of product `id` recorded across `items`. */
  function SoldOf(items: seq<Item>, id: int): int {
    if items == [] then 0
    else
      var last := items[|items| - 1];
      SoldOf(items[..|items| - 1], id) + (if last.productId == id then last.quantity else 0)
  }
}
