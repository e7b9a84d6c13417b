/** The POST branch of the sale page: read the form, look up the product's
    sale price, compute total and net amount exactly, and record the sale
    header, its single line item and the stock decrement in one unit of work
    that is committed once. */
module SaleRecorder {
  import opened Wrappers
  import opened Decimals
  import opened Store
  import opened SaleForm

  /** The database calls of one sale, in the order they are issued. */
  datatype Point = PriceQuery | SaleInsert | ItemInsert | StockUpdate | Commit

  /** Which call, if any, the database answers with an error (a lost
      connection, a violated constraint, an overflowing column). */
  datatype Fault = NoFault | FailAt(point: Point)

  datatype SaleError =
    | BadForm(cause: FormError)
    | ProductNotFound(productId: int)
    | DuplicateSaleId(saleId: int)
    | StoreFailure(point: Point)

  /** `Recorded` is the redirect home after the commit; `ProductNotFound` is
      the redirect back to the sale page; the other errors are exceptions
      that end the request. */
  datatype Response = Recorded(saleId: int) | Rejected(error: SaleError)

  /** What the client is told, and the database as every later request sees it. */
  datatype Outcome = Outcome(response: Response, db: Db)

  /** The header row of a sale of `req` at unit price `price`: the request's
      customer, channel and commission; the total is price times quantity and
      the net amount is the total less the commission, both exact, and each
      carries the exponent Python's Decimal gives it. */
  predicate SaleRowFor(sale: Sale, req: SaleRequest, price: Dec) {
    && sale.customer == req.customer
    && sale.channel == req.channel
    && sale.commission == req.commission
    && sale.total.scale == price.scale
    && Value(sale.total) == Value(price) * req.quantity as real
    && sale.net.scale == Max(sale.total.scale, req.commission.scale)
    && Value(sale.net) == Value(sale.total) - Value(req.commission)
  }

  /** The committed effect of one sale, as a relation between the database
      before and after: one new sale under a fresh id, one new line item
      pointing at it with the unit price of the moment, the product's stock
      lowered by the quantity, and nothing else changed. */
  predicate SaleTransition(db: Db, db': Db, req: SaleRequest, price: Dec, id: int) {
    && id == db.nextSaleId
    && id !in db.sales
    && db'.sales.Keys == db.sales.Keys + {id}
    && (forall k :: k in db.sales ==> db'.sales[k] == db.sales[k])
    && SaleRowFor(db'.sales[id], req, price)
    && |db'.items| == |db.items| + 1
    && db'.items[..|db.items|] == db.items
    && db'.items[|db.items|] == Item(id, req.productId, req.quantity, price)
    && req.productId in db.products
    && db'.products.Keys == db.products.Keys
    && (forall k :: k in db.products && k != req.productId ==> db'.products[k] == db.products[k])
    && db'.products[req.productId]
         == db.products[req.productId].(stock := db.products[req.productId].stock - req.quantity)
    && db'.nextSaleId == db.nextSaleId + 1
  }

  /** The three writes on the connection's uncommitted view of the database,
      then the commit. A failure anywhere returns no database: the
      connection is closed without a commit and its writes are discarded. */
  function UnitOfWork(db: Db, req: SaleRequest, price: Dec, fault: Fault): (r: Result<(int, Db), SaleError>)
    requires SalePrice(db, req.productId) == Some(price)
    requires fault != FailAt(PriceQuery)
    ensures r.Success? <==> fault == NoFault && db.nextSaleId !in db.sales
    ensures r.Success? ==> SaleTransition(db, r.value.1, req, price, r.value.0)
    ensures r.Failure? ==>
      r.error == (if fault == FailAt(SaleInsert) || (fault.FailAt? && db.nextSaleId !in db.sales)
                  then StoreFailure(fault.point)
                  else DuplicateSaleId(db.nextSaleId))
  {
    var total := Mul(price, req.quantity);
    var sale := Sale(req.customer, req.channel, total, req.commission, Sub(total, req.commission));
    if fault == FailAt(SaleInsert) then Failure(StoreFailure(SaleInsert))
    else match InsertSale(db, sale)
      case None => Failure(DuplicateSaleId(db.nextSaleId))
      case Some((id, afterSale)) =>
        if fault == FailAt(ItemInsert) then Failure(StoreFailure(ItemInsert))
        else
          var afterItem := InsertItem(afterSale, Item(id, req.productId, req.quantity, price));
          if fault == FailAt(StockUpdate) then Failure(StoreFailure(StockUpdate))
          else
            var afterStock := DecrementStock(afterItem, req.productId, req.quantity);
            if fault == FailAt(Commit) then Failure(StoreFailure(Commit))
            else
              NoFaultLeft(fault);
              Success((id, afterStock))
  }

  /** A fault that strikes none of the five calls is no fault. */
  lemma NoFaultLeft(fault: Fault)
    requires fault != FailAt(PriceQuery) && fault != FailAt(SaleInsert) && fault != FailAt(ItemInsert)
    requires fault != FailAt(StockUpdate) && fault != FailAt(Commit)
    ensures fault == NoFault
  {
    if fault.FailAt? {
      match fault.point
      case PriceQuery =>
      case SaleInsert =>
      case ItemInsert =>
      case StockUpdate =>
      case Commit =>
    }
  }

  /** Everything after the form has been read: the price lookup and the unit
      of work. */
  function Execute(db: Db, req: SaleRequest, fault: Fault): (r: Outcome)
    ensures r.response.Rejected? ==> r.db == db
    ensures r.response.Recorded? ==>
      && SalePrice(db, req.productId).Some?
      && SaleTransition(db, r.db, req, SalePrice(db, req.productId).value, r.response.saleId)
    ensures r.response.Recorded? <==>
      fault == NoFault && SalePrice(db, req.productId).Some? && db.nextSaleId !in db.sales
    ensures r.response == Rejected(ProductNotFound(req.productId)) <==>
      fault != FailAt(PriceQuery) && SalePrice(db, req.productId).None?
  {
    if fault == FailAt(PriceQuery) then Outcome(Rejected(StoreFailure(PriceQuery)), db)
    else match SalePrice(db, req.productId)
      case None => Outcome(Rejected(ProductNotFound(req.productId)), db)
      case Some(price) =>
        match UnitOfWork(db, req, price, fault)
        case Failure(e) => Outcome(Rejected(e), db)
        case Success((id, db')) => Outcome(Recorded(id), db')
  }

  /** One POST of the sale form against database `db`. */
  function RecordSale(db: Db, form: Form, fault: Fault): (r: Outcome)
    ensures ParseRequest(form).Failure? ==>
      r == Outcome(Rejected(BadForm(ParseRequest(form).error)), db)
    ensures r.response.Rejected? ==> r.db == db
    ensures r.response.Recorded? ==>
      && ParseRequest(form).Success?
      && var req := ParseRequest(form).value;
      && SalePrice(db, req.productId).Some?
      && SaleTransition(db, r.db, req, SalePrice(db, req.productId).value, r.response.saleId)
    ensures r.response.Recorded? <==>
      && ParseRequest(form).Success?
      && fault == NoFault
      && SalePrice(db, ParseRequest(form).value.productId).Some?
      && db.nextSaleId !in db.sales
  {
    match ParseRequest(form)
    case Failure(e) => Outcome(Rejected(BadForm(e)), db)
    case Success(req) => Execute(db, req, fault)
  }

  /** All or nothing: the database after a request is either the one before
      it or the one a single committed sale leads to. */
  lemma AllOrNothing(db: Db, form: Form, fault: Fault)
    ensures var r := RecordSale(db, form, fault);
      || r.db == db
      || exists req: SaleRequest, price: Dec, id: int :: SaleTransition(db, r.db, req, price, id)
  {
    var r := RecordSale(db, form, fault);
    if r.response.Recorded? {
      var req := ParseRequest(form).value;
      var price := SalePrice(db, req.productId).value;
      assert SaleTransition(db, r.db, req, price, r.response.saleId);
    }
  }

  /** A form that does not parse is refused before the database is reached:
      neither the database's contents nor its failures change the answer. */
  lemma FormErrorsPrecedeStore(form: Form, db1: Db, db2: Db, fault1: Fault, fault2: Fault)
    requires ParseRequest(form).Failure?
    ensures RecordSale(db1, form, fault1).response == RecordSale(db2, form, fault2).response
    ensures RecordSale(db1, form, fault1).db == db1
  {
  }

  /** A missing product, or one without a sale price, leaves every table as it was. */
  lemma MissingPriceWritesNothing(db: Db, form: Form, fault: Fault)
    requires ParseRequest(form).Success?
    requires SalePrice(db, ParseRequest(form).value.productId).None?
    ensures RecordSale(db, form, fault).response.Rejected?
    ensures RecordSale(db, form, fault).db == db
  {
  }

  /** The transition relation fixes the whole database after the sale: two
      databases that both satisfy it are equal. */
  lemma TransitionDeterminesDb(db: Db, a: Db, b: Db, req: SaleRequest, price: Dec, id: int)
    requires SaleTransition(db, a, req, price, id)
    requires SaleTransition(db, b, req, price, id)
    ensures a == b
  {
    SameSaleRow(a.sales[id], b.sales[id], req, price);
    assert forall k :: k in a.sales ==> a.sales[k] == b.sales[k];
    assert a.sales == b.sales;
    assert a.items == a.items[..|db.items|] + [a.items[|db.items|]];
    assert b.items == b.items[..|db.items|] + [b.items[|db.items|]];
    assert forall k :: k in a.products ==> a.products[k] == b.products[k];
    assert a.products == b.products;
  }

  lemma SameSaleRow(x: Sale, y: Sale, req: SaleRequest, price: Dec)
    requires SaleRowFor(x, req, price) && SaleRowFor(y, req, price)
    ensures x == y
  {
    SameValueSameDec(x.total, y.total);
    SameValueSameDec(x.net, y.net);
  }

  /** Two decimals with the same exponent and the same value are the same decimal. */
  lemma SameValueSameDec(x: Dec, y: Dec)
    requires x.scale == y.scale && Value(x) == Value(y)
    ensures x == y
  {
    var p := Pow10(x.scale) as real;
    assert x.coef as real == Value(x) * p;
    assert y.coef as real == Value(y) * p;
  }

  /** Recording a sale keeps the database consistent: every line item points
      at an existing sale and product, and the id sequence stays ahead. */
  lemma RecordSalePreservesValid(db: Db, form: Form, fault: Fault)
    requires Valid(db)
    ensures Valid(RecordSale(db, form, fault).db)
  {
    var r := RecordSale(db, form, fault);
    if r.response.Recorded? {
      var req := ParseRequest(form).value;
      TransitionPreservesValid(db, r.db, req, SalePrice(db, req.productId).value, r.response.saleId);
    }
  }

  lemma TransitionPreservesValid(db: Db, db': Db, req: SaleRequest, price: Dec, id: int)
    requires Valid(db) && SaleTransition(db, db', req, price, id)
    ensures Valid(db')
  {
    forall i | 0 <= i < |db'.items|
      ensures db'.items[i].saleId in db'.sales && db'.items[i].productId in db'.products
    {
      if i < |db.items| {
        assert db'.items[i] == db'.items[..|db.items|][i] == db.items[i];
      }
    }
  }

  /** Stock plus quantity sold is the same before and after any request, for
      every product: a sale moves units from the one to the other. */
  lemma StockLedgerBalances(db: Db, form: Form, fault: Fault)
    ensures var db' := RecordSale(db, form, fault).db;
      && db'.products.Keys == db.products.Keys
      && forall k :: k in db.products ==>
           db'.products[k].stock + SoldOf(db'.items, k) == db.products[k].stock + SoldOf(db.items, k)
  {
    var r := RecordSale(db, form, fault);
    if r.response.Recorded? {
      var req := ParseRequest(form).value;
      var price := SalePrice(db, req.productId).value;
      var id := r.response.saleId;
      assert SaleTransition(db, r.db, req, price, id);
      forall k | k in db.products
        ensures r.db.products[k].stock + SoldOf(r.db.items, k) == db.products[k].stock + SoldOf(db.items, k)
      {
        assert SoldOf(r.db.items, k)
          == SoldOf(db.items, k) + (if req.productId == k then req.quantity else 0);
      }
    }
  }
}
