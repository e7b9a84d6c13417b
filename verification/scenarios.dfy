/** Worked sales against small concrete databases. */
module Scenarios {
  import opened Wrappers
  import opened Text
  import opened Numerals
  import opened Decimals
  import opened Store
  import opened SaleForm
  import opened SaleRecorder

  /** One product, id 1, sold at 25.00 with 10 in stock, and no sales yet. */
  function Shop(stock: int): Db {
    Db(map[1 := Product("SKU1", "Luminaria", "Iluminacao", Some(Dec(1500, 2)), Some(Dec(2500, 2)), stock, "")],
       map[], [], 1)
  }

  /** "5,00" is read as 5.00. */
  lemma CommaCommission()
    ensures ParseCommission("5,00") == Some(Dec(500, 2))
  {
    StripExample();
    ReplaceExample();
    DecimalExample();
  }

  lemma StripExample()
    ensures Strip("5,00") == "5,00"
  {
    assert Trimmed("5,00");
    StripSurrounded(StripBlanks, "", "5,00", "");
    assert "" + "5,00" + "" == "5,00";
  }

  lemma ReplaceExample()
    ensures ReplaceComma("5,00") == "5.00"
  {
    var r := ReplaceComma("5,00");
    assert r[0] == SwapComma('5') && r[1] == SwapComma(',');
    assert r[2] == SwapComma('0') && r[3] == SwapComma('0');
  }

  lemma DecimalExample()
    ensures ParseDecimal("5.00") == Some(Dec(500, 2))
  {
    assert SplitSign("5.00") == (false, "5.00");
    assert IndexOf("5.00", '.') == 1;
    assert "5.00"[..1] == "5" && "5.00"[2..] == "00";
    assert DigitsValue("5" + "00") == 500 by {
      assert "5" + "00" == "500";
      assert "500"[..2] == "50" && "50"[..1] == "5" && "5"[..0] == "";
    }
  }

  /** int() does not skip U+001C, although str.strip() removes it: a
      product id posted as "\x1c5" is refused, not read as 5. */
  lemma FileSeparatorBeforeDigits()
    ensures Strip("\U{1C}5") == "5"
    ensures ParseInt("\U{1C}5") == None
  {
    assert IsSpace('\U{1C}') && !IsIntSpace('\U{1C}');
    StripSurrounded(StripBlanks, "\U{1C}", "5", "");
    assert "\U{1C}" + "5" + "" == "\U{1C}5";
    assert TrimmedBy(IntBlanks, "\U{1C}5");
    StripSurrounded(IntBlanks, "", "\U{1C}5", "");
    assert "" + "\U{1C}5" + "" == "\U{1C}5";
    assert SplitSign("\U{1C}5") == (false, "\U{1C}5");
    assert !IsDigit("\U{1C}5"[0]);
  }

  /** int() refuses 4301 digits even when 4300 of them are leading zeros:
      a quantity posted as "000…01" that long is refused, not read as 1. */
  lemma LongNumeralRefused()
    ensures ParseInt(Zeros(MaxStrDigits) + "1") == None
  {
    var digits := Zeros(MaxStrDigits) + "1";
    LeadingZeros(MaxStrDigits, "1");
    TooManyDigits("", "", digits, "");
    assert "" + "" + digits + "" == digits;
  }

  lemma PriceExample()
    ensures Value(Dec(2500, 2)) == 25.0 && Value(Dec(500, 2)) == 5.0
  {
    assert Pow10(2) == 100;
  }

  lemma AmountsExample(sale: Sale, req: SaleRequest)
    requires req.quantity == 3 && req.commission == Dec(500, 2)
    requires SaleRowFor(sale, req, Dec(2500, 2))
    ensures Value(sale.total) == 75.0 && Value(sale.net) == 70.0
  {
    PriceExample();
  }

  /** Any well-formed sale of product 1 on the shop is recorded as sale 1. */
  lemma RecordedOnShop(form: Form, req: SaleRequest, stock: int)
    requires ParseRequest(form) == Success(req) && req.productId == 1
    ensures var r := RecordSale(Shop(stock), form, NoFault);
      && r.response == Recorded(1)
      && SaleTransition(Shop(stock), r.db, req, Dec(2500, 2), 1)
      && r.db.products[1].stock == stock - req.quantity
      && r.db.items == [Item(1, 1, req.quantity, Dec(2500, 2))]
      && SaleRowFor(r.db.sales[1], req, Dec(2500, 2))
  {
    var db := Shop(stock);
    assert SalePrice(db, 1) == Some(Dec(2500, 2));
    assert db.nextSaleId !in db.sales;
    var r := RecordSale(db, form, NoFault);
    assert r.response.Recorded?;
    assert SaleTransition(db, r.db, req, Dec(2500, 2), r.response.saleId);
    TransitionOnShop(r.db, req, stock);
  }

  lemma TransitionOnShop(db': Db, req: SaleRequest, stock: int)
    requires SaleTransition(Shop(stock), db', req, Dec(2500, 2), 1)
    ensures db'.products[1].stock == stock - req.quantity
    ensures db'.items == [Item(1, 1, req.quantity, Dec(2500, 2))]
    ensures SaleRowFor(db'.sales[1], req, Dec(2500, 2))
  {
    assert |db'.items| == 1;
    assert db'.items == [db'.items[0]];
  }

  /** Three units of a 25.00 product with a "5,00" commission: the sale
      totals 75.00, nets 70.00, and the stock of 10 becomes 7. */
  lemma ThreeAtTwentyFive()
    ensures var r := RecordSale(Shop(10), Submitted(SaleRequest("Ana", "Loja", Dec(500, 2), 1, 3), "5,00"), NoFault);
      && r.response == Recorded(1)
      && Value(r.db.sales[1].total) == 75.0
      && Value(r.db.sales[1].net) == 70.0
      && r.db.products[1].stock == 7
      && r.db.items == [Item(1, 1, 3, Dec(2500, 2))]
  {
    var req := SaleRequest("Ana", "Loja", Dec(500, 2), 1, 3);
    var form := Submitted(req, "5,00");
    CommaCommission();
    SubmittedRoundTrip(req, "5,00");
    RecordedOnShop(form, req, 10);
    AmountsExample(RecordSale(Shop(10), form, NoFault).db.sales[1], req);
  }

  /** Nothing stops a sale of more units than are in stock: the stock goes
      negative and the sale is still recorded. */
  lemma SaleBeyondStock()
    ensures var r := RecordSale(Shop(1), Submitted(SaleRequest("Ana", "Loja", Zero, 1, 3), ""), NoFault);
      && r.response == Recorded(1)
      && r.db.products[1].stock == -2
  {
    var req := SaleRequest("Ana", "Loja", Zero, 1, 3);
    assert AllSpace("");
    SubmittedRoundTrip(req, "");
    RecordedOnShop(Submitted(req, ""), req, 1);
  }

  /** A product id with no row redirects back without writing anything. */
  lemma UnknownProduct()
    ensures var r := RecordSale(Shop(10), Submitted(SaleRequest("Ana", "Loja", Zero, 7, 1), ""), NoFault);
      && r.response == Rejected(ProductNotFound(7))
      && r.db == Shop(10)
  {
    var req := SaleRequest("Ana", "Loja", Zero, 7, 1);
    assert AllSpace("");
    SubmittedRoundTrip(req, "");
    assert SalePrice(Shop(10), 7) == None;
  }
}
