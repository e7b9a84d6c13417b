# Sale recorder of PontoDeLuz, modelled in Dafny

PontoDeLuz is a small Flask shop application backed by PostgreSQL. Its
core is the POST branch of the `nova_venda` handler (`app.py`, lines
84-143). It does four things:

- It reads a sale form: customer, channel, an optional marketplace commission, a product id and a quantity.
- It looks up the product's sale price.
- It computes the total and the net amount with Python's `Decimal`.
- It writes a sale header, a single line item and a stock decrement on one connection, and commits once.

This project models that branch as pure functions over an immutable
database value. It proves what the handler promises:

- A blank commission means zero.
- The commission reads the same whether it is written with a decimal comma or a decimal point.
- A missing product, or one with a NULL price, writes nothing.
- The total is price × quantity and the net amount is total − commission, both exact.
- Exactly one fresh sale and one line item pointing at it are created, and the item carries the price at the time of sale.
- The stock drops by the quantity, with no floor, and nothing else changes.
- Malformed forms are refused before any write.
- Every failure leaves the database as it was.

Modules, in dependency order:

- `Wrappers` (wrappers.dfy): `Option` and `Result`.
- `Decimals` (decimals.dfy): a Decimal is `Dec(coef, scale)`, denoting coef × 10^(−scale). It provides multiplication by an int and subtraction, with Python's exponent rules.
- `Text` (text.dfy): stripping surrounding whitespace, for two whitespace sets. One is `str.strip()`'s, the full `str.isspace()` set. The other is `int()`'s: ASCII space, tab, newline, vertical tab, form feed and carriage return, plus the non-ASCII `str.isspace()` characters. The module also has `replace(",", ".")` and ASCII digit strings.
- `Numerals` (numerals.dfy): `int(str)` and `Decimal(str)`. Each gets an exact description of the texts it accepts, including CPython's default limit of 4300 digits on `int()`, and a printer it round-trips with: `str(int)` within that limit, and a plain-notation decimal printer.
- `Store` (store.dfy): the `produtos`, `vendas` and `itens_venda` tables, the sale-id sequence, and the four SQL statements the handler issues.
- `SaleForm` (sale_form.dfy): reading the five form fields in the handler's order.
- `SaleRecorder` (sale_recorder.dfy): the price lookup, the unit of work, the commit, and the properties of the whole request.
- `Scenarios` (scenarios.dfy): worked sales against a one-product shop.

The database never raising is not assumed. Each operation takes a `Fault`
saying which database call, if any, raises: the price query, one of the
three writes, or the commit. The handler opens its connection with
`engine.connect()` and commits only at line 141, so a failure anywhere
closes the connection uncommitted. That discards every write.

Products carry a `codigo` column (app.py:43), but the handler resolves
them by id only. No code path looks a product up by `codigo`, so the model
has none.

The price the handler uses is `Decimal(str(preco_row[0]))` (app.py:104).
For a finite NUMERIC value that is the fetched value itself, so the model
uses the stored price directly. `Numerals.ParseRenderDecimal` proves the
same identity for the plain-notation printer.

## Model

| member | source | states |
|---|---|---|
| Text.Strip | app.py:88 | the stripped field has no `str.isspace()` character at either end, and it is empty exactly when the field is all such whitespace |
| Text.StripBy | app.py:88 | for either whitespace set, the result has none of it at either end, is no longer than the input, and is empty exactly when the input is all whitespace |
| Text.StripSurrounded | app.py:88 | stripping a trimmed text wrapped in any whitespace of the same set gives back exactly that text |
| Text.StripSplit | app.py:88 | stripping removes only whitespace: every text is its stripped form between two runs of whitespace |
| Text.ReplaceComma | app.py:89 | the replacement keeps the length, leaves no comma, turns each comma into a point and keeps every other character |
| Text.ReplaceCommaIdempotent | app.py:89 | replacing commas twice is the same as replacing them once |
| Text.NoCommaUnchanged | app.py:89 | a text without commas is left unchanged by the replacement |
| Text.StripReplaceCommute | app.py:88-89 | stripping then replacing (the handler's order) equals replacing then stripping, because whitespace is never a separator |
| Numerals.ParseInt | app.py:91-92 | int() accepts nothing from a field that is empty or consists only of the whitespace int() skips |
| Numerals.ReadsIntShape | app.py:91-92 | int() accepts every text made of int()'s whitespace, an optional sign, one to 4300 ASCII digits and int()'s whitespace, and reads the signed value of the digits |
| Numerals.TooManyDigits | app.py:91-92 | int() refuses the same shape with more than 4300 digits, leading zeros included |
| Numerals.ParsedIntShape | app.py:91-92 | conversely, every text int() accepts has exactly that shape, with at most 4300 digits, and the number read is the signed value of its digits |
| Numerals.SignOf | app.py:91-92 | the sign read off a text is "", "+" or "-", the text is that sign followed by the rest, and the number is negative exactly when the sign is "-" |
| Numerals.ParseRenderInt | app.py:91-92 | int() reads back every integer str() prints without raising (at most 4300 digits), with any of int()'s whitespace around it |
| Numerals.ReadsRenderedInt | app.py:91-92 | int(str(n)) == n for every integer n of at most 4300 digits |
| Numerals.ParseDecimal | app.py:89 | an accepted numeral has fewer fractional digits than characters, and one without a point has none |
| Numerals.ReadsDecimalShape | app.py:89 | Decimal() accepts every optional sign, digits, optional point and digits with at least one digit, and reads the digits' value with as many fractional digits as were written |
| Numerals.ParsedDecimalShape | app.py:89 | conversely, every text Decimal() accepts here has exactly that shape and is read that way |
| Numerals.RenderDecimal | app.py:104 | the plain-notation print of a decimal is non-empty, has no whitespace at its ends and contains no comma |
| Numerals.ParseRenderDecimal | app.py:104 | Decimal() reads the plain-notation print of d back as d, coefficient and exponent included |
| Decimals.Mul | app.py:106 | price × quantity keeps the price's exponent and denotes the exact product |
| Decimals.Sub | app.py:107 | total − commission takes the larger number of fractional digits and denotes the exact difference |
| Decimals.Rescale | app.py:107 | aligning a decimal to more fractional digits keeps its value |
| SaleForm.Field | app.py:85-86 | a posted field is read as posted, and an absent one is a missing-field error naming it |
| SaleForm.IntField | app.py:91-92 | an absent field is a missing-field error; a present one succeeds exactly when int() accepts it, with the number int() reads, and otherwise is an invalid-integer error |
| SaleForm.ParseCommission | app.py:88-89 | a blank or all-whitespace commission is zero, and only a field with some non-whitespace can be refused |
| SaleForm.CommissionSeparatorBlind | app.py:89 | two commission texts that agree once commas become points are read as the same decimal |
| SaleForm.CommissionRoundTrip | app.py:88-89 | a printed decimal with any surrounding whitespace is read as itself |
| SaleForm.ReadsRenderedCommission | app.py:88-89 | a printed decimal is read back as itself |
| SaleForm.CommissionCommaRoundTrip | app.py:89 | a decimal written with a decimal comma is read as the same decimal |
| SaleForm.CommaFormReplaced | app.py:89 | replacing commas in the comma spelling of a comma-free text gives the text back |
| SaleForm.CommissionText | app.py:88 | the commission text is the posted field, or "" when the field was not posted |
| SaleForm.ParseRequest | app.py:85-92 | a form is accepted exactly when customer and channel are present, the commission text parses, and produto_id and quantidade are present and parse; on success every value is the posted text or its parse, with zero when the commission is absent; otherwise the error is that of the first failing field in the order cliente, canal, comissao, produto_id, quantidade |
| SaleForm.IntFieldReads | app.py:91-92 | a field holding a printed integer of at most 4300 digits is read as that integer |
| SaleForm.SubmittedRoundTrip | app.py:85-92 | every request whose product id and quantity have at most 4300 digits, posted with any spelling of its commission that parses to it, is read back exactly |
| Store.SalePrice | app.py:95-100 | the price query yields a price exactly when the product row exists and its sale price is not NULL, and then yields that column |
| Store.InsertSale | app.py:109-121 | the insert succeeds exactly when the sequence's next id is unused; the returned id is that next value, the sequence moves one past it, the one sale is added and no other table changes |
| Store.InsertItem | app.py:123-133 | one line item is appended after all existing ones and nothing else changes |
| Store.DecrementStock | app.py:135-139 | the product's stock drops by the quantity with no floor, a missing id changes nothing, and no other row or table changes |
| SaleRecorder.UnitOfWork | app.py:109-141 | the three writes and the commit succeed exactly when no call fails and the id is fresh; on success the database makes the full sale transition, and on failure the error names the failing call |
| SaleRecorder.Execute | app.py:94-141 | a rejection leaves the database unchanged; a sale is recorded exactly when no call fails, the product has a price and the id is fresh; the product is reported missing exactly when the price query returns nothing |
| SaleRecorder.RecordSale | app.py:84-143 | a malformed form is refused with its error and nothing written; any rejection leaves the database unchanged; a recorded sale is the full transition for the parsed request at the current price |
| SaleRecorder.AllOrNothing | app.py:141 | after any request the database is either unchanged or exactly one committed sale further on |
| SaleRecorder.FormErrorsPrecedeStore | app.py:85-94 | a malformed form gets the same answer whatever the database holds and whatever call would fail, and it writes nothing |
| SaleRecorder.MissingPriceWritesNothing | app.py:100-102 | a missing product or a NULL price is a rejection with every table unchanged |
| SaleRecorder.TransitionDeterminesDb | app.py:109-139 | the transition relation fixes the database after the sale completely: no other write can hide in it |
| SaleRecorder.SameSaleRow | app.py:109-121 | the sale header is fully determined by the request and the price |
| SaleRecorder.SameValueSameDec | app.py:106-107 | two decimals with the same exponent and value are equal, so the totals stored are unique |
| SaleRecorder.RecordSalePreservesValid | app.py:109-139 | every line item keeps pointing at an existing sale and product, and the sequence stays ahead of every sale id |
| SaleRecorder.TransitionPreservesValid | app.py:109-139 | one sale transition keeps referential integrity and the sequence ahead |
| SaleRecorder.StockLedgerBalances | app.py:123-139 | for every product, stock plus units sold is the same before and after any request |
| Scenarios.CommaCommission | app.py:88-89 | "5,00" is read as 5.00 |
| Scenarios.FileSeparatorBeforeDigits | app.py:91 | "\x1c5" strips to "5", but int() refuses it, so such a product id is an invalid integer |
| Scenarios.LongNumeralRefused | app.py:92 | a quantity of 4300 zeros followed by "1" is refused by int(), not read as 1 |
| Scenarios.RecordedOnShop | app.py:84-143 | a well-formed sale of product 1 on a fresh shop is sale 1, with one item at 25.00 and the stock lowered by the quantity |
| Scenarios.ThreeAtTwentyFive | app.py:84-143 | three units at 25.00 with a "5,00" commission total 75.00, net 70.00, and stock 10 becomes 7 |
| Scenarios.SaleBeyondStock | app.py:135-139 | selling 3 units with 1 in stock is recorded and leaves stock −2 |
| Scenarios.UnknownProduct | app.py:100-102 | an unknown product id is rejected and the shop is unchanged |

## Left out

- Flask routing, templates, `redirect`/`url_for`, the GET branch (app.py:145), and the other routes (`home`, `produtos`, `novo_produto`, the reports): outside the sale recorder.
- Loading `DATABASE_URL`, its debug print and the engine setup (app.py:7-18): environment and I/O.
- The product listing query that every request to the page runs first (app.py:79-82): it only reads. A failure there ends the request before the form is read, which the `Fault` points do not include.
- Concurrency and transaction isolation: the model runs one request against one database value.
- The sale date and any other column the database fills by default: it comes from the clock.
- The id of the `itens_venda` row is not modelled. Product columns the handler never reads (`codigo`, `nome`, `categoria`, `preco_custo`, `observacoes`) are modelled as fields that every operation leaves unchanged.
- A NULL `estoque_atual`: stock is a plain integer. In SQL, NULL − n stays NULL.
- Store.InsertSale: a failed request rolls the sale-id sequence back with everything else. A real PostgreSQL sequence is not transactional and keeps the skipped value.
- Decimals.Mul: the 28-digit context precision of Python's Decimal is not modelled. Products and differences are exact, which differs only past 28 significant digits.
- Decimals.Sub: same 28-digit limitation as Mul. Negative zero is also not modelled: Decimal("-0") is the same Dec as Decimal("0").
- Numerals.ParseInt: underscores ("1_000") and non-ASCII Unicode digits, which Python's int() accepts, are refused.
- Numerals.MaxStrDigits: the digit limit is fixed at CPython's default, 4300. The limit can be changed at run time (`sys.set_int_max_str_digits`, `PYTHONINTMAXSTRDIGITS`), and Python before 3.11 without the security backport has no limit at all; neither is modelled.
- Numerals.RenderDecimal: prints plain notation. Python's `str(Decimal)` switches to exponent notation when the adjusted exponent is below −6: `str(Decimal("0.0000001"))` is "1E-7". Numerals.ParseRenderDecimal therefore proves the round trip of app.py:104 only for prices whose adjusted exponent is at least −6. Python's own round trip also holds in exponent notation, but that notation is not modelled.
- Numerals.ParseDecimal: exponents ("1E+2"), NaN, Infinity, underscores and non-ASCII digits, which Python's Decimal() accepts, are refused. A refused commission is an error in both, so the model refuses some forms Python would accept.
- Store: the amount columns are assumed to be unconstrained, finite NUMERIC: `preco_venda`, `total_venda`, `comissao_marketplace`, `valor_liquido`, `preco_unitario`. If they were not, three things would differ, and none of them is modelled:
  - A float `preco_venda` would reach app.py:104 as `repr` of a float, changing the price's exponent.
  - A NUMERIC(p, s) column rounds the stored total, commission and net to s fractional digits without an error.
  - A NUMERIC `'NaN'` price, which `novo_produto` can store from form text (app.py:47, 57), makes the total NaN without an exception, and `Dec` has no NaN.
- SaleRecorder.UnitOfWork: column types and overflow (a total too wide for its NUMERIC column) are not checked. They surface only as a `Fault` at the corresponding write.
- The database's own errors and the HTTP status Flask returns for an exception are represented by `Rejected` with the error value, not by a status code.
