/** Reading the submitted sale form: the fields `cliente`, `canal`,
    `comissao`, `produto_id` and `quantidade`, in the order the handler reads
    them, before it touches the database. */
module SaleForm {
  import opened Wrappers
  import opened Text
  import opened Decimals
  import opened Numerals

  /** The posted form fields by name. */
  type Form = map<string, string>

  /** Why a form was refused: a required field absent (a KeyError, answered
      with 400), or a number that does not parse (ValueError or
      InvalidOperation). */
  datatype FormError = MissingField(field: string) | InvalidCommission | InvalidInteger(field: string)

  /** What the handler has in hand once every field has been read. */
  datatype SaleRequest = SaleRequest(
    customer: string,
    channel: string,
    commission: Dec,
    productId: int,
    quantity: int)

  /** The commission field: stripped; blank means zero; otherwise every `,`
      becomes `.` and the result is read as a Decimal. */
  function ParseCommission(raw: string): (r: Option<Dec>)
    ensures AllSpace(raw) ==> r == Some(Zero)
    ensures r.None? ==> !AllSpace(raw)
  {
    var t := Strip(raw);
    if t == [] then Some(Zero) else ParseDecimal(ReplaceComma(t))
  }

  /** A commission is read the same whichever of `,` and `.` separates it:
      "10,50" and "10.50" give the same decimal. */
  lemma CommissionSeparatorBlind(s: string, t: string)
    requires ReplaceComma(s) == ReplaceComma(t)
    ensures ParseCommission(s) == ParseCommission(t)
  {
    StripReplaceCommute(s);
    StripReplaceCommute(t);
    assert Strip(s) == [] <==> ReplaceComma(Strip(s)) == [];
    assert Strip(t) == [] <==> ReplaceComma(Strip(t)) == [];
  }

  /** A printed decimal, with any surrounding whitespace, is read back as itself. */
  lemma CommissionRoundTrip(d: Dec, lead: string, trail: string)
    requires AllSpace(lead) && AllSpace(trail)
    ensures ParseCommission(lead + RenderDecimal(d) + trail) == Some(d)
  {
    var r := RenderDecimal(d);
    var x := lead + r + trail;
    StripSurrounded(StripBlanks, lead, r, trail);
    NoCommaUnchanged(r);
    ParseRenderDecimal(d);
    assert Strip(x) == r && r != [];
    assert ParseCommission(x) == ParseDecimal(ReplaceComma(r));
  }

  lemma ReadsRenderedCommission(d: Dec)
    ensures ParseCommission(RenderDecimal(d)) == Some(d)
  {
    CommissionRoundTrip(d, "", "");
    assert "" + RenderDecimal(d) + "" == RenderDecimal(d);
  }

  /** Turning points into commas and back gives the comma-free original. */
  lemma CommaFormReplaced(r: string)
    requires ',' !in r
    ensures ReplaceComma(CommaForm(r)) == ReplaceComma(r)
  {
    NoCommaUnchanged(r);
    assert forall i :: 0 <= i < |r| ==> ReplaceComma(CommaForm(r))[i] == SwapComma(SwapPoint(r[i])) == r[i];
  }

  function SwapPoint(c: char): char {
    if c == '.' then ',' else c
  }

  /** A printed decimal written with a decimal comma, as "10,50": how a user
      may type a commission. The handler never does this conversion; it
      only serves to state what the handler reads. */
  function CommaForm(s: string): (r: string)
    ensures |r| == |s| && '.' !in r
  {
    seq(|s|, i requires 0 <= i < |s| => SwapPoint(s[i]))
  }

  /** A decimal written with a decimal comma is read as the same decimal. */
  lemma CommissionCommaRoundTrip(d: Dec)
    ensures ParseCommission(CommaForm(RenderDecimal(d))) == Some(d)
  {
    var r := RenderDecimal(d);
    CommaFormReplaced(r);
    CommissionSeparatorBlind(CommaForm(r), r);
    ReadsRenderedCommission(d);
  }

  /** `request.form[name]`: a KeyError when the field was not posted. */
  function Field(form: Form, name: string): (r: Result<string, FormError>)
    ensures r.Success? <==> name in form
    ensures r.Success? ==> r.value == form[name]
    ensures r.Failure? ==> r.error == MissingField(name)
  {
    if name in form then Success(form[name]) else Failure(MissingField(name))
  }

  /** `int(request.form[name])`. */
  function IntField(form: Form, name: string): (r: Result<int, FormError>)
    ensures name !in form ==> r == Failure(MissingField(name))
    ensures name in form ==> (r.Success? <==> ParseInt(form[name]).Some?)
    ensures name in form && r.Failure? ==> r.error == InvalidInteger(name)
    ensures name in form && r.Success? ==> Some(r.value) == ParseInt(form[name])
  {
    var text :- Field(form, name);
    match ParseInt(text)
    case Some(n) => Success(n)
    case None => Failure(InvalidInteger(name))
  }

  /** `request.form.get("comissao", "")`. */
  function CommissionText(form: Form): (r: string)
    ensures "comissao" in form ==> r == form["comissao"]
    ensures "comissao" !in form ==> r == ""
  {
    if "comissao" in form then form["comissao"] else ""
  }

  /** Reads the five fields in the handler's order; the first field that is
      missing or malformed decides the error. */
  function ParseRequest(form: Form): (r: Result<SaleRequest, FormError>)
    ensures r.Success? <==>
      && "cliente" in form && "canal" in form
      && ParseCommission(CommissionText(form)).Some?
      && "produto_id" in form && ParseInt(form["produto_id"]).Some?
      && "quantidade" in form && ParseInt(form["quantidade"]).Some?
    ensures r.Success? ==>
      && r.value.customer == form["cliente"] && r.value.channel == form["canal"]
      && Some(r.value.commission) == ParseCommission(CommissionText(form))
      && Some(r.value.productId) == ParseInt(form["produto_id"])
      && Some(r.value.quantity) == ParseInt(form["quantidade"])
    ensures "comissao" !in form && r.Success? ==> r.value.commission == Zero
    ensures "cliente" !in form ==> r == Failure(MissingField("cliente"))
    ensures "cliente" in form && "canal" !in form ==> r == Failure(MissingField("canal"))
    ensures "cliente" in form && "canal" in form ==>
      && (ParseCommission(CommissionText(form)).None? ==> r == Failure(InvalidCommission))
      && (ParseCommission(CommissionText(form)).Some? ==>
            && ("produto_id" !in form ==> r == Failure(MissingField("produto_id")))
            && ("produto_id" in form && ParseInt(form["produto_id"]).None? ==>
                  r == Failure(InvalidInteger("produto_id")))
            && ("produto_id" in form && ParseInt(form["produto_id"]).Some? ==>
                  && ("quantidade" !in form ==> r == Failure(MissingField("quantidade")))
                  && ("quantidade" in form && ParseInt(form["quantidade"]).None? ==>
                        r == Failure(InvalidInteger("quantidade")))))
  {
    var customer :- Field(form, "cliente");
    var channel :- Field(form, "canal");
    var commission :- match ParseCommission(CommissionText(form))
      case Some(c) => Success(c)
      case None => Failure(InvalidCommission);
    var productId :- IntField(form, "produto_id");
    var quantity :- IntField(form, "quantidade");
    Success(SaleRequest(customer, channel, commission, productId, quantity))
  }

  /** The form a browser posts for a request, with the commission typed as
      `commissionText`. */
  function Submitted(req: SaleRequest, commissionText: string): Form {
    map[
      "cliente" := req.customer,
      "canal" := req.channel,
      "comissao" := commissionText,
      "produto_id" := RenderInt(req.productId),
      "quantidade" := RenderInt(req.quantity)]
  }

  /** Every request can be submitted, and is read back exactly, whatever
      spelling of its commission the form carries. */
  lemma SubmittedRoundTrip(req: SaleRequest, commissionText: string)
    requires ParseCommission(commissionText) == Some(req.commission)
    requires FitsStrDigits(req.productId) && FitsStrDigits(req.quantity)
    ensures ParseRequest(Submitted(req, commissionText)) == Success(req)
  {
    var form := Submitted(req, commissionText);
    assert Field(form, "cliente") == Success(req.customer);
    assert Field(form, "canal") == Success(req.channel);
    assert "comissao" in form && form["comissao"] == commissionText;
    IntFieldReads(form, "produto_id", req.productId);
    IntFieldReads(form, "quantidade", req.quantity);
  }

  lemma IntFieldReads(form: Form, name: string, n: int)
    requires FitsStrDigits(n)
    requires name in form && form[name] == RenderInt(n)
    ensures IntField(form, name) == Success(n)
  {
    ReadsRenderedInt(n);
  }
}
