/**
 * The "new action" dialog (src/app/dashboard/new-action-modal.tsx): the ordered guards of
 * `validateForm`, the payload `handleSubmit` builds from a valid form, and the dialog's
 * state that `resetForm` and `handleSubmit` overwrite.
 */
module NewAction {
  import opened Wrappers
  import Text
  import Numbers

  /** The action types the dialog offers; an unchosen type is `None`. */
  datatype ActionKind = Buy | Sell | Convert | Deposit | Withdraw | Dividend

  /** The `type` value the payload carries. */
  function KindName(k: ActionKind): string
  {
    match k
    case Buy => "buy"
    case Sell => "sell"
    case Convert => "convert"
    case Deposit => "deposit"
    case Withdraw => "withdraw"
    case Dividend => "dividend"
  }

  /**
   * Every input of the dialog. Texts are as typed (empty when untouched); the date is a
   * day number, absent until one is picked.
   */
  datatype ActionForm = ActionForm(
    portfolio: string,
    date: Option<int>,
    kind: Option<ActionKind>,
    symbol: string,
    quantity: string,
    price: string,
    sourceCurrency: string,
    targetCurrency: string,
    exchangeRate: string,
    currency: string,
    amount: string)

  /** The form after `resetForm`. */
  const EmptyForm := ActionForm("", None, None, "", "", "", "", "", "", "", "")

  /** The messages the dialog shows, by meaning. */
  datatype ActionError =
    | NoPortfolio | NoDate | NoKind
    | NoSymbol | BadQuantity | BadPrice
    | NoSourceCurrency | NoTargetCurrency | SameCurrencies | BadExchangeRate
    | NoCurrency | BadAmount

  /** The guards of a buy or a sell, in order: symbol, quantity, price. */
  function TradeError(parse: Numbers.Parser, f: ActionForm): Option<ActionError>
  {
    if Text.Trim(f.symbol) == "" then Some(NoSymbol)
    else if Numbers.RejectsAmount(parse, f.quantity) then Some(BadQuantity)
    else if Numbers.RejectsAmount(parse, f.price) then Some(BadPrice)
    else None
  }

  /** The guards of a conversion, in order: source, target, distinct currencies, rate. */
  function ConvertError(parse: Numbers.Parser, f: ActionForm): Option<ActionError>
  {
    if f.sourceCurrency == "" then Some(NoSourceCurrency)
    else if f.targetCurrency == "" then Some(NoTargetCurrency)
    else if f.sourceCurrency == f.targetCurrency then Some(SameCurrencies)
    else if Numbers.RejectsAmount(parse, f.exchangeRate) then Some(BadExchangeRate)
    else None
  }

  /** The guards of a deposit or a withdrawal, in order: currency, amount. */
  function TransferError(parse: Numbers.Parser, f: ActionForm): Option<ActionError>
  {
    if f.currency == "" then Some(NoCurrency)
    else if Numbers.RejectsAmount(parse, f.amount) then Some(BadAmount)
    else None
  }

  /** The guards of a dividend, in order: symbol, amount. */
  function DividendError(parse: Numbers.Parser, f: ActionForm): Option<ActionError>
  {
    if Text.Trim(f.symbol) == "" then Some(NoSymbol)
    else if Numbers.RejectsAmount(parse, f.amount) then Some(BadAmount)
    else None
  }

  /**
   * `validateForm`: the first failing guard names the error (`None` accepts the form).
   * The portfolio, the date and the type are checked first, in that order, then the
   * guards of the chosen type only.
   */
  function ValidateForm(parse: Numbers.Parser, f: ActionForm): (e: Option<ActionError>)
    ensures f.portfolio == "" ==> e == Some(NoPortfolio)
    ensures f.portfolio != "" && f.date.None? ==> e == Some(NoDate)
    ensures f.portfolio != "" && f.date.Some? && f.kind.None? ==> e == Some(NoKind)
    ensures e.Some? && e.value in {NoSymbol, BadQuantity, BadPrice} ==>
      f.kind.Some? && f.kind.value in {Buy, Sell, Dividend}
    ensures e.Some? && e.value in {NoSourceCurrency, NoTargetCurrency, SameCurrencies, BadExchangeRate} ==>
      f.kind == Some(Convert)
    ensures e == None ==> f.portfolio != "" && f.date.Some? && f.kind.Some?
  {
    if f.portfolio == "" then Some(NoPortfolio)
    else if f.date.None? then Some(NoDate)
    else if f.kind.None? then Some(NoKind)
    else match f.kind.value
      case Buy | Sell => TradeError(parse, f)
      case Convert => ConvertError(parse, f)
      case Deposit | Withdraw => TransferError(parse, f)
      case Dividend => DividendError(parse, f)
  }

  /** The guards that precede the type-specific ones all pass. */
  predicate BaseFilled(f: ActionForm)
  {
    f.portfolio != "" && f.date.Some? && f.kind.Some?
  }

  /** Without a portfolio the form fails with the portfolio error, whatever else it holds. */
  lemma PortfolioCheckedFirst(parse: Numbers.Parser, f: ActionForm)
    requires f.portfolio == ""
    ensures forall g: ActionForm :: g.portfolio == "" ==> ValidateForm(parse, g) == Some(NoPortfolio)
    ensures ValidateForm(parse, f.(date := None, kind := None)) == ValidateForm(parse, f)
  {
  }

  /**
   * A buy or a sell is accepted exactly when the trimmed symbol is not empty and both the
   * quantity and the price pass the amount guard; a number that parses must then be positive.
   */
  lemma TradeAcceptance(parse: Numbers.Parser, f: ActionForm)
    requires BaseFilled(f) && f.kind.value in {Buy, Sell}
    ensures ValidateForm(parse, f) == None <==>
      !Text.IsBlank(f.symbol) && !Numbers.RejectsAmount(parse, f.quantity) && !Numbers.RejectsAmount(parse, f.price)
    ensures ValidateForm(parse, f) == None && parse(f.quantity).Some? ==> parse(f.quantity).value > 0.0
    ensures ValidateForm(parse, f) == None && parse(f.price).Some? ==> parse(f.price).value > 0.0
    ensures Text.IsBlank(f.symbol) ==> ValidateForm(parse, f) == Some(NoSymbol)
  {
    Text.TrimEmptyIffBlank(f.symbol);
  }

  /**
   * A conversion between one currency and itself is refused, even when both are chosen;
   * a conversion is accepted exactly when both currencies are chosen, differ, and the rate
   * passes the amount guard.
   */
  lemma ConvertAcceptance(parse: Numbers.Parser, f: ActionForm)
    requires BaseFilled(f) && f.kind.value == Convert
    ensures f.sourceCurrency != "" && f.sourceCurrency == f.targetCurrency ==>
      ValidateForm(parse, f) == Some(SameCurrencies)
    ensures ValidateForm(parse, f) == None <==>
      f.sourceCurrency != "" && f.targetCurrency != "" && f.sourceCurrency != f.targetCurrency &&
      !Numbers.RejectsAmount(parse, f.exchangeRate)
  {
  }

  /**
   * A deposit or a withdrawal needs a currency and an amount that passes the guard;
   * a dividend needs a symbol that is not blank and such an amount.
   */
  lemma TransferAndDividendAcceptance(parse: Numbers.Parser, f: ActionForm)
    requires BaseFilled(f) && f.kind.value in {Deposit, Withdraw, Dividend}
    ensures f.kind.value != Dividend ==>
      (ValidateForm(parse, f) == None <==> f.currency != "" && !Numbers.RejectsAmount(parse, f.amount))
    ensures f.kind.value == Dividend ==>
      (ValidateForm(parse, f) == None <==> !Text.IsBlank(f.symbol) && !Numbers.RejectsAmount(parse, f.amount))
  {
    Text.TrimEmptyIffBlank(f.symbol);
  }

  /**
   * Each type-specific guard shows its own message, and within a type the guards run in
   * the order the dialog lists them: the first one that fails names the error.
   */
  lemma GuardErrors(parse: Numbers.Parser, f: ActionForm)
    requires BaseFilled(f)
    // buy and sell: symbol, quantity, price
    ensures f.kind.value in {Buy, Sell, Dividend} && Text.IsBlank(f.symbol) ==>
      ValidateForm(parse, f) == Some(NoSymbol)
    ensures (f.kind.value in {Buy, Sell} && !Text.IsBlank(f.symbol) && Numbers.RejectsAmount(parse, f.quantity)) ==>
      ValidateForm(parse, f) == Some(BadQuantity)
    ensures (f.kind.value in {Buy, Sell} && !Text.IsBlank(f.symbol) &&
             !Numbers.RejectsAmount(parse, f.quantity) && Numbers.RejectsAmount(parse, f.price)) ==>
      ValidateForm(parse, f) == Some(BadPrice)
    // convert: source, target, distinct, rate
    ensures f.kind.value == Convert && f.sourceCurrency == "" ==> ValidateForm(parse, f) == Some(NoSourceCurrency)
    ensures f.kind.value == Convert && f.sourceCurrency != "" && f.targetCurrency == "" ==>
      ValidateForm(parse, f) == Some(NoTargetCurrency)
    ensures (f.kind.value == Convert && f.sourceCurrency != "" && f.targetCurrency != "" &&
             f.sourceCurrency != f.targetCurrency && Numbers.RejectsAmount(parse, f.exchangeRate)) ==>
      ValidateForm(parse, f) == Some(BadExchangeRate)
    // deposit and withdraw: currency, amount
    ensures f.kind.value in {Deposit, Withdraw} && f.currency == "" ==> ValidateForm(parse, f) == Some(NoCurrency)
    ensures f.kind.value in {Deposit, Withdraw} && f.currency != "" && Numbers.RejectsAmount(parse, f.amount) ==>
      ValidateForm(parse, f) == Some(BadAmount)
    // dividend: symbol, amount
    ensures f.kind.value == Dividend && !Text.IsBlank(f.symbol) && Numbers.RejectsAmount(parse, f.amount) ==>
      ValidateForm(parse, f) == Some(BadAmount)
  {
    Text.TrimEmptyIffBlank(f.symbol);
  }

  /**
   * The amount guard only rejects text that is empty or parses to a number that is not
   * positive: text that is not a number at all (`NaN`) gets through, and its `NaN` reaches
   * the payload. The inputs are number fields, whose value the browser leaves empty when
   * what was typed is not a number.
   */
  lemma UnparsableQuantityAccepted(parse: Numbers.Parser, f: ActionForm)
    requires BaseFilled(f) && f.kind.value == Buy
    requires !Text.IsBlank(f.symbol) && f.price != "" && parse(f.price).Some? && parse(f.price).value > 0.0
    requires f.quantity != "" && parse(f.quantity).None?
    ensures ValidateForm(parse, f) == None
    ensures BuildPayload(parse, f, Buy)["quantity"] == Number(None)
  {
    TradeAcceptance(parse, f);
  }

  /** The inputs a type reads: two forms that agree on them are validated alike. */
  predicate AgreeForKind(f: ActionForm, g: ActionForm)
  {
    f.portfolio == g.portfolio && f.date == g.date && f.kind == g.kind &&
    (f.kind.Some? ==>
      match f.kind.value
      case Buy | Sell => f.symbol == g.symbol && f.quantity == g.quantity && f.price == g.price
      case Convert =>
        f.sourceCurrency == g.sourceCurrency && f.targetCurrency == g.targetCurrency &&
        f.exchangeRate == g.exchangeRate
      case Deposit | Withdraw => f.currency == g.currency && f.amount == g.amount
      case Dividend => f.symbol == g.symbol && f.amount == g.amount)
  }

  /** A value of the payload object. */
  datatype Value = Text(text: string) | Number(number: Option<real>) | Day(day: Option<int>)

  /** The payload keys present for every type. */
  const BaseKeys: set<string> := {"portfolio_id", "date", "type"}

  /** The payload keys a type adds to the base keys. */
  function KindKeys(k: ActionKind): set<string>
  {
    match k
    case Buy | Sell => {"symbol", "quantity", "price"}
    case Convert => {"source_currency", "target_currency", "exchange_rate"}
    case Deposit | Withdraw => {"currency", "amount"}
    case Dividend => {"symbol", "amount"}
  }

  /**
   * `actionData`: the base fields, then, by conditional spreads, the fields of the chosen
   * type; numbers go through `parseFloat`; the symbol is stored as typed, not trimmed.
   */
  function BuildPayload(parse: Numbers.Parser, f: ActionForm, k: ActionKind): (p: map<string, Value>)
    ensures p.Keys == BaseKeys + KindKeys(k)
  {
    var base := map["portfolio_id" := Text(f.portfolio), "date" := Day(f.date), "type" := Text(KindName(k))];
    match k
    case Buy | Sell =>
      base["symbol" := Text(f.symbol)]["quantity" := Number(parse(f.quantity))]["price" := Number(parse(f.price))]
    case Convert =>
      base["source_currency" := Text(f.sourceCurrency)]["target_currency" := Text(f.targetCurrency)]
          ["exchange_rate" := Number(parse(f.exchangeRate))]
    case Deposit | Withdraw =>
      base["currency" := Text(f.currency)]["amount" := Number(parse(f.amount))]
    case Dividend =>
      base["symbol" := Text(f.symbol)]["amount" := Number(parse(f.amount))]
  }

  /**
   * Inputs that do not belong to the chosen type change neither the verdict nor the payload:
   * the price of a deposit, for one, is ignored.
   */
  lemma UnrelatedFieldsIgnored(parse: Numbers.Parser, f: ActionForm, g: ActionForm)
    requires AgreeForKind(f, g)
    ensures ValidateForm(parse, f) == ValidateForm(parse, g)
    ensures f.kind.Some? ==> BuildPayload(parse, f, f.kind.value) == BuildPayload(parse, g, g.kind.value)
  {
  }

  /** What each payload key holds: the inputs of the chosen type, numbers through `parseFloat`. */
  lemma PayloadValues(parse: Numbers.Parser, f: ActionForm, k: ActionKind)
    ensures var p := BuildPayload(parse, f, k);
      p["portfolio_id"] == Text(f.portfolio) && p["date"] == Day(f.date) && p["type"] == Text(KindName(k)) &&
      ("symbol" in p ==> p["symbol"] == Text(f.symbol)) &&
      ("quantity" in p ==> p["quantity"] == Number(parse(f.quantity))) &&
      ("price" in p ==> p["price"] == Number(parse(f.price))) &&
      ("source_currency" in p ==> p["source_currency"] == Text(f.sourceCurrency)) &&
      ("target_currency" in p ==> p["target_currency"] == Text(f.targetCurrency)) &&
      ("exchange_rate" in p ==> p["exchange_rate"] == Number(parse(f.exchangeRate))) &&
      ("currency" in p ==> p["currency"] == Text(f.currency)) &&
      ("amount" in p ==> p["amount"] == Number(parse(f.amount)))
  {
  }

  /** The payload of an accepted form carries a date, and no number in it is zero or negative. */
  lemma AcceptedPayloadNumbersPositive(parse: Numbers.Parser, f: ActionForm)
    requires ValidateForm(parse, f) == None
    ensures var p := BuildPayload(parse, f, f.kind.value);
      p["date"].day.Some? &&
      forall key :: key in p && p[key].Number? && p[key].number.Some? ==> p[key].number.value > 0.0
  {
    var p := BuildPayload(parse, f, f.kind.value);
    forall key | key in p && p[key].Number? && p[key].number.Some?
      ensures p[key].number.value > 0.0
    {
      assert key in KindKeys(f.kind.value);
    }
  }

  /** The empty form, as `resetForm` leaves it, is refused for want of a portfolio. */
  lemma EmptyFormRefused(parse: Numbers.Parser)
    ensures ValidateForm(parse, EmptyForm) == Some(NoPortfolio)
  {
  }

  /** The dialog's state: every input, the error shown and the saving flag. */
  class NewActionModal {
    var selectedPortfolio: string
    var actionDate: Option<int>
    var actionType: Option<ActionKind>
    var symbol: string
    var quantity: string
    var price: string
    var sourceCurrency: string
    var targetCurrency: string
    var exchangeRate: string
    var currency: string
    var amount: string
    var error: Option<ActionError>
    var saving: bool

    /** The inputs as one form value. */
    function Form(): ActionForm
      reads this
    {
      ActionForm(selectedPortfolio, actionDate, actionType, symbol, quantity, price,
                 sourceCurrency, targetCurrency, exchangeRate, currency, amount)
    }

    /** The initial state: nothing chosen, nothing typed, no error, not saving. */
    constructor ()
      ensures Form() == EmptyForm && error == None && !saving
    {
      selectedPortfolio, actionDate, actionType := "", None, None;
      symbol, quantity, price := "", "", "";
      sourceCurrency, targetCurrency, exchangeRate := "", "", "";
      currency, amount := "", "";
      error, saving := None, false;
    }

    /** `resetForm`: every input and the error back to empty; `saving` is left alone. */
    method ResetForm()
      modifies this
      ensures Form() == EmptyForm && error == None && saving == old(saving)
    {
      selectedPortfolio := "";
      actionDate := None;
      actionType := None;
      symbol := "";
      quantity := "";
      price := "";
      sourceCurrency := "";
      targetCurrency := "";
      exchangeRate := "";
      currency := "";
      amount := "";
      error := None;
    }

    /**
     * `handleSubmit`. The error is cleared and the form validated; a failing guard leaves
     * its message and the inputs as they were. A valid form raises `saving`, builds the
     * payload (returned here: the source only logs it), lowers `saving` and closes the
     * dialog, which resets the form.
     */
    method HandleSubmit(parse: Numbers.Parser) returns (payload: Option<map<string, Value>>)
      modifies this
      ensures var e := ValidateForm(parse, old(Form()));
        if e.Some? then
          payload == None && error == e && Form() == old(Form()) && saving == old(saving)
        else
          payload == Some(BuildPayload(parse, old(Form()), old(actionType).value)) &&
          Form() == EmptyForm && error == None && !saving
    {
      error := None;
      var e := ValidateForm(parse, Form());
      if e.Some? {
        error := e;
        return None;
      }
      saving := true;
      var data := BuildPayload(parse, Form(), actionType.value);
      saving := false;
      ResetForm();
      payload := Some(data);
    }
  }
}
