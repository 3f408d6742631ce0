/** The future-payment entry: the three-way mode switch on the stored recipient, assembling
    the recipient from the form, clearing the form, and the emptiness test. */
module FuturesEntry {
  import opened FuturesTypes
  import opened MaturityClock
  import opened PayFrom
  import opened Validator

  /** The mode a recipient selects: a payment request chooses a request page, and a
      non-empty merchant name makes it the authenticated one. */
  function ModeOf(r: Recipient): (m: Mode)
    ensures m == Normal <==> r.paymentRequest.Uninitialized?
    ensures m == UnauthenticatedRequest <==> r.paymentRequest.Initialized? && r.authenticatedMerchant == ""
    ensures m == AuthenticatedRequest <==> r.paymentRequest.Initialized? && r.authenticatedMerchant != ""
  {
    if r.paymentRequest.Uninitialized? then Normal
    else if r.authenticatedMerchant == "" then UnauthenticatedRequest
    else AuthenticatedRequest
  }

  /** The label the address book holds for `address`, or empty when there is none or no
      wallet model is attached. */
  function BookLabel(env: Env, address: string): string
  {
    match env.wallet
    case None => ""
    case Some(w) => w.labelForAddress(address)
  }

  /** Writes `text` into the destination field. Only an actual change of text runs the
      label lookup, which fills in a non-empty address-book label. */
  function SetPayTo(env: Env, form: Form, text: string): (f: Form)
    ensures f.payTo == text
    ensures text != form.payTo && BookLabel(env, text) != "" ==> f.addAsLabel == BookLabel(env, text)
    ensures text == form.payTo || BookLabel(env, text) == "" ==> f.addAsLabel == form.addAsLabel
    ensures f == form.(payTo := text, addAsLabel := f.addAsLabel)
  {
    if text == form.payTo then form
    else
      var book := BookLabel(env, text);
      if book != "" then form.(payTo := text, addAsLabel := book) else form.(payTo := text)
  }

  /** Writing the same text again fires no change, so it runs no second lookup and keeps a
      label typed in between. */
  lemma SetPayToIdempotent(env: Env, form: Form, text: string, typed: string)
    ensures SetPayTo(env, SetPayTo(env, form, text), text) == SetPayTo(env, form, text)
    ensures var f := SetPayTo(env, form, text).(addAsLabel := typed);
            SetPayTo(env, f, text) == f
  {
  }

  /** Sets the destination address from outside (for example from a URI). */
  function SetAddress(env: Env, e: Entry, address: string): (r: Entry)
    ensures r.form.payTo == address && r.recipient == e.recipient
    ensures r.form == e.form.(payTo := address, addAsLabel := r.form.addAsLabel)
    ensures address != e.form.payTo && BookLabel(env, address) != "" ==>
              r.form.addAsLabel == BookLabel(env, address)
    ensures address == e.form.payTo || BookLabel(env, address) == "" ==>
              r.form.addAsLabel == e.form.addAsLabel
    ensures address != "" ==> !IsClear(r)
  {
    e.(form := SetPayTo(env, e.form, address))
  }

  /** Stores `v` and shows it on the page its mode selects. A request fills only that
      page's read-only widgets; a normal recipient fills the message, destination, label and
      amount, and leaves the source, maturity, lock time, fee flag and page as they are. */
  function SetValue(env: Env, e: Entry, v: Recipient): (r: Entry)
    ensures r.recipient == v
    ensures ModeOf(v) != Normal ==> r.form.page == ModeOf(v)
    ensures ModeOf(v) == UnauthenticatedRequest ==>
              r.form == e.form.(page := UnauthenticatedRequest, payToIs := v.address,
                                memoIs := v.message, payAmountIs := r.form.payAmountIs)
              && r.form.payAmountIs == AmountField(v.amount, env.acceptsAmount(v.amount))
    ensures ModeOf(v) == AuthenticatedRequest ==>
              r.form == e.form.(page := AuthenticatedRequest, payToS := v.authenticatedMerchant,
                                memoS := v.message, payAmountS := r.form.payAmountS)
              && r.form.payAmountS == AmountField(v.amount, env.acceptsAmount(v.amount))
    ensures ModeOf(v) == Normal ==>
              && r.form.page == e.form.page
              && r.form.payTo == v.address
              && r.form.messageText == v.message
              && (r.form.messageVisible <==> v.message != "")
              && r.form.payAmount == AmountField(v.amount, env.acceptsAmount(v.amount))
              && (v.labelText != "" ==> r.form.addAsLabel == v.labelText)
              && (v.labelText == "" && v.address != e.form.payTo ==>
                    r.form.addAsLabel == BookLabel(env, v.address))
              && (v.labelText == "" && v.address == e.form.payTo ==> r.form.addAsLabel == "")
              && r.form.payFrom == e.form.payFrom
              && r.form.maturity == e.form.maturity
              && r.form.lockTarget == e.form.lockTarget
              && r.form.lockTimeField == e.form.lockTimeField
              && r.form.subtractFeeChecked == e.form.subtractFeeChecked
              && r.form == e.form.(messageText := v.message, messageVisible := v.message != "",
                                   payTo := v.address, addAsLabel := r.form.addAsLabel,
                                   payAmount := r.form.payAmount)
  {
    var amount := AmountField(v.amount, env.acceptsAmount(v.amount));
    if v.paymentRequest.Initialized? then
      if v.authenticatedMerchant == "" then
        Entry(v, e.form.(payToIs := v.address, memoIs := v.message, payAmountIs := amount,
                         page := UnauthenticatedRequest))
      else
        Entry(v, e.form.(payToS := v.authenticatedMerchant, memoS := v.message, payAmountS := amount,
                         page := AuthenticatedRequest))
    else
      var f1 := e.form.(messageText := v.message, messageVisible := v.message != "", addAsLabel := "");
      var f2 := SetPayTo(env, f1, v.address);
      var f3 := if v.labelText != "" then f2.(addAsLabel := v.labelText) else f2;
      Entry(v, f3.(payAmount := amount))
  }

  /** The recipient the entry hands out: the stored one unchanged for a payment request,
      otherwise the stored one with its payment fields replaced by the form's values. */
  function GetValue(e: Entry): (r: Recipient)
    ensures e.recipient.paymentRequest.Initialized? ==> r == e.recipient
    ensures ModeOf(r) == ModeOf(e.recipient)
    ensures r.paymentRequest == e.recipient.paymentRequest
    ensures r.authenticatedMerchant == e.recipient.authenticatedMerchant
    ensures e.recipient.paymentRequest.Uninitialized? ==>
              && r.payFrom == CurrentText(e.form.payFrom)
              && r.address == e.form.payTo
              && r.labelText == e.form.addAsLabel
              && r.amount == e.form.payAmount.value
              && r.maturity == e.form.maturity
              && r.locktime == ReadLockTimeField(e.form.lockTimeField)
              && MinInt32 <= r.locktime <= MaxInt32
              && r.message == e.form.messageText
              && r.subtractFeeFromAmount == e.form.subtractFeeChecked
  {
    if e.recipient.paymentRequest.Initialized? then e.recipient
    else
      var f := e.form;
      e.recipient.(payFrom := CurrentText(f.payFrom), address := f.payTo, labelText := f.addAsLabel,
                   amount := f.payAmount.value, maturity := f.maturity,
                   locktime := ReadLockTimeField(f.lockTimeField), message := f.messageText,
                   subtractFeeFromAmount := f.subtractFeeChecked)
  }

  /** The entry is clear when the destination of every page is empty; a clear entry without
      a payment request hands out an empty destination. */
  predicate IsClear(e: Entry)
    ensures IsClear(e) <==> e.form.payTo == "" && e.form.payToIs == "" && e.form.payToS == ""
    ensures IsClear(e) && e.recipient.paymentRequest.Uninitialized? ==> GetValue(e).address == ""
  {
    e.form.payTo == "" && e.form.payToIs == "" && e.form.payToS == ""
  }

  /** A display-unit change rebuilds the source table keeping the current index (the amount
      widgets' unit itself is presentation). */
  function UpdateDisplayUnit(env: Env, form: Form): (f: Form)
    ensures f == form.(payFrom := f.payFrom)
    ensures f.payFrom == SetupPayFrom(env, form.payFrom, form.payFrom.current)
    ensures !CanRebuild(env) ==> f == form
    ensures f.payFrom.enabled ==> form.payFrom.enabled
    ensures CanRebuild(env) && |env.wallet.value.addressBalances| > 0 ==>
              |f.payFrom.rows| > 0 && f.payFrom.rows[0] == Placeholder &&
              f.payFrom.current == (if 0 <= form.payFrom.current < |f.payFrom.rows|
                                    then form.payFrom.current else -1)
  {
    form.(payFrom := SetupPayFrom(env, form.payFrom, form.payFrom.current))
  }

  /** Empties the widgets of all three pages, resets maturity to -1 and the date to `now`,
      then refreshes the display unit. The stored recipient and the page are kept. */
  function Clear(env: Env, now: int, e: Entry): (r: Entry)
    ensures IsClear(r)
    ensures r.recipient == e.recipient && r.form.page == e.form.page
    ensures r.form.maturity == -1
    ensures r.form.addAsLabel == "" && r.form.messageText == "" && !r.form.messageVisible
    ensures r.form.payAmount == EmptyAmount && !r.form.subtractFeeChecked
    ensures r.form.memoIs == "" && r.form.payAmountIs == EmptyAmount
    ensures r.form.memoS == "" && r.form.payAmountS == EmptyAmount
    ensures r.form.lockTarget == now
    ensures e.form.lockTarget != now ==> ReadLockTimeField(r.form.lockTimeField) == -1
    ensures e.form.lockTarget == now ==> r.form.lockTimeField == e.form.lockTimeField
    ensures r.form.payFrom == SetupPayFrom(env, e.form.payFrom, e.form.payFrom.current)
  {
    var f0 := SetPayTo(env, e.form, "");
    var f1 := f0.(addAsLabel := "", payAmount := EmptyAmount, subtractFeeChecked := false,
                  messageText := "", messageVisible := false, maturity := -1);
    var f2 := SetLockTarget(f1, now, now);
    var f3 := f2.(payToIs := "", memoIs := "", payAmountIs := EmptyAmount,
                  payToS := "", memoS := "", payAmountS := EmptyAmount);
    Entry(e.recipient, UpdateDisplayUnit(env, f3))
  }

  /** For a payment request, reading back what was set returns it unchanged. */
  lemma RequestRoundTrip(env: Env, e: Entry, v: Recipient)
    requires v.paymentRequest.Initialized?
    ensures GetValue(SetValue(env, e, v)) == v
  {
  }

  /** For a normal recipient, the destination, message and amount survive a set-then-get,
      and so does a non-empty label; the source, maturity, lock time and fee flag come from
      the form instead. */
  lemma NormalRoundTrip(env: Env, e: Entry, v: Recipient)
    requires v.paymentRequest.Uninitialized?
    ensures var r := GetValue(SetValue(env, e, v));
            && r.address == v.address && r.message == v.message && r.amount == v.amount
            && (v.labelText != "" ==> r.labelText == v.labelText)
            && r.paymentRequest == v.paymentRequest
            && r.authenticatedMerchant == v.authenticatedMerchant
            && r.payFrom == CurrentText(e.form.payFrom)
            && r.maturity == e.form.maturity
            && r.locktime == ReadLockTimeField(e.form.lockTimeField)
            && r.subtractFeeFromAmount == e.form.subtractFeeChecked
  {
  }

  /** After a normal recipient is set, validation passes exactly when the source shown is a
      valid address, the recipient's address is valid, the amount widget accepts its amount,
      the amount is positive and the pair is not dust. */
  lemma NormalSetValueValidates(env: Env, e: Entry, v: Recipient)
    requires env.wallet.Some? && v.paymentRequest.Uninitialized?
    ensures var w := env.wallet.value;
            Validate(env, SetValue(env, e, v)).ok <==>
              && w.validateAddress(CurrentText(e.form.payFrom))
              && w.validateAddress(v.address)
              && env.acceptsAmount(v.amount)
              && v.amount > 0
              && !env.isDust(v.address, v.amount)
  {
  }

  /** A normal recipient whose maturity differs from the form's does not survive a
      set-then-get, even with a non-empty label. */
  lemma NormalRoundTripLosesMaturity(env: Env, e: Entry, v: Recipient)
    requires v.paymentRequest.Uninitialized? && v.maturity != e.form.maturity
    ensures GetValue(SetValue(env, e, v)) != v
  {
    NormalRoundTrip(env, e, v);
  }

  /** Writing the handed-out recipient back into the entry changes nothing later reads see. */
  lemma GetValueStable(e: Entry)
    ensures GetValue(e.(recipient := GetValue(e))) == GetValue(e)
  {
  }

  /** An authenticated request always leaves the entry non-clear, since its merchant name is
      shown as the destination. */
  lemma AuthenticatedNotClear(env: Env, e: Entry, v: Recipient)
    requires ModeOf(v) == AuthenticatedRequest
    ensures !IsClear(SetValue(env, e, v))
  {
  }

  /** Clearing twice at the same clock reading is the same as clearing once. */
  lemma ClearIdempotent(env: Env, now: int, e: Entry)
    ensures Clear(env, now, Clear(env, now, e)) == Clear(env, now, e)
  {
  }

  /** A cleared normal entry never validates: its amount is 0. */
  lemma ClearedNormalEntryInvalid(env: Env, now: int, e: Entry)
    requires e.recipient.paymentRequest.Uninitialized?
    ensures !Validate(env, Clear(env, now, e)).ok
  {
  }

  /** Clearing keeps the stored recipient, so an entry holding a payment request still
      validates after it is cleared. */
  lemma ClearKeepsRequest(env: Env, now: int, e: Entry)
    requires env.wallet.Some? && e.recipient.paymentRequest.Initialized?
    ensures Validate(env, Clear(env, now, e)).ok
    ensures GetValue(Clear(env, now, e)) == e.recipient
  {
  }

  /** Only the destination fields decide emptiness: an entry with a label, amount, message
      or maturity typed in but no destination still counts as clear. */
  lemma ClearIgnoresOtherFields(e: Entry, typed: string, amount: AmountField, message: string, maturity: int)
    ensures IsClear(e.(form := e.form.(addAsLabel := typed, payAmount := amount,
                                       messageText := message, maturity := maturity)))
            == IsClear(e)
  {
  }
}
