/** The entry's validator: every field check runs so that each offending field is marked,
    and the dust policy is consulted only when all earlier checks passed. */
module Validator {
  import opened FuturesTypes
  import opened PayFrom

  /** The verdict and the fields that validation marked invalid. The source-address check
      contributes to the verdict but marks no field. */
  datatype Validation = Validation(ok: bool, payToMarked: bool, amountMarked: bool)

  /** The four checks that run before the dust policy: a valid source address, a valid
      destination address, an amount the amount widget accepts, and a positive amount. */
  predicate EarlierChecksPass(w: WalletModel, f: Form)
  {
    && w.validateAddress(CurrentText(f.payFrom))
    && w.validateAddress(f.payTo)
    && f.payAmount.accepted
    && f.payAmount.value > 0
  }

  function Validate(env: Env, e: Entry): (v: Validation)
    ensures env.wallet.None? ==> v == Validation(false, false, false)
    ensures env.wallet.Some? && e.recipient.paymentRequest.Initialized? ==>
              v == Validation(true, false, false)
    ensures env.wallet.Some? && e.recipient.paymentRequest.Uninitialized? ==>
              var w := env.wallet.value;
              var f := e.form;
              && (v.ok <==> EarlierChecksPass(w, f) && !env.isDust(f.payTo, f.payAmount.value))
              && (v.payToMarked <==> !w.validateAddress(f.payTo))
              && (v.amountMarked <==> f.payAmount.value <= 0 ||
                                      (EarlierChecksPass(w, f) && env.isDust(f.payTo, f.payAmount.value)))
  {
    match env.wallet
    case None => Validation(false, false, false)
    case Some(w) =>
      if e.recipient.paymentRequest.Initialized? then Validation(true, false, false)
      else
        var f := e.form;
        var v0 := Validation(true, false, false);
        var v1 := if !w.validateAddress(CurrentText(f.payFrom)) then v0.(ok := false) else v0;
        var v2 := if !w.validateAddress(f.payTo) then v1.(ok := false, payToMarked := true) else v1;
        var v3 := if !f.payAmount.accepted then v2.(ok := false) else v2;
        var v4 := if f.payAmount.value <= 0 then v3.(ok := false, amountMarked := true) else v3;
        if v4.ok && env.isDust(f.payTo, f.payAmount.value) then v4.(ok := false, amountMarked := true)
        else v4
  }

  /** A zero or negative amount always fails and marks the amount field, whatever the
      addresses hold. */
  lemma NonPositiveAmountRejected(env: Env, e: Entry)
    requires env.wallet.Some? && e.recipient.paymentRequest.Uninitialized?
    requires e.form.payAmount.value <= 0
    ensures !Validate(env, e).ok && Validate(env, e).amountMarked
  {
  }

  /** With a payment request attached, the form's fields do not matter. */
  lemma RequestIgnoresForm(env: Env, r: Recipient, f1: Form, f2: Form)
    requires env.wallet.Some? && r.paymentRequest.Initialized?
    ensures Validate(env, Entry(r, f1)).ok
    ensures Validate(env, Entry(r, f1)) == Validate(env, Entry(r, f2))
  {
  }

  /** When an earlier check fails, the dust policy is not consulted: any other policy gives
      the same verdict and the same marks. */
  lemma DustGated(env: Env, e: Entry, otherDust: (string, CAmount) -> bool)
    requires env.wallet.Some? && !EarlierChecksPass(env.wallet.value, e.form)
    ensures Validate(env, e) == Validate(env.(isDust := otherDust), e)
  {
  }

  /** A bad source address does not stop the destination check from marking its field. */
  lemma AllChecksRun(env: Env, e: Entry)
    requires env.wallet.Some? && e.recipient.paymentRequest.Uninitialized?
    requires !env.wallet.value.validateAddress(CurrentText(e.form.payFrom))
    ensures !Validate(env, e).ok
    ensures Validate(env, e).payToMarked <==> !env.wallet.value.validateAddress(e.form.payTo)
    ensures Validate(env, e).amountMarked <==> e.form.payAmount.value <= 0
  {
  }

  /** A passing entry has no field marked. */
  lemma PassMarksNothing(env: Env, e: Entry)
    requires Validate(env, e).ok
    ensures !Validate(env, e).payToMarked && !Validate(env, e).amountMarked
  {
  }
}
