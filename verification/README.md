# Future-payment form entry: a Dafny model

This project models the decision logic of `SendFuturesEntry`. That is the one-recipient entry of the
Raptoreum wallet's "send a future (time-locked) payment" dialog. The widgets become an immutable
`Form` record, and the stored `SendCoinsRecipient` becomes `Recipient`. Every operation is a pure
function over `Entry` (recipient plus form). The wallet services are function-typed fields of
`WalletModel` and `Env`:

- address validation;
- the address-book label lookup;
- the per-address balance map;
- whether an options model is attached;
- the dust policy;
- the future-transaction fee estimate;
- the amount widget's acceptance rule.

A missing wallet model is `Env.wallet == None`.

Modules:

- `FuturesTypes` (types.dfy): the data model. `CAmount` is the signed 64-bit amount type. `U64` is the
  `quint64` cast.
- `MaturityClock` (maturityclock.dfy): the maturity clock. It covers `getLockTime`, the date widget's
  change signal, and the read-back of the hidden lock-time field by `getValue`.
- `PayFrom` (payfrom.dfy): the source-address selector, `setupPayFrom` and `balanceChange`.
- `Validator` (validator.dfy): `validate`.
- `FuturesEntry` (entry.dfy): the three-way mode switch (`ModeOf`). It also holds `setValue`/`getValue`,
  `setAddress` and the destination-field label lookup, `updateDisplayUnit`, and `clear`/`isClear`.

The code shows some behaviours that a user of the dialog might not expect. The model
follows the code in each case:

- `clear` keeps the stored recipient and the current page. An entry that holds a payment request
  therefore still validates, and still hands out that request, after it is cleared
  (`ClearKeepsRequest`). A normal-mode `setValue` does not switch back to the normal page either.
- A failing source-address check fails validation but marks no field. Only the destination and
  amount fields are marked.
- `validate` does not check the source balance against amount plus fee. The fee is used only to
  filter the source table.
- The source selection is kept by row index, not by address (`SelectionFollowsIndex`). A
  balance-changed notification selects the placeholder. A rebuild whose balance map is empty only
  disables the selector, which keeps its old table. No rebuild enables it again.
- `setValue` followed by `getValue` is not the identity for a normal recipient. The source,
  maturity, lock time and fee flag come from the form (`NormalRoundTripLosesMaturity`).
- The lock time passes through the hidden field's text. It is read back as a 32-bit integer, so
  an empty field, or a delay of 2^31 seconds or more, reads as 0 (`LockTimeReadBack`).
- Each source row stores the balance as item data. Whether the table's sorting uses that data is
  view configuration and is not modelled.

## Model

| member | source | states |
|---|---|---|
| MaturityClock.LockTime | src/qt/sendfuturesentry.cpp:314-325 | the lock time is either -1 or positive; it is positive exactly when the target lies after now, and then it equals the number of seconds from now to the target |
| MaturityClock.ReadLockTimeField | src/qt/sendfuturesentry.cpp:211 | the read-back lock time always fits in 32 bits; a number in range is returned as is; an empty or out-of-range text gives 0 |
| MaturityClock.SetLockTarget | src/qt/sendfuturesentry.cpp:78 | the date widget takes the target; only a changed date recomputes the lock-time field, from the clock reading; no other widget changes |
| MaturityClock.LockTimeReadBack | src/qt/sendfuturesentry.cpp:318-322 | after the date changes, the recipient's lock time is -1 for a past target, the exact delay up to 2^31-1 seconds, and 0 beyond that |
| MaturityClock.LockTimeExamples | src/qt/sendfuturesentry.cpp:318 | ten seconds in the past gives -1; one hour ahead gives 3600 |
| PayFrom.Eligible | src/qt/sendfuturesentry.cpp:353-354 | an entry is eligible exactly when it is in the balance map and its balance is at least the fee; filtering never lengthens the list |
| PayFrom.SetupPayFrom | src/qt/sendfuturesentry.cpp:328-389 | with no wallet or options model, nothing changes; an empty map only disables the selector; otherwise the table is the placeholder followed by one row per eligible entry in map order, and the requested index is selected when it is in range (no row otherwise); the selector is never enabled |
| PayFrom.CurrentText | src/qt/sendfuturesentry.cpp:167 | the source field reads the placeholder text or the address of the current row, and empty text when no row is current |
| PayFrom.SelectedSource | src/qt/sendfuturesentry.cpp:388 | after a rebuild, index 0 reads the placeholder text, index k reads the address of the k-th eligible entry, and an index outside the table reads empty text |
| PayFrom.BalanceChange | src/qt/sendfuturesentry.cpp:391-394 | a balance change is a rebuild with index 0, so whenever a table is built the placeholder row is selected |
| PayFrom.EligibleConcat | src/qt/sendfuturesentry.cpp:353-367 | filtering keeps the map's order: it distributes over concatenation |
| PayFrom.EligibleDistinct | src/qt/sendfuturesentry.cpp:336-354 | filtering a map with distinct addresses yields distinct addresses |
| PayFrom.TableIsEligibleSet | src/qt/sendfuturesentry.cpp:349-367 | row 0 is the placeholder, and no other row is; every entry whose balance covers the fee has its row; every other row comes from such an entry |
| PayFrom.TableAddressesDistinct | src/qt/sendfuturesentry.cpp:336-367 | no address is offered twice |
| PayFrom.SortDataIsBalance | src/qt/sendfuturesentry.cpp:358-359 | with a non-negative fee, each row's data is the raw integer balance of its entry |
| PayFrom.RebuildIdempotent | src/qt/sendfuturesentry.cpp:293 | rebuilding again with the current index and the same balances and fee changes nothing |
| PayFrom.SelectionFollowsIndex | src/qt/sendfuturesentry.cpp:388 | when an earlier entry drops below the fee, keeping the index selects a different address (B becomes C) |
| PayFrom.FeeFilterExample | src/qt/sendfuturesentry.cpp:353-354 | with A = 500, B = 50 and a fee of 100, the table is the placeholder and A only |
| Validator.Validate | src/qt/sendfuturesentry.cpp:154-197 | with no wallet, the result is false and marks nothing; a payment request passes; otherwise validation passes iff all four earlier checks pass and the pair is not dust; the destination field is marked iff the destination is invalid; the amount field is marked iff the amount is not positive, or the earlier checks pass and the pair is dust |
| Validator.NonPositiveAmountRejected | src/qt/sendfuturesentry.cpp:183-188 | an amount of zero or less fails and marks the amount field, whatever the addresses hold |
| Validator.RequestIgnoresForm | src/qt/sendfuturesentry.cpp:163-165 | with a payment request, validation passes for any form contents |
| Validator.DustGated | src/qt/sendfuturesentry.cpp:190-194 | when an earlier check fails, replacing the dust policy changes neither the verdict nor the marks |
| Validator.AllChecksRun | src/qt/sendfuturesentry.cpp:167-188 | a bad source address fails validation but still lets the destination and amount checks mark their fields |
| Validator.PassMarksNothing | src/qt/sendfuturesentry.cpp:161-196 | a passing entry has no field marked |
| FuturesEntry.SetPayTo | src/qt/sendfuturesentry.cpp:297-311 | a changed destination with a non-empty address-book label fills the label; otherwise the label is kept; nothing else changes |
| FuturesEntry.SetPayToIdempotent | src/qt/sendfuturesentry.cpp:106-108 | writing the same destination again runs no second label lookup, so a label typed in after the first write is kept |
| FuturesEntry.ModeOf | src/qt/sendfuturesentry.cpp:234-253 | the mode is normal exactly when no payment request is initialized; a request is unauthenticated exactly when its merchant name is empty and authenticated exactly when it is not |
| FuturesEntry.SetAddress | src/qt/sendfuturesentry.cpp:268-272 | the destination becomes the address; a changed destination with a non-empty address-book label fills the label, otherwise the label is kept; nothing else in the entry changes; a non-empty address makes the entry non-clear |
| FuturesEntry.SetValue | src/qt/sendfuturesentry.cpp:230-266 | the recipient is stored; a request shows its page and fills only that page's destination, memo and amount; in normal mode the message, destination and amount are filled; in every mode the amount widget written holds the amount and is accepted exactly when the widget's acceptance rule admits it; a non-empty label is written, and an empty one leaves an address-book label found for a changed destination; in normal mode nothing else changes, so the source, maturity, lock time, fee flag, both request pages and the page shown stay as they were |
| FuturesEntry.GetValue | src/qt/sendfuturesentry.cpp:199-216 | a request is handed out unchanged; the mode, payment request and merchant are preserved; in normal mode the source, destination, label, amount, maturity, message and fee flag come from the form, and the lock time is the field's 32-bit read-back |
| FuturesEntry.UpdateDisplayUnit | src/qt/sendfuturesentry.cpp:284-295 | only the selector changes, and it is rebuilt by `SetupPayFrom` at its current index: with no wallet or options model nothing changes at all; with an empty balance map the selector is only disabled and keeps its table and index; otherwise the rows after the placeholder are the eligible entries and the current index is kept when still in range |
| FuturesEntry.IsClear | src/qt/sendfuturesentry.cpp:274-277 | the entry is clear exactly when the destination fields of all three pages are empty; a clear entry without a payment request hands out an empty destination |
| FuturesEntry.Clear | src/qt/sendfuturesentry.cpp:124-147 | the entry is clear; maturity is -1; label, message, amounts and memos are empty; the date is now, and a changed date reads back as -1; the recipient and page are kept; the selector is rebuilt at its index |
| FuturesEntry.RequestRoundTrip | src/qt/sendfuturesentry.cpp:199-203 | setting and then getting a payment request returns it unchanged |
| FuturesEntry.NormalRoundTrip | src/qt/sendfuturesentry.cpp:253-265 | for a normal recipient, the destination, message, amount and a non-empty label survive a set-then-get; the source, maturity, lock time and fee flag come from the form |
| FuturesEntry.NormalSetValueValidates | src/qt/sendfuturesentry.cpp:154-197 | after a normal recipient is set, validation passes iff the source shown and the recipient's address are valid, the amount is accepted and positive, and the pair is not dust |
| FuturesEntry.NormalRoundTripLosesMaturity | src/qt/sendfuturesentry.cpp:253-265 | a normal recipient whose maturity differs from the form's is not returned by a set-then-get |
| FuturesEntry.GetValueStable | src/qt/sendfuturesentry.cpp:205-215 | writing the handed-out recipient back into the entry does not change a later read |
| FuturesEntry.AuthenticatedNotClear | src/qt/sendfuturesentry.cpp:244-251 | setting an authenticated request always makes the entry non-clear |
| FuturesEntry.ClearIdempotent | src/qt/sendfuturesentry.cpp:124-147 | clearing twice at one clock reading equals clearing once |
| FuturesEntry.ClearedNormalEntryInvalid | src/qt/sendfuturesentry.cpp:124-147 | a cleared entry without a payment request never validates |
| FuturesEntry.ClearKeepsRequest | src/qt/sendfuturesentry.cpp:124-147 | a cleared entry holding a payment request still validates and still hands out that request |
| FuturesEntry.ClearIgnoresOtherFields | src/qt/sendfuturesentry.h:37 | emptiness depends on the three destination fields only, so typing a label, amount, message or maturity leaves a clear entry clear |

## Left out

- Widget construction, icons, spacing and placeholder texts; clipboard paste; the address-book dialog; the tab chain; focus handling. These are presentation.
- `setModel`: it attaches the wallet model, rebuilds with index 0 and clears. Here the wallet model is a per-call parameter, and `BalanceChange` and `Clear` cover the two steps.
- Signal and slot wiring, and the signals the entry emits (`removeEntry`, amount, source and fee-flag changes). These are event plumbing.
- The `QTableView` setup, including the hidden placeholder row and sorting, the column headers, `HtmlEscape` and the address encoding. Addresses are opaque strings.
- Display-unit formatting of amounts and of the balance column, including the amount widgets' unit change in `updateDisplayUnit`.
- The amount widgets' text parsing and range check, and their own valid-marking. An amount widget is its reported value plus an accepted flag. A value written into one is assumed to be reported back unchanged, and its acceptance is `Env.acceptsAmount`.
- The read-only state of the request pages' amount widgets, and the destination field's valid flag being reset as the user types.
- The clock. `now` is an input in whole seconds. The date widget's minimum date (today) is not modelled. `getLockTime` reads the clock itself; it is given the same `now` as the caller.
- The wallet's balance map is a sequence in the map's iteration order. The key ordering itself is not modelled. Distinct keys are a lemma precondition only.
- `getFutureFees`, `GUIUtil::isDust`, `validateAddress`, `getAddressBalances` and `labelForAddress` are uninterpreted function parameters.
- The commented-out `updatePayFromBalanceLabel`, which is dead code.
- The header's declarations. They name other types and slots than the implementation; only its `isClear` comment is used.
- PayFrom.SetupPayFrom: does not model the formatted balance text in each row, only the label, address and sort data.
- FuturesEntry.GetValue: does not model writing the assembled recipient back into the stored one. `GetValueStable` shows that no later read can observe that write, because a second read rebuilds the same fields and keeps the others.
- Validator.Validate: does not model the mark that the amount widget's own `validate` may set, which is internal to that widget.
