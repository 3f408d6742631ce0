/** Data model of one future-payment form entry: the stored recipient record,
    the values its widgets hold, and the wallet services it consults. */
module FuturesTypes {

  datatype Option<+T> = None | Some(value: T)

  const MinInt64: int := -0x8000_0000_0000_0000
  const MaxInt64: int := 0x7fff_ffff_ffff_ffff
  const MinInt32: int := -0x8000_0000
  const MaxInt32: int := 0x7fff_ffff

  /** A 64-bit signed amount in the smallest currency unit. */
  type CAmount = x: int | MinInt64 <= x <= MaxInt64

  /** Reinterprets a signed 64-bit amount as an unsigned 64-bit value (a `quint64` cast). */
  function U64(x: CAmount): int
  {
    if x >= 0 then x else x + 0x1_0000_0000_0000_0000
  }

  /** One entry of the wallet's per-address balance map; the address is kept as its text. */
  datatype BalanceEntry = BalanceEntry(address: string, balance: CAmount)

  /** An attached payment request; only whether it is initialized matters here. */
  datatype PaymentRequest = Uninitialized | Initialized(serialized: seq<bv8>)

  /** The recipient record that the entry stores and hands out. */
  datatype Recipient = Recipient(
    payFrom: string,
    address: string,
    labelText: string,
    amount: CAmount,
    maturity: int,
    locktime: int,
    message: string,
    subtractFeeFromAmount: bool,
    paymentRequest: PaymentRequest,
    authenticatedMerchant: string)

  /** The three pages of the stacked entry widget. */
  datatype Mode = Normal | UnauthenticatedRequest | AuthenticatedRequest

  /** A row of the source-address dropdown table. */
  datatype Row =
    | Placeholder
    | SourceRow(address: string, bookLabel: string, sortData: int)

  /** Text of the placeholder row shown before a source address is chosen. */
  const PlaceholderText: string := "Select a Raptoreum address"

  /** The source-address combo box: enabled state, its table and the current row (-1 for none). */
  datatype Selector = Selector(enabled: bool, rows: seq<Row>, current: int)

  /** An amount widget: the value it reports and whether its own parse and range rule accept the text. */
  datatype AmountField = AmountField(value: CAmount, accepted: bool)

  /** A cleared amount widget reports 0 and does not validate. */
  const EmptyAmount: AmountField := AmountField(0, false)

  /** The hidden text field holding the computed lock time. */
  datatype LockTimeText = EmptyText | Number(n: int)

  /** The values held by the entry's widgets on all three pages. */
  datatype Form = Form(
    page: Mode,
    payFrom: Selector,
    payTo: string,
    addAsLabel: string,
    payAmount: AmountField,
    subtractFeeChecked: bool,
    messageText: string,
    messageVisible: bool,
    maturity: int,
    lockTarget: int,
    lockTimeField: LockTimeText,
    payToIs: string,
    memoIs: string,
    payAmountIs: AmountField,
    payToS: string,
    memoS: string,
    payAmountS: AmountField)

  /** The whole entry: the stored recipient and the form. */
  datatype Entry = Entry(recipient: Recipient, form: Form)

  /** Services of the attached wallet model. */
  datatype WalletModel = WalletModel(
    validateAddress: string -> bool,
    labelForAddress: string -> string,
    addressBalances: seq<BalanceEntry>,
    hasOptionsModel: bool)

  /** Everything the entry consults outside itself: the wallet model (absent when none is
      attached), the dust policy, the current future-transaction fee and the amount widget's
      acceptance rule for a value written into it. */
  datatype Env = Env(
    wallet: Option<WalletModel>,
    isDust: (string, CAmount) -> bool,
    futureFee: CAmount,
    acceptsAmount: CAmount -> bool)
}
