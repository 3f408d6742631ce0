/** The source-address selector: the dropdown table of wallet addresses whose balance can
    cover the future-transaction fee, rebuilt wholesale on every refresh. */
module PayFrom {
  import opened FuturesTypes

  /** The balance entries that can fund a future payment, in map iteration order. */
  function Eligible(balances: seq<BalanceEntry>, fee: CAmount): (r: seq<BalanceEntry>)
    ensures |r| <= |balances|
    ensures forall x :: x in r <==> x in balances && x.balance >= fee
  {
    if |balances| == 0 then []
    else if balances[0].balance >= fee then [balances[0]] + Eligible(balances[1..], fee)
    else Eligible(balances[1..], fee)
  }

  /** The table row for one balance entry: its address, its address-book label and the
      balance, cast to an unsigned 64-bit value, as the row's sort data. */
  function RowFor(e: BalanceEntry, labelFor: string -> string): Row
  {
    SourceRow(e.address, labelFor(e.address), U64(e.balance))
  }

  /** The text a row shows in the combo box's own column. */
  function RowText(row: Row): string
  {
    match row
    case Placeholder => PlaceholderText
    case SourceRow(address, _, _) => address
  }

  /** The combo box's current text: that of the current row, or empty when no row is current. */
  function CurrentText(sel: Selector): (t: string)
    ensures !(0 <= sel.current < |sel.rows|) ==> t == ""
    ensures 0 <= sel.current < |sel.rows| && sel.rows[sel.current].Placeholder? ==> t == PlaceholderText
    ensures 0 <= sel.current < |sel.rows| && sel.rows[sel.current].SourceRow? ==>
              t == sel.rows[sel.current].address
  {
    if 0 <= sel.current < |sel.rows| then RowText(sel.rows[sel.current]) else ""
  }

  /** The table is rebuilt only while a wallet model with an options model is attached. */
  predicate CanRebuild(env: Env)
  {
    env.wallet.Some? && env.wallet.value.hasOptionsModel
  }

  /** Rebuilds the selector's table from the wallet's balances and selects row `selected`
      (or no row, when that index is outside the new table). With no balances at all the
      selector is only disabled and keeps its old table. */
  function SetupPayFrom(env: Env, sel: Selector, selected: int): (s: Selector)
    ensures !CanRebuild(env) ==> s == sel
    ensures CanRebuild(env) && |env.wallet.value.addressBalances| == 0 ==>
              s == sel.(enabled := false)
    ensures CanRebuild(env) && |env.wallet.value.addressBalances| > 0 ==>
              var w := env.wallet.value;
              var es := Eligible(w.addressBalances, env.futureFee);
              && s.enabled == sel.enabled
              && |s.rows| == |es| + 1
              && s.rows[0] == Placeholder
              && (forall k :: 1 <= k < |s.rows| ==> s.rows[k] == RowFor(es[k - 1], w.labelForAddress))
              && s.current == (if 0 <= selected <= |es| then selected else -1)
    ensures s.enabled ==> sel.enabled
  {
    if !CanRebuild(env) then sel
    else
      var w := env.wallet.value;
      if |w.addressBalances| == 0 then sel.(enabled := false)
      else
        var es := Eligible(w.addressBalances, env.futureFee);
        TableIndex(es, w.labelForAddress);
        var rows := Table(es, w.labelForAddress);
        Selector(sel.enabled, rows, if 0 <= selected < |rows| then selected else -1)
  }

  /** The placeholder row followed by one row per eligible entry. */
  function Table(es: seq<BalanceEntry>, labelFor: string -> string): seq<Row>
  {
    [Placeholder] + Rows(es, labelFor)
  }

  /** One row per balance entry, in order. */
  function Rows(es: seq<BalanceEntry>, labelFor: string -> string): seq<Row>
  {
    if |es| == 0 then [] else [RowFor(es[0], labelFor)] + Rows(es[1..], labelFor)
  }

  /** The k-th row is that of the k-th entry. */
  lemma {:induction false} RowsIndex(es: seq<BalanceEntry>, labelFor: string -> string)
    ensures |Rows(es, labelFor)| == |es|
    ensures forall k :: 0 <= k < |es| ==> Rows(es, labelFor)[k] == RowFor(es[k], labelFor)
  {
    if |es| > 0 {
      RowsIndex(es[1..], labelFor);
    }
  }

  /** Row 0 of the table is the placeholder and row k is that of the entry before it. */
  lemma TableIndex(es: seq<BalanceEntry>, labelFor: string -> string)
    ensures |Table(es, labelFor)| == |es| + 1 && Table(es, labelFor)[0] == Placeholder
    ensures forall k :: 1 <= k <= |es| ==> Table(es, labelFor)[k] == RowFor(es[k - 1], labelFor)
  {
    RowsIndex(es, labelFor);
  }

  /** A balance-changed notification rebuilds the table and selects the placeholder. */
  function BalanceChange(env: Env, sel: Selector): (s: Selector)
    ensures s == SetupPayFrom(env, sel, 0)
    ensures CanRebuild(env) && |env.wallet.value.addressBalances| > 0 ==>
              s.current == 0 && CurrentText(s) == PlaceholderText
  {
    SetupPayFrom(env, sel, 0)
  }

  /** Filtering keeps map order: it distributes over concatenation. */
  lemma {:induction false} EligibleConcat(a: seq<BalanceEntry>, b: seq<BalanceEntry>, fee: CAmount)
    ensures Eligible(a + b, fee) == Eligible(a, fee) + Eligible(b, fee)
  {
    if |a| == 0 {
      assert a + b == b;
    } else {
      assert (a + b)[1..] == a[1..] + b;
      EligibleConcat(a[1..], b, fee);
    }
  }

  /** Every balance entry's address is listed at most once. */
  ghost predicate DistinctAddresses(balances: seq<BalanceEntry>)
  {
    forall i, j :: 0 <= i < j < |balances| ==> balances[i].address != balances[j].address
  }

  lemma {:induction false} EligibleDistinct(balances: seq<BalanceEntry>, fee: CAmount)
    requires DistinctAddresses(balances)
    ensures DistinctAddresses(Eligible(balances, fee))
  {
    if |balances| > 0 {
      var tail := balances[1..];
      assert DistinctAddresses(tail) by {
        forall i, j | 0 <= i < j < |tail|
          ensures tail[i].address != tail[j].address
        {
          assert tail[i] == balances[i + 1] && tail[j] == balances[j + 1];
        }
      }
      EligibleDistinct(tail, fee);
      if balances[0].balance >= fee {
        var r := Eligible(balances, fee);
        var rt := Eligible(tail, fee);
        assert r == [balances[0]] + rt;
        forall i, j | 0 <= i < j < |r|
          ensures r[i].address != r[j].address
        {
          if i == 0 {
            assert r[j] == rt[j - 1];
            assert rt[j - 1] in tail;
            var m :| 0 <= m < |tail| && tail[m] == rt[j - 1];
            assert tail[m] == balances[m + 1];
          } else {
            assert r[i] == rt[i - 1] && r[j] == rt[j - 1];
          }
        }
      }
    }
  }

  /** The row is that of some balance entry covering the fee. */
  ghost predicate RowOfEligible(row: Row, balances: seq<BalanceEntry>, fee: CAmount, labelFor: string -> string)
  {
    exists x :: x in balances && x.balance >= fee && row == RowFor(x, labelFor)
  }

  /** The rows after the placeholder are exactly the balance entries that cover the fee:
      the placeholder appears nowhere else, every eligible entry has its row, and every row
      comes from an eligible entry. */
  lemma TableIsEligibleSet(env: Env, sel: Selector, selected: int)
    requires CanRebuild(env) && |env.wallet.value.addressBalances| > 0
    ensures SetupPayFrom(env, sel, selected).rows[0] == Placeholder
    ensures var rows := SetupPayFrom(env, sel, selected).rows;
            forall k :: 1 <= k < |rows| ==> rows[k].SourceRow?
    ensures var w := env.wallet.value;
            var rows := SetupPayFrom(env, sel, selected).rows;
            forall x :: x in w.addressBalances && x.balance >= env.futureFee ==>
              RowFor(x, w.labelForAddress) in rows[1..]
    ensures var w := env.wallet.value;
            var rows := SetupPayFrom(env, sel, selected).rows;
            forall k :: 1 <= k < |rows| ==> RowOfEligible(rows[k], w.addressBalances, env.futureFee, w.labelForAddress)
  {
    var w := env.wallet.value;
    var rows := SetupPayFrom(env, sel, selected).rows;
    var es := Eligible(w.addressBalances, env.futureFee);
    forall x | x in w.addressBalances && x.balance >= env.futureFee
      ensures RowFor(x, w.labelForAddress) in rows[1..]
    {
      var m :| 0 <= m < |es| && es[m] == x;
      assert rows[1..][m] == rows[m + 1];
    }
    forall k | 1 <= k < |rows|
      ensures RowOfEligible(rows[k], w.addressBalances, env.futureFee, w.labelForAddress)
    {
      assert es[k - 1] in es;
    }
  }

  /** With distinct addresses in the balance map, no address is offered twice. */
  lemma TableAddressesDistinct(env: Env, sel: Selector, selected: int)
    requires CanRebuild(env) && |env.wallet.value.addressBalances| > 0
    requires DistinctAddresses(env.wallet.value.addressBalances)
    ensures var rows := SetupPayFrom(env, sel, selected).rows;
            forall i, j :: 1 <= i < j < |rows| ==> rows[i].address != rows[j].address
  {
    var w := env.wallet.value;
    var rows := SetupPayFrom(env, sel, selected).rows;
    var es := Eligible(w.addressBalances, env.futureFee);
    EligibleDistinct(w.addressBalances, env.futureFee);
    forall i, j | 1 <= i < j < |rows|
      ensures rows[i].address != rows[j].address
    {
      assert rows[i] == RowFor(es[i - 1], w.labelForAddress);
      assert rows[j] == RowFor(es[j - 1], w.labelForAddress);
    }
  }

  /** Each row's sort data is the raw integer balance (the unsigned cast changes nothing,
      since a non-negative fee only admits non-negative balances). */
  lemma SortDataIsBalance(env: Env, sel: Selector, selected: int)
    requires CanRebuild(env) && |env.wallet.value.addressBalances| > 0
    requires env.futureFee >= 0
    ensures var es := Eligible(env.wallet.value.addressBalances, env.futureFee);
            var rows := SetupPayFrom(env, sel, selected).rows;
            forall k :: 0 <= k < |es| ==> rows[k + 1].sortData == es[k].balance
  {
  }

  /** Rebuilding again with the current index changes nothing while the balances and the fee
      stay the same: a display-unit refresh is idempotent. */
  lemma RebuildIdempotent(env: Env, sel: Selector, selected: int)
    ensures var s := SetupPayFrom(env, sel, selected);
            SetupPayFrom(env, s, s.current) == s
  {
  }

  /** The selection is kept by position, not by address: when the entry before the chosen one
      drops below the fee, a rebuild that keeps the index selects a different address. */
  lemma SelectionFollowsIndex()
    ensures var noLabel := (a: string) => "";
            var valid := (a: string) => true;
            var before := Env(Some(WalletModel(valid, noLabel,
                                [BalanceEntry("A", 500), BalanceEntry("B", 500), BalanceEntry("C", 500)], true)),
                              (a: string, x: CAmount) => false, 100, (x: CAmount) => true);
            var after := before.(wallet := Some(before.wallet.value.(addressBalances :=
                                [BalanceEntry("A", 50), BalanceEntry("B", 500), BalanceEntry("C", 500)])));
            var s1 := SetupPayFrom(before, Selector(true, [], -1), 2);
            var s2 := SetupPayFrom(after, s1, s1.current);
            CurrentText(s1) == "B" && CurrentText(s2) == "C"
  {
  }

  /** Example: with balances A = 500 and B = 50 and a fee of 100, only A is offered. */
  lemma FeeFilterExample(labelFor: string -> string)
    ensures var env := Env(Some(WalletModel((a: string) => true, labelFor,
                              [BalanceEntry("addrA", 500), BalanceEntry("addrB", 50)], true)),
                            (a: string, x: CAmount) => false, 100, (x: CAmount) => true);
            SetupPayFrom(env, Selector(true, [], -1), 0).rows
              == [Placeholder, SourceRow("addrA", labelFor("addrA"), 500)]
  {
  }

  /** What the source field reads after a rebuild: the placeholder text at index 0, the
      address of the (index-1)-th eligible entry at a later index, and empty text when the
      index is outside the table. */
  lemma SelectedSource(env: Env, sel: Selector, selected: int)
    requires CanRebuild(env) && |env.wallet.value.addressBalances| > 0
    ensures var es := Eligible(env.wallet.value.addressBalances, env.futureFee);
            var t := CurrentText(SetupPayFrom(env, sel, selected));
            && (selected == 0 ==> t == PlaceholderText)
            && (1 <= selected <= |es| ==> t == es[selected - 1].address)
            && (selected < 0 || |es| < selected ==> t == "")
  {
  }
}
