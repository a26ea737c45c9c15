/**
 A bank together with every user's balance in it and the token vaults, moved by the lending
 instructions; a liquidation moves two banks and is here as what it does to each of them.
 */
module LendingLedger {
  import opened Wrappers
  import opened FixedPoint
  import opened BankLedger
  import opened BankAccount

  /** 0.1 of a dollar. */
  const BANKRUPT_THRESHOLD: I80F48 := 28_147_497_671_066

  /** What all of a user's assets and debts are worth at oracle prices. */
  datatype Equity = Equity(assets: I80F48, liabilities: I80F48) {

    /** The source's check_account_bankrupt: next to no assets, and debts beyond them. */
    function CheckBankrupt(): Result<()> {
      var _ :- Check(assets < liabilities, AccountNotBankrupt);
      Check(assets < BANKRUPT_THRESHOLD && liabilities > ZERO_AMOUNT_THRESHOLD, AccountNotBankrupt)
    }
  }

  datatype Ledger = Ledger(
    bank: BankState,
    balances: seq<Balance>,
    vault: nat,
    insuranceVault: nat,
    feeVault: nat,
    programVault: nat)
  {
    function GetAccount(i: nat): Result<Account> {
      if i < |balances| then Ok(Account(bank, balances[i])) else Err(BankAccountNotFound)
    }

    function SetAccount(i: nat, acc: Account): Ledger
      requires i < |balances|
    {
      this.(bank := acc.bank, balances := balances[i := acc.balance])
    }

    /** The tokens a deposit takes: all of them, or as many as the capacity before its accrual allows. */
    function Deposited(amount: nat, upToLimit: bool): Result<nat> {
      if !upToLimit then Ok(amount)
      else
        var capacity :- bank.GetRemainingDepositCapacity();
        Ok(Min(amount, capacity))
    }

    /** lending_account_deposit: unlike the other instructions it looks at the bank before its accrual. */
    function Deposit(i: nat, amount: nat, upToLimit: bool, now: int, group: GroupFees): Result<Ledger> {
      var tokens :- Deposited(amount, upToLimit);
      if tokens == 0 then Ok(this)
      else
        var accrued :- Accrue(now, group);
        accrued.PutIn(i, tokens)
    }

    function PutIn(i: nat, tokens: nat): Result<Ledger> {
      var acc :- GetAccount(i);
      var after :- acc.IncreaseBalance(FromInt(tokens), DepositOnly);
      Ok(SetAccount(i, after).(vault := vault + tokens))
    }

    /** lending_account_withdraw of part of a balance. */
    function Withdraw(i: nat, amount: nat): Result<Ledger> {
      var acc :- GetAccount(i);
      var after :- acc.DecreaseBalance(FromInt(amount), WithdrawOnly);
      if vault < amount then Err(TransferFailed) else Ok(SetAccount(i, after).(vault := vault - amount))
    }

    /** lending_account_withdraw with withdraw_all. */
    function WithdrawAll(i: nat): Result<Ledger> {
      var acc :- GetAccount(i);
      var (after, tokens) :- acc.WithdrawAll();
      if vault < tokens then Err(TransferFailed) else Ok(SetAccount(i, after).(vault := vault - tokens))
    }

    function OriginationFee(amount: nat): Result<I80F48> {
      var rate := bank.config.interestRateConfig.protocolOriginationFee;
      if rate == 0 then Ok(0)
      else
        var fee :- CheckedMul(FromInt(amount), rate).OrMathError();
        var _ :- CheckedToU64(fee).OrMathError();
        Ok(fee)
    }

    /** lending_account_borrow: the debt carries the origination fee, the vault pays the amount only. */
    function Borrow(i: nat, amount: nat, group: GroupFees): Result<Ledger> {
      var acc :- GetAccount(i);
      var fee :- OriginationFee(amount);
      var delta :- CheckedAdd(FromInt(amount), fee).OrMathError();
      var after :- acc.DecreaseBalance(delta, BorrowOnly);
      PayBorrow(i, amount, fee, group.programFeeRate, after)
    }

    /** Pays a borrowed amount out and credits its origination fee to the bank. */
    function PayBorrow(i: nat, amount: nat, fee: I80F48, programFeeRate: I80F48, after: Account): Result<Ledger>
      requires i < |balances|
    {
      if vault < amount then Err(TransferFailed)
      else
        var programFee :- CheckedMul(fee, programFeeRate).OrMathError();
        Ok(SetAccount(i, Account(CreditOriginationFee(after.bank, fee, programFee), after.balance)).(vault := vault - amount))
    }

    /** lending_account_repay of part of a debt. */
    function Repay(i: nat, amount: nat): Result<Ledger> {
      var acc :- GetAccount(i);
      var after :- acc.IncreaseBalance(FromInt(amount), RepayOnly);
      Ok(SetAccount(i, after).(vault := vault + amount))
    }

    /** lending_account_repay with repay_all, paid in tokens. */
    function RepayAll(i: nat): Result<Ledger> {
      var acc :- GetAccount(i);
      var (after, tokens) :- acc.RepayAll();
      Ok(SetAccount(i, after).(vault := vault + tokens))
    }

    function CloseBalance(i: nat): Result<Ledger> {
      var acc :- GetAccount(i);
      var after :- acc.CloseBalance();
      Ok(SetAccount(i, after))
    }

    function Accrue(now: int, group: GroupFees): Result<Ledger> {
      var after :- bank.AccrueInterest(now, group);
      Ok(this.(bank := after))
    }

    /** lending_pool_collect_bank_fees: whole tokens of each outstanding fee, as far as the vault goes. */
    function CollectFees(): Result<Ledger> {
      var insurance :- Collectable(bank.insuranceFees, vault);
      var group :- Collectable(bank.groupFees, vault - insurance);
      var program :- Collectable(bank.programFees, vault - insurance - group);
      if vault < insurance + group + program then Err(TransferFailed)
      else
        Ok(this.(bank := bank.(insuranceFees := bank.insuranceFees - FromInt(insurance), groupFees := bank.groupFees - FromInt(group),
                               programFees := bank.programFees - FromInt(program)),
                 vault := vault - insurance - group - program,
                 insuranceVault := insuranceVault + insurance,
                 feeVault := feeVault + group,
                 programVault := programVault + program))
    }

    /** lending_pool_handle_bankruptcy: insurance covers what it can, depositors lose the rest, the debt is repaid. */
    function HandleBankruptcy(i: nat, equity: Equity): Result<Ledger> {
      var _ :- equity.CheckBankrupt();
      var acc :- GetAccount(i);
      var badDebt :- bank.GetLiabilityAmount(acc.balance.liabilityShares);
      var _ :- Check(badDebt > ZERO_AMOUNT_THRESHOLD, BalanceNotBadDebt);
      var covered := Min(badDebt, FromInt(insuranceVault));
      var loss := Max(badDebt - covered, 0);
      var tokens :- CheckedToU64(Ceil(covered)).OrMathError();
      if insuranceVault < tokens then Err(TransferFailed) else SettleDebt(i, badDebt, loss, tokens)
    }

    /** Moves tokens from insurance, takes the loss out of the share value, and repays the debt. */
    function SettleDebt(i: nat, badDebt: I80F48, loss: I80F48, tokens: nat): Result<Ledger>
      requires i < |balances| && tokens <= insuranceVault
    {
      var (wounded, _) :- bank.SocializeLoss(loss);
      var after :- Account(wounded, balances[i]).IncreaseBalance(badDebt, RepayOnly);
      Ok(SetAccount(i, after).(vault := vault + tokens, insuranceVault := insuranceVault - tokens))
    }

    /** What lending_account_liquidate does to the bank of the seized asset. */
    function LiquidateAsset(liquidator: nat, liquidatee: nat, amount: nat): Result<Ledger> {
      var _ :- Check(amount > 0, ZeroLiquidationAmount);
      var _ :- Check(liquidator != liquidatee, AccountBorrowFailed);
      var acc :- GetAccount(liquidatee);
      var held :- bank.GetAssetAmount(acc.balance.assetShares);
      var _ :- Check(held >= FromInt(amount), OverliquidationAttempt);
      var seized :- acc.DecreaseBalance(FromInt(amount), BypassBorrowLimit);
      SetAccount(liquidatee, seized).Receive(liquidator, amount)
    }

    function Receive(liquidator: nat, amount: nat): Result<Ledger> {
      var acc :- GetAccount(liquidator);
      var after :- acc.IncreaseBalance(FromInt(amount), BypassDepositLimit);
      Ok(SetAccount(liquidator, after))
    }

    /**
     What it does to the bank of the repaid debt: the liquidator takes on one amount, the
     liquidatee is relieved of a smaller one, and the difference goes to insurance. Both
     amounts come from oracle prices.
     */
    function LiquidateDebt(liquidator: nat, liquidatee: nat, taken: nat, repaid: nat): Result<Ledger> {
      var _ :- Check(liquidator != liquidatee, AccountBorrowFailed);
      var _ :- Check(taken >= repaid, Panic);
      var acc :- GetAccount(liquidator);
      var burdened :- acc.DecreaseBalance(taken, BypassBorrowLimit);
      var tokens :- CheckedToU64(taken - repaid).OrMathError();
      SetAccount(liquidator, burdened).Relieve(liquidatee, repaid, tokens, taken - repaid - FromInt(tokens))
    }

    /** Repays part of a debt and pays the insurance fee, its fraction to the outstanding fees. */
    function Relieve(liquidatee: nat, repaid: nat, tokens: nat, dust: I80F48): Result<Ledger> {
      var acc :- GetAccount(liquidatee);
      var after :- acc.IncreaseBalance(repaid, RepayOnly);
      if vault < tokens then Err(TransferFailed)
      else
        var fees :- CheckedAdd(after.bank.insuranceFees, dust).OrMathError();
        Ok(SetAccount(liquidatee, Account(after.bank.(insuranceFees := fees), after.balance))
           .(vault := vault - tokens, insuranceVault := insuranceVault + tokens))
    }
  }

  /** The whole tokens of a fee that the available ones cover. */
  function Collectable(fees: I80F48, available: int): Result<nat> {
    CheckedToU64(Floor(Min(fees, FromInt(available)))).OrMathError()
  }

  /** Splits an origination fee between the program and the group, saturating as the source does. */
  function CreditOriginationFee(b: BankState, fee: I80F48, programFee: I80F48): BankState {
    if fee == 0 then b
    else
      b.(groupFees := SaturatingAdd(b.groupFees, SaturatingAdd(fee, -programFee)),
         programFees := SaturatingAdd(b.programFees, programFee))
  }

  datatype Op =
    | OpDeposit(i: nat, amount: nat, upToLimit: bool, now: int, group: GroupFees)
    | OpWithdraw(i: nat, amount: nat)
    | OpWithdrawAll(i: nat)
    | OpBorrow(i: nat, amount: nat, group: GroupFees)
    | OpRepay(i: nat, amount: nat)
    | OpRepayAll(i: nat)
    | OpCloseBalance(i: nat)
    | OpAccrue(now: int, group: GroupFees)
    | OpCollectFees
    | OpHandleBankruptcy(i: nat, equity: Equity)
    | OpLiquidateAsset(liquidator: nat, liquidatee: nat, amount: nat)
    | OpLiquidateDebt(liquidator: nat, liquidatee: nat, taken: nat, repaid: nat)

  function Step(l: Ledger, op: Op): Result<Ledger> {
    match op
    case OpDeposit(i, amount, upToLimit, now, group) => l.Deposit(i, amount, upToLimit, now, group)
    case OpWithdraw(i, amount) => l.Withdraw(i, amount)
    case OpWithdrawAll(i) => l.WithdrawAll(i)
    case OpBorrow(i, amount, group) => l.Borrow(i, amount, group)
    case OpRepay(i, amount) => l.Repay(i, amount)
    case OpRepayAll(i) => l.RepayAll(i)
    case OpCloseBalance(i) => l.CloseBalance(i)
    case OpAccrue(now, group) => l.Accrue(now, group)
    case OpCollectFees => l.CollectFees()
    case OpHandleBankruptcy(i, equity) => l.HandleBankruptcy(i, equity)
    case OpLiquidateAsset(liquidator, liquidatee, amount) => l.LiquidateAsset(liquidator, liquidatee, amount)
    case OpLiquidateDebt(liquidator, liquidatee, taken, repaid) => l.LiquidateDebt(liquidator, liquidatee, taken, repaid)
  }

  /** An instruction that fails reverts. */
  function Apply(l: Ledger, op: Op): Ledger {
    match Step(l, op)
    case Ok(after) => after
    case Err(_) => l
  }

  function Run(l: Ledger, ops: seq<Op>): Ledger
    decreases |ops|
  {
    if ops == [] then l else Run(Apply(l, ops[0]), ops[1..])
  }

  /** A new bank with empty balances and an empty vault, beside an insurance vault that may be funded. */
  function Fresh(config: BankConfig, mintDecimals: nat, now: int, users: nat, insurance: nat): Ledger {
    Ledger(NewBank(config, mintDecimals, now), seq(users, _ => EMPTY_BALANCE), 0, insurance, 0, 0)
  }

  // ---- Reachability ----

  ghost predicate Reaches(l: Ledger, m: Ledger) {
    exists ops :: Run(l, ops) == m
  }

  lemma ReachesNext(l: Ledger, op: Op)
    ensures Reaches(l, Apply(l, op))
  {
    assert Run(l, [op]) == Run(Apply(l, op), []);
  }

  lemma ReachesOn(l: Ledger, m: Ledger, n: Ledger)
    requires Reaches(l, m) && Reaches(m, n)
    ensures Reaches(l, n)
  {
    var a :| Run(l, a) == m;
    var b :| Run(m, b) == n;
    RunAppend(l, a, b);
  }

  lemma {:induction false} RunAppend(l: Ledger, a: seq<Op>, b: seq<Op>)
    ensures Run(l, a + b) == Run(Run(l, a), b)
    decreases |a|
  {
    if a == [] {
      assert a + b == b;
    } else {
      assert (a + b)[1..] == a[1..] + b;
      RunAppend(Apply(l, a[0]), a[1..], b);
    }
  }
}
