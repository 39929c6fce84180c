/** The wallet of the `payments` app: a two-decimal money amount (modelled as
    integer cents, currency ignored) and a `Transaction` row per movement.
    Unlike the integer wallet, `deposit` refuses amounts that are not positive. */
module PaymentWallet {
  import opened Results
  import opened Ledger

  /** Why `InsufficientBalance` was raised: both guards raise that one class. */
  datatype Refusal = DepositNotPositive | ExceedsBalance

  datatype WalletError = InsufficientBalance(why: Refusal, amount: int)

  /** What `deposit` does to a wallet's state. */
  function Deposited(b: Book, amount: int): (r: Result<Book, WalletError>)
    ensures r.Err? <==> amount <= 0
    ensures r.Err? ==> r.error == InsufficientBalance(DepositNotPositive, amount)
    ensures r.Ok? ==> r.value.balance == b.balance + amount && r.value.balance > b.balance
    ensures r.Ok? ==> r.value.entries == b.entries + [Entry(amount, r.value.balance)]
    ensures r.Ok? && Consistent(b) ==> Consistent(r.value)
  {
    if amount <= 0 then Err(InsufficientBalance(DepositNotPositive, amount)) else Ok(Post(b, amount))
  }

  /** What `withdraw` does to a wallet's state. */
  function Withdrawn(b: Book, amount: int): (r: Result<Book, WalletError>)
    ensures r.Err? <==> amount > b.balance
    ensures r.Err? ==> r.error == InsufficientBalance(ExceedsBalance, amount)
    ensures r.Ok? ==> r.value.balance == b.balance - amount && r.value.balance >= 0
    ensures r.Ok? ==> r.value.entries == b.entries + [Entry(-amount, r.value.balance)]
    ensures r.Ok? && Consistent(b) ==> Consistent(r.value)
  {
    if amount > b.balance then Err(InsufficientBalance(ExceedsBalance, amount)) else Ok(Post(b, -amount))
  }

  /** Both wallets' states after a transfer, and how the transfer ended. */
  datatype TransferEffect = TransferEffect(source: Book, target: Book, outcome: Outcome<WalletError>)

  /** What `transfer` does to two distinct wallets, as written: `withdraw` on
      the source commits first, then `deposit` on the target may still refuse
      a non-positive amount, leaving the withdrawal in place. */
  function TransferredAsWritten(source: Book, target: Book, amount: int): (r: TransferEffect)
    ensures r.outcome.Fail? <==> amount > source.balance || amount <= 0
    ensures amount > source.balance ==>
      r == TransferEffect(source, target, Fail(InsufficientBalance(ExceedsBalance, amount)))
    ensures amount <= source.balance && amount <= 0 ==>
      r.outcome == Fail(InsufficientBalance(DepositNotPositive, amount)) && r.target == target &&
      r.source.balance == source.balance - amount && |r.source.entries| == |source.entries| + 1
    ensures r.outcome.Pass? ==>
      r.source.balance + r.target.balance == source.balance + target.balance
    ensures r.outcome.Pass? ==>
      r.source.balance == source.balance - amount && r.target.balance == target.balance + amount
    ensures Consistent(source) && Consistent(target) ==> Consistent(r.source) && Consistent(r.target)
  {
    match Withdrawn(source, amount)
    case Err(e) => TransferEffect(source, target, Fail(e))
    case Ok(s) =>
      match Deposited(target, amount)
      case Err(e) => TransferEffect(s, target, Fail(e))
      case Ok(t) => TransferEffect(s, t, Pass)
  }

  /** A transfer with a non-positive amount fails, yet the source wallet keeps
      the withdrawal: with amount -5 from an empty wallet the source gains 5
      and the combined balance of the two wallets grows. */
  lemma NonPositiveTransferKeepsWithdrawal()
    ensures var r := TransferredAsWritten(Empty, Empty, -5);
      && r.outcome.Fail?
      && r.source.balance == 5
      && r.source.balance + r.target.balance != Empty.balance + Empty.balance
  {
  }

  /** The transfer both wallets' contracts call for: check both guards before
      anything is recorded, so it either completes or changes neither wallet. */
  function TransferredAtomically(source: Book, target: Book, amount: int): (r: Result<(Book, Book), WalletError>)
    ensures r.Err? <==> amount > source.balance || amount <= 0
    ensures r.Ok? ==> r.value.0.balance + r.value.1.balance == source.balance + target.balance
    ensures r.Ok? ==> r.value.0.balance == source.balance - amount && r.value.1.balance == target.balance + amount
    ensures r.Ok? && Consistent(source) && Consistent(target) ==>
      Consistent(r.value.0) && Consistent(r.value.1)
  {
    if amount > source.balance then Err(InsufficientBalance(ExceedsBalance, amount))
    else if amount <= 0 then Err(InsufficientBalance(DepositNotPositive, amount))
    else Ok((Post(source, -amount), Post(target, amount)))
  }

  /** Where the written transfer succeeds the all-or-nothing one yields the
      same two wallets; where it fails, the all-or-nothing one fails with the
      same error but leaves the source as it was. */
  lemma AtomicTransferAgrees(source: Book, target: Book, amount: int)
    ensures var w := TransferredAsWritten(source, target, amount);
      match TransferredAtomically(source, target, amount)
      case Ok(p) => w == TransferEffect(p.0, p.1, Pass)
      case Err(e) => w.outcome == Fail(e) && w.target == target
  {
  }

  class Wallet {
    var amount: int
    var transactions: seq<Entry>

    /** The wallet's balance and ledger as one value. */
    function State(): Book
      reads this
    {
      Book(amount, transactions)
    }

    /** The ledger invariant of a wallet that started from the default balance. */
    ghost predicate Valid()
      reads this
    {
      Consistent(State())
    }

    /** A new wallet: the default amount 0 and no transactions. */
    constructor ()
      ensures State() == Empty && Valid()
    {
      amount := 0;
      transactions := [];
    }

    /** Raises when `value <= 0`; otherwise appends `(value, amount + value)`
        and raises the wallet amount by `value`. */
    method Deposit(value: int) returns (outcome: Outcome<WalletError>)
      modifies this
      ensures match Deposited(old(State()), value)
              case Ok(b) => outcome == Pass && State() == b
              case Err(e) => outcome == Fail(e) && State() == old(State())
      ensures old(Valid()) ==> Valid()
    {
      if value <= 0 {
        return Fail(InsufficientBalance(DepositNotPositive, value));
      }
      transactions := transactions + [Entry(value, amount + value)];
      amount := amount + value;
      outcome := Pass;
    }

    /** Raises when `value` exceeds the wallet amount; otherwise appends
        `(-value, amount - value)` and lowers the wallet amount by `value`. */
    method Withdraw(value: int) returns (outcome: Outcome<WalletError>)
      modifies this
      ensures match Withdrawn(old(State()), value)
              case Ok(b) => outcome == Pass && State() == b
              case Err(e) => outcome == Fail(e) && State() == old(State())
      ensures old(Valid()) ==> Valid()
    {
      if value > amount {
        return Fail(InsufficientBalance(ExceedsBalance, value));
      }
      transactions := transactions + [Entry(-value, amount - value)];
      amount := amount - value;
      outcome := Pass;
    }

    /** `withdraw` on this wallet, then `deposit` on `target`, each committing
        on its own; the target may be this wallet itself. */
    method Transfer(target: Wallet, value: int) returns (outcome: Outcome<WalletError>)
      modifies this, target
      ensures target != this ==>
        TransferredAsWritten(old(State()), old(target.State()), value) ==
        TransferEffect(State(), target.State(), outcome)
      ensures target == this ==>
        match Withdrawn(old(State()), value)
        case Err(e) => outcome == Fail(e) && State() == old(State())
        case Ok(b) => match Deposited(b, value)
          case Err(e) => outcome == Fail(e) && State() == b
          case Ok(c) => outcome == Pass && State() == c && amount == old(amount)
      ensures old(Valid()) && old(target.Valid()) ==> Valid() && target.Valid()
    {
      outcome := Withdraw(value);
      if outcome.Pass? {
        outcome := target.Deposit(value);
      }
    }
  }
}
