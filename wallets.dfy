/** The integer wallet of the `wallets` app: a `current_balance` big-integer
    field and a `Transaction` row per deposit or withdrawal. */
module Wallets {
  import opened Results
  import opened Ledger

  /** `InsufficientBalance`, raised by `withdraw` with the requested amount in its message. */
  datatype WalletError = InsufficientBalance(amount: int)

  /** What `withdraw` does to a wallet's state: refuses an amount above the
      balance, otherwise records `-amount`. */
  function Withdrawn(b: Book, amount: int): (r: Result<Book, WalletError>)
    ensures r.Err? <==> amount > b.balance
    ensures r.Err? ==> r.error == InsufficientBalance(amount)
    ensures r.Ok? ==> r.value.balance == b.balance - amount && r.value.balance >= 0
    ensures r.Ok? ==> r.value.entries == b.entries + [Entry(-amount, r.value.balance)]
    ensures r.Ok? && Consistent(b) ==> Consistent(r.value)
  {
    if amount > b.balance then Err(InsufficientBalance(amount)) else Ok(Post(b, -amount))
  }

  /** What `transfer` does to two distinct wallets: `withdraw` on the source,
      then `deposit` on the target. `deposit` has no guard, so the transfer
      either fails in `withdraw` before anything changes or completes. */
  function Transferred(source: Book, target: Book, amount: int): (r: Result<(Book, Book), WalletError>)
    ensures r.Err? <==> amount > source.balance
    ensures r.Err? ==> r.error == InsufficientBalance(amount)
    ensures r.Ok? ==> r.value.0.balance == source.balance - amount
    ensures r.Ok? ==> r.value.1.balance == target.balance + amount
    ensures r.Ok? ==> r.value.0.balance + r.value.1.balance == source.balance + target.balance
    ensures r.Ok? && Consistent(source) && Consistent(target) ==>
      Consistent(r.value.0) && Consistent(r.value.1)
  {
    match Withdrawn(source, amount)
    case Err(e) => Err(e)
    case Ok(s) => Ok((s, Post(target, amount)))
  }

  class Wallet {
    var currentBalance: int
    var transactions: seq<Entry>

    /** The wallet's balance and ledger as one value. */
    function State(): Book
      reads this
    {
      Book(currentBalance, transactions)
    }

    /** The ledger invariant of a wallet that started from the default balance. */
    ghost predicate Valid()
      reads this
    {
      Consistent(State())
    }

    /** A new wallet: balance 0 and no transactions. */
    constructor ()
      ensures State() == Empty && Valid()
    {
      currentBalance := 0;
      transactions := [];
    }

    /** Appends `(amount, balance + amount)` and raises the balance by `amount`. */
    method Deposit(amount: int)
      modifies this
      ensures State() == Post(old(State()), amount)
      ensures currentBalance == old(currentBalance) + amount
      ensures old(Valid()) ==> Valid()
    {
      transactions := transactions + [Entry(amount, currentBalance + amount)];
      currentBalance := currentBalance + amount;
    }

    /** Raises `InsufficientBalance` and changes nothing when `amount` exceeds
        the balance; otherwise appends `(-amount, balance - amount)` and lowers
        the balance by `amount`. */
    method Withdraw(amount: int) returns (outcome: Outcome<WalletError>)
      modifies this
      ensures match Withdrawn(old(State()), amount)
              case Ok(b) => outcome == Pass && State() == b
              case Err(e) => outcome == Fail(e) && State() == old(State())
      ensures old(Valid()) ==> Valid()
    {
      if amount > currentBalance {
        return Fail(InsufficientBalance(amount));
      }
      transactions := transactions + [Entry(-amount, currentBalance - amount)];
      currentBalance := currentBalance - amount;
      outcome := Pass;
    }

    /** `withdraw` on this wallet, then `deposit` on `target`; a failed
        withdrawal propagates before the target is touched. The target may be
        this wallet itself, in which case both rows land in this ledger. */
    method Transfer(target: Wallet, amount: int) returns (outcome: Outcome<WalletError>)
      modifies this, target
      ensures target != this ==>
        match Transferred(old(State()), old(target.State()), amount)
        case Ok(p) => outcome == Pass && State() == p.0 && target.State() == p.1
        case Err(e) => outcome == Fail(e) && State() == old(State()) && target.State() == old(target.State())
      ensures target == this ==>
        match Withdrawn(old(State()), amount)
        case Ok(b) => outcome == Pass && State() == Post(b, amount) && currentBalance == old(currentBalance)
        case Err(e) => outcome == Fail(e) && State() == old(State())
      ensures old(Valid()) && old(target.Valid()) ==> Valid() && target.Valid()
    {
      outcome := Withdraw(amount);
      if outcome.Pass? {
        target.Deposit(amount);
      }
    }
  }
}
