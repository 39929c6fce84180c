/** The bookkeeping shared by both wallet implementations: a wallet is a cached
    balance plus its `Transaction` rows in creation order, each row holding the
    signed amount and the balance snapshot taken when it was appended. */
module Ledger {

  /** One `Transaction` row: the signed amount (a deposit is positive, a
      withdrawal negative) and the running balance recorded with it. */
  datatype Entry = Entry(amount: int, runningBalance: int)

  /** What a wallet holds: its cached balance and its ledger rows, oldest first. */
  datatype Book = Book(balance: int, entries: seq<Entry>)

  /** A freshly created wallet: the field default 0 and no transactions. */
  const Empty: Book := Book(0, [])

  /** Sum of the signed amounts of a run of ledger rows. */
  function Sum(es: seq<Entry>): int
  {
    if es == [] then 0 else Sum(es[..|es| - 1]) + es[|es| - 1].amount
  }

  /** Each row's running balance is the previous row's (0 before the first)
      plus the row's own amount. */
  predicate Chained(es: seq<Entry>)
  {
    forall i :: 0 <= i < |es| ==> es[i].runningBalance == Before(es, i) + es[i].amount
  }

  /** The running balance just before row `i`: the previous row's, or 0. */
  function Before(es: seq<Entry>, i: nat): int
    requires i <= |es|
  {
    if i == 0 then 0 else es[i - 1].runningBalance
  }

  /** The ledger invariant of a wallet that started from the default balance:
      the rows chain and the cached balance is the sum of their amounts. */
  predicate Consistent(b: Book)
  {
    Chained(b.entries) && b.balance == Sum(b.entries)
  }

  /** Newest running balance, or 0 for an empty ledger. */
  function LastRunning(es: seq<Entry>): int
  {
    if es == [] then 0 else es[|es| - 1].runningBalance
  }

  /** Records one signed movement: appends a row whose running balance is the
      old balance plus `delta`, and moves the cached balance to match. Both
      `deposit` (delta = amount) and `withdraw` (delta = -amount) do this. */
  function Post(b: Book, delta: int): (r: Book)
    ensures |r.entries| == |b.entries| + 1 && r.entries[..|b.entries|] == b.entries
    ensures r.entries[|b.entries|] == Entry(delta, r.balance)
    ensures r.balance - b.balance == delta
    ensures Sum(r.entries) == Sum(b.entries) + delta
    ensures Consistent(b) ==> Consistent(r)
  {
    var r := Book(b.balance + delta, b.entries + [Entry(delta, b.balance + delta)]);
    assert r.entries[..|r.entries| - 1] == b.entries;
    if Consistent(b) then PostChains(b, delta); r else r
  }

  /** The appended row continues the chain, because the newest old row
      carries the old balance. */
  lemma PostChains(b: Book, delta: int)
    requires Consistent(b)
    ensures Chained(b.entries + [Entry(delta, b.balance + delta)])
  {
    var es := b.entries + [Entry(delta, b.balance + delta)];
    LastRunningIsSum(b.entries);
    forall i | 0 <= i < |es|
      ensures es[i].runningBalance == Before(es, i) + es[i].amount
    {
      if i < |b.entries| {
        assert es[i] == b.entries[i];
        if i > 0 { assert es[i - 1] == b.entries[i - 1]; }
      } else if i > 0 {
        assert es[i - 1] == b.entries[|b.entries| - 1];
      }
    }
  }

  /** Under the chaining rule every row's running balance is the sum of the
      amounts up to and including that row. */
  lemma {:induction false} RunningIsPrefixSum(es: seq<Entry>)
    requires Chained(es)
    ensures forall i :: 0 <= i < |es| ==> es[i].runningBalance == Sum(es[..i + 1])
    ensures LastRunning(es) == Sum(es)
  {
    forall i | 0 <= i < |es|
      ensures es[i].runningBalance == Sum(es[..i + 1])
    {
      RunningAt(es, i);
    }
    LastRunningIsSum(es);
  }

  /** The newest running balance of a chained ledger is the sum of all amounts. */
  lemma LastRunningIsSum(es: seq<Entry>)
    requires Chained(es)
    ensures LastRunning(es) == Sum(es)
  {
    if es != [] {
      RunningAt(es, |es| - 1);
      assert es[..|es|] == es;
    }
  }

  /** One row at a time: row `i`'s running balance is the sum up to it. */
  lemma {:induction false} RunningAt(es: seq<Entry>, i: nat)
    requires Chained(es) && i < |es|
    ensures es[i].runningBalance == Sum(es[..i + 1])
    decreases i
  {
    assert es[..i + 1][..i] == es[..i];
    assert es[i].runningBalance == Before(es, i) + es[i].amount;
    if i > 0 {
      RunningAt(es, i - 1);
    }
  }

  /** The newest ledger row always carries the wallet's cached balance. */
  lemma NewestMatchesBalance(b: Book)
    requires Consistent(b) && b.entries != []
    ensures b.entries[|b.entries| - 1].runningBalance == b.balance
  {
    RunningIsPrefixSum(b.entries);
  }

  /** Replays a sequence of signed movements on a wallet, in order. */
  function Replay(b: Book, deltas: seq<int>): Book
    decreases deltas
  {
    if deltas == [] then b else Replay(Post(b, deltas[0]), deltas[1..])
  }

  /** From a consistent wallet, any run of deposits and withdrawals keeps the
      ledger consistent, adds one row per movement and adds their total to
      the balance. */
  lemma {:induction false} ReplayKeepsConsistent(b: Book, deltas: seq<int>)
    requires Consistent(b)
    ensures Consistent(Replay(b, deltas))
    ensures |Replay(b, deltas).entries| == |b.entries| + |deltas|
    ensures Replay(b, deltas).balance == b.balance + SumOf(deltas)
    decreases deltas
  {
    if deltas != [] {
      ReplayKeepsConsistent(Post(b, deltas[0]), deltas[1..]);
    }
  }

  /** Starting from the default wallet, the ledger ends consistent, with one
      row per movement and the balance equal to the total of the movements. */
  lemma ReplayFromEmpty(deltas: seq<int>)
    ensures Consistent(Replay(Empty, deltas))
    ensures |Replay(Empty, deltas).entries| == |deltas|
    ensures Replay(Empty, deltas).balance == SumOf(deltas)
  {
    ReplayKeepsConsistent(Empty, deltas);
  }

  /** Total of a sequence of integers. */
  function SumOf(xs: seq<int>): int
  {
    if xs == [] then 0 else xs[0] + SumOf(xs[1..])
  }
}
