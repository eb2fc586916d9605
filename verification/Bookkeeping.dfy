/** The integer ledger that the wallet's text store stands for, and the laws of
    its sequential runs. An operation records the outcome of each database
    write it attempts. */
module Bookkeeping {
  import opened Decimal
  import opened Sums

  datatype Transfer = Transfer(txId: string, src: string, dst: string, amount: int)

  datatype Op =
    | Open(id: string, amount: int, stored: bool)
    | Move(transfer: Transfer, debitOk: bool, creditOk: bool)

  type Balances = map<string, int>

  datatype Book = Book(balances: Balances, entries: seq<Transfer>)

  datatype Verdict = UnknownTarget | UnknownSource | TooLow | NotDebited | HalfApplied | Applied

  function Judge(b: Balances, op: Op): Verdict
    requires op.Move?
  {
    var t := op.transfer;
    if t.dst !in b then UnknownTarget
    else if t.src !in b then UnknownSource
    else if b[t.src] < t.amount then TooLow
    else if !op.debitOk then NotDebited
    else if !op.creditOk then HalfApplied
    else Applied
  }

  /** Both new balances are computed from the balances before either write. */
  function Perform(book: Book, op: Op): Book {
    var b := book.balances;
    match op
    case Open(id, amount, stored) =>
      if stored then book.(balances := b[id := amount]) else book
    case Move(t, _, _) =>
      match Judge(b, op)
      case Applied =>
        Book(b[t.src := b[t.src] - t.amount][t.dst := Wrap32(b[t.dst] + t.amount)], book.entries + [t])
      case HalfApplied =>
        book.(balances := b[t.src := b[t.src] - t.amount])
      case _ => book
  }

  function Run(book: Book, ops: seq<Op>): Book {
    if ops == [] then book else Perform(Run(book, ops[..|ops| - 1]), ops[|ops| - 1])
  }

  predicate ValidOp(op: Op) {
    match op
    case Open(_, amount, _) => 0 <= amount <= INT_MAX
    case Move(t, _, _) => 0 < t.amount <= INT_MAX
  }

  ghost predicate ValidOps(ops: seq<Op>) {
    forall i :: 0 <= i < |ops| ==> ValidOp(ops[i])
  }

  /** Every account is deposited under an identifier that is not in use. */
  ghost predicate FreshOpens(book: Book, ops: seq<Op>) {
    forall i :: 0 <= i < |ops| && ops[i].Open? ==> ops[i].id !in Run(book, ops[..i]).balances
  }

  ghost predicate DistinctAccounts(ops: seq<Op>) {
    forall i :: 0 <= i < |ops| && ops[i].Move? ==> ops[i].transfer.src != ops[i].transfer.dst
  }

  ghost predicate Int32Balances(b: Balances) {
    forall k :: k in b ==> IsInt32(b[k])
  }

  // ----- What a run adds up to -----

  /** What one operation does to the accounts in `scope` beyond moving money
      between accounts: money `deposited`, debits `stranded` by a failed second
      write, money `minted` by a transfer from an account to itself, and
      additions that wrapped around. */
  datatype Tally = Tally(deposited: int, stranded: int, minted: int, overflows: nat) {
    function Plus(that: Tally): Tally {
      Tally(deposited + that.deposited, stranded + that.stranded, minted + that.minted, overflows + that.overflows)
    }
  }

  const NO_TALLY := Tally(0, 0, 0, 0)

  function TallyOp(b: Balances, op: Op, scope: set<string>): Tally {
    match op
    case Open(id, amount, stored) =>
      Tally(if stored && id in scope then amount else 0, 0, 0, 0)
    case Move(t, _, _) =>
      match Judge(b, op)
      case Applied => Tally(0, 0,
        if t.src == t.dst && t.dst in scope then t.amount else 0,
        if t.dst in scope && b[t.dst] + t.amount > INT_MAX then 1 else 0)
      case HalfApplied => Tally(0, if t.src in scope then t.amount else 0, 0, 0)
      case _ => NO_TALLY
  }

  function TallyRun(book: Book, ops: seq<Op>, scope: set<string>): Tally {
    if ops == [] then NO_TALLY else
    var front := ops[..|ops| - 1];
    TallyRun(book, front, scope).Plus(TallyOp(Run(book, front).balances, ops[|ops| - 1], scope))
  }

  /** The net amount that logged transfers bring into `scope`. */
  function Net(entries: seq<Transfer>, scope: set<string>): int {
    if entries == [] then 0 else
    var t := entries[|entries| - 1];
    Net(entries[..|entries| - 1], scope)
      + (if t.dst in scope then t.amount else 0)
      - (if t.src in scope then t.amount else 0)
  }

  lemma NetAppend(entries: seq<Transfer>, t: Transfer, scope: set<string>)
    ensures Net(entries + [t], scope) == Net(entries, scope)
      + (if t.dst in scope then t.amount else 0) - (if t.src in scope then t.amount else 0)
  {
    assert (entries + [t])[..|entries|] == entries;
  }

  lemma {:induction false} BalancesStayInt32(book: Book, ops: seq<Op>)
    requires Int32Balances(book.balances) && ValidOps(ops)
    ensures Int32Balances(Run(book, ops).balances)
  {
    if ops != [] {
      BalancesStayInt32(book, ops[..|ops| - 1]);
    }
  }

  lemma WrapSum(x: int, amount: int)
    requires IsInt32(x) && 0 < amount <= INT_MAX
    ensures Wrap32(x + amount) == x + amount - if x + amount > INT_MAX then INT_RANGE else 0
  {
  }

  /** Both writes of an applied transfer, seen from any set of accounts. */
  lemma AppliedSum(b: Balances, t: Transfer, scope: set<string>)
    requires Int32Balances(b) && t.src in b && t.dst in b && 0 < t.amount <= INT_MAX
    ensures
      var after := b[t.src := b[t.src] - t.amount][t.dst := Wrap32(b[t.dst] + t.amount)];
      SumOn(after, scope) == SumOn(b, scope)
        - (if t.src in scope && t.src != t.dst then t.amount else 0)
        + (if t.dst in scope then t.amount else 0)
        - (if t.dst in scope && b[t.dst] + t.amount > INT_MAX then INT_RANGE else 0)
  {
    WrapSum(b[t.dst], t.amount);
    hide Wrap32;
    SumUpdate(b, scope, t.src, b[t.src] - t.amount);
    SumUpdate(b[t.src := b[t.src] - t.amount], scope, t.dst, Wrap32(b[t.dst] + t.amount));
  }

  /** One operation, any set of accounts. */
  lemma AccountLawStep(book: Book, op: Op, scope: set<string>)
    requires Int32Balances(book.balances) && ValidOp(op)
    requires op.Open? ==> op.id !in book.balances
    ensures
      var next, y := Perform(book, op), TallyOp(book.balances, op, scope);
      SumOn(next.balances, scope) - Net(next.entries, scope) + y.stranded + INT_RANGE * y.overflows
        == SumOn(book.balances, scope) - Net(book.entries, scope) + y.deposited + y.minted
  {
    hide Wrap32, SumOn, Net;
    var b := book.balances;
    match op
    case Open(id, amount, stored) =>
      SumUpdate(b, scope, id, amount);
    case Move(t, _, _) =>
      if Judge(b, op).HalfApplied? {
        SumUpdate(b, scope, t.src, b[t.src] - t.amount);
      } else if Judge(b, op).Applied? {
        AppliedSum(b, t, scope);
        NetAppend(book.entries, t, scope);
      }
  }

  /** The account law. For every run and every set of accounts, what the set
      holds is what it started with, plus what was deposited, plus the net of the
      logged transfers, minus half-applied debits, plus what self-transfers
      minted, minus 2^32 for each wrapped addition. */
  lemma {:induction false} AccountLaw(book: Book, ops: seq<Op>, scope: set<string>)
    requires Int32Balances(book.balances) && ValidOps(ops) && FreshOpens(book, ops)
    ensures
      var end, y := Run(book, ops), TallyRun(book, ops, scope);
      SumOn(end.balances, scope) - Net(end.entries, scope) + y.stranded + INT_RANGE * y.overflows
        == SumOn(book.balances, scope) - Net(book.entries, scope) + y.deposited + y.minted
  {
    if ops != [] {
      var front := ops[..|ops| - 1];
      FreshPrefix(book, ops);
      AccountLaw(book, front, scope);
      BalancesStayInt32(book, front);
      AccountLawStep(Run(book, front), ops[|ops| - 1], scope);
    }
  }

  lemma FreshPrefix(book: Book, ops: seq<Op>)
    requires FreshOpens(book, ops) && ops != []
    ensures FreshOpens(book, ops[..|ops| - 1])
    ensures ops[|ops| - 1].Open? ==> ops[|ops| - 1].id !in Run(book, ops[..|ops| - 1]).balances
  {
    var front := ops[..|ops| - 1];
    forall i | 0 <= i < |front| && front[i].Open?
      ensures front[i].id !in Run(book, front[..i]).balances
    {
      assert front[..i] == ops[..i];
    }
  }

  // ----- Consequences -----

  ghost predicate NonNegativeOn(b: Balances, scope: set<string>) {
    forall k :: k in b && k in scope ==> b[k] >= 0
  }

  lemma NonNegativeStep(book: Book, op: Op, scope: set<string>)
    requires Int32Balances(book.balances) && ValidOp(op)
    requires NonNegativeOn(book.balances, scope) && TallyOp(book.balances, op, scope).overflows == 0
    ensures NonNegativeOn(Perform(book, op).balances, scope)
  {
    if op.Move? && Judge(book.balances, op).Applied? {
      WrapSum(book.balances[op.transfer.dst], op.transfer.amount);
    }
    hide Wrap32;
  }

  /** No balance in `scope` becomes negative unless an addition to an account in
      `scope` wrapped around; failed writes and self-transfers do not matter. */
  lemma {:induction false} NonNegative(book: Book, ops: seq<Op>, scope: set<string>)
    requires Int32Balances(book.balances) && ValidOps(ops)
    requires NonNegativeOn(book.balances, scope)
    requires TallyRun(book, ops, scope).overflows == 0
    ensures NonNegativeOn(Run(book, ops).balances, scope)
  {
    hide TallyOp, Perform, NonNegativeOn;
    if ops != [] {
      var front := ops[..|ops| - 1];
      NonNegative(book, front, scope);
      BalancesStayInt32(book, front);
      NonNegativeStep(Run(book, front), ops[|ops| - 1], scope);
    }
  }

  function OpAccounts(op: Op): set<string> {
    match op
    case Open(id, _, _) => {id}
    case Move(t, _, _) => {t.src, t.dst}
  }

  ghost predicate Covers(book: Book, ops: seq<Op>, scope: set<string>) {
    && book.balances.Keys <= scope
    && forall i :: 0 <= i < |ops| ==> OpAccounts(ops[i]) <= scope
  }

  lemma {:induction false} CoversRun(book: Book, ops: seq<Op>, scope: set<string>)
    requires Covers(book, ops, scope)
    ensures Run(book, ops).balances.Keys <= scope
    ensures Net(Run(book, ops).entries, scope) == Net(book.entries, scope)
  {
    if ops != [] {
      var front, op := ops[..|ops| - 1], ops[|ops| - 1];
      CoversRun(book, front, scope);
      assert OpAccounts(ops[|ops| - 1]) <= scope;
      if op.Move? {
        NetAppend(Run(book, front).entries, op.transfer, scope);
      }
    }
  }

  ghost function AllAccounts(book: Book, ops: seq<Op>): (scope: set<string>)
    ensures Covers(book, ops, scope)
  {
    book.balances.Keys + (set i, a | 0 <= i < |ops| && a in OpAccounts(ops[i]) :: a)
  }

  /** Conservation over the whole book, exactly. */
  lemma Conservation(book: Book, ops: seq<Op>)
    requires Int32Balances(book.balances) && ValidOps(ops) && FreshOpens(book, ops)
    ensures
      var y := TallyRun(book, ops, AllAccounts(book, ops));
      Total(Run(book, ops).balances) + y.stranded + INT_RANGE * y.overflows
        == Total(book.balances) + y.deposited + y.minted
  {
    var scope := AllAccounts(book, ops);
    AccountLaw(book, ops, scope);
    CoversRun(book, ops, scope);
    SumSupport(book.balances, scope);
    SumSupport(Run(book, ops).balances, scope);
  }

  lemma {:induction false} TallyOfDistinct(book: Book, ops: seq<Op>, scope: set<string>)
    requires DistinctAccounts(ops) && ValidOps(ops)
    ensures TallyRun(book, ops, scope).minted == 0
    ensures TallyRun(book, ops, scope).stranded >= 0
    ensures TallyRun(book, ops, scope).deposited >= 0
  {
    if ops != [] {
      TallyOfDistinct(book, ops[..|ops| - 1], scope);
    }
  }

  /** A transfer between two accounts cannot wrap while the total fits. */
  lemma FitsStep(b: Balances, op: Op, scope: set<string>)
    requires ValidOp(op) && NonNegativeOn(b, scope) && b.Keys <= scope
    requires op.Move? ==> op.transfer.src != op.transfer.dst
    requires Total(b) <= INT_MAX
    ensures TallyOp(b, op, scope).overflows == 0
  {
    hide SumOn;
    if op.Move? && Judge(b, op).Applied? {
      SumSupport(b, scope);
      SumAtLeast(b, scope, op.transfer.src, op.transfer.dst);
    }
  }

  /** When the money ever put in fits an `int` and no transfer names one account
      twice, no addition wraps, whatever writes fail. */
  lemma {:induction false} NoOverflow(book: Book, ops: seq<Op>, scope: set<string>)
    requires Int32Balances(book.balances) && ValidOps(ops) && FreshOpens(book, ops)
    requires NonNegativeOn(book.balances, scope) && Covers(book, ops, scope) && DistinctAccounts(ops)
    requires Total(book.balances) + TallyRun(book, ops, scope).deposited <= INT_MAX
    ensures TallyRun(book, ops, scope).overflows == 0
    ensures NonNegativeOn(Run(book, ops).balances, scope)
    ensures Total(Run(book, ops).balances) <= INT_MAX
  {
    hide Perform, SumOn, Net, NonNegativeOn;
    SumSupport(book.balances, scope);
    if ops != [] {
      var front, op := ops[..|ops| - 1], ops[|ops| - 1];
      FreshPrefix(book, ops);
      TallyOfDistinct(book, ops, scope);
      assert TallyRun(book, ops, scope).deposited >= TallyRun(book, front, scope).deposited by {
        assert ValidOp(op);
      }
      NoOverflow(book, front, scope);
      CoversRun(book, front, scope);
      FitsStep(Run(book, front).balances, op, scope);
      NonNegative(book, ops, scope);
      TotalFits(book, ops, scope);
    }
  }

  lemma TotalFits(book: Book, ops: seq<Op>, scope: set<string>)
    requires Int32Balances(book.balances) && ValidOps(ops) && FreshOpens(book, ops)
    requires Covers(book, ops, scope) && DistinctAccounts(ops) && TallyRun(book, ops, scope).overflows == 0
    ensures Total(Run(book, ops).balances) <= Total(book.balances) + TallyRun(book, ops, scope).deposited
  {
    hide Perform, SumOn, Net, TallyRun, Run, FreshOpens, ValidOps;
    AccountLaw(book, ops, scope);
    TallyOfDistinct(book, ops, scope);
    CoversRun(book, ops, scope);
    SumSupport(book.balances, scope);
    SumSupport(Run(book, ops).balances, scope);
  }

  // ----- When money is conserved -----

  /** The credit of a transfer that goes through fits an `int`. */
  predicate CreditFits(b: Balances, op: Op)
    requires op.Move?
  {
    Judge(b, op).Applied? ==> b[op.transfer.dst] + op.transfer.amount <= INT_MAX
  }

  /** A transfer that passes the checks and whose debit is written is also
      credited, to another account, without wrapping around. */
  predicate Clean(b: Balances, op: Op)
    requires op.Move?
  {
    !Judge(b, op).HalfApplied? && (Judge(b, op).Applied? ==> op.transfer.src != op.transfer.dst) && CreditFits(b, op)
  }

  /** A transfer of any kind, with any outcome of its writes, keeps the total
      exactly when it is clean. */
  lemma TransferConservesIff(book: Book, op: Op)
    requires Int32Balances(book.balances) && ValidOp(op) && op.Move?
    ensures Total(Perform(book, op).balances) == Total(book.balances) <==> Clean(book.balances, op)
  {
    var scope := book.balances.Keys;
    AccountLawStep(book, op, scope);
    NetAppend(book.entries, op.transfer, scope);
    SumSupport(Perform(book, op).balances, scope);
  }

  /** The money that stored account creations put in. */
  function Deposits(ops: seq<Op>): int {
    if ops == [] then 0 else
    Deposits(ops[..|ops| - 1]) + match ops[|ops| - 1] case Open(_, amount, stored) => if stored then amount else 0 case Move(_, _, _) => 0
  }

  lemma {:induction false} DepositsAre(book: Book, ops: seq<Op>, scope: set<string>)
    requires Covers(book, ops, scope)
    ensures TallyRun(book, ops, scope).deposited == Deposits(ops)
  {
    if ops != [] {
      DepositsAre(book, ops[..|ops| - 1], scope);
      assert OpAccounts(ops[|ops| - 1]) <= scope;
    }
  }

  /** The operation at `i` leaves a debit without its credit. */
  predicate HalfAppliedAt(book: Book, ops: seq<Op>, i: nat)
    requires i < |ops|
  {
    ops[i].Move? && Judge(Run(book, ops[..i]).balances, ops[i]).HalfApplied?
  }

  predicate CreditFitsAt(book: Book, ops: seq<Op>, i: nat)
    requires i < |ops|
  {
    ops[i].Move? ==> CreditFits(Run(book, ops[..i]).balances, ops[i])
  }

  /** Stranded money and wrapped additions come from half-applied transfers and
      from credits that do not fit, and from nothing else. */
  lemma {:induction false} TallyIff(book: Book, ops: seq<Op>, scope: set<string>)
    requires Covers(book, ops, scope) && ValidOps(ops)
    ensures TallyRun(book, ops, scope).stranded >= 0
    ensures TallyRun(book, ops, scope).stranded == 0 <==> forall i :: 0 <= i < |ops| ==> !HalfAppliedAt(book, ops, i)
    ensures TallyRun(book, ops, scope).overflows == 0 <==> forall i :: 0 <= i < |ops| ==> CreditFitsAt(book, ops, i)
  {
    hide Run;
    if ops != [] {
      var k := |ops| - 1;
      var front := ops[..k];
      TallyIff(book, front, scope);
      assert ValidOp(ops[k]) && OpAccounts(ops[k]) <= scope;
      forall i | 0 <= i < k ensures front[..i] == ops[..i] && front[i] == ops[i] {
      }
      assert forall i :: 0 <= i < k ==> (HalfAppliedAt(book, ops, i) <==> HalfAppliedAt(book, front, i));
      assert forall i :: 0 <= i < k ==> (CreditFitsAt(book, ops, i) <==> CreditFitsAt(book, front, i));
      assert HalfAppliedAt(book, ops, k) <==> TallyOp(Run(book, front).balances, ops[k], scope).stranded != 0;
      assert CreditFitsAt(book, ops, k) <==> TallyOp(Run(book, front).balances, ops[k], scope).overflows == 0;
    }
  }

  /** Over a whole run of transfers between two accounts each, with any failing
      writes, the total is the money put in exactly when no transfer was left
      half applied and every credit fitted. */
  lemma RunConservesIff(book: Book, ops: seq<Op>)
    requires Int32Balances(book.balances) && ValidOps(ops) && FreshOpens(book, ops) && DistinctAccounts(ops)
    ensures Total(Run(book, ops).balances) == Total(book.balances) + Deposits(ops) <==>
      forall i :: 0 <= i < |ops| ==> !HalfAppliedAt(book, ops, i) && CreditFitsAt(book, ops, i)
  {
    hide TallyRun, Run, FreshOpens, ValidOps, DistinctAccounts, Total, Deposits, HalfAppliedAt, CreditFitsAt;
    var scope := AllAccounts(book, ops);
    Conservation(book, ops);
    TallyOfDistinct(book, ops, scope);
    TallyIff(book, ops, scope);
    DepositsAre(book, ops, scope);
  }

  /** Crediting an account leaves it non-negative exactly when the sum fits. */
  lemma CreditNonNegativeIff(book: Book, op: Op)
    requires Int32Balances(book.balances) && ValidOp(op)
    requires op.Move? && Judge(book.balances, op).Applied? && book.balances[op.transfer.dst] >= 0
    ensures Perform(book, op).balances[op.transfer.dst] >= 0
      <==> book.balances[op.transfer.dst] + op.transfer.amount <= INT_MAX
  {
    WrapSum(book.balances[op.transfer.dst], op.transfer.amount);
  }

  /** A transfer from an account to itself adds the amount to it. */
  lemma SelfTransferMints()
    ensures
      var t := Transfer("tx", "700000001", "700000001", 5);
      Run(Book(map["700000001" := 10], []), [Move(t, true, true)]).balances == map["700000001" := 15]
  {
    var t := Transfer("tx", "700000001", "700000001", 5);
    var book := Book(map["700000001" := 10], []);
    assert [Move(t, true, true)][..0] == [];
    assert Run(book, []) == book;
  }
}
