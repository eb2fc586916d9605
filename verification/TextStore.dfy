/** Commands, events and the account database as text, and how they stand for
    the integer ledger. */
module TextStore {
  import opened Decimal
  import opened Bookkeeping

  datatype Command =
    Command(txId: string, fromAccount: string, toAccount: string, amount: string, action: string)

  datatype Event = Event(action: string, account: string, amount: string, parentTxId: string)

  /** One archive appended to the event log. */
  datatype EventPair = EventPair(debit: Event, credit: Event)

  type Store = map<string, string>

  function AmountOf(cmd: Command): int {
    match Stoi(cmd.amount)
    case Some(n) => n
    case None => 0
  }

  function TransferOf(cmd: Command): Transfer {
    Transfer(cmd.txId, cmd.fromAccount, cmd.toAccount, AmountOf(cmd))
  }

  /** The commands the transfer handler builds. */
  predicate WellFormed(cmd: Command) {
    && 0 < AmountOf(cmd)
    && cmd.amount == ToString(AmountOf(cmd))
    && cmd.action == "TRANSFER"
  }

  function EventsOf(cmd: Command): EventPair {
    EventPair(
      Event(cmd.action, cmd.fromAccount, "-" + cmd.amount, cmd.txId),
      Event(cmd.action, cmd.toAccount, "+" + cmd.amount, cmd.txId))
  }

  /** Every stored balance is the canonical decimal of an `int`. */
  ghost predicate Holds(db: Store, b: Balances) {
    && db.Keys == b.Keys
    && forall k :: k in b ==> IsInt32(b[k]) && db[k] == ToString(b[k])
  }

  ghost predicate RecordsPair(pair: EventPair, t: Transfer) {
    && 0 < t.amount <= INT_MAX
    && pair.debit == Event("TRANSFER", t.src, "-" + ToString(t.amount), t.txId)
    && pair.credit == Event("TRANSFER", t.dst, "+" + ToString(t.amount), t.txId)
  }

  ghost predicate Records(log: seq<EventPair>, entries: seq<Transfer>) {
    |log| == |entries| && forall i :: 0 <= i < |log| ==> RecordsPair(log[i], entries[i])
  }

  lemma ReadBack(db: Store, b: Balances, k: string)
    requires Holds(db, b) && k in db
    ensures Stoi(db[k]) == Some(b[k])
  {
    StoiToString(b[k]);
  }

  lemma HoldsWrite(db: Store, b: Balances, k: string, v: int)
    requires Holds(db, b) && IsInt32(v)
    ensures Holds(db[k := ToString(v)], b[k := v])
  {
  }

  lemma RecordsAppend(log: seq<EventPair>, entries: seq<Transfer>, cmd: Command)
    requires Records(log, entries) && WellFormed(cmd)
    ensures Records(log + [EventsOf(cmd)], entries + [TransferOf(cmd)])
  {
  }

  /** What VALIDATE has checked when APPLY runs. */
  ghost predicate Passes(book: Book, cmd: Command) {
    && cmd.toAccount in book.balances
    && cmd.fromAccount in book.balances
    && AmountOf(cmd) <= book.balances[cmd.fromAccount]
  }

  /** The ledger's verdict on a command that passed validation. */
  lemma PerformPassed(book: Book, cmd: Command, debitOk: bool, creditOk: bool)
    requires Passes(book, cmd)
    ensures
      var b, n := book.balances, AmountOf(cmd);
      var debited := b[cmd.fromAccount := b[cmd.fromAccount] - n];
      Perform(book, Move(TransferOf(cmd), debitOk, creditOk)) ==
        if !debitOk then book
        else if !creditOk then book.(balances := debited)
        else Book(debited[cmd.toAccount := Wrap32(b[cmd.toAccount] + n)], book.entries + [TransferOf(cmd)])
  {
  }

  /** The text writes of a command that passed validation, for each outcome of
      the two `Put`s. */
  lemma WritesMatch(db: Store, log: seq<EventPair>, book: Book, cmd: Command, debitOk: bool, creditOk: bool)
    requires Holds(db, book.balances) && Records(log, book.entries)
    requires WellFormed(cmd) && Passes(book, cmd)
    ensures
      var b, n := book.balances, AmountOf(cmd);
      var debited := db[cmd.fromAccount := ToString(b[cmd.fromAccount] - n)];
      var credited := debited[cmd.toAccount := ToString(Wrap32(b[cmd.toAccount] + n))];
      var end := Perform(book, Move(TransferOf(cmd), debitOk, creditOk));
      && Holds(if !debitOk then db else if !creditOk then debited else credited, end.balances)
      && Records(if debitOk && creditOk then log + [EventsOf(cmd)] else log, end.entries)
  {
    hide Stoi, ToString, Wrap32, Perform, Records, EventsOf, TransferOf;
    PerformPassed(book, cmd, debitOk, creditOk);
    var b, n := book.balances, AmountOf(cmd);
    var low, high := b[cmd.fromAccount] - n, Wrap32(b[cmd.toAccount] + n);
    HoldsWrite(db, b, cmd.fromAccount, low);
    HoldsWrite(db[cmd.fromAccount := ToString(low)], b[cmd.fromAccount := low], cmd.toAccount, high);
    RecordsAppend(log, book.entries, cmd);
  }

  /** The integer that an event's amount text denotes. */
  function SignedAmount(e: Event): int {
    match Stoi(e.amount)
    case Some(n) => n
    case None => 0
  }

  /** Replaying the event log over the accounts in `scope`. */
  function LoggedNet(log: seq<EventPair>, scope: set<string>): int {
    if log == [] then 0 else
    var p := log[|log| - 1];
    LoggedNet(log[..|log| - 1], scope)
      + (if p.credit.account in scope then SignedAmount(p.credit) else 0)
      + (if p.debit.account in scope then SignedAmount(p.debit) else 0)
  }

  lemma {:induction false} LoggedNetIsNet(log: seq<EventPair>, entries: seq<Transfer>, scope: set<string>)
    requires Records(log, entries)
    ensures LoggedNet(log, scope) == Net(entries, scope)
  {
    if log != [] {
      var n := |log| - 1;
      LoggedNetIsNet(log[..n], entries[..n], scope);
      assert RecordsPair(log[n], entries[n]);
      StoiSigned(entries[n].amount);
    }
  }

  /** The two events of a pair carry one transaction id and cancel out. */
  ghost predicate Balanced(pair: EventPair) {
    && pair.debit.parentTxId == pair.credit.parentTxId
    && SignedAmount(pair.debit) < 0
    && SignedAmount(pair.debit) + SignedAmount(pair.credit) == 0
  }

  lemma RecordedPairsBalance(log: seq<EventPair>, entries: seq<Transfer>)
    requires Records(log, entries)
    ensures forall i :: 0 <= i < |log| ==> Balanced(log[i])
  {
    forall i | 0 <= i < |log| ensures Balanced(log[i]) {
      assert RecordsPair(log[i], entries[i]);
      StoiSigned(entries[i].amount);
    }
  }
}
