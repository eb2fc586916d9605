/** What the wallet promises, for every schedule of every set of handlers. */
module HandlerTheorems {
  import opened Decimal
  import opened Sums
  import opened Bookkeeping
  import opened TextStore
  import opened WalletService
  import opened Handlers
  import opened HandlerRequests
  import opened HandlerInvariant

  /** The integers in the store, as `stoi` reads them. */
  function ReadStore(db: Store): Balances {
    map k | k in db :: match Stoi(db[k]) case Some(n) => n case None => 0
  }

  lemma ReadStoreHolds(db: Store, b: Balances)
    requires Holds(db, b)
    ensures ReadStore(db) == b
  {
    forall k | k in db ensures ReadStore(db)[k] == b[k] {
      ReadBack(db, b, k);
    }
  }

  lemma StartIsInt32(s: State, book: Book)
    requires Init(s, book)
    ensures Int32Balances(book.balances)
  {
  }

  /** The parts of the invariant that speak about money. */
  lemma Reached(s0: State, book: Book, actions: seq<Action>)
    requires Init(s0, book) && Exec(s0, actions).Some?
    ensures
      var s := Exec(s0, actions).value;
      var end := Run(book, s.core.history);
      && Int32Balances(book.balances)
      && ValidOps(s.core.history) && FreshOpens(book, s.core.history)
      && Holds(s.core.db, Visible(HolderPc(s), end.balances, s.core.command))
      && (HolderPc(s).PutCredit? || HolderPc(s).PutDebit? ==> Passes(end, s.core.command) && 0 < AmountOf(s.core.command))
      && Knows(HolderPc(s), end, s.core.command)
      && Delivered(s.core, HolderPc(s))
  {
    hide Exec, Delivered;
    StartIsInt32(s0, book);
    EveryRunKeeps(s0, book, actions);
  }

  /** Which requests get past the checks, and what a transfer then asks for: the
      amount sent on is canonical text that reads back as the amount given. */
  lemma Admitted(request: Request)
    ensures request.CreateAccount? ==>
      var pc := Admit(request);
      if request.startAmount.Some? && Stoi(request.startAmount.value).Some? && Stoi(request.startAmount.value).value >= 0
      then pc == SeedLock(Stoi(request.startAmount.value).value)
      else pc == Finished
    ensures request.BalanceTransfer? ==>
      var pc := Admit(request);
      if request.fromAccount.Some? && request.toAccount.Some? && request.amount.Some?
         && Stoi(request.amount.value).Some? && Stoi(request.amount.value).value > 0
      then
        && pc.Send? && WellFormed(pc.command) && AmountOf(pc.command) == Stoi(request.amount.value).value
        && TransferOf(pc.command)
           == Transfer(request.txId, request.fromAccount.value, request.toAccount.value, Stoi(request.amount.value).value)
      else pc == Finished
  {
    hide Stoi;
    if Admit(request).Send? {
      StoiToString(Stoi(request.amount.value).value);
    }
  }

  /** Every interleaving is serialisable. Whenever `cv_m` is free, the store and
      the log are exactly those of the sequential ledger run of the decided
      operations; its transfers are the received commands in the order in which
      `receive` returned them, new accounts appear at their `Put`, and what was
      sent and stored is what the handlers' requests asked for. */
  lemma Serialisable(s0: State, book: Book, actions: seq<Action>)
    requires Init(s0, book) && Exec(s0, actions).Some? && Exec(s0, actions).value.cvHolder == None
    ensures
      var c := Exec(s0, actions).value.core;
      var end := Run(book, c.history);
      && Holds(c.db, end.balances) && Records(c.log, end.entries)
      && Moves(c.history) == Transfers(c.received)
      && c.phase == Listen
      && SentAsAsked(c.sent, Senders(s0, actions), actions)
      && OpenedAsAsked(Opens(c.history), Creators(s0, actions), actions)
  {
    hide Exec, AllServe, SentAsAsked, OpenedAsAsked;
    EveryRunKeeps(s0, book, actions);
  }

  /** Money that the holder of `cv_m` has debited and not yet credited. */
  function InFlight(s: State): int {
    if HolderPc(s).PutCredit? then AmountOf(s.core.command) else 0
  }

  lemma VisibleTotal(pc: Pc, b: Balances, cmd: Command)
    requires pc.PutCredit? ==> cmd.fromAccount in b
    ensures Total(Visible(pc, b, cmd)) == Total(b) - if pc.PutCredit? then AmountOf(cmd) else 0
  {
    if pc.PutCredit? {
      var v := b[cmd.fromAccount] - AmountOf(cmd);
      SumUpdate(b, b.Keys, cmd.fromAccount, v);
      assert b[cmd.fromAccount := v].Keys == b.Keys;
    }
  }

  /** Conservation at every point of every run: the stored balances, the money
      in flight, the debits stranded by failed writes and the wrapped additions
      account for exactly the starting money, the deposits and what
      self-transfers minted. */
  lemma MoneyAccounted(s0: State, book: Book, actions: seq<Action>)
    requires Init(s0, book) && Exec(s0, actions).Some?
    ensures
      var s := Exec(s0, actions).value;
      var y := TallyRun(book, s.core.history, AllAccounts(book, s.core.history));
      Total(ReadStore(s.core.db)) + InFlight(s) + y.stranded + INT_RANGE * y.overflows
        == Total(book.balances) + y.deposited + y.minted
  {
    hide Exec, Init, Holds, Delivered, FreshOpens, ValidOps, TallyRun, Visible, ReadStore, Total, Stoi;
    Reached(s0, book, actions);
    var s := Exec(s0, actions).value;
    var b := Run(book, s.core.history).balances;
    Conservation(book, s.core.history);
    ReadStoreHolds(s.core.db, Visible(HolderPc(s), b, s.core.command));
    VisibleTotal(HolderPc(s), b, s.core.command);
  }

  // ----- When money is conserved -----

  /** Some handler's second write, the credit, failed. */
  ghost predicate CreditFailed(s0: State, actions: seq<Action>)
    requires Exec(s0, actions).Some?
  {
    actions != [] &&
    var front, last := actions[..|actions| - 1], actions[|actions| - 1];
    var mid := Exec(s0, front).value;
    CreditFailed(s0, front) || (last.Go? && !last.ok && last.id in mid.threads && mid.threads[last.id].PutCredit?)
  }

  /** The history `h'` has at most one operation more than `h`, and that one is
      half applied exactly if `failed`. */
  ghost predicate Decides(book: Book, h: seq<Op>, h': seq<Op>, failed: bool) {
    || (h' == h && !failed)
    || (|h'| == |h| + 1 && h' == h + [h'[|h|]] && (HalfAppliedAt(book, h', |h|) <==> failed))
  }

  lemma OneDecision(book: Book, h: seq<Op>, op: Op)
    ensures Decides(book, h, h + [op], op.Move? && Judge(Run(book, h).balances, op).HalfApplied?)
  {
    hide Run;
    assert (h + [op])[..|h|] == h;
  }

  lemma WorkDecides(c: Core, pc: Pc, ok: bool, book: Book)
    requires Work(c, pc, ok).Some? && (pc.PutCredit? ==> Passes(Run(book, c.history), c.command))
    ensures Decides(book, c.history, Work(c, pc, ok).value.1.history, pc.PutCredit? && !ok)
  {
    hide Stoi, Wrap32, ToString, FormatId, EventsOf, Admit, Run, Decides;
    var h := c.history;
    var t := TransferOf(c.command);
    if pc.PutNew? {
      OneDecision(book, h, Open(FormatId(pc.number), pc.amount, ok));
    }
    NoDecision(book, h);
    OneDecision(book, h, Move(t, true, true));
    OneDecision(book, h, Move(t, true, false));
    OneDecision(book, h, Move(t, false, true));
  }

  lemma NoDecision(book: Book, h: seq<Op>)
    ensures Decides(book, h, h, false)
  {
  }

  /** A step decides at most one operation, and leaves it half applied exactly
      when it is a failed credit. */
  lemma StepDecides(s: State, book: Book, t: nat, ok: bool)
    requires Inv(s, book) && t in s.threads && Next(s, t, ok).Some?
    ensures Decides(book, s.core.history, Next(s, t, ok).value.core.history, s.threads[t].PutCredit? && !ok)
  {
    hide Work, Run, Records, Waiting, Delivered, Ids, Commands, Decides, FreshOpens, ValidOps, Holds;
    var pc := s.threads[t];
    if TakesLockStep(pc) {
      NoDecision(book, s.core.history);
    } else {
      assert pc.PutCredit? ==> HolderPc(s) == pc;
      WorkDecides(s.core, pc, ok, book);
    }
  }

  lemma HalfAppliedPrefix(book: Book, h: seq<Op>, op: Op)
    ensures (exists i :: 0 <= i < |h + [op]| && HalfAppliedAt(book, h + [op], i)) <==>
      (exists i :: 0 <= i < |h| && HalfAppliedAt(book, h, i)) || HalfAppliedAt(book, h + [op], |h|)
  {
    hide Run;
    var all := h + [op];
    assert forall i :: 0 <= i < |h| ==> all[..i] == h[..i] && all[i] == h[i];
    assert forall i :: 0 <= i < |h| ==> (HalfAppliedAt(book, all, i) <==> HalfAppliedAt(book, h, i));
  }

  /** A transfer is left half applied exactly when a credit failed. */
  lemma {:induction false} HalfAppliedIff(s0: State, book: Book, actions: seq<Action>)
    requires Init(s0, book) && Exec(s0, actions).Some?
    ensures
      var h := Exec(s0, actions).value.core.history;
      (exists i :: 0 <= i < |h| && HalfAppliedAt(book, h, i)) <==> CreditFailed(s0, actions)
  {
    hide Next, Inv, HalfAppliedAt, Work;
    if actions != [] {
      var front, last := actions[..|actions| - 1], actions[|actions| - 1];
      var mid := Exec(s0, front).value;
      var h, h' := mid.core.history, Exec(s0, actions).value.core.history;
      HalfAppliedIff(s0, book, front);
      if last.Go? {
        EveryRunKeeps(s0, book, front);
        StepDecides(mid, book, last.id, last.ok);
        if h' != h {
          HalfAppliedPrefix(book, h, h'[|h|]);
        }
      }
    }
  }

  ghost predicate DistinctCommands(cmds: seq<Command>) {
    forall i :: 0 <= i < |cmds| ==> cmds[i].fromAccount != cmds[i].toAccount
  }

  lemma {:induction false} MovesCovered(ops: seq<Op>, i: nat)
    requires i < |ops| && ops[i].Move?
    ensures ops[i].transfer in Moves(ops)
  {
    if i < |ops| - 1 {
      MovesCovered(ops[..|ops| - 1], i);
    }
  }

  lemma DistinctHistory(c: Core, pc: Pc)
    requires Delivered(c, pc) && DistinctCommands(c.received)
    ensures DistinctAccounts(c.history)
  {
    forall i | 0 <= i < |c.history| && c.history[i].Move?
      ensures c.history[i].transfer.src != c.history[i].transfer.dst
    {
      MovesCovered(c.history, i);
      var t := c.history[i].transfer;
      assert t in Transfers(c.received);
      var j :| 0 <= j < |c.received| && TransferOf(c.received[j]) == t;
    }
  }

  /** When commands name two accounts each, then at every point of every run,
      with any failing writes, the stored balances plus the money in flight are
      the starting money and what the completed creations asked for, exactly when
      no credit failed and every credit fitted. */
  lemma MoneyConserved(s0: State, book: Book, actions: seq<Action>)
    requires Init(s0, book) && Exec(s0, actions).Some?
    requires DistinctCommands(Exec(s0, actions).value.core.received)
    ensures
      var s := Exec(s0, actions).value;
      var h := s.core.history;
      Total(ReadStore(s.core.db)) + InFlight(s) == Total(book.balances) + DepositsAsked(s0, actions) <==>
        !CreditFailed(s0, actions) && forall i :: 0 <= i < |h| ==> CreditFitsAt(book, h, i)
  {
    hide Exec, Init, Holds, Delivered, FreshOpens, ValidOps, TallyRun, Visible, ReadStore, Total, Stoi, CreditFailed, Deposits;
    hide HalfAppliedAt, CreditFitsAt, Run, DepositsAsked, AllServe, SentAsAsked, OpenedAsAsked, Inv;
    EveryRunKeeps(s0, book, actions);
    var s := Exec(s0, actions).value;
    var b := Run(book, s.core.history).balances;
    Reached(s0, book, actions);
    DistinctHistory(s.core, HolderPc(s));
    RunConservesIff(book, s.core.history);
    HalfAppliedIff(s0, book, actions);
    ReadStoreHolds(s.core.db, Visible(HolderPc(s), b, s.core.command));
    VisibleTotal(HolderPc(s), b, s.core.command);
  }

  ghost predicate WritesSucceed(actions: seq<Action>) {
    forall i :: 0 <= i < |actions| && actions[i].Go? ==> actions[i].ok
  }

  lemma {:induction false} SuccessIsNoFailure(s0: State, actions: seq<Action>)
    requires Exec(s0, actions).Some? && WritesSucceed(actions)
    ensures !CreditFailed(s0, actions)
  {
    if actions != [] {
      SuccessIsNoFailure(s0, actions[..|actions| - 1]);
    }
  }

  /** If the money ever put in fits an `int`, then with commands that name two
      accounts each, money is conserved at every point exactly when no credit
      failed; so it is when every write succeeds. */
  lemma ConservedUnlessCreditFails(s0: State, book: Book, actions: seq<Action>)
    requires Init(s0, book) && Exec(s0, actions).Some?
    requires DistinctCommands(Exec(s0, actions).value.core.received)
    requires forall k :: k in book.balances ==> book.balances[k] >= 0
    requires Total(book.balances) + DepositsAsked(s0, actions) <= INT_MAX
    ensures
      var s := Exec(s0, actions).value;
      Total(ReadStore(s.core.db)) + InFlight(s) == Total(book.balances) + DepositsAsked(s0, actions) <==>
        !CreditFailed(s0, actions)
    ensures WritesSucceed(actions) ==> !CreditFailed(s0, actions)
  {
    hide Exec, Init, FreshOpens, ValidOps, TallyRun, ReadStore, Total, Stoi, CreditFailed, Deposits, CreditFitsAt, Run;
    hide DepositsAsked, AllServe, SentAsAsked, OpenedAsAsked, Inv;
    EveryRunKeeps(s0, book, actions);
    var h := Exec(s0, actions).value.core.history;
    var scope := AllAccounts(book, h);
    Reached(s0, book, actions);
    DepositsAre(book, h, scope);
    ArithmeticExact(s0, book, actions);
    TallyIff(book, h, scope);
    MoneyConserved(s0, book, actions);
    if WritesSucceed(actions) {
      SuccessIsNoFailure(s0, actions);
    }
  }

  // ----- Replaying the event log -----

  /** Whenever `cv_m` is free, what any set of accounts holds is what it started
      with, plus its deposits, plus the signed amounts logged since, corrected
      for half-applied debits, self-transfers and wrapped additions; and the two
      events of every logged pair share a transaction id and cancel out. */
  lemma LogReplays(s0: State, book: Book, actions: seq<Action>, scope: set<string>)
    requires Init(s0, book) && Exec(s0, actions).Some? && Exec(s0, actions).value.cvHolder == None
    ensures
      var c := Exec(s0, actions).value.core;
      var y := TallyRun(book, c.history, scope);
      && SumOn(ReadStore(c.db), scope) + y.stranded + INT_RANGE * y.overflows
           == SumOn(book.balances, scope) + y.deposited + y.minted
              + LoggedNet(c.log, scope) - LoggedNet(s0.core.log, scope)
      && forall i :: 0 <= i < |c.log| ==> Balanced(c.log[i])
  {
    StartIsInt32(s0, book);
    Serialisable(s0, book, actions);
    EveryRunKeeps(s0, book, actions);
    var c := Exec(s0, actions).value.core;
    var end := Run(book, c.history);
    AccountLaw(book, c.history, scope);
    ReadStoreHolds(c.db, end.balances);
    LoggedNetIsNet(c.log, end.entries, scope);
    LoggedNetIsNet(s0.core.log, book.entries, scope);
    RecordedPairsBalance(c.log, end.entries);
  }

  /** The same for one account whose transfers were all between two accounts:
      only its half-applied debits separate it from the log. */
  lemma AccountReplays(s0: State, book: Book, actions: seq<Action>, a: string)
    requires Init(s0, book) && Exec(s0, actions).Some? && Exec(s0, actions).value.cvHolder == None
    requires DistinctCommands(Exec(s0, actions).value.core.received)
    requires TallyRun(book, Exec(s0, actions).value.core.history, {a}).overflows == 0
    requires a in Exec(s0, actions).value.core.db
    ensures
      var c := Exec(s0, actions).value.core;
      var y := TallyRun(book, c.history, {a});
      Stoi(c.db[a]) == Some(Sums.At(book.balances, a) + y.deposited
        + LoggedNet(c.log, {a}) - LoggedNet(s0.core.log, {a}) - y.stranded)
  {
    hide Exec, Init, Delivered, FreshOpens, ValidOps, TallyRun, ReadStore, SumOn, LoggedNet, Stoi, Run;
    var s := Exec(s0, actions).value;
    Reached(s0, book, actions);
    Serialisable(s0, book, actions);
    LogReplays(s0, book, actions, {a});
    DistinctHistory(s.core, HolderPc(s));
    TallyOfDistinct(book, s.core.history, {a});
    var b := Run(book, s.core.history).balances;
    ReadStoreHolds(s.core.db, b);
    ReadBack(s.core.db, b, a);
    SumOfOne(b, a);
    SumOfOne(book.balances, a);
  }

  // ----- Balances stay within bounds -----

  /** No stored balance is negative at any point of any run, unless an addition
      to that account wrapped around. */
  lemma StoredNonNegative(s0: State, book: Book, actions: seq<Action>, a: string)
    requires Init(s0, book) && Exec(s0, actions).Some?
    requires NonNegativeOn(book.balances, {a})
    requires TallyRun(book, Exec(s0, actions).value.core.history, {a}).overflows == 0
    requires a in Exec(s0, actions).value.core.db
    ensures Stoi(Exec(s0, actions).value.core.db[a]).Some?
    ensures Stoi(Exec(s0, actions).value.core.db[a]).value >= 0
  {
    hide Exec, Init, Delivered, FreshOpens, ValidOps, TallyRun, Stoi, Run;
    Reached(s0, book, actions);
    var s := Exec(s0, actions).value;
    NonNegative(book, s.core.history, {a});
    ReadBack(s.core.db, Visible(HolderPc(s), Run(book, s.core.history).balances, s.core.command), a);
  }

  /** If the money ever put in fits an `int` and every command names two
      accounts, then whatever writes fail, the two sums a handler is about to
      write are the exact results and fit an `int`. */
  lemma ArithmeticExact(s0: State, book: Book, actions: seq<Action>)
    requires Init(s0, book) && Exec(s0, actions).Some?
    requires DistinctCommands(Exec(s0, actions).value.core.received)
    requires forall k :: k in book.balances ==> book.balances[k] >= 0
    requires
      var h := Exec(s0, actions).value.core.history;
      Total(book.balances) + TallyRun(book, h, AllAccounts(book, h)).deposited <= INT_MAX
    ensures
      var s := Exec(s0, actions).value;
      && TallyRun(book, s.core.history, AllAccounts(book, s.core.history)).overflows == 0
      && (HolderPc(s).PutDebit? ==>
            var b, n := ReadStore(s.core.db), AmountOf(s.core.command);
            && s.core.command.fromAccount in b && s.core.command.toAccount in b
            && HolderPc(s).balance1 == b[s.core.command.fromAccount] - n >= 0
            && HolderPc(s).balance2 == b[s.core.command.toAccount] + n <= INT_MAX)
  {
    hide Exec, Init, FreshOpens, ValidOps, TallyRun, Run, Stoi, Total, Wrap32;
    Reached(s0, book, actions);
    var s := Exec(s0, actions).value;
    var scope, b := AllAccounts(book, s.core.history), Run(book, s.core.history).balances;
    DistinctHistory(s.core, HolderPc(s));
    NoOverflow(book, s.core.history, scope);
    CoversRun(book, s.core.history, scope);
    ReadStoreHolds(s.core.db, Visible(HolderPc(s), b, s.core.command));
    if HolderPc(s).PutDebit? {
      CurrentIsReceived(s.core, HolderPc(s));
      SumFits(b, s.core.command);
    }
  }

  lemma SumFits(b: Balances, cmd: Command)
    requires cmd.fromAccount in b && cmd.toAccount in b && cmd.fromAccount != cmd.toAccount
    requires 0 <= AmountOf(cmd) <= b[cmd.fromAccount] && Total(b) <= INT_MAX
    requires forall k :: k in b ==> b[k] >= 0
    ensures b[cmd.toAccount] + AmountOf(cmd) <= INT_MAX
    ensures Wrap32(b[cmd.toAccount] + AmountOf(cmd)) == b[cmd.toAccount] + AmountOf(cmd)
  {
    SumAtLeast(b, b.Keys, cmd.fromAccount, cmd.toAccount);
  }

  lemma CurrentIsReceived(c: Core, pc: Pc)
    requires Delivered(c, pc) && Undecided(pc) && DistinctCommands(c.received)
    ensures c.command.fromAccount != c.command.toAccount
  {
    var last := TransferOf(c.command);
    assert Transfers(c.received)[|Moves(c.history)|] == last;
    assert TransferOf(c.received[|Moves(c.history)|]) == last;
  }

  // ----- Accounts -----

  /** Creating an account never overwrites one, and no other step adds or
      removes an account. */
  lemma AccountsOnlyGrow(s: State, book: Book, t: nat, ok: bool)
    requires Inv(s, book) && t in s.threads && Next(s, t, ok).Some?
    ensures
      var db, db' := s.core.db, Next(s, t, ok).value.core.db;
      if s.threads[t].PutNew? && ok then
        var id := FormatId(s.threads[t].number);
        id !in db && db'.Keys == db.Keys + {id} && forall k :: k in db ==> db'[k] == db[k]
      else db'.Keys == db.Keys
  {
    hide Stoi, Wrap32, ToString, FormatId, Run, FreshOpens, Records, Waiting, Transfers, Moves, WellFormed, IdNumber, ValidateStep, ApplyStep, Refines, Delivered;
    var pc := s.threads[t];
    assert NumberFits(pc, s.core) && CommandFits(pc, s.core);
    hide Refines, Ids, Delivered;
    if HasLock(pc) && !TakesLockStep(pc) {
      HolderRefines(s.core, pc, ok, book);
    }
  }
}
