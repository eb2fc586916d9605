/** The invariant of every interleaving of the handlers. */
module HandlerInvariant {
  import opened Decimal
  import opened Bookkeeping
  import opened TextStore
  import opened WalletService
  import opened Handlers
  import opened HandlerRequests

  /** Where the handler that holds `cv_m` is; `Finished` when it is free. */
  function HolderPc(s: State): Pc {
    if s.cvHolder.Some? && s.cvHolder.value in s.threads then s.threads[s.cvHolder.value] else Finished
  }

  predicate PhaseAt(pc: Pc, phase: Phase) {
    if Validating(pc) then phase == Validate
    else if Applying(pc) then phase == Apply
    else pc.Leave? || pc.Throwing? || phase == Listen
  }

  /** Both locks exclude, nobody is parked, and the phase follows the holder:
      in particular it is LISTEN whenever `cv_m` is free. */
  ghost predicate Locks(s: State) {
    && (s.cvHolder.Some? ==> s.cvHolder.value in s.threads)
    && (s.seedHolder.Some? ==> s.seedHolder.value in s.threads)
    && (forall t :: t in s.threads ==>
          && (HasLock(s.threads[t]) <==> s.cvHolder == Some(t))
          && (HasSeedLock(s.threads[t]) <==> s.seedHolder == Some(t))
          && !s.threads[t].Parked?)
    && PhaseAt(HolderPc(s), s.core.phase)
  }

  /** Every command anywhere is one the transfer handler built. */
  ghost predicate Commands(s: State) {
    && (forall i :: 0 <= i < |s.core.queue| ==> WellFormed(s.core.queue[i]))
    && (forall t :: t in s.threads && s.threads[t].Send? ==> WellFormed(s.threads[t].command))
    && (Validating(HolderPc(s)) || Applying(HolderPc(s)) ==> WellFormed(s.core.command))
  }

  predicate HasNumber(pc: Pc) {
    pc.SeedUnlock? || pc.PutNew?
  }

  predicate AmountFits(pc: Pc) {
    pc.SeedLock? || pc.SeedRead? || pc.SeedWrite? || HasNumber(pc) ==> 0 <= pc.amount <= INT_MAX
  }

  ghost predicate NumberFits(pc: Pc, c: Core) {
    && AmountFits(pc)
    && (pc.SeedWrite? ==> pc.number == c.Seed() + 1)
    && (HasNumber(pc) ==> 1 <= pc.number <= c.Seed() && FormatId(pc.number) !in c.db)
  }

  predicate Clash(p: Pc, q: Pc) {
    HasNumber(p) && HasNumber(q) && p.number == q.number
  }

  /** Stored and allocated identifiers are distinct counter values up to the
      seed. */
  ghost predicate Ids(s: State) {
    && IdsBelowSeed(s.core)
    && (forall t :: t in s.threads ==> NumberFits(s.threads[t], s.core))
    && (forall t, u :: t in s.threads && u in s.threads && t != u ==> !Clash(s.threads[t], s.threads[u]))
  }

  /** What the holder's local values mean in terms of the decided balances. */
  ghost predicate Knows(pc: Pc, book: Book, cmd: Command) {
    var b := book.balances;
    match pc
    case GetFrom => cmd.toAccount in b
    case GetDebited => Passes(book, cmd)
    case GetCredited(a) => Passes(book, cmd) && a == b[cmd.fromAccount]
    case PutDebit(b1, b2) =>
      Passes(book, cmd) && b1 == b[cmd.fromAccount] - AmountOf(cmd) && b2 == Wrap32(b[cmd.toAccount] + AmountOf(cmd))
    case PutCredit(b2) => Passes(book, cmd) && b2 == Wrap32(b[cmd.toAccount] + AmountOf(cmd))
    case Throwing => false
    case _ => true
  }

  /** The balances a reader of the store sees: between its two writes the
      holder's debit is visible and its credit is not. */
  ghost function Visible(pc: Pc, b: Balances, cmd: Command): Balances {
    if pc.PutCredit? && cmd.fromAccount in b then b[cmd.fromAccount := b[cmd.fromAccount] - AmountOf(cmd)] else b
  }

  ghost function Logged(pc: Pc, c: Core): seq<EventPair> {
    if pc.Append? then c.log + [EventsOf(c.command)] else c.log
  }

  /** The store and the log are those of the sequential run of the decided
      operations, up to the unfinished writes of the holder at `pc`. */
  ghost predicate Refines(c: Core, pc: Pc, book: Book) {
    var end := Run(book, c.history);
    && ValidOps(c.history) && FreshOpens(book, c.history)
    && Holds(c.db, Visible(pc, end.balances, c.command))
    && Records(Logged(pc, c), end.entries)
    && Knows(pc, end, c.command)
  }

  function Transfers(commands: seq<Command>): seq<Transfer> {
    seq(|commands|, i requires 0 <= i < |commands| => TransferOf(commands[i]))
  }

  function Moves(ops: seq<Op>): seq<Transfer> {
    if ops == [] then [] else
    Moves(ops[..|ops| - 1]) + match ops[|ops| - 1] case Move(t, _, _) => [t] case Open(_, _, _) => []
  }

  predicate Undecided(pc: Pc) {
    Validating(pc) || (Applying(pc) && !pc.Append?)
  }

  /** Every command sent is either queued or was received, once. */
  ghost predicate Kept(c: Core) {
    multiset(c.sent) == multiset(c.queue) + multiset(c.received)
  }

  /** The commands decided are those received, in that order. */
  ghost predicate InOrder(c: Core, pc: Pc) {
    Transfers(c.received) == if Undecided(pc) then Moves(c.history) + [TransferOf(c.command)] else Moves(c.history)
  }

  ghost predicate Delivered(c: Core, pc: Pc) {
    Kept(c) && InOrder(c, pc)
  }

  ghost function Waiting(threads: map<nat, Pc>): set<nat> {
    set t | t in threads && Awaiting(threads[t])
  }

  ghost predicate Inv(s: State, book: Book) {
    && Locks(s) && Commands(s) && Ids(s)
    && Refines(s.core, HolderPc(s), book)
    && Delivered(s.core, HolderPc(s))
    && |s.core.queue| == |Waiting(s.threads)|
  }

  // ----- Auxiliary facts -----

  lemma RunAppend(book: Book, ops: seq<Op>, op: Op)
    ensures Run(book, ops + [op]) == Perform(Run(book, ops), op)
    ensures FreshOpens(book, ops) && (op.Open? ==> op.id !in Run(book, ops).balances) ==> FreshOpens(book, ops + [op])
    ensures Moves(ops + [op]) == Moves(ops) + if op.Move? then [op.transfer] else []
  {
    var all := ops + [op];
    assert all[..|ops|] == ops;
    if FreshOpens(book, ops) && (op.Open? ==> op.id !in Run(book, ops).balances) {
      forall i | 0 <= i < |all| && all[i].Open? ensures all[i].id !in Run(book, all[..i]).balances {
        assert i < |ops| ==> all[..i] == ops[..i];
      }
    }
  }

  lemma AdmitFits(request: Request)
    ensures Admit(request).Send? ==> WellFormed(Admit(request).command)
    ensures AmountFits(Admit(request)) && !HasNumber(Admit(request)) && !Admit(request).SeedWrite?
    ensures !Awaiting(Admit(request)) && !HasLock(Admit(request)) && !HasSeedLock(Admit(request))
  {
    hide Stoi;
    if Admit(request).Send? {
      StoiToString(Stoi(request.amount.value).value);
    }
  }

  lemma WakeNobody(threads: map<nat, Pc>)
    requires forall t :: t in threads ==> !threads[t].Parked?
    ensures Wake(threads) == threads
  {
  }

  // ----- One step: threads and locks -----

  /** How a step moves its handler and the two locks. */
  ghost predicate Moved(s: State, s': State, t: nat)
    requires t in s.threads
  {
    && t in s'.threads && s'.threads == s.threads[t := s'.threads[t]] && !s'.threads[t].Parked?
    && (HasLock(s'.threads[t]) <==> s'.cvHolder == Some(t))
    && (HasSeedLock(s'.threads[t]) <==> s'.seedHolder == Some(t))
    && (s'.cvHolder != s.cvHolder ==> {s.cvHolder, s'.cvHolder} == {None, Some(t)})
    && (s'.seedHolder != s.seedHolder ==> {s.seedHolder, s'.seedHolder} == {None, Some(t)})
    && PhaseAt(HolderPc(s'), s'.core.phase)
  }

  lemma WorkKeepsLocks(c: Core, pc: Pc, ok: bool)
    requires Work(c, pc, ok).Some?
    ensures
      var (pc', c') := Work(c, pc, ok).value;
      && (HasLock(pc') <==> HasLock(pc)) && (HasSeedLock(pc') <==> HasSeedLock(pc)) && !pc'.Parked?
      && (if HasLock(pc) then PhaseAt(pc, c.phase) ==> PhaseAt(pc', c'.phase) else c'.phase == c.phase)
      && |c'.queue| + (if Awaiting(pc) then 1 else 0) == |c.queue| + (if Awaiting(pc') then 1 else 0)
  {
    hide ValidateStep, ApplyStep, ToString, FormatId, Admit;
    if pc.Arrived? {
      AdmitFits(pc.request);
    } else if Validating(pc) {
      ValidateKeepsLocks(c, pc);
    } else if Applying(pc) {
      ApplyKeepsLocks(c, pc, ok);
    }
  }

  lemma ValidateKeepsLocks(c: Core, pc: Pc)
    requires Validating(pc)
    ensures
      var (pc', c') := ValidateStep(c, pc);
      HasLock(pc') && !pc'.Parked? && !Awaiting(pc') && (c.phase == Validate ==> PhaseAt(pc', c'.phase)) && c'.queue == c.queue
  {
    hide Stoi, TransferOf;
  }

  lemma ApplyKeepsLocks(c: Core, pc: Pc, ok: bool)
    requires Applying(pc)
    ensures
      var (pc', c') := ApplyStep(c, pc, ok);
      HasLock(pc') && !pc'.Parked? && !Awaiting(pc') && (c.phase == Apply ==> PhaseAt(pc', c'.phase)) && c'.queue == c.queue
  {
    hide Stoi, TransferOf, Wrap32, ToString, EventsOf;
  }

  /** A step other than on a lock is a step of `Work`. */
  lemma NextIsWork(s: State, t: nat, ok: bool)
    requires t in s.threads && !TakesLockStep(s.threads[t]) && Next(s, t, ok).Some?
    ensures
      var w := Work(s.core, s.threads[t], ok);
      w.Some? && Next(s, t, ok).value == s.(threads := s.threads[t := w.value.0], core := w.value.1)
  {
    hide Work;
  }

  /** Where a step on a lock leads when it does not park the handler. */
  function LockStepTo(pc: Pc): Pc
    requires TakesLockStep(pc)
  {
    match pc
    case SeedLock(a) => SeedRead(a)
    case SeedUnlock(a, n) => PutNew(a, n)
    case LockWait => Receive
    case Leave => Unlock
    case Unlock => Finished
    case Throwing => Finished
  }

  lemma LockStepGoes(s: State, t: nat, ok: bool)
    requires Locks(s) && t in s.threads && TakesLockStep(s.threads[t]) && Next(s, t, ok).Some?
    ensures t in Next(s, t, ok).value.threads && Next(s, t, ok).value.threads[t] == LockStepTo(s.threads[t])
    ensures Next(s, t, ok).value.core == s.core.(phase := Next(s, t, ok).value.core.phase)
  {
    hide Work;
  }

  lemma StepMoves(s: State, t: nat, ok: bool)
    requires Locks(s) && t in s.threads && !s.threads[t].Throwing? && Next(s, t, ok).Some?
    ensures Moved(s, Next(s, t, ok).value, t)
  {
    if TakesLockStep(s.threads[t]) {
      LockMoves(s, t, ok);
    } else {
      WorkMoves(s, t, ok);
    }
    hide Locks, Next, Moved;
  }

  lemma LockMoves(s: State, t: nat, ok: bool)
    requires Locks(s) && t in s.threads && !s.threads[t].Throwing? && Next(s, t, ok).Some? && TakesLockStep(s.threads[t])
    ensures Moved(s, Next(s, t, ok).value, t)
  {
    hide Work;
    if s.threads[t].Leave? {
      WakeNobody(s.threads[t := Unlock]);
    }
  }

  lemma WorkMoves(s: State, t: nat, ok: bool)
    requires Locks(s) && t in s.threads && Next(s, t, ok).Some? && !TakesLockStep(s.threads[t])
    ensures Moved(s, Next(s, t, ok).value, t)
  {
    hide Work, Validating, Applying, Next;
    NextIsWork(s, t, ok);
    WorkKeepsLocks(s.core, s.threads[t], ok);
  }

  lemma LocksKept(s: State, s': State, t: nat)
    requires Locks(s) && t in s.threads && Moved(s, s', t)
    ensures Locks(s')
  {
  }

  // ----- One step: commands and identifiers -----

  ghost predicate AllWellFormed(cmds: seq<Command>) {
    forall i :: 0 <= i < |cmds| ==> WellFormed(cmds[i])
  }

  ghost predicate CommandFits(pc: Pc, c: Core) {
    && (pc.Send? ==> WellFormed(pc.command))
    && (Validating(pc) || Applying(pc) ==> WellFormed(c.command))
  }

  lemma WorkKeepsCommands(c: Core, pc: Pc, ok: bool)
    requires Work(c, pc, ok).Some? && AllWellFormed(c.queue) && CommandFits(pc, c)
    ensures
      var (pc', c') := Work(c, pc, ok).value;
      AllWellFormed(c'.queue) && CommandFits(pc', c') && (!HasLock(pc) ==> c'.command == c.command)
  {
    hide Stoi, Wrap32, ToString, FormatId, TransferOf, EventsOf, WellFormed;
    if pc.Arrived? {
      AdmitFits(pc.request);
    }
  }

  lemma CommandsKept(s: State, t: nat, ok: bool)
    requires Locks(s) && Commands(s) && t in s.threads && !s.threads[t].Throwing? && Next(s, t, ok).Some?
    requires Locks(Next(s, t, ok).value) && Moved(s, Next(s, t, ok).value, t)
    ensures Commands(Next(s, t, ok).value)
  {
    hide Work, WellFormed, Next;
    if TakesLockStep(s.threads[t]) {
      LockStepGoes(s, t, ok);
      LockCommands(s, Next(s, t, ok).value, t);
    } else {
      NextIsWork(s, t, ok);
      WorkKeepsCommands(s.core, s.threads[t], ok);
    }
  }

  lemma LockCommands(s: State, s': State, t: nat)
    requires Locks(s) && Commands(s) && t in s.threads && TakesLockStep(s.threads[t])
    requires Locks(s') && Moved(s, s', t) && s'.threads[t] == LockStepTo(s.threads[t])
    requires s'.core == s.core.(phase := s'.core.phase)
    ensures Commands(s')
  {
    hide WellFormed, PhaseAt;
  }

  predicate TakesLockStep(pc: Pc) {
    pc.SeedLock? || pc.SeedUnlock? || pc.LockWait? || pc.Leave? || pc.Unlock? || pc.Throwing?
  }

  /** A handler that holds `cv_m` has no number and leaves the seed alone. */
  lemma HeldWork(c: Core, pc: Pc, ok: bool)
    requires Work(c, pc, ok).Some? && HasLock(pc)
    ensures !HasNumber(Work(c, pc, ok).value.0) && !HasSeedLock(Work(c, pc, ok).value.0) && !Work(c, pc, ok).value.0.SeedLock?
    ensures Work(c, pc, ok).value.1.seed == c.seed
  {
    hide Stoi, Wrap32, ToString, TransferOf, EventsOf;
  }

  /** The identifiers after a step, and the number its handler has then. */
  lemma WorkKeepsOwnNumber(c: Core, pc: Pc, ok: bool)
    requires Work(c, pc, ok).Some? && IdsBelowSeed(c) && NumberFits(pc, c)
    requires HasLock(pc) ==> Work(c, pc, ok).value.1.db.Keys == c.db.Keys
    ensures IdsBelowSeed(Work(c, pc, ok).value.1) && NumberFits(Work(c, pc, ok).value.0, Work(c, pc, ok).value.1)
  {
    hide Stoi, Wrap32, ToString, TransferOf, EventsOf, FormatId, IdNumber, ValidateStep, ApplyStep;
    var c' := Work(c, pc, ok).value.1;
    if HasLock(pc) {
      HeldWork(c, pc, ok);
      assert forall k :: k in c'.db ==> k in c.db.Keys;
    } else if pc.Arrived? {
      AdmitFits(pc.request);
    } else if pc.SeedWrite? || pc.PutNew? {
      IdRoundTrip(pc.number);
      assert forall k :: k in c.db ==> IsId(k, c.Seed());
    } else {
      assert c'.db.Keys == c.db.Keys && c'.Seed() == c.Seed();
      assert forall k :: k in c'.db ==> k in c.db.Keys;
    }
  }

  /** A step does not disturb the number of a handler at `q`. */
  lemma WorkKeepsNumber(c: Core, pc: Pc, q: Pc, ok: bool)
    requires Work(c, pc, ok).Some? && NumberFits(pc, c)
    requires HasLock(pc) ==> Work(c, pc, ok).value.1.db.Keys == c.db.Keys
    requires NumberFits(q, c) && !Clash(pc, q) && !(HasSeedLock(pc) && HasSeedLock(q))
    ensures NumberFits(q, Work(c, pc, ok).value.1) && !Clash(Work(c, pc, ok).value.0, q)
  {
    hide Stoi, Wrap32, ToString, TransferOf, EventsOf, FormatId, IdNumber, ValidateStep, ApplyStep;
    if HasLock(pc) {
      HeldWork(c, pc, ok);
    } else if pc.Arrived? {
      AdmitFits(pc.request);
    } else if HasNumber(q) && pc.PutNew? {
      IdRoundTrip(pc.number);
      IdRoundTrip(q.number);
    } else if !pc.PutNew? {
      assert Work(c, pc, ok).value.1.db.Keys == c.db.Keys;
    }
  }

  /** Re-assembling the identifier invariant after the step of `t`. */
  lemma IdsRebuilt(s: State, s': State, t: nat)
    requires Ids(s) && t in s.threads && t in s'.threads && s'.threads == s.threads[t := s'.threads[t]]
    requires IdsBelowSeed(s'.core) && NumberFits(s'.threads[t], s'.core)
    requires forall u :: u in s.threads && u != t ==>
      NumberFits(s.threads[u], s'.core) && !Clash(s'.threads[t], s.threads[u])
    ensures Ids(s')
  {
    hide NumberFits, FormatId, IdNumber;
  }

  lemma SeedLockExcludes(s: State)
    requires Locks(s)
    ensures forall t, u :: t in s.threads && u in s.threads && t != u ==> !(HasSeedLock(s.threads[t]) && HasSeedLock(s.threads[u]))
  {
    hide HasLock, PhaseAt;
  }

  /** What the step of `t` leaves of the identifiers: nothing of its own or of
      another handler's goes wrong. */
  ghost predicate IdsFine(s: State, s': State, t: nat)
    requires t in s.threads && t in s'.threads
  {
    && IdsBelowSeed(s'.core) && NumberFits(s'.threads[t], s'.core)
    && forall u :: u in s.threads && u != t ==> NumberFits(s.threads[u], s'.core) && !Clash(s'.threads[t], s.threads[u])
  }

  lemma LockStepIds(s: State, t: nat, ok: bool)
    requires Ids(s) && t in s.threads && Next(s, t, ok).Some? && TakesLockStep(s.threads[t])
    requires t in Next(s, t, ok).value.threads && Next(s, t, ok).value.threads[t] == LockStepTo(s.threads[t])
    ensures IdsFine(s, Next(s, t, ok).value, t)
  {
    hide FormatId, IdNumber, Work;
    var pc, s' := s.threads[t], Next(s, t, ok).value;
    assert NumberFits(pc, s.core) && s'.core.db == s.core.db && s'.core.seed == s.core.seed;
    assert forall u :: u in s.threads && u != t ==> NumberFits(s.threads[u], s.core) && !Clash(pc, s.threads[u]);
  }

  lemma WorkStepIds(s: State, t: nat, ok: bool)
    requires Locks(s) && Ids(s) && t in s.threads && !TakesLockStep(s.threads[t]) && Work(s.core, s.threads[t], ok).Some?
    requires HasLock(s.threads[t]) ==> Work(s.core, s.threads[t], ok).value.1.db.Keys == s.core.db.Keys
    ensures
      var w := Work(s.core, s.threads[t], ok).value;
      IdsFine(s, s.(threads := s.threads[t := w.0], core := w.1), t)
  {
    hide Work, FormatId, IdNumber, Locks, IdsBelowSeed, NumberFits, Clash, HasLock;
    var pc := s.threads[t];
    SeedLockExcludes(s);
    WorkKeepsOwnNumber(s.core, pc, ok);
    forall u | u in s.threads && u != t
      ensures NumberFits(s.threads[u], Work(s.core, pc, ok).value.1) && !Clash(Work(s.core, pc, ok).value.0, s.threads[u])
    {
      WorkKeepsNumber(s.core, pc, s.threads[u], ok);
    }
  }

  lemma IdsKept(s: State, t: nat, ok: bool)
    requires Locks(s) && Ids(s) && t in s.threads && !s.threads[t].Throwing? && Next(s, t, ok).Some?
    requires HasLock(s.threads[t]) ==> Next(s, t, ok).value.core.db.Keys == s.core.db.Keys
    requires Moved(s, Next(s, t, ok).value, t)
    ensures Ids(Next(s, t, ok).value)
  {
    hide Work, FormatId, IdNumber, Locks, IdsBelowSeed, NumberFits, Clash, Ids, Next;
    if TakesLockStep(s.threads[t]) {
      LockStepGoes(s, t, ok);
      LockStepIds(s, t, ok);
    } else {
      NextIsWork(s, t, ok);
      WorkStepIds(s, t, ok);
    }
    IdsRebuilt(s, Next(s, t, ok).value, t);
  }

  // ----- One step: the sequential run it refines -----

  /** The holder's own step. */
  lemma HolderRefines(c: Core, pc: Pc, ok: bool, book: Book)
    requires HasLock(pc) && Work(c, pc, ok).Some? && CommandFits(pc, c) && Refines(c, pc, book)
    ensures Refines(Work(c, pc, ok).value.1, Work(c, pc, ok).value.0, book)
    ensures Work(c, pc, ok).value.1.db.Keys == c.db.Keys
  {
    hide Stoi, Wrap32, ToString, EventsOf, ValidateStep, ApplyStep, Holds, Records, Run, FreshOpens, ValidOps, WellFormed, Passes;
    if Validating(pc) {
      ValidateRefines(c, pc, book);
    } else if Applying(pc) {
      ApplyRefines(c, pc, ok, book);
    }
  }

  lemma ValidateRefines(c: Core, pc: Pc, book: Book)
    requires Validating(pc) && WellFormed(c.command) && Refines(c, pc, book)
    ensures Refines(ValidateStep(c, pc).1, ValidateStep(c, pc).0, book)
    ensures ValidateStep(c, pc).1.db.Keys == c.db.Keys
  {
    hide Stoi, Wrap32, ToString, EventsOf, Perform, ValidOps, FreshOpens;
    var end := Run(book, c.history);
    RefusalRefines(c, book);
    if c.command.fromAccount in c.db {
      ReadBack(c.db, end.balances, c.command.fromAccount);
    }
  }

  /** The parts of the refinement, for use one at a time. */
  lemma RefinesParts(c: Core, pc: Pc, book: Book)
    requires Refines(c, pc, book)
    ensures
      var end := Run(book, c.history);
      && ValidOps(c.history) && FreshOpens(book, c.history)
      && Holds(c.db, Visible(pc, end.balances, c.command))
      && Records(Logged(pc, c), end.entries) && Knows(pc, end, c.command)
  {
    hide Run, ValidOps, FreshOpens, Holds, Records, Visible, Logged, Knows;
  }

  lemma MakeRefines(c: Core, pc: Pc, book: Book, end: Book)
    requires end == Run(book, c.history) && ValidOps(c.history) && FreshOpens(book, c.history)
    requires Holds(c.db, Visible(pc, end.balances, c.command))
    requires Records(Logged(pc, c), end.entries) && Knows(pc, end, c.command)
    ensures Refines(c, pc, book)
  {
    hide Run, ValidOps, FreshOpens, Holds, Records, Visible, Logged, Knows;
  }

  lemma ValidAppend(ops: seq<Op>, op: Op)
    requires ValidOps(ops) && ValidOp(op)
    ensures ValidOps(ops + [op])
  {
    hide ValidOp;
  }

  lemma CommandIsValid(cmd: Command, debitOk: bool, creditOk: bool)
    requires WellFormed(cmd)
    ensures ValidOp(Move(TransferOf(cmd), debitOk, creditOk))
  {
    hide Stoi, ToString;
  }

  /** Once the command at hand is decided, with the store and the log of the
      ledger after it, the run goes on from there. */
  lemma DecisionRefines(c: Core, book: Book, debitOk: bool, creditOk: bool, db: Store, pc: Pc)
    requires WellFormed(c.command) && ValidOps(c.history) && FreshOpens(book, c.history) && (pc.Append? || pc.Leave?)
    requires
      var end := Perform(Run(book, c.history), Move(TransferOf(c.command), debitOk, creditOk));
      Holds(db, end.balances) && Records(Logged(pc, c), end.entries)
    ensures Refines(c.Decided(debitOk, creditOk).(db := db), pc, book)
  {
    hide Run, ValidOps, FreshOpens, Holds, Records, Perform, WellFormed, TransferOf, EventsOf, Moves;
    var op := Move(TransferOf(c.command), debitOk, creditOk);
    CommandIsValid(c.command, debitOk, creditOk);
    ValidAppend(c.history, op);
    RunAppend(book, c.history, op);
    MakeRefines(c.Decided(debitOk, creditOk).(db := db), pc, book, Perform(Run(book, c.history), op));
  }

  /** A refused command decides nothing about balances or log. */
  lemma RefusalRefines(c: Core, book: Book)
    requires WellFormed(c.command) && Refines(c, GetTo, book)
    ensures
      var end := Run(book, c.history);
      !Passes(end, c.command) ==> Refines(c.Decided(true, true), Leave, book)
  {
    hide Refines, Run, ValidOps, FreshOpens, Holds, Records, WellFormed, Passes, Perform;
    RefinesParts(c, GetTo, book);
    if !Passes(Run(book, c.history), c.command) {
      RefusalIsNothing(Run(book, c.history), c.command);
      DecisionRefines(c, book, true, true, c.db, Leave);
      assert c.Decided(true, true).(db := c.db) == c.Decided(true, true);
    }
  }

  lemma RefusalIsNothing(book: Book, cmd: Command)
    requires !Passes(book, cmd) && WellFormed(cmd)
    ensures Perform(book, Move(TransferOf(cmd), true, true)) == book
  {
    hide Stoi, Wrap32;
  }

  lemma ApplyRefines(c: Core, pc: Pc, ok: bool, book: Book)
    requires Applying(pc) && WellFormed(c.command) && Refines(c, pc, book)
    ensures Refines(ApplyStep(c, pc, ok).1, ApplyStep(c, pc, ok).0, book)
    ensures ApplyStep(c, pc, ok).1.db.Keys == c.db.Keys
  {
    hide Stoi, Wrap32, ToString, EventsOf, Perform;
    var end := Run(book, c.history);
    match pc
    case GetDebited =>
      ReadBack(c.db, end.balances, c.command.fromAccount);
    case GetCredited(_) =>
      ReadBack(c.db, end.balances, c.command.toAccount);
    case PutDebit(_, _) =>
      DebitRefines(c, pc, ok, book);
    case PutCredit(_) =>
      CreditRefines(c, pc, ok, book);
    case Append =>
  }

  lemma DebitRefines(c: Core, pc: Pc, ok: bool, book: Book)
    requires pc.PutDebit? && WellFormed(c.command) && Refines(c, pc, book)
    ensures Refines(ApplyStep(c, pc, ok).1, ApplyStep(c, pc, ok).0, book)
    ensures ApplyStep(c, pc, ok).1.db.Keys == c.db.Keys
  {
    hide Refines, Stoi, Wrap32, ToString, EventsOf, Perform, Run, Records, ValidOps, FreshOpens, TransferOf;
    var end := Run(book, c.history);
    RefinesParts(c, pc, book);
    if ok {
      HoldsWrite(c.db, end.balances, c.command.fromAccount, pc.balance1);
      MakeRefines(ApplyStep(c, pc, ok).1, ApplyStep(c, pc, ok).0, book, end);
    } else {
      PerformPassed(end, c.command, false, true);
      DecisionRefines(c, book, false, true, c.db, Leave);
      assert c.Decided(false, true).(db := c.db) == c.Decided(false, true);
    }
  }

  lemma CreditRefines(c: Core, pc: Pc, ok: bool, book: Book)
    requires pc.PutCredit? && WellFormed(c.command) && Refines(c, pc, book)
    ensures Refines(ApplyStep(c, pc, ok).1, ApplyStep(c, pc, ok).0, book)
    ensures ApplyStep(c, pc, ok).1.db.Keys == c.db.Keys
  {
    hide Refines, Stoi, Wrap32, ToString, EventsOf, Perform, Run, Records, ValidOps, FreshOpens, WellFormed, AmountOf, TransferOf, Holds;
    var end := Run(book, c.history);
    RefinesParts(c, pc, book);
    PerformPassed(end, c.command, true, ok);
    HeldKeys(c.db, Visible(pc, end.balances, c.command));
    if ok {
      HoldsWrite(c.db, Visible(pc, end.balances, c.command), c.command.toAccount, pc.balance2);
      RecordsAppend(c.log, end.entries, c.command);
      DecisionRefines(c, book, true, true, c.db[c.command.toAccount := ToString(pc.balance2)], Append);
    } else {
      DecisionRefines(c, book, true, false, c.db, Leave);
      assert c.Decided(true, false).(db := c.db) == c.Decided(true, false);
    }
  }

  lemma HeldKeys(db: Store, b: Balances)
    requires Holds(db, b)
    ensures db.Keys == b.Keys
  {
    hide ToString;
  }

  /** Storing a new account while the holder is at `q`. */
  lemma OpenRefines(c: Core, q: Pc, id: string, amount: int, ok: bool, book: Book)
    requires id !in c.db && 0 <= amount <= INT_MAX && Refines(c, q, book)
    ensures
      var c' := c.(db := if ok then c.db[id := ToString(amount)] else c.db,
                   history := c.history + [Open(id, amount, ok)]);
      Refines(c', q, book)
  {
    hide Refines, Stoi, Wrap32, ToString, EventsOf, Perform, Run, FreshOpens, ValidOps, Records, Holds, Knows, Visible, TransferOf, Moves;
    var end, op := Run(book, c.history), Open(id, amount, ok);
    RefinesParts(c, q, book);
    HeldKeys(c.db, Visible(q, end.balances, c.command));
    VisibleKeys(q, end.balances, c.command);
    ValidAppend(c.history, op);
    RunAppend(book, c.history, op);
    HoldsWrite(c.db, Visible(q, end.balances, c.command), id, amount);
    NewAccountUnnoticed(q, end, c.command, id, amount);
    var c' := c.(db := if ok then c.db[id := ToString(amount)] else c.db, history := c.history + [op]);
    MakeRefines(c', q, book, Perform(end, op));
  }

  lemma VisibleKeys(q: Pc, b: Balances, cmd: Command)
    ensures Visible(q, b, cmd).Keys == b.Keys
  {
    hide Stoi;
  }

  /** The holder's knowledge is about accounts that exist already. */
  lemma NewAccountUnnoticed(q: Pc, book: Book, cmd: Command, id: string, amount: int)
    requires id !in book.balances && Knows(q, book, cmd)
    ensures
      var more := book.(balances := book.balances[id := amount]);
      && Knows(q, more, cmd)
      && Visible(q, more.balances, cmd) == Visible(q, book.balances, cmd)[id := amount]
      && Perform(book, Open(id, amount, true)) == more && Perform(book, Open(id, amount, false)) == book
  {
    hide Wrap32, Stoi;
  }

  /** A step of another handler, while the holder is at `q`. */
  lemma OtherRefines(c: Core, pc: Pc, q: Pc, ok: bool, book: Book)
    requires !HasLock(pc) && Work(c, pc, ok).Some? && NumberFits(pc, c) && Refines(c, q, book)
    ensures Refines(Work(c, pc, ok).value.1, q, book)
  {
    hide Stoi, Wrap32, ToString, EventsOf, FormatId, Perform;
    if pc.PutNew? {
      OpenRefines(c, q, FormatId(pc.number), pc.amount, ok, book);
    }
  }

  // ----- One step: delivery -----

  lemma TransfersAppend(cmds: seq<Command>, cmd: Command)
    ensures Transfers(cmds + [cmd]) == Transfers(cmds) + [TransferOf(cmd)]
  {
  }

  /** Going from `c` at `pc` to `c'` at `pc'` decides the command at hand or
      leaves it as undecided as it was. */
  ghost predicate Decides(c: Core, pc: Pc, c': Core, pc': Pc) {
    && c'.sent == c.sent && c'.queue == c.queue && c'.received == c.received && c'.command == c.command
    && if Undecided(pc) && !Undecided(pc') then
         |c'.history| > 0 && c'.history == c.history + [c'.history[|c'.history| - 1]]
         && c'.history[|c'.history| - 1].Move? && c'.history[|c'.history| - 1].transfer == TransferOf(c.command)
       else c'.history == c.history && Undecided(pc) == Undecided(pc')
  }

  lemma DecidesOnce(c: Core, pc: Pc, ok: bool)
    requires HasLock(pc) && !pc.Receive? && Work(c, pc, ok).Some? && !Work(c, pc, ok).value.0.Throwing?
    requires Undecided(pc) ==> c.command.action == "TRANSFER"
    requires Applying(pc) && Undecided(pc) ==> c.command.fromAccount in c.db && c.command.toAccount in c.db
    ensures Decides(c, pc, Work(c, pc, ok).value.1, Work(c, pc, ok).value.0)
  {
    hide Stoi, Wrap32, ToString, EventsOf, TransferOf;
  }

  lemma DecidingDelivers(c: Core, pc: Pc, c': Core, pc': Pc)
    requires Delivered(c, pc) && Decides(c, pc, c', pc')
    ensures Delivered(c', pc')
  {
    hide Transfers, TransferOf, Moves;
    if Undecided(pc) && !Undecided(pc') {
      RunAppend(Book(map[], []), c.history, c'.history[|c'.history| - 1]);
    }
  }

  lemma PopKeepsAll(queue: seq<Command>, received: seq<Command>)
    requires queue != []
    ensures multiset(queue[..|queue| - 1]) + multiset(received + [queue[|queue| - 1]])
      == multiset(queue) + multiset(received)
  {
    assert queue == queue[..|queue| - 1] + [queue[|queue| - 1]];
  }

  lemma ReceiveDelivers(c: Core, ok: bool)
    requires Work(c, Receive, ok).Some? && Delivered(c, Receive)
    ensures Work(c, Receive, ok).value.0 == GetTo && Delivered(Work(c, Receive, ok).value.1, GetTo)
  {
    hide Transfers, TransferOf, Stoi, Moves;
    PopKeepsAll(c.queue, c.received);
    TransfersAppend(c.received, c.queue[|c.queue| - 1]);
  }

  lemma HolderKnows(c: Core, pc: Pc, book: Book)
    requires HasLock(pc) && CommandFits(pc, c) && Refines(c, pc, book)
    ensures !pc.Throwing?
    ensures Undecided(pc) ==> c.command.action == "TRANSFER"
    ensures Applying(pc) && Undecided(pc) ==> c.command.fromAccount in c.db && c.command.toAccount in c.db
  {
    hide Stoi, Run, FreshOpens, ValidOps, Records, Logged, Wrap32, AmountOf;
  }

  lemma HolderThrowsNot(c: Core, pc: Pc, book: Book)
    requires Refines(c, pc, book)
    ensures !pc.Throwing?
  {
    hide Stoi, Run, FreshOpens, ValidOps, Records, Holds;
  }

  lemma HolderDelivers(c: Core, pc: Pc, ok: bool, book: Book)
    requires HasLock(pc) && Work(c, pc, ok).Some? && CommandFits(pc, c) && Refines(c, pc, book) && Delivered(c, pc)
    ensures Delivered(Work(c, pc, ok).value.1, Work(c, pc, ok).value.0)
  {
    hide Work, Refines, Delivered, Decides, WellFormed, CommandFits;
    if pc.Receive? {
      ReceiveDelivers(c, ok);
    } else {
      HolderKnows(c, pc, book);
      HolderRefines(c, pc, ok, book);
      var (pc', c') := Work(c, pc, ok).value;
      HolderThrowsNot(c', pc', book);
      DecidesOnce(c, pc, ok);
      DecidingDelivers(c, pc, c', pc');
    }
  }

  lemma OtherDelivers(c: Core, pc: Pc, q: Pc, ok: bool)
    requires !HasLock(pc) && Work(c, pc, ok).Some? && Delivered(c, q)
    ensures Delivered(Work(c, pc, ok).value.1, q)
  {
    hide Stoi, ToString, FormatId, Transfers, TransferOf, Moves, Admit, ValidateStep, ApplyStep;
    if pc.PutNew? {
      RunAppend(Book(map[], []), c.history, Open(FormatId(pc.number), pc.amount, ok));
    }
    hide Run, FreshOpens;
  }

  lemma WaitingAfter(threads: map<nat, Pc>, t: nat, pc: Pc)
    requires t in threads
    ensures |Waiting(threads[t := pc])| + (if Awaiting(threads[t]) then 1 else 0)
      == |Waiting(threads)| + (if Awaiting(pc) then 1 else 0)
  {
    var rest := Waiting(threads) - {t};
    assert |rest + {t}| == |rest| + 1;
    assert Waiting(threads) == if Awaiting(threads[t]) then rest + {t} else rest;
    assert Waiting(threads[t := pc]) == if Awaiting(pc) then rest + {t} else rest;
  }

  // ----- The invariant holds on every run -----

  predicate Plain(pc: Pc) {
    !Validating(pc) && !Applying(pc) && !pc.Throwing?
  }

  lemma PlainFrame(c: Core, pc: Pc, phase: Phase, pc': Pc, book: Book)
    requires Plain(pc) && Plain(pc') && Refines(c, pc, book) && Delivered(c, pc)
    ensures Refines(c.(phase := phase), pc', book) && Delivered(c.(phase := phase), pc')
  {
    hide Run, FreshOpens, ValidOps, Holds, Records, Transfers, Moves, Stoi;
  }

  lemma LockStepKeeps(s: State, book: Book, t: nat, ok: bool)
    requires Locks(s) && t in s.threads && Next(s, t, ok).Some?
    requires TakesLockStep(s.threads[t]) && !s.threads[t].Throwing?
    requires Refines(s.core, HolderPc(s), book) && Delivered(s.core, HolderPc(s))
    requires Moved(s, Next(s, t, ok).value, t)
    ensures
      var s' := Next(s, t, ok).value;
      && Refines(s'.core, HolderPc(s'), book) && Delivered(s'.core, HolderPc(s'))
      && s'.core.queue == s.core.queue && s'.core.db == s.core.db
      && (Awaiting(s'.threads[t]) <==> Awaiting(s.threads[t]))
  {
    hide Refines, Delivered, Work;
    var pc, s' := s.threads[t], Next(s, t, ok).value;
    if pc.SeedLock? || pc.SeedUnlock? {
      assert HolderPc(s') == HolderPc(s) && s'.core == s.core;
    } else {
      assert HolderPc(s) == if pc.LockWait? then Finished else pc;
      PlainFrame(s.core, HolderPc(s), s'.core.phase, HolderPc(s'), book);
    }
  }

  lemma WorkStepKeeps(s: State, book: Book, t: nat, ok: bool)
    requires Locks(s) && t in s.threads && Next(s, t, ok).Some? && !TakesLockStep(s.threads[t])
    requires CommandFits(s.threads[t], s.core) && NumberFits(s.threads[t], s.core)
    requires Refines(s.core, HolderPc(s), book) && Delivered(s.core, HolderPc(s))
    requires Moved(s, Next(s, t, ok).value, t)
    ensures
      var s' := Next(s, t, ok).value;
      && Refines(s'.core, HolderPc(s'), book) && Delivered(s'.core, HolderPc(s'))
      && (HasLock(s.threads[t]) ==> s'.core.db.Keys == s.core.db.Keys)
      && |s'.core.queue| + (if Awaiting(s.threads[t]) then 1 else 0)
           == |s.core.queue| + (if Awaiting(s'.threads[t]) then 1 else 0)
  {
    hide Work, Refines, Delivered, CommandFits, NumberFits;
    var pc := s.threads[t];
    WorkKeepsLocks(s.core, pc, ok);
    if HasLock(pc) {
      HolderRefines(s.core, pc, ok, book);
      HolderDelivers(s.core, pc, ok, book);
    } else {
      OtherRefines(s.core, pc, HolderPc(s), ok, book);
      OtherDelivers(s.core, pc, HolderPc(s), ok);
    }
  }

  /** Every step of every handler keeps the invariant. */
  lemma StepKeeps(s: State, book: Book, t: nat, ok: bool)
    requires Inv(s, book) && t in s.threads && Next(s, t, ok).Some?
    ensures Inv(Next(s, t, ok).value, book)
  {
    hide Next, Run, FreshOpens, ValidOps, Holds, Records, Delivered, Waiting, WellFormed, FormatId, IdNumber;
    var s' := Next(s, t, ok).value;
    assert !s.threads[t].Throwing? && CommandFits(s.threads[t], s.core) && NumberFits(s.threads[t], s.core);
    hide Refines, Ids, Commands;
    StepMoves(s, t, ok);
    LocksKept(s, s', t);
    CommandsKept(s, t, ok);
    if TakesLockStep(s.threads[t]) {
      LockStepKeeps(s, book, t, ok);
    } else {
      WorkStepKeeps(s, book, t, ok);
    }
    WaitingAfter(s.threads, t, s'.threads[t]);
    IdsKept(s, t, ok);
  }

  lemma ArrivalMoves(s: State, t: nat, request: Request)
    requires Locks(s) && Commands(s) && t !in s.threads
    ensures
      var s' := s.(threads := s.threads[t := Arrived(request)]);
      Locks(s') && Commands(s') && HolderPc(s') == HolderPc(s)
  {
    ArrivalLocks(s, t, request);
    ArrivalCommands(s, t, request);
    hide Locks, Commands, HolderPc;
  }

  lemma ArrivalLocks(s: State, t: nat, request: Request)
    requires Locks(s) && t !in s.threads
    ensures
      var s' := s.(threads := s.threads[t := Arrived(request)]);
      Locks(s') && HolderPc(s') == HolderPc(s)
  {
    hide PhaseAt;
    var s' := s.(threads := s.threads[t := Arrived(request)]);
    assert HolderPc(s') == HolderPc(s);
  }

  lemma ArrivalCommands(s: State, t: nat, request: Request)
    requires Locks(s) && Commands(s) && t !in s.threads
    ensures Commands(s.(threads := s.threads[t := Arrived(request)]))
  {
    ArrivalLocks(s, t, request);
    hide WellFormed, Validating, Applying, Locks;
  }

  lemma ArrivalIds(s: State, t: nat, request: Request)
    requires Ids(s) && t !in s.threads
    ensures Ids(s.(threads := s.threads[t := Arrived(request)]))
  {
    hide FormatId, IdNumber, IdsBelowSeed;
    assert NumberFits(Arrived(request), s.core);
  }

  lemma ArrivalKeeps(s: State, book: Book, t: nat, request: Request)
    requires Inv(s, book) && t !in s.threads
    ensures Inv(s.(threads := s.threads[t := Arrived(request)]), book)
  {
    hide Refines, Delivered, Locks, Commands, Ids, HolderPc;
    ArrivalMoves(s, t, request);
    ArrivalIds(s, t, request);
    assert Waiting(s.threads[t := Arrived(request)]) == Waiting(s.threads);
  }

  lemma InitHolds(s: State, book: Book)
    requires Init(s, book)
    ensures Inv(s, book)
  {
    assert Waiting(s.threads) == {};
  }

  /** Every state that any schedule of any handlers reaches satisfies the
      invariant, whichever writes fail, and every handler serves its request. */
  lemma {:induction false} EveryRunKeeps(s: State, book: Book, actions: seq<Action>)
    requires Init(s, book) && Exec(s, actions).Some?
    ensures Inv(Exec(s, actions).value, book) && Served(s, actions)
  {
    hide Inv, Next, Served;
    EveryRunServes(s, actions);
    if actions == [] {
      InitHolds(s, book);
    } else {
      var front, last := actions[..|actions| - 1], actions[|actions| - 1];
      EveryRunKeeps(s, book, front);
      var mid := Exec(s, front).value;
      match last
      case Arrive(t, request) => ArrivalKeeps(mid, book, t, request);
      case Go(t, ok) => StepKeeps(mid, book, t, ok);
    }
  }
}
