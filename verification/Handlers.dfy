/** The wallet's request handlers as threads with program counters. One step is
    one lock action, queue action, `Get`, `Put`, seed-file access or log append
    of one handler; a run interleaves the steps of any number of handlers. */
module Handlers {
  import opened Decimal
  import opened Bookkeeping
  import opened TextStore
  import opened WalletService

  datatype Request =
    | CreateAccount(startAmount: Option<string>)
    | BalanceTransfer(fromAccount: Option<string>, toAccount: Option<string>, amount: Option<string>, txId: string)

  datatype Pc =
    | Arrived(request: Request)
    // create_account
    | SeedLock(amount: int)
    | SeedRead(amount: int)
    | SeedWrite(amount: int, number: nat)
    | SeedUnlock(amount: int, number: nat)
    | PutNew(amount: int, number: nat)
    // balance_transfer, outside cv_m
    | Send(command: Command)
    | LockWait
    | Parked
    // balance_transfer, holding cv_m
    | Receive
    | GetTo
    | GetFrom
    | GetDebited
    | GetCredited(balanceA: int)
    | PutDebit(balance1: int, balance2: int)
    | PutCredit(balance2: int)
    | Append
    | Leave
    | Unlock
    | Throwing
    | Finished

  /** Whether a handler at this point holds `cv_m`. */
  predicate HasLock(pc: Pc) {
    pc.Receive? || pc.GetTo? || pc.GetFrom? || pc.GetDebited? || pc.GetCredited? || pc.PutDebit?
    || pc.PutCredit? || pc.Append? || pc.Leave? || pc.Unlock? || pc.Throwing?
  }

  predicate HasSeedLock(pc: Pc) {
    pc.SeedRead? || pc.SeedWrite? || pc.SeedUnlock?
  }

  /** Whether a handler has sent its command and not yet received one. */
  predicate Awaiting(pc: Pc) {
    pc.LockWait? || pc.Parked? || pc.Receive?
  }

  /** The shared state apart from threads and locks. The last three fields only
      record what happened: the commands sent, the commands received, and the
      ledger operations in the order in which they were decided. */
  datatype Core = Core(
    phase: Phase,
    command: Command,
    queue: seq<Command>,
    db: Store,
    log: seq<EventPair>,
    seed: Option<nat>,
    sent: seq<Command>,
    received: seq<Command>,
    history: seq<Op>)
  {
    function Seed(): nat {
      match seed
      case None => 0
      case Some(n) => n
    }

    /** Record the verdict on the current command. */
    function Decided(debitOk: bool, creditOk: bool): Core {
      this.(history := history + [Move(TransferOf(command), debitOk, creditOk)])
    }
  }

  datatype State = State(threads: map<nat, Pc>, cvHolder: Option<nat>, seedHolder: Option<nat>, core: Core)

  /** Parameter checks of the two handlers; a rejected request ends with 400. */
  function Admit(request: Request): Pc {
    match request
    case CreateAccount(None) => Finished
    case CreateAccount(Some(p)) =>
      var n := Stoi(p);
      if n.None? || n.value < 0 then Finished else SeedLock(n.value)
    case BalanceTransfer(from, to, amount, txId) =>
      if from.None? || to.None? || amount.None? then Finished else
      var n := Stoi(amount.value);
      if n.None? || n.value <= 0 then Finished
      else Send(Command(txId, from.value, to.value, ToString(n.value), "TRANSFER"))
  }

  /** Entering LISTEN notifies every handler parked in `cv.wait`. */
  function Wake(threads: map<nat, Pc>): map<nat, Pc> {
    map t | t in threads :: if threads[t].Parked? then LockWait else threads[t]
  }

  /** A step that takes or releases no lock: where the handler goes and what it
      does to the shared state, or `None` while it is blocked. */
  function Work(c: Core, pc: Pc, ok: bool): Option<(Pc, Core)> {
    match pc
    case Arrived(request) => Some((Admit(request), c))
    case SeedRead(a) => Some((SeedWrite(a, c.Seed() + 1), c.(seed := Some(c.Seed()))))
    case SeedWrite(a, n) => Some((SeedUnlock(a, n), c.(seed := Some(n))))
    case PutNew(a, n) =>
      Some((Finished, c.(
        db := if ok then c.db[FormatId(n) := ToString(a)] else c.db,
        history := c.history + [Open(FormatId(n), a, ok)])))
    case Send(cmd) => Some((LockWait, c.(queue := c.queue + [cmd], sent := c.sent + [cmd])))
    case Receive =>
      if c.queue == [] then None else
      var cmd := c.queue[|c.queue| - 1];
      Some((GetTo, c.(
        queue := c.queue[..|c.queue| - 1], received := c.received + [cmd], command := cmd, phase := Validate)))
    case _ => if Validating(pc) then Some(ValidateStep(c, pc)) else if Applying(pc) then Some(ApplyStep(c, pc, ok)) else None
  }

  predicate Validating(pc: Pc) {
    pc.GetTo? || pc.GetFrom?
  }

  predicate Applying(pc: Pc) {
    pc.GetDebited? || pc.GetCredited? || pc.PutDebit? || pc.PutCredit? || pc.Append?
  }

  /** `ServiceValidate::process`, one `Get` at a time. */
  function ValidateStep(c: Core, pc: Pc): (Pc, Core)
    requires Validating(pc)
  {
    var cmd := c.command;
    match pc
    case GetTo =>
      if cmd.toAccount in c.db then (GetFrom, c) else (Leave, c.Decided(true, true))
    case GetFrom =>
      if cmd.fromAccount !in c.db then (Leave, c.Decided(true, true)) else
      var balance, amount := Stoi(c.db[cmd.fromAccount]), Stoi(cmd.amount);
      if balance.None? || amount.None? then (Throwing, c)
      else if balance.value < amount.value then (Leave, c.Decided(true, true))
      else if cmd.action == "TRANSFER" then (GetDebited, c.(phase := Apply))
      else (Leave, c)
  }

  /** `ServiceApply::process`, one database access at a time. */
  function ApplyStep(c: Core, pc: Pc, ok: bool): (Pc, Core)
    requires Applying(pc)
  {
    var cmd := c.command;
    match pc
    case GetDebited =>
      if cmd.fromAccount !in c.db then (Leave, c) else
      var balance := Stoi(c.db[cmd.fromAccount]);
      if balance.None? then (Throwing, c) else (GetCredited(balance.value), c)
    case GetCredited(a) =>
      if cmd.toAccount !in c.db then (Leave, c) else
      var balance, amount := Stoi(c.db[cmd.toAccount]), Stoi(cmd.amount);
      if balance.None? || amount.None? then (Throwing, c)
      else (PutDebit(Wrap32(a - amount.value), Wrap32(balance.value + amount.value)), c)
    case PutDebit(b1, b2) =>
      if ok then (PutCredit(b2), c.(db := c.db[cmd.fromAccount := ToString(b1)]))
      else (Leave, c.Decided(false, true))
    case PutCredit(b2) =>
      if ok then (Append, c.Decided(true, true).(db := c.db[cmd.toAccount := ToString(b2)]))
      else (Leave, c.Decided(true, false))
    case Append => (Leave, c.(log := c.log + [EventsOf(cmd)]))
  }

  /** The next step of handler `t`, or `None` while it is blocked. `ok` is the
      outcome of the step's `Put`, if it has one. */
  function Next(s: State, t: nat, ok: bool): Option<State>
    requires t in s.threads
  {
    match s.threads[t]
    case SeedLock(a) =>
      if s.seedHolder != None then None
      else Some(s.(threads := s.threads[t := SeedRead(a)], seedHolder := Some(t)))
    case SeedUnlock(a, n) => Some(s.(threads := s.threads[t := PutNew(a, n)], seedHolder := None))
    case LockWait =>
      if s.cvHolder != None then None
      else if s.core.phase != Listen then Some(s.(threads := s.threads[t := Parked]))
      else Some(s.(threads := s.threads[t := Receive], cvHolder := Some(t)))
    case Leave => Some(s.(threads := Wake(s.threads[t := Unlock]), core := s.core.(phase := Listen)))
    case Unlock => Some(s.(threads := s.threads[t := Finished], cvHolder := None))
    case Throwing => Some(s.(threads := s.threads[t := Finished], cvHolder := None))
    case pc =>
      match Work(s.core, pc, ok)
      case None => None
      case Some((pc', core)) => Some(s.(threads := s.threads[t := pc'], core := core))
  }

  datatype Action = Arrive(id: nat, request: Request) | Go(id: nat, ok: bool)

  function Do(s: State, a: Action): Option<State> {
    match a
    case Arrive(t, request) => if t in s.threads then None else Some(s.(threads := s.threads[t := Arrived(request)]))
    case Go(t, ok) => if t in s.threads then Next(s, t, ok) else None
  }

  /** Running a schedule; `None` when some action in it was not possible. */
  function Exec(s: State, actions: seq<Action>): Option<State> {
    if actions == [] then Some(s) else
    match Exec(s, actions[..|actions| - 1])
    case None => None
    case Some(mid) => Do(mid, actions[|actions| - 1])
  }

  /** The service just started over a store and a log that stand for `book`. */
  ghost predicate Init(s: State, book: Book) {
    && s.threads == map[] && s.cvHolder == None && s.seedHolder == None
    && s.core.phase == Listen && s.core.queue == []
    && s.core.sent == [] && s.core.received == [] && s.core.history == []
    && Holds(s.core.db, book.balances) && Records(s.core.log, book.entries)
    && IdsBelowSeed(s.core)
  }

  predicate IsId(key: string, bound: nat) {
    1 <= IdNumber(key) <= bound && key == FormatId(IdNumber(key))
  }

  ghost predicate IdsBelowSeed(c: Core) {
    forall k :: k in c.db ==> IsId(k, c.Seed())
  }
}
