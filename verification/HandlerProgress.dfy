/** No deadlock, no endless run, and what holds when every handler is done. */
module HandlerProgress {
  import opened Decimal
  import opened Sums
  import opened Bookkeeping
  import opened TextStore
  import opened WalletService
  import opened Handlers
  import opened HandlerRequests
  import opened HandlerInvariant

  /** A handler in the middle of `toggle` is never blocked: neither the wait for
      LISTEN nor the wait for a message can hold it up. */
  lemma HolderRuns(s: State, book: Book, t: nat, ok: bool)
    requires Inv(s, book) && s.cvHolder == Some(t)
    ensures t in s.threads && Next(s, t, ok).Some?
  {
    hide Stoi, Wrap32, ToString, Ids, Commands, Refines, Delivered;
    if s.threads[t].Receive? {
      assert t in Waiting(s.threads);
      assert |s.core.queue| != 0;
    }
  }

  /** Whoever waits for `cv_m` gets it as soon as it is free. */
  lemma WaiterRuns(s: State, book: Book, t: nat, ok: bool)
    requires Inv(s, book) && s.cvHolder == None && t in s.threads && s.threads[t].LockWait?
    ensures Next(s, t, ok) == Some(s.(threads := s.threads[t := Receive], cvHolder := Some(t)))
  {
  }

  ghost predicate AllFinished(s: State) {
    forall t :: t in s.threads ==> s.threads[t].Finished?
  }

  ghost predicate CanStep(s: State, t: nat) {
    t in s.threads && Next(s, t, true).Some? && Next(s, t, false).Some?
  }

  lemma SeedHolderRuns(s: State, book: Book, t: nat)
    requires Inv(s, book) && s.seedHolder == Some(t)
    ensures CanStep(s, t)
  {
    hide Stoi, Wrap32, ToString, Ids, Commands, Refines, Delivered;
  }

  /** In every reachable state some unfinished handler can take a step. */
  lemma NeverStuck(s: State, book: Book)
    requires Inv(s, book) && !AllFinished(s)
    ensures exists t :: CanStep(s, t)
  {
    hide Stoi, Wrap32, ToString, Ids, Commands, Refines, Delivered;
    var t :| t in s.threads && !s.threads[t].Finished?;
    if s.cvHolder.Some? {
      HolderRuns(s, book, s.cvHolder.value, true);
      HolderRuns(s, book, s.cvHolder.value, false);
      assert CanStep(s, s.cvHolder.value);
    } else if s.seedHolder.Some? {
      SeedHolderRuns(s, book, s.seedHolder.value);
    } else {
      assert CanStep(s, t);
    }
  }

  // ----- Every run ends -----

  function StepsLeft(pc: Pc): nat {
    match pc
    case Arrived(_) => 17
    case SeedLock(_) => 5
    case SeedRead(_) => 4
    case SeedWrite(_, _) => 3
    case SeedUnlock(_, _) => 2
    case PutNew(_, _) => 1
    case Send(_) => 12
    case LockWait => 11
    case Parked => 11
    case Receive => 10
    case GetTo => 9
    case GetFrom => 8
    case GetDebited => 7
    case GetCredited(_) => 6
    case PutDebit(_, _) => 5
    case PutCredit(_) => 4
    case Append => 3
    case Leave => 2
    case Unlock => 1
    case Throwing => 1
    case Finished => 0
  }

  ghost function StepMap(threads: map<nat, Pc>): map<nat, int> {
    map t | t in threads :: StepsLeft(threads[t])
  }

  /** A bound on the steps the present handlers can still take together. */
  ghost function Effort(s: State): int {
    Total(StepMap(s.threads))
  }

  lemma EffortNonNegative(s: State)
    ensures Effort(s) >= 0
  {
    SumNonNegative(StepMap(s.threads), StepMap(s.threads).Keys);
  }

  lemma WorkDescends(c: Core, pc: Pc, ok: bool)
    requires Work(c, pc, ok).Some?
    ensures StepsLeft(Work(c, pc, ok).value.0) < StepsLeft(pc)
  {
    hide Stoi, Wrap32, ToString, FormatId, TransferOf, EventsOf;
  }

  lemma EffortAfter(threads: map<nat, Pc>, t: nat, pc: Pc)
    requires t in threads
    ensures Total(StepMap(threads[t := pc])) == Total(StepMap(threads)) + StepsLeft(pc) - StepsLeft(threads[t])
  {
    var m, m' := StepMap(threads), StepMap(threads[t := pc]);
    assert m' == m[t := StepsLeft(pc)] && m'.Keys == m.Keys;
    SumUpdate(m, m.Keys, t, StepsLeft(pc));
  }

  lemma StepDescends(s: State, book: Book, t: nat, ok: bool)
    requires Inv(s, book) && t in s.threads && Next(s, t, ok).Some?
    ensures Effort(Next(s, t, ok).value) < Effort(s)
  {
    hide Work, Ids, Commands, Delivered, Refines, Run, StepMap, Total, Next, Moved;
    var s' := Next(s, t, ok).value;
    HolderIsSafe(s, book, t);
    StepMoves(s, t, ok);
    StepGoes(s, s', t);
    if TakesLockStep(s.threads[t]) {
      LockStepGoes(s, t, ok);
    } else {
      NextIsWork(s, t, ok);
      WorkDescends(s.core, s.threads[t], ok);
    }
    EffortAfter(s.threads, t, s'.threads[t]);
  }

  lemma StepGoes(s: State, s': State, t: nat)
    requires t in s.threads && Moved(s, s', t)
    ensures t in s'.threads && s'.threads == s.threads[t := s'.threads[t]]
  {
  }

  lemma HolderIsSafe(s: State, book: Book, t: nat)
    requires Inv(s, book) && t in s.threads
    ensures !s.threads[t].Throwing?
  {
    hide Ids, Commands, Delivered, Holds, Records, Run, FreshOpens, ValidOps, Waiting;
  }

  ghost predicate NoArrivals(actions: seq<Action>) {
    forall i :: 0 <= i < |actions| ==> actions[i].Go?
  }

  /** Without new arrivals every schedule is finite: it cannot be longer than
      the effort left. With `NeverStuck`, every maximal one ends with all
      handlers finished. */
  lemma {:induction false} RunsEnd(s: State, book: Book, actions: seq<Action>)
    requires Inv(s, book) && NoArrivals(actions) && Exec(s, actions).Some?
    ensures Inv(Exec(s, actions).value, book)
    ensures |actions| + Effort(Exec(s, actions).value) <= Effort(s)
    ensures |actions| <= Effort(s)
  {
    hide Next, Inv, Effort;
    if actions != [] {
      var front, last := actions[..|actions| - 1], actions[|actions| - 1];
      RunsEnd(s, book, front);
      StepDescends(Exec(s, front).value, book, last.id, last.ok);
      StepKeeps(Exec(s, front).value, book, last.id, last.ok);
    }
    EffortNonNegative(Exec(s, actions).value);
  }

  /** When every handler is done, both locks are free, the machine listens, and
      every command that was sent was received and decided exactly once. */
  lemma Quiescent(s: State, book: Book)
    requires Inv(s, book) && AllFinished(s)
    ensures s.cvHolder == None && s.seedHolder == None && s.core.phase == Listen
    ensures s.core.queue == [] && multiset(s.core.sent) == multiset(s.core.received)
    ensures Moves(s.core.history) == Transfers(s.core.received)
    ensures Holds(s.core.db, Run(book, s.core.history).balances) && Records(s.core.log, Run(book, s.core.history).entries)
  {
    assert Waiting(s.threads) == {};
    assert s.core.queue == [];
  }

  /** Then every valid request was served exactly once and as it asked: its
      command is among those received, or its account was opened with its amount;
      invalid requests left no trace. */
  lemma EveryRequestServed(s0: State, book: Book, actions: seq<Action>, t: nat, r: Request)
    requires Init(s0, book) && Exec(s0, actions).Some? && AllFinished(Exec(s0, actions).value)
    requires RequestOf(actions, t) == Some(r)
    ensures
      var c, senders, creators := Exec(s0, actions).value.core, Senders(s0, actions), Creators(s0, actions);
      && multiset(c.sent) == multiset(c.received) && |c.sent| == |senders| && |Opens(c.history)| == |creators|
      && NoRepeats(senders) && NoRepeats(creators)
      && (CommandAsked(r).Some? <==> t in senders) && (AmountAsked(r).Some? <==> t in creators)
      && (forall i :: 0 <= i < |senders| && senders[i] == t ==> CommandAsked(r) == Some(c.sent[i]))
      && (forall i :: 0 <= i < |creators| && creators[i] == t ==>
            Opens(c.history)[i].Open? && AmountAsked(r) == Some(Opens(c.history)[i].amount))
  {
    hide Exec, Inv, RequestOf, AmountAsked, CommandAsked, Opens, Deposits;
    EveryRunKeeps(s0, book, actions);
    Quiescent(Exec(s0, actions).value, book);
  }
}
