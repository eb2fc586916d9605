/** Runs of one transfer from a fresh start that show where the simple laws stop
    holding: a credit that fails, a credit that wraps around, and a transfer from
    an account to itself. */
module HandlerExamples {
  import opened Decimal
  import opened Sums
  import opened Bookkeeping
  import opened TextStore
  import opened WalletService
  import opened Handlers
  import opened HandlerRequests
  import opened HandlerInvariant
  import opened HandlerTheorems

  function Account(i: nat): string {
    FormatId(i)
  }

  function StartStore(x: int, y: int): Store {
    map[Account(1) := ToString(x), Account(2) := ToString(y)]
  }

  function StartBook(x: int, y: int): Book {
    Book(map[Account(1) := x, Account(2) := y], [])
  }

  /** Two accounts, no handler running. */
  function Start(x: int, y: int): State {
    State(map[], None, None, Core(Listen, Command("", "", "", "", ""), [], StartStore(x, y), [], Some(2), [], [], []))
  }

  lemma StartIsInit(x: int, y: int)
    requires IsInt32(x) && IsInt32(y)
    ensures Account(1) != Account(2)
    ensures Init(Start(x, y), StartBook(x, y))
  {
    hide ToString, FormatId, IdNumber;
    IdRoundTrip(1);
    IdRoundTrip(2);
  }

  /** A transfer of `n` from account `i` to account `j`. */
  function Ask(i: nat, j: nat, n: int): Action {
    Arrive(0, BalanceTransfer(Some(Account(i)), Some(Account(j)), Some(ToString(n)), "tx"))
  }

  function Cmd(i: nat, j: nat, n: int): Command {
    Command("tx", Account(i), Account(j), ToString(n), "TRANSFER")
  }

  /** Handler 0 alone, at `pc`. */
  function Alone(pc: Pc, holder: Option<nat>, c: Core): State {
    State(map[0 := pc], holder, None, c)
  }

  lemma AloneWorks(pc: Pc, holder: Option<nat>, c: Core, ok: bool)
    requires !TakesLockStep(pc) && Work(c, pc, ok).Some?
    ensures Do(Alone(pc, holder, c), Go(0, ok)) == Some(Alone(Work(c, pc, ok).value.0, holder, Work(c, pc, ok).value.1))
  {
    hide Work;
    assert map[0 := pc][0 := Work(c, pc, ok).value.0] == map[0 := Work(c, pc, ok).value.0];
  }

  lemma AloneLocks(c: Core, ok: bool)
    ensures c.phase == Listen ==> Do(Alone(LockWait, None, c), Go(0, ok)) == Some(Alone(Receive, Some(0), c))
    ensures Do(Alone(Leave, Some(0), c), Go(0, ok)) == Some(Alone(Unlock, Some(0), c.(phase := Listen)))
    ensures Do(Alone(Unlock, Some(0), c), Go(0, ok)) == Some(Alone(Finished, None, c))
  {
    hide Work;
    assert map[0 := LockWait][0 := Receive] == map[0 := Receive];
    assert map[0 := Leave][0 := Unlock] == map[0 := Unlock];
    assert Wake(map[0 := Unlock]) == map[0 := Unlock];
    assert map[0 := Unlock][0 := Finished] == map[0 := Finished];
  }

  lemma Then(s: State, actions: seq<Action>, last: Action)
    requires Exec(s, actions).Some?
    ensures Exec(s, actions + [last]) == Do(Exec(s, actions).value, last)
  {
    hide Do;
    assert (actions + [last])[..|actions|] == actions;
  }

  /** The state of the service while it decides on `cmd`. */
  function Deciding(c: Core, cmd: Command, phase: Phase): Core {
    c.(phase := phase, command := cmd, queue := [], sent := [cmd], received := [cmd])
  }

  /** Handler 0 alone, up to its first write: nine actions. */
  function UpToDebit(i: nat, j: nat, n: int): seq<Action> {
    var go := Go(0, true);
    [Ask(i, j, n)] + [go] + [go] + [go] + [go] + [go] + [go] + [go] + [go]
  }

  /** A handler whose request passes the checks sends its command. */
  lemma ReachesQueue(s: State, i: nat, j: nat, n: int)
    requires s.threads == map[] && s.cvHolder == s.seedHolder == None && s.core.queue == []
    requires s.core.sent == [] && 0 < n && IsInt32(n)
    ensures
      var go, cmd := Go(0, true), Cmd(i, j, n);
      Exec(s, [Ask(i, j, n)] + [go] + [go]) == Some(Alone(LockWait, None, s.core.(queue := [cmd], sent := [cmd])))
  {
    hide ToString, FormatId, Stoi, Do, Exec, Work;
    var go, cmd, c, ask := Go(0, true), Cmd(i, j, n), s.core, Ask(i, j, n);
    Arrives(s, ask);
    Sends(c, i, j, n);
    Then(s, [ask], go);
    AloneWorks(Arrived(ask.request), None, c, true);
    Then(s, [ask] + [go], go);
    AloneWorks(Send(cmd), None, c, true);
  }

  lemma Sends(c: Core, i: nat, j: nat, n: int)
    requires c.queue == [] && c.sent == [] && 0 < n && IsInt32(n)
    ensures
      var cmd := Cmd(i, j, n);
      && Work(c, Arrived(Ask(i, j, n).request), true) == Some((Send(cmd), c))
      && Work(c, Send(cmd), true) == Some((LockWait, c.(queue := [cmd], sent := [cmd])))
  {
    hide ToString, FormatId, Stoi;
    StoiToString(n);
    assert c.queue + [Cmd(i, j, n)] == c.sent + [Cmd(i, j, n)] == [Cmd(i, j, n)];
  }

  lemma Receives(c: Core, cmd: Command)
    requires c.queue == [cmd] && c.sent == [cmd] && c.received == []
    ensures Work(c, Receive, true) == Some((GetTo, Deciding(c, cmd, Validate)))
  {
    assert [cmd][..0] == [] && c.received + [cmd] == [cmd];
  }

  lemma ReachesLock(s: State, i: nat, j: nat, n: int)
    requires s.threads == map[] && s.cvHolder == s.seedHolder == None && s.core.phase == Listen && s.core.queue == []
    requires s.core.sent == s.core.received == [] && 0 < n && IsInt32(n)
    ensures
      var go, cmd := Go(0, true), Cmd(i, j, n);
      Exec(s, [Ask(i, j, n)] + [go] + [go] + [go] + [go]) == Some(Alone(GetTo, Some(0), Deciding(s.core, cmd, Validate)))
  {
    hide ToString, FormatId, Stoi, Do, Exec, Work;
    var go, cmd, h := Go(0, true), Cmd(i, j, n), [Ask(i, j, n)] + [Go(0, true)] + [Go(0, true)];
    var c1 := s.core.(queue := [cmd], sent := [cmd]);
    ReachesQueue(s, i, j, n);
    Then(s, h, go);
    AloneLocks(c1, true);
    Then(s, h + [go], go);
    Receives(c1, cmd);
    AloneWorks(Receive, Some(0), c1, true);
  }

  lemma Arrives(s: State, ask: Action)
    requires s.threads == map[] && s.cvHolder == s.seedHolder == None && ask.Arrive? && ask.id == 0
    ensures Exec(s, [ask]) == Some(Alone(Arrived(ask.request), None, s.core))
  {
    assert [ask][..0] == [];
    assert Exec(s, []) == Some(s);
    assert map[][0 := Arrived(ask.request)] == map[0 := Arrived(ask.request)];
  }

  lemma ReachesDebit(s: State, i: nat, j: nat, n: int, x: int, y: int)
    requires s.threads == map[] && s.cvHolder == s.seedHolder == None && s.core.phase == Listen && s.core.queue == []
    requires s.core.sent == s.core.received == [] && IsInt32(x) && IsInt32(y) && 0 < n <= x
    requires Account(i) in s.core.db && s.core.db[Account(i)] == ToString(x)
    requires Account(j) in s.core.db && s.core.db[Account(j)] == ToString(y)
    ensures Exec(s, UpToDebit(i, j, n))
      == Some(Alone(PutDebit(x - n, Wrap32(y + n)), Some(0), Deciding(s.core, Cmd(i, j, n), Apply)))
  {
    hide ToString, FormatId, Stoi, Wrap32, Do, Exec;
    StoiToString(x);
    StoiToString(y);
    StoiToString(n);
    var go, cmd := Go(0, true), Cmd(i, j, n);
    var c, d := Deciding(s.core, cmd, Validate), Deciding(s.core, cmd, Apply);
    var h := [Ask(i, j, n)] + [go] + [go] + [go] + [go];
    ReachesLock(s, i, j, n);
    Then(s, h, go);
    AloneWorks(GetTo, Some(0), c, true);
    assert Exec(s, h + [go]) == Some(Alone(GetFrom, Some(0), c));
    Then(s, h + [go], go);
    AloneWorks(GetFrom, Some(0), c, true);
    assert Exec(s, h + [go] + [go]) == Some(Alone(GetDebited, Some(0), d));
    Then(s, h + [go] + [go], go);
    AloneWorks(GetDebited, Some(0), d, true);
    assert Exec(s, h + [go] + [go] + [go]) == Some(Alone(GetCredited(x), Some(0), d));
    Then(s, h + [go] + [go] + [go], go);
    AloneWorks(GetCredited(x), Some(0), d, true);
    WrapExact(x - n);
  }

  lemma WrapExact(n: int)
    requires IsInt32(n)
    ensures Wrap32(n) == n
  {
  }

  /** The transfer's run from `s`, from its arrival to its end. */
  function Schedule(i: nat, j: nat, n: int, creditOk: bool): seq<Action> {
    var go, h := Go(0, true), UpToDebit(i, j, n);
    if creditOk then h + [go] + [go] + [go] + [go] + [go] else h + [go] + [Go(0, false)] + [go] + [go]
  }

  /** What the run leaves in the store and in the log. */
  lemma Completes(s: State, i: nat, j: nat, n: int, x: int, y: int, creditOk: bool)
    requires s.threads == map[] && s.cvHolder == s.seedHolder == None && s.core.phase == Listen && s.core.queue == []
    requires s.core.sent == s.core.received == [] && IsInt32(x) && IsInt32(y) && 0 < n <= x
    requires Account(i) in s.core.db && s.core.db[Account(i)] == ToString(x)
    requires Account(j) in s.core.db && s.core.db[Account(j)] == ToString(y)
    ensures Exec(s, Schedule(i, j, n, creditOk)).Some?
    ensures
      var end, cmd := Exec(s, Schedule(i, j, n, creditOk)).value, Cmd(i, j, n);
      var debited := s.core.db[Account(i) := ToString(x - n)];
      && end.cvHolder == None && end.core.received == [cmd]
      && end.core.history == s.core.history + [Move(TransferOf(cmd), true, creditOk)]
      && end.core.db == (if creditOk then debited[Account(j) := ToString(Wrap32(y + n))] else debited)
      && end.core.log == (if creditOk then s.core.log + [EventsOf(cmd)] else s.core.log)
    ensures CreditFailed(s, Schedule(i, j, n, creditOk)) <== !creditOk
  {
    hide ToString, FormatId, Stoi, Wrap32, Do, Exec, EventsOf, TransferOf, UpToDebit;
    var go, cmd, h := Go(0, true), Cmd(i, j, n), UpToDebit(i, j, n);
    var c, b2 := Deciding(s.core, cmd, Apply), Wrap32(y + n);
    ReachesDebit(s, i, j, n, x, y);
    var d := c.(db := c.db[Account(i) := ToString(x - n)]);
    Then(s, h, go);
    AloneWorks(PutDebit(x - n, b2), Some(0), c, true);
    assert Exec(s, h + [go]) == Some(Alone(PutCredit(b2), Some(0), d));
    if creditOk {
      Credited(s, h + [go], d, b2);
    } else {
      Uncredited(s, h + [go], d, b2);
    }
  }

  lemma Credited(s: State, h: seq<Action>, d: Core, b2: int)
    requires Exec(s, h) == Some(Alone(PutCredit(b2), Some(0), d))
    ensures
      var go, e := Go(0, true), d.Decided(true, true).(db := d.db[d.command.toAccount := ToString(b2)]);
      Exec(s, h + [go] + [go] + [go] + [go])
        == Some(Alone(Finished, None, e.(log := e.log + [EventsOf(d.command)], phase := Listen)))
  {
    hide ToString, Do, Exec, EventsOf, TransferOf;
    var go, e := Go(0, true), d.Decided(true, true).(db := d.db[d.command.toAccount := ToString(b2)]);
    var f := e.(log := e.log + [EventsOf(d.command)]);
    Then(s, h, go);
    AloneWorks(PutCredit(b2), Some(0), d, true);
    assert Exec(s, h + [go]) == Some(Alone(Append, Some(0), e));
    Then(s, h + [go], go);
    AloneWorks(Append, Some(0), e, true);
    assert Exec(s, h + [go] + [go]) == Some(Alone(Leave, Some(0), f));
    Then(s, h + [go] + [go], go);
    AloneLocks(f, true);
    AloneLocks(f.(phase := Listen), true);
    Then(s, h + [go] + [go] + [go], go);
  }

  lemma Uncredited(s: State, h: seq<Action>, d: Core, b2: int)
    requires Exec(s, h) == Some(Alone(PutCredit(b2), Some(0), d))
    ensures
      var go, fail := Go(0, true), Go(0, false);
      && Exec(s, h + [fail] + [go] + [go]) == Some(Alone(Finished, None, d.Decided(true, false).(phase := Listen)))
      && CreditFailed(s, h + [fail] + [go] + [go])
  {
    hide Do, Exec, TransferOf;
    var go, fail, e := Go(0, true), Go(0, false), d.Decided(true, false);
    Then(s, h, fail);
    AloneWorks(PutCredit(b2), Some(0), d, false);
    var h1 := h + [fail];
    assert Exec(s, h1) == Some(Alone(Leave, Some(0), e));
    assert h1[..|h1| - 1] == h && CreditFailed(s, h1);
    Then(s, h1, go);
    AloneLocks(e, true);
    AloneLocks(e.(phase := Listen), true);
    var h2 := h1 + [go];
    assert h2[..|h2| - 1] == h1 && CreditFailed(s, h2);
    Then(s, h2, go);
    var h3 := h2 + [go];
    assert h3[..|h3| - 1] == h2;
  }

  /** A transfer of 5 from 10 whose credit fails: the money is gone from the
      store, nothing is logged, and the service goes on. */
  lemma HalfAppliedRun()
    ensures Init(Start(10, 0), StartBook(10, 0)) && Exec(Start(10, 0), Schedule(1, 2, 5, false)).Some?
    ensures
      var end := Exec(Start(10, 0), Schedule(1, 2, 5, false)).value;
      && end.cvHolder == None && end.core.db == StartStore(5, 0) && end.core.log == []
      && Total(ReadStore(end.core.db)) + InFlight(end) != Total(StartBook(10, 0).balances) + DepositsAsked(Start(10, 0), Schedule(1, 2, 5, false))
  {
    hide ToString, FormatId, Exec, Init, UpToDebit, Schedule, ReadStore, Total, DepositsAsked, CreditFailed;
    StartIsInit(10, 0);
    Completes(Start(10, 0), 1, 2, 5, 10, 0, false);
    MoneyConserved(Start(10, 0), StartBook(10, 0), Schedule(1, 2, 5, false));
  }

  /** Crediting 1 to an account that holds 2^31-1 leaves it at -2^31. */
  lemma WrappedRun()
    ensures Init(Start(1, INT_MAX), StartBook(1, INT_MAX)) && Exec(Start(1, INT_MAX), Schedule(1, 2, 1, true)).Some?
    ensures
      var end := Exec(Start(1, INT_MAX), Schedule(1, 2, 1, true)).value;
      end.cvHolder == None && end.core.db == StartStore(0, INT_MIN) && |end.core.log| == 1
  {
    hide ToString, FormatId, Exec, Init, UpToDebit, Schedule, EventsOf;
    StartIsInit(1, INT_MAX);
    Completes(Start(1, INT_MAX), 1, 2, 1, 1, INT_MAX, true);
    assert Wrap32(INT_MAX + 1) == INT_MIN;
  }

  /** A transfer of 5 from an account to itself raises it from 10 to 15. */
  lemma SelfTransferRun()
    ensures Init(Start(10, 0), StartBook(10, 0)) && Exec(Start(10, 0), Schedule(1, 1, 5, true)).Some?
    ensures
      var end := Exec(Start(10, 0), Schedule(1, 1, 5, true)).value;
      end.cvHolder == None && end.core.db == StartStore(15, 0) && |end.core.log| == 1
  {
    hide ToString, FormatId, Exec, Init, UpToDebit, Schedule, EventsOf;
    StartIsInit(10, 0);
    Completes(Start(10, 0), 1, 1, 5, 10, 10, true);
    assert Wrap32(15) == 15;
  }

  // ----- Creating an account -----

  /** Handler 0 alone, holding the seed lock or not. */
  function Creating(pc: Pc, holder: Option<nat>, c: Core): State {
    State(map[0 := pc], None, holder, c)
  }

  function Creation(p: string): seq<Action> {
    var go := Go(0, true);
    [Arrive(0, CreateAccount(Some(p)))] + [go] + [go] + [go] + [go] + [go] + [go]
  }

  lemma CreatingWorks(pc: Pc, holder: Option<nat>, c: Core)
    requires !TakesLockStep(pc) && Work(c, pc, true).Some?
    ensures Do(Creating(pc, holder, c), Go(0, true))
      == Some(Creating(Work(c, pc, true).value.0, holder, Work(c, pc, true).value.1))
  {
    hide Work;
    assert map[0 := pc][0 := Work(c, pc, true).value.0] == map[0 := Work(c, pc, true).value.0];
  }

  lemma CreatingLocks(a: int, n: nat, c: Core)
    ensures Do(Creating(SeedLock(a), None, c), Go(0, true)) == Some(Creating(SeedRead(a), Some(0), c))
    ensures Do(Creating(SeedUnlock(a, n), Some(0), c), Go(0, true)) == Some(Creating(PutNew(a, n), None, c))
  {
    hide Work;
    assert map[0 := SeedLock(a)][0 := SeedRead(a)] == map[0 := SeedRead(a)];
    assert map[0 := SeedUnlock(a, n)][0 := PutNew(a, n)] == map[0 := PutNew(a, n)];
  }

  lemma ReachesSeed(s: State, p: string, n: int)
    requires s.threads == map[] && s.cvHolder == s.seedHolder == None && Stoi(p) == Some(n) && n >= 0
    ensures Exec(s, [Arrive(0, CreateAccount(Some(p)))] + [Go(0, true)] + [Go(0, true)])
      == Some(Creating(SeedRead(n), Some(0), s.core))
  {
    hide ToString, FormatId, Stoi, Do, Exec;
    var go, ask, c := Go(0, true), Arrive(0, CreateAccount(Some(p))), s.core;
    Arrives(s, ask);
    Then(s, [ask], go);
    CreatingWorks(Arrived(ask.request), None, c);
    Then(s, [ask] + [go], go);
    CreatingLocks(n, 0, c);
  }

  /** A creation alone: the next identifier gets the amount that was asked for,
      and the counter goes up by one. */
  lemma Creates(s: State, p: string, n: int)
    requires s.threads == map[] && s.cvHolder == s.seedHolder == None && Stoi(p) == Some(n) && n >= 0
    ensures Exec(s, Creation(p)).Some?
    ensures
      var end, number := Exec(s, Creation(p)).value.core, s.core.Seed() + 1;
      end == s.core.(seed := Some(number), db := s.core.db[FormatId(number) := ToString(n)],
                     history := s.core.history + [Open(FormatId(number), n, true)])
  {
    hide ToString, FormatId, Stoi, Do, Exec;
    var go, c, number := Go(0, true), s.core, s.core.Seed() + 1;
    ReachesSeed(s, p, n);
    var h, c1 := [Arrive(0, CreateAccount(Some(p)))] + [go] + [go], c.(seed := Some(c.Seed()));
    Then(s, h, go);
    CreatingWorks(SeedRead(n), Some(0), c);
    Then(s, h + [go], go);
    CreatingWorks(SeedWrite(n, number), Some(0), c1);
    var c2 := c.(seed := Some(number));
    assert Exec(s, h + [go] + [go]) == Some(Creating(SeedUnlock(n, number), Some(0), c2));
    Then(s, h + [go] + [go], go);
    CreatingLocks(n, number, c2);
    Then(s, h + [go] + [go] + [go], go);
    CreatingWorks(PutNew(n, number), None, c2);
  }

  lemma Hundred()
    ensures ToString(100) == "100" && AllDigits("100") && Value("100") == 100 && FormatId(1) == "700000001"
  {
    DecimalNotation(10, 0, "10");
    DecimalNotation(1, 0, "1");
    DecimalNotation(1, 1, "");
    assert "" + ["0123456789"[1]] == "1" && "1" + ["0123456789"[0]] == "10" && "10" + ["0123456789"[0]] == "100";
    assert Digits(1) == "1" && Zeros(7) == "0000000";
  }

  /** The first account ever, opened with " +100 coins", is 700000001 and holds 100. */
  lemma CreationRun()
    ensures
      var start := State(map[], None, None, Core(Listen, Command("", "", "", "", ""), [], map[], [], None, [], [], []));
      && Init(start, Book(map[], [])) && Exec(start, Creation(" +100 coins")).Some?
      && Exec(start, Creation(" +100 coins")).value.core.db == map["700000001" := "100"]
  {
    hide Exec, Creation, ToString, FormatId, Stoi, IdNumber;
    var start := State(map[], None, None, Core(Listen, Command("", "", "", "", ""), [], map[], [], None, [], [], []));
    StoiReads(" ", "+", "100", " coins");
    Hundred();
    assert " " + "+" + "100" + " coins" == " +100 coins";
    Creates(start, " +100 coins", 100);
  }
}
