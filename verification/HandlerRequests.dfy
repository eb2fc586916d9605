/** What requests ask for, and that in every run each handler does what its own
    request asked, once. */
module HandlerRequests {
  import opened Decimal
  import opened Bookkeeping
  import opened TextStore
  import opened Handlers

  // ----- What a request asks for -----

  /** The balance that a valid creation asks for. */
  function AmountAsked(r: Request): Option<int> {
    match r
    case CreateAccount(Some(p)) =>
      (match Stoi(p)
       case Some(n) => if n >= 0 then Some(n) else None
       case None => None)
    case _ => None
  }

  /** The command that a valid transfer asks for; its amount is sent in canonical form. */
  function CommandAsked(r: Request): Option<Command> {
    match r
    case BalanceTransfer(Some(src), Some(dst), Some(p), txId) =>
      (match Stoi(p)
       case Some(n) => if n > 0 then Some(Command(txId, src, dst, ToString(n), "TRANSFER")) else None
       case None => None)
    case _ => None
  }

  /** The request with which handler `t` arrived. */
  function RequestOf(actions: seq<Action>, t: nat): Option<Request> {
    if actions == [] then None else
    var last := actions[|actions| - 1];
    if last.Arrive? && last.id == t then Some(last.request) else RequestOf(actions[..|actions| - 1], t)
  }

  // ----- What the handlers did -----

  /** Where the handler of the last action stood before it. */
  ghost function LastPc(s0: State, actions: seq<Action>): Pc
    requires actions != [] && Exec(s0, actions).Some?
  {
    var mid, last := Exec(s0, actions[..|actions| - 1]).value, actions[|actions| - 1];
    if last.Go? then mid.threads[last.id] else Finished
  }

  /** The handlers that sent a command, in that order. */
  ghost function Senders(s0: State, actions: seq<Action>): seq<nat>
    requires Exec(s0, actions).Some?
  {
    if actions == [] then [] else
    Senders(s0, actions[..|actions| - 1]) + if LastPc(s0, actions).Send? then [actions[|actions| - 1].id] else []
  }

  /** The handlers that wrote a new account, or tried to, in that order. */
  ghost function Creators(s0: State, actions: seq<Action>): seq<nat>
    requires Exec(s0, actions).Some?
  {
    if actions == [] then [] else
    Creators(s0, actions[..|actions| - 1]) + if LastPc(s0, actions).PutNew? then [actions[|actions| - 1].id] else []
  }

  /** The money asked for in the creations whose write succeeded. */
  ghost function DepositsAsked(s0: State, actions: seq<Action>): int
    requires Exec(s0, actions).Some?
  {
    if actions == [] then 0 else
    var last := actions[|actions| - 1];
    DepositsAsked(s0, actions[..|actions| - 1])
      + if LastPc(s0, actions).PutNew? && last.ok then Asked(RequestOf(actions, last.id)) else 0
  }

  function Asked(r: Option<Request>): int {
    if r.Some? && AmountAsked(r.value).Some? then AmountAsked(r.value).value else 0
  }

  /** The account creations of a history. */
  function Opens(ops: seq<Op>): seq<Op> {
    if ops == [] then [] else
    var last := ops[|ops| - 1];
    Opens(ops[..|ops| - 1]) + if last.Open? then [last] else []
  }

  // ----- Every handler serves its own request -----

  /** A handler at `pc` serves `r`; `sent` and `created` say what it has done. */
  ghost predicate Serves(pc: Pc, r: Request, sent: bool, created: bool) {
    match pc
    case Arrived(request) => request == r && !sent && !created
    case SeedLock(a) => AmountAsked(r) == Some(a) && !sent && !created
    case SeedRead(a) => AmountAsked(r) == Some(a) && !sent && !created
    case SeedWrite(a, _) => AmountAsked(r) == Some(a) && !sent && !created
    case SeedUnlock(a, _) => AmountAsked(r) == Some(a) && !sent && !created
    case PutNew(a, _) => AmountAsked(r) == Some(a) && !sent && !created
    case Send(cmd) => CommandAsked(r) == Some(cmd) && !sent && !created
    case Finished => (sent <==> CommandAsked(r).Some?) && (created <==> AmountAsked(r).Some?)
    case _ => CommandAsked(r).Some? && sent && !created
  }

  ghost predicate NoRepeats(s: seq<nat>) {
    forall i, j :: 0 <= i < j < |s| ==> s[i] != s[j]
  }

  /** The handlers of the run: each has a request and serves it. */
  ghost predicate AllServe(s: State, actions: seq<Action>, senders: seq<nat>, creators: seq<nat>) {
    && (forall t :: t in s.threads ==>
          RequestOf(actions, t).Some? && Serves(s.threads[t], RequestOf(actions, t).value, t in senders, t in creators))
    && (forall t :: t !in s.threads ==> RequestOf(actions, t).None? && t !in senders && t !in creators)
    && NoRepeats(senders) && NoRepeats(creators)
  }

  /** What was sent is what the senders' requests ask for. */
  ghost predicate SentAsAsked(sent: seq<Command>, senders: seq<nat>, actions: seq<Action>) {
    && |sent| == |senders|
    && forall i :: 0 <= i < |sent| ==>
         RequestOf(actions, senders[i]).Some? && CommandAsked(RequestOf(actions, senders[i]).value) == Some(sent[i])
  }

  /** What was put into new accounts is what the creators' requests ask for. */
  ghost predicate OpenedAsAsked(opens: seq<Op>, creators: seq<nat>, actions: seq<Action>) {
    && |opens| == |creators|
    && forall i :: 0 <= i < |opens| ==>
         && opens[i].Open? && RequestOf(actions, creators[i]).Some?
         && AmountAsked(RequestOf(actions, creators[i]).value) == Some(opens[i].amount)
  }

  ghost predicate Served(s0: State, actions: seq<Action>)
    requires Exec(s0, actions).Some?
  {
    var s, senders, creators := Exec(s0, actions).value, Senders(s0, actions), Creators(s0, actions);
    && AllServe(s, actions, senders, creators)
    && SentAsAsked(s.core.sent, senders, actions)
    && OpenedAsAsked(Opens(s.core.history), creators, actions)
    && Deposits(s.core.history) == DepositsAsked(s0, actions)
  }

  // ----- One step -----

  /** Where a handler goes next still serves its request. */
  lemma StepServes(s: State, t: nat, ok: bool, r: Request, sent: bool, created: bool)
    requires t in s.threads && Next(s, t, ok).Some? && Serves(s.threads[t], r, sent, created)
    ensures
      var pc, s' := s.threads[t], Next(s, t, ok).value;
      && t in s'.threads && Serves(s'.threads[t], r, sent || pc.Send?, created || pc.PutNew?)
      && (pc.Send? || pc.PutNew? ==> !sent && !created)
  {
    hide Work, Stoi, ToString;
    var pc := s.threads[t];
    if Work(s.core, pc, ok).Some? {
      WorkServes(s.core, pc, ok, r, sent, created);
    }
  }

  lemma WorkServes(c: Core, pc: Pc, ok: bool, r: Request, sent: bool, created: bool)
    requires Work(c, pc, ok).Some? && Serves(pc, r, sent, created)
    ensures Serves(Work(c, pc, ok).value.0, r, sent || pc.Send?, created || pc.PutNew?)
    ensures pc.Send? || pc.PutNew? ==> !sent && !created
  {
    hide Stoi, ToString, Wrap32, FormatId, EventsOf;
  }

  /** The other handlers are where they were, or were woken. */
  lemma OthersServe(s: State, t: nat, ok: bool, u: nat, r: Request, sent: bool, created: bool)
    requires t in s.threads && Next(s, t, ok).Some? && u != t
    ensures
      var s' := Next(s, t, ok).value;
      && (u in s'.threads <==> u in s.threads)
      && (u in s.threads && Serves(s.threads[u], r, sent, created) ==> Serves(s'.threads[u], r, sent, created))
  {
    hide Work, AmountAsked, CommandAsked;
  }

  /** What a step adds to the record of commands and creations. */
  lemma StepRecords(s: State, t: nat, ok: bool)
    requires t in s.threads && Next(s, t, ok).Some?
    ensures
      var pc, c, c' := s.threads[t], s.core, Next(s, t, ok).value.core;
      && c'.sent == (if pc.Send? then c.sent + [pc.command] else c.sent)
      && (c'.history == c.history
          || (|c'.history| == |c.history| + 1 && c'.history[..|c.history|] == c.history))
      && (pc.PutNew? ==> c'.history == c.history + [Open(FormatId(pc.number), pc.amount, ok)])
      && (!pc.PutNew? && c'.history != c.history ==> c'.history[|c.history|].Move?)
  {
    hide Work, FormatId;
    var pc := s.threads[t];
    if Work(s.core, pc, ok).Some? {
      WorkRecords(s.core, pc, ok);
    }
  }

  lemma WorkRecords(c: Core, pc: Pc, ok: bool)
    requires Work(c, pc, ok).Some?
    ensures
      var c' := Work(c, pc, ok).value.1;
      && c'.sent == (if pc.Send? then c.sent + [pc.command] else c.sent)
      && (c'.history == c.history
          || (|c'.history| == |c.history| + 1 && c'.history[..|c.history|] == c.history))
      && (pc.PutNew? ==> c'.history == c.history + [Open(FormatId(pc.number), pc.amount, ok)])
      && (!pc.PutNew? && c'.history != c.history ==> c'.history[|c.history|].Move?)
  {
    hide Stoi, ToString, Wrap32, FormatId, EventsOf, Admit;
  }

  // ----- Every run -----

  lemma RequestsStay(actions: seq<Action>, a: Action, t: nat)
    ensures RequestOf(actions + [a], t)
      == if a.Arrive? && a.id == t then Some(a.request) else RequestOf(actions, t)
  {
    assert (actions + [a])[..|actions|] == actions;
  }

  /** One more action, of a handler that goes on. */
  lemma GoServes(s: State, actions: seq<Action>, t: nat, ok: bool, senders: seq<nat>, creators: seq<nat>)
    requires t in s.threads && Next(s, t, ok).Some? && AllServe(s, actions, senders, creators)
    ensures
      var pc := s.threads[t];
      AllServe(Next(s, t, ok).value, actions + [Go(t, ok)],
        senders + (if pc.Send? then [t] else []), creators + if pc.PutNew? then [t] else [])
  {
    hide Next, Serves, RequestOf;
    var pc, s', more := s.threads[t], Next(s, t, ok).value, actions + [Go(t, ok)];
    var senders', creators' := senders + (if pc.Send? then [t] else []), creators + if pc.PutNew? then [t] else [];
    var r := RequestOf(actions, t).value;
    StepServes(s, t, ok, r, t in senders, t in creators);
    forall u ensures RequestOf(more, u) == RequestOf(actions, u) {
      RequestsStay(actions, Go(t, ok), u);
    }
    assert t in senders' <==> t in senders || pc.Send?;
    assert t in creators' <==> t in creators || pc.PutNew?;
    forall u | u != t
      ensures u in s'.threads <==> u in s.threads
      ensures u in s.threads ==> Serves(s'.threads[u], RequestOf(actions, u).value, u in senders', u in creators')
    {
      assert (u in senders' <==> u in senders) && (u in creators' <==> u in creators);
      OthersServe(s, t, ok, u, if u in s.threads then RequestOf(actions, u).value else r, u in senders, u in creators);
    }
  }

  lemma ArrivalServes(s: State, actions: seq<Action>, t: nat, request: Request, senders: seq<nat>, creators: seq<nat>)
    requires t !in s.threads && AllServe(s, actions, senders, creators)
    ensures AllServe(s.(threads := s.threads[t := Arrived(request)]), actions + [Arrive(t, request)], senders, creators)
  {
    hide RequestOf;
    var s', more := s.(threads := s.threads[t := Arrived(request)]), actions + [Arrive(t, request)];
    forall u ensures RequestOf(more, u) == if u == t then Some(request) else RequestOf(actions, u) {
      RequestsStay(actions, Arrive(t, request), u);
    }
  }

  /** Requests of handlers that have acted stay what they were. */
  lemma RecordsStay(s: State, actions: seq<Action>, a: Action, senders: seq<nat>, creators: seq<nat>)
    requires AllServe(s, actions, senders, creators) && (a.Arrive? ==> a.id !in s.threads)
    ensures SentAsAsked(s.core.sent, senders, actions) ==> SentAsAsked(s.core.sent, senders, actions + [a])
    ensures OpenedAsAsked(Opens(s.core.history), creators, actions)
      ==> OpenedAsAsked(Opens(s.core.history), creators, actions + [a])
  {
    hide RequestOf, Serves, AmountAsked, CommandAsked, Opens;
    forall t ensures RequestOf(actions, t).Some? ==> RequestOf(actions + [a], t) == RequestOf(actions, t) {
      RequestsStay(actions, a, t);
    }
  }

  lemma OpensAppend(ops: seq<Op>, op: Op)
    ensures Opens(ops + [op]) == Opens(ops) + if op.Open? then [op] else []
    ensures Deposits(ops + [op]) == Deposits(ops) + if op.Open? && op.stored then op.amount else 0
  {
    assert (ops + [op])[..|ops|] == ops;
  }

  /** What a step records is what its handler's request asks for. */
  lemma StepAsAsked(s: State, actions: seq<Action>, t: nat, ok: bool, senders: seq<nat>, creators: seq<nat>)
    requires t in s.threads && Next(s, t, ok).Some? && AllServe(s, actions, senders, creators)
    requires SentAsAsked(s.core.sent, senders, actions) && OpenedAsAsked(Opens(s.core.history), creators, actions)
    ensures
      var pc, c, more := s.threads[t], Next(s, t, ok).value.core, actions + [Go(t, ok)];
      && SentAsAsked(c.sent, senders + (if pc.Send? then [t] else []), more)
      && OpenedAsAsked(Opens(c.history), creators + (if pc.PutNew? then [t] else []), more)
      && Deposits(c.history) == Deposits(s.core.history) + if pc.PutNew? && ok then Asked(RequestOf(more, t)) else 0
  {
    hide Next, RequestOf, AmountAsked, CommandAsked, Opens, Deposits, FormatId;
    var pc, c, more := s.threads[t], Next(s, t, ok).value.core, actions + [Go(t, ok)];
    RecordsStay(s, actions, Go(t, ok), senders, creators);
    RequestsStay(actions, Go(t, ok), t);
    StepRecords(s, t, ok);
    var h := s.core.history;
    if c.history != h {
      OpensAppend(h, c.history[|h|]);
      assert c.history == h + [c.history[|h|]];
    }
  }

  /** In every run every handler serves the request it arrived with: a transfer
      sends its command once, a creation writes the amount asked for once, and
      nothing else is sent or written. */
  lemma {:induction false} EveryRunServes(s0: State, actions: seq<Action>)
    requires s0.threads == map[] && s0.core.sent == [] && s0.core.history == [] && Exec(s0, actions).Some?
    ensures Served(s0, actions)
  {
    hide Next, AllServe, SentAsAsked, OpenedAsAsked, Opens, Deposits;
    if actions == [] {
      NothingServed(s0);
    } else {
      var front, last := actions[..|actions| - 1], actions[|actions| - 1];
      assert actions == front + [last];
      EveryRunServes(s0, front);
      var mid := Exec(s0, front).value;
      match last {
        case Arrive(t, request) =>
          ArrivalServes(mid, front, t, request, Senders(s0, front), Creators(s0, front));
          RecordsStay(mid, front, last, Senders(s0, front), Creators(s0, front));
          assert Senders(s0, actions) == Senders(s0, front) && Creators(s0, actions) == Creators(s0, front);
        case Go(t, ok) =>
          GoServes(mid, front, t, ok, Senders(s0, front), Creators(s0, front));
          StepAsAsked(mid, front, t, ok, Senders(s0, front), Creators(s0, front));
      }
    }
  }

  lemma NothingServed(s0: State)
    requires s0.threads == map[] && s0.core.sent == [] && s0.core.history == []
    ensures Served(s0, [])
  {
  }

  /** A creation under way carries the amount its request asked for, and its
      write stores that amount under the new identifier. */
  lemma CreationStores(s0: State, actions: seq<Action>, t: nat, p: string, ok: bool)
    requires s0.threads == map[] && s0.core.sent == [] && s0.core.history == [] && Exec(s0, actions).Some?
    requires t in Exec(s0, actions).value.threads && RequestOf(actions, t) == Some(CreateAccount(Some(p)))
    ensures
      var s := Exec(s0, actions).value;
      var pc := s.threads[t];
      && (pc.SeedLock? || pc.SeedRead? || pc.SeedWrite? || pc.SeedUnlock? || pc.PutNew? ==> Stoi(p) == Some(pc.amount))
      && (pc.PutNew? ==>
            && Stoi(p).Some? && Next(s, t, ok).Some?
            && Next(s, t, ok).value.core.db
               == if ok then s.core.db[FormatId(pc.number) := ToString(Stoi(p).value)] else s.core.db)
  {
    hide Exec, Stoi, ToString, FormatId, SentAsAsked, OpenedAsAsked, Opens, Deposits, RequestOf;
    EveryRunServes(s0, actions);
  }
}
