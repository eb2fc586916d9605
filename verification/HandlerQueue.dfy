/** The order in which commands are received: last in, first out, over any run. */
module HandlerQueue {
  import opened Decimal
  import opened TextStore
  import opened Handlers

  /** No state of the run has fewer than `n` commands waiting. */
  ghost predicate NeverBelow(s: State, actions: seq<Action>, n: nat)
    requires Exec(s, actions).Some?
  {
    && n <= |Exec(s, actions).value.core.queue|
    && (actions == [] || NeverBelow(s, actions[..|actions| - 1], n))
  }

  /** A step appends one command, takes one from the end, or leaves the queue alone. */
  lemma StepQueue(s: State, a: Action)
    requires Do(s, a).Some?
    ensures
      var q, q' := s.core.queue, Do(s, a).value.core.queue;
      q' == q || (exists cmd :: q' == q + [cmd]) || (q != [] && q' == q[..|q| - 1])
  {
    hide Stoi, ToString, Wrap32, FormatId, EventsOf, Admit, ValidateStep, ApplyStep;
    if a.Go? {
      StepKeepsQueue(s.core, s.threads[a.id], a.ok);
    }
  }

  lemma StepKeepsQueue(c: Core, pc: Pc, ok: bool)
    ensures Validating(pc) ==> ValidateStep(c, pc).1.queue == c.queue
    ensures Applying(pc) ==> ApplyStep(c, pc, ok).1.queue == c.queue
  {
  }

  /** The commands at the bottom stay where they are as long as the queue does
      not get shorter than that. */
  lemma {:induction false} BottomStays(s: State, actions: seq<Action>, n: nat)
    requires Exec(s, actions).Some? && NeverBelow(s, actions, n)
    ensures n <= |s.core.queue| && s.core.queue[..n] == Exec(s, actions).value.core.queue[..n]
  {
    hide Do;
    if actions != [] {
      var front := actions[..|actions| - 1];
      BottomStays(s, front, n);
      StepQueue(Exec(s, front).value, actions[|actions| - 1]);
    }
  }

  /** Last in, first out. A handler sends `cmd` while `q` is waiting. However
      the run goes on, as long as more than `q` is waiting, a handler that then
      takes the queue back down to that length receives `cmd`, and `q` waits as before. */
  lemma LastInFirstOut(s: State, t: nat, sendOk: bool, actions: seq<Action>, u: nat, ok: bool)
    requires t in s.threads && s.threads[t].Send?
    requires
      var sent := Next(s, t, sendOk).value;
      Exec(sent, actions).Some? && NeverBelow(sent, actions, |s.core.queue| + 1)
    requires
      var mid := Exec(Next(s, t, sendOk).value, actions).value;
      && u in mid.threads && mid.threads[u].Receive? && |mid.core.queue| == |s.core.queue| + 1
    ensures
      var mid := Exec(Next(s, t, sendOk).value, actions).value;
      && Next(mid, u, ok).Some?
      && var end := Next(mid, u, ok).value;
         && end.core.queue == s.core.queue && end.core.command == s.threads[t].command
         && end.core.received == mid.core.received + [s.threads[t].command]
  {
    hide Exec, NeverBelow;
    var sent, n := Next(s, t, sendOk).value, |s.core.queue| + 1;
    BottomStays(sent, actions, n);
    var q := Exec(sent, actions).value.core.queue;
    assert q == q[..n] == sent.core.queue[..n] == s.core.queue + [s.threads[t].command];
  }
}
