/**
 * The two authorization layers put together: a chain (src/core/nm-auth-utils.c) that uses the
 * authorization manager (src/core/nm-auth-manager.c). What the manager does is, through the contract, a
 * step of the chain's surroundings; what the chain asks for is a run of the manager.
 */
module AuthStack {
  import opened Common
  import opened AuthContract
  import Lower = AuthMachine
  import Upper = AuthChainMachine

  /** Both invariants hold, and the chain sees what the manager promises. */
  ghost predicate Joined(m: Lower.Manager, s: Upper.System) {
    Lower.Inv(m) && Upper.Inv(s) && s.contract == Lower.View(m)
  }

  // ----- From the manager to the chain --------------------------------------------------------

  /** A move of the contract, as the chain sees it. */
  function EventOf(v: Move): Option<Upper.Event> {
    match v
    case Stay => None
    case Asked => Some(Upper.OthersAsk)
    case Answered(id, a) => Some(Upper.AnswerArrives(id, a))
    case Withdrawn(id) => Some(Upper.OthersCancel(id))
    case Closed => Some(Upper.ManagerCloses)
  }

  /** A move that is not the chain's own doing: the chain withdraws its own requests itself, and gets no
      answer while its done-callback keeps the main loop from running. */
  ghost predicate IsForeign(s: Upper.System, v: Move) {
    && (v.Withdrawn? ==> !Upper.Owns(s.chain.calls, v.id))
    && (v.Answered? ==> s.chain.finishing ==> s.chain.gone)
  }

  function After(s: Upper.System, e: Option<Upper.Event>): Upper.System
    requires e.Some? ==> Upper.Enabled(s, e.value)
  {
    if e.None? then s else Upper.Step(s, e.value)
  }

  /** Every foreign move the contract allows is an event the chain is prepared for. */
  lemma MoveIsAnEvent(s: Upper.System, v: Move, c: Contract)
    requires Moves(s.contract, v, c) && IsForeign(s, v)
    ensures EventOf(v).Some? ==> Upper.Enabled(s, EventOf(v).value)
    ensures After(s, EventOf(v)).contract == c
  {
  }

  /** Every step of the manager, except for a cancellation by this chain, is a step of its surroundings. */
  lemma ManagerStepIsForeign(m: Lower.Manager, s: Upper.System, e: Lower.Event)
    requires Joined(m, s) && Lower.Enabled(m, e) && IsForeign(s, Lower.MoveOf(m, e))
    ensures var ce := EventOf(Lower.MoveOf(m, e));
            (ce.Some? ==> Upper.Enabled(s, ce.value)) && Joined(Lower.Step(m, e), After(s, ce))
  {
    Lower.StepKeepsInv(m, e);
    var v := Lower.MoveOf(m, e);
    MoveIsAnEvent(s, v, Lower.View(Lower.Step(m, e)));
    if EventOf(v).Some? {
      Upper.StepKeepsInv(s, EventOf(v).value);
    }
  }

  // ----- From the chain to the manager --------------------------------------------------------

  /** What the chain does itself. */
  predicate IsOwn(e: Upper.Event) {
    e.SetCancellable? || e.AddCall? || e.CancellableCancelled? || e.IdleFires? || e.Destroy? || e.DoneReturns?
  }

  /** The calls that withdraw every live request of the chain; the callback returns at once. */
  function Withdrawals(calls: seq<Upper.Call>, i: nat): seq<Lower.Event>
    decreases |calls| - i
  {
    if i >= |calls| then []
    else if calls[i].live && calls[i].asked.Some? then
      [Lower.Cancel(calls[i].asked.value), Lower.CallbackReturns]
      + Withdrawals(calls[i := calls[i].(live := false)], i + 1)
    else Withdrawals(calls, i + 1)
  }

  /** What the manager is asked to do when the chain takes a step. */
  function Realisation(s: Upper.System, e: Upper.Event, subject: Lower.Subject): seq<Lower.Event>
    requires Upper.Enabled(s, e)
  {
    var c := s.chain;
    match e
    case AddCall(_) =>
      if c.finishing || c.destroyed || Upper.Start(c).idle || !s.contract.open then [] else [Lower.Request(subject)]
    case IdleFires => Withdrawals(c.calls, 0)
    case Destroy => if c.finishing then [] else Withdrawals(c.calls, 0)
    case DoneReturns => Withdrawals(c.calls, 0)
    case _ => []
  }

  /** One withdrawal: the request comes back as cancelled, and the manager stays in order. */
  lemma Withdraw(m: Lower.Manager, id: nat)
    requires Lower.Inv(m) && id in Lower.View(m).outstanding
    ensures var m1 := Lower.Step(m, Lower.Cancel(id));
            && m1.stack != [] && Lower.Inv(Lower.Step(m1, Lower.CallbackReturns))
            && Lower.View(Lower.Step(m1, Lower.CallbackReturns)) == Deliver(Lower.View(m), id, CancelledByCaller)
  {
    Lower.StepKeepsInv(m, Lower.Cancel(id));
    var m1 := Lower.Step(m, Lower.Cancel(id));
    Lower.StepKeepsInv(m1, Lower.CallbackReturns);
  }

  lemma RunTwo(m: Lower.Manager, a: Lower.Event, b: Lower.Event, rest: seq<Lower.Event>)
    requires Lower.Enabled(m, a) && Lower.Enabled(Lower.Step(m, a), b)
    requires Lower.CanRun(Lower.Step(Lower.Step(m, a), b), rest)
    ensures Lower.CanRun(m, [a, b] + rest)
    ensures Lower.Run(m, [a, b] + rest) == Lower.Run(Lower.Step(Lower.Step(m, a), b), rest)
  {
    var es := [a, b] + rest;
    assert es[1..] == [b] + rest && ([b] + rest)[1..] == rest;
  }

  /** Dropping the live calls of the chain is a run of the manager. */
  lemma {:induction false} WithdrawalsRun(m: Lower.Manager, calls: seq<Upper.Call>, i: nat)
    requires Lower.Inv(m) && ExactlyOnce(Lower.View(m)) && Upper.CallsInv(Lower.View(m), calls) && i <= |calls|
    ensures var es := Withdrawals(calls, i);
            && Lower.CanRun(m, es) && Lower.Inv(Lower.Run(m, es))
            && Lower.View(Lower.Run(m, es)) == Upper.CancelFrom(Lower.View(m), calls, i).0
    decreases |calls| - i
  {
    if i < |calls| {
      assert Upper.CallInv(Lower.View(m), calls[i]);
      if calls[i].live {
        var id, calls' := calls[i].asked.value, calls[i := calls[i].(live := false)];
        Withdraw(m, id);
        var m1 := Lower.Step(m, Lower.Cancel(id));
        var m2 := Lower.Step(m1, Lower.CallbackReturns);
        Upper.CancelOne(Lower.View(m), calls, i);
        WithdrawalsRun(m2, calls', i + 1);
        RunTwo(m, Lower.Cancel(id), Lower.CallbackReturns, Withdrawals(calls', i + 1));
      } else {
        WithdrawalsRun(m, calls, i + 1);
      }
    }
  }

  /** Every step of the chain is realised by the manager: what it asks for is granted, and what it
      withdraws comes back as cancelled. */
  lemma ChainStepIsRealised(m: Lower.Manager, s: Upper.System, e: Upper.Event, subject: Lower.Subject)
    requires Joined(m, s) && Upper.Enabled(s, e) && IsOwn(e)
    ensures var es := Realisation(s, e, subject);
            Lower.CanRun(m, es) && Joined(Lower.Run(m, es), Upper.Step(s, e))
  {
    Upper.StepKeepsInv(s, e);
    var es := Realisation(s, e, subject);
    if e.AddCall? {
      if es != [] {
        Lower.StepKeepsInv(m, Lower.Request(subject));
        assert es[1..] == [] && Lower.CanRun(Lower.Step(m, es[0]), es[1..]);
      }
    } else {
      WithdrawalsRun(m, s.chain.calls, 0);
    }
  }

  // ----- Whole runs ---------------------------------------------------------------------------

  datatype Event = ByManager(lower: Lower.Event) | ByChain(upper: Upper.Event, subject: Lower.Subject)

  ghost predicate Enabled(m: Lower.Manager, s: Upper.System, e: Event) {
    match e
    case ByManager(x) => Lower.Enabled(m, x) && IsForeign(s, Lower.MoveOf(m, x))
    case ByChain(x, _) => Upper.Enabled(s, x) && IsOwn(x)
  }

  /** After any interleaving of the manager's and the chain's steps. */
  ghost predicate Runs(m: Lower.Manager, s: Upper.System, es: seq<Event>, m': Lower.Manager, s': Upper.System)
    decreases |es|
  {
    if es == [] then m' == m && s' == s
    else
      && Enabled(m, s, es[0])
      && match es[0]
         case ByManager(x) =>
           var ce := EventOf(Lower.MoveOf(m, x));
           (ce.Some? ==> Upper.Enabled(s, ce.value)) && Runs(Lower.Step(m, x), After(s, ce), es[1..], m', s')
         case ByChain(x, subject) =>
           var xs := Realisation(s, x, subject);
           Lower.CanRun(m, xs) && Runs(Lower.Run(m, xs), Upper.Step(s, x), es[1..], m', s')
  }

  /** The layers never come apart. */
  lemma {:induction false} RunsStayJoined(m: Lower.Manager, s: Upper.System, es: seq<Event>, m': Lower.Manager,
                                          s': Upper.System)
    requires Joined(m, s) && Runs(m, s, es, m', s')
    ensures Joined(m', s')
    decreases |es|
  {
    if es != [] {
      match es[0]
      case ByManager(x) =>
        ManagerStepIsForeign(m, s, x);
        RunsStayJoined(Lower.Step(m, x), After(s, EventOf(Lower.MoveOf(m, x))), es[1..], m', s');
      case ByChain(x, subject) =>
        ChainStepIsRealised(m, s, x, subject);
        RunsStayJoined(Lower.Run(m, Realisation(s, x, subject)), Upper.Step(s, x), es[1..], m', s');
    }
  }

  /** From a new manager and a new chain, whatever happens: the chain reports at most once, with nothing
      of its own waiting at the manager, and each of its results is then the one answer the manager
      gave to that request. */
  lemma ReportsWhatTheManagerAnswered(m0: Lower.Manager, s0: Upper.System, es: seq<Event>, m: Lower.Manager,
                                      s: Upper.System)
    requires IsNew(m0) && Upper.Initial(s0) && Runs(m0, s0, es, m, s)
    ensures s.chain.doneRuns <= 1
    ensures s.chain.finishing && !s.chain.gone && !s.chain.idle ==>
              forall i :: 0 <= i < |s.chain.calls| ==>
                Upper.IsAnswered(m.log, s.chain.calls[i].asked, s.chain.calls[i].result)
  {
    StartJoined(m0, s0);
    RunsStayJoined(m0, s0, es, m, s);
    JoinedReport(m, s);
  }

  lemma JoinedReport(m: Lower.Manager, s: Upper.System)
    requires Joined(m, s)
    ensures s.chain.doneRuns <= 1
    ensures s.chain.finishing && !s.chain.gone && !s.chain.idle ==>
              forall i :: 0 <= i < |s.chain.calls| ==>
                Upper.IsAnswered(m.log, s.chain.calls[i].asked, s.chain.calls[i].result)
  {
    if s.chain.finishing && !s.chain.gone && !s.chain.idle {
      Upper.LiveCountPositive(s.chain.calls);
      forall i | 0 <= i < |s.chain.calls|
        ensures Upper.IsAnswered(m.log, s.chain.calls[i].asked, s.chain.calls[i].result)
      {
        assert Upper.CallInv(s.contract, s.chain.calls[i]);
        assert s.chain.calls[i].asked.Some? ==> OnceFor(s.contract, s.chain.calls[i].asked.value);
      }
    }
  }

  /** A manager that was not used yet. */
  ghost predicate IsNew(m: Lower.Manager) {
    && m.issued == 0 && m.calls.Keys == {} && m.refs == 0 && |m.stack| == 0 && |m.log| == 0 && |m.freed| == 0
    && !m.shutting && (m.main <==> m.mode == Lower.UsePolkit)
  }

  lemma StartJoined(m: Lower.Manager, s: Upper.System)
    requires IsNew(m) && Upper.Initial(s)
    ensures Joined(m, s)
  {
    Upper.InitialInv(s);
    assert Lower.View(m).outstanding == {};
    assert s.contract.log == m.log;
  }
}
