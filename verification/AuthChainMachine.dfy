/**
 * An authorization chain (src/core/nm-auth-utils.c) on top of the promise of the authorization
 * manager: it collects the answers to any number of permission checks and reports once. Other
 * clients use the same manager. The begin and the return of the done-callback are separate steps.
 */
module AuthChainMachine {
  import opened Common
  import opened AuthContract

  datatype Result = Unknown | Yes | Auth | No

  /** The result tells an answer: yes if it authorizes, else auth if it is a challenge, else no; unknown
      if there was no decision. */
  predicate Tells(r: Result, a: Answer) {
    && (r.Yes? <==> a.Decision? && a.authorized)
    && (r.Auth? <==> a.Decision? && !a.authorized && a.challenge)
    && (r.No? <==> a.Decision? && !a.authorized && !a.challenge)
    && (r.Unknown? <==> a.Error? || a.CancelledByCaller?)
  }

  /** nm_auth_call_result_eval(). */
  function Eval(a: Answer): (r: Result)
    ensures Tells(r, a)
  {
    match a
    case CancelledByCaller => Unknown
    case Error => Unknown
    case Decision(authorized, challenge) => if authorized then Yes else if challenge then Auth else No
  }

  /** An AuthCall: the request made for it, and whether its call-id is still set. */
  datatype Call = Call(permission: string, asked: Option<nat>, live: bool, result: Result)

  datatype Chain = Chain(
    calls: seq<Call>,
    pending: int,                 // num_pending_auth_calls
    cancellable: Option<bool>,    // Some(cancelled)
    connected: bool,              // cancellable_id
    idle: bool,                   // cancellable_idle_source
    started: bool,
    finishing: bool,
    destroyed: bool,
    gone: bool,
    doneRuns: nat,                // how often done_func was called
    refused: nat)                 // calls added although the manager was shutting down

  datatype System = System(contract: Contract, chain: Chain)

  datatype Event =
    | SetCancellable(cancelled: bool)
    | AddCall(permission: string)
    | AnswerArrives(id: nat, answer: Answer)
    | CancellableCancelled
    | IdleFires
    | Destroy
    | DoneReturns
    | OthersAsk
    | OthersCancel(id: nat)
    | ManagerCloses

  const NEW_CHAIN := Chain([], 0, None, false, false, false, false, false, false, 0, 0)

  predicate IsLive(c: Call, id: nat) { c.live && c.asked == Some(id) }

  predicate Owns(calls: seq<Call>, id: nat) {
    exists i :: 0 <= i < |calls| && IsLive(calls[i], id)
  }

  /** No handler of this chain runs while its done-callback does. */
  predicate Enabled(s: System, e: Event) {
    var c := s.chain;
    match e
    case SetCancellable(_) => !c.gone && !c.started && c.cancellable.None?
    case AddCall(_) => !c.gone
    case AnswerArrives(id, a) =>
      id in s.contract.outstanding && !a.CancelledByCaller? && (c.finishing ==> c.gone)
    case CancellableCancelled => c.cancellable == Some(false)
    case IdleFires => c.idle && !c.finishing && !c.gone
    case Destroy => !c.gone && !c.destroyed
    case DoneReturns => c.finishing && !c.gone
    case OthersAsk => s.contract.open
    case OthersCancel(id) => id in s.contract.outstanding && !Owns(c.calls, id)
    case ManagerCloses => true
  }

  function LiveCount(calls: seq<Call>): nat {
    if calls == [] then 0 else (if calls[0].live then 1 else 0) + LiveCount(calls[1..])
  }

  /** Cancels the call-ids that are still set, from position `i` on. Each cancellation runs the
      callback at once, which ignores it. */
  function CancelFrom(k: Contract, calls: seq<Call>, i: nat): (Contract, seq<Call>)
    decreases |calls| - i
  {
    if i >= |calls| then (k, calls)
    else if calls[i].live && calls[i].asked.Some? then
      CancelFrom(AuthContract.Deliver(k, calls[i].asked.value, CancelledByCaller),
                 calls[i := calls[i].(live := false)], i + 1)
    else CancelFrom(k, calls, i + 1)
  }

  /** Drops every call-id that is still set. */
  function DropAll(s: System): System {
    var (k, calls) := CancelFrom(s.contract, s.chain.calls, 0);
    System(k, s.chain.(calls := calls, pending := s.chain.pending - LiveCount(s.chain.calls)))
  }

  /** pk_call_cb() on the call that made request `id`. */
  function Receive(calls: seq<Call>, id: nat, a: Answer): seq<Call> {
    if calls == [] then []
    else if IsLive(calls[0], id) then [calls[0].(live := false, result := Eval(a))] + calls[1..]
    else [calls[0]] + Receive(calls[1..], id, a)
  }

  function BeginDone(c: Chain): Chain {
    c.(finishing := true, doneRuns := c.doneRuns + 1)
  }

  /** pk_call_cb() for an answer to one of the chain's own requests. */
  function Accept(s: System, id: nat, a: Answer): System {
    var c := s.chain.(calls := Receive(s.chain.calls, id, a), pending := s.chain.pending - 1);
    System(AuthContract.Deliver(s.contract, id, a), if c.pending == 0 then BeginDone(c) else c)
  }

  function Step(s: System, e: Event): System
    requires Enabled(s, e)
  {
    var k, c := s.contract, s.chain;
    match e
    case SetCancellable(cancelled) => s.(chain := c.(cancellable := Some(cancelled)))
    case AddCall(p) => if c.finishing || c.destroyed then s else Add(s, p)
    case AnswerArrives(id, a) =>
      if Owns(c.calls, id) then Accept(s, id, a) else s.(contract := AuthContract.Deliver(k, id, a))
    case CancellableCancelled => s.(chain := c.(cancellable := Some(true), idle := c.idle || (c.connected && !c.gone)))
    case IdleFires => var s' := DropAll(s); s'.(chain := BeginDone(s'.chain))
    case Destroy =>
      if c.finishing then s.(chain := c.(destroyed := true))
      else var s' := DropAll(s); s'.(chain := s'.chain.(destroyed := true, gone := true))
    case DoneReturns => var s' := DropAll(s); s'.(chain := s'.chain.(gone := true))
    case OthersAsk => s.(contract := Ask(k))
    case OthersCancel(id) => s.(contract := AuthContract.Deliver(k, id, CancelledByCaller))
    case ManagerCloses => s.(contract := Close(k))
  }

  /** The first call starts the chain: it looks at the cancellable. */
  function Start(c: Chain): Chain {
    if c.started then c
    else c.(started := true, idle := c.cancellable == Some(true), connected := c.cancellable == Some(false))
  }

  /** nm_auth_chain_add_call_unsafe(). */
  function Add(s: System, permission: string): System {
    var c := Start(s.chain);
    if c.idle then s.(chain := c.(calls := [Call(permission, None, false, Unknown)] + c.calls))
    else if s.contract.open then
      System(Ask(s.contract),
             c.(calls := [Call(permission, Some(s.contract.issued + 1), true, Unknown)] + c.calls,
                pending := c.pending + 1))
    else
      s.(chain := c.(calls := [Call(permission, None, false, Unknown)] + c.calls,
                     pending := c.pending + 1, refused := c.refused + 1))
  }

  predicate CanRun(s: System, es: seq<Event>)
    decreases |es|
  {
    es == [] || (Enabled(s, es[0]) && CanRun(Step(s, es[0]), es[1..]))
  }

  function Run(s: System, es: seq<Event>): System
    requires CanRun(s, es)
    decreases |es|
  {
    if es == [] then s else Run(Step(s, es[0]), es[1..])
  }

  // ---------------------------------------------------------------- invariant

  /** A call waits for the answer to its request, or holds exactly that answer. */
  ghost predicate CallInv(k: Contract, c: Call) {
    && (c.asked.None? ==> !c.live && c.result == Unknown)
    && (c.asked.Some? ==> 1 <= c.asked.value <= k.issued)
    && (c.live ==> c.asked.value in k.outstanding && c.result == Unknown)
    && (c.asked.Some? && !c.live ==>
          && c.asked.value !in k.outstanding
          && AnswerOf(k.log, c.asked.value).Some?
          && (AnswerOf(k.log, c.asked.value).value.CancelledByCaller? ||
              c.result == Eval(AnswerOf(k.log, c.asked.value).value)))
  }

  /** No two calls share a request. */
  ghost predicate OwnRequests(calls: seq<Call>) {
    forall i, j :: 0 <= i < j < |calls| && calls[i].asked.Some? ==> calls[i].asked != calls[j].asked
  }

  ghost predicate CallsInv(k: Contract, calls: seq<Call>) {
    OwnRequests(calls) && forall i :: 0 <= i < |calls| ==> CallInv(k, calls[i])
  }

  /** Every request was made, and none was cancelled by the chain. */
  ghost predicate Honest(k: Contract, calls: seq<Call>) {
    forall i :: 0 <= i < |calls| ==>
      && calls[i].asked.Some?
      && (!calls[i].live ==> AnswerOf(k.log, calls[i].asked.value) != Some(CancelledByCaller))
  }

  ghost predicate ChainInv(c: Chain) {
    && c.pending == LiveCount(c.calls) + c.refused
    && c.doneRuns == (if c.finishing then 1 else 0)
    && (c.finishing ==> c.started && LiveCount(c.calls) == 0)
    && (c.finishing ==> c.idle || c.refused == 0)
    && (c.gone ==> LiveCount(c.calls) == 0)
    && (c.started && !c.finishing && !c.gone ==> c.pending > 0 || c.idle)
    && (!c.started ==> c.calls == [] && c.refused == 0 && !c.idle && !c.connected)
    && (c.idle ==> c.cancellable == Some(true))
    && (c.started && c.cancellable.Some? ==> c.connected || c.idle)
    && (c.connected && c.cancellable == Some(true) ==> c.idle || c.gone)
    && (c.destroyed && !c.gone ==> c.finishing)
    && (c.gone && !c.destroyed ==> c.finishing)
  }

  ghost predicate Inv(s: System) {
    && ExactlyOnce(s.contract)
    && CallsInv(s.contract, s.chain.calls)
    && ChainInv(s.chain)
    && (!s.chain.idle && s.chain.refused == 0 && !s.chain.gone ==> Honest(s.contract, s.chain.calls))
  }

  // ---------------------------------------------------------------- preservation

  lemma {:induction false} LiveCountPositive(calls: seq<Call>)
    ensures LiveCount(calls) == 0 <==> forall i :: 0 <= i < |calls| ==> !calls[i].live
  {
    if calls != [] {
      LiveCountPositive(calls[1..]);
      assert forall i :: 1 <= i < |calls| ==> calls[i] == calls[1..][i - 1];
    }
  }

  /** Receiving an answer ends exactly the one call that asked. */
  lemma {:induction false} ReceiveEffect(calls: seq<Call>, id: nat, a: Answer, i: nat)
    requires OwnRequests(calls) && i < |calls| && IsLive(calls[i], id)
    ensures Receive(calls, id, a) == calls[i := calls[i].(live := false, result := Eval(a))]
    ensures LiveCount(Receive(calls, id, a)) == LiveCount(calls) - 1
  {
    if i > 0 {
      assert calls[0].asked != calls[i].asked;
      ReceiveEffect(calls[1..], id, a, i - 1);
      assert Receive(calls, id, a)[1..] == Receive(calls[1..], id, a);
    } else {
      assert Receive(calls, id, a)[1..] == calls[1..];
    }
  }

  /** An answer for somebody else's request does not concern a call. */
  lemma DeliverToOther(k: Contract, id: nat, a: Answer, c: Call)
    requires CallInv(k, c) && c.asked != Some(id)
    ensures CallInv(AuthContract.Deliver(k, id, a), c)
    ensures c.asked.Some? ==>
              AnswerOf(AuthContract.Deliver(k, id, a).log, c.asked.value) == AnswerOf(k.log, c.asked.value)
  {
  }

  lemma DeliverIsAllowed(k: Contract, id: nat, a: Answer)
    requires ExactlyOnce(k) && id in k.outstanding
    ensures ExactlyOnce(AuthContract.Deliver(k, id, a))
    ensures AnswerOf(AuthContract.Deliver(k, id, a).log, id) == Some(a)
  {
    var move := if a.CancelledByCaller? then Withdrawn(id) else Answered(id, a);
    MovesKeepExactlyOnce(k, move, AuthContract.Deliver(k, id, a));
    AnswerAfterDelivery(k.log, Delivery(id, a), id);
  }

  lemma DeliverToStranger(k: Contract, calls: seq<Call>, id: nat, a: Answer)
    requires ExactlyOnce(k) && CallsInv(k, calls) && id in k.outstanding && !Owns(calls, id)
    ensures ExactlyOnce(AuthContract.Deliver(k, id, a)) && CallsInv(AuthContract.Deliver(k, id, a), calls)
    ensures Honest(k, calls) ==> Honest(AuthContract.Deliver(k, id, a), calls)
  {
    DeliverIsAllowed(k, id, a);
    forall i | 0 <= i < |calls|
      ensures calls[i].asked != Some(id) && CallInv(AuthContract.Deliver(k, id, a), calls[i])
      ensures calls[i].asked.Some? ==>
                AnswerOf(AuthContract.Deliver(k, id, a).log, calls[i].asked.value) ==
                AnswerOf(k.log, calls[i].asked.value)
    {
      assert CallInv(k, calls[i]) && !IsLive(calls[i], id);
      DeliverToOther(k, id, a, calls[i]);
    }
  }

  lemma DeliverToOwner(k: Contract, calls: seq<Call>, i: nat, a: Answer)
    requires ExactlyOnce(k) && CallsInv(k, calls) && i < |calls| && calls[i].live
    requires !a.CancelledByCaller?
    ensures var id := calls[i].asked.value;
            var k' := AuthContract.Deliver(k, id, a);
            var calls' := calls[i := calls[i].(live := false, result := Eval(a))];
            && ExactlyOnce(k') && CallsInv(k', calls')
            && (Honest(k, calls) ==> Honest(k', calls'))
  {
    assert CallInv(k, calls[i]);
    var id := calls[i].asked.value;
    DeliverIsAllowed(k, id, a);
    var calls' := calls[i := calls[i].(live := false, result := Eval(a))];
    forall j | 0 <= j < |calls|
      ensures CallInv(AuthContract.Deliver(k, id, a), calls'[j])
      ensures j != i && calls[j].asked.Some? ==>
                AnswerOf(AuthContract.Deliver(k, id, a).log, calls[j].asked.value) ==
                AnswerOf(k.log, calls[j].asked.value)
    {
      assert CallInv(k, calls[j]);
      if j != i {
        assert calls[j].asked != calls[i].asked;
        DeliverToOther(k, id, a, calls[j]);
      }
    }
  }

  lemma {:induction false} CancelFromKeepsInv(k: Contract, calls: seq<Call>, i: nat)
    requires ExactlyOnce(k) && CallsInv(k, calls) && i <= |calls|
    requires forall j :: 0 <= j < i ==> !calls[j].live
    ensures var (k', calls') := CancelFrom(k, calls, i);
            && ExactlyOnce(k') && CallsInv(k', calls')
            && LiveCount(calls') == 0
            && (LiveCount(calls) == 0 ==> k' == k && calls' == calls)
    decreases |calls| - i
  {
    LiveCountPositive(calls);
    if i < |calls| {
      assert CallInv(k, calls[i]);
      if calls[i].live {
        CancelOne(k, calls, i);
        CancelFromKeepsInv(AuthContract.Deliver(k, calls[i].asked.value, CancelledByCaller),
                           calls[i := calls[i].(live := false)], i + 1);
      } else {
        CancelFromKeepsInv(k, calls, i + 1);
      }
    }
  }

  lemma CancelOne(k: Contract, calls: seq<Call>, i: nat)
    requires ExactlyOnce(k) && CallsInv(k, calls) && i < |calls| && calls[i].live
    ensures calls[i].asked.Some?
    ensures var k' := AuthContract.Deliver(k, calls[i].asked.value, CancelledByCaller);
            ExactlyOnce(k') && CallsInv(k', calls[i := calls[i].(live := false)])
  {
    assert CallInv(k, calls[i]);
    var id := calls[i].asked.value;
    DeliverIsAllowed(k, id, CancelledByCaller);
    var calls' := calls[i := calls[i].(live := false)];
    forall j | 0 <= j < |calls| ensures CallInv(AuthContract.Deliver(k, id, CancelledByCaller), calls'[j]) {
      assert CallInv(k, calls[j]);
      if j != i {
        assert calls[j].asked != calls[i].asked;
        DeliverToOther(k, id, CancelledByCaller, calls[j]);
      }
    }
  }

  /** Dropping all call-ids leaves none pending but the refused ones. */
  lemma DropAllKeepsInv(s: System)
    requires Inv(s)
    ensures var s' := DropAll(s);
            && ExactlyOnce(s'.contract) && CallsInv(s'.contract, s'.chain.calls)
            && LiveCount(s'.chain.calls) == 0 && s'.chain.pending == s.chain.refused
    ensures LiveCount(s.chain.calls) == 0 ==> DropAll(s) == s
  {
    CancelFromKeepsInv(s.contract, s.chain.calls, 0);
  }

  lemma AskKeepsCalls(k: Contract, calls: seq<Call>)
    requires ExactlyOnce(k) && CallsInv(k, calls) && k.open
    ensures ExactlyOnce(Ask(k)) && CallsInv(Ask(k), calls)
    ensures Honest(k, calls) ==> Honest(Ask(k), calls)
    ensures forall i :: 0 <= i < |calls| ==> calls[i].asked != Some(k.issued + 1)
  {
    MovesKeepExactlyOnce(k, Asked, Ask(k));
    forall i | 0 <= i < |calls| ensures CallInv(Ask(k), calls[i]) && calls[i].asked != Some(k.issued + 1) {
      assert CallInv(k, calls[i]);
    }
  }

  lemma ConsKeepsCalls(k: Contract, c: Call, calls: seq<Call>)
    requires CallsInv(k, calls) && CallInv(k, c)
    requires c.asked.Some? ==> forall i :: 0 <= i < |calls| ==> calls[i].asked != c.asked
    ensures CallsInv(k, [c] + calls)
    ensures Honest(k, calls) && c.asked.Some? && c.live ==> Honest(k, [c] + calls)
    ensures LiveCount([c] + calls) == LiveCount(calls) + (if c.live then 1 else 0)
  {
  }

  lemma AddKeepsInv(s: System, p: string)
    requires Inv(s) && !s.chain.gone && !s.chain.finishing && !s.chain.destroyed
    ensures Inv(Add(s, p))
  {
    var c := Start(s.chain);
    assert c.started && c.cancellable.Some? ==> c.connected || c.idle by {
      if c.cancellable.Some? {
        var b := c.cancellable.value;
        assert c.cancellable == Some(b);
        if b {
          assert c.cancellable == Some(true);
        } else {
          assert c.cancellable == Some(false);
        }
      }
    }
    if !c.idle && s.contract.open {
      AskKeepsCalls(s.contract, c.calls);
      ConsKeepsCalls(Ask(s.contract), Call(p, Some(s.contract.issued + 1), true, Unknown), c.calls);
    } else {
      ConsKeepsCalls(s.contract, Call(p, None, false, Unknown), c.calls);
    }
  }

  lemma AnswerKeepsInv(s: System, id: nat, a: Answer)
    requires Inv(s) && Enabled(s, AnswerArrives(id, a))
    ensures Inv(Step(s, AnswerArrives(id, a)))
  {
    var calls := s.chain.calls;
    if Owns(calls, id) {
      var i :| 0 <= i < |calls| && IsLive(calls[i], id);
      LiveCountPositive(calls);
      ReceiveEffect(calls, id, a, i);
      DeliverToOwner(s.contract, calls, i, a);
    } else {
      DeliverToStranger(s.contract, calls, id, a);
    }
  }

  lemma StepKeepsInv(s: System, e: Event)
    requires Inv(s) && Enabled(s, e)
    ensures Inv(Step(s, e))
  {
    match e
    case SetCancellable(_) =>
    case AddCall(p) => if !s.chain.finishing && !s.chain.destroyed { AddKeepsInv(s, p); }
    case AnswerArrives(id, a) => AnswerKeepsInv(s, id, a);
    case CancellableCancelled =>
    case IdleFires => DropAllKeepsInv(s);
    case Destroy => DropAllKeepsInv(s);
    case DoneReturns => DropAllKeepsInv(s);
    case OthersAsk => AskKeepsCalls(s.contract, s.chain.calls);
    case OthersCancel(id) => DeliverToStranger(s.contract, s.chain.calls, id, CancelledByCaller);
    case ManagerCloses =>
      var k, k', calls := s.contract, Close(s.contract), s.chain.calls;
      MovesKeepExactlyOnce(k, Closed, k');
      forall i | 0 <= i < |calls| ensures CallInv(k', calls[i]) { assert CallInv(k, calls[i]); }
  }

  lemma {:induction false} RunKeepsInv(s: System, es: seq<Event>)
    requires Inv(s) && CanRun(s, es)
    ensures Inv(Run(s, es))
    decreases |es|
  {
    if es != [] {
      StepKeepsInv(s, es[0]);
      RunKeepsInv(Step(s, es[0]), es[1..]);
    }
  }

  // ---------------------------------------------------------------- what callers rely on

  ghost predicate Reachable(s: System) {
    exists s0: System, es :: Initial(s0) && CanRun(s0, es) && s == Run(s0, es)
  }

  /** A new chain; the manager has served nobody yet. */
  ghost predicate Initial(s: System) {
    && IsNewChain(s.chain)
    && s.contract.open && s.contract.issued == 0 && s.contract.outstanding == {} && |s.contract.log| == 0
  }

  ghost predicate IsNewChain(c: Chain) {
    && |c.calls| == 0 && c.pending == 0 && c.refused == 0 && c.doneRuns == 0 && c.cancellable.None?
    && !c.connected && !c.idle && !c.started && !c.finishing && !c.destroyed && !c.gone
  }

  lemma NoCallsYet(k: Contract, calls: seq<Call>)
    requires |calls| == 0
    ensures CallsInv(k, calls) && Honest(k, calls)
  {
  }

  lemma NewChainInv(s: System)
    requires IsNewChain(s.chain) && ExactlyOnce(s.contract)
    ensures Inv(s)
  {
    NoCallsYet(s.contract, s.chain.calls);
  }

  lemma NothingServed(k: Contract)
    requires k.issued == 0 && k.outstanding == {} && |k.log| == 0
    ensures ExactlyOnce(k)
  {
  }

  lemma InitialInv(s: System)
    requires Initial(s)
    ensures Inv(s) && s.chain.refused == 0
  {
    NothingServed(s.contract);
    NewChainInv(s);
  }

  lemma ReachableInv(s: System)
    requires Reachable(s)
    ensures Inv(s)
  {
    var s0: System, es :| Initial(s0) && CanRun(s0, es) && s == Run(s0, es);
    InitialInv(s0);
    RunKeepsInv(s0, es);
  }

  /** A call added while the manager is shutting down, to a chain that is neither cancelled nor over. */
  predicate IsLateCall(s: System, e: Event) {
    var c := s.chain;
    e.AddCall? && !s.contract.open && c.cancellable != Some(true) && !c.finishing && !c.destroyed
  }

  function LateCalls(s: System, es: seq<Event>): nat
    requires CanRun(s, es)
    decreases |es|
  {
    if es == [] then 0 else (if IsLateCall(s, es[0]) then 1 else 0) + LateCalls(Step(s, es[0]), es[1..])
  }

  lemma {:induction false} RefusedAreLateCalls(s: System, es: seq<Event>)
    requires Inv(s) && CanRun(s, es)
    ensures Run(s, es).chain.refused == s.chain.refused + LateCalls(s, es)
    decreases |es|
  {
    if es != [] {
      StepKeepsInv(s, es[0]);
      LateCallIsRefused(s, es[0]);
      RefusedAreLateCalls(Step(s, es[0]), es[1..]);
    }
  }

  lemma LateCallIsRefused(s: System, e: Event)
    requires Inv(s) && Enabled(s, e)
    ensures Step(s, e).chain.refused == s.chain.refused + if IsLateCall(s, e) then 1 else 0
  {
    if e.AddCall? && !s.chain.finishing && !s.chain.destroyed {
      assert Start(s.chain).idle <==> s.chain.cancellable == Some(true);
    }
  }

  /** In every run, the counter is the number of calls whose call-id is set exactly as long as no call
      was added late. */
  lemma PendingCountsLiveCalls(s0: System, es: seq<Event>)
    requires Initial(s0) && CanRun(s0, es)
    ensures var c := Run(s0, es).chain;
            c.pending == LiveCount(c.calls) + LateCalls(s0, es)
    ensures var c := Run(s0, es).chain;
            c.pending == LiveCount(c.calls) <==> LateCalls(s0, es) == 0
  {
    InitialInv(s0);
    PendingFrom(s0, es);
  }

  lemma PendingFrom(s: System, es: seq<Event>)
    requires Inv(s) && s.chain.refused == 0 && CanRun(s, es)
    ensures Inv(Run(s, es))
    ensures Run(s, es).chain.refused == LateCalls(s, es)
    ensures Run(s, es).chain.pending == LiveCount(Run(s, es).chain.calls) + LateCalls(s, es)
  {
    RunKeepsInv(s, es);
    RefusedAreLateCalls(s, es);
  }

  /** One late call is counted although nobody will answer it. */
  lemma LateCallIsCounted(s0: System, permission: string)
    requires Initial(s0)
    ensures var es := [ManagerCloses, AddCall(permission)];
            && CanRun(s0, es) && LateCalls(s0, es) == 1
            && Run(s0, es).chain.pending == 1 && LiveCount(Run(s0, es).chain.calls) == 0
  {
    var closes, adds := ManagerCloses, AddCall(permission);
    var s1 := Step(s0, closes);
    var s2 := Step(s1, adds);
    assert [closes, adds] == [closes] + ([adds] + []);
    RunOne(s1, adds, []);
    RunOne(s0, closes, [adds] + []);
    ConsKeepsLiveCount(Call(permission, None, false, Unknown), s0.chain.calls);
  }

  lemma RunOne(s: System, e: Event, rest: seq<Event>)
    requires Enabled(s, e) && CanRun(Step(s, e), rest)
    ensures CanRun(s, [e] + rest) && Run(s, [e] + rest) == Run(Step(s, e), rest)
    ensures LateCalls(s, [e] + rest) == (if IsLateCall(s, e) then 1 else 0) + LateCalls(Step(s, e), rest)
  {
    assert ([e] + rest)[1..] == rest;
  }

  lemma ConsKeepsLiveCount(c: Call, calls: seq<Call>)
    ensures LiveCount([c] + calls) == LiveCount(calls) + if c.live then 1 else 0
  {
    assert ([c] + calls)[1..] == calls;
  }

  /** The done-callback runs at most once, with no call pending; not at all when the chain is destroyed
      from outside of it, and exactly once when it is not destroyed before it is gone. */
  lemma DoneAtMostOnce(s: System)
    requires Reachable(s)
    ensures s.chain.doneRuns <= 1
    ensures s.chain.doneRuns == 1 ==> forall i :: 0 <= i < |s.chain.calls| ==> !s.chain.calls[i].live
    ensures s.chain.destroyed && s.chain.doneRuns == 0 ==> s.chain.gone
    ensures s.chain.gone && !s.chain.destroyed ==> s.chain.doneRuns == 1
  {
    ReachableInv(s);
    LiveCountPositive(s.chain.calls);
  }

  /** A chain that is gone never reports again. */
  lemma {:induction false} GoneStaysSilent(s: System, es: seq<Event>)
    requires Inv(s) && s.chain.gone && CanRun(s, es)
    ensures Run(s, es).chain.gone && Run(s, es).chain.doneRuns == s.chain.doneRuns
    decreases |es|
  {
    if es != [] {
      StepKeepsInv(s, es[0]);
      if es[0].AnswerArrives? && Owns(s.chain.calls, es[0].id) {
        LiveCountPositive(s.chain.calls);
      }
      GoneStaysSilent(Step(s, es[0]), es[1..]);
    }
  }

  lemma LiveMeansOwned(calls: seq<Call>, i: nat)
    requires i < |calls|
    ensures forall id :: IsLive(calls[i], id) ==> Owns(calls, id)
  {
  }

  /** In every run, once the manager answered everything a started chain asked for, the chain has
      reported, exactly if no call was added late: otherwise it waits for ever (short of a
      cancellation). */
  lemma AnsweredMeansDone(s0: System, es: seq<Event>)
    requires Initial(s0) && CanRun(s0, es)
    requires var s := Run(s0, es);
             && s.chain.started && !s.chain.gone && !s.chain.idle
             && forall id :: id in s.contract.outstanding ==> !Owns(s.chain.calls, id)
    ensures Run(s0, es).chain.doneRuns == 1 <==> LateCalls(s0, es) == 0
  {
    var s := Run(s0, es);
    InitialInv(s0);
    PendingFrom(s0, es);
    NothingLive(s);
  }

  lemma NothingLive(s: System)
    requires Inv(s) && forall id :: id in s.contract.outstanding ==> !Owns(s.chain.calls, id)
    ensures LiveCount(s.chain.calls) == 0
  {
    var calls := s.chain.calls;
    forall i | 0 <= i < |calls| ensures !calls[i].live {
      assert CallInv(s.contract, calls[i]);
      LiveMeansOwned(calls, i);
    }
    LiveCountPositive(calls);
  }

  /** A chain whose cancellable was cancelled has reported, or is about to: its idle handler is due, and
      reports with no call left pending. */
  lemma CancelledMeansDone(s: System)
    requires Reachable(s) && s.chain.started && s.chain.cancellable == Some(true) && !s.chain.gone
    ensures s.chain.doneRuns == 1 || Enabled(s, IdleFires)
    ensures Enabled(s, IdleFires) ==>
              && Step(s, IdleFires).chain.finishing && Step(s, IdleFires).chain.doneRuns == 1
              && forall i :: 0 <= i < |Step(s, IdleFires).chain.calls| ==> !Step(s, IdleFires).chain.calls[i].live
  {
    ReachableInv(s);
    if Enabled(s, IdleFires) {
      DropAllKeepsInv(s);
      LiveCountPositive(Step(s, IdleFires).chain.calls);
    }
  }

  lemma StepStaysUncancelled(s: System, e: Event)
    requires Enabled(s, e) && !s.chain.idle && s.chain.cancellable != Some(true)
    requires e != SetCancellable(true) && e != CancellableCancelled
    ensures !Step(s, e).chain.idle && Step(s, e).chain.cancellable != Some(true)
  {
    if e.SetCancellable? {
      assert e.cancelled ==> e == SetCancellable(true);
      assert Step(s, e).chain.cancellable == Some(false);
    }
  }

  /** Only a cancellation makes a chain drop its calls: without one in the run, its idle handler is never
      due. */
  lemma {:induction false} OnlyCancelledIsIdle(s: System, es: seq<Event>)
    requires CanRun(s, es) && !s.chain.idle && s.chain.cancellable != Some(true)
    requires forall e :: e in es ==> e != SetCancellable(true) && e != CancellableCancelled
    ensures !Run(s, es).chain.idle && Run(s, es).chain.cancellable != Some(true)
    decreases |es|
  {
    if es != [] {
      assert es[0] in es && forall e :: e in es[1..] ==> e in es;
      StepStaysUncancelled(s, es[0]);
      OnlyCancelledIsIdle(Step(s, es[0]), es[1..]);
    }
  }

  // ---------------------------------------------------------------- results

  /** The call for a permission that was added last; newer calls come first. */
  ghost predicate IsLatest(calls: seq<Call>, permission: string, i: nat) {
    && i < |calls| && calls[i].permission == permission
    && forall j :: 0 <= j < i ==> calls[j].permission != permission
  }

  /** _find_auth_call(). */
  function Find(calls: seq<Call>, permission: string): (r: Option<nat>)
    ensures r.Some? ==> IsLatest(calls, permission, r.value)
    ensures r.None? ==> forall i :: 0 <= i < |calls| ==> calls[i].permission != permission
  {
    if calls == [] then None
    else if calls[0].permission == permission then Some(0)
    else match Find(calls[1..], permission)
      case None => None
      case Some(i) => Some(i + 1)
  }

  /** nm_auth_chain_get_result(). */
  function GetResult(c: Chain, permission: string): Result {
    match Find(c.calls, permission)
    case None => Unknown
    case Some(i) => if c.idle then Unknown else c.calls[i].result
  }

  /** The request was answered once, not as cancelled, and the result tells that answer. */
  ghost predicate IsAnswered(log: seq<Delivery>, asked: Option<nat>, r: Result) {
    && asked.Some? && Deliveries(log, asked.value) == 1
    && AnswerOf(log, asked.value).Some? && !AnswerOf(log, asked.value).value.CancelledByCaller?
    && Tells(r, AnswerOf(log, asked.value).value)
  }

  /** While the done-callback runs, every permission in the list has the result that tells the one answer
      the manager gave to its last request; after a cancellation all of them are unknown. */
  lemma ResultsAreAnswers(s: System, permission: string)
    requires Reachable(s) && s.chain.finishing && !s.chain.gone
    ensures s.chain.idle ==> GetResult(s.chain, permission) == Unknown
    ensures forall i: nat :: !s.chain.idle && IsLatest(s.chain.calls, permission, i) ==>
              IsAnswered(s.contract.log, s.chain.calls[i].asked, GetResult(s.chain, permission))
    ensures (forall i :: 0 <= i < |s.chain.calls| ==> s.chain.calls[i].permission != permission) ==>
              GetResult(s.chain, permission) == Unknown
  {
    ReachableInv(s);
    LiveCountPositive(s.chain.calls);
    forall i: nat | !s.chain.idle && IsLatest(s.chain.calls, permission, i)
      ensures IsAnswered(s.contract.log, s.chain.calls[i].asked, GetResult(s.chain, permission))
    {
      assert Find(s.chain.calls, permission) == Some(i);
      assert CallInv(s.contract, s.chain.calls[i]);
      assert s.chain.calls[i].asked.Some? ==> OnceFor(s.contract, s.chain.calls[i].asked.value);
    }
  }

  /** The same permissions in the same order. */
  ghost predicate SameList(a: seq<Call>, b: seq<Call>) {
    |a| == |b| && forall i :: 0 <= i < |a| ==> a[i].permission == b[i].permission
  }

  /** The list is the earlier one with the calls for some more permissions in front. */
  ghost predicate Extended(calls': seq<Call>, more: seq<string>, calls: seq<Call>) {
    && |calls'| == |more| + |calls|
    && (forall i :: 0 <= i < |more| ==> calls'[i].permission == more[i])
    && (forall i :: 0 <= i < |calls| ==> calls'[|more| + i].permission == calls[i].permission)
  }

  /** The permission an event adds to the list; a finishing or destroyed chain takes none. */
  function NowAsked(s: System, e: Event): seq<string> {
    if e.AddCall? && !s.chain.finishing && !s.chain.destroyed then [e.permission] else []
  }

  /** The permissions asked for in a run, the last one first. */
  function AskedFor(s: System, es: seq<Event>): seq<string>
    requires CanRun(s, es)
    decreases |es|
  {
    if es == [] then [] else AskedFor(Step(s, es[0]), es[1..]) + NowAsked(s, es[0])
  }

  lemma {:induction false} CancellingKeepsList(k: Contract, calls: seq<Call>, i: nat)
    ensures SameList(CancelFrom(k, calls, i).1, calls)
    decreases |calls| - i
  {
    if i < |calls| {
      if calls[i].live && calls[i].asked.Some? {
        CancellingKeepsList(AuthContract.Deliver(k, calls[i].asked.value, CancelledByCaller),
                            calls[i := calls[i].(live := false)], i + 1);
      } else {
        CancellingKeepsList(k, calls, i + 1);
      }
    }
  }

  lemma {:induction false} ReceivingKeepsList(calls: seq<Call>, id: nat, a: Answer)
    ensures SameList(Receive(calls, id, a), calls)
  {
    if calls != [] && !IsLive(calls[0], id) {
      ReceivingKeepsList(calls[1..], id, a);
    }
  }

  /** Only an added call changes which permissions are listed; it comes first. */
  lemma StepKeepsList(s: System, e: Event)
    requires Enabled(s, e)
    ensures NowAsked(s, e) == [] ==> SameList(Step(s, e).chain.calls, s.chain.calls)
    ensures NowAsked(s, e) != [] ==>
              && Step(s, e).chain.calls != [] && Step(s, e).chain.calls[0].permission == e.permission
              && Step(s, e).chain.calls[1..] == s.chain.calls
  {
    if e.AnswerArrives? {
      ReceivingKeepsList(s.chain.calls, e.id, e.answer);
    } else if e.IdleFires? || e.Destroy? || e.DoneReturns? {
      CancellingKeepsList(s.contract, s.chain.calls, 0);
    }
  }

  lemma OneMore(calls2: seq<Call>, more: seq<string>, calls1: seq<Call>, calls: seq<Call>)
    requires Extended(calls2, more, calls1)
    ensures SameList(calls1, calls) ==> Extended(calls2, more, calls)
    ensures calls1 != [] && calls1[1..] == calls ==> Extended(calls2, more + [calls1[0].permission], calls)
  {
    if calls1 != [] && calls1[1..] == calls {
      assert forall i :: 0 <= i < |calls| ==> calls[i] == calls1[i + 1];
      assert forall i :: 0 <= i < |calls1| ==> calls2[|more| + i].permission == calls1[i].permission;
    }
  }

  /** Over every run the list holds exactly what was asked for, the last one first. */
  lemma {:induction false} ListIsWhatWasAskedFor(s: System, es: seq<Event>)
    requires CanRun(s, es)
    ensures Extended(Run(s, es).chain.calls, AskedFor(s, es), s.chain.calls)
    decreases |es|
  {
    if es != [] {
      var s1 := Step(s, es[0]);
      StepKeepsList(s, es[0]);
      ListIsWhatWasAskedFor(s1, es[1..]);
      OneMore(Run(s1, es[1..]).chain.calls, AskedFor(s1, es[1..]), s1.chain.calls, s.chain.calls);
      assert AskedFor(s1, es[1..]) + [] == AskedFor(s1, es[1..]);
    }
  }
}
