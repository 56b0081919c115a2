/**
 * The life cycle of the call-ids of the authorization manager (src/core/nm-auth-manager.c:139-425,
 * 534-569). A user callback may call back into the manager: its begin and its return are separate
 * steps, and between them only further API calls happen (the main loop does not run).
 *
 * Assumption: a D-Bus call reports "cancelled" exactly when its cancellable was cancelled.
 */
module AuthMachine {
  import opened Common
  import opened AuthContract

  datatype Mode = RootOnly | AllowAll | UsePolkit
  datatype Subject = Internal | Process(uid: nat)

  datatype Phase =
    | Simulated(authorized: bool)    // an idle source will answer
    | Asking                         // CheckAuthorization is in flight
    | Delivering(asking: bool)       // the callback is running; the D-Bus call may still be in flight
    | Abandoned                      // answered, but the cancelled CheckAuthorization did not return yet
    | Retracting                     // CancelCheckAuthorization is in flight

  datatype Manager = Manager(
    mode: Mode,
    issued: nat,                // call_numid_counter
    calls: map<nat, Phase>,     // the call-ids that exist
    stack: seq<nat>,            // callbacks that are running, innermost last
    main: bool,                 // main_cancellable
    shutting: bool,             // shutting_down
    refs: int,                  // references the call-ids hold on the manager
    log: seq<Delivery>,
    freed: seq<nat>)

  datatype Event =
    | Request(subject: Subject)
    | Cancel(id: nat)
    | CallbackReturns
    | IdleFires(id: nat)
    | Reply(id: nat, answer: Answer)
    | CancelledReply(id: nat)
    | RetractReply(id: nat)
    | ForceShutdown

  predicate Listed(p: Phase) { p.Simulated? || p.Asking? }

  function Initial(mode: Mode): Manager {
    Manager(mode, 0, map[], [], mode == UsePolkit, false, 0, [], [])
  }

  /** Whether the answer is known without asking polkit, and which one it is. */
  function FirstPhase(mode: Mode, subject: Subject): Phase {
    if subject.Internal? || subject.uid == 0 then Simulated(true)
    else if mode != UsePolkit then Simulated(mode == AllowAll)
    else Asking
  }

  predicate Enabled(m: Manager, e: Event) {
    match e
    case Request(_) => true
    case Cancel(id) => id in m.calls
    case CallbackReturns => m.stack != []
    case IdleFires(id) => m.stack == [] && id in m.calls && m.calls[id].Simulated?
    case Reply(id, a) => m.stack == [] && id in m.calls && m.calls[id].Asking? && !a.CancelledByCaller?
    case CancelledReply(id) => m.stack == [] && id in m.calls && m.calls[id].Abandoned?
    case RetractReply(id) => m.stack == [] && id in m.calls && m.calls[id].Retracting?
    case ForceShutdown => true
  }

  /** _call_id_invoke_callback() up to and including the call of the callback. */
  function Begin(m: Manager, id: nat, asking: bool, a: Answer): Manager {
    m.(calls := m.calls[id := Delivering(asking)], stack := m.stack + [id],
       log := m.log + [Delivery(id, a)])
  }

  /** _call_id_free() with no D-Bus call in flight. */
  function Free(m: Manager, id: nat): Manager {
    m.(calls := m.calls - {id}, refs := m.refs - 1, freed := m.freed + [id])
  }

  /** nm_auth_manager_check_authorization(). */
  function Requested(m: Manager, subject: Subject): Manager {
    m.(issued := m.issued + 1, refs := m.refs + 1, calls := m.calls[m.issued + 1 := FirstPhase(m.mode, subject)])
  }

  /** The callback of a call whose D-Bus request is still in flight returns. */
  function Abandon(m: Manager): Manager
    requires m.stack != []
  {
    m.(stack := m.stack[..|m.stack| - 1], calls := m.calls[m.stack[|m.stack| - 1] := Abandoned])
  }

  /** _call_id_invoke_callback() after the callback. */
  function Returned(m: Manager): Manager
    requires m.stack != []
  {
    var id := m.stack[|m.stack| - 1];
    if id in m.calls && m.calls[id] == Delivering(true) then Abandon(m)
    else Free(m.(stack := m.stack[..|m.stack| - 1]), id)
  }

  function Step(m: Manager, e: Event): Manager
    requires Enabled(m, e)
  {
    match e
    case Request(subject) =>
      if m.shutting then m else Requested(m, subject)
    case Cancel(id) =>
      if !Listed(m.calls[id]) then m
      else Begin(m, id, m.calls[id].Asking?, CancelledByCaller)
    case CallbackReturns => Returned(m)
    case IdleFires(id) => Begin(m, id, false, Decision(m.calls[id].authorized, false))
    case Reply(id, a) => Begin(m, id, false, a)
    case CancelledReply(id) =>
      if m.main then m.(calls := m.calls[id := Retracting]) else Free(m, id)
    case RetractReply(id) => Free(m, id)
    case ForceShutdown => m.(shutting := true, main := false)
  }

  predicate CanRun(m: Manager, es: seq<Event>)
    decreases |es|
  {
    es == [] || (Enabled(m, es[0]) && CanRun(Step(m, es[0]), es[1..]))
  }

  function Run(m: Manager, es: seq<Event>): Manager
    requires CanRun(m, es)
    decreases |es|
  {
    if es == [] then m else Run(Step(m, es[0]), es[1..])
  }

  /** What the callers see. */
  function View(m: Manager): Contract {
    Contract(m.issued, !m.shutting, (set id | id in m.calls && Listed(m.calls[id])), m.log)
  }

  /** Of the numbers handed out, each is a call-id that exists or was freed once; every call-id that
      exists holds one reference. */
  ghost predicate Ledger(issued: nat, live: set<nat>, refs: int, freed: seq<nat>) {
    && refs == |live| && Distinct(freed)
    && (forall id :: id in live ==> 1 <= id <= issued)
    && (forall id :: id in freed ==> 1 <= id <= issued)
    && (forall id: nat :: 1 <= id <= issued ==> (id in live) != (id in freed))
  }

  /** The callbacks running are those of the call-ids being answered. */
  ghost predicate Stacked(calls: map<nat, Phase>, stack: seq<nat>) {
    && Distinct(stack)
    && (forall id :: id in stack ==> id in calls && calls[id].Delivering?)
    && (forall id :: id in calls && calls[id].Delivering? ==> id in stack)
  }

  ghost predicate Inv(m: Manager) {
    && (m.main <==> m.mode == UsePolkit && !m.shutting)
    && (forall id :: id in m.calls && m.calls[id].Asking? ==> m.mode == UsePolkit)
    && Stacked(m.calls, m.stack)
    && Ledger(m.issued, m.calls.Keys, m.refs, m.freed)
  }

  lemma NextNumberIsFree(m: Manager)
    requires Inv(m)
    ensures m.issued + 1 !in m.calls && m.issued + 1 !in m.stack
  {
  }

  lemma BeginKeepsInv(m: Manager, id: nat, asking: bool, a: Answer)
    requires Inv(m) && id in m.calls && Listed(m.calls[id])
    ensures Inv(Begin(m, id, asking, a))
    ensures View(Begin(m, id, asking, a)) == Deliver(View(m), id, a)
  {
  }

  lemma FreeKeepsInv(m: Manager, id: nat)
    requires Inv(m) && id in m.calls && !Listed(m.calls[id]) && !m.calls[id].Delivering?
    ensures Inv(Free(m, id)) && View(Free(m, id)) == View(m)
  {
  }

  lemma RequestKeepsInv(m: Manager, subject: Subject)
    requires Inv(m) && !m.shutting
    ensures Inv(Step(m, Request(subject)))
  {
    LedgerGrows(m.issued, m.calls.Keys, m.refs, m.freed);
    assert Step(m, Request(subject)).calls.Keys == m.calls.Keys + {m.issued + 1};
  }

  lemma LedgerGrows(issued: nat, live: set<nat>, refs: int, freed: seq<nat>)
    requires Ledger(issued, live, refs, freed)
    ensures issued + 1 !in live
    ensures Ledger(issued + 1, live + {issued + 1}, refs + 1, freed)
  {
    assert issued + 1 !in freed;
  }

  lemma RequestAsks(m: Manager, subject: Subject)
    requires Inv(m) && !m.shutting
    ensures View(Step(m, Request(subject))) == Ask(View(m))
  {
  }

  lemma AbandonKeepsInv(m: Manager)
    requires Inv(m) && m.stack != []
    ensures Inv(Abandon(m)) && View(Abandon(m)) == View(m)
  {
  }

  lemma ReturnKeepsInv(m: Manager)
    requires Inv(m) && m.stack != []
    ensures Inv(Step(m, CallbackReturns)) && View(Step(m, CallbackReturns)) == View(m)
  {
    var id := m.stack[|m.stack| - 1];
    assert id in m.stack;
    AbandonKeepsInv(m);
    if m.calls[id] != Delivering(true) {
      FreeKeepsInv(Abandon(m), id);
      assert Abandon(m).calls - {id} == m.calls - {id};
      assert Free(Abandon(m), id) == Step(m, CallbackReturns);
    }
  }

  /** What a step means to the callers. */
  function MoveOf(m: Manager, e: Event): Move
    requires Enabled(m, e)
  {
    match e
    case Request(_) => if m.shutting then Stay else Asked
    case Cancel(id) => if Listed(m.calls[id]) then Withdrawn(id) else Stay
    case IdleFires(id) => Answered(id, Decision(m.calls[id].authorized, false))
    case Reply(id, a) => Answered(id, a)
    case ForceShutdown => Closed
    case _ => Stay
  }

  /** Every step keeps the invariant and is the step of the contract that it means; in particular a
      request comes back as cancelled only when its caller cancels it. */
  lemma StepKeepsInv(m: Manager, e: Event)
    requires Inv(m) && Enabled(m, e)
    ensures Inv(Step(m, e)) && Moves(View(m), MoveOf(m, e), View(Step(m, e)))
  {
    match e
    case Request(subject) =>
      if !m.shutting {
        RequestKeepsInv(m, subject);
        RequestAsks(m, subject);
      }
    case Cancel(id) =>
      if Listed(m.calls[id]) {
        BeginKeepsInv(m, id, m.calls[id].Asking?, CancelledByCaller);
      }
    case CallbackReturns => ReturnKeepsInv(m);
    case IdleFires(id) =>
      var a := Decision(m.calls[id].authorized, false);
      BeginKeepsInv(m, id, false, a);
    case Reply(id, a) =>
      BeginKeepsInv(m, id, false, a);
    case CancelledReply(id) =>
      if m.main { MoveKeepsInv(m, id, Retracting); } else { FreeKeepsInv(m, id); }
    case RetractReply(id) => FreeKeepsInv(m, id);
    case ForceShutdown => assert View(Step(m, e)) == Close(View(m));
  }

  lemma MoveKeepsInv(m: Manager, id: nat, p: Phase)
    requires Inv(m) && id in m.calls && m.calls[id].Abandoned? && p.Retracting?
    ensures Inv(m.(calls := m.calls[id := p])) && View(m.(calls := m.calls[id := p])) == View(m)
  {
  }

  lemma {:induction false} RunKeepsInv(m: Manager, es: seq<Event>)
    requires Inv(m) && ExactlyOnce(View(m)) && CanRun(m, es)
    ensures Inv(Run(m, es)) && ExactlyOnce(View(Run(m, es)))
    decreases |es|
  {
    if es != [] {
      StepKeepsInv(m, es[0]);
      MovesKeepExactlyOnce(View(m), MoveOf(m, es[0]), View(Step(m, es[0])));
      RunKeepsInv(Step(m, es[0]), es[1..]);
    }
  }

  /** In every run, with callbacks that call back in any way and a forced shutdown at any time:
      each request is answered at most once, exactly once as soon as it is no longer listed, each
      call-id is freed at most once, and it is freed as soon as it no longer holds a reference. */
  lemma EveryRequestOnce(mode: Mode, es: seq<Event>)
    requires CanRun(Initial(mode), es)
    ensures var m := Run(Initial(mode), es);
            && m.refs == |m.calls|
            && Distinct(m.freed)
            && forall id: nat :: 1 <= id <= m.issued ==>
                 && Deliveries(m.log, id) == (if id in m.calls && Listed(m.calls[id]) then 0 else 1)
                 && (id in m.freed <==> id !in m.calls)
  {
    assert View(Initial(mode)) == AuthContract.FRESH;
    assert Inv(Initial(mode)) by { assert |Initial(mode).calls| == 0; }
    RunKeepsInv(Initial(mode), es);
    var m := Run(Initial(mode), es);
    forall id: nat | 1 <= id <= m.issued
      ensures Deliveries(m.log, id) == (if id in m.calls && Listed(m.calls[id]) then 0 else 1)
    {
      assert OnceFor(View(m), id);
    }
  }

  // ---------------------------------------------------------------- who is granted

  /** Whether the subject is the daemon itself or root. */
  predicate IsTrusted(subject: Subject) {
    subject == Internal || subject == Process(0)
  }

  /** Who made the request of that number in a run. */
  function Asker(m: Manager, es: seq<Event>, id: nat): Option<Subject>
    requires CanRun(m, es)
    decreases |es|
  {
    if es == [] then None
    else if es[0].Request? && !m.shutting && id == m.issued + 1 then Some(es[0].subject)
    else Asker(Step(m, es[0]), es[1..], id)
  }

  /** What an answer may be, without saying how it is found. */
  ghost predicate IsRight(mode: Mode, subject: Subject, id: nat, a: Answer, es: seq<Event>) {
    if IsTrusted(subject) || mode == AllowAll then a == Decision(true, false)
    else if mode == RootOnly then a == Decision(false, false)
    else Reply(id, a) in es
  }

  /** So far request `id` by that subject is on the way to the right answer, or got it. */
  ghost predicate OnTheWay(m: Manager, id: nat, subject: Subject, past: seq<Event>) {
    && id <= m.issued
    && (id in m.calls && m.calls[id].Simulated? ==>
          && (IsTrusted(subject) || m.mode != UsePolkit)
          && IsRight(m.mode, subject, id, Decision(m.calls[id].authorized, false), past))
    && (id in m.calls && m.calls[id].Asking? ==> !IsTrusted(subject) && m.mode == UsePolkit)
    && (AnswerOf(m.log, id).Some? && !AnswerOf(m.log, id).value.CancelledByCaller? ==>
          IsRight(m.mode, subject, id, AnswerOf(m.log, id).value, past))
  }

  /** The call-id an event is about. */
  function Concerned(m: Manager, e: Event): Option<nat>
    requires Enabled(m, e)
  {
    match e
    case Request(_) => None
    case ForceShutdown => None
    case CallbackReturns => Some(m.stack[|m.stack| - 1])
    case _ => Some(e.id)
  }

  lemma OtherStepStaysOnTheWay(m: Manager, e: Event, id: nat, subject: Subject, past: seq<Event>)
    requires Inv(m) && Enabled(m, e) && OnTheWay(m, id, subject, past) && Concerned(m, e) != Some(id)
    ensures OnTheWay(Step(m, e), id, subject, past + [e])
  {
    var m' := Step(m, e);
    assert m'.mode == m.mode && id <= m'.issued;
    assert (id in m'.calls <==> id in m.calls) && (id in m.calls ==> m'.calls[id] == m.calls[id]);
    assert AnswerOf(m'.log, id) == AnswerOf(m.log, id);
  }

  lemma OwnStepStaysOnTheWay(m: Manager, e: Event, id: nat, subject: Subject, past: seq<Event>)
    requires Inv(m) && Enabled(m, e) && OnTheWay(m, id, subject, past) && Concerned(m, e) == Some(id)
    ensures OnTheWay(Step(m, e), id, subject, past + [e])
  {
    assert e in past + [e];
    assert e.CallbackReturns? ==> id in m.stack;
  }

  lemma StepStaysOnTheWay(m: Manager, e: Event, id: nat, subject: Subject, past: seq<Event>)
    requires Inv(m) && Enabled(m, e) && OnTheWay(m, id, subject, past)
    ensures OnTheWay(Step(m, e), id, subject, past + [e])
  {
    if Concerned(m, e) == Some(id) {
      OwnStepStaysOnTheWay(m, e, id, subject, past);
    } else {
      OtherStepStaysOnTheWay(m, e, id, subject, past);
    }
  }

  lemma {:induction false} RunStaysOnTheWay(m: Manager, es: seq<Event>, id: nat, subject: Subject, past: seq<Event>)
    requires Inv(m) && CanRun(m, es) && OnTheWay(m, id, subject, past)
    ensures OnTheWay(Run(m, es), id, subject, past + es)
    decreases |es|
  {
    if es == [] {
      assert past + es == past;
    } else {
      StepKeepsInv(m, es[0]);
      StepStaysOnTheWay(m, es[0], id, subject, past);
      RunStaysOnTheWay(Step(m, es[0]), es[1..], id, subject, past + [es[0]]);
      assert past + [es[0]] + es[1..] == past + es;
    }
  }

  lemma {:induction false} AskedIsOnTheWay(m: Manager, es: seq<Event>, id: nat, past: seq<Event>)
    requires Inv(m) && ExactlyOnce(View(m)) && CanRun(m, es) && Asker(m, es, id).Some?
    ensures OnTheWay(Run(m, es), id, Asker(m, es, id).value, past + es)
    decreases |es|
  {
    var m1 := Step(m, es[0]);
    StepKeepsInv(m, es[0]);
    MovesKeepExactlyOnce(View(m), MoveOf(m, es[0]), View(m1));
    assert past + [es[0]] + es[1..] == past + es;
    if es[0].Request? && !m.shutting && id == m.issued + 1 {
      assert OnceFor(View(m), id);
      AnsweredMeansDelivered(m.log, id);
      assert OnTheWay(m1, id, es[0].subject, past + [es[0]]);
      RunStaysOnTheWay(m1, es[1..], id, es[0].subject, past + [es[0]]);
    } else {
      AskedIsOnTheWay(m1, es[1..], id, past + [es[0]]);
    }
  }

  /** In every run, a request that was answered and not cancelled by its caller: the daemon and root are
      granted it, and so is everybody in mode `AllowAll`; others are denied it in mode `RootOnly`, and
      get exactly what polkit replied for that request in mode `UsePolkit`. */
  lemma WhoIsGranted(m: Manager, es: seq<Event>, id: nat)
    requires Inv(m) && m.issued == 0 && m.log == [] && CanRun(m, es) && Asker(m, es, id).Some?
    requires var a := AnswerOf(Run(m, es).log, id); a.Some? && !a.value.CancelledByCaller?
    ensures var subject, a := Asker(m, es, id).value, AnswerOf(Run(m, es).log, id).value;
            && (subject == Internal || subject == Process(0) || m.mode == AllowAll ==> a == Decision(true, false))
            && (m.mode == RootOnly && subject != Internal && subject != Process(0) ==> a == Decision(false, false))
            && (m.mode == UsePolkit && subject != Internal && subject != Process(0) ==> Reply(id, a) in es)
  {
    NothingAnswered(m);
    AskedIsOnTheWay(m, es, id, []);
    assert [] + es == es;
    ModeStays(m, es);
  }

  lemma NothingAnswered(m: Manager)
    requires Inv(m) && m.issued == 0 && m.log == []
    ensures ExactlyOnce(View(m))
  {
    assert View(m).outstanding == {};
  }

  lemma {:induction false} ModeStays(m: Manager, es: seq<Event>)
    requires CanRun(m, es)
    ensures Run(m, es).mode == m.mode
    decreases |es|
  {
    if es != [] {
      ModeStays(Step(m, es[0]), es[1..]);
    }
  }

  // ---------------------------------------------------------------- polkit hears of cancellations

  /** How far a request made to polkit is: only after a cancellation its D-Bus call outlives the answer, and
      then it is retracted, short of a shutdown. */
  ghost predicate Withdrawing(m: Manager, id: nat, past: seq<Event>) {
    var cancelled := AnswerOf(m.log, id) == Some(CancelledByCaller);
    && id <= m.issued && m.mode == UsePolkit && (m.shutting ==> ForceShutdown in past)
    && (RetractReply(id) in past ==> cancelled)
    && if id in m.calls then
         match m.calls[id]
         case Simulated(_) => false
         case Asking => AnswerOf(m.log, id).None?
         case Delivering(asking) => AnswerOf(m.log, id).Some? && (asking <==> cancelled)
         case Abandoned => cancelled
         case Retracting => cancelled
       else AnswerOf(m.log, id).Some? && (cancelled ==> RetractReply(id) in past || m.shutting)
  }

  /** What happens to other call-ids changes nothing for this one. */
  lemma OtherStepWithdraws(m: Manager, e: Event, id: nat, past: seq<Event>)
    requires Inv(m) && Enabled(m, e) && Withdrawing(m, id, past) && Concerned(m, e) != Some(id)
    ensures Withdrawing(Step(m, e), id, past + [e])
  {
    var m' := Step(m, e);
    assert m'.mode == m.mode && id <= m'.issued && (m.shutting ==> m'.shutting);
    assert (id in m'.calls <==> id in m.calls) && (id in m.calls ==> m'.calls[id] == m.calls[id]);
    assert AnswerOf(m'.log, id) == AnswerOf(m.log, id);
    assert RetractReply(id) in past + [e] <==> RetractReply(id) in past;
    assert ForceShutdown in past + [e] <==> ForceShutdown in past || e == ForceShutdown;
  }

  lemma OwnStepWithdraws(m: Manager, e: Event, id: nat, past: seq<Event>)
    requires Inv(m) && Enabled(m, e) && Withdrawing(m, id, past) && Concerned(m, e) == Some(id)
    ensures Withdrawing(Step(m, e), id, past + [e])
  {
    assert RetractReply(id) in past + [e] <==> RetractReply(id) in past || e == RetractReply(id);
    assert ForceShutdown in past + [e] <==> ForceShutdown in past;
    assert e.CallbackReturns? ==> id in m.stack;
  }

  lemma StepWithdraws(m: Manager, e: Event, id: nat, past: seq<Event>)
    requires Inv(m) && Enabled(m, e) && Withdrawing(m, id, past)
    ensures Withdrawing(Step(m, e), id, past + [e])
  {
    if Concerned(m, e) == Some(id) {
      OwnStepWithdraws(m, e, id, past);
    } else {
      OtherStepWithdraws(m, e, id, past);
    }
  }

  lemma {:induction false} RunWithdraws(m: Manager, es: seq<Event>, id: nat, past: seq<Event>)
    requires Inv(m) && CanRun(m, es) && Withdrawing(m, id, past)
    ensures Withdrawing(Run(m, es), id, past + es)
    decreases |es|
  {
    if es == [] {
      assert past + es == past;
    } else {
      StepKeepsInv(m, es[0]);
      StepWithdraws(m, es[0], id, past);
      RunWithdraws(Step(m, es[0]), es[1..], id, past + [es[0]]);
      assert past + [es[0]] + es[1..] == past + es;
    }
  }

  /** Nothing has been retracted for a number that was not given out yet. */
  ghost predicate Untouched(m: Manager, id: nat, past: seq<Event>) {
    id > m.issued && RetractReply(id) !in past && (m.shutting ==> ForceShutdown in past)
  }

  lemma StepUntouched(m: Manager, e: Event, id: nat, past: seq<Event>)
    requires Inv(m) && Enabled(m, e) && Untouched(m, id, past) && Step(m, e).issued < id
    ensures Untouched(Step(m, e), id, past + [e])
  {
    assert e in past + [e];
  }

  lemma {:induction false} AskedWithdraws(m: Manager, es: seq<Event>, id: nat, past: seq<Event>)
    requires Inv(m) && ExactlyOnce(View(m)) && m.mode == UsePolkit && CanRun(m, es) && Untouched(m, id, past)
    requires Asker(m, es, id).Some? && !IsTrusted(Asker(m, es, id).value)
    ensures Withdrawing(Run(m, es), id, past + es)
    decreases |es|
  {
    var m1 := Step(m, es[0]);
    StepKeepsInv(m, es[0]);
    MovesKeepExactlyOnce(View(m), MoveOf(m, es[0]), View(m1));
    assert past + [es[0]] + es[1..] == past + es;
    if es[0].Request? && !m.shutting && id == m.issued + 1 {
      assert OnceFor(View(m), id);
      AnsweredMeansDelivered(m.log, id);
      assert Withdrawing(m1, id, past + [es[0]]);
      RunWithdraws(m1, es[1..], id, past + [es[0]]);
    } else {
      StepUntouched(m, es[0], id, past);
      AskedWithdraws(m1, es[1..], id, past + [es[0]]);
    }
  }

  /** In every run, a request that went to polkit and whose call-id is gone: if its caller cancelled it,
      polkit was asked to cancel it too and has replied to that, or the manager was shut down; if its
      caller did not, nothing was retracted. */
  lemma CancelledIsRetracted(m: Manager, es: seq<Event>, id: nat)
    requires Inv(m) && m.issued == 0 && m.log == [] && !m.shutting && m.mode == UsePolkit && CanRun(m, es)
    requires Asker(m, es, id).Some? && Asker(m, es, id).value !in {Internal, Process(0)} && id != 0
    ensures var cancelled := AnswerOf(Run(m, es).log, id) == Some(CancelledByCaller);
            && (cancelled && id in Run(m, es).freed ==> RetractReply(id) in es || ForceShutdown in es)
            && (!cancelled ==> RetractReply(id) !in es)
  {
    NothingAnswered(m);
    AskedWithdraws(m, es, id, []);
    assert [] + es == es;
    RunKeepsInv(m, es);
  }

  // ---------------------------------------------------------------- everything ends

  function Weight(p: Phase): nat {
    match p
    case Simulated(_) => 2
    case Asking => 5
    case Delivering(asking) => if asking then 4 else 1
    case Abandoned => 3
    case Retracting => 1
  }

  /** Steps the call-ids numbered up to `n` can still take. */
  function Potential(calls: map<nat, Phase>, n: nat): nat {
    if n == 0 then 0
    else (if n in calls then Weight(calls[n]) else 0) + Potential(calls, n - 1)
  }

  lemma {:induction false} PotentialOfOther(calls: map<nat, Phase>, calls': map<nat, Phase>, id: nat, n: nat)
    requires forall i: nat :: i != id ==> (i in calls <==> i in calls') && (i in calls ==> calls[i] == calls'[i])
    ensures 1 <= id <= n ==>
              Potential(calls', n) + (if id in calls then Weight(calls[id]) else 0) ==
              Potential(calls, n) + (if id in calls' then Weight(calls'[id]) else 0)
    ensures id > n ==> Potential(calls', n) == Potential(calls, n)
  {
    if n > 0 {
      PotentialOfOther(calls, calls', id, n - 1);
    }
  }

  /** Anything but a new request or a refused cancellation brings the end closer. */
  lemma StepLowersPotential(m: Manager, e: Event)
    requires Inv(m) && Enabled(m, e) && !e.Request? && !e.ForceShutdown?
    requires e.Cancel? ==> Listed(m.calls[e.id])
    ensures Step(m, e).issued == m.issued
    ensures Potential(Step(m, e).calls, m.issued) < Potential(m.calls, m.issued)
  {
    var id := if e.CallbackReturns? then m.stack[|m.stack| - 1] else e.id;
    assert e.CallbackReturns? ==> id in m.stack;
    PotentialOfOther(m.calls, Step(m, e).calls, id, m.issued);
  }

  /** Completions, as opposed to what the callers do. */
  predicate IsCompletion(e: Event) {
    !e.Request? && !e.ForceShutdown? && !e.Cancel?
  }

  /** While a call-id exists, some completion is still due. */
  lemma SomethingIsDue(m: Manager)
    requires Inv(m) && m.calls != map[]
    ensures exists e :: IsCompletion(e) && Enabled(m, e)
  {
    var e := CallbackReturns;
    if m.stack == [] {
      var id :| id in m.calls;
      e := match m.calls[id]
           case Simulated(_) => IdleFires(id)
           case Asking => Reply(id, Error)
           case Abandoned => CancelledReply(id)
           case _ => RetractReply(id);
    }
    assert IsCompletion(e) && Enabled(m, e);
  }

  /** Left alone, the manager takes at most `Potential` completions, and where none is due any more
      every request was answered, every call-id freed and no reference on the manager is left. */
  lemma {:induction false} EverythingEnds(m: Manager, es: seq<Event>)
    requires Inv(m) && CanRun(m, es)
    requires forall e :: e in es ==> IsCompletion(e)
    ensures |es| <= Potential(m.calls, m.issued)
    ensures (forall e :: IsCompletion(e) ==> !Enabled(Run(m, es), e)) ==>
              Run(m, es).calls == map[] && Run(m, es).refs == 0
    decreases |es|
  {
    if es == [] {
      if m.calls != map[] {
        SomethingIsDue(m);
      }
    } else {
      assert es[0] in es;
      StepKeepsInv(m, es[0]);
      StepLowersPotential(m, es[0]);
      EverythingEnds(Step(m, es[0]), es[1..]);
    }
  }
}
