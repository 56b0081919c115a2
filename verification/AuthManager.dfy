/**
 * The fields of NMAuthManagerPrivate and of its call-ids, and the functions that update them
 * (src/core/nm-auth-manager.c), each proved to take the step of the machine in AuthMachine.
 */
module AuthManager {
  import opened Common
  import opened AuthContract
  import opened AuthMachine

  /** struct _NMAuthManagerCallId. `retracting` says that a CancelCheckAuthorization call holds it. */
  datatype CallId = CallId(
    listed: bool,
    dbusCancellable: Option<bool>,    // Some(cancelled)
    idle: bool,
    idleIsAuthorized: bool,
    retracting: bool)

  /** The life cycle phase a call-id is in, given whether its callback is running. */
  ghost function PhaseOf(c: CallId, running: bool): Phase {
    if running then Delivering(c.dbusCancellable.Some?)
    else if c.listed && c.idle then Simulated(c.idleIsAuthorized)
    else if c.listed then Asking
    else if c.dbusCancellable.Some? then Abandoned
    else Retracting
  }

  /** The fields of a call-id fit together. */
  ghost predicate WellFormedCall(c: CallId, running: bool) {
    && (running ==> !c.listed && !c.retracting && c.dbusCancellable != Some(true))
    && (c.listed ==> c.idle == c.dbusCancellable.None? && c.dbusCancellable != Some(true) && !c.retracting)
    && (!c.listed && !running ==>
          !c.idle && c.dbusCancellable != Some(false) && (c.retracting <==> c.dbusCancellable.None?))
  }

  ghost predicate WellFormedCalls(calls: map<nat, CallId>, stack: seq<nat>) {
    forall id :: id in calls ==> WellFormedCall(calls[id], id in stack)
  }

  ghost function Phases(calls: map<nat, CallId>, stack: seq<nat>): map<nat, Phase> {
    map id | id in calls :: PhaseOf(calls[id], id in stack)
  }

  /** _call_id_free() on the call-id whose callback returned. */
  function FreedCall(calls: map<nat, CallId>, id: nat): map<nat, CallId>
    requires id in calls
  {
    var c := calls[id];
    if c.dbusCancellable.Some? then calls[id := c.(listed := false, idle := false, dbusCancellable := Some(true))]
    else calls - {id}
  }

  lemma PhasesAfterReturn(calls: map<nat, CallId>, rest: seq<nat>, id: nat)
    requires id in calls && id !in rest && WellFormedCalls(calls, rest + [id])
    ensures WellFormedCalls(FreedCall(calls, id), rest)
    ensures var phases := Phases(calls, rest + [id]);
            && phases[id] == Delivering(calls[id].dbusCancellable.Some?)
            && Phases(FreedCall(calls, id), rest) ==
               if calls[id].dbusCancellable.Some? then phases[id := Abandoned] else phases - {id}
  {
  }

  class AuthManager {
    const mode: Mode
    var counter: nat
    var calls: map<nat, CallId>
    var stack: seq<nat>
    var mainCancellable: bool
    var shuttingDown: bool
    var refs: int
    var log: seq<Delivery>
    var freed: seq<nat>

    ghost predicate WellFormed()
      reads this
    {
      WellFormedCalls(calls, stack)
    }

    ghost function Model(): Manager
      reads this
    {
      Manager(mode, counter, Phases(calls, stack), stack, mainCancellable, shuttingDown, refs, log, freed)
    }

    ghost predicate Valid()
      reads this
    {
      WellFormed() && Inv(Model())
    }

    constructor (mode: Mode)
      ensures Valid() && Model() == Initial(mode)
    {
      this.mode := mode;
      counter, calls, stack, refs, log, freed := 0, map[], [], 0, [], [];
      mainCancellable, shuttingDown := mode == UsePolkit, false;
      new;
      assert Model().calls == map[];
      assert |Model().calls| == 0;
    }

    // The methods named as in the source keep Valid(); each leaves the field updates to a method
    // that needs the fields to be well-formed and nothing else.

    /** nm_auth_manager_check_authorization(): the number of the new call, unless shutting down. */
    method CheckAuthorization(subject: Subject) returns (id: Option<nat>)
      requires Valid()
      modifies this
      ensures Valid()
      ensures Model() == Step(old(Model()), Request(subject))
      ensures id == if old(shuttingDown) then None else Some(counter)
      ensures log == old(log)
    {
      StepKeepsInv(Model(), Request(subject));
      if shuttingDown {
        return None;
      }
      NextNumberIsFree(Model());
      AddCall(subject);
      return Some(counter);
    }

    method AddCall(subject: Subject)
      requires WellFormed() && counter + 1 !in calls && counter + 1 !in stack
      modifies this`counter, this`refs, this`calls
      ensures WellFormed() && Model() == Requested(old(Model()), subject)
    {
      counter := counter + 1;
      refs := refs + 1;
      var c := CallId(true, None, false, true, false);
      if subject.Internal? {
        c := c.(idle := true);
      } else if subject.uid == 0 {
        c := c.(idle := true);
      } else if mode != UsePolkit {
        c := c.(idleIsAuthorized := mode == AllowAll, idle := true);
      } else {
        c := c.(dbusCancellable := Some(false));
      }
      calls := calls[counter := c];
      assert Model().calls == old(Model()).calls[counter := FirstPhase(mode, subject)];
    }

    /** _call_id_invoke_callback(): unlink the call-id and hand the answer to its callback. */
    method InvokeCallback(id: nat, a: Answer)
      requires WellFormed() && id in calls && calls[id].listed && id !in stack
      modifies this`calls, this`stack, this`log
      ensures WellFormed()
      ensures Model() == Begin(old(Model()), id, old(calls)[id].dbusCancellable.Some?, a)
    {
      assert WellFormedCall(calls[id], false);
      calls := calls[id := calls[id].(listed := false)];
      log := log + [Delivery(id, a)];
      stack := stack + [id];
      assert Model().calls ==
             old(Model()).calls[id := Delivering(old(calls)[id].dbusCancellable.Some?)];
    }

    /** _call_id_free(): keeps the call-id alive while its D-Bus call did not return. */
    method CallIdFree(id: nat)
      requires id in calls
      modifies this`calls, this`refs, this`freed
      ensures calls == FreedCall(old(calls), id)
      ensures if old(calls)[id].dbusCancellable.Some? then refs == old(refs) && freed == old(freed)
              else refs == old(refs) - 1 && freed == old(freed) + [id]
    {
      calls := calls[id := calls[id].(listed := false, idle := false)];
      if calls[id].dbusCancellable.Some? {
        calls := calls[id := calls[id].(dbusCancellable := Some(true))];
        return;
      }
      refs := refs - 1;
      freed := freed + [id];
      calls := calls - {id};
    }

    /** nm_auth_manager_check_authorization_cancel(). */
    method CancelCall(id: nat)
      requires Valid() && id in calls
      modifies this
      ensures Valid()
      ensures Model() == Step(old(Model()), Cancel(id))
    {
      StepKeepsInv(Model(), Cancel(id));
      assert WellFormedCall(calls[id], id in stack) && id in Model().calls;
      if !calls[id].listed {
        return;
      }
      InvokeCallback(id, CancelledByCaller);
    }

    /** _call_on_idle(). */
    method OnIdle(id: nat)
      requires Valid() && Enabled(Model(), IdleFires(id))
      modifies this
      ensures Valid()
      ensures Model() == Step(old(Model()), IdleFires(id))
    {
      StepKeepsInv(Model(), IdleFires(id));
      assert WellFormedCall(calls[id], id in stack);
      var isAuthorized := calls[id].idleIsAuthorized;
      InvokeCallback(id, Decision(isAuthorized, false));
    }

    /** _call_check_authorize_cb() for a call that was not cancelled. */
    method CheckAuthorizeCb(id: nat, a: Answer)
      requires Valid() && Enabled(Model(), Reply(id, a))
      modifies this
      ensures Valid()
      ensures Model() == Step(old(Model()), Reply(id, a))
    {
      StepKeepsInv(Model(), Reply(id, a));
      assert WellFormedCall(calls[id], id in stack);
      AnswerCall(id, a);
    }

    /** Clear the cancellable, so that the call-id is not kept alive, then answer. */
    method AnswerCall(id: nat, a: Answer)
      requires WellFormed() && id in calls && calls[id].listed && id !in stack
      modifies this`calls, this`stack, this`log
      ensures WellFormed()
      ensures Model() == Begin(old(Model()), id, false, a)
    {
      assert WellFormedCall(calls[id], false);
      calls := calls[id := calls[id].(dbusCancellable := None, listed := false)];
      log := log + [Delivery(id, a)];
      stack := stack + [id];
      assert Model().calls == old(Model()).calls[id := Delivering(false)];
    }

    /** _call_check_authorize_cb() for a cancelled call: retract the request, or give up on it when
        shutting down. */
    method CheckAuthorizeCancelledCb(id: nat)
      requires Valid() && Enabled(Model(), CancelledReply(id))
      modifies this
      ensures Valid()
      ensures Model() == Step(old(Model()), CancelledReply(id))
    {
      StepKeepsInv(Model(), CancelledReply(id));
      assert WellFormedCall(calls[id], id in stack);
      if !mainCancellable {
        DropCall(id);
      } else {
        RetractCall(id);
      }
    }

    method RetractCall(id: nat)
      requires WellFormed() && id in calls && id !in stack && !calls[id].listed
      modifies this`calls
      ensures WellFormed()
      ensures Model() == old(Model()).(calls := old(Model()).calls[id := Retracting])
    {
      assert WellFormedCall(calls[id], false);
      calls := calls[id := calls[id].(dbusCancellable := None, retracting := true)];
      assert Model().calls == old(Model()).calls[id := Retracting];
    }

    /** Frees a call-id that no D-Bus call holds any more. */
    method DropCall(id: nat)
      requires WellFormed() && id in calls && id !in stack
      modifies this`calls, this`refs, this`freed
      ensures WellFormed()
      ensures Model() == Free(old(Model()), id)
    {
      calls := calls[id := calls[id].(dbusCancellable := None)];
      CallIdFree(id);
      assert calls == old(calls) - {id};
      assert Model().calls == old(Model()).calls - {id};
    }

    /** cancel_check_authorization_cb(). */
    method CancelCheckAuthorizationCb(id: nat)
      requires Valid() && Enabled(Model(), RetractReply(id))
      modifies this
      ensures Valid()
      ensures Model() == Step(old(Model()), RetractReply(id))
    {
      StepKeepsInv(Model(), RetractReply(id));
      assert WellFormedCall(calls[id], id in stack);
      DropCall(id);
    }

    /** The innermost callback returns to _call_id_invoke_callback(), which frees the call-id. */
    method CallbackDone()
      requires Valid() && stack != []
      modifies this
      ensures Valid()
      ensures Model() == Step(old(Model()), CallbackReturns)
    {
      StepKeepsInv(Model(), CallbackReturns);
      assert stack[|stack| - 1] in stack;
      FinishCallback();
    }

    method FinishCallback()
      requires WellFormed() && Distinct(stack) && stack != [] && stack[|stack| - 1] in calls
      modifies this`stack, this`calls, this`refs, this`freed
      ensures WellFormed()
      ensures Model() == Returned(old(Model()))
    {
      var id, rest := stack[|stack| - 1], stack[..|stack| - 1];
      assert stack == rest + [id];
      PhasesAfterReturn(calls, rest, id);
      CallIdFree(id);
      stack := rest;
    }

    /** nm_auth_manager_force_shutdown(). */
    method ForceShutdownNow()
      requires Valid()
      modifies this`shuttingDown, this`mainCancellable
      ensures Valid()
      ensures Model() == Step(old(Model()), ForceShutdown)
    {
      StepKeepsInv(Model(), ForceShutdown);
      shuttingDown := true;
      mainCancellable := false;
    }
  }
}
