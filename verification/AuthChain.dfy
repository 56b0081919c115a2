/**
 * struct _NMAuthChain and its handlers (src/core/nm-auth-utils.c), each proved to take the step of
 * the machine in AuthChainMachine. The authorization manager appears as its contract.
 */
module AuthChain {
  import opened Common
  import opened AuthContract
  import opened AuthChainMachine

  class AuthChain {
    var contract: Contract
    var calls: seq<Call>
    var numPending: int
    var cancellable: Option<bool>
    var cancellableConnected: bool
    var cancellableIdle: bool
    var isStarted: bool
    var isFinishing: bool
    var isDestroyed: bool
    var gone: bool
    var doneRuns: nat
    ghost var refused: nat

    ghost function Model(): System
      reads this
    {
      System(contract, Chain(calls, numPending, cancellable, cancellableConnected, cancellableIdle,
                             isStarted, isFinishing, isDestroyed, gone, doneRuns, refused))
    }

    ghost predicate Valid()
      reads this
    {
      Inv(Model())
    }

    /** nm_auth_chain_new_subject(). */
    constructor (contract: Contract)
      requires ExactlyOnce(contract)
      ensures Valid() && Model() == System(contract, NEW_CHAIN)
    {
      this.contract := contract;
      calls, numPending, cancellable := [], 0, None;
      cancellableConnected, cancellableIdle, isStarted, isFinishing := false, false, false, false;
      isDestroyed, gone, doneRuns, refused := false, false, 0, 0;
      new;
      NewChainInv(Model());
    }

    /** nm_auth_chain_add_call_unsafe(). */
    method AddPermission(permission: string)
      requires Valid() && !gone
      modifies this
      ensures Valid()
      ensures Model() == Step(old(Model()), AuthChainMachine.AddCall(permission))
    {
      StepKeepsInv(Model(), AuthChainMachine.AddCall(permission));
      if isFinishing || isDestroyed {
        return;
      }
      AddToChain(permission);
    }

    method AddToChain(permission: string)
      requires !isStarted ==> !cancellableIdle && !cancellableConnected
      modifies this
      ensures Model() == Add(old(Model()), permission)
    {
      if !isStarted {
        isStarted := true;
        if cancellable.Some? {
          if cancellable.value {
            cancellableIdle := true;
          } else {
            cancellableConnected := true;
          }
        }
      }
      var call := Call(permission, None, false, Unknown);
      if !cancellableIdle {
        if contract.open {
          contract := Ask(contract);
          call := call.(asked := Some(contract.issued), live := true);
        } else {
          refused := refused + 1;
        }
        numPending := numPending + 1;
      }
      calls := [call] + calls;
    }

    /** pk_call_cb(): the manager answered request `id`. */
    method Answer(id: nat, a: Answer)
      requires Valid() && Enabled(Model(), AnswerArrives(id, a)) && Owns(calls, id)
      modifies this
      ensures Valid()
      ensures Model() == Step(old(Model()), AnswerArrives(id, a))
    {
      StepKeepsInv(Model(), AnswerArrives(id, a));
      TakeAnswer(id, a);
    }

    method TakeAnswer(id: nat, a: Answer)
      requires Owns(calls, id)
      modifies this
      ensures Model() == Accept(old(Model()), id, a)
    {
      ReceiveCall(id, a);
      contract := AuthContract.Deliver(contract, id, a);
      numPending := numPending - 1;
      if numPending == 0 {
        isFinishing := true;
        doneRuns := doneRuns + 1;
      }
    }

    method ReceiveCall(id: nat, a: Answer)
      requires Owns(calls, id)
      modifies this`calls
      ensures calls == Receive(old(calls), id, a)
    {
      var i := FindLive(id);
      ReceiveFirst(calls, id, a, i);
      calls := calls[i := calls[i].(live := false, result := Eval(a))];
    }

    /** The call that waits for request `id`. */
    method FindLive(id: nat) returns (i: nat)
      requires Owns(calls, id)
      ensures i < |calls| && IsLive(calls[i], id)
      ensures forall j :: 0 <= j < i ==> !IsLive(calls[j], id)
    {
      i := 0;
      while !(calls[i].live && calls[i].asked == Some(id))
        invariant 0 <= i < |calls|
        invariant exists j :: i <= j < |calls| && IsLive(calls[j], id)
        invariant forall j :: 0 <= j < i ==> !IsLive(calls[j], id)
        decreases |calls| - i
      {
        i := i + 1;
      }
    }

    /** Cancels what is pending: the loops of _cancellable_idle_cb() and _auth_chain_destroy(). */
    method CancelPending()
      requires CallsInv(contract, calls) && ExactlyOnce(contract)
      modifies this`contract, this`calls, this`numPending
      ensures (contract, calls) == CancelFrom(old(contract), old(calls), 0)
      ensures numPending == old(numPending) - LiveCount(old(calls))
    {
      ghost var all := LiveCount(calls);
      LiveCountPositive(calls);
      var i := 0;
      while i < |calls|
        invariant i <= |calls| && |calls| == |old(calls)|
        invariant CallsInv(contract, calls) && ExactlyOnce(contract)
        invariant forall j :: 0 <= j < i ==> !calls[j].live
        invariant CancelFrom(contract, calls, i) == CancelFrom(old(contract), old(calls), 0)
        invariant numPending - LiveCount(calls) == old(numPending) - all
      {
        assert CallInv(contract, calls[i]);
        if calls[i].live {
          CancelOne(contract, calls, i);
          DeadCountsOneLess(calls, i);
          numPending := numPending - 1;
          contract := AuthContract.Deliver(contract, calls[i].asked.value, CancelledByCaller);
          calls := calls[i := calls[i].(live := false)];
        }
        i := i + 1;
      }
      LiveCountPositive(calls);
    }

    /** _cancellable_idle_cb() up to the call of done_func. */
    method OnCancelled()
      requires Valid() && Enabled(Model(), IdleFires)
      modifies this
      ensures Valid()
      ensures Model() == Step(old(Model()), IdleFires)
    {
      StepKeepsInv(Model(), IdleFires);
      CancelPending();
      isFinishing := true;
      doneRuns := doneRuns + 1;
    }

    /** _cancellable_cancelled(). */
    method CancellableSignal()
      requires Valid() && Enabled(Model(), CancellableCancelled)
      modifies this
      ensures Valid()
      ensures Model() == Step(old(Model()), CancellableCancelled)
    {
      StepKeepsInv(Model(), CancellableCancelled);
      cancellable := Some(true);
      if cancellableConnected && !gone {
        cancellableIdle := true;
      }
    }

    /** nm_auth_chain_destroy(). */
    method DestroyChain()
      requires Valid() && Enabled(Model(), Destroy)
      modifies this
      ensures Valid()
      ensures Model() == Step(old(Model()), Destroy)
    {
      StepKeepsInv(Model(), Destroy);
      isDestroyed := true;
      if isFinishing {
        return;
      }
      CancelPending();
      gone := true;
    }

    /** done_func returned to _done_and_destroy(). */
    method DoneReturned()
      requires Valid() && Enabled(Model(), DoneReturns)
      modifies this
      ensures Valid()
      ensures Model() == Step(old(Model()), DoneReturns)
    {
      StepKeepsInv(Model(), DoneReturns);
      CancelPending();
      gone := true;
    }
  }

  lemma {:induction false} ReceiveFirst(calls: seq<Call>, id: nat, a: Answer, i: nat)
    requires i < |calls| && IsLive(calls[i], id) && forall j :: 0 <= j < i ==> !IsLive(calls[j], id)
    ensures Receive(calls, id, a) == calls[i := calls[i].(live := false, result := Eval(a))]
  {
    if i > 0 {
      ReceiveFirst(calls[1..], id, a, i - 1);
    }
  }

  lemma {:induction false} DeadCountsOneLess(calls: seq<Call>, i: nat)
    requires i < |calls| && calls[i].live
    ensures LiveCount(calls[i := calls[i].(live := false)]) == LiveCount(calls) - 1
  {
    var calls' := calls[i := calls[i].(live := false)];
    if i > 0 {
      DeadCountsOneLess(calls[1..], i - 1);
      assert calls'[1..] == calls[1..][i - 1 := calls[i].(live := false)];
    } else {
      assert calls'[1..] == calls[1..];
    }
  }
}
