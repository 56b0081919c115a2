/**
 * What nm_auth_manager_check_authorization() promises its callers, independent of how the manager
 * keeps the promise (src/core/nm-auth-manager.c:288-300): every request is answered exactly once,
 * never while it is being made, and a request that was not yet answered can be cancelled.
 */
module AuthContract {
  import opened Common

  datatype Answer = Decision(authorized: bool, challenge: bool) | Error | CancelledByCaller

  datatype Delivery = Delivery(id: nat, answer: Answer)

  /** `log` is everything ever handed to a callback. */
  datatype Contract = Contract(issued: nat, open: bool, outstanding: set<nat>, log: seq<Delivery>)

  const FRESH := Contract(0, true, {}, [])

  function Ask(c: Contract): Contract {
    c.(issued := c.issued + 1, outstanding := c.outstanding + {c.issued + 1})
  }

  function Deliver(c: Contract, id: nat, a: Answer): Contract {
    c.(outstanding := c.outstanding - {id}, log := c.log + [Delivery(id, a)])
  }

  function Close(c: Contract): Contract {
    c.(open := false)
  }

  /** What can happen to the promise. Only the owner of a request makes it come back as cancelled. */
  datatype Move = Stay | Asked | Answered(id: nat, answer: Answer) | Withdrawn(id: nat) | Closed

  /** The steps the promise allows. */
  predicate Moves(c: Contract, v: Move, c': Contract) {
    match v
    case Stay => c' == c
    case Asked => c.open && c' == Ask(c)
    case Answered(id, a) => id in c.outstanding && !a.CancelledByCaller? && c' == Deliver(c, id, a)
    case Withdrawn(id) => id in c.outstanding && c' == Deliver(c, id, CancelledByCaller)
    case Closed => c' == Close(c)
  }

  /** The answers handed out for a request. */
  function Deliveries(log: seq<Delivery>, id: nat): nat {
    if log == [] then 0
    else (if log[|log| - 1].id == id then 1 else 0) + Deliveries(log[..|log| - 1], id)
  }

  function AnswerOf(log: seq<Delivery>, id: nat): Option<Answer> {
    if log == [] then None
    else if log[|log| - 1].id == id then Some(log[|log| - 1].answer)
    else AnswerOf(log[..|log| - 1], id)
  }

  lemma AnswerAfterDelivery(log: seq<Delivery>, d: Delivery, id: nat)
    ensures AnswerOf(log + [d], id) == if d.id == id then Some(d.answer) else AnswerOf(log, id)
    ensures Deliveries(log + [d], id) == (if d.id == id then 1 else 0) + Deliveries(log, id)
  {
  }

  /** A request is either outstanding and unanswered, or answered exactly once. */
  ghost predicate OnceFor(c: Contract, id: nat) {
    && (id in c.outstanding ==> 1 <= id <= c.issued)
    && Deliveries(c.log, id) == if 1 <= id <= c.issued && id !in c.outstanding then 1 else 0
  }

  ghost predicate ExactlyOnce(c: Contract) {
    forall id :: OnceFor(c, id)
  }

  /** Whatever obeys the promise answers every request exactly once, and a request comes back as
      cancelled in no other step than the withdrawal by its owner. */
  lemma MovesKeepExactlyOnce(c: Contract, v: Move, c': Contract)
    requires ExactlyOnce(c) && Moves(c, v, c')
    ensures ExactlyOnce(c')
    ensures forall id :: AnswerOf(c'.log, id) == Some(CancelledByCaller) <==>
              AnswerOf(c.log, id) == Some(CancelledByCaller) || v == Withdrawn(id)
  {
    forall id ensures OnceFor(c', id)
      ensures AnswerOf(c'.log, id) == Some(CancelledByCaller) <==>
              AnswerOf(c.log, id) == Some(CancelledByCaller) || v == Withdrawn(id)
    {
      assert OnceFor(c, id);
      if v.Answered? || v.Withdrawn? {
        assert OnceFor(c, v.id);
        AnswerAfterDelivery(c.log, Delivery(v.id, if v.Answered? then v.answer else CancelledByCaller), id);
        AnsweredMeansDelivered(c.log, id);
      }
    }
  }

  lemma {:induction false} AnsweredMeansDelivered(log: seq<Delivery>, id: nat)
    ensures AnswerOf(log, id).Some? <==> Deliveries(log, id) > 0
  {
    if log != [] {
      AnsweredMeansDelivered(log[..|log| - 1], id);
    }
  }
}
