/**
 * The rollback timer of a checkpoint (src/core/nm-checkpoint.c:596-645, 694-722). The timeout is given
 * and reported in whole seconds as 32-bit unsigned integers, the timer itself takes 32-bit milliseconds.
 */
module RollbackTimer {
  import opened Common

  const MAX_U32: nat := 0xFFFF_FFFF

  function Min(a: int, b: int): int { if a < b then a else b }

  /** C integer division, which truncates towards zero. */
  function Div(a: int, b: int): int
    requires b > 0
  {
    if a >= 0 then a / b else -((-a) / b)
  }

  class Timer {
    const createdAtMs: int
    /** The RollbackTimeout property: seconds after creation, 0 for never. */
    var reportedS: nat
    /** When the timer source fires. */
    var firesAtMs: Option<int>

    /** nm_checkpoint_new(). */
    constructor (nowMs: int, timeoutS: nat)
      requires timeoutS <= MAX_U32
      ensures createdAtMs == nowMs && reportedS == timeoutS
      ensures firesAtMs == if timeoutS == 0 then None else Some(nowMs + Min(timeoutS * 1000, MAX_U32))
      ensures timeoutS > 0 ==> (firesAtMs == Some(nowMs + timeoutS * 1000) <==> timeoutS <= 4294967)
    {
      createdAtMs, reportedS := nowMs, timeoutS;
      firesAtMs := if timeoutS != 0 then Some(nowMs + Min(timeoutS * 1000, MAX_U32)) else None;
    }

    /** nm_checkpoint_adjust_rollback_timeout(): no timeout when the addition is zero, else one that
        starts now; the monotonic clock has not gone back since the creation. A timeout above 4294967
        seconds is rolled back early, after about 49.7 days, although the property shows it in full. */
    method Adjust(nowMs: int, addS: nat)
      requires createdAtMs <= nowMs && addS <= MAX_U32
      modifies this
      ensures addS == 0 ==> reportedS == 0 && firesAtMs == None
      ensures addS > 0 ==> 0 < reportedS <= MAX_U32
      ensures addS > 0 && (nowMs - createdAtMs) + addS * 1000 < MAX_U32 * 1000 + 500 ==>
                NearestSecond(createdAtMs + reportedS * 1000, nowMs + addS * 1000)
      ensures addS > 0 && (nowMs - createdAtMs) + addS * 1000 >= MAX_U32 * 1000 + 500 ==> reportedS == MAX_U32
      ensures addS > 0 ==> firesAtMs == Some(nowMs + Min(addS * 1000, MAX_U32))
      ensures addS > 0 ==> (firesAtMs == Some(nowMs + addS * 1000) <==> addS <= 4294967)
    {
      firesAtMs := None;
      var timeoutS;
      if addS == 0 {
        timeoutS := 0;
      } else {
        var addMs := addS * 1000;
        var timeoutMs := (nowMs - createdAtMs) + addMs;
        Rounding(timeoutMs);
        timeoutS := Min(Div(timeoutMs + 500, 1000), MAX_U32);
        firesAtMs := Some(nowMs + Min(addMs, MAX_U32));
      }
      if timeoutS != reportedS {
        reportedS := timeoutS;
      }
    }
  }

  /** No deadline in whole seconds after creation is closer; the next half goes up. */
  predicate NearestSecond(reportedMs: int, requestedMs: int) {
    -500 < reportedMs - requestedMs <= 500
  }

  /** Adding half the divisor and truncating rounds to the nearest. */
  lemma Rounding(ms: int)
    requires ms >= 1000
    ensures -500 < Div(ms + 500, 1000) * 1000 - ms <= 500
    ensures Div(ms + 500, 1000) >= 1
    ensures Div(ms + 500, 1000) > MAX_U32 ==> ms >= MAX_U32 * 1000 + 500
    ensures Div(ms + 500, 1000) <= MAX_U32 <==> ms < MAX_U32 * 1000 + 500
  {
  }

  /** The clamp is real: this checkpoint is rolled back 705 milliseconds before it should be. */
  method EarlyRollback(nowMs: int) returns (timer: Timer)
    ensures timer.createdAtMs == nowMs && timer.reportedS == 4294968
    ensures timer.firesAtMs == Some(nowMs + 4294968 * 1000 - 705)
  {
    timer := new Timer(nowMs, 4294968);
  }
}
