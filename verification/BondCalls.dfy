/**
 * Which nft calls a run of the bond manager issues, what a reapply is good for, and what the manager
 * reports about its calls (src/core/nm-bond-manager.c:516-640, 236-330).
 */
module BondCalls {
  import opened Common
  import opened BondMachine
  import opened BondSystem

  /** The call in flight. */
  function Running(m: Manager): seq<Call> {
    if m.flight.None? then [] else [m.flight.value.call]
  }

  /** The call issued by an event: it is in flight afterwards and was not before. */
  ghost function IssuedBy(s: System, e: Event): seq<Call>
    requires Enabled(s, e)
  {
    if e.NftEvent? || s.mgr.flight.None? then Running(Step(s, e).mgr) else []
  }

  /** The calls issued in a run, in order. */
  ghost function IssueLog(s: System, es: seq<Event>): seq<Call>
    requires CanRun(s, es)
    decreases |es|
  {
    if es == [] then [] else IssuedBy(s, es[0]) + IssueLog(Step(s, es[0]), es[1..])
  }

  function CompletedCalls(log: seq<Done>): (r: seq<Call>)
    ensures |r| == |log| && forall i :: 0 <= i < |r| ==> r[i] == log[i].call
  {
    seq(|log|, i requires 0 <= i < |log| => log[i].call)
  }

  // ---------------------------------------------------------------- no call gets lost

  /** Only its completion ends a call. */
  lemma CallStaysInFlight(s: System, e: Event)
    requires SystemInv(s) && Enabled(s, e) && !e.NftEvent? && s.mgr.flight.Some?
    ensures Step(s, e).mgr.flight == s.mgr.flight
  {
  }

  lemma CallsOfStep(s: System, e: Event)
    requires SystemInv(s) && Enabled(s, e)
    ensures Running(s.mgr) + IssuedBy(s, e) == CompletedCalls(CallsOf(s, e)) + Running(Step(s, e).mgr)
  {
    if !e.NftEvent? && s.mgr.flight.Some? {
      CallStaysInFlight(s, e);
    }
  }

  /** Two balances in a row. */
  lemma Chained(r0: seq<Call>, i0: seq<Call>, c0: seq<Call>, r1: seq<Call>, i1: seq<Call>, c1: seq<Call>, r2: seq<Call>)
    requires r0 + i0 == c0 + r1 && r1 + i1 == c1 + r2
    ensures r0 + (i0 + i1) == (c0 + c1) + r2
  {
    calc {
      r0 + (i0 + i1);
      (r0 + i0) + i1;
      (c0 + r1) + i1;
      c0 + (r1 + i1);
      c0 + (c1 + r2);
      (c0 + c1) + r2;
    }
  }

  lemma CompletedConcat(a: seq<Done>, b: seq<Done>)
    ensures CompletedCalls(a + b) == CompletedCalls(a) + CompletedCalls(b)
  {
  }

  /** Every call that was running or is issued is completed or still running, in that order. */
  lemma {:induction false} CallsAreConserved(s: System, es: seq<Event>)
    requires SystemInv(s) && CanRun(s, es)
    ensures Running(s.mgr) + IssueLog(s, es) == CompletedCalls(CallLog(s, es)) + Running(RunEvents(s, es).mgr)
    decreases |es|
  {
    if es != [] {
      var e, s1, rest := es[0], Step(s, es[0]), es[1..];
      StepKeepsSystemInv(s, e);
      CallsOfStep(s, e);
      CallsAreConserved(s1, rest);
      CompletedConcat(CallsOf(s, e), CallLog(s1, rest));
      Chained(Running(s.mgr), IssuedBy(s, e), CompletedCalls(CallsOf(s, e)), Running(s1.mgr), IssueLog(s1, rest),
              CompletedCalls(CallLog(s1, rest)), Running(RunEvents(s1, rest).mgr));
    }
  }

  // ---------------------------------------------------------------- a reapply leads to a call

  /** The state is the work of the call issued last. */
  ghost predicate MadeBy(m: Manager, last: Call) {
    match m.reg
    case Off => last.DownCall?
    case Up(c) => last.UpCall? && last.config == c
    case _ => m.flight.Some? && m.flight.value.call == last
  }

  /** Since a reapply: as long as no call was issued, the running one is cancelled, or it took the bond
      down already. */
  ghost predicate Honours(m: Manager, issued: seq<Call>, wasDowning: bool) {
    if issued == [] then m.reg.Aborting? || (wasDowning && (m.reg.Downing? || m.reg.Off?))
    else MadeBy(m, issued[|issued| - 1])
  }

  lemma CheckHonours(m: Manager, reapply: bool, scan: Scan, want: Option<Config>, issued: seq<Call>, wasDowning: bool)
    requires (Inv(m) || Settled(m)) && Honours(m, issued, wasDowning)
    ensures var m' := Check(m, reapply, scan, want);
            Honours(m', issued + (if m.flight.None? then Running(m') else []), wasDowning)
  {
  }

  lemma DestroyHonours(m: Manager, issued: seq<Call>, wasDowning: bool)
    requires Inv(m) && !m.destroyed && Honours(m, issued, wasDowning)
    ensures Honours(Destroy(m), issued + (if m.flight.None? then Running(Destroy(m)) else []), wasDowning)
  {
  }

  lemma NftDoneHonours(m: Manager, o: Outcome, scan: Scan, want: Option<Config>, issued: seq<Call>, wasDowning: bool)
    requires Inv(m) && m.flight.Some? && Possible(m.reg, o) && Honours(m, issued, wasDowning)
    ensures Honours(NftDone(m, o, scan, want), issued + Running(NftDone(m, o, scan, want)), wasDowning)
  {
    var m1, call := Completed(m, o), Completion(m.reg, o).1;
    if call.None? {
      assert Honours(m1, issued, wasDowning);
      if m.recheck && !m.destroyed {
        CheckHonours(m1, false, scan, want, issued, wasDowning);
      }
    }
  }

  lemma StepHonours(s: System, e: Event, issued: seq<Call>, wasDowning: bool)
    requires SystemInv(s) && Enabled(s, e) && Honours(s.mgr, issued, wasDowning)
    ensures Honours(Step(s, e).mgr, issued + IssuedBy(s, e), wasDowning)
  {
    match e
    case LinkEvent(i, link) =>
    case IdleEvent(scan, want) => CheckHonours(s.mgr, false, scan, want, issued, wasDowning);
    case ReapplyEvent(scan, want) => CheckHonours(s.mgr, true, scan, want, issued, wasDowning);
    case NftEvent(o, applied, scan, want) => NftDoneHonours(s.mgr, o, scan, want, issued, wasDowning);
    case DestroyEvent => DestroyHonours(s.mgr, issued, wasDowning);
  }

  lemma {:induction false} RunHonours(s: System, es: seq<Event>, issued: seq<Call>, wasDowning: bool)
    requires SystemInv(s) && CanRun(s, es) && Honours(s.mgr, issued, wasDowning)
    ensures Honours(RunEvents(s, es).mgr, issued + IssueLog(s, es), wasDowning)
    decreases |es|
  {
    if es != [] {
      var e, s1 := es[0], Step(s, es[0]);
      StepKeepsSystemInv(s, e);
      StepHonours(s, e, issued, wasDowning);
      var now, later := IssuedBy(s, e), IssueLog(s1, es[1..]);
      RunHonours(s1, es[1..], issued + now, wasDowning);
      assert issued + now + later == issued + (now + later);
    } else {
      assert issued + IssueLog(s, es) == issued;
    }
  }

  lemma ReapplyHonours(s: System, e: Event)
    requires SystemInv(s) && Enabled(s, e) && e.ReapplyEvent? && e.scan.bond.Some?
    ensures Honours(Step(s, e).mgr, IssuedBy(s, e), s.mgr.reg.Downing?)
  {
  }

  lemma RestHonours(m: Manager, issued: seq<Call>, wasDowning: bool)
    requires Inv(m) && m.flight.None? && Honours(m, issued, wasDowning)
    ensures issued == [] ==> wasDowning && m.reg.Off?
    ensures m.reg.Up? ==> issued != [] && issued[|issued| - 1].UpCall? && issued[|issued| - 1].config == m.reg.curr
    ensures m.reg.Off? && issued != [] ==> issued[|issued| - 1].DownCall?
  {
  }

  lemma CompletedSince(s: System, e: Event, es: seq<Event>)
    requires SystemInv(s) && Enabled(s, e) && !e.NftEvent?
    requires CanRun(Step(s, e), es) && RunEvents(Step(s, e), es).mgr.flight.None?
    ensures CompletedCalls(CallLog(Step(s, e), es)) == Running(s.mgr) + (IssuedBy(s, e) + IssueLog(Step(s, e), es))
  {
    var s1 := Step(s, e);
    StepKeepsSystemInv(s, e);
    CallsOfStep(s, e);
    CallsAreConserved(s1, es);
    Chained(Running(s.mgr), IssuedBy(s, e), [], Running(s1.mgr), IssueLog(s1, es), CompletedCalls(CallLog(s1, es)), []);
  }

  /** In whatever state the owner asks for a reapply while the platform shows a bond, and whatever happens
      afterwards: the manager comes to rest only after it completed a call issued at or after that
      moment, and the last such call made the configuration it rests in. The exception is a manager
      that was taking the bond down anyway and rests with the bond down. */
  lemma ReapplyLeadsToCall(s: System, e: Event, es: seq<Event>)
    requires SystemInv(s) && Enabled(s, e) && e.ReapplyEvent? && e.scan.bond.Some?
    requires CanRun(Step(s, e), es) && RunEvents(Step(s, e), es).mgr.flight.None?
    ensures var m, issued := RunEvents(Step(s, e), es).mgr, IssuedBy(s, e) + IssueLog(Step(s, e), es);
            && CompletedCalls(CallLog(Step(s, e), es)) == Running(s.mgr) + issued
            && (issued == [] ==> s.mgr.reg.Downing? && m.reg.Off?)
            && (m.reg.Up? ==> issued != [] && issued[|issued| - 1].UpCall? &&
                              issued[|issued| - 1].config == m.reg.curr)
            && (m.reg.Off? && issued != [] ==> issued[|issued| - 1].DownCall?)
  {
    var s1 := Step(s, e);
    StepKeepsSystemInv(s, e);
    RunsKeepSystemInv(s1, es);
    ReapplyHonours(s, e);
    RunHonours(s1, es, IssuedBy(s, e), s.mgr.reg.Downing?);
    RestHonours(RunEvents(s1, es).mgr, IssuedBy(s, e) + IssueLog(s1, es), s.mgr.reg.Downing?);
    CompletedSince(s, e, es);
  }

  // ---------------------------------------------------------------- a reapply while UPPING

  /** What a cancelled call is followed by. */
  function FollowUpCall(former: string, target: Option<Config>): Call {
    if target.None? then DownCall(former) else UpCall(target.value, Some(former))
  }

  /** Until its completion, nothing takes back the cancellation of a call. */
  lemma {:induction false} CancelledUntilCompletion(s: System, es: seq<Event>)
    requires SystemInv(s) && s.mgr.reg.Aborting? && CanRun(s, es) && forall e :: e in es ==> !e.NftEvent?
    ensures var m := RunEvents(s, es).mgr;
            && m.reg.Aborting? && m.reg.curr == s.mgr.reg.curr && m.flight == s.mgr.flight
            && ((forall e :: e in es ==> e.LinkEvent?) ==> m.reg.next == s.mgr.reg.next)
    decreases |es|
  {
    if es != [] {
      assert es[0] in es;
      StepKeepsSystemInv(s, es[0]);
      CancelledUntilCompletion(Step(s, es[0]), es[1..]);
    }
  }

  /** A reapply while a configuration is being made, also if it is the wanted one: the running call is
      cancelled for good, and when it reports that, the configuration wanted by then is made next. */
  lemma ReapplyWhileUpping(s: System, e: Event, es: seq<Event>, done: Event)
    requires SystemInv(s) && Enabled(s, e) && e.ReapplyEvent? && (s.mgr.reg.Upping? || s.mgr.reg.Aborting?)
    requires CanRun(Step(s, e), es) && forall x :: x in es ==> !x.NftEvent?
    requires done.NftEvent? && Enabled(RunEvents(Step(s, e), es), done)
    ensures var s1 := RunEvents(Step(s, e), es);
            && s1.mgr.flight == s.mgr.flight && done.outcome == Cancelled
            && Running(Step(s1, done).mgr) == [FollowUpCall(s.mgr.reg.curr.ifname, Target(s1.mgr.reg))]
            && ((forall x :: x in es ==> x.LinkEvent?) ==> Target(s1.mgr.reg) == e.want)
  {
    StepKeepsSystemInv(s, e);
    CancelledUntilCompletion(Step(s, e), es);
    RunsKeepSystemInv(Step(s, e), es);
  }

  /** A configuration that waits for a cancelled call, or for the bond to be taken down, is made as soon as
      that call is over; it takes over from the configuration before. */
  lemma QueuedFollows(s: System, done: Event)
    requires SystemInv(s) && Enabled(s, done) && done.NftEvent?
    requires (s.mgr.reg.Aborting? || s.mgr.reg.Downing?) && Target(s.mgr.reg).Some?
    ensures Running(Step(s, done).mgr) == [UpCall(Target(s.mgr.reg).value, Some(s.mgr.reg.curr.ifname))]
  {
  }

  /** Conversely, a check without a reapply that finds what the manager heads for already cancels
      nothing and issues nothing. */
  lemma CheckOfTargetIsNoop(m: Manager, scan: Scan, want: Option<Config>)
    requires Inv(m) && !m.destroyed && want == Target(m.reg)
    ensures Check(m, false, scan, want) ==
            m.(recheck := false, idle := false, ports := if scan.bond.None? then {} else PortIndexes(scan.ports))
  {
  }

  // ---------------------------------------------------------------- what is reported

  /** The result of a call that ended by itself. */
  function ResultOf(e: Event): seq<Outcome> {
    if e.NftEvent? && !e.outcome.Cancelled? then [e.outcome] else []
  }

  /** The results of a run, in order. */
  function Results(es: seq<Event>): seq<Outcome> {
    if es == [] then [] else ResultOf(es[0]) + Results(es[1..])
  }

  /** The last result, if any, was a success. */
  predicate LastWasGood(before: bool, results: seq<Outcome>) {
    if results == [] then before else results[|results| - 1] == Succeeded
  }

  lemma CheckKeepsGood(m: Manager, reapply: bool, scan: Scan, want: Option<Config>)
    ensures Check(m, reapply, scan, want).good == m.good
  {
  }

  lemma StepGood(s: System, e: Event)
    requires Enabled(s, e)
    ensures Step(s, e).mgr.good == LastWasGood(s.mgr.good, ResultOf(e))
  {
    match e
    case LinkEvent(_, _) =>
    case IdleEvent(scan, want) => CheckKeepsGood(s.mgr, false, scan, want);
    case ReapplyEvent(scan, want) => CheckKeepsGood(s.mgr, true, scan, want);
    case NftEvent(o, _, scan, want) =>
      var m1 := Completed(s.mgr, o);
      CheckKeepsGood(Issue(m1, Completion(s.mgr.reg, o).1), false, scan, want);
    case DestroyEvent =>
  }

  lemma {:induction false} GoodIsLastResult(s: System, es: seq<Event>)
    requires CanRun(s, es)
    ensures RunEvents(s, es).mgr.good == LastWasGood(s.mgr.good, Results(es))
    decreases |es|
  {
    if es != [] {
      StepGood(s, es[0]);
      GoodIsLastResult(Step(s, es[0]), es[1..]);
    }
  }

  /** In every run from the creation on, as long as the manager is not destroyed: it reports "pending"
      exactly while a call is in flight, otherwise "good" exactly if no call ended by itself or the last
      one that did succeeded. */
  lemma ReportedState(s0: System, es: seq<Event>)
    requires Initial(s0) && CanRun(s0, es) && !RunEvents(s0, es).mgr.destroyed
    ensures var m := RunEvents(s0, es).mgr;
            && (m.state == Pending <==> m.flight.Some?)
            && (m.state == Good <==>
                  m.flight.None? && (Results(es) == [] || Results(es)[|Results(es)| - 1] == Succeeded))
  {
    InitialKeepsSystemInv(s0);
    RunsKeepSystemInv(s0, es);
    GoodIsLastResult(s0, es);
  }
}
