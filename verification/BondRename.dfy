/**
 * The tables a bond leaves behind when it is renamed (src/core/nm-bond-manager.c:347-360, 449-460): every
 * call names the table it makes and the one it replaces, and a call that is not applied is not repeated
 * for the table it should have replaced.
 */
module BondRename {
  import opened Common
  import opened NftScript
  import opened BondMachine
  import opened BondSystem

  // ----- What a call says about a table -------------------------------------------------------

  predicate Makes(call: Call, t: string) {
    call.UpCall? && TableName(call.config.ifname) == t
  }

  /** The call takes the table down, or replaces it by another one. */
  predicate Takes(call: Call, t: string) {
    if call.DownCall? then TableName(call.ifname) == t
    else call.formerly.Some? && TableName(call.formerly.value) == t && !Makes(call, t)
  }

  predicate Mentions(call: Call, t: string) { Makes(call, t) || Takes(call, t) }

  lemma EffectOnTable(k: Kernel, f: Flight, t: string)
    ensures t in Effect(k, f) <==> Makes(f.call, t) || (t in k && !Takes(f.call, t))
  {
    if f.call.UpCall? {
      var replaced := if f.call.formerly.None? then {} else {f.call.formerly.value};
      var bond := f.call.config.ifname;
      assert t in TablesOf(replaced - {bond}) <==> exists b :: b in replaced - {bond} && TableName(b) == t;
      if f.call.formerly.Some? {
        assert f.call.formerly.value in replaced;
      }
    }
  }

  /** Whether a table is there after some calls. */
  predicate There(log: seq<Done>, t: string, initially: bool)
    decreases |log|
  {
    if log == [] then initially
    else There(log[1..], t, ThereAfter(log[0], t, initially))
  }

  predicate ThereAfter(d: Done, t: string, before: bool) {
    if d.applied then Makes(d.call, t) || (before && !Takes(d.call, t)) else before
  }

  lemma {:induction false} KernelFollowsLog(s: System, es: seq<Event>, t: string)
    requires CanRun(s, es)
    ensures t in RunEvents(s, es).kernel <==> There(CallLog(s, es), t, t in s.kernel)
    decreases |es|
  {
    if es != [] {
      var s1, now, rest := Step(s, es[0]), CallsOf(s, es[0]), CallLog(Step(s, es[0]), es[1..]);
      KernelFollowsLog(s1, es[1..], t);
      if es[0].NftEvent? {
        EffectOnTable(s.kernel, s.mgr.flight.value, t);
        assert (now + rest)[1..] == rest;
      } else {
        assert now + rest == rest;
      }
    }
  }

  /** The last of some calls that has to do with a table, or -1. */
  function LastMention(log: seq<Done>, t: string): (i: int)
    ensures -1 <= i < |log|
    ensures i >= 0 ==> Mentions(log[i].call, t)
  {
    if log == [] then -1
    else if Mentions(log[|log| - 1].call, t) then |log| - 1
    else LastMention(log[..|log| - 1], t)
  }

  lemma {:induction false} NoneAfterLast(log: seq<Done>, t: string, j: nat)
    requires LastMention(log, t) < j < |log|
    ensures !Mentions(log[j].call, t)
  {
    if j < |log| - 1 {
      NoneAfterLast(log[..|log| - 1], t, j);
    }
  }

  lemma {:induction false} ThereSnoc(log: seq<Done>, d: Done, t: string, initially: bool)
    ensures There(log + [d], t, initially) <==> ThereAfter(d, t, There(log, t, initially))
    decreases |log|
  {
    if log == [] {
      assert log + [d] == [d] && [d][1..] == [];
    } else {
      assert (log + [d])[1..] == log[1..] + [d];
      ThereSnoc(log[1..], d, t, ThereAfter(log[0], t, initially));
    }
  }

  /** Only the last call that has to do with a table matters, and what was there before it. */
  lemma {:induction false} LastMentionDecides(log: seq<Done>, t: string, initially: bool)
    ensures var i := LastMention(log, t);
            There(log, t, initially) <==>
            if i < 0 then initially
            else if log[i].applied then Makes(log[i].call, t)
            else There(log[..i], t, initially)
    decreases |log|
  {
    if log != [] {
      var init, d := log[..|log| - 1], log[|log| - 1];
      assert log == init + [d];
      ThereSnoc(init, d, t, initially);
      if !Mentions(d.call, t) {
        LastMentionDecides(init, t, initially);
        var i := LastMention(log, t);
        assert i >= 0 ==> init[..i] == log[..i];
      }
    }
  }

  // ----- The protocol -------------------------------------------------------------------------

  /** The call takes over from the configuration of that name. */
  predicate Follows(call: Call, name: string) {
    if call.DownCall? then call.ifname == name else call.formerly == Some(name)
  }

  /** Every configuration is taken over by the very next call. */
  ghost predicate Linked(log: seq<Done>) {
    forall i :: 0 <= i < |log| - 1 && log[i].call.UpCall? ==> Follows(log[i + 1].call, log[i].call.config.ifname)
  }

  /** How the last completed call fits the state: it made the current configuration, or the call in
      flight takes over from it. */
  ghost predicate Fits(m: Manager, last: Option<Call>) {
    && (m.reg.Off? ==> last.None? || last.value.DownCall?)
    && (m.reg.Up? ==> last.Some? && last.value.UpCall? && last.value.config == m.reg.curr)
    && (m.flight.Some? && last.Some? && last.value.UpCall? ==> Follows(m.flight.value.call, last.value.config.ifname))
  }

  function LastCall(log: seq<Done>): Option<Call> {
    if log == [] then None else Some(log[|log| - 1].call)
  }

  /** The same, where the log goes on from an earlier call. */
  ghost predicate LinkedFrom(last: Option<Call>, log: seq<Done>) {
    && Linked(log)
    && (log != [] && last.Some? && last.value.UpCall? ==> Follows(log[0].call, last.value.config.ifname))
  }

  function LastFrom(last: Option<Call>, log: seq<Done>): Option<Call> {
    if log == [] then last else LastCall(log)
  }

  lemma CheckFits(m: Manager, reapply: bool, scan: Scan, want: Option<Config>, last: Option<Call>)
    requires (Inv(m) || Settled(m)) && Fits(m, last)
    ensures Fits(Check(m, reapply, scan, want), last)
  {
  }

  lemma DestroyFits(m: Manager, last: Option<Call>)
    requires Inv(m) && Fits(m, last)
    ensures Fits(Destroy(m), last)
  {
  }

  lemma NftDoneFits(m: Manager, o: Outcome, scan: Scan, want: Option<Config>)
    requires Inv(m) && m.flight.Some? && Possible(m.reg, o)
    ensures Fits(NftDone(m, o, scan, want), Some(m.flight.value.call))
  {
    var m1, call := Completed(m, o), Completion(m.reg, o).1;
    if call.None? && m.recheck && !m.destroyed {
      assert Fits(m1, Some(m.flight.value.call));
      CheckFits(m1, false, scan, want, Some(m.flight.value.call));
    }
  }

  lemma StepFits(s: System, e: Event, last: Option<Call>)
    requires SystemInv(s) && Fits(s.mgr, last) && Enabled(s, e)
    ensures Fits(Step(s, e).mgr, LastFrom(last, CallsOf(s, e))) && LinkedFrom(last, CallsOf(s, e))
  {
    match e
    case LinkEvent(i, link) =>
    case IdleEvent(scan, want) => CheckFits(s.mgr, false, scan, want, last);
    case ReapplyEvent(scan, want) => CheckFits(s.mgr, true, scan, want, last);
    case NftEvent(o, applied, scan, want) => NftDoneFits(s.mgr, o, scan, want);
    case DestroyEvent => DestroyFits(s.mgr, last);
  }

  lemma LinkOne(last: Option<Call>, now: seq<Done>, rest: seq<Done>)
    requires |now| <= 1 && LinkedFrom(last, now) && LinkedFrom(LastFrom(last, now), rest)
    ensures LinkedFrom(last, now + rest) && LastFrom(last, now + rest) == LastFrom(LastFrom(last, now), rest)
  {
    var log := now + rest;
    if now == [] {
      assert log == rest;
    } else {
      assert log[0] == now[0] && forall i :: 1 <= i < |log| ==> log[i] == rest[i - 1];
    }
  }

  lemma {:induction false} RunsFit(s: System, es: seq<Event>, last: Option<Call>)
    requires SystemInv(s) && Fits(s.mgr, last) && CanRun(s, es)
    ensures Fits(RunEvents(s, es).mgr, LastFrom(last, CallLog(s, es))) && LinkedFrom(last, CallLog(s, es))
    decreases |es|
  {
    if es != [] {
      var s1, now := Step(s, es[0]), CallsOf(s, es[0]);
      StepKeepsSystemInv(s, es[0]);
      StepFits(s, es[0], last);
      RunsFit(s1, es[1..], LastFrom(last, now));
      LinkOne(last, now, CallLog(s1, es[1..]));
    }
  }

  lemma NextMentions(log: seq<Done>, t: string)
    requires Linked(log)
    ensures forall i :: 0 <= i < |log| - 1 && Makes(log[i].call, t) ==> Mentions(log[i + 1].call, t)
  {
  }

  /** Only the very last call can have made a table and not be followed by one that has to do with it. */
  lemma LastMentionTakes(m: Manager, log: seq<Done>, t: string)
    requires Linked(log) && Fits(m, LastCall(log)) && m.flight.None? && (m.reg.Up? || m.reg.Off?)
    requires !(m.reg.Up? && TableName(m.reg.curr.ifname) == t) && LastMention(log, t) >= 0
    ensures Takes(log[LastMention(log, t)].call, t)
  {
    NextMentions(log, t);
    var i := LastMention(log, t);
    if i < |log| - 1 {
      NoneAfterLast(log, t, i + 1);
    }
    assert Makes(log[i].call, t) ==> i == |log| - 1;
  }

  /**
   * Over every run, with whatever renames: when the manager is at rest, a table that is not the one of
   * its configuration, but that its calls had to do with, is still there exactly if it was there before
   * the last call that has to do with it and that call, which took it down or replaced it, completed
   * without being applied.
   */
  lemma TableIsLeftExactlyWhen(s0: System, es: seq<Event>, t: string)
    requires Initial(s0) && CanRun(s0, es)
    requires var s := RunEvents(s0, es);
             s.mgr.flight.None? && !(s.mgr.reg.Up? && TableName(s.mgr.reg.curr.ifname) == t)
    requires LastMention(CallLog(s0, es), t) >= 0
    ensures var s, log := RunEvents(s0, es), CallLog(s0, es);
            var i := LastMention(log, t);
            && Takes(log[i].call, t)
            && (t in s.kernel <==> !log[i].applied && There(log[..i], t, t in s0.kernel))
  {
    var s, log := RunEvents(s0, es), CallLog(s0, es);
    FitsAfter(s0, es);
    LastMentionTakes(s.mgr, log, t);
    KernelFollowsLog(s0, es, t);
    LastMentionDecides(log, t, t in s0.kernel);
  }

  lemma FitsAfter(s0: System, es: seq<Event>)
    requires Initial(s0) && CanRun(s0, es)
    ensures Linked(CallLog(s0, es)) && Fits(RunEvents(s0, es).mgr, LastCall(CallLog(s0, es)))
    ensures RunEvents(s0, es).mgr.flight.None? ==> RunEvents(s0, es).mgr.reg.Up? || RunEvents(s0, es).mgr.reg.Off?
  {
    InitialKeepsSystemInv(s0);
    InitialFits(s0);
    RunsFit(s0, es, None);
    RunsKeepSystemInv(s0, es);
  }

  lemma InitialFits(s: System)
    requires Initial(s)
    ensures Fits(s.mgr, None)
  {
    var scan, want :| Scanned(s, scan, want, Off) && s.mgr == Check(FRESH, true, scan, want);
    CheckFits(FRESH, true, scan, want, None);
  }

  /** Tables that no call had to do with stay as they are. */
  lemma OtherTablesStay(s0: System, es: seq<Event>, t: string)
    requires CanRun(s0, es) && LastMention(CallLog(s0, es), t) < 0
    ensures t in RunEvents(s0, es).kernel <==> t in s0.kernel
  {
    KernelFollowsLog(s0, es, t);
    LastMentionDecides(CallLog(s0, es), t, t in s0.kernel);
  }

  /** Different names have different tables. */
  lemma TableNamesDiffer(a: string, b: string)
    requires IsByteString(a) && IsByteString(b) && a != b
    ensures TableName(a) != TableName(b)
  {
    if TableName(a) == TableName(b) {
      assert TableName(a)[|"nm-mlag-"|..] == Sanitize(a) && TableName(b)[|"nm-mlag-"|..] == Sanitize(b);
      SanitizeInjective(a, b);
    }
  }

  // ----- A run that leaves a table ------------------------------------------------------------

  function Bond(name: string): map<int, Link> { map[1 := Link(name, 0, true, true)] }

  /** A bond without ports, right after its manager was created. */
  function Created(a: string): System {
    System(Check(FRESH, true, Scan(Some(a), []), Some(Config(a, []))), 1, Bond(a), map[])
  }

  /** The bond comes up, is renamed, the call that should replace its table fails, and a reapply succeeds. */
  function LeakyRun(b: string): seq<Event> {
    var scan, want := Scan(Some(b), []), Some(Config(b, []));
    [NftEvent(Succeeded, true, scan, want)]
    + ([LinkEvent(1, Some(Link(b, 0, true, true)))]
       + ([IdleEvent(scan, want)]
          + ([NftEvent(Failed, false, scan, want)]
             + ([ReapplyEvent(scan, want)]
                + ([NftEvent(Succeeded, true, scan, want)] + [])))))
  }

  lemma ScansBond(s: System, name: string, r: Registration)
    requires s.self == 1 && s.links == Bond(name) && CurrentMembers(r) == []
    ensures Scanned(s, Scan(Some(name), []), Some(Config(name, [])), r)
  {
    assert RunningPorts(s.links, 1) == {};
  }

  lemma RunOne(s: System, e: Event, rest: seq<Event>)
    requires Enabled(s, e) && CanRun(Step(s, e), rest)
    ensures CanRun(s, [e] + rest) && RunEvents(s, [e] + rest) == RunEvents(Step(s, e), rest)
  {
    assert ([e] + rest)[1..] == rest;
  }

  /** At rest with a configuration without members. */
  ghost predicate Rests(s: System, name: string, links: map<int, Link>) {
    && s.self == 1 && s.links == links && s.mgr.reg == Up(Config(name, []))
    && s.mgr.flight.None? && !s.mgr.recheck && !s.mgr.idle && !s.mgr.destroyed
  }

  /** A call for a configuration without members is in flight. */
  ghost predicate Configures(s: System, call: Call, links: map<int, Link>) {
    && s.self == 1 && s.links == links && call.UpCall? && call.config.members == []
    && s.mgr.reg == Upping(call.config) && s.mgr.flight.Some? && s.mgr.flight.value.call == call
    && !s.mgr.recheck && !s.mgr.idle && !s.mgr.destroyed
  }

  lemma Completes(s: System, call: Call, links: map<int, Link>, e: Event)
    requires Configures(s, call, links) && e.NftEvent? && !e.outcome.Cancelled? && (e.outcome.Succeeded? ==> e.applied)
    ensures Enabled(s, e) && Rests(Step(s, e), call.config.ifname, links)
    ensures Step(s, e).mgr.good == e.outcome.Succeeded?
    ensures Step(s, e).kernel == if e.applied then Effect(s.kernel, s.mgr.flight.value) else s.kernel
  {
  }

  lemma Renamed(s: System, a: string, b: string)
    requires Rests(s, a, Bond(a)) && a != b
    ensures var link := LinkEvent(1, Some(Link(b, 0, true, true)));
            var idle := IdleEvent(Scan(Some(b), []), Some(Config(b, [])));
            && Enabled(s, link) && Enabled(Step(s, link), idle)
            && Configures(Step(Step(s, link), idle), UpCall(Config(b, []), Some(a)), Bond(b))
            && Step(Step(s, link), idle).kernel == s.kernel
  {
    var link := LinkEvent(1, Some(Link(b, 0, true, true)));
    var s1 := Step(s, link);
    assert s1.links == Bond(b);
    ScansBond(s1, b, s1.mgr.reg);
  }

  lemma Reapplied(s: System, b: string)
    requires Rests(s, b, Bond(b))
    ensures var e := ReapplyEvent(Scan(Some(b), []), Some(Config(b, [])));
            && Enabled(s, e) && Configures(Step(s, e), UpCall(Config(b, []), Some(b)), Bond(b))
            && Step(s, e).kernel == s.kernel
  {
    ScansBond(s, b, s.mgr.reg);
  }

  /** So a rename can leave the old table behind for good: the run starts with a new manager and ends at
      rest, in a state reported as good. */
  lemma RenameMayLeak(a: string, b: string)
    requires IsByteString(a) && IsByteString(b) && a != b
    ensures var s0, es := Created(a), LeakyRun(b);
            && Initial(s0) && CanRun(s0, es)
            && Rests(RunEvents(s0, es), b, Bond(b)) && RunEvents(s0, es).mgr.good
            && TableName(a) in RunEvents(s0, es).kernel
  {
    var s0, scan, want := Created(a), Scan(Some(b), []), Some(Config(b, []));
    ScansBond(s0, a, Off);
    assert Configures(s0, UpCall(Config(a, []), None), Bond(a));
    var good, bad := NftEvent(Succeeded, true, scan, want), NftEvent(Failed, false, scan, want);
    Completes(s0, UpCall(Config(a, []), None), Bond(a), good);
    EffectOnTable(s0.kernel, s0.mgr.flight.value, TableName(a));
    var s1 := Step(s0, good);
    RenamedBondLeaks(s1, a, b);
    RunOne(s0, good, LeakyRun(b)[1..]);
    assert LeakyRun(b) == [good] + LeakyRun(b)[1..];
  }

  lemma RenamedBondLeaks(s1: System, a: string, b: string)
    requires Rests(s1, a, Bond(a)) && TableName(a) in s1.kernel && IsByteString(a) && IsByteString(b) && a != b
    ensures var es := LeakyRun(b)[1..];
            && CanRun(s1, es) && Rests(RunEvents(s1, es), b, Bond(b)) && RunEvents(s1, es).mgr.good
            && TableName(a) in RunEvents(s1, es).kernel
  {
    var scan, want := Scan(Some(b), []), Some(Config(b, []));
    var link, idle := LinkEvent(1, Some(Link(b, 0, true, true))), IdleEvent(scan, want);
    var good, bad := NftEvent(Succeeded, true, scan, want), NftEvent(Failed, false, scan, want);
    var again := ReapplyEvent(scan, want);
    Renamed(s1, a, b);
    var s2 := Step(s1, link);
    var s3 := Step(s2, idle);
    Completes(s3, UpCall(Config(b, []), Some(a)), Bond(b), bad);
    var s4 := Step(s3, bad);
    Reapplied(s4, b);
    var s5 := Step(s4, again);
    Completes(s5, UpCall(Config(b, []), Some(b)), Bond(b), good);
    TableNamesDiffer(a, b);
    EffectOnTable(s5.kernel, s5.mgr.flight.value, TableName(a));
    RunOne(s5, good, []);
    RunOne(s4, again, [good] + []);
    RunOne(s3, bad, [again] + ([good] + []));
    RunOne(s2, idle, [bad] + ([again] + ([good] + [])));
    RunOne(s1, link, [idle] + ([bad] + ([again] + ([good] + []))));
    assert LeakyRun(b)[1..] == [link] + ([idle] + ([bad] + ([again] + ([good] + []))));
  }
}
