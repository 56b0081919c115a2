/**
 * The chains that nft calls leave in the kernel, for a bond that is never renamed
 * (src/core/nm-bond-manager.c:279-297, 443-482): whatever calls succeed, fail or are cancelled with or
 * without effect, and whatever an earlier manager left in the table.
 */
module BondChains {
  import opened Common
  import opened NftScript
  import opened BondMachine
  import opened BondSystem

  // ----- The manager's side -------------------------------------------------------------------

  ghost predicate Named(r: Registration, bond: string) {
    && (!r.Off? ==> r.curr.ifname == bond)
    && (Target(r).Some? ==> Target(r).value.ifname == bond)
  }

  /** The manager deals with this bond only. */
  ghost predicate OfBond(m: Manager, bond: string) {
    && Named(m.reg, bond)
    && (m.flight.Some? && m.flight.value.call.UpCall? ==> m.flight.value.call.formerly in {None, Some(bond)})
  }

  function FlightMembers(m: Manager): set<string> {
    if m.flight.Some? && m.flight.value.call.UpCall? then Elements(m.flight.value.call.config.members) else {}
  }

  /** What a step that completes no call can do: track the members of the call it issues. */
  ghost predicate Quiet(m: Manager, m': Manager, bond: string) {
    && OfBond(m', bond) && m'.good == m.good
    && m.tracked <= m'.tracked <= m.tracked + FlightMembers(m')
    && FlightMembers(m) <= FlightMembers(m')
    && (m'.reg.Up? || m'.reg.Off? ==> m'.reg == m.reg && m'.tracked == m.tracked)
  }

  lemma IssueIsQuiet(m: Manager, m1: Manager, call: Call, bond: string)
    requires m.flight.None? && OfBond(m1, bond)
    requires m1 == m.(reg := m1.reg, recheck := m1.recheck, idle := m1.idle, ports := m1.ports)
    requires InFlight(m1.reg) && (call.UpCall? ==> call.formerly in {None, Some(bond)})
    ensures Quiet(m, Notify(Issue(m1, Some(call))), bond)
  {
  }

  lemma RequestStaysNamed(r: Registration, reapply: bool, want: Option<Config>, bond: string)
    requires Named(r, bond) && (want.Some? ==> want.value.ifname == bond)
    ensures var (r', call) := Request(r, reapply, want);
            && Named(r', bond)
            && (call.Some? ==> InFlight(r') && !InFlight(r))
            && (call.Some? && call.value.UpCall? ==> call.value.formerly in {None, Some(bond)})
            && (call.None? && (r'.Up? || r'.Off?) ==> r' == r)
  {
  }

  lemma CheckIsQuiet(s: System, m: Manager, reapply: bool, scan: Scan, want: Option<Config>, bond: string)
    requires (Inv(m) || Settled(m)) && !m.destroyed && OfBond(m, bond)
    requires Scanned(s, scan, want, m.reg) && BondName(s.links, s.self) in {None, Some(bond)}
    ensures Quiet(m, Check(m, reapply, scan, want), bond)
  {
    RequestStaysNamed(m.reg, reapply, want, bond);
    var (reg, call) := Request(m.reg, reapply, want);
    var m1 := m.(reg := reg, recheck := false, idle := false,
                 ports := if scan.bond.None? then {} else PortIndexes(scan.ports));
    if call.Some? {
      IssueIsQuiet(m, m1, call.value, bond);
    }
  }

  lemma FollowUpIsQuiet(s: System, m: Manager, call: Option<Call>, scan: Scan, want: Option<Config>, bond: string)
    requires OfBond(m, bond) && m.flight.None?
    requires call.Some? ==> InFlight(m.reg) && (call.value.UpCall? ==> call.value.formerly in {None, Some(bond)})
    requires call.None? && m.recheck ==> Settled(m) && Scanned(s, scan, want, m.reg)
    requires BondName(s.links, s.self) in {None, Some(bond)}
    ensures Quiet(m, FollowUp(m, call, scan, want), bond)
  {
    if call.Some? {
      IssueIsQuiet(m, m, call.value, bond);
    } else if m.recheck {
      CheckIsQuiet(s, m, false, scan, want, bond);
    }
  }

  lemma DestroyIsQuiet(m: Manager, bond: string)
    requires Inv(m) && !m.destroyed && OfBond(m, bond)
    ensures Quiet(m, Destroy(m), bond)
  {
  }

  /** Every step is quiet, once a completion was taken into account. */
  lemma StepIsQuiet(s: System, e: Event, bond: string)
    requires SystemInv(s) && OfBond(s.mgr, bond) && Enabled(s, e)
    requires BondName(s.links, s.self) in {None, Some(bond)}
    ensures e.NftEvent? ==> OfBond(Completed(s.mgr, e.outcome), bond)
    ensures Quiet(if e.NftEvent? then Completed(s.mgr, e.outcome) else s.mgr, Step(s, e).mgr, bond)
  {
    match e
    case LinkEvent(i, link) =>
    case IdleEvent(scan, want) => CheckIsQuiet(s, s.mgr, false, scan, want, bond);
    case ReapplyEvent(scan, want) => CheckIsQuiet(s, s.mgr, true, scan, want, bond);
    case NftEvent(o, applied, scan, want) =>
      var m := Completed(s.mgr, o);
      if !(s.mgr.destroyed && m.reg.Off?) {
        FollowUpIsQuiet(s, m, Completion(s.mgr.reg, o).1, scan, want, bond);
      }
    case DestroyEvent => DestroyIsQuiet(s.mgr, bond);
  }

  // ----- The kernel's side --------------------------------------------------------------------

  /** The chains of the bond are those of tracked members, or were there before. */
  ghost predicate Within(k: Kernel, m: Manager, bond: string, stale: set<string>) {
    && Chains(k, bond) <= BASE_CHAINS + ChainsOf(m.tracked) + stale
    && (!IfnameValid(bond) ==> Chains(k, bond) <= stale)
  }

  /** At rest after a good call: what is tracked are the members, and each but the first has its chain,
      besides what was there before; or there is no table. */
  ghost predicate Tight(k: Kernel, m: Manager, bond: string, stale: set<string>, called: bool) {
    && (m.good && m.reg.Up? ==>
          && m.tracked == Elements(m.reg.curr.members)
          && (IfnameValid(bond) ==> var own := BASE_CHAINS + ChainsOf(Elements(Tail(m.reg.curr.members)));
                                    own <= Chains(k, bond) <= own + stale))
    && (m.reg.Off? && !called ==> m.tracked == {})
    && (m.good && m.reg.Off? && called ==> m.tracked == {} && TableName(bond) !in k)
  }

  /** A stale chain of nobody this manager ever had stays; `ever` are the members of completed calls. */
  ghost predicate Untouched(k: Kernel, m: Manager, bond: string, stale: set<string>, ever: set<string>) {
    && m.tracked <= ever + FlightMembers(m)
    && forall c :: c in stale && c !in ChainsOf(ever) ==> c in Chains(k, bond)
  }

  /** The call in flight is one for the bond. */
  ghost predicate ForBond(f: Flight, bond: string) {
    && (f.call.DownCall? ==> f.call.ifname == bond)
    && (f.call.UpCall? ==> f.call.config.ifname == bond && f.call.formerly in {None, Some(bond)})
  }

  /** What an applied call does to the bond's table; other tables are left alone. */
  lemma EffectOnBond(k: Kernel, f: Flight, bond: string)
    requires ForBond(f, bond)
    ensures Effect(k, f) - {TableName(bond)} == k - {TableName(bond)}
    ensures f.call.DownCall? ==> TableName(bond) !in Effect(k, f)
    ensures f.call.UpCall? ==>
              Chains(Effect(k, f), bond) ==
              if IfnameValid(bond)
              then Chains(k, bond) - ChainsOf(f.forget) - ChainsOf(Elements(Head(f.call.config.members)))
                   + ChainsOf(Elements(Tail(f.call.config.members))) + BASE_CHAINS
              else Chains(k, bond)
  {
    if f.call.UpCall? {
      var replaced := if f.call.formerly.None? then {} else {f.call.formerly.value};
      assert replaced - {bond} == {};
      assert TablesOf(replaced - {bond}) == {};
      assert k - {} == k;
    }
  }

  /** Once the script of an up-call went through, only its members can have chains of their own. */
  lemma ForgottenAreGone(chains: set<string>, tracked: set<string>, members: seq<string>, stale: set<string>)
    requires chains <= BASE_CHAINS + ChainsOf(tracked) + stale
    ensures chains - ChainsOf(tracked - Elements(members)) - ChainsOf(Elements(Head(members)))
            <= BASE_CHAINS + ChainsOf(Elements(Tail(members))) + stale
  {
    forall c | c in chains && c in ChainsOf(tracked) && c !in ChainsOf(tracked - Elements(members))
               && c !in ChainsOf(Elements(Head(members)))
      ensures c in ChainsOf(Elements(Tail(members)))
    {
      var m :| m in tracked && IfnameValid(m) && ChainName(m) == c;
      assert m in Elements(members);
      assert members == Head(members) + Tail(members);
    }
  }

  lemma SubsetChains(a: set<string>, b: set<string>)
    requires a <= b
    ensures ChainsOf(a) <= ChainsOf(b)
  {
  }

  function KernelAfter(k: Kernel, f: Flight, applied: bool): Kernel {
    if applied then Effect(k, f) else k
  }

  lemma InvMeansForBond(m: Manager, bond: string)
    requires Inv(m) && OfBond(m, bond) && m.flight.Some?
    ensures ForBond(m.flight.value, bond)
  {
  }

  lemma CompletedStaysWithin(k: Kernel, m: Manager, o: Outcome, applied: bool, bond: string, stale: set<string>)
    requires Inv(m) && OfBond(m, bond) && m.flight.Some? && Possible(m.reg, o) && (o.Succeeded? ==> applied)
    requires Within(k, m, bond, stale)
    ensures Within(KernelAfter(k, m.flight.value, applied), Completed(m, o), bond, stale)
  {
    var f := m.flight.value;
    InvMeansForBond(m, bond);
    EffectOnBond(k, f, bond);
    if f.call.UpCall? {
      var members := f.call.config.members;
      ForgottenAreGone(Chains(k, bond), m.tracked, members, stale);
      SubsetChains(Elements(Tail(members)), Elements(members));
      SubsetChains(Elements(members), m.tracked);
      if o.Succeeded? {
        assert m.tracked - f.forget == Elements(members);
      }
    }
  }

  lemma QuietStaysWithin(k: Kernel, m: Manager, m': Manager, bond: string, stale: set<string>)
    requires Within(k, m, bond, stale) && Quiet(m, m', bond)
    ensures Within(k, m', bond, stale)
  {
    SubsetChains(m.tracked, m'.tracked);
  }

  lemma CompletedStaysTight(k: Kernel, m: Manager, o: Outcome, applied: bool, bond: string, stale: set<string>)
    requires Inv(m) && OfBond(m, bond) && m.flight.Some? && Possible(m.reg, o) && (o.Succeeded? ==> applied)
    requires Within(k, m, bond, stale)
    ensures Tight(KernelAfter(k, m.flight.value, applied), Completed(m, o), bond, stale, true)
  {
    var f := m.flight.value;
    InvMeansForBond(m, bond);
    EffectOnBond(k, f, bond);
    if f.call.UpCall? && o.Succeeded? {
      ForgottenAreGone(Chains(k, bond), m.tracked, f.call.config.members, stale);
      assert m.tracked - f.forget == Elements(f.call.config.members);
    }
  }

  lemma CompletedStaysUntouched(k: Kernel, m: Manager, o: Outcome, applied: bool, bond: string, stale: set<string>,
                                ever: set<string>)
    requires Inv(m) && OfBond(m, bond) && m.flight.Some? && Possible(m.reg, o) && (o.Succeeded? ==> applied)
    requires Untouched(k, m, bond, stale, ever) && (applied && m.flight.value.call.DownCall? ==> stale == {})
    ensures Untouched(KernelAfter(k, m.flight.value, applied), Completed(m, o), bond, stale, ever + FlightMembers(m))
  {
    var f, ever' := m.flight.value, ever + FlightMembers(m);
    InvMeansForBond(m, bond);
    EffectOnBond(k, f, bond);
    SubsetChains(ever, ever');
    if f.call.UpCall? {
      SubsetChains(f.forget, ever');
      SubsetChains(Elements(Head(f.call.config.members)), ever');
    }
  }

  // ----- Whole runs ---------------------------------------------------------------------------

  /** The platform never shows the bond under another name. */
  ghost predicate KeepsName(s: System, es: seq<Event>, bond: string)
    requires CanRun(s, es)
    decreases |es|
  {
    && BondName(s.links, s.self) in {None, Some(bond)}
    && (es == [] || KeepsName(Step(s, es[0]), es[1..], bond))
  }

  /** What the completed calls leave of the past: the chains found at the start that may still be there,
      whether there was a call at all, and everybody who was a member in one. */
  datatype History = History(stale: set<string>, called: bool, ever: set<string>)

  predicate TakesDown(d: Done) { d.applied && d.call.DownCall? }

  function MembersOf(call: Call): set<string> { if call.UpCall? then Elements(call.config.members) else {} }

  function Recorded(h: History, d: Done): History {
    History(if TakesDown(d) then {} else h.stale, true, h.ever + MembersOf(d.call))
  }

  function Recall(h: History, log: seq<Done>): History
    decreases |log|
  {
    if log == [] then h else Recall(Recorded(h, log[0]), log[1..])
  }

  function Start(k: Kernel, bond: string): History { History(Chains(k, bond), false, {}) }

  /** All chains found at the start may be there until a down-call was applied, then none. */
  lemma {:induction false} RecallMeans(h: History, log: seq<Done>, m: string)
    ensures Recall(h, log).stale == if exists i :: 0 <= i < |log| && TakesDown(log[i]) then {} else h.stale
    ensures Recall(h, log).called <==> h.called || log != []
    ensures m in Recall(h, log).ever <==> m in h.ever || exists i :: 0 <= i < |log| && m in MembersOf(log[i].call)
    decreases |log|
  {
    if log != [] {
      var rest := log[1..];
      RecallMeans(Recorded(h, log[0]), rest, m);
      assert forall i :: 0 <= i < |rest| ==> rest[i] == log[i + 1];
      assert forall i :: 0 < i < |log| ==> log[i] == rest[i - 1];
    }
  }

  ghost predicate ChainsInv(s: System, bond: string, h: History) {
    && OfBond(s.mgr, bond)
    && Within(s.kernel, s.mgr, bond, h.stale)
    && Tight(s.kernel, s.mgr, bond, h.stale, h.called)
    && Untouched(s.kernel, s.mgr, bond, h.stale, h.ever)
  }

  lemma QuietKeepsChains(s: System, s': System, bond: string, h: History)
    requires ChainsInv(s, bond, h) && s'.kernel == s.kernel && Quiet(s.mgr, s'.mgr, bond)
    ensures ChainsInv(s', bond, h)
  {
    QuietStaysWithin(s.kernel, s.mgr, s'.mgr, bond, h.stale);
  }

  /** The state between a completion and what follows it. */
  function Between(s: System, e: Event): System
    requires e.NftEvent? && s.mgr.flight.Some? && Possible(s.mgr.reg, e.outcome)
  {
    s.(mgr := Completed(s.mgr, e.outcome), kernel := KernelAfter(s.kernel, s.mgr.flight.value, e.applied))
  }

  lemma CompletionKeepsChains(s: System, e: Event, bond: string, h: History)
    requires SystemInv(s) && ChainsInv(s, bond, h) && Enabled(s, e) && e.NftEvent?
    requires OfBond(Completed(s.mgr, e.outcome), bond)
    ensures ChainsInv(Between(s, e), bond, Recorded(h, CallsOf(s, e)[0]))
  {
    var m, f := s.mgr, s.mgr.flight.value;
    assert FlightMembers(m) == MembersOf(f.call);
    CompletedStaysTight(s.kernel, m, e.outcome, e.applied, bond, h.stale);
    if TakesDown(CallsOf(s, e)[0]) {
      InvMeansForBond(m, bond);
      EffectOnBond(s.kernel, f, bond);
      assert Chains(KernelAfter(s.kernel, f, true), bond) == {};
    } else {
      CompletedStaysWithin(s.kernel, m, e.outcome, e.applied, bond, h.stale);
      CompletedStaysUntouched(s.kernel, m, e.outcome, e.applied, bond, h.stale, h.ever);
    }
  }

  lemma StepKeepsChains(s: System, e: Event, bond: string, h: History)
    requires SystemInv(s) && ChainsInv(s, bond, h) && Enabled(s, e)
    requires BondName(s.links, s.self) in {None, Some(bond)}
    ensures ChainsInv(Step(s, e), bond, Recall(h, CallsOf(s, e)))
  {
    StepIsQuiet(s, e, bond);
    if e.NftEvent? {
      var h1 := Recorded(h, CallsOf(s, e)[0]);
      CompletionKeepsChains(s, e, bond, h);
      QuietKeepsChains(Between(s, e), Step(s, e), bond, h1);
      assert Recall(h, CallsOf(s, e)) == h1;
    } else {
      QuietKeepsChains(s, Step(s, e), bond, h);
    }
  }

  lemma StepKeepsOtherTables(s: System, e: Event, bond: string)
    requires SystemInv(s) && OfBond(s.mgr, bond) && Enabled(s, e)
    ensures Step(s, e).kernel - {TableName(bond)} == s.kernel - {TableName(bond)}
  {
    if e.NftEvent? {
      InvMeansForBond(s.mgr, bond);
      EffectOnBond(s.kernel, s.mgr.flight.value, bond);
    }
  }

  lemma RecallOneMore(h: History, now: seq<Done>, rest: seq<Done>)
    requires |now| <= 1
    ensures Recall(h, now + rest) == Recall(Recall(h, now), rest)
  {
    if now == [] {
      assert now + rest == rest;
    } else {
      assert (now + rest)[1..] == rest && now[1..] == [];
    }
  }

  lemma {:induction false} RunsKeepChains(s: System, es: seq<Event>, bond: string, h: History)
    requires SystemInv(s) && ChainsInv(s, bond, h) && CanRun(s, es) && KeepsName(s, es, bond)
    ensures ChainsInv(RunEvents(s, es), bond, Recall(h, CallLog(s, es)))
    ensures RunEvents(s, es).kernel - {TableName(bond)} == s.kernel - {TableName(bond)}
    decreases |es|
  {
    if es != [] {
      var s1, now := Step(s, es[0]), CallsOf(s, es[0]);
      StepKeepsSystemInv(s, es[0]);
      StepKeepsChains(s, es[0], bond, h);
      StepKeepsOtherTables(s, es[0], bond);
      RunsKeepChains(s1, es[1..], bond, Recall(h, now));
      RecallOneMore(h, now, CallLog(s1, es[1..]));
    }
  }

  lemma InitialKeepsChains(s: System, bond: string)
    requires Initial(s) && BondName(s.links, s.self) in {None, Some(bond)}
    ensures ChainsInv(s, bond, Start(s.kernel, bond))
  {
    var scan, want :| Scanned(s, scan, want, Off) && s.mgr == Check(FRESH, true, scan, want);
    CheckIsQuiet(s, FRESH, true, scan, want, bond);
    QuietKeepsChains(s.(mgr := FRESH), s, bond, Start(s.kernel, bond));
  }

  /**
   * For a bond that is never renamed, over every run: no chain escapes the tracking, except for those
   * found at the start; other tables are never touched. At rest after a good call every active member
   * but the first has a drop chain and nobody else has one (besides what was found), and what is
   * tracked are the members; once the bond is off there is no table. A chain found at the start, of
   * nobody who ever was a member, is there exactly until a down-call is applied.
   */
  lemma ChainsAreTracked(s0: System, es: seq<Event>, bond: string)
    requires Initial(s0) && CanRun(s0, es) && KeepsName(s0, es, bond)
    ensures var s, h := RunEvents(s0, es), Recall(Start(s0.kernel, bond), CallLog(s0, es));
            var chains := Chains(s.kernel, bond);
            && chains <= BASE_CHAINS + ChainsOf(s.mgr.tracked) + h.stale
            && s.kernel - {TableName(bond)} == s0.kernel - {TableName(bond)}
            && Tight(s.kernel, s.mgr, bond, h.stale, h.called)
            && forall c :: c !in BASE_CHAINS + ChainsOf(s.mgr.tracked) + ChainsOf(h.ever) ==>
                 (c in chains <==> c in h.stale)
  {
    InitialKeepsSystemInv(s0);
    InitialKeepsChains(s0, bond);
    RunsKeepChains(s0, es, bond, Start(s0.kernel, bond));
  }

  /** Where there was no such table at the start, the chains are exactly those of the members. */
  lemma CleanStart(s0: System, es: seq<Event>, bond: string)
    requires Initial(s0) && CanRun(s0, es) && KeepsName(s0, es, bond) && TableName(bond) !in s0.kernel
    ensures var s := RunEvents(s0, es);
            && Chains(s.kernel, bond) <= BASE_CHAINS + ChainsOf(s.mgr.tracked)
            && (s.mgr.good && s.mgr.reg.Up? ==>
                  && s.mgr.tracked == Elements(s.mgr.reg.curr.members)
                  && (IfnameValid(bond) ==>
                        Chains(s.kernel, bond) == BASE_CHAINS + ChainsOf(Elements(Tail(s.mgr.reg.curr.members)))))
            && (s.mgr.good && s.mgr.reg.Off? && CallLog(s0, es) != [] ==>
                  s.mgr.tracked == {} && TableName(bond) !in s.kernel)
  {
    ChainsAreTracked(s0, es, bond);
    RecallMeans(Start(s0.kernel, bond), CallLog(s0, es), "");
  }
}
