/**
 * Whole runs of the bond manager: the links of the platform change, nft calls complete, the owner
 * asks for a reapply or destroys the manager, in any order (src/core/nm-bond-manager.c).
 */
module BondSystem {
  import opened Common
  import opened NftScript
  import opened BondMachine

  /** A link; `slb` says that it is a bond with mode=balance-xor and xmit_hash_policy=vlan+srcmac. */
  datatype Link = Link(name: string, master: int, running: bool, slb: bool)

  datatype System = System(mgr: Manager, self: int, links: map<int, Link>, kernel: Kernel)

  datatype Event =
    | LinkEvent(ifindex: int, link: Option<Link>)
    | IdleEvent(scan: Scan, want: Option<Config>)
    | ReapplyEvent(scan: Scan, want: Option<Config>)
    | NftEvent(outcome: Outcome, applied: bool, scan: Scan, want: Option<Config>)
    | DestroyEvent

  // ---------------------------------------------------------------- the platform

  function BondName(links: map<int, Link>, self: int): Option<string> {
    if self in links && links[self].slb then Some(links[self].name) else None
  }

  predicate IsRunningPort(links: map<int, Link>, self: int, i: int) {
    i in links && links[i].master == self && links[i].running
  }

  function RunningPorts(links: map<int, Link>, self: int): set<int> {
    set i | i in links && IsRunningPort(links, self, i)
  }

  function RunningNames(links: map<int, Link>, self: int): set<string> {
    set i | i in RunningPorts(links, self) :: links[i].name
  }

  /** The scan is what the platform shows; the order of its ports is the platform's choice. */
  ghost predicate Shows(links: map<int, Link>, self: int, scan: Scan) {
    && scan.bond == BondName(links, self)
    && (forall p :: p in scan.ports ==> IsRunningPort(links, self, p.ifindex) && links[p.ifindex].name == p.name)
    && (forall i :: i in RunningPorts(links, self) ==> Port(i, links[i].name) in scan.ports)
  }

  /** The target is what the platform demands: the bond's name and exactly its running ports. */
  ghost predicate Demanded(links: map<int, Link>, self: int, target: Option<Config>) {
    match BondName(links, self)
    case None => target == None
    case Some(name) =>
      && target.Some? && target.value.ifname == name
      && Distinct(target.value.members)
      && Elements(target.value.members) == RunningNames(links, self)
  }

  /** The test of _link_changed_cb(); a removed link is reported with its last data. */
  predicate Relevant(s: System, ifindex: int, link: Option<Link>)
    requires link.Some? || ifindex in s.links
  {
    var plink := if link.Some? then link.value else s.links[ifindex];
    ifindex == s.self || plink.master == s.self || ifindex in s.mgr.ports
  }

  // ---------------------------------------------------------------- steps and runs

  /** What a call does to the kernel when it is applied. */
  function Effect(k: Kernel, f: Flight): Kernel {
    match f.call
    case DownCall(bond) => k - {TableName(bond)}
    case UpCall(c, prior) =>
      UpEffect(k, c.ifname, if prior.None? then {} else {prior.value}, c.members, f.forget)
  }

  function Former(prior: Option<string>): seq<string> {
    if prior.None? then [] else [prior.value]
  }

  /** The script _nft_call() hands to nft, listing the members to forget in some order. */
  function ScriptOf(call: Call, previous: seq<string>): seq<Command> {
    match call
    case DownCall(name) => MlagScript(false, name, [], [], [])
    case UpCall(c, prior) => MlagScript(true, c.ifname, Former(prior), c.members, previous)
  }

  /** Running that script has the stated effect, and never fails half way. */
  lemma EffectIsScript(k: Kernel, f: Flight, previous: seq<string>)
    requires f.call.UpCall? ==> Elements(previous) == f.forget
    ensures Run(k, ScriptOf(f.call, previous)) == Some(Effect(k, f))
  {
    match f.call
    case DownCall(name) => DownScript(k, name);
    case UpCall(c, prior) =>
      assert Elements(Former(prior)) == if prior.None? then {} else {prior.value};
      UpScript(k, c.ifname, Former(prior), c.members, previous);
  }

  ghost predicate Scanned(s: System, scan: Scan, want: Option<Config>, r: Registration) {
    Shows(s.links, s.self, scan) && Wants(scan, CurrentMembers(r), want)
  }

  ghost predicate Enabled(s: System, e: Event) {
    match e
    case LinkEvent(i, link) => link.Some? || i in s.links
    case IdleEvent(scan, want) => s.mgr.idle && Scanned(s, scan, want, s.mgr.reg)
    case ReapplyEvent(scan, want) => !s.mgr.destroyed && Scanned(s, scan, want, s.mgr.reg)
    case NftEvent(o, applied, scan, want) =>
      && s.mgr.flight.Some? && Possible(s.mgr.reg, o) && (o.Succeeded? ==> applied)
      && (s.mgr.recheck ==> Scanned(s, scan, want, Completion(s.mgr.reg, o).0))
    case DestroyEvent => !s.mgr.destroyed
  }

  ghost function Step(s: System, e: Event): System
    requires Enabled(s, e)
  {
    match e
    case LinkEvent(i, link) =>
      s.(links := if link.Some? then s.links[i := link.value] else s.links - {i},
         mgr := LinkChanged(s.mgr, Relevant(s, i, link)))
    case IdleEvent(scan, want) => s.(mgr := Check(s.mgr, false, scan, want))
    case ReapplyEvent(scan, want) => s.(mgr := Check(s.mgr, true, scan, want))
    case NftEvent(o, applied, scan, want) =>
      s.(mgr := NftDone(s.mgr, o, scan, want),
         kernel := if applied then Effect(s.kernel, s.mgr.flight.value) else s.kernel)
    case DestroyEvent => s.(mgr := Destroy(s.mgr))
  }

  ghost predicate CanRun(s: System, es: seq<Event>)
    decreases |es|
  {
    es == [] || (Enabled(s, es[0]) && CanRun(Step(s, es[0]), es[1..]))
  }

  ghost function RunEvents(s: System, es: seq<Event>): System
    requires CanRun(s, es)
    decreases |es|
  {
    if es == [] then s else RunEvents(Step(s, es[0]), es[1..])
  }

  /** A freshly created manager: nm_bond_manager_new() checks at once. */
  ghost predicate Initial(s: System) {
    exists scan, want ::
      Scanned(s, scan, want, Off) && s.mgr == Check(FRESH, true, scan, want)
  }

  // ---------------------------------------------------------------- no update is lost

  /** With no check pending, the manager heads for what the platform demands right now, and it
      remembers every port whose change could matter. */
  ghost predicate UpToDate(s: System) {
    !s.mgr.recheck && !s.mgr.destroyed ==>
      && Demanded(s.links, s.self, Target(s.mgr.reg))
      && (BondName(s.links, s.self).Some? ==> s.mgr.ports == RunningPorts(s.links, s.self))
  }

  ghost predicate SystemInv(s: System) {
    Inv(s.mgr) && UpToDate(s)
  }

  lemma ScanMeansDemanded(links: map<int, Link>, self: int, scan: Scan, order: seq<string>, want: Option<Config>)
    requires Shows(links, self, scan) && Wants(scan, order, want)
    ensures Demanded(links, self, want)
    ensures PortIndexes(scan.ports) == RunningPorts(links, self)
  {
  }

  lemma CheckIsUpToDate(s: System, m: Manager, reapply: bool, scan: Scan, want: Option<Config>)
    requires (Inv(m) || Settled(m)) && !m.destroyed && Scanned(s, scan, want, m.reg)
    ensures SystemInv(s.(mgr := Check(m, reapply, scan, want)))
  {
    CheckKeepsInv(m, reapply, scan, want);
    ScanMeansDemanded(s.links, s.self, scan, CurrentMembers(m.reg), want);
  }

  /** A link event that schedules nothing changes nothing the bond depends on. */
  lemma IrrelevantLink(s: System, i: int, link: Option<Link>)
    requires SystemInv(s) && (link.Some? || i in s.links)
    requires !s.mgr.recheck && !s.mgr.destroyed && !Relevant(s, i, link)
    ensures UpToDate(Step(s, LinkEvent(i, link)))
  {
  }

  /** A link event schedules a check exactly if it is about the bond, about a link that has or just lost
      the bond as its controller, or about a port of the last scan; otherwise it is ignored. */
  lemma LinkMatters(s: System, i: int, link: Option<Link>)
    requires Inv(s.mgr) && !s.mgr.destroyed && (link.Some? || i in s.links)
    ensures var m := Step(s, LinkEvent(i, link)).mgr;
            var master := if link.Some? then link.value.master else s.links[i].master;
            if i == s.self || master == s.self || i in s.mgr.ports then m.recheck && (m.idle || m.flight.Some?)
            else m == s.mgr
  {
  }

  lemma NftIsUpToDate(s: System, e: Event)
    requires SystemInv(s) && Enabled(s, e) && e.NftEvent?
    ensures SystemInv(Step(s, e))
  {
    var m := s.mgr;
    NftDoneKeepsInv(m, e.outcome, e.scan, e.want);
    CompletionKeepsTarget(m.reg, e.outcome);
    var s' := Step(s, e);
    if m.recheck && Distance(m.reg) == 1 && !m.destroyed {
      ScanMeansDemanded(s.links, s.self, e.scan, CurrentMembers(Completion(m.reg, e.outcome).0), e.want);
    }
  }

  lemma StepKeepsSystemInv(s: System, e: Event)
    requires SystemInv(s) && Enabled(s, e)
    ensures SystemInv(Step(s, e))
  {
    match e
    case LinkEvent(i, link) =>
      LinkChangedKeepsInv(s.mgr, Relevant(s, i, link));
      if !s.mgr.recheck && !s.mgr.destroyed && !Relevant(s, i, link) {
        IrrelevantLink(s, i, link);
      }
    case IdleEvent(scan, want) => CheckIsUpToDate(s, s.mgr, false, scan, want);
    case ReapplyEvent(scan, want) => CheckIsUpToDate(s, s.mgr, true, scan, want);
    case NftEvent(o, applied, scan, want) => NftIsUpToDate(s, e);
    case DestroyEvent => DestroyKeepsInv(s.mgr);
  }

  lemma InitialKeepsSystemInv(s: System)
    requires Initial(s)
    ensures SystemInv(s)
  {
  }

  /** The invariant holds after every run. */
  lemma {:induction false} RunsKeepSystemInv(s: System, es: seq<Event>)
    requires SystemInv(s) && CanRun(s, es)
    ensures SystemInv(RunEvents(s, es))
    decreases |es|
  {
    if es != [] {
      StepKeepsSystemInv(s, es[0]);
      RunsKeepSystemInv(Step(s, es[0]), es[1..]);
    }
  }

  /** In every reachable state with nothing outstanding (no nft call, no idle source), a manager
      that was not destroyed has registered exactly what the platform demands at that moment, and
      a destroyed one is gone. */
  lemma QuiescentMeansRegistered(s0: System, es: seq<Event>)
    requires Initial(s0) && CanRun(s0, es)
    ensures var s := RunEvents(s0, es);
            s.mgr.flight.None? && !s.mgr.idle ==>
              if s.mgr.destroyed then s.mgr.freed
              else if BondName(s.links, s.self).None? then s.mgr.reg == Off
              else s.mgr.reg.Up? && Demanded(s.links, s.self, Some(s.mgr.reg.curr))
  {
    InitialKeepsSystemInv(s0);
    RunsKeepSystemInv(s0, es);
  }

  /** Two completions in a row always bring the manager to rest, at the target it had. */
  lemma TwoCompletionsSettle(s: System, e1: Event, e2: Event)
    requires SystemInv(s) && e1.NftEvent? && e2.NftEvent? && !s.mgr.recheck
    requires Enabled(s, e1)
    requires var s1 := Step(s, e1); s1.mgr.flight.Some? ==> Enabled(s1, e2)
    ensures var s1 := Step(s, e1);
            var s2 := if s1.mgr.flight.Some? then Step(s1, e2) else s1;
            s2.mgr.reg == match Target(s.mgr.reg) case None => Off case Some(c) => Up(c)
  {
  }

  /** Handlers that are still due: completions until the manager rests, and a check that is postponed or
      scheduled together with the call it may issue. */
  function Work(m: Manager): nat {
    Distance(m.reg) + if !m.recheck then 0 else if m.idle then 2 else 1
  }

  /** A due handler brings the manager closer to rest. */
  lemma HandlerLowersWork(s: System, e: Event)
    requires SystemInv(s) && Enabled(s, e) && (e.NftEvent? || e.IdleEvent?)
    ensures Work(Step(s, e).mgr) < Work(s.mgr) <= 3
  {
    if e.NftEvent? {
      CompletionKeepsTarget(s.mgr.reg, e.outcome);
    }
  }

  /** Left alone, in whatever state, the manager handles at most three more events; and where none is due
      any more, it has registered what the platform demands, or is gone if it was destroyed. */
  lemma {:induction false} SettlesWithinThree(s: System, es: seq<Event>)
    requires SystemInv(s) && CanRun(s, es) && forall e :: e in es ==> e.NftEvent? || e.IdleEvent?
    ensures |es| <= Work(s.mgr) <= 3
    ensures var m := RunEvents(s, es).mgr;
            m.flight.None? && !m.idle ==>
              if m.destroyed then m.freed
              else if BondName(s.links, s.self).None? then m.reg == Off
              else m.reg.Up? && Demanded(s.links, s.self, Some(m.reg.curr))
    decreases |es|
  {
    if es != [] {
      assert es[0] in es;
      StepKeepsSystemInv(s, es[0]);
      HandlerLowersWork(s, es[0]);
      SettlesWithinThree(Step(s, es[0]), es[1..]);
    }
  }

  // ---------------------------------------------------------------- the calls of a run

  /** A call that was completed, and whether its script was applied. */
  datatype Done = Done(call: Call, applied: bool)

  /** The call completed by an event, if any. */
  ghost function CallsOf(s: System, e: Event): seq<Done>
    requires Enabled(s, e)
  {
    if e.NftEvent? then [Done(s.mgr.flight.value.call, e.applied)] else []
  }

  /** The calls completed in a run, in order. */
  ghost function CallLog(s: System, es: seq<Event>): seq<Done>
    requires CanRun(s, es)
    decreases |es|
  {
    if es == [] then [] else CallsOf(s, es[0]) + CallLog(Step(s, es[0]), es[1..])
  }
}
