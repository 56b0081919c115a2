/**
 * The balance-slb bond manager as an asynchronous state machine, together with the platform whose
 * links it follows and the kernel tables its nft calls change (src/core/nm-bond-manager.c).
 *
 * Assumptions about the surroundings: an nft call never completes synchronously; it reports
 * "cancelled" exactly when it was cancelled; a successful call was applied, a failed or cancelled
 * one may have been applied or not.
 */
module BondMachine {
  import opened Common
  import opened BondMembers

  /** A bond name with its ordered active members; no members is a NULL list. */
  datatype Config = Config(ifname: string, members: seq<string>)

  /** REGISTRATION_STATE_UPPING is split by whether the running call was cancelled. */
  datatype Registration =
    | Off
    | Upping(curr: Config)
    | Aborting(curr: Config, next: Option<Config>)
    | Up(curr: Config)
    | Downing(curr: Config, next: Option<Config>)

  datatype Call =
    | UpCall(config: Config, formerly: Option<string>)
    | DownCall(ifname: string)

  /** A call in flight, with the members to forget once it succeeded. */
  datatype Flight = Flight(call: Call, forget: set<string>)

  datatype Outcome = Succeeded | Failed | Cancelled

  datatype Verdict = Pending | Bad | Good

  datatype Manager = Manager(
    reg: Registration,
    flight: Option<Flight>,
    tracked: set<string>,    // previous_members
    ports: set<int>,         // previous_ifindexes
    recheck: bool,           // reconfigure_check
    idle: bool,              // reconfigure_on_idle_source
    destroyed: bool,
    freed: bool,
    good: bool,              // nft_good
    state: Verdict)

  /** What _reconfigure_check() reads from the platform; `ports` only counts for an SLB bond. */
  datatype Port = Port(ifindex: int, name: string)
  datatype Scan = Scan(bond: Option<string>, ports: seq<Port>)

  predicate InFlight(r: Registration) {
    r.Upping? || r.Aborting? || r.Downing?
  }

  /** The configuration the manager is heading for. */
  function Target(r: Registration): Option<Config> {
    match r
    case Off => None
    case Upping(c) => Some(c)
    case Aborting(_, n) => n
    case Up(c) => Some(c)
    case Downing(_, n) => n
  }

  // ---------------------------------------------------------------- transitions

  /** _reconfigure_do(). */
  function Request(r: Registration, reapply: bool, want: Option<Config>): (Registration, Option<Call>) {
    match r
    case Off =>
      if want.None? then (r, None) else (Upping(want.value), Some(UpCall(want.value, None)))
    case Upping(c) =>
      if !reapply && want == Some(c) then (r, None) else (Aborting(c, want), None)
    case Aborting(c, _) => (Aborting(c, want), None)
    case Up(c) =>
      if want.None? then (Downing(c, None), Some(DownCall(c.ifname)))
      else if !reapply && want == Some(c) then (r, None)
      else (Upping(want.value), Some(UpCall(want.value, Some(c.ifname))))
    case Downing(c, _) => (Downing(c, want), None)
  }

  ghost predicate Possible(r: Registration, o: Outcome) {
    InFlight(r) && (o.Cancelled? <==> r.Aborting?)
  }

  /** The switch of _nft_call_cb(). */
  function Completion(r: Registration, o: Outcome): (Registration, Option<Call>)
    requires Possible(r, o)
  {
    match r
    case Aborting(c, None) => (Downing(c, None), Some(DownCall(c.ifname)))
    case Aborting(c, Some(n)) => (Upping(n), Some(UpCall(n, Some(c.ifname))))
    case Upping(c) => (Up(c), None)
    case Downing(_, None) => (Off, None)
    case Downing(c, Some(n)) => (Upping(n), Some(UpCall(n, Some(c.ifname))))
  }

  /** _nft_call(): remember the new members, and which of the old ones this call removes. */
  function Issue(m: Manager, call: Option<Call>): Manager {
    match call
    case None => m
    case Some(DownCall(_)) => m.(flight := Some(Flight(call.value, {})), idle := m.idle && !m.recheck)
    case Some(UpCall(c, _)) =>
      m.(flight := Some(Flight(call.value, m.tracked - Elements(c.members))),
         tracked := m.tracked + Elements(c.members),
         idle := m.idle && !m.recheck)
  }

  /** _notify_state_change(). */
  function Notify(m: Manager): Manager {
    m.(state := if m.flight.Some? then Pending else if m.good then Good else Bad)
  }

  function CurrentMembers(r: Registration): seq<string> {
    if r.Off? then [] else r.curr.members
  }

  /** `want` is what the scan asks for, given the order in use so far. */
  ghost predicate Wants(scan: Scan, order: seq<string>, want: Option<Config>) {
    match scan.bond
    case None => want == None
    case Some(name) =>
      && want.Some? && want.value.ifname == name
      && IsActiveList(want.value.members, PortNames(scan.ports), order)
  }

  function PortNames(ports: seq<Port>): set<string> { set p | p in ports :: p.name }
  function PortIndexes(ports: seq<Port>): set<int> { set p | p in ports :: p.ifindex }

  /** _reconfigure_check(). */
  function Check(m: Manager, reapply: bool, scan: Scan, want: Option<Config>): Manager {
    var (reg, call) := Request(m.reg, reapply, want);
    var m' := m.(reg := reg, recheck := false, idle := false,
                 ports := if scan.bond.None? then {} else PortIndexes(scan.ports));
    Notify(Issue(m', call))
  }

  /** The state between the completion of a call and the check that was postponed until then. */
  function Completed(m: Manager, o: Outcome): Manager
    requires m.flight.Some? && Possible(m.reg, o)
  {
    m.(reg := Completion(m.reg, o).0, flight := None,
       good := if o.Cancelled? then m.good else o.Succeeded?,
       tracked := if !o.Succeeded? then m.tracked
                  else if m.flight.value.call.DownCall? then {}
                  else m.tracked - m.flight.value.forget)
  }

  /** The end of _nft_call_cb(): issue the next call, or else make up for a postponed check. */
  function FollowUp(m: Manager, call: Option<Call>, scan: Scan, want: Option<Config>): Manager {
    var m' := Issue(m, call);
    Notify(if m'.recheck && m'.flight.None? then Check(m', false, scan, want) else m')
  }

  /** _nft_call_cb(). `scan` and `want` only count when a check was postponed. */
  function NftDone(m: Manager, o: Outcome, scan: Scan, want: Option<Config>): Manager
    requires m.flight.Some? && Possible(m.reg, o)
  {
    var m1 := Completed(m, o);
    if m.destroyed && m1.reg.Off? then m1.(freed := true)
    else FollowUp(m1, Completion(m.reg, o).1, scan, want)
  }

  /** _link_changed_cb(). */
  function LinkChanged(m: Manager, relevant: bool): Manager {
    if m.recheck || m.destroyed || !relevant then m
    else m.(recheck := true, idle := m.flight.None?)
  }

  /** nm_bond_manager_destroy(). */
  function Destroy(m: Manager): Manager {
    var m' := m.(destroyed := true, recheck := false, idle := false);
    match m.reg
    case Off => m'.(freed := true)
    case Upping(c) => m'.(reg := Aborting(c, None))
    case Aborting(c, _) => m'.(reg := Aborting(c, None))
    case Up(c) => Issue(m'.(reg := Downing(c, None)), Some(DownCall(c.ifname)))
    case Downing(c, _) => m'.(reg := Downing(c, None))
  }

  /** nm_bond_manager_new() runs a first check on this. */
  const FRESH := Manager(Off, None, {}, {}, false, false, false, false, true, Pending)

  // ---------------------------------------------------------------- latest request wins

  /** Every request makes its argument the target, in whatever state it arrives. */
  lemma RequestSetsTarget(r: Registration, reapply: bool, want: Option<Config>)
    ensures Target(Request(r, reapply, want).0) == want
  {
  }

  /** Completions until the manager rests. */
  function Distance(r: Registration): nat {
    match r
    case Off => 0
    case Up(_) => 0
    case Upping(_) => 1
    case Downing(_, n) => if n.None? then 1 else 2
    case Aborting(_, _) => 2
  }

  /** Every completion keeps the target and takes the manager one step closer to it; two suffice. */
  lemma CompletionKeepsTarget(r: Registration, o: Outcome)
    requires Possible(r, o)
    ensures Target(Completion(r, o).0) == Target(r)
    ensures Distance(Completion(r, o).0) == Distance(r) - 1 <= 1
    ensures Distance(r) == 1 ==> Completion(r, o).0 == match Target(r) case None => Off case Some(c) => Up(c)
  {
  }

  // ---------------------------------------------------------------- the invariant

  /** _nm_assert_self_() made inductive: exactly one call is in flight in the transient states and
      it is the call of that state; a postponed check is waiting for an idle source or for the
      running call; a destroyed manager is only still winding down. */
  ghost predicate Inv(m: Manager) {
    && (m.flight.Some? <==> InFlight(m.reg))
    && (m.reg.Upping? || m.reg.Aborting? ==>
          m.flight.value.call.UpCall? && m.flight.value.call.config == m.reg.curr)
    && (m.reg.Downing? ==> m.flight.value.call == DownCall(m.reg.curr.ifname))
    && (m.idle ==> m.recheck && m.flight.None?)
    && (m.recheck ==> m.idle || m.flight.Some?)
    && (m.destroyed ==> !m.recheck && Target(m.reg) == None)
    && (m.freed <==> m.destroyed && m.reg.Off?)
    && (m.flight.Some? && m.flight.value.call.UpCall? ==>
          var members := Elements(m.flight.value.call.config.members);
          members <= m.tracked && m.flight.value.forget == m.tracked - members)
    && (!m.destroyed ==> m.state == Notify(m).state)
  }

  /** The part of the invariant that holds while a completion is being handled. */
  ghost predicate Settled(m: Manager) {
    m.flight.None? && !InFlight(m.reg) && !m.destroyed && !m.freed
  }

  lemma CheckKeepsInv(m: Manager, reapply: bool, scan: Scan, want: Option<Config>)
    requires Inv(m) || Settled(m)
    requires !m.destroyed
    ensures Inv(Check(m, reapply, scan, want))
    ensures Target(Check(m, reapply, scan, want).reg) == want
  {
  }

  lemma NftDoneKeepsInv(m: Manager, o: Outcome, scan: Scan, want: Option<Config>)
    requires Inv(m) && m.flight.Some? && Possible(m.reg, o)
    ensures var m' := NftDone(m, o, scan, want);
            Inv(m') && Target(m'.reg) == (if m.recheck && Distance(m.reg) == 1 then want else Target(m.reg))
  {
    CompletionKeepsTarget(m.reg, o);
    if m.recheck && Completion(m.reg, o).1.None? && !m.destroyed {
      CheckKeepsInv(Completed(m, o), false, scan, want);
    }
  }

  lemma DestroyKeepsInv(m: Manager)
    requires Inv(m) && !m.destroyed
    ensures Inv(Destroy(m)) && Target(Destroy(m).reg) == None
  {
  }

  lemma LinkChangedKeepsInv(m: Manager, relevant: bool)
    requires Inv(m)
    ensures Inv(LinkChanged(m, relevant)) && LinkChanged(m, relevant).reg == m.reg
  {
  }

  /** A re-check that finds the bond and the running ports that are configured, or being configured,
      does nothing. */
  lemma RecheckIsNoop(m: Manager, scan: Scan, want: Option<Config>)
    requires Inv(m) && (m.reg.Up? || m.reg.Upping?) && !m.destroyed && Distinct(m.reg.curr.members)
    requires scan.bond == Some(m.reg.curr.ifname)
    requires PortNames(scan.ports) == Elements(m.reg.curr.members)
    requires Wants(scan, CurrentMembers(m.reg), want)
    ensures Check(m, false, scan, want) ==
            m.(recheck := false, idle := false, ports := PortIndexes(scan.ports))
  {
    UnchangedPortsKeepList(want.value.members, m.reg.curr.members);
    assert want == Some(m.reg.curr);
  }
}
