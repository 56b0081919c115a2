/**
 * Scripts that take effect late. When an nft call is cancelled or times out, its process is terminated in
 * the background, after the completion was reported (src/core/nm-firewall-utils.c:458-484): the script may
 * still be applied at any later time. This says exactly when that breaks the tracking of chains.
 */
module BondLate {
  import opened Common
  import opened Order
  import opened BondMembers
  import opened NftScript
  import opened BondMachine
  import opened BondSystem
  import opened BondChains
  import Rename = BondRename

  /** The bond manager with its surroundings, the calls that were completed but not applied yet, and
      whether a call was completed at all. */
  datatype LateSystem = LateSystem(sys: System, undead: multiset<Flight>, called: bool)

  datatype LateEvent = InTime(e: Event) | Late(f: Flight)

  ghost predicate CanHappen(s: LateSystem, e: LateEvent) {
    match e
    case InTime(x) => Enabled(s.sys, x)
    case Late(f) => f in s.undead
  }

  ghost function Next(s: LateSystem, e: LateEvent): LateSystem
    requires CanHappen(s, e)
  {
    match e
    case InTime(x) =>
      var undead := if x.NftEvent? && !x.applied then multiset{s.sys.mgr.flight.value} else multiset{};
      LateSystem(Step(s.sys, x), s.undead + undead, s.called || x.NftEvent?)
    case Late(f) =>
      s.(sys := s.sys.(kernel := Effect(s.sys.kernel, f)), undead := s.undead - multiset{f})
  }

  ghost predicate CanGo(s: LateSystem, es: seq<LateEvent>, bond: string)
    decreases |es|
  {
    && BondName(s.sys.links, s.sys.self) in {None, Some(bond)}
    && (es == [] || (CanHappen(s, es[0]) && CanGo(Next(s, es[0]), es[1..], bond)))
  }

  ghost function Go(s: LateSystem, es: seq<LateEvent>, bond: string): LateSystem
    requires CanGo(s, es, bond)
    decreases |es|
  {
    if es == [] then s else Go(Next(s, es[0]), es[1..], bond)
  }

  // ----- What should hold ---------------------------------------------------------------------

  /** No chain escapes the tracking. */
  ghost predicate Tracked(s: LateSystem, bond: string, stale: set<string>) {
    Within(s.sys.kernel, s.sys.mgr, bond, stale)
  }

  /** And at rest after a good call the kernel is as it should be: the chains of all members but the
      first, or no table at all. */
  ghost predicate InOrder(s: LateSystem, bond: string, stale: set<string>) {
    Tracked(s, bond, stale) && Tight(s.sys.kernel, s.sys.mgr, bond, stale, s.called)
  }

  ghost predicate AlwaysTracked(s: LateSystem, es: seq<LateEvent>, bond: string, stale: set<string>)
    requires CanGo(s, es, bond)
    decreases |es|
  {
    Tracked(s, bond, stale) && (es == [] || AlwaysTracked(Next(s, es[0]), es[1..], bond, stale))
  }

  ghost predicate AlwaysInOrder(s: LateSystem, es: seq<LateEvent>, bond: string, stale: set<string>)
    requires CanGo(s, es, bond)
    decreases |es|
  {
    InOrder(s, bond, stale) && (es == [] || AlwaysInOrder(Next(s, es[0]), es[1..], bond, stale))
  }

  // ----- What a late script may do ------------------------------------------------------------

  /** Every member it makes a chain for is tracked at that moment, or its chain was there at the start. */
  ghost predicate AddsTracked(m: Manager, f: Flight, bond: string, stale: set<string>) {
    f.call.UpCall? && IfnameValid(bond) ==>
      ChainsOf(Elements(Tail(f.call.config.members))) <= BASE_CHAINS + ChainsOf(m.tracked) + stale
  }

  /** It removes no chain of a member of the current configuration without making it again, and makes
      none for anybody else. */
  ghost predicate SparesMembers(f: Flight, members: seq<string>, stale: set<string>) {
    f.call.UpCall? &&
    var kept, made := ChainsOf(Elements(Tail(members))), ChainsOf(Elements(Tail(f.call.config.members)));
    var gone := ChainsOf(f.forget) + ChainsOf(Elements(Head(f.call.config.members)));
    gone * kept <= made + BASE_CHAINS && made <= BASE_CHAINS + kept + stale
  }

  /** While the bond is off it only takes down, while it is up it spares the members. */
  ghost predicate FitsRest(s: LateSystem, f: Flight, bond: string, stale: set<string>) {
    var m := s.sys.mgr;
    && (m.good && m.reg.Off? && s.called ==> f.call.DownCall?)
    && (m.good && m.reg.Up? && IfnameValid(bond) ==> SparesMembers(f, m.reg.curr.members, stale))
  }

  ghost predicate AllAddTracked(s: LateSystem, es: seq<LateEvent>, bond: string, stale: set<string>)
    requires CanGo(s, es, bond)
    decreases |es|
  {
    es == [] ||
    (&& (es[0].Late? ==> AddsTracked(s.sys.mgr, es[0].f, bond, stale))
     && AllAddTracked(Next(s, es[0]), es[1..], bond, stale))
  }

  ghost predicate AllFit(s: LateSystem, es: seq<LateEvent>, bond: string, stale: set<string>)
    requires CanGo(s, es, bond)
    decreases |es|
  {
    es == [] ||
    (&& (es[0].Late? ==> AddsTracked(s.sys.mgr, es[0].f, bond, stale) && FitsRest(s, es[0].f, bond, stale))
     && AllFit(Next(s, es[0]), es[1..], bond, stale))
  }

  // ----- Single steps -------------------------------------------------------------------------

  ghost predicate LateInv(s: LateSystem, bond: string) {
    && SystemInv(s.sys) && OfBond(s.sys.mgr, bond)
    && forall f :: f in s.undead ==> ForBond(f, bond)
  }

  lemma NextKeepsLateInv(s: LateSystem, e: LateEvent, bond: string)
    requires LateInv(s, bond) && CanHappen(s, e) && BondName(s.sys.links, s.sys.self) in {None, Some(bond)}
    ensures LateInv(Next(s, e), bond)
  {
    if e.InTime? {
      StepKeepsSystemInv(s.sys, e.e);
      StepIsQuiet(s.sys, e.e, bond);
      if e.e.NftEvent? {
        InvMeansForBond(s.sys.mgr, bond);
      }
    }
  }

  /** Whatever happens in time keeps the tracking. */
  lemma InTimeStaysWithin(s: System, e: Event, bond: string, stale: set<string>)
    requires SystemInv(s) && OfBond(s.mgr, bond) && Enabled(s, e) && BondName(s.links, s.self) in {None, Some(bond)}
    requires Within(s.kernel, s.mgr, bond, stale)
    ensures Within(Step(s, e).kernel, Step(s, e).mgr, bond, stale)
  {
    StepIsQuiet(s, e, bond);
    if e.NftEvent? {
      CompletedStaysWithin(s.kernel, s.mgr, e.outcome, e.applied, bond, stale);
      QuietStaysWithin(Step(s, e).kernel, Completed(s.mgr, e.outcome), Step(s, e).mgr, bond, stale);
    } else {
      QuietStaysWithin(s.kernel, s.mgr, Step(s, e).mgr, bond, stale);
    }
  }

  /** A completion puts the kernel in order again, whatever late scripts did before, as long as no chain
      escaped the tracking. */
  lemma CompletionRestoresOrder(s: System, e: Event, bond: string, stale: set<string>)
    requires SystemInv(s) && OfBond(s.mgr, bond) && Enabled(s, e) && BondName(s.links, s.self) in {None, Some(bond)}
    requires Within(s.kernel, s.mgr, bond, stale) && e.NftEvent?
    ensures Tight(Step(s, e).kernel, Step(s, e).mgr, bond, stale, true)
  {
    StepIsQuiet(s, e, bond);
    CompletedStaysTight(s.kernel, s.mgr, e.outcome, e.applied, bond, stale);
  }

  lemma InTimeStaysInOrder(s: LateSystem, e: Event, bond: string, stale: set<string>)
    requires LateInv(s, bond) && Enabled(s.sys, e) && BondName(s.sys.links, s.sys.self) in {None, Some(bond)}
    requires InOrder(s, bond, stale)
    ensures InOrder(Next(s, InTime(e)), bond, stale)
  {
    InTimeStaysWithin(s.sys, e, bond, stale);
    if e.NftEvent? {
      CompletionRestoresOrder(s.sys, e, bond, stale);
    } else {
      StepIsQuiet(s.sys, e, bond);
    }
  }

  /** A late script keeps the tracking exactly if it only makes chains that are accounted for. */
  lemma LateStaysWithinExactlyWhen(k: Kernel, m: Manager, f: Flight, bond: string, stale: set<string>)
    requires Within(k, m, bond, stale) && ForBond(f, bond)
    ensures Within(Effect(k, f), m, bond, stale) <==> AddsTracked(m, f, bond, stale)
  {
    EffectOnBond(k, f, bond);
    if f.call.UpCall? && IfnameValid(bond) {
      assert ChainsOf(Elements(Tail(f.call.config.members))) <= Chains(Effect(k, f), bond);
    }
  }

  /** It keeps what holds at rest exactly if it fits the state the manager rests in. */
  lemma LateStaysTightExactlyWhen(s: LateSystem, f: Flight, bond: string, stale: set<string>)
    requires Tight(s.sys.kernel, s.sys.mgr, bond, stale, s.called) && ForBond(f, bond)
    ensures Tight(Effect(s.sys.kernel, f), s.sys.mgr, bond, stale, s.called) <==> FitsRest(s, f, bond, stale)
  {
    var k, m := s.sys.kernel, s.sys.mgr;
    EffectOnBond(k, f, bond);
    if m.good && m.reg.Up? && IfnameValid(bond) {
      ShapeStaysExactlyWhen(k, f, bond, m.reg.curr.members, stale);
    }
    if f.call.UpCall? {
      assert TableName(bond) in Effect(k, f);
    }
  }

  /** The chains that should be there, and no others but stale ones. */
  ghost predicate Shape(k: Kernel, bond: string, members: seq<string>, stale: set<string>) {
    var own := BASE_CHAINS + ChainsOf(Elements(Tail(members)));
    own <= Chains(k, bond) <= own + stale
  }

  lemma ShapeStaysExactlyWhen(k: Kernel, f: Flight, bond: string, members: seq<string>, stale: set<string>)
    requires Shape(k, bond, members, stale) && ForBond(f, bond) && IfnameValid(bond)
    ensures Shape(Effect(k, f), bond, members, stale) <==> SparesMembers(f, members, stale)
  {
    EffectOnBond(k, f, bond);
    var kept := ChainsOf(Elements(Tail(members)));
    if f.call.DownCall? {
      assert SNOOP_CHAIN in BASE_CHAINS && SNOOP_CHAIN !in Chains(Effect(k, f), bond);
    } else {
      var made := ChainsOf(Elements(Tail(f.call.config.members)));
      var gone := ChainsOf(f.forget) + ChainsOf(Elements(Head(f.call.config.members)));
      assert Chains(Effect(k, f), bond) == Chains(k, bond) - gone + made + BASE_CHAINS;
      ReplacedShape(Chains(k, bond), gone, made, kept, stale);
    }
  }

  lemma ReplacedShape(chains: set<string>, gone: set<string>, made: set<string>, kept: set<string>, stale: set<string>)
    requires BASE_CHAINS + kept <= chains <= BASE_CHAINS + kept + stale
    ensures var after := chains - gone + made + BASE_CHAINS;
            BASE_CHAINS + kept <= after <= BASE_CHAINS + kept + stale <==>
            gone * kept <= made + BASE_CHAINS && made <= BASE_CHAINS + kept + stale
  {
    var after := chains - gone + made + BASE_CHAINS;
    assert kept <= after <==> gone * kept <= made + BASE_CHAINS by {
      forall c | c in kept ensures c in after <==> c in gone ==> c in made + BASE_CHAINS {
        assert c in chains;
      }
      if gone * kept <= made + BASE_CHAINS {
        forall c | c in kept ensures c in after {
          assert c in gone ==> c in gone * kept;
        }
      }
    }
    assert after <= BASE_CHAINS + kept + stale <==> made <= BASE_CHAINS + kept + stale;
  }

  // ----- Whole runs ---------------------------------------------------------------------------

  /** Over every run of a bond that keeps its name: the tracking holds throughout exactly if every late
      script only makes chains that are accounted for when it is applied. */
  lemma {:induction false} EscapesExactlyWhen(s: LateSystem, es: seq<LateEvent>, bond: string, stale: set<string>)
    requires LateInv(s, bond) && CanGo(s, es, bond) && Tracked(s, bond, stale)
    ensures AlwaysTracked(s, es, bond, stale) <==> AllAddTracked(s, es, bond, stale)
    decreases |es|
  {
    if es != [] {
      var s1 := Next(s, es[0]);
      NextKeepsLateInv(s, es[0], bond);
      if es[0].InTime? {
        InTimeStaysWithin(s.sys, es[0].e, bond, stale);
      } else {
        LateStaysWithinExactlyWhen(s.sys.kernel, s.sys.mgr, es[0].f, bond, stale);
      }
      if Tracked(s1, bond, stale) {
        EscapesExactlyWhen(s1, es[1..], bond, stale);
      }
    }
  }

  /** And everything holds throughout, also what the kernel looks like at rest, exactly if every late
      script besides fits the state in which it is applied. */
  lemma {:induction false} DisturbsExactlyWhen(s: LateSystem, es: seq<LateEvent>, bond: string, stale: set<string>)
    requires LateInv(s, bond) && CanGo(s, es, bond) && InOrder(s, bond, stale)
    ensures AlwaysInOrder(s, es, bond, stale) <==> AllFit(s, es, bond, stale)
    decreases |es|
  {
    if es != [] {
      var s1 := Next(s, es[0]);
      NextKeepsLateInv(s, es[0], bond);
      if es[0].InTime? {
        InTimeStaysInOrder(s, es[0].e, bond, stale);
      } else {
        LateStaysWithinExactlyWhen(s.sys.kernel, s.sys.mgr, es[0].f, bond, stale);
        LateStaysTightExactlyWhen(s, es[0].f, bond, stale);
      }
      if InOrder(s1, bond, stale) {
        DisturbsExactlyWhen(s1, es[1..], bond, stale);
      }
    }
  }

  /** A new manager, with nothing left over from its calls. */
  function Fresh(s: System): LateSystem { LateSystem(s, multiset{}, false) }

  lemma FreshIsInOrder(s0: System, bond: string)
    requires Initial(s0) && BondName(s0.links, s0.self) in {None, Some(bond)}
    ensures LateInv(Fresh(s0), bond) && InOrder(Fresh(s0), bond, Chains(s0.kernel, bond))
  {
    InitialKeepsSystemInv(s0);
    InitialKeepsChains(s0, bond);
  }

  /** Both from the creation of a manager, with whatever is in the kernel then. */
  lemma LateScriptsFromStart(s0: System, es: seq<LateEvent>, bond: string)
    requires Initial(s0) && CanGo(Fresh(s0), es, bond)
    ensures var stale := Chains(s0.kernel, bond);
            && (AlwaysTracked(Fresh(s0), es, bond, stale) <==> AllAddTracked(Fresh(s0), es, bond, stale))
            && (AlwaysInOrder(Fresh(s0), es, bond, stale) <==> AllFit(Fresh(s0), es, bond, stale))
  {
    FreshIsInOrder(s0, bond);
    EscapesExactlyWhen(Fresh(s0), es, bond, Chains(s0.kernel, bond));
    DisturbsExactlyWhen(Fresh(s0), es, bond, Chains(s0.kernel, bond));
  }

  // ----- A late script that makes an untracked chain -------------------------------------------

  /** A bond with one or two running ports. */
  function Links(bond: string, p: string, q: Option<string>): map<int, Link> {
    var one := map[1 := Link(bond, 0, true, true), 2 := Link(p, 1, true, false)];
    if q.None? then one else one[3 := Link(q.value, 1, true, false)]
  }

  function Ports(p: string, q: Option<string>): seq<Port> {
    [Port(2, p)] + (if q.None? then [] else [Port(3, q.value)])
  }

  function Members(p: string, q: Option<string>): seq<string> {
    [p] + (if q.None? then [] else [q.value])
  }

  lemma PortsAreShown(bond: string, p: string, q: Option<string>)
    ensures Shows(Links(bond, p, q), 1, Scan(Some(bond), Ports(p, q)))
    ensures PortNames(Ports(p, q)) == Elements(Members(p, q))
  {
    var ports := Ports(p, q);
    assert ports[0] == Port(2, p);
    assert q.Some? ==> ports[1] == Port(3, q.value);
  }

  lemma BothAreMembers(p: string, q: string)
    requires StrCmp(p, q) < 0
    ensures IsActiveList([p, q], Elements([p, q]), [])
  {
    var list := [p, q];
    assert Increasing(list);
    IncreasingIsDistinct(list);
    assert list[0..] == list;
  }

  lemma OneIsMember(p: string, q: string)
    requires p != q
    ensures IsActiveList([p], Elements([p]), [p, q])
  {
    var names := Elements([p]);
    KeepSnoc([], p, names);
    KeepSnoc([p], q, names);
    assert [] + [p] == [p] && [p] + [q] == [p, q];
    assert p in names && q !in names;
    assert [p][1..] == [];
  }

  lemma BothAreWanted(s: System, bond: string, p: string, q: string)
    requires StrCmp(p, q) < 0 && s.self == 1 && s.links == Links(bond, p, Some(q))
    ensures Scanned(s, Scan(Some(bond), Ports(p, Some(q))), Some(Config(bond, [p, q])), Off)
  {
    PortsAreShown(bond, p, Some(q));
    BothAreMembers(p, q);
    assert Members(p, Some(q)) == [p, q];
  }

  lemma OneIsWanted(s: System, bond: string, p: string, q: string, r: Registration)
    requires StrCmp(p, q) < 0 && s.self == 1 && s.links == Links(bond, p, None) && CurrentMembers(r) == [p, q]
    ensures Scanned(s, Scan(Some(bond), Ports(p, None)), Some(Config(bond, [p])), r)
  {
    PortsAreShown(bond, p, None);
    StrCmpSign(p, q);
    OneIsMember(p, q);
    assert Members(p, None) == [p];
  }

  /** The parts of the state that the run below is about. */
  ghost predicate Is(s: System, links: map<int, Link>, reg: Registration, flight: Option<Flight>,
                     tracked: set<string>)
  {
    && s.self == 1 && s.links == links && s.mgr.reg == reg && s.mgr.flight == flight && s.mgr.tracked == tracked
    && !s.mgr.destroyed && !s.mgr.idle
  }

  lemma PortLeaves(s: System, bond: string, p: string, q: string, reg: Registration, flight: Option<Flight>)
    requires Is(s, Links(bond, p, Some(q)), reg, flight, {p, q}) && flight.Some?
    ensures var e := LinkEvent(3, None);
            Enabled(s, e) && Is(Step(s, e), Links(bond, p, None), reg, flight, {p, q})
  {
    assert Links(bond, p, Some(q)) - {3} == Links(bond, p, None);
  }

  lemma ReapplyCancels(s: System, bond: string, p: string, q: string, flight: Option<Flight>)
    requires StrCmp(p, q) < 0 && flight.Some?
    requires Is(s, Links(bond, p, None), Upping(Config(bond, [p, q])), flight, {p, q})
    ensures var e := ReapplyEvent(Scan(Some(bond), Ports(p, None)), Some(Config(bond, [p])));
            && Enabled(s, e) && !Step(s, e).mgr.recheck
            && Is(Step(s, e), Links(bond, p, None), Aborting(Config(bond, [p, q]), Some(Config(bond, [p]))), flight,
                  {p, q})
  {
    OneIsWanted(s, bond, p, q, s.mgr.reg);
  }

  lemma CancelledCallIsReplaced(s: System, e: Event, bond: string, p: string, q: string, flight: Option<Flight>)
    requires p != q && flight.Some? && !s.mgr.recheck && e.NftEvent? && e.outcome.Cancelled? && !e.applied
    requires Is(s, Links(bond, p, None), Aborting(Config(bond, [p, q]), Some(Config(bond, [p]))), flight, {p, q})
    ensures var f := Flight(UpCall(Config(bond, [p]), Some(bond)), {q});
            && Enabled(s, e) && !Step(s, e).mgr.recheck
            && Is(Step(s, e), Links(bond, p, None), Upping(Config(bond, [p])), Some(f), {p, q})
  {
    assert Elements([p]) == {p} && {p, q} - {p} == {q} && {p, q} + {p} == {p, q};
  }

  lemma NextCallSucceeds(s: System, e: Event, bond: string, p: string, q: string)
    requires p != q && !s.mgr.recheck && e.NftEvent? && e.outcome.Succeeded? && e.applied
    requires Is(s, Links(bond, p, None), Upping(Config(bond, [p])),
                Some(Flight(UpCall(Config(bond, [p]), Some(bond)), {q})), {p, q})
    ensures Enabled(s, e) && Is(Step(s, e), Links(bond, p, None), Up(Config(bond, [p])), None, {p})
  {
    assert {p, q} - {q} == {p};
  }

  lemma NewBond(s: System, bond: string, p: string, q: string)
    requires s.self == 1 && s.links == Links(bond, p, Some(q))
    requires s.mgr == Check(FRESH, true, Scan(Some(bond), Ports(p, Some(q))), Some(Config(bond, [p, q])))
    ensures Is(s, Links(bond, p, Some(q)), Upping(Config(bond, [p, q])),
               Some(Flight(UpCall(Config(bond, [p, q]), None), {})), {p, q})
  {
    var none: set<string> := {};
    assert Elements([p, q]) == {p, q} && none - {p, q} == none && none + {p, q} == {p, q};
  }

  /** The bond comes up with two ports; one leaves while the call is in flight, a reapply cancels the call,
      and the next one succeeds. Then the cancelled script makes a chain that nobody tracks. */
  lemma LateScriptMayEscape(bond: string, p: string, q: string) returns (s0: System, es: seq<LateEvent>)
    requires StrCmp(p, q) < 0 && IfnameValid(bond) && IfnameValid(p) && IfnameValid(q)
    ensures Initial(s0) && TableName(bond) !in s0.kernel && CanGo(Fresh(s0), es, bond)
    ensures !AlwaysTracked(Fresh(s0), es, bond, {})
  {
    s0 := System(Check(FRESH, true, Scan(Some(bond), Ports(p, Some(q))), Some(Config(bond, [p, q]))), 1,
                 Links(bond, p, Some(q)), map[]);
    BothAreWanted(s0, bond, p, q);
    NewBond(s0, bond, p, q);
    es := CancelledRun(s0, bond, p, q);
    LateScriptsFromStart(s0, es, bond);
  }

  lemma CancelledRun(s0: System, bond: string, p: string, q: string) returns (es: seq<LateEvent>)
    requires StrCmp(p, q) < 0 && IfnameValid(bond) && IfnameValid(p) && IfnameValid(q)
    requires Is(s0, Links(bond, p, Some(q)), Upping(Config(bond, [p, q])),
                Some(Flight(UpCall(Config(bond, [p, q]), None), {})), {p, q})
    ensures CanGo(Fresh(s0), es, bond) && !AllAddTracked(Fresh(s0), es, bond, {})
  {
    StrCmpSign(p, q);
    var scan, want := Scan(Some(bond), Ports(p, None)), Some(Config(bond, [p]));
    var f := Flight(UpCall(Config(bond, [p, q]), None), {});
    var e1, e2 := LinkEvent(3, None), ReapplyEvent(scan, want);
    var e3, e4 := NftEvent(Cancelled, false, scan, want), NftEvent(Succeeded, true, scan, want);
    PortLeaves(s0, bond, p, q, s0.mgr.reg, Some(f));
    var r0 := Fresh(s0);
    var r1 := Next(r0, InTime(e1));
    ReapplyCancels(r1.sys, bond, p, q, Some(f));
    var r2 := Next(r1, InTime(e2));
    CancelledCallIsReplaced(r2.sys, e3, bond, p, q, Some(f));
    var r3 := Next(r2, InTime(e3));
    NextCallSucceeds(r3.sys, e4, bond, p, q);
    var r4 := Next(r3, InTime(e4));
    ChainIsNew(p, q);
    var t5 := [Late(f)] + [];
    var t4 := [InTime(e4)] + t5;
    var t3 := [InTime(e3)] + t4;
    var t2 := [InTime(e2)] + t3;
    GoOne(r4, Late(f), [], bond);
    GoOne(r3, InTime(e4), t5, bond);
    GoOne(r2, InTime(e3), t4, bond);
    GoOne(r1, InTime(e2), t3, bond);
    GoOne(r0, InTime(e1), t2, bond);
    es := [InTime(e1)] + t2;
  }

  lemma GoOne(s: LateSystem, e: LateEvent, rest: seq<LateEvent>, bond: string)
    requires CanHappen(s, e) && CanGo(Next(s, e), rest, bond)
    requires BondName(s.sys.links, s.sys.self) in {None, Some(bond)}
    ensures CanGo(s, [e] + rest, bond) && Go(s, [e] + rest, bond) == Go(Next(s, e), rest, bond)
    ensures AllAddTracked(s, [e] + rest, bond, {}) <==>
            (e.Late? ==> AddsTracked(s.sys.mgr, e.f, bond, {})) && AllAddTracked(Next(s, e), rest, bond, {})
    ensures AllFit(s, [e] + rest, bond, {}) ==>
            && (e.Late? ==> FitsRest(s, e.f, bond, {})) && AllFit(Next(s, e), rest, bond, {})
  {
    assert ([e] + rest)[1..] == rest;
  }

  lemma ChainIsNew(p: string, q: string)
    requires StrCmp(p, q) < 0 && IfnameValid(p) && IfnameValid(q)
    ensures !(ChainsOf(Elements(Tail([p, q]))) <= BASE_CHAINS + ChainsOf({p}) + {})
  {
    StrCmpSign(p, q);
    PrimaryReceivesBroadcast([q, p]);
    assert Tail([p, q]) == [q] && Tail([q, p]) == [p];
    assert Elements([q]) == {q} && Elements([p]) == {p};
    assert ChainName(q) in ChainsOf({q});
  }

  // ----- A late script that brings back a table -----------------------------------------------

  /** The states of the run below: a bond without ports whose manager is being destroyed. */
  ghost predicate IsAt(s: LateSystem, bond: string, reg: Registration, call: Option<Call>, undead: multiset<Flight>) {
    && s.sys.self == 1 && s.sys.links == Rename.Bond(bond) && s.sys.kernel == map[] && s.sys.mgr.reg == reg
    && (if call.None? then s.sys.mgr.flight.None? else s.sys.mgr.flight == Some(Flight(call.value, {})))
    && s.sys.mgr.destroyed && !s.sys.mgr.recheck && s.sys.mgr.tracked == {} && s.undead == undead
  }

  /** The up-call is cancelled by the destruction, the down-call succeeds, and the manager is freed. Then
      the cancelled script makes the table again, and nobody will ever remove it. */
  lemma LateScriptMayRevive(bond: string) returns (s0: System, es: seq<LateEvent>)
    requires IfnameValid(bond)
    ensures Initial(s0) && s0.kernel == map[] && CanGo(Fresh(s0), es, bond)
    ensures AllAddTracked(Fresh(s0), es, bond, {}) && !AlwaysInOrder(Fresh(s0), es, bond, {})
    ensures var s := Go(Fresh(s0), es, bond);
            && s.sys.mgr.freed && s.sys.mgr.good && s.sys.mgr.tracked == {} && s.undead == multiset{}
            && Chains(s.sys.kernel, bond) == BASE_CHAINS
  {
    s0 := Rename.Created(bond);
    Rename.ScansBond(s0, bond, Off);
    var up, down := UpCall(Config(bond, []), None), DownCall(bond);
    var c, f := Config(bond, []), Flight(up, {});
    var scan, want := Scan(Some(bond), []), Some(Config(bond, []));
    var e1, e2, e3 := DestroyEvent, NftEvent(Cancelled, false, scan, want), NftEvent(Succeeded, true, scan, want);
    NewBondWithoutPorts(s0, bond);
    var r0 := Fresh(s0);
    var r1 := Next(r0, InTime(e1));
    assert IsAt(r1, bond, Aborting(c, None), Some(up), multiset{});
    var r2 := Next(r1, InTime(e2));
    assert IsAt(r2, bond, Downing(c, None), Some(down), multiset{f});
    var r3 := Next(r2, InTime(e3));
    TakenDown(r2, e3, bond, f);
    var r4 := Next(r3, Late(f));
    Revived(r3, f, bond);
    var t4 := [Late(f)] + [];
    var t3 := [InTime(e3)] + t4;
    var t2 := [InTime(e2)] + t3;
    GoOne(r3, Late(f), [], bond);
    GoOne(r2, InTime(e3), t4, bond);
    GoOne(r1, InTime(e2), t3, bond);
    GoOne(r0, InTime(e1), t2, bond);
    es := [InTime(e1)] + t2;
    LateScriptsFromStart(s0, es, bond);
  }

  lemma NewBondWithoutPorts(s: System, bond: string)
    requires s == Rename.Created(bond)
    ensures s.mgr.reg == Upping(Config(bond, [])) && s.mgr.flight == Some(Flight(UpCall(Config(bond, []), None), {}))
    ensures !s.mgr.recheck && !s.mgr.destroyed && s.mgr.tracked == {} && s.mgr.good
  {
    var none: set<string> := {};
    assert Elements<string>([]) == none && none - none == none && none + none == none;
  }

  lemma TakenDown(s: LateSystem, e: Event, bond: string, f: Flight)
    requires IsAt(s, bond, Downing(Config(bond, []), None), Some(DownCall(bond)), multiset{f})
    requires e.NftEvent? && e.outcome.Succeeded? && e.applied
    ensures var s' := Next(s, InTime(e));
            && IsAt(s', bond, Off, None, multiset{f}) && s'.sys.mgr.freed && s'.sys.mgr.good && s'.called
  {
    var none: Kernel := map[];
    assert none - {TableName(bond)} == none;
  }

  lemma Revived(s: LateSystem, f: Flight, bond: string)
    requires IsAt(s, bond, Off, None, multiset{f}) && s.sys.mgr.freed && s.sys.mgr.good && s.called && IfnameValid(bond)
    requires f == Flight(UpCall(Config(bond, []), None), {})
    ensures var s' := Next(s, Late(f));
            && s'.sys.mgr == s.sys.mgr && s'.undead == multiset{} && Chains(s'.sys.kernel, bond) == BASE_CHAINS
    ensures AddsTracked(s.sys.mgr, f, bond, {}) && !FitsRest(s, f, bond, {})
  {
    EffectOnBond(s.sys.kernel, f, bond);
    var none: set<string> := {};
    assert Elements<string>([]) == none && ChainsOf(none) == none;
  }
}
