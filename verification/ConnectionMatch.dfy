/**
 * Deciding whether a stored profile may stand for the profile generated from a device
 * (src/core/NetworkManagerUtils.c:323-394, 437-949). The difference of the two profiles is a
 * two-level table; ten checks prune excusable properties from it in place, and a candidate is
 * accepted when nothing is left.
 */
module ConnectionMatch {
  import opened Common
  import opened Routes

  datatype Setting = Ip4 | Ip6 | Con | Wired | Infiniband | Match | OtherSetting(settingName: string)

  datatype Property =
    | Method | RouteList | InterfaceName | Master | Controller | MacAddress | ClonedMacAddress
    | S390Subchannels | S390Nettype | S390Options | OtherProperty(propertyName: string)

  /** The differing properties, setting by setting. */
  type Diff = map<Setting, set<Property>>

  datatype IpConfig = IpConfig(ipMethod: string, mayFail: bool, routes: seq<Route>, routeMetric: int)

  datatype WiredConfig = WiredConfig(mac: Option<string>, clonedMac: Option<string>, subchannels: seq<string>,
                                     nettype: Option<string>, numOptions: nat)

  datatype Profile = Profile(interfaceName: Option<string>, controller: Option<string>,
                             connectionType: Option<string>, portType: Option<string>,
                             ip4: Option<IpConfig>, ip6: Option<IpConfig>,
                             wired: Option<WiredConfig>, infiniband: Option<Option<string>>)

  /** What the checks consult besides the two profiles: the carrier, the default route metrics of the
      device, which strings are UUIDs, and the interface name of each stored profile by UUID. */
  datatype Env = Env(carrier: bool, metric4: int, metric6: int,
                     isUuid: string -> bool, byUuid: map<string, Option<string>>)

  datatype Check =
    | Ip6MethodCheck | Ip4MethodCheck | Ip4RoutesCheck | Ip6RoutesCheck | InterfaceNameCheck
    | MacCheck | InfinibandMacCheck | ClonedMacCheck | ControllerCheck | S390Check

  /** The checks in the order check_possible_match() makes them. */
  const SOURCE_ORDER: seq<Check> :=
    [Ip6MethodCheck, Ip4MethodCheck, Ip4RoutesCheck, Ip6RoutesCheck, InterfaceNameCheck,
     MacCheck, InfinibandMacCheck, ClonedMacCheck, ControllerCheck, S390Check]

  // ----- What is excusable --------------------------------------------------------------------

  /** nm_utils_get_ip_config_method(). */
  function Ip4Method(p: Profile): string { if p.ip4.None? then "disabled" else p.ip4.value.ipMethod }

  function Ip6Method(p: Profile): string { if p.ip6.None? then "ignore" else p.ip6.value.ipMethod }

  predicate MayFail(ip: Option<IpConfig>) { ip.None? || ip.value.mayFail }

  function Mac(p: Profile): Option<string> { if p.wired.None? then None else p.wired.value.mac }

  function InfinibandMac(p: Profile): Option<string> { if p.infiniband.None? then None else p.infiniband.value }

  function ClonedMac(p: Profile): Option<string> { if p.wired.None? then None else p.wired.value.clonedMac }

  /** NM_CLONED_MAC_IS_SPECIAL() for a wired profile: such an entry names no particular address. */
  predicate SpecialMac(mac: Option<string>) {
    mac.Some? && mac.value in {"preserve", "permanent", "random", "stable"}
  }

  /** The chain of comparisons behind it. */
  method IsSpecial(mac: Option<string>) returns (special: bool)
    ensures special == SpecialMac(mac)
  {
    if mac.None? {
      return false;
    }
    return mac.value == "preserve" || mac.value == "permanent" || mac.value == "random" || mac.value == "stable";
  }

  /** The setting a check is about. */
  function SettingOf(c: Check): Setting {
    match c
    case Ip6MethodCheck | Ip6RoutesCheck => Ip6
    case Ip4MethodCheck | Ip4RoutesCheck => Ip4
    case InterfaceNameCheck | ControllerCheck => Con
    case MacCheck | ClonedMacCheck | S390Check => Wired
    case InfinibandMacCheck => Infiniband
  }

  /** The properties that make a check look at the profiles at all. */
  function Guards(c: Check): set<Property> {
    match c
    case Ip6MethodCheck | Ip4MethodCheck => {Method}
    case Ip4RoutesCheck | Ip6RoutesCheck => {RouteList}
    case InterfaceNameCheck => {InterfaceName}
    case MacCheck | InfinibandMacCheck => {MacAddress}
    case ClonedMacCheck => {ClonedMacAddress}
    case ControllerCheck => {Controller}
    case S390Check => {S390Subchannels, S390Nettype, S390Options}
  }

  /** The properties a check excuses: the old name of the controller goes along with the new one. */
  function Covers(c: Check): set<Property> {
    if c == ControllerCheck then {Master, Controller} else Guards(c)
  }

  ghost predicate RoutesMatch(a: Option<IpConfig>, b: Option<IpConfig>, defaultMetric: int, hostPrefix: nat) {
    a.Some? && b.Some? &&
    var metric := if b.value.routeMetric != -1 then b.value.routeMetric else defaultMetric;
    Matches(Keys(a.value.routes, metric), Keys(b.value.routes, metric), hostPrefix)
  }

  /** Whether the difference a check is about is acceptable. */
  ghost predicate Excusable(c: Check, orig: Profile, cand: Profile, env: Env) {
    match c
    case Ip6MethodCheck =>
      || (Ip6Method(orig) == "link-local" && Ip6Method(cand) == "auto" && MayFail(cand.ip6))
      || (Ip6Method(orig) in {"link-local", "disabled", "auto"} && Ip6Method(cand) == "ignore")
    case Ip4MethodCheck =>
      Ip4Method(orig) == "disabled" && Ip4Method(cand) == "auto" && MayFail(cand.ip4) && !env.carrier
    case Ip4RoutesCheck => RoutesMatch(orig.ip4, cand.ip4, env.metric4, 32)
    case Ip6RoutesCheck => RoutesMatch(orig.ip6, cand.ip6, env.metric6, 128)
    case InterfaceNameCheck => orig.interfaceName.None? || cand.interfaceName.None?
    case MacCheck => Mac(orig).None? || Mac(cand).None?
    case InfinibandMacCheck => InfinibandMac(orig).None? || InfinibandMac(cand).None?
    case ClonedMacCheck =>
      || ClonedMac(orig).None? || SpecialMac(ClonedMac(orig))
      || ClonedMac(cand).None? || SpecialMac(ClonedMac(cand))
    case ControllerCheck =>
      && orig.controller.Some? && cand.controller.Some?
      && env.isUuid(orig.controller.value) && orig.controller.value in env.byUuid
      && env.byUuid[orig.controller.value] == cand.controller
    case S390Check =>
      && orig.wired.None? && cand.wired.Some? && cand.wired.value.subchannels == []
      && cand.wired.value.nettype.None? && cand.wired.value.numOptions == 0
  }

  /** The checks whose difference is acceptable for two profiles. */
  ghost function Excuses(orig: Profile, cand: Profile, env: Env): set<Check> {
    set c: Check | Excusable(c, orig, cand, env)
  }

  /** Property p of setting s, differing, is excused by check c: the difference is acceptable and the
      check looked at it. */
  ghost predicate ExcusedBy(c: Check, s: Setting, p: Property, d: Diff, excuses: set<Check>) {
    s == SettingOf(c) && p in Covers(c) && Triggered(c, d) && c in excuses
  }

  ghost predicate Excused(s: Setting, p: Property, d: Diff, excuses: set<Check>) {
    exists c :: ExcusedBy(c, s, p, d, excuses)
  }

  predicate Triggered(c: Check, d: Diff) {
    SettingOf(c) in d && d[SettingOf(c)] * Guards(c) != {}
  }

  /** The verdict, without any pruning: every differing property outside the match setting is
      excused by some check. A setting listed without properties is never excused. */
  ghost predicate Acceptable(d: Diff, excuses: set<Check>) {
    forall s :: s in d && s != Match ==>
      d[s] != {} && forall p :: p in d[s] ==> Excused(s, p, d, excuses)
  }

  /** When the differing properties of a setting are acceptable, setting by setting. The old name of the
      controller is only excused together with the new one. */
  ghost predicate Tolerable(s: Setting, props: set<Property>, excuses: set<Check>) {
    && props != {}
    && match s
       case Ip4 =>
         && props <= {Method, RouteList}
         && (Method in props ==> Ip4MethodCheck in excuses) && (RouteList in props ==> Ip4RoutesCheck in excuses)
       case Ip6 =>
         && props <= {Method, RouteList}
         && (Method in props ==> Ip6MethodCheck in excuses) && (RouteList in props ==> Ip6RoutesCheck in excuses)
       case Con =>
         && props <= {InterfaceName, Master, Controller} && (Master in props ==> Controller in props)
         && (InterfaceName in props ==> InterfaceNameCheck in excuses)
         && (Controller in props ==> ControllerCheck in excuses)
       case Wired =>
         && props <= {MacAddress, ClonedMacAddress, S390Subchannels, S390Nettype, S390Options}
         && (MacAddress in props ==> MacCheck in excuses) && (ClonedMacAddress in props ==> ClonedMacCheck in excuses)
         && (props - {MacAddress, ClonedMacAddress} != {} ==> S390Check in excuses)
       case Infiniband => props == {MacAddress} && InfinibandMacCheck in excuses
       case Match => true
       case OtherSetting(_) => false
  }

  /** The same for one property; `props` are all that differ in the setting. */
  ghost predicate Forgivable(s: Setting, p: Property, props: set<Property>, excuses: set<Check>) {
    match s
    case Ip4 => (p == Method && Ip4MethodCheck in excuses) || (p == RouteList && Ip4RoutesCheck in excuses)
    case Ip6 => (p == Method && Ip6MethodCheck in excuses) || (p == RouteList && Ip6RoutesCheck in excuses)
    case Con =>
      || (p == InterfaceName && InterfaceNameCheck in excuses)
      || (p in {Master, Controller} && Controller in props && ControllerCheck in excuses)
    case Wired =>
      || (p == MacAddress && MacCheck in excuses) || (p == ClonedMacAddress && ClonedMacCheck in excuses)
      || (p in {S390Subchannels, S390Nettype, S390Options} && S390Check in excuses)
    case Infiniband => p == MacAddress && InfinibandMacCheck in excuses
    case Match => false
    case OtherSetting(_) => false
  }

  lemma ExcusedMeans(s: Setting, p: Property, d: Diff, excuses: set<Check>)
    requires s in d && p in d[s]
    ensures Excused(s, p, d, excuses) <==> Forgivable(s, p, d[s], excuses)
  {
    forall c: Check ensures ExcusedBy(c, s, p, d, excuses) <==>
                            && s == SettingOf(c) && p in Covers(c) && c in excuses
                            && (c == ControllerCheck ==> Controller in d[s])
    {
      if s == SettingOf(c) && p in Guards(c) {
        assert p in d[s] * Guards(c);
      }
      if c == ControllerCheck && s == Con && Controller in d[s] {
        assert Controller in d[s] * Guards(c);
      }
    }
  }

  lemma TolerableMeans(s: Setting, props: set<Property>, excuses: set<Check>)
    requires s != Match && props != {}
    ensures Tolerable(s, props, excuses) <==> forall p :: p in props ==> Forgivable(s, p, props, excuses)
  {
    var other := props - {MacAddress, ClonedMacAddress};
    if Tolerable(s, props, excuses) {
      forall p | p in props ensures Forgivable(s, p, props, excuses) {
        assert p in other <==> p !in {MacAddress, ClonedMacAddress};
      }
    }
    if forall p :: p in props ==> Forgivable(s, p, props, excuses) {
      var p :| p in props;
      assert Forgivable(s, p, props, excuses);
      if s == Wired && other != {} {
        var q :| q in other;
        assert Forgivable(s, q, props, excuses);
      } else if s == Infiniband {
        assert props == {MacAddress};
      }
    }
  }

  /** The verdict, spelled out for every setting. */
  lemma AcceptableMeans(d: Diff, excuses: set<Check>)
    ensures Acceptable(d, excuses) <==> forall s :: s in d && s != Match ==> Tolerable(s, d[s], excuses)
  {
    forall s | s in d && s != Match
      ensures (d[s] != {} && forall p :: p in d[s] ==> Excused(s, p, d, excuses)) <==> Tolerable(s, d[s], excuses)
    {
      forall p | p in d[s] ensures Excused(s, p, d, excuses) <==> Forgivable(s, p, d[s], excuses) {
        ExcusedMeans(s, p, d, excuses);
      }
      if d[s] != {} {
        TolerableMeans(s, d[s], excuses);
      }
    }
  }

  // ----- Pruning ------------------------------------------------------------------------------

  /** Taking properties out of a setting; a setting left without properties goes, too. */
  function Pruned(d: Diff, s: Setting, props: set<Property>): (r: Diff)
  {
    if s !in d || d[s] * props == {} then d
    else if d[s] - props == {} then d - {s}
    else d[s := d[s] - props]
  }

  lemma DisjointDifference(a: set<Property>, b: set<Property>)
    requires a * b == {}
    ensures a - b == a
  {
    forall x | x in a ensures x !in b {
      assert x in b ==> x in a * b;
    }
  }

  /** Pruning takes exactly the given properties and never leaves an empty setting behind. */
  lemma PrunedExactly(d: Diff, s: Setting, props: set<Property>, t: Setting)
    ensures t in Pruned(d, s, props) <==> t in d && (t == s && d[s] * props != {} ==> d[s] - props != {})
    ensures t in Pruned(d, s, props) ==>
              Pruned(d, s, props)[t] == (if t == s then d[t] - props else d[t])
    ensures t in Pruned(d, s, props) && Pruned(d, s, props)[t] == {} ==> t in d && d[t] == {}
  {
    if s in d && d[s] * props == {} {
      DisjointDifference(d[s], props);
    }
  }

  /** Pruning two sets of properties one after the other prunes their union. */
  lemma PrunedTwice(d: Diff, s: Setting, p: set<Property>, q: set<Property>)
    ensures Pruned(Pruned(d, s, p), s, q) == Pruned(d, s, p + q)
  {
    if s in d {
      assert d[s] - (p + q) == d[s] - p - q;
      assert d[s] * (p + q) == d[s] * p + d[s] * q;
      if d[s] * p == {} {
        DisjointDifference(d[s], p);
      } else if d[s] - p != {} {
        if (d[s] - p) * q == {} {
          DisjointDifference(d[s] - p, q);
        }
        assert Pruned(d, s, p)[s := d[s] - p - q] == d[s := d[s] - p - q];
        assert Pruned(d, s, p) - {s} == d - {s};
      }
    }
  }

  /** What a successful check leaves. */
  function After(c: Check, d: Diff): Diff {
    if Triggered(c, d) then Pruned(d, SettingOf(c), Covers(c)) else d
  }

  ghost predicate Passes(c: Check, d: Diff, excuses: set<Check>) {
    Triggered(c, d) ==> c in excuses
  }

  /** Making the checks one after the other, giving up at the first that fails. */
  ghost predicate Accepts(order: seq<Check>, d: Diff, excuses: set<Check>) {
    if order == [] then d.Keys <= {Match}
    else Passes(order[0], d, excuses) && Accepts(order[1..], After(order[0], d), excuses)
  }

  /** A check does not change what another one looks at. */
  lemma OtherCheckUnaffected(c: Check, e: Check, d: Diff)
    requires c != e
    ensures Triggered(e, After(c, d)) <==> Triggered(e, d)
  {
  }

  /** A check that passed has nothing more to look at. */
  lemma PassedCheckIsDone(c: Check, d: Diff)
    ensures !Triggered(c, After(c, d))
  {
  }

  /** A property survives a whole series of checks unless one of them covers it and is triggered. */
  ghost predicate Survives(order: seq<Check>, d: Diff, s: Setting, p: Property) {
    s in d && p in d[s] && forall c :: c in order && s == SettingOf(c) && p in Covers(c) ==> !Triggered(c, d)
  }

  /** What is left in the end, without running the checks: every triggered check is excusable, and
      nothing but the match setting survives. */
  ghost predicate NothingLeft(order: seq<Check>, d: Diff, excuses: set<Check>) {
    && (forall c :: c in order ==> Passes(c, d, excuses))
    && (forall s :: s in d && s != Match ==> d[s] != {})
    && (forall s, p :: Survives(order, d, s, p) ==> s == Match)
  }

  lemma SurvivesStep(order: seq<Check>, d: Diff, s: Setting, p: Property)
    requires order != []
    ensures Survives(order, d, s, p) <==> Survives(order[1..], After(order[0], d), s, p)
  {
    var c := order[0];
    assert order == [c] + order[1..];
    PrunedExactly(d, SettingOf(c), Covers(c), s);
    PassedCheckIsDone(c, d);
    forall e | e != c ensures Triggered(e, After(c, d)) <==> Triggered(e, d) {
      OtherCheckUnaffected(c, e, d);
    }
  }

  lemma EmptySettingsStep(c: Check, d: Diff)
    ensures (forall s :: s in d && s != Match ==> d[s] != {}) <==>
            (forall s :: s in After(c, d) && s != Match ==> After(c, d)[s] != {})
  {
    forall s ensures s in d && d[s] == {} <==> s in After(c, d) && After(c, d)[s] == {} {
      PrunedExactly(d, SettingOf(c), Covers(c), s);
    }
  }

  lemma PassesStep(order: seq<Check>, d: Diff, excuses: set<Check>)
    requires order != []
    ensures (forall c :: c in order ==> Passes(c, d, excuses)) <==>
            && Passes(order[0], d, excuses)
            && (forall c :: c in order[1..] ==> Passes(c, After(order[0], d), excuses))
  {
    var c := order[0];
    assert order == [c] + order[1..];
    PassedCheckIsDone(c, d);
    forall e | e != c ensures Triggered(e, After(c, d)) <==> Triggered(e, d) {
      OtherCheckUnaffected(c, e, d);
    }
  }

  /** A series of checks is decided by the difference it starts from. */
  lemma {:induction false} SeriesDecidedUpFront(order: seq<Check>, d: Diff, excuses: set<Check>)
    ensures Accepts(order, d, excuses) <==> NothingLeft(order, d, excuses)
    decreases |order|
  {
    if order == [] {
      forall s | s in d && d[s] != {} ensures exists p :: Survives(order, d, s, p) {
        var p :| p in d[s];
        assert Survives(order, d, s, p);
      }
    } else {
      var rest, d' := order[1..], After(order[0], d);
      SeriesDecidedUpFront(rest, d', excuses);
      PassesStep(order, d, excuses);
      EmptySettingsStep(order[0], d);
      forall s, p ensures Survives(order, d, s, p) <==> Survives(rest, d', s, p) {
        SurvivesStep(order, d, s, p);
      }
    }
  }

  /** All ten checks, in any order and however often each: the verdict is that every differing
      property outside the match setting is excused by one of them. */
  lemma AnyOrderSameVerdict(order: seq<Check>, d: Diff, excuses: set<Check>)
    requires forall c: Check :: c in order
    ensures Accepts(order, d, excuses) <==> Acceptable(d, excuses)
  {
    SeriesDecidedUpFront(order, d, excuses);
    if NothingLeft(order, d, excuses) {
      forall s, p | s in d && s != Match && p in d[s] ensures Excused(s, p, d, excuses) {
        assert !Survives(order, d, s, p);
        var c :| c in order && s == SettingOf(c) && p in Covers(c) && Triggered(c, d);
        assert Passes(c, d, excuses);
        assert ExcusedBy(c, s, p, d, excuses);
      }
    }
    if Acceptable(d, excuses) {
      forall c | c in order ensures Passes(c, d, excuses) {
        if Triggered(c, d) {
          TriggeredMeansExcused(c, d, excuses);
        }
      }
    }
  }

  lemma TriggeredMeansExcused(c: Check, d: Diff, excuses: set<Check>)
    requires Acceptable(d, excuses) && Triggered(c, d)
    ensures c in excuses
  {
  }

  lemma SourceOrderIsComplete()
    ensures forall c: Check :: c in SOURCE_ORDER
  {
    forall c: Check ensures c in SOURCE_ORDER {
      match c
      case Ip6MethodCheck => assert SOURCE_ORDER[0] == c;
      case Ip4MethodCheck => assert SOURCE_ORDER[1] == c;
      case Ip4RoutesCheck => assert SOURCE_ORDER[2] == c;
      case Ip6RoutesCheck => assert SOURCE_ORDER[3] == c;
      case InterfaceNameCheck => assert SOURCE_ORDER[4] == c;
      case MacCheck => assert SOURCE_ORDER[5] == c;
      case InfinibandMacCheck => assert SOURCE_ORDER[6] == c;
      case ClonedMacCheck => assert SOURCE_ORDER[7] == c;
      case ControllerCheck => assert SOURCE_ORDER[8] == c;
      case S390Check => assert SOURCE_ORDER[9] == c;
    }
  }

  // ----- The table pruned in place ------------------------------------------------------------

  class DiffTable {
    var settings: Diff

    constructor (d: Diff)
      ensures settings == d
    {
      settings := d;
    }

    /** check_property_in_hash(). */
    predicate Has(s: Setting, p: Property)
      reads this
    {
      s in settings && p in settings[s]
    }

    /** remove_from_hash(): the property table is still owned by the outer table. */
    method Remove(s: Setting, p: Property)
      requires s in settings && settings[s] != {}
      modifies this
      ensures settings == Pruned(old(settings), s, {p})
    {
      var props := settings[s] - {p};
      if p !in settings[s] {
        assert props == settings[s];
        assert settings[s := props] == settings;
      } else {
        assert p in settings[s] * {p};
      }
      settings := if props == {} then settings - {s} else settings[s := props];
    }

    /** check_ip6_method(). */
    method CheckIp6Method(orig: Profile, cand: Profile, env: Env) returns (ok: bool)
      modifies this
      ensures ok <==> Passes(Ip6MethodCheck, old(settings), Excuses(orig, cand, env))
      ensures settings == if ok then After(Ip6MethodCheck, old(settings)) else old(settings)
    {
      if !Has(Ip6, Method) {
        assert !Triggered(Ip6MethodCheck, settings);
        return true;
      }
      assert Method in settings[Ip6] * Guards(Ip6MethodCheck);
      var m, n := Ip6Method(orig), Ip6Method(cand);
      ok := false;
      if m == "link-local" && n == "auto" && (cand.ip6.None? || cand.ip6.value.mayFail) {
        ok := true;
      } else if m in {"link-local", "disabled", "auto"} && n == "ignore" {
        ok := true;
      }
      if ok {
        Remove(Ip6, Method);
      }
    }

    /** check_ip4_method(). */
    method CheckIp4Method(orig: Profile, cand: Profile, env: Env) returns (ok: bool)
      modifies this
      ensures ok <==> Passes(Ip4MethodCheck, old(settings), Excuses(orig, cand, env))
      ensures settings == if ok then After(Ip4MethodCheck, old(settings)) else old(settings)
    {
      if !Has(Ip4, Method) {
        assert !Triggered(Ip4MethodCheck, settings);
        return true;
      }
      assert Method in settings[Ip4] * Guards(Ip4MethodCheck);
      if && Ip4Method(orig) == "disabled" && Ip4Method(cand) == "auto"
         && (cand.ip4.None? || cand.ip4.value.mayFail) && !env.carrier {
        Remove(Ip4, Method);
        return true;
      }
      return false;
    }

    /** check_ip_routes(), for one address family. */
    method CheckRoutes(v4: bool, orig: Profile, cand: Profile, env: Env) returns (ok: bool)
      modifies this
      ensures var c := if v4 then Ip4RoutesCheck else Ip6RoutesCheck;
              && (ok <==> Passes(c, old(settings), Excuses(orig, cand, env)))
              && settings == if ok then After(c, old(settings)) else old(settings)
    {
      ghost var c := if v4 then Ip4RoutesCheck else Ip6RoutesCheck;
      var s, hostPrefix := if v4 then Ip4 else Ip6, if v4 then 32 else 128;
      if !Has(s, RouteList) {
        assert !Triggered(c, settings);
        return true;
      }
      assert RouteList in settings[s] * Guards(c);
      var ip1, ip2 := if v4 then orig.ip4 else orig.ip6, if v4 then cand.ip4 else cand.ip6;
      if ip1.None? || ip2.None? {
        return false;
      }
      var metric := if v4 then env.metric4 else env.metric6;
      if ip2.value.routeMetric != -1 {
        metric := ip2.value.routeMetric;
      }
      ok := CompareRoutes(ip1.value.routes, ip2.value.routes, metric, hostPrefix);
      if ok {
        Remove(s, RouteList);
      }
    }

    /** check_connection_interface_name(). */
    method CheckInterfaceName(orig: Profile, cand: Profile, env: Env) returns (ok: bool)
      modifies this
      ensures ok <==> Passes(InterfaceNameCheck, old(settings), Excuses(orig, cand, env))
      ensures settings == if ok then After(InterfaceNameCheck, old(settings)) else old(settings)
    {
      if !Has(Con, InterfaceName) {
        assert !Triggered(InterfaceNameCheck, settings);
        return true;
      }
      assert InterfaceName in settings[Con] * Guards(InterfaceNameCheck);
      ok := orig.interfaceName.None? || cand.interfaceName.None?;
      if ok {
        Remove(Con, InterfaceName);
      }
    }

    /** check_connection_mac_address(). */
    method CheckMac(orig: Profile, cand: Profile, env: Env) returns (ok: bool)
      modifies this
      ensures ok <==> Passes(MacCheck, old(settings), Excuses(orig, cand, env))
      ensures settings == if ok then After(MacCheck, old(settings)) else old(settings)
    {
      if !Has(Wired, MacAddress) {
        assert !Triggered(MacCheck, settings);
        return true;
      }
      assert MacAddress in settings[Wired] * Guards(MacCheck);
      ok := Mac(orig).None? || Mac(cand).None?;
      if ok {
        Remove(Wired, MacAddress);
      }
    }

    /** check_connection_infiniband_mac_address(). */
    method CheckInfinibandMac(orig: Profile, cand: Profile, env: Env) returns (ok: bool)
      modifies this
      ensures ok <==> Passes(InfinibandMacCheck, old(settings), Excuses(orig, cand, env))
      ensures settings == if ok then After(InfinibandMacCheck, old(settings)) else old(settings)
    {
      if !Has(Infiniband, MacAddress) {
        assert !Triggered(InfinibandMacCheck, settings);
        return true;
      }
      assert MacAddress in settings[Infiniband] * Guards(InfinibandMacCheck);
      ok := InfinibandMac(orig).None? || InfinibandMac(cand).None?;
      if ok {
        Remove(Infiniband, MacAddress);
      }
    }

    /** check_connection_cloned_mac_address(). */
    method CheckClonedMac(orig: Profile, cand: Profile, env: Env) returns (ok: bool)
      modifies this
      ensures ok <==> Passes(ClonedMacCheck, old(settings), Excuses(orig, cand, env))
      ensures settings == if ok then After(ClonedMacCheck, old(settings)) else old(settings)
    {
      if !Has(Wired, ClonedMacAddress) {
        assert !Triggered(ClonedMacCheck, settings);
        return true;
      }
      assert ClonedMacAddress in settings[Wired] * Guards(ClonedMacCheck);
      var m, n := ClonedMac(orig), ClonedMac(cand);
      var special := IsSpecial(m);
      if special {
        m := None;
      }
      special := IsSpecial(n);
      if special {
        n := None;
      }
      ok := m.None? || n.None?;
      if ok {
        Remove(Wired, ClonedMacAddress);
      }
    }

    /** check_connection_controller(): the second removal finds the table alive, since the controller
        was among its properties. */
    method CheckController(orig: Profile, cand: Profile, env: Env) returns (ok: bool)
      modifies this
      ensures ok <==> Passes(ControllerCheck, old(settings), Excuses(orig, cand, env))
      ensures settings == if ok then After(ControllerCheck, old(settings)) else old(settings)
    {
      if !Has(Con, Controller) {
        assert !Triggered(ControllerCheck, settings);
        return true;
      }
      assert Controller in settings[Con] * Guards(ControllerCheck);
      if orig.controller.Some? && cand.controller.Some? && env.isUuid(orig.controller.value) {
        if orig.controller.value !in env.byUuid {
          return false;
        }
        if env.byUuid[orig.controller.value] == cand.controller {
          PrunedTwice(settings, Con, {Master}, {Controller});
          PrunedExactly(settings, Con, {Master}, Con);
          assert Controller in settings[Con] - {Master};
          Remove(Con, Master);
          Remove(Con, Controller);
          assert {Master} + {Controller} == Covers(ControllerCheck);
          return true;
        }
      }
      return false;
    }

    /** check_connection_s390_props(). */
    method CheckS390(orig: Profile, cand: Profile, env: Env) returns (ok: bool)
      modifies this
      ensures ok <==> Passes(S390Check, old(settings), Excuses(orig, cand, env))
      ensures settings == if ok then After(S390Check, old(settings)) else old(settings)
    {
      var has1, has2, has3 := Has(Wired, S390Subchannels), Has(Wired, S390Nettype), Has(Wired, S390Options);
      if !has1 && !has2 && !has3 {
        assert !Triggered(S390Check, settings);
        return true;
      }
      assert Triggered(S390Check, settings) by {
        var p := if has1 then S390Subchannels else if has2 then S390Nettype else S390Options;
        assert p in settings[Wired] * Guards(S390Check);
      }
      ok := && orig.wired.None? && cand.wired.Some? && cand.wired.value.subchannels == []
            && cand.wired.value.nettype.None? && cand.wired.value.numOptions == 0;
      if ok {
        RemoveS390(has1, has2, has3);
      }
    }

    /** The three conditional removals: each finds its property, so none meets a freed table. */
    method RemoveS390(has1: bool, has2: bool, has3: bool)
      requires has1 == Has(Wired, S390Subchannels) && has2 == Has(Wired, S390Nettype) && has3 == Has(Wired, S390Options)
      requires has1 || has2 || has3
      modifies this
      ensures settings == Pruned(old(settings), Wired, Covers(S390Check))
    {
      ghost var d := settings;
      PrunedExactly(d, Wired, {S390Subchannels}, Wired);
      PrunedTwice(d, Wired, {S390Subchannels}, {S390Nettype});
      PrunedExactly(d, Wired, {S390Subchannels} + {S390Nettype}, Wired);
      PrunedTwice(d, Wired, {S390Subchannels} + {S390Nettype}, {S390Options});
      assert {S390Subchannels} + {S390Nettype} + {S390Options} == Covers(S390Check);
      if has1 {
        Remove(Wired, S390Subchannels);
      }
      assert settings == Pruned(d, Wired, {S390Subchannels});
      if has2 {
        assert S390Nettype in d[Wired] - {S390Subchannels};
        Remove(Wired, S390Nettype);
      }
      assert settings == Pruned(d, Wired, {S390Subchannels} + {S390Nettype});
      if has3 {
        assert S390Options in d[Wired] - ({S390Subchannels} + {S390Nettype});
        Remove(Wired, S390Options);
      }
    }

    /** One of the ten checks. */
    method Make(c: Check, orig: Profile, cand: Profile, env: Env) returns (ok: bool)
      modifies this
      ensures ok <==> Passes(c, old(settings), Excuses(orig, cand, env))
      ensures settings == if ok then After(c, old(settings)) else old(settings)
    {
      match c
      case Ip6MethodCheck => ok := CheckIp6Method(orig, cand, env);
      case Ip4MethodCheck => ok := CheckIp4Method(orig, cand, env);
      case Ip4RoutesCheck => ok := CheckRoutes(true, orig, cand, env);
      case Ip6RoutesCheck => ok := CheckRoutes(false, orig, cand, env);
      case InterfaceNameCheck => ok := CheckInterfaceName(orig, cand, env);
      case MacCheck => ok := CheckMac(orig, cand, env);
      case InfinibandMacCheck => ok := CheckInfinibandMac(orig, cand, env);
      case ClonedMacCheck => ok := CheckClonedMac(orig, cand, env);
      case ControllerCheck => ok := CheckController(orig, cand, env);
      case S390Check => ok := CheckS390(orig, cand, env);
    }

    /** The checks in the order of the source, up to the first that fails. */
    method MakeAll(orig: Profile, cand: Profile, env: Env) returns (ok: bool)
      modifies this
      ensures Accepts(SOURCE_ORDER, old(settings), Excuses(orig, cand, env)) <==> ok && settings.Keys <= {Match}
    {
      ghost var excuses := Excuses(orig, cand, env);
      var i := 0;
      assert SOURCE_ORDER[0..] == SOURCE_ORDER;
      while i < |SOURCE_ORDER|
        invariant i <= |SOURCE_ORDER|
        invariant Accepts(SOURCE_ORDER, old(settings), excuses) <==> Accepts(SOURCE_ORDER[i..], settings, excuses)
      {
        assert SOURCE_ORDER[i..][1..] == SOURCE_ORDER[i + 1..];
        var passed := Make(SOURCE_ORDER[i], orig, cand, env);
        if !passed {
          return false;
        }
        i := i + 1;
      }
      return true;
    }

    /** check_possible_match(). */
    method CheckPossibleMatch(orig: Profile, cand: Profile, env: Env) returns (ok: bool)
      modifies this
      ensures ok <==> Acceptable(old(settings), Excuses(orig, cand, env))
    {
      ghost var excuses := Excuses(orig, cand, env);
      SourceOrderIsComplete();
      AnyOrderSameVerdict(SOURCE_ORDER, settings, excuses);
      var passed := MakeAll(orig, cand, env);
      if !passed {
        return false;
      }
      ghost var d := settings;
      settings := settings - {Match};
      assert d.Keys <= {Match} <==> |settings| == 0 by {
        assert settings.Keys == d.Keys - {Match};
      }
      return |settings| == 0;
    }
  }

  // ----- Choosing among the candidates --------------------------------------------------------

  /** A candidate as the search sees it: the caller's filter, the profile, and its difference from
      the generated profile (nothing when there is none). */
  datatype Candidate = Candidate(wanted: bool, profile: Profile, diff: Option<Diff>)

  predicate SameKind(a: Profile, b: Profile) {
    a.connectionType == b.connectionType && a.portType == b.portType
  }

  ghost predicate Exact(c: Candidate, orig: Profile, indicated: bool) {
    c.wanted && if indicated then SameKind(orig, c.profile) else c.diff.None?
  }

  ghost predicate Possible(c: Candidate, orig: Profile, indicated: bool, env: Env) {
    c.wanted && !indicated && c.diff.Some? && Acceptable(c.diff.value, Excuses(orig, c.profile, env))
  }

  /** nm_utils_match_connection(): the first exact match, else the first possible one. */
  method MatchConnection(cands: seq<Candidate>, orig: Profile, indicated: bool, env: Env) returns (r: Option<nat>)
    ensures r.Some? ==> r.value < |cands|
    ensures r.Some? && Exact(cands[r.value], orig, indicated) ==>
              forall j :: 0 <= j < r.value ==> !Exact(cands[j], orig, indicated)
    ensures r.Some? && !Exact(cands[r.value], orig, indicated) ==>
              && Possible(cands[r.value], orig, indicated, env)
              && (forall j :: 0 <= j < r.value ==> !Possible(cands[j], orig, indicated, env))
              && (forall j :: 0 <= j < |cands| ==> !Exact(cands[j], orig, indicated))
    ensures r.None? ==> forall j :: 0 <= j < |cands| ==>
              !Exact(cands[j], orig, indicated) && !Possible(cands[j], orig, indicated, env)
  {
    var best: Option<nat> := None;
    for i := 0 to |cands|
      invariant forall j :: 0 <= j < i ==> !Exact(cands[j], orig, indicated)
      invariant best.None? ==> forall j :: 0 <= j < i ==> !Possible(cands[j], orig, indicated, env)
      invariant best.Some? ==>
                  && best.value < i && Possible(cands[best.value], orig, indicated, env)
                  && forall j :: 0 <= j < best.value ==> !Possible(cands[j], orig, indicated, env)
    {
      var c := cands[i];
      if !c.wanted {
        continue;
      }
      if indicated {
        if orig.connectionType != c.profile.connectionType {
          continue;
        }
        if orig.portType != c.profile.portType {
          continue;
        }
      } else if c.diff.Some? {
        if best.None? {
          var table := new DiffTable(c.diff.value);
          var ok := table.CheckPossibleMatch(orig, c.profile, env);
          if ok {
            best := Some(i);
          }
        }
        continue;
      }
      return Some(i);
    }
    return best;
  }
}
