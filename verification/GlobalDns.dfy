/**
 * The global DNS configuration (src/core/nm-config-data.c:1013-1071, 1160-1302, 1304-1541): loading it
 * from a keyfile, publishing it on D-Bus, accepting it back, and comparing two configurations.
 */
module GlobalDns {
  import opened Common
  import opened Order

  /** The checks made elsewhere: which resolver options and which addresses are valid. */
  datatype Validators = Validators(dnsOption: string -> bool, address: string -> bool)

  datatype Domain = Domain(name: string, servers: Option<seq<string>>, options: Option<seq<string>>)

  /** NMGlobalDnsConfig; the list of domain names is sorted when the configuration is sealed. */
  datatype Config = Config(searches: Option<seq<string>>, options: Option<seq<string>>,
                           domains: map<string, Domain>, domainList: seq<string>, internal: bool)

  datatype Variant = Strv(strv: seq<string>) | Dict(entries: seq<(string, Variant)>) | OtherVariant

  // ----- Lists of strings ---------------------------------------------------------------------

  predicate Space(c: char) { c in {' ', '\t', '\n', '\U{0C}', '\r'} }

  function StripLeft(s: string): string { if s != [] && Space(s[0]) then StripLeft(s[1..]) else s }

  function StripRight(s: string): string {
    if s != [] && Space(s[|s| - 1]) then StripRight(s[..|s| - 1]) else s
  }

  /** g_strstrip(). */
  function Strip(s: string): string { StripRight(StripLeft(s)) }

  predicate Stripped(s: string) { s == [] || (!Space(s[0]) && !Space(s[|s| - 1])) }

  lemma {:induction false} StripLeftStrips(s: string)
    ensures StripLeft(s) == [] || !Space(StripLeft(s)[0])
  {
    if s != [] && Space(s[0]) {
      StripLeftStrips(s[1..]);
    }
  }

  lemma {:induction false} StripRightStrips(s: string)
    ensures StripRight(s) <= s
    ensures StripRight(s) == [] || !Space(StripRight(s)[|StripRight(s)| - 1])
  {
    if s != [] && Space(s[|s| - 1]) {
      StripRightStrips(s[..|s| - 1]);
    }
  }

  lemma StripStrips(s: string)
    ensures Stripped(Strip(s))
    ensures Stripped(s) ==> Strip(s) == s
  {
    StripLeftStrips(s);
    StripRightStrips(StripLeft(s));
  }

  /** nm_strv_cleanup() with all its options: strip, drop the empty ones and repetitions. */
  function Cleanup(strv: seq<string>, kept: seq<string>): seq<string> {
    if strv == [] then kept
    else
      var x := Strip(strv[0]);
      Cleanup(strv[1..], if x == "" || x in kept then kept else kept + [x])
  }

  ghost predicate Clean(l: seq<string>) {
    Distinct(l) && forall i :: 0 <= i < |l| ==> l[i] != "" && Stripped(l[i])
  }

  lemma {:induction false} CleanupCleans(strv: seq<string>, kept: seq<string>)
    requires Clean(kept)
    ensures Clean(Cleanup(strv, kept))
  {
    if strv != [] {
      StripStrips(strv[0]);
      var x := Strip(strv[0]);
      CleanupCleans(strv[1..], if x == "" || x in kept then kept else kept + [x]);
    }
  }

  lemma {:induction false} CleanupOfClean(strv: seq<string>, kept: seq<string>)
    requires Clean(kept + strv)
    ensures Cleanup(strv, kept) == kept + strv
    decreases |strv|
  {
    if strv == [] {
      assert kept + [] == kept;
    } else {
      var all, x := kept + strv, strv[0];
      assert all[|kept|] == x;
      StripStrips(x);
      assert forall i :: 0 <= i < |kept| ==> kept[i] == all[i] && all[i] != all[|kept|];
      assert kept + [x] + strv[1..] == all;
      CleanupOfClean(strv[1..], kept + [x]);
    }
  }

  /** Tabs, line feeds, form feeds, carriage returns and blanks. */
  ghost predicate AllSpace(s: string) { forall i :: 0 <= i < |s| ==> s[i] as int in {9, 10, 12, 13, 32} }

  ghost predicate Bare(s: string) {
    s == [] || (s[0] as int !in {9, 10, 12, 13, 32} && s[|s| - 1] as int !in {9, 10, 12, 13, 32})
  }

  lemma {:induction false} StripLeftMeans(s: string) returns (before: string)
    ensures s == before + StripLeft(s) && AllSpace(before)
  {
    before := "";
    if s != [] && Space(s[0]) {
      var rest := StripLeftMeans(s[1..]);
      before := [s[0]] + rest;
    }
  }

  lemma {:induction false} StripRightMeans(s: string) returns (after: string)
    ensures s == StripRight(s) + after && AllSpace(after)
  {
    after := "";
    if s != [] && Space(s[|s| - 1]) {
      var rest := StripRightMeans(s[..|s| - 1]);
      after := rest + [s[|s| - 1]];
      assert s == s[..|s| - 1] + [s[|s| - 1]];
    }
  }

  /** Stripping takes off spaces at both ends, all of them, and nothing else. */
  lemma StripMeans(s: string) returns (before: string, after: string)
    ensures s == before + Strip(s) + after && AllSpace(before) && AllSpace(after) && Bare(Strip(s))
  {
    before := StripLeftMeans(s);
    after := StripRightMeans(StripLeft(s));
    StripStrips(s);
  }

  /** Position `i` holds the first occurrence of a string, once stripped. */
  ghost predicate FirstAt(strv: seq<string>, i: nat, x: string) {
    i < |strv| && Strip(strv[i]) == x && forall j :: 0 <= j < i ==> Strip(strv[j]) != x
  }

  ghost predicate Ascends(at: seq<nat>) { forall i, j :: 0 <= i < j < |at| ==> at[i] < at[j] }

  function Moved(at: seq<nat>): (r: seq<nat>)
    ensures |r| == |at| && forall i :: 0 <= i < |r| ==> r[i] == at[i] + 1
  {
    seq(|at|, i requires 0 <= i < |at| => at[i] + 1)
  }

  /** The strings are new, and listed where they occur first. */
  ghost predicate Places(strv: seq<string>, kept: seq<string>, more: seq<string>, at: seq<nat>) {
    && |at| == |more| && Ascends(at)
    && forall k :: 0 <= k < |more| ==> more[k] != "" && more[k] !in kept && FirstAt(strv, at[k], more[k])
  }

  lemma PlacesMoved(strv: seq<string>, kept: seq<string>, more: seq<string>, at: seq<nat>)
    requires strv != [] && Places(strv[1..], kept, more, at) && (Strip(strv[0]) == "" || Strip(strv[0]) in kept)
    ensures Places(strv, kept, more, Moved(at))
  {
    forall k | 0 <= k < |more| ensures FirstAt(strv, at[k] + 1, more[k]) {
      assert FirstAt(strv[1..], at[k], more[k]) && more[k] != Strip(strv[0]);
      assert forall j :: 1 <= j < |strv| ==> strv[j] == strv[1..][j - 1];
    }
  }

  lemma PlacesInFront(strv: seq<string>, kept: seq<string>, x: string, more: seq<string>, at: seq<nat>)
    requires strv != [] && x == Strip(strv[0]) && x != "" && x !in kept && Places(strv[1..], kept + [x], more, at)
    ensures Places(strv, kept, [x] + more, [0] + Moved(at))
  {
    assert x in kept + [x];
    PlacesMoved(strv, kept + [x], more, at);
    var more', at' := [x] + more, [0] + Moved(at);
    forall k | 0 <= k < |more'| ensures more'[k] != "" && more'[k] !in kept && FirstAt(strv, at'[k], more'[k]) {
      if k > 0 {
        assert more'[k] == more[k - 1] && at'[k] == Moved(at)[k - 1] && more[k - 1] !in kept + [x];
      }
    }
  }

  /** What is added to the strings kept so far: the first occurrences of the others, in order. */
  lemma {:induction false} CleanupPlaces(strv: seq<string>, kept: seq<string>) returns (more: seq<string>, at: seq<nat>)
    ensures Cleanup(strv, kept) == kept + more && Places(strv, kept, more, at)
    decreases |strv|
  {
    more, at := [], [];
    if strv != [] {
      var x := Strip(strv[0]);
      if x == "" || x in kept {
        more, at := CleanupPlaces(strv[1..], kept);
        PlacesMoved(strv, kept, more, at);
        at := Moved(at);
      } else {
        more, at := CleanupPlaces(strv[1..], kept + [x]);
        PlacesInFront(strv, kept, x, more, at);
        more, at := [x] + more, [0] + Moved(at);
      }
    }
  }

  lemma {:induction false} CleanupElements(strv: seq<string>, kept: seq<string>, x: string)
    ensures x in Cleanup(strv, kept) <==> x in kept || (x != "" && exists i :: 0 <= i < |strv| && Strip(strv[i]) == x)
    decreases |strv|
  {
    if strv != [] {
      var y := Strip(strv[0]);
      CleanupElements(strv[1..], if y == "" || y in kept then kept else kept + [y], x);
      assert forall i :: 1 <= i < |strv| ==> strv[i] == strv[1..][i - 1];
    }
  }

  /** Of an unclean list, exactly the non-empty stripped strings stay, each where it occurs first. */
  lemma CleanupMeans(strv: seq<string>) returns (at: seq<nat>)
    ensures var l := Cleanup(strv, []);
            && Clean(l) && |at| == |l| && Ascends(at)
            && (forall k :: 0 <= k < |l| ==> FirstAt(strv, at[k], l[k]))
            && (forall i :: 0 <= i < |strv| && Strip(strv[i]) != "" ==> Strip(strv[i]) in l)
  {
    CleanupCleans(strv, []);
    var more, places := CleanupPlaces(strv, []);
    at := places;
    assert Cleanup(strv, []) == more;
    forall i | 0 <= i < |strv| && Strip(strv[i]) != "" ensures Strip(strv[i]) in Cleanup(strv, []) {
      CleanupElements(strv, [], Strip(strv[i]));
    }
  }

  /** The compacting loops that keep the valid entries. */
  function Valid(l: seq<string>, ok: string -> bool): seq<string> {
    if l == [] then [] else (if ok(l[0]) then [l[0]] else []) + Valid(l[1..], ok)
  }

  lemma {:induction false} ValidElements(l: seq<string>, ok: string -> bool, x: string)
    ensures x in Valid(l, ok) <==> x in l && ok(x)
  {
    if l != [] {
      ValidElements(l[1..], ok, x);
      assert l == [l[0]] + l[1..];
    }
  }

  lemma {:induction false} ValidKeepsClean(l: seq<string>, ok: string -> bool)
    requires Clean(l)
    ensures Clean(Valid(l, ok))
  {
    if l != [] {
      ValidKeepsClean(l[1..], ok);
      ValidElements(l[1..], ok, l[0]);
      assert l[0] !in l[1..];
    }
  }

  lemma {:induction false} ValidOfValid(l: seq<string>, ok: string -> bool)
    requires forall i :: 0 <= i < |l| ==> ok(l[i])
    ensures Valid(l, ok) == l
  {
    if l != [] {
      ValidOfValid(l[1..], ok);
    }
  }

  function NonEmpty(l: seq<string>): Option<seq<string>> { if l == [] then None else Some(l) }

  // ----- Normalised configurations ------------------------------------------------------------

  /** A list is absent rather than empty, clean, and all its entries are valid. */
  ghost predicate NormalList(l: Option<seq<string>>, ok: string -> bool) {
    l.Some? ==> l.value != [] && Clean(l.value) && forall i :: 0 <= i < |l.value| ==> ok(l.value[i])
  }

  predicate Anything(s: string) { true }

  ghost predicate NormalDomain(d: Domain, v: Validators) {
    d.servers.Some? && NormalList(d.servers, v.address) && NormalList(d.options, Anything)
  }

  ghost predicate NamedByKey(domains: map<string, Domain>) {
    forall k :: k in domains ==> domains[k].name == k
  }

  /** The domains are named by their key, and listed in name order. */
  ghost predicate Sealed(c: Config) {
    && Increasing(c.domainList) && Elements(c.domainList) == c.domains.Keys
    && NamedByKey(c.domains)
  }

  ghost predicate Normalised(c: Config, v: Validators) {
    && Sealed(c)
    && NormalList(c.searches, Anything) && NormalList(c.options, v.dnsOption)
    && (forall k :: k in c.domains ==> NormalDomain(c.domains[k], v))
    && (c.domains != map[] ==> "*" in c.domains)
  }

  // ----- Sealing ------------------------------------------------------------------------------

  lemma SortedKeysIncrease(s: seq<string>)
    requires Sorted(s, StrLe) && Distinct(s)
    ensures Increasing(s)
  {
    forall i, j | 0 <= i < j < |s| ensures StrCmp(s[i], s[j]) < 0 {
      assert StrLe(s[i], s[j]);
      StrCmpSign(s[i], s[j]);
    }
  }

  lemma DistinctPermutation(a: seq<string>, b: seq<string>)
    requires Distinct(a) && multiset(a) == multiset(b)
    ensures Distinct(b) && Elements(a) == Elements(b)
  {
    forall x ensures x in a <==> x in b {
      assert x in multiset(a) <==> x in multiset(b);
    }
    forall i, j | 0 <= i < j < |b| ensures b[i] != b[j] {
      DistinctMultiplicity(a, b[i]);
      if b[i] == b[j] {
        RepeatedMultiplicity(b, i, j);
      }
    }
  }

  lemma RepeatedMultiplicity(b: seq<string>, i: nat, j: nat)
    requires i < j < |b| && b[i] == b[j]
    ensures multiset(b)[b[i]] >= 2
  {
    assert b == b[..j] + [b[j]] + b[j + 1..];
    assert b[..j][i] in multiset(b[..j]);
  }

  lemma {:induction false} DistinctMultiplicity(a: seq<string>, x: string)
    requires Distinct(a)
    ensures multiset(a)[x] <= 1
  {
    if a != [] {
      DistinctMultiplicity(a[1..], x);
      assert a == [a[0]] + a[1..];
      if a[0] == x {
        assert x !in a[1..];
      }
    }
  }

  /** global_dns_config_seal_domains(), given the keys of the table in any order. */
  method Seal(c: Config, keys: seq<string>) returns (r: Config)
    requires Distinct(keys) && Elements(keys) == c.domains.Keys
    requires NamedByKey(c.domains)
    ensures Sealed(r) && r == c.(domainList := r.domainList)
  {
    StrLeTotal();
    SortIsSort(keys, StrLe);
    DistinctPermutation(keys, Sort(keys, StrLe));
    SortedKeysIncrease(Sort(keys, StrLe));
    r := c.(domainList := Sort(keys, StrLe));
  }

  // ----- Publishing ---------------------------------------------------------------------------

  function ListEntry(name: string, l: Option<seq<string>>): seq<(string, Variant)> {
    if l.Some? then [(name, Strv(l.value))] else []
  }

  function DomainEntries(list: seq<string>, domains: map<string, Domain>): seq<(string, Variant)>
    requires Elements(list) <= domains.Keys
  {
    if list == [] then []
    else
      assert list[0] in Elements(list);
      assert Elements(list[1..]) <= Elements(list);
      var d := domains[list[0]];
      [(d.name, Dict(ListEntry("servers", d.servers) + ListEntry("options", d.options)))]
      + DomainEntries(list[1..], domains)
  }

  /** nm_global_dns_config_to_dbus(). */
  function ToDbus(c: Config): Variant
    requires Elements(c.domainList) <= c.domains.Keys
  {
    Dict(ListEntry("searches", c.searches) + ListEntry("options", c.options)
         + [("domains", Dict(DomainEntries(c.domainList, c.domains)))])
  }

  // ----- Accepting ----------------------------------------------------------------------------

  function DomainStep(d: Domain, e: (string, Variant), v: Validators): Domain {
    if e.0 == "servers" && e.1.Strv? then
      var l := Valid(Cleanup(e.1.strv, []), v.address);
      if l == [] then d else d.(servers := Some(l))
    else if e.0 == "options" && e.1.Strv? then
      d.(options := NonEmpty(Cleanup(e.1.strv, [])))
    else d
  }

  function DomainFold(d: Domain, entries: seq<(string, Variant)>, v: Validators): (r: Domain)
    ensures r.name == d.name
    decreases |entries|
  {
    if entries == [] then d else DomainFold(DomainStep(d, entries[0], v), entries[1..], v)
  }

  /** global_dns_domain_from_dbus(): at least one server is required. */
  function DomainFromDbus(name: string, variant: Variant, v: Validators): (r: Option<Domain>)
    ensures r.Some? ==> r.value.name == name
  {
    if !variant.Dict? then None
    else
      var d := DomainFold(Domain(name, None, None), variant.entries, v);
      if d.servers.None? then None else Some(d)
  }

  function DomainsFold(domains: map<string, Domain>, entries: seq<(string, Variant)>, v: Validators)
    : map<string, Domain>
    decreases |entries|
  {
    if entries == [] then domains
    else
      var d := DomainFromDbus(entries[0].0, entries[0].1, v);
      DomainsFold(if d.Some? then domains[entries[0].0 := d.value] else domains, entries[1..], v)
  }

  function ConfigStep(c: Config, e: (string, Variant), v: Validators): Config {
    if e.0 == "searches" && e.1.Strv? then c.(searches := Some(Cleanup(e.1.strv, [])))
    else if e.0 == "options" && e.1.Strv? then
      var l := Valid(Cleanup(e.1.strv, []), v.dnsOption);
      if l == [] then c else c.(options := Some(l))
    else if e.0 == "domains" && e.1.Dict? then c.(domains := DomainsFold(c.domains, e.1.entries, v))
    else c
  }

  function ConfigFold(c: Config, entries: seq<(string, Variant)>, v: Validators): Config
    decreases |entries|
  {
    if entries == [] then c else ConfigFold(ConfigStep(c, entries[0], v), entries[1..], v)
  }

  const BLANK := Config(None, None, map[], [], false)

  /** The test made before the domains are sealed: it sees neither domains nor their absence. */
  predicate LacksDefault(c: Config) {
    (c.searches.Some? || c.options.Some?) && "*" !in c.domains
  }

  lemma {:induction false} DomainsFoldNames(domains: map<string, Domain>, entries: seq<(string, Variant)>,
                                            v: Validators)
    requires NamedByKey(domains)
    ensures NamedByKey(DomainsFold(domains, entries, v))
    decreases |entries|
  {
    if entries != [] {
      var d := DomainFromDbus(entries[0].0, entries[0].1, v);
      var next := if d.Some? then domains[entries[0].0 := d.value] else domains;
      assert NamedByKey(next);
      DomainsFoldNames(next, entries[1..], v);
    }
  }

  /** nm_global_dns_config_from_dbus(): nothing when the value is refused. */
  method FromDbus(value: Variant, v: Validators, enumerate: map<string, Domain> -> seq<string>)
    returns (r: Option<Config>)
    requires forall m :: Distinct(enumerate(m)) && Elements(enumerate(m)) == m.Keys
    ensures r.None? <==> !value.Dict? || LacksDefault(ConfigFold(BLANK, value.entries, v))
    ensures r.Some? ==>
              && Sealed(r.value)
              && r.value == ConfigFold(BLANK, value.entries, v).(domainList := r.value.domainList)
  {
    if !value.Dict? {
      return None;
    }
    var c := BLANK;
    for i := 0 to |value.entries|
      invariant c.domainList == [] && NamedByKey(c.domains)
      invariant ConfigFold(c, value.entries[i..], v) == ConfigFold(BLANK, value.entries, v)
    {
      var e := value.entries[i];
      assert value.entries[i..][0] == e && value.entries[i..][1..] == value.entries[i + 1..];
      if e.1.Dict? {
        DomainsFoldNames(c.domains, e.1.entries, v);
      }
      c := ConfigStep(c, e, v);
    }
    if LacksDefault(c) {
      return None;
    }
    var s := Seal(c, enumerate(c.domains));
    return Some(s);
  }

  // ----- The round trip -----------------------------------------------------------------------

  lemma FoldOfDomainEntry(d: Domain, v: Validators)
    requires NormalDomain(d, v)
    ensures var entries := ListEntry("servers", d.servers) + ListEntry("options", d.options);
            DomainFromDbus(d.name, Dict(entries), v) == Some(d)
  {
    var servers, options := ListEntry("servers", d.servers), ListEntry("options", d.options);
    var d0, d1 := Domain(d.name, None, None), Domain(d.name, d.servers, None);
    assert [] + d.servers.value == d.servers.value;
    CleanupOfClean(d.servers.value, []);
    ValidOfValid(d.servers.value, v.address);
    assert DomainStep(d0, servers[0], v) == d1;
    assert (servers + options)[1..] == options;
    assert DomainFold(d0, servers + options, v) == DomainFold(d1, options, v);
    if d.options.Some? {
      assert [] + d.options.value == d.options.value;
      CleanupOfClean(d.options.value, []);
      assert DomainStep(d1, options[0], v) == d && options[1..] == [];
      assert DomainFold(d1, options, v) == DomainFold(d, [], v);
    } else {
      assert options == [] && d1 == d;
    }
    assert DomainFold(d0, servers + options, v) == d;
  }

  lemma {:induction false} FoldOfDomains(acc: map<string, Domain>, list: seq<string>, domains: map<string, Domain>,
                                         v: Validators)
    requires Elements(list) <= domains.Keys
    requires forall k :: k in domains ==> domains[k].name == k && NormalDomain(domains[k], v)
    requires forall k :: k in acc ==> k in domains && acc[k] == domains[k]
    requires forall k :: k in domains ==> k in acc || k in list
    ensures DomainsFold(acc, DomainEntries(list, domains), v) == domains
    decreases |list|
  {
    if list == [] {
      assert acc.Keys == domains.Keys;
    } else {
      assert list[0] in Elements(list);
      assert Elements(list[1..]) <= Elements(list);
      assert list == [list[0]] + list[1..];
      FoldOfDomainEntry(domains[list[0]], v);
      var entries := DomainEntries(list, domains);
      assert entries[1..] == DomainEntries(list[1..], domains);
      FoldOfDomains(acc[list[0] := domains[list[0]]], list[1..], domains, v);
    }
  }

  lemma FoldOfSearches(c: Config, l: Option<seq<string>>, rest: seq<(string, Variant)>, v: Validators)
    requires NormalList(l, Anything) && c.searches.None?
    ensures ConfigFold(c, ListEntry("searches", l) + rest, v) == ConfigFold(c.(searches := l), rest, v)
  {
    if l.Some? {
      assert [] + l.value == l.value;
      CleanupOfClean(l.value, []);
      FoldOne(c, ("searches", Strv(l.value)), rest, v);
    } else {
      assert [] + rest == rest;
      assert c == c.(searches := l);
    }
  }

  lemma FoldOfOptions(c: Config, l: Option<seq<string>>, rest: seq<(string, Variant)>, v: Validators)
    requires NormalList(l, v.dnsOption) && c.options.None?
    ensures ConfigFold(c, ListEntry("options", l) + rest, v) == ConfigFold(c.(options := l), rest, v)
  {
    if l.Some? {
      assert [] + l.value == l.value;
      CleanupOfClean(l.value, []);
      ValidOfValid(l.value, v.dnsOption);
      FoldOne(c, ("options", Strv(l.value)), rest, v);
    } else {
      assert [] + rest == rest;
      assert c == c.(options := l);
    }
  }

  /** Reading back what was published, before the test for a default domain. */
  lemma FoldOfPublished(c: Config, v: Validators)
    requires Normalised(c, v)
    ensures ConfigFold(BLANK, ToDbus(c).entries, v) == c.(domainList := [], internal := false)
  {
    var s, o := ListEntry("searches", c.searches), ListEntry("options", c.options);
    var d := ("domains", Dict(DomainEntries(c.domainList, c.domains)));
    assert ToDbus(c).entries == s + (o + ([d] + []));
    FoldOfSearches(BLANK, c.searches, o + ([d] + []), v);
    var c1 := BLANK.(searches := c.searches);
    FoldOfOptions(c1, c.options, [d] + [], v);
    var c2 := c1.(options := c.options);
    forall k | k in c.domains ensures k in c.domainList {
      assert k in Elements(c.domainList);
    }
    FoldOfDomains(map[], c.domainList, c.domains, v);
    FoldOne(c2, d, [], v);
  }

  lemma FoldOne(c: Config, e: (string, Variant), rest: seq<(string, Variant)>, v: Validators)
    ensures ConfigFold(c, [e] + rest, v) == ConfigFold(ConfigStep(c, e, v), rest, v)
  {
  }

  /** A configuration as the loader makes it is accepted back exactly when it has a default domain or
      neither searches nor options, and then comes back as it was, only no longer marked internal. */
  method RoundTrip(c: Config, v: Validators, enumerate: map<string, Domain> -> seq<string>) returns (r: Option<Config>)
    requires Normalised(c, v)
    requires forall m :: Distinct(enumerate(m)) && Elements(enumerate(m)) == m.Keys
    ensures r.Some? <==> (c.searches.None? && c.options.None?) || "*" in c.domains
    ensures r.Some? ==> r.value == c.(internal := false)
    ensures r.Some? ==> Cmp(c, r.value, false) == 0
  {
    r := FromDbus(ToDbus(c), v, enumerate);
    FoldOfPublished(c, v);
    if r.Some? {
      IncreasingUnique(c.domainList, r.value.domainList);
      CmpDecidesEquality(c, r.value, false, v);
    }
  }

  /** The refused configurations exist: search domains alone are loaded, but not accepted back. */
  lemma SearchesAloneAreRefused(v: Validators)
    ensures var c := Config(Some(["example.com"]), None, map[], [], false);
            Normalised(c, v) && LacksDefault(ConfigFold(BLANK, ToDbus(c).entries, v))
  {
    var c := Config(Some(["example.com"]), None, map[], [], false);
    FoldOfPublished(c, v);
  }

  /** Domains without a default one are accepted when nothing else is configured, although the
      loader would ignore such a configuration. */
  lemma DomainsAloneAreAccepted(v: Validators)
    requires v.address("192.0.2.1")
    ensures var entry := ("example.com", Dict([("servers", Strv(["192.0.2.1"]))]));
            var c := ConfigFold(BLANK, [("domains", Dict([entry]))], v);
            !LacksDefault(c) && c.domains != map[] && "*" !in c.domains
  {
    var d := Domain("example.com", Some(["192.0.2.1"]), None);
    FoldOfDomainEntry(d, v);
    var entry := ("example.com", Dict([("servers", Strv(["192.0.2.1"]))]));
    assert ListEntry("servers", d.servers) + ListEntry("options", d.options) == [("servers", Strv(["192.0.2.1"]))];
    var m: map<string, Domain> := map["example.com" := d];
    assert DomainsFold(map[], [entry], v) == DomainsFold(m, [entry][1..], v) == m;
    assert "example.com" in m && "*" !in m;
    FoldOne(BLANK, ("domains", Dict([entry])), [], v);
    assert [("domains", Dict([entry]))] + [] == [("domains", Dict([entry]))];
  }

  // ----- Comparing ----------------------------------------------------------------------------

  function OrEmpty(l: Option<seq<string>>): seq<string> { if l.Some? then l.value else [] }

  function DomainCmp(a: Domain, b: Domain): int {
    if StrCmp(a.name, b.name) != 0 then StrCmp(a.name, b.name)
    else if ListCmp(OrEmpty(a.servers), OrEmpty(b.servers)) != 0 then ListCmp(OrEmpty(a.servers), OrEmpty(b.servers))
    else ListCmp(OrEmpty(a.options), OrEmpty(b.options))
  }

  function DomainsCmp(list: seq<string>, a: map<string, Domain>, b: map<string, Domain>): int
    requires Elements(list) <= a.Keys && Elements(list) <= b.Keys
  {
    if list == [] then 0
    else
      assert list[0] in Elements(list);
      assert Elements(list[1..]) <= Elements(list);
      var r := DomainCmp(a[list[0]], b[list[0]]);
      if r != 0 then r else DomainsCmp(list[1..], a, b)
  }

  /** nm_global_dns_config_cmp(). */
  function Cmp(a: Config, b: Config, checkInternal: bool): int
    requires Elements(a.domainList) <= a.domains.Keys && Elements(b.domainList) <= b.domains.Keys
  {
    if ListCmp(OrEmpty(a.searches), OrEmpty(b.searches)) != 0 then ListCmp(OrEmpty(a.searches), OrEmpty(b.searches))
    else if ListCmp(OrEmpty(a.options), OrEmpty(b.options)) != 0 then ListCmp(OrEmpty(a.options), OrEmpty(b.options))
    else if ListCmp(a.domainList, b.domainList) != 0 then ListCmp(a.domainList, b.domainList)
    else
      ListCmpTotal(a.domainList, b.domainList, []);
      var r := DomainsCmp(a.domainList, a.domains, b.domains);
      if r != 0 then r
      else if checkInternal then Compare(if a.internal then 1 else 0, if b.internal then 1 else 0)
      else 0
  }

  lemma DomainCmpTotal(a: Domain, b: Domain, c: Domain)
    ensures DomainCmp(b, a) == -DomainCmp(a, b)
    ensures DomainCmp(a, b) == 0 <==>
              a.name == b.name && OrEmpty(a.servers) == OrEmpty(b.servers) && OrEmpty(a.options) == OrEmpty(b.options)
    ensures DomainCmp(a, b) <= 0 && DomainCmp(b, c) <= 0 ==>
              DomainCmp(a, c) <= 0 && (DomainCmp(a, c) == 0 ==> DomainCmp(a, b) == 0 && DomainCmp(b, c) == 0)
  {
    StrCmpSign(a.name, b.name);
    StrCmpSign(b.name, c.name);
    if StrCmp(a.name, b.name) <= 0 && StrCmp(b.name, c.name) <= 0 {
      StrCmpTransitive(a.name, b.name, c.name);
    }
    ListCmpTotal(OrEmpty(a.servers), OrEmpty(b.servers), OrEmpty(c.servers));
    ListCmpTotal(OrEmpty(b.servers), OrEmpty(c.servers), []);
    ListCmpTotal(OrEmpty(a.options), OrEmpty(b.options), OrEmpty(c.options));
    ListCmpTotal(OrEmpty(b.options), OrEmpty(c.options), []);
  }

  lemma {:induction false} DomainsCmpSign(list: seq<string>, a: map<string, Domain>, b: map<string, Domain>)
    requires Elements(list) <= a.Keys && Elements(list) <= b.Keys
    ensures DomainsCmp(list, b, a) == -DomainsCmp(list, a, b)
    ensures DomainsCmp(list, a, b) == 0 <==> forall k :: k in list ==> DomainCmp(a[k], b[k]) == 0
  {
    if list != [] {
      assert list[0] in Elements(list);
      assert Elements(list[1..]) <= Elements(list);
      assert list == [list[0]] + list[1..];
      DomainCmpTotal(a[list[0]], b[list[0]], b[list[0]]);
      DomainsCmpSign(list[1..], a, b);
    }
  }

  lemma {:induction false} DomainsCmpTransitive(list: seq<string>, a: map<string, Domain>, b: map<string, Domain>,
                                                c: map<string, Domain>)
    requires Elements(list) <= a.Keys && Elements(list) <= b.Keys && Elements(list) <= c.Keys
    requires DomainsCmp(list, a, b) <= 0 && DomainsCmp(list, b, c) <= 0
    ensures DomainsCmp(list, a, c) <= 0
    ensures DomainsCmp(list, a, c) == 0 ==> DomainsCmp(list, a, b) == 0 && DomainsCmp(list, b, c) == 0
  {
    if list != [] {
      var k := list[0];
      assert k in Elements(list);
      assert Elements(list[1..]) <= Elements(list);
      DomainCmpTotal(a[k], b[k], c[k]);
      if DomainCmp(a[k], b[k]) == 0 && DomainCmp(b[k], c[k]) == 0 {
        DomainsCmpTransitive(list[1..], a, b, c);
      }
    }
  }

  /** Only equal configurations compare equal; the internal mark counts if asked for. */
  lemma CmpDecidesEquality(a: Config, b: Config, checkInternal: bool, v: Validators)
    requires Normalised(a, v) && Normalised(b, v)
    ensures Cmp(a, b, checkInternal) == 0 <==> a == b.(internal := if checkInternal then b.internal else a.internal)
    ensures Cmp(b, a, checkInternal) == -Cmp(a, b, checkInternal)
  {
    ListCmpTotal(OrEmpty(a.searches), OrEmpty(b.searches), []);
    ListCmpTotal(OrEmpty(a.options), OrEmpty(b.options), []);
    ListCmpTotal(a.domainList, b.domainList, []);
    if a.domainList == b.domainList {
      DomainsCmpSign(a.domainList, a.domains, b.domains);
      assert a.domains.Keys == b.domains.Keys;
      EqualDomains(a, b, v);
    }
  }

  lemma EqualDomain(a: Domain, b: Domain, v: Validators)
    requires NormalDomain(a, v) && NormalDomain(b, v)
    ensures DomainCmp(a, b) == 0 <==> a == b
  {
    DomainCmpTotal(a, b, b);
  }

  lemma EqualDomains(a: Config, b: Config, v: Validators)
    requires Normalised(a, v) && Normalised(b, v) && a.domainList == b.domainList
    ensures DomainsCmp(a.domainList, a.domains, b.domains) == 0 <==> a.domains == b.domains
  {
    DomainsCmpSign(a.domainList, a.domains, b.domains);
    SameMembers(a.domainList, a.domains.Keys);
    assert a.domains.Keys == b.domains.Keys;
    EqualTables(a.domains, b.domains, v);
  }

  lemma EqualTables(a: map<string, Domain>, b: map<string, Domain>, v: Validators)
    requires a.Keys == b.Keys
    requires forall k :: k in a.Keys ==> NormalDomain(a[k], v) && NormalDomain(b[k], v)
    ensures (forall k :: k in a.Keys ==> DomainCmp(a[k], b[k]) == 0) <==> a == b
  {
    forall k | k in a.Keys ensures DomainCmp(a[k], b[k]) == 0 <==> a[k] == b[k] {
      EqualDomain(a[k], b[k], v);
    }
  }

  lemma SameMembers(list: seq<string>, keys: set<string>)
    requires Elements(list) == keys
    ensures forall k :: k in list <==> k in keys
  {
  }

  /** The comparison is transitive: with the lemma above, a total order. */
  lemma CmpTransitive(a: Config, b: Config, c: Config, checkInternal: bool)
    requires Sealed(a) && Sealed(b) && Sealed(c)
    requires Cmp(a, b, checkInternal) <= 0 && Cmp(b, c, checkInternal) <= 0
    ensures Cmp(a, c, checkInternal) <= 0
  {
    ListCmpTotal(OrEmpty(a.searches), OrEmpty(b.searches), OrEmpty(c.searches));
    ListCmpTotal(OrEmpty(a.options), OrEmpty(b.options), OrEmpty(c.options));
    ListCmpTotal(a.domainList, b.domainList, c.domainList);
    ListCmpTotal(b.domainList, c.domainList, []);
    if a.domainList == b.domainList == c.domainList {
      if DomainsCmp(a.domainList, a.domains, b.domains) <= 0 && DomainsCmp(a.domainList, b.domains, c.domains) <= 0 {
        DomainsCmpTransitive(a.domainList, a.domains, b.domains, c.domains);
      }
    }
  }

  /** global_dns_equal(). */
  predicate SameConfig(a: Config, b: Config) {
    && a.options == b.options && a.searches == b.searches
    && |a.domains| == |b.domains|
    && forall k :: k in a.domains ==>
         k in b.domains && a.domains[k].options == b.domains[k].options && a.domains[k].servers == b.domains[k].servers
  }

  /** The two ways of comparing agree. */
  lemma EqualAgreesWithCmp(a: Config, b: Config, v: Validators)
    requires Normalised(a, v) && Normalised(b, v)
    ensures SameConfig(a, b) <==> Cmp(a, b, false) == 0
  {
    CmpDecidesEquality(a, b, false, v);
    if SameConfig(a, b) {
      SameConfigMeansEqual(a, b);
    }
  }

  lemma SameConfigMeansEqual(a: Config, b: Config)
    requires Sealed(a) && Sealed(b) && SameConfig(a, b)
    ensures a == b.(internal := a.internal)
  {
    SameDomains(a.domains, b.domains);
    IncreasingUnique(a.domainList, b.domainList);
  }

  lemma SameDomains(a: map<string, Domain>, b: map<string, Domain>)
    requires NamedByKey(a) && NamedByKey(b) && |a| == |b|
    requires forall k :: k in a ==> k in b && a[k].options == b[k].options && a[k].servers == b[k].servers
    ensures a == b
  {
    SubsetCount(a.Keys, b.Keys);
    forall k | k in a ensures a[k] == b[k] {
    }
  }

  // ----- Loading ------------------------------------------------------------------------------

  /** A [global-dns-domain-NAME] section. */
  datatype DomainSection = DomainSection(name: string, servers: Option<seq<string>>, options: Option<seq<string>>)

  function LoadList(l: Option<seq<string>>, ok: string -> bool): Option<seq<string>> {
    if l.None? then None else NonEmpty(Valid(Cleanup(l.value, []), ok))
  }

  lemma LoadListNormal(l: Option<seq<string>>, ok: string -> bool)
    ensures NormalList(LoadList(l, ok), ok)
  {
    if l.Some? {
      CleanupCleans(l.value, []);
      ValidKeepsClean(Cleanup(l.value, []), ok);
      var r := Valid(Cleanup(l.value, []), ok);
      forall i | 0 <= i < |r| ensures ok(r[i]) {
        ValidElements(Cleanup(l.value, []), ok, r[i]);
      }
    }
  }

  function LoadDomain(s: DomainSection, v: Validators): Domain {
    Domain(s.name, LoadList(s.servers, v.address), LoadList(s.options, Anything))
  }

  /** The domains of the sections that have a name and a valid server; a later section wins. */
  function LoadDomains(sections: seq<DomainSection>, v: Validators): map<string, Domain> {
    if sections == [] then map[]
    else
      var s, before := sections[|sections| - 1], LoadDomains(sections[..|sections| - 1], v);
      if s.name == "" || LoadDomain(s, v).servers.None? then before else before[s.name := LoadDomain(s, v)]
  }

  /** load_global_dns(): whatever the keyfile says, the result is normalised; it is ignored when there
      are domains but no default one. */
  method Load(present: bool, searches: Option<seq<string>>, options: Option<seq<string>>, sections: seq<DomainSection>,
              internal: bool, v: Validators, enumerate: map<string, Domain> -> seq<string>)
    returns (r: Option<Config>)
    requires forall m :: Distinct(enumerate(m)) && Elements(enumerate(m)) == m.Keys
    ensures r.None? <==> !present || (LoadDomains(sections, v) != map[] && "*" !in LoadDomains(sections, v))
    ensures r.Some? ==>
              && Normalised(r.value, v)
              && r.value == Config(LoadList(searches, Anything), LoadList(options, v.dnsOption),
                                   LoadDomains(sections, v), r.value.domainList, internal)
  {
    if !present {
      return None;
    }
    LoadListNormal(searches, Anything);
    LoadListNormal(options, v.dnsOption);
    var domains, defaultFound := map[], false;
    for i := 0 to |sections|
      invariant domains == LoadDomains(sections[..i], v)
      invariant defaultFound <==> "*" in domains
      invariant forall k :: k in domains ==> domains[k].name == k && NormalDomain(domains[k], v)
    {
      var s := sections[i];
      assert sections[..i + 1][..i] == sections[..i];
      if s.name == "" {
        continue;
      }
      LoadListNormal(s.servers, v.address);
      LoadListNormal(s.options, Anything);
      if LoadDomain(s, v).servers.None? {
        continue;
      }
      domains := domains[s.name := LoadDomain(s, v)];
      if s.name == "*" {
        defaultFound := true;
      }
    }
    assert sections[..|sections|] == sections;
    if !defaultFound && |domains| > 0 {
      return None;
    }
    var c := Config(LoadList(searches, Anything), LoadList(options, v.dnsOption), domains, [], internal);
    var sealed := Seal(c, enumerate(domains));
    return Some(sealed);
  }
}
