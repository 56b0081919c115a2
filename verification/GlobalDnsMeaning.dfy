/**
 * What the global DNS configuration contains for an arbitrary D-Bus value or keyfile, said without the
 * loops that read them (src/core/nm-config-data.c:1160-1302, 1358-1500).
 */
module GlobalDnsMeaning {
  import opened Common
  import opened GlobalDns

  type Entries = seq<(string, Variant)>

  // ----- Reading a D-Bus value ----------------------------------------------------------------

  function ListOf(e: (string, Variant), key: string): seq<seq<string>> {
    if e.0 == key && e.1.Strv? then [e.1.strv] else []
  }

  /** The lists of strings given for a key, in order. */
  function Lists(entries: Entries, key: string): seq<seq<string>> {
    if entries == [] then []
    else Lists(entries[..|entries| - 1], key) + ListOf(entries[|entries| - 1], key)
  }

  /** The last list of which something valid remains, cleaned. */
  function LastUseful(lists: seq<seq<string>>, ok: string -> bool): Option<seq<string>> {
    if lists == [] then None
    else
      var l := Valid(Cleanup(lists[|lists| - 1], []), ok);
      if l != [] then Some(l) else LastUseful(lists[..|lists| - 1], ok)
  }

  /** The last list, cleaned. */
  function LastList(lists: seq<seq<string>>): Option<seq<string>> {
    if lists == [] then None else Some(Cleanup(lists[|lists| - 1], []))
  }

  /** The last list, cleaned, unless nothing remains of it. */
  function OptionsMeant(lists: seq<seq<string>>): Option<seq<string>> {
    if lists == [] then None else NonEmpty(Cleanup(lists[|lists| - 1], []))
  }

  lemma {:induction false} DomainFoldSnoc(d: Domain, entries: Entries, e: (string, Variant), v: Validators)
    ensures DomainFold(d, entries + [e], v) == DomainStep(DomainFold(d, entries, v), e, v)
    decreases |entries|
  {
    if entries == [] {
      assert entries + [e] == [e];
    } else {
      assert (entries + [e])[1..] == entries[1..] + [e];
      DomainFoldSnoc(DomainStep(d, entries[0], v), entries[1..], e, v);
    }
  }

  lemma ListsSnoc(entries: Entries, e: (string, Variant), key: string)
    ensures Lists(entries + [e], key) == Lists(entries, key) + ListOf(e, key)
    ensures !(e.0 == key && e.1.Strv?) ==> Lists(entries + [e], key) == Lists(entries, key)
  {
    assert (entries + [e])[..|entries|] == entries;
  }

  lemma LastOfSnoc(lists: seq<seq<string>>, l: seq<string>, ok: string -> bool)
    ensures LastList(lists + [l]) == Some(Cleanup(l, []))
    ensures var u := Valid(Cleanup(l, []), ok);
            LastUseful(lists + [l], ok) == if u == [] then LastUseful(lists, ok) else Some(u)
  {
    assert (lists + [l])[..|lists|] == lists;
  }

  lemma ServersStepMeans(d: Domain, entries: Entries, e: (string, Variant), v: Validators)
    requires d.servers == LastUseful(Lists(entries, "servers"), v.address)
    ensures DomainStep(d, e, v).servers == LastUseful(Lists(entries + [e], "servers"), v.address)
  {
    ListsSnoc(entries, e, "servers");
    if e.1.Strv? {
      LastOfSnoc(Lists(entries, "servers"), e.1.strv, v.address);
    }
  }

  lemma OptionsStepMeans(d: Domain, entries: Entries, e: (string, Variant), v: Validators)
    requires d.options == OptionsMeant(Lists(entries, "options"))
    ensures DomainStep(d, e, v).options == OptionsMeant(Lists(entries + [e], "options"))
  {
    ListsSnoc(entries, e, "options");
  }

  lemma {:induction false} DomainFoldMeans(name: string, entries: Entries, v: Validators)
    ensures DomainFold(Domain(name, None, None), entries, v).servers == LastUseful(Lists(entries, "servers"), v.address)
    ensures DomainFold(Domain(name, None, None), entries, v).options == OptionsMeant(Lists(entries, "options"))
  {
    if entries != [] {
      var init, e := entries[..|entries| - 1], entries[|entries| - 1];
      assert entries == init + [e];
      DomainFoldMeans(name, init, v);
      DomainFoldSnoc(Domain(name, None, None), init, e, v);
      ServersStepMeans(DomainFold(Domain(name, None, None), init, v), init, e, v);
      OptionsStepMeans(DomainFold(Domain(name, None, None), init, v), init, e, v);
    }
  }

  /** A domain is accepted if it lists a valid server; the last list that does counts. */
  ghost function DomainMeant(name: string, variant: Variant, v: Validators): Option<Domain> {
    if !variant.Dict? || LastUseful(Lists(variant.entries, "servers"), v.address).None? then None
    else
      Some(Domain(name, LastUseful(Lists(variant.entries, "servers"), v.address),
                  OptionsMeant(Lists(variant.entries, "options"))))
  }

  lemma DomainFromDbusMeans(name: string, variant: Variant, v: Validators)
    ensures DomainFromDbus(name, variant, v) == DomainMeant(name, variant, v)
  {
    if variant.Dict? {
      DomainFoldMeans(name, variant.entries, v);
    }
  }

  /** Everything listed under "domains". */
  function Subentries(entries: Entries): Entries {
    if entries == [] then []
    else
      var e := entries[|entries| - 1];
      Subentries(entries[..|entries| - 1]) + if e.0 == "domains" && e.1.Dict? then e.1.entries else []
  }

  lemma {:induction false} DomainsFoldConcat(domains: map<string, Domain>, a: Entries, b: Entries, v: Validators)
    ensures DomainsFold(domains, a + b, v) == DomainsFold(DomainsFold(domains, a, v), b, v)
    decreases |a|
  {
    if a == [] {
      assert a + b == b;
    } else {
      assert (a + b)[1..] == a[1..] + b;
      var d := DomainFromDbus(a[0].0, a[0].1, v);
      DomainsFoldConcat(if d.Some? then domains[a[0].0 := d.value] else domains, a[1..], b, v);
    }
  }

  /** The last accepted entry of a name. */
  ghost predicate IsLastAccepted(subs: Entries, name: string, j: nat, v: Validators) {
    && j < |subs| && subs[j].0 == name && DomainMeant(name, subs[j].1, v).Some?
    && forall k :: j < k < |subs| && subs[k].0 == name ==> DomainMeant(name, subs[k].1, v).None?
  }

  /** The table holds, for every name, what its last accepted entry says. */
  ghost predicate SaysDomains(domains: map<string, Domain>, subs: Entries, v: Validators) {
    && (forall name :: name in domains ==> exists j: nat :: IsLastAccepted(subs, name, j, v))
    && (forall name, j: nat :: IsLastAccepted(subs, name, j, v) ==>
          name in domains && Some(domains[name]) == DomainMeant(name, subs[j].1, v))
  }

  lemma LastAcceptedSnoc(subs: Entries, e: (string, Variant), name: string, j: nat, v: Validators)
    ensures j < |subs| ==>
              (IsLastAccepted(subs + [e], name, j, v) <==>
                 IsLastAccepted(subs, name, j, v) && !(e.0 == name && DomainMeant(name, e.1, v).Some?))
    ensures IsLastAccepted(subs + [e], name, |subs|, v) <==> e.0 == name && DomainMeant(name, e.1, v).Some?
  {
    var all := subs + [e];
    assert all[|subs|] == e && forall i :: 0 <= i < |subs| ==> all[i] == subs[i];
    if j < |subs| && IsLastAccepted(all, name, j, v) {
      assert all[|subs|].0 == name ==> DomainMeant(name, all[|subs|].1, v).None?;
    }
  }

  lemma SaysDomainsSnoc(domains: map<string, Domain>, domains': map<string, Domain>, subs: Entries,
                        e: (string, Variant), v: Validators)
    requires SaysDomains(domains, subs, v)
    requires var d := DomainMeant(e.0, e.1, v); domains' == if d.Some? then domains[e.0 := d.value] else domains
    ensures SaysDomains(domains', subs + [e], v)
  {
    forall name | name in domains' ensures exists j: nat :: IsLastAccepted(subs + [e], name, j, v) {
      AcceptedSomewhere(domains, subs, e, name, v);
    }
    forall name, j: nat | IsLastAccepted(subs + [e], name, j, v)
      ensures name in domains' && Some(domains'[name]) == DomainMeant(name, (subs + [e])[j].1, v)
    {
      LastAcceptedSnoc(subs, e, name, j, v);
    }
  }

  lemma AcceptedSomewhere(domains: map<string, Domain>, subs: Entries, e: (string, Variant), name: string,
                          v: Validators)
    requires SaysDomains(domains, subs, v)
    requires name in domains || (e.0 == name && DomainMeant(name, e.1, v).Some?)
    ensures exists j: nat :: IsLastAccepted(subs + [e], name, j, v)
  {
    if e.0 == name && DomainMeant(name, e.1, v).Some? {
      LastAcceptedSnoc(subs, e, name, 0, v);
    } else {
      var j: nat :| IsLastAccepted(subs, name, j, v);
      LastAcceptedSnoc(subs, e, name, j, v);
    }
  }

  lemma {:induction false} DomainsFoldMeans(subs: Entries, v: Validators)
    ensures SaysDomains(DomainsFold(map[], subs, v), subs, v)
  {
    if subs != [] {
      var init, e := subs[..|subs| - 1], subs[|subs| - 1];
      assert subs == init + [e];
      DomainsFoldMeans(init, v);
      DomainsFoldConcat(map[], init, [e], v);
      DomainFromDbusMeans(e.0, e.1, v);
      assert [e][1..] == [];
      SaysDomainsSnoc(DomainsFold(map[], init, v), DomainsFold(map[], subs, v), init, e, v);
    }
  }

  lemma {:induction false} ConfigFoldSnoc(c: Config, entries: Entries, e: (string, Variant), v: Validators)
    ensures ConfigFold(c, entries + [e], v) == ConfigStep(ConfigFold(c, entries, v), e, v)
    decreases |entries|
  {
    if entries == [] {
      assert entries + [e] == [e];
    } else {
      assert (entries + [e])[1..] == entries[1..] + [e];
      ConfigFoldSnoc(ConfigStep(c, entries[0], v), entries[1..], e, v);
    }
  }

  lemma SubentriesSnoc(entries: Entries, e: (string, Variant))
    ensures Subentries(entries + [e]) ==
            Subentries(entries) + if e.0 == "domains" && e.1.Dict? then e.1.entries else []
  {
    assert (entries + [e])[..|entries|] == entries;
  }

  lemma ListsStepMeans(c: Config, entries: Entries, e: (string, Variant), v: Validators)
    requires c.searches == LastList(Lists(entries, "searches"))
    requires c.options == LastUseful(Lists(entries, "options"), v.dnsOption)
    ensures ConfigStep(c, e, v).searches == LastList(Lists(entries + [e], "searches"))
    ensures ConfigStep(c, e, v).options == LastUseful(Lists(entries + [e], "options"), v.dnsOption)
  {
    ListsSnoc(entries, e, "searches");
    ListsSnoc(entries, e, "options");
    if e.1.Strv? {
      LastOfSnoc(Lists(entries, "searches"), e.1.strv, v.dnsOption);
      LastOfSnoc(Lists(entries, "options"), e.1.strv, v.dnsOption);
    }
  }

  lemma DomainsStepMeans(c: Config, entries: Entries, e: (string, Variant), v: Validators)
    requires c.domains == DomainsFold(map[], Subentries(entries), v)
    ensures ConfigStep(c, e, v).domains == DomainsFold(map[], Subentries(entries + [e]), v)
  {
    var subs := Subentries(entries);
    SubentriesSnoc(entries, e);
    if e.0 == "domains" && e.1.Dict? {
      DomainsFoldConcat(map[], subs, e.1.entries, v);
      assert ConfigStep(c, e, v).domains == DomainsFold(c.domains, e.1.entries, v);
    } else {
      assert Subentries(entries + [e]) == subs;
      assert ConfigStep(c, e, v).domains == c.domains;
    }
  }

  lemma {:induction false} ConfigFoldMeans(entries: Entries, v: Validators)
    ensures var c := ConfigFold(BLANK, entries, v);
            && c.searches == LastList(Lists(entries, "searches"))
            && c.options == LastUseful(Lists(entries, "options"), v.dnsOption)
            && c.domains == DomainsFold(map[], Subentries(entries), v)
            && !c.internal
  {
    if entries != [] {
      var init, e := entries[..|entries| - 1], entries[|entries| - 1];
      assert entries == init + [e];
      ConfigFoldMeans(init, v);
      ConfigFoldSnoc(BLANK, init, e, v);
      var before := ConfigFold(BLANK, init, v);
      assert ConfigFold(BLANK, entries, v) == ConfigStep(before, e, v);
      ListsStepMeans(before, init, e, v);
      DomainsStepMeans(before, init, e, v);
    }
  }

  /** What a D-Bus value with these entries means, with repeated and malformed entries of any kind: the
      last list of searches counts even if it is empty, the last list of options only if something valid
      is in it, and of each domain the last entry with a valid server. */
  lemma AcceptedMeans(entries: Entries, v: Validators)
    ensures var c := ConfigFold(BLANK, entries, v);
            && c.searches == LastList(Lists(entries, "searches"))
            && c.options == LastUseful(Lists(entries, "options"), v.dnsOption)
            && SaysDomains(c.domains, Subentries(entries), v)
            && !c.internal
  {
    ConfigFoldMeans(entries, v);
    DomainsFoldMeans(Subentries(entries), v);
  }

  // ----- Reading a keyfile --------------------------------------------------------------------

  /** A loaded list holds exactly the valid strings that are not blank, stripped; it is absent if there are
      none. */
  lemma LoadListMeans(l: seq<string>, ok: string -> bool, x: string)
    ensures LoadList(Some(l), ok).Some? && x in LoadList(Some(l), ok).value <==>
            ok(x) && x != "" && exists i :: 0 <= i < |l| && Strip(l[i]) == x
    ensures LoadList(None, ok) == None && LoadList(Some(l), ok) != Some([])
  {
    CleanupElements(l, [], x);
    ValidElements(Cleanup(l, []), ok, x);
  }

  /** The section names a domain and has a valid server. */
  ghost predicate Loads(s: DomainSection, v: Validators) {
    s.name != "" && LoadList(s.servers, v.address).Some?
  }

  ghost predicate IsLastLoaded(sections: seq<DomainSection>, name: string, j: nat, v: Validators) {
    && j < |sections| && sections[j].name == name && Loads(sections[j], v)
    && forall k :: j < k < |sections| && sections[k].name == name ==> !Loads(sections[k], v)
  }

  lemma LastLoadedSnoc(sections: seq<DomainSection>, s: DomainSection, name: string, j: nat, v: Validators)
    ensures j < |sections| ==>
              (IsLastLoaded(sections + [s], name, j, v) <==>
                 IsLastLoaded(sections, name, j, v) && !(s.name == name && Loads(s, v)))
    ensures IsLastLoaded(sections + [s], name, |sections|, v) <==> s.name == name && Loads(s, v)
  {
    var all := sections + [s];
    assert all[|sections|] == s && forall i :: 0 <= i < |sections| ==> all[i] == sections[i];
    if j < |sections| && IsLastLoaded(all, name, j, v) {
      assert all[|sections|].name == name ==> !Loads(all[|sections|], v);
    }
  }

  lemma LoadDomainsSnoc(sections: seq<DomainSection>, s: DomainSection, v: Validators)
    ensures LoadDomains(sections + [s], v) ==
            if Loads(s, v) then LoadDomains(sections, v)[s.name := LoadDomain(s, v)] else LoadDomains(sections, v)
  {
    assert (sections + [s])[..|sections|] == sections;
  }

  /** Of the sections for a domain the last one with a valid server counts, and without one there is no
      such domain. */
  lemma {:induction false} LoadDomainsMeans(sections: seq<DomainSection>, name: string, v: Validators)
    ensures name in LoadDomains(sections, v) ==> exists j: nat :: IsLastLoaded(sections, name, j, v)
    ensures forall j: nat :: IsLastLoaded(sections, name, j, v) ==>
              && name in LoadDomains(sections, v)
              && LoadDomains(sections, v)[name] ==
                   Domain(name, LoadList(sections[j].servers, v.address), LoadList(sections[j].options, Anything))
  {
    if sections != [] {
      var init, s := sections[..|sections| - 1], sections[|sections| - 1];
      assert sections == init + [s];
      LoadDomainsMeans(init, name, v);
      LoadDomainsSnoc(init, s, v);
      forall j: nat ensures j < |init| ==> (IsLastLoaded(sections, name, j, v) <==>
                              IsLastLoaded(init, name, j, v) && !(s.name == name && Loads(s, v)))
        ensures IsLastLoaded(sections, name, |init|, v) <==> s.name == name && Loads(s, v)
      {
        LastLoadedSnoc(init, s, name, j, v);
      }
    }
  }
}
