/**
 * Configuration sections that apply to matching devices (src/core/nm-config-data.c:1545-1602,
 * 1722-1751, 1802-1893, 1920-1977): each section is indexed by sorted key, the sections are ranked,
 * and a property is taken from the first section that applies.
 */
module MatchSections {
  import opened Common
  import opened Order

  const MATCH_DEVICE := "match-device"
  const STOP_MATCH := "stop-match"
  const ALLOWED_CONNECTIONS := "allowed-connections"

  /** One section: its keys as glib lists them, the values g_key_file_get_string() can decode, the
      match-device specification if there is one, and the stop-match key as a boolean. */
  datatype Section = Section(keys: seq<string>, values: map<string, string>, spec: Option<string>, stopMatch: bool)

  /** The sections in file order. */
  datatype Keyfile = Keyfile(order: seq<string>, sections: map<string, Section>)

  ghost predicate WellFormed(f: Keyfile) {
    && Distinct(f.order) && Elements(f.order) == f.sections.Keys
    && forall g :: g in f.sections ==>
         && f.sections[g].values.Keys <= Elements(f.sections[g].keys)
         && (f.sections[g].spec.Some? <==> MATCH_DEVICE in f.sections[g].keys)
  }

  // ----- The index of one section -------------------------------------------------------------

  datatype Entry = Entry(name: string, value: string)

  predicate Reserved(key: string) { key == STOP_MATCH || key == MATCH_DEVICE }

  ghost predicate Indexed(index: seq<Entry>) {
    forall i, j :: 0 <= i < j < |index| ==> StrCmp(index[i].name, index[j].name) < 0
  }

  /** The index holds exactly the decodable values, except for the two reserved keys. */
  ghost predicate IndexOf(index: seq<Entry>, s: Section) {
    && Indexed(index)
    && (forall e :: e in index <==> Belongs(e, s))
  }

  /** An entry of a section that is not reserved. */
  predicate Belongs(e: Entry, s: Section) {
    !Reserved(e.name) && e.name in s.values && s.values[e.name] == e.value
  }

  /** The loop of _match_section_info_init() over the sorted keys. */
  method BuildIndex(s: Section) returns (index: seq<Entry>)
    requires s.values.Keys <= Elements(s.keys)
    ensures IndexOf(index, s)
  {
    StrLeTotal();
    SortIsSort(s.keys, StrLe);
    var keys := Sort(s.keys, StrLe);
    index := IndexSorted(s, keys);
    forall k | k in s.values ensures k in keys {
      assert k in Elements(s.keys);
      assert k in multiset(s.keys);
    }
  }

  method IndexSorted(s: Section, keys: seq<string>) returns (index: seq<Entry>)
    requires Sorted(keys, StrLe)
    ensures Indexed(index)
    ensures forall e :: e in index <==> Belongs(e, s) && e.name in keys
  {
    index := [];
    for i := 0 to |keys|
      invariant Indexed(index)
      invariant forall e :: e in index <==> Belongs(e, s) && e.name in keys[..i]
    {
      var key := keys[i];
      ghost var seen := keys[..i];
      assert keys[..i + 1] == seen + [key];
      if Reserved(key) {
        continue;
      }
      if |index| > 0 && index[|index| - 1].name == key {
        assert index[|index| - 1] in index;
        continue;
      }
      if key !in s.values {
        continue;
      }
      AppendIndexed(index, seen, keys, i);
      index := index + [Entry(key, s.values[key])];
    }
    assert keys[..|keys|] == keys;
  }

  /** A key that is not the last one indexed is above all of them. */
  lemma AppendIndexed(index: seq<Entry>, seen: seq<string>, keys: seq<string>, i: nat)
    requires i < |keys| && seen == keys[..i] && Sorted(keys, StrLe) && Indexed(index)
    requires forall e :: e in index ==> e.name in seen
    requires index != [] ==> index[|index| - 1].name != keys[i]
    ensures forall j :: 0 <= j < |index| ==> StrCmp(index[j].name, keys[i]) < 0
  {
    if index != [] {
      var last := index[|index| - 1];
      assert last in index;
      var p :| 0 <= p < i && keys[p] == last.name;
      assert StrLe(keys[p], keys[i]);
      StrCmpSign(last.name, keys[i]);
      forall j | 0 <= j < |index| ensures StrCmp(index[j].name, keys[i]) < 0 {
        if j < |index| - 1 {
          StrCmpTransitive(index[j].name, last.name, keys[i]);
        }
      }
    }
  }

  /** nm_array_find_bsearch(): the index of the entry, or the complement of the place where it belongs. */
  method BinarySearch(index: seq<Entry>, needle: string) returns (r: int)
    requires Indexed(index)
    ensures r >= 0 ==> r < |index| && index[r].name == needle
    ensures r < 0 ==>
              && -r - 1 <= |index|
              && (forall i :: 0 <= i < -r - 1 ==> StrCmp(index[i].name, needle) < 0)
              && (forall i :: -r - 1 <= i < |index| ==> StrCmp(index[i].name, needle) > 0)
  {
    var imin, imax := 0, |index| - 1;
    while imin <= imax
      invariant 0 <= imin <= |index| && -1 <= imax < |index| && imin <= imax + 1
      invariant forall i :: 0 <= i < imin ==> StrCmp(index[i].name, needle) < 0
      invariant forall i :: imax < i < |index| ==> StrCmp(index[i].name, needle) > 0
      decreases imax - imin
    {
      var imid := imin + (imax - imin) / 2;
      var cmp := StrCmp(index[imid].name, needle);
      StrCmpSign(index[imid].name, needle);
      if cmp == 0 {
        return imid;
      }
      if cmp < 0 {
        BelowStaysBelow(index, imid, needle);
        imin := imid + 1;
      } else {
        AboveStaysAbove(index, imid, needle);
        imax := imid - 1;
      }
    }
    return -imin - 1;
  }

  lemma BelowStaysBelow(index: seq<Entry>, m: nat, needle: string)
    requires Indexed(index) && m < |index| && StrCmp(index[m].name, needle) < 0
    ensures forall i :: 0 <= i <= m ==> StrCmp(index[i].name, needle) < 0
  {
    forall i | 0 <= i < m ensures StrCmp(index[i].name, needle) < 0 {
      StrCmpTransitive(index[i].name, index[m].name, needle);
    }
  }

  lemma AboveStaysAbove(index: seq<Entry>, m: nat, needle: string)
    requires Indexed(index) && m < |index| && StrCmp(index[m].name, needle) > 0
    ensures forall i :: m <= i < |index| ==> StrCmp(index[i].name, needle) > 0
  {
    StrCmpSign(index[m].name, needle);
    forall i | m < i < |index| ensures StrCmp(index[i].name, needle) > 0 {
      StrCmpTransitive(needle, index[m].name, index[i].name);
      StrCmpSign(index[i].name, needle);
    }
  }

  /** g_key_file_get_string(). */
  function PlainLookup(s: Section, property: string): Option<string> {
    if property in s.values then Some(s.values[property]) else None
  }

  /** What the index knows. */
  function IndexedLookup(s: Section, property: string): Option<string> {
    if Reserved(property) then None else PlainLookup(s, property)
  }

  /** _match_section_info_get_str(): the index gives what the keyfile gives, except for a reserved key
      that is present. */
  method GetStr(index: seq<Entry>, s: Section, property: string) returns (value: Option<string>)
    requires IndexOf(index, s)
    ensures value == IndexedLookup(s, property)
    ensures property in {"stop-match", "match-device"} ==> value == None
    ensures property !in {"stop-match", "match-device"} ==> value == PlainLookup(s, property)
    ensures value == PlainLookup(s, property) <==> !(Reserved(property) && property in s.values)
  {
    var idx := BinarySearch(index, property);
    if idx >= 0 {
      assert index[idx] in index;
      return Some(index[idx].value);
    }
    if !Reserved(property) && property in s.values {
      assert Entry(property, s.values[property]) in index;
      StrCmpSign(property, property);
    }
    return None;
  }

  // ----- The rank of the sections -------------------------------------------------------------

  /** The groups whose name continues after the prefix, in file order. */
  function Named(order: seq<string>, prefix: string): seq<string> {
    if order == [] then []
    else
      var rest := Named(order[..|order| - 1], prefix);
      var g := order[|order| - 1];
      if HasPrefix(g, prefix) && g != prefix then rest + [g] else rest
  }

  ghost predicate Before(order: seq<string>, a: string, b: string) {
    exists p, q :: 0 <= p < q < |order| && order[p] == a && order[q] == b
  }

  lemma {:induction false} NamedElements(order: seq<string>, prefix: string, g: string)
    ensures g in Named(order, prefix) <==> g in order && HasPrefix(g, prefix) && g != prefix
  {
    if order != [] {
      var init := order[..|order| - 1];
      assert order == init + [order[|order| - 1]];
      NamedElements(init, prefix, g);
    }
  }

  lemma BeforeExtends(init: seq<string>, g: string, a: string, b: string)
    requires Before(init, a, b) || (a in init && b == g)
    ensures Before(init + [g], a, b)
  {
    var order := init + [g];
    if Before(init, a, b) {
      var p, q :| 0 <= p < q < |init| && init[p] == a && init[q] == b;
      assert order[p] == a && order[q] == b;
    } else {
      var p :| 0 <= p < |init| && init[p] == a;
      assert order[p] == a && order[|init|] == b;
    }
  }

  lemma {:induction false} NamedInOrder(order: seq<string>, prefix: string, i: nat, j: nat)
    requires i < j < |Named(order, prefix)|
    ensures Before(order, Named(order, prefix)[i], Named(order, prefix)[j])
  {
    var init, g := order[..|order| - 1], order[|order| - 1];
    var n, m := Named(order, prefix), Named(init, prefix);
    assert order == init + [g];
    if j < |m| {
      NamedInOrder(init, prefix, i, j);
    } else {
      assert m[i] in m;
      NamedElements(init, prefix, m[i]);
    }
    BeforeExtends(init, g, n[i], n[j]);
  }

  lemma BeforeDiffers(order: seq<string>, a: string, b: string)
    requires Distinct(order) && Before(order, a, b)
    ensures a != b
  {
  }

  /** Later sections of the file come first, the bare section always last. */
  ghost predicate Outranks(order: seq<string>, prefix: string, a: string, b: string) {
    a != prefix && (b == prefix || Before(order, b, a))
  }

  /** A ranking lists every section with the prefix once, in that order. */
  ghost predicate Ranked(names: seq<string>, order: seq<string>, prefix: string) {
    && Distinct(names)
    && (forall g :: g in names <==> g in order && HasPrefix(g, prefix))
    && (forall i, j :: 0 <= i < j < |names| ==> Outranks(order, prefix, names[i], names[j]))
  }

  function Reversed(s: seq<string>): (r: seq<string>)
    ensures |r| == |s| && forall i :: 0 <= i < |s| ==> r[i] == s[|s| - i - 1]
  {
    seq(|s|, i requires 0 <= i < |s| => s[|s| - i - 1])
  }

  /** The ranking that the construction below arrives at. */
  function Ranking(order: seq<string>, prefix: string): seq<string> {
    Reversed(Named(order, prefix)) + (if prefix in order then [prefix] else [])
  }

  lemma RankingElements(order: seq<string>, prefix: string, g: string)
    ensures g in Ranking(order, prefix) <==> g in order && HasPrefix(g, prefix)
  {
    var n := Named(order, prefix);
    var r := Reversed(n);
    NamedElements(order, prefix, g);
    if g in n {
      var i :| 0 <= i < |n| && n[i] == g;
      assert r[|n| - i - 1] == g;
    }
  }

  lemma RankingInOrder(order: seq<string>, prefix: string, i: nat, j: nat)
    requires Distinct(order) && i < j < |Ranking(order, prefix)|
    ensures var names := Ranking(order, prefix);
            names[i] != names[j] && Outranks(order, prefix, names[i], names[j])
  {
    var n, names := Named(order, prefix), Ranking(order, prefix);
    assert names[i] == n[|n| - i - 1];
    NamedElements(order, prefix, names[i]);
    if j < |n| {
      NamedInOrder(order, prefix, |n| - j - 1, |n| - i - 1);
      BeforeDiffers(order, names[j], names[i]);
    }
  }

  lemma RankingRanks(order: seq<string>, prefix: string)
    requires Distinct(order)
    ensures Ranked(Ranking(order, prefix), order, prefix)
  {
    var names := Ranking(order, prefix);
    forall g ensures g in names <==> g in order && HasPrefix(g, prefix) {
      RankingElements(order, prefix, g);
    }
    forall i, j | 0 <= i < j < |names|
      ensures names[i] != names[j] && Outranks(order, prefix, names[i], names[j])
    {
      RankingInOrder(order, prefix, i, j);
    }
  }

  lemma NamedStep(order: seq<string>, prefix: string, i: nat)
    requires i < |order|
    ensures Named(order[..i + 1], prefix) ==
            Named(order[..i], prefix) + (if HasPrefix(order[i], prefix) && order[i] != prefix then [order[i]] else [])
    ensures prefix in order[..i + 1] <==> prefix in order[..i] || order[i] == prefix
  {
    assert order[..i + 1][..i] == order[..i];
    assert order[..i + 1] == order[..i] + [order[i]];
  }

  /** The filter loop of _match_section_infos_construct(): names with the prefix move to the front of
      the array, the bare section is set aside. */
  method KeepNamed(groups: array<string>, prefix: string) returns (n: nat, bare: bool)
    modifies groups
    ensures n <= groups.Length && groups[..n] == Named(old(groups[..]), prefix)
    ensures bare <==> prefix in old(groups[..])
  {
    ghost var order := groups[..];
    n, bare := 0, false;
    for i := 0 to groups.Length
      invariant n <= i && groups[..n] == Named(order[..i], prefix)
      invariant forall k :: i <= k < groups.Length ==> groups[k] == order[k]
      invariant bare <==> prefix in order[..i]
    {
      NamedStep(order, prefix, i);
      var group := groups[i];
      if HasPrefix(group, prefix) {
        if group == prefix {
          bare := true;
        } else {
          groups[n] := group;
          n := n + 1;
        }
      }
    }
    assert order[..groups.Length] == order;
  }

  datatype Info = Info(name: string, section: Section, index: seq<Entry>)

  ghost predicate InfosFor(infos: seq<Info>, f: Keyfile, prefix: string) {
    && Ranked(Names(infos), f.order, prefix)
    && forall i :: 0 <= i < |infos| ==> InfoFor(infos[i], f)
  }

  function Names(infos: seq<Info>): (r: seq<string>)
    ensures |r| == |infos| && forall i :: 0 <= i < |r| ==> r[i] == infos[i].name
  {
    seq(|infos|, i requires 0 <= i < |infos| => infos[i].name)
  }

  ghost predicate InfoFor(info: Info, f: Keyfile) {
    && info.name in f.sections && info.section == f.sections[info.name]
    && IndexOf(info.index, info.section)
  }

  /** _match_section_info_init(). */
  method Init(f: Keyfile, group: string) returns (info: Info)
    requires WellFormed(f) && group in f.order
    ensures info.name == group && InfoFor(info, f)
  {
    assert group in Elements(f.order);
    var index := BuildIndex(f.sections[group]);
    info := Info(group, f.sections[group], index);
  }

  /** _match_section_infos_construct(). */
  method Construct(f: Keyfile, prefix: string) returns (infos: seq<Info>)
    requires WellFormed(f)
    ensures InfosFor(infos, f, prefix)
  {
    var groups := new string[|f.order|](i requires 0 <= i < |f.order| => f.order[i]);
    assert groups[..] == f.order;
    var n, bare := KeepNamed(groups, prefix);
    RankingRanks(f.order, prefix);
    infos := InitReversed(f, prefix, groups[..n]);
    if bare {
      var info := Init(f, prefix);
      infos := infos + [info];
    }
    assert Names(infos) == Ranking(f.order, prefix);
  }

  method InitReversed(f: Keyfile, ghost prefix: string, groups: seq<string>) returns (infos: seq<Info>)
    requires WellFormed(f) && groups == Named(f.order, prefix)
    ensures Names(infos) == Reversed(groups)
    ensures forall k :: 0 <= k < |infos| ==> InfoFor(infos[k], f)
  {
    infos := [];
    for i := 0 to |groups|
      invariant |infos| == i
      invariant forall k :: 0 <= k < i ==> infos[k].name == groups[|groups| - k - 1] && InfoFor(infos[k], f)
    {
      NamedElements(f.order, prefix, groups[|groups| - i - 1]);
      var info := Init(f, groups[|groups| - i - 1]);
      infos := infos + [info];
    }
  }

  // ----- Looking a property up ----------------------------------------------------------------

  /** Whether a section has a say about a property. */
  predicate Speaks(s: Section, property: string) {
    IndexedLookup(s, property).Some? || s.stopMatch
  }

  /** Whether it has a say for a device: `accepts` tells which specifications hit the device; a section
      without one applies to every device. */
  predicate Applies(f: Keyfile, group: string, property: string, accepts: string -> bool)
    requires group in f.sections
  {
    var s := f.sections[group];
    Speaks(s, property) && (s.spec.Some? ==> accepts(s.spec.value))
  }

  /** The group found is the first of the ranking that applies; there is none only if none applies. */
  ghost predicate FirstApplying(found: Option<string>, f: Keyfile, prefix: string, property: string,
                                accepts: string -> bool)
  {
    match found
    case None =>
      forall g :: g in f.sections && HasPrefix(g, prefix) ==> !Applies(f, g, property, accepts)
    case Some(group) =>
      && group in f.sections && HasPrefix(group, prefix) && Applies(f, group, property, accepts)
      && forall g :: g in f.sections && HasPrefix(g, prefix) && g != group && Applies(f, g, property, accepts) ==>
           Outranks(f.order, prefix, group, g)
  }

  /** _match_section_infos_lookup() on the sections of a keyfile. */
  method Lookup(infos: seq<Info>, ghost f: Keyfile, ghost prefix: string, property: string, accepts: string -> bool)
    returns (found: Option<string>, value: Option<string>)
    requires WellFormed(f) && InfosFor(infos, f, prefix)
    ensures FirstApplying(found, f, prefix, property, accepts)
    ensures value == if found.Some? then IndexedLookup(f.sections[found.value], property) else None
  {
    for i := 0 to |infos|
      invariant forall k :: 0 <= k < i ==> !Applies(f, infos[k].name, property, accepts)
    {
      var m := infos[i];
      value := GetStr(m.index, m.section, property);
      if value.None? && !m.section.stopMatch {
        continue;
      }
      var matches := true;
      if m.section.spec.Some? {
        matches := accepts(m.section.spec.value);
      }
      if matches {
        FoundIsFirst(infos, f, prefix, property, accepts, i);
        return Some(m.name), value;
      }
    }
    forall g | g in f.sections && HasPrefix(g, prefix) ensures !Applies(f, g, property, accepts) {
      var k := RankOf(infos, f, prefix, g);
    }
    return None, None;
  }

  lemma RankOf(infos: seq<Info>, f: Keyfile, prefix: string, g: string) returns (k: nat)
    requires WellFormed(f) && InfosFor(infos, f, prefix) && g in f.sections && HasPrefix(g, prefix)
    ensures k < |infos| && infos[k].name == g
  {
    assert g in Elements(f.order);
    assert g in Names(infos);
    k :| 0 <= k < |infos| && Names(infos)[k] == g;
  }

  lemma FoundIsFirst(infos: seq<Info>, f: Keyfile, prefix: string, property: string, accepts: string -> bool, i: nat)
    requires WellFormed(f) && InfosFor(infos, f, prefix)
    requires i < |infos| && Applies(f, infos[i].name, property, accepts)
    requires forall k :: 0 <= k < i ==> !Applies(f, infos[k].name, property, accepts)
    ensures FirstApplying(Some(infos[i].name), f, prefix, property, accepts)
  {
  }

  // ----- allowed-connections ------------------------------------------------------------------

  /** The section found for allowed-connections is expected to have that key (line 1743). */
  ghost predicate ExpectationMet(f: Keyfile, prefix: string, accepts: string -> bool) {
    forall g :: FirstApplying(Some(g), f, prefix, ALLOWED_CONNECTIONS, accepts) ==>
      ALLOWED_CONNECTIONS in f.sections[g].keys
  }

  /** A stop-match section without the key that some device finds: every higher section that has a
      say is for other devices. */
  ghost predicate Exposed(f: Keyfile, prefix: string, g: string) {
    && g in f.sections && HasPrefix(g, prefix)
    && f.sections[g].stopMatch && ALLOWED_CONNECTIONS !in f.sections[g].keys
    && forall h :: Above(f, prefix, h, g) && Speaks(f.sections[h], ALLOWED_CONNECTIONS) ==>
         f.sections[h].spec.Some? && f.sections[h].spec != f.sections[g].spec
  }

  ghost predicate Above(f: Keyfile, prefix: string, h: string, g: string) {
    h in f.sections && HasPrefix(h, prefix) && h != g && !Outranks(f.order, prefix, g, h)
  }

  /** The device that matches the specification of one section and no other. */
  function Only(spec: Option<string>): string -> bool {
    s => Some(s) == spec
  }

  /** The expectation holds for every device exactly when no stop-match section without the key is
      exposed. A device decides specifications, so sections with the same one match alike. */
  lemma AllowedConnectionsExpectation(f: Keyfile, prefix: string)
    requires WellFormed(f)
    ensures (forall accepts: string -> bool :: ExpectationMet(f, prefix, accepts)) <==>
            forall g :: !Exposed(f, prefix, g)
  {
    forall g | Exposed(f, prefix, g) ensures exists accepts: string -> bool :: !ExpectationMet(f, prefix, accepts) {
      var accepts := Only(f.sections[g].spec);
      assert FirstApplying(Some(g), f, prefix, ALLOWED_CONNECTIONS, accepts);
      assert !ExpectationMet(f, prefix, accepts);
    }
    forall accepts: string -> bool | !ExpectationMet(f, prefix, accepts) ensures exists g :: Exposed(f, prefix, g) {
      var g :| && FirstApplying(Some(g), f, prefix, ALLOWED_CONNECTIONS, accepts)
               && ALLOWED_CONNECTIONS !in f.sections[g].keys;
      assert ALLOWED_CONNECTIONS !in Elements(f.sections[g].keys);
      assert ALLOWED_CONNECTIONS !in f.sections[g].values.Keys;
      forall h | Above(f, prefix, h, g) && Speaks(f.sections[h], ALLOWED_CONNECTIONS)
        ensures f.sections[h].spec.Some? && f.sections[h].spec != f.sections[g].spec
      {
        assert !Applies(f, h, ALLOWED_CONNECTIONS, accepts);
      }
      assert Exposed(f, prefix, g);
    }
  }

  /** One stop-match section is enough to disappoint the expectation. */
  lemma AllowedConnectionsSurprise()
    ensures var s := Section([STOP_MATCH], map[STOP_MATCH := "1"], None, true);
            var f := Keyfile(["device-a"], map["device-a" := s]);
            WellFormed(f) && Exposed(f, "device", "device-a")
  {
  }
}
