/**
 * Overlaying the user's configuration with the internal one (src/core/nm-config-data.c:567-677;
 * src/libnm-core-impl/nm-keyfile-utils.c:359-384). The internal keyfile lists changes made at
 * runtime: values that replace the user's, tombstones for values that were removed, and sections that
 * replace the user's section as a whole.
 */
module KeyfileMerge {
  import opened Common

  type Group = map<string, string>

  /** A GKeyFile, without the order of its groups and keys. */
  type Keyfile = map<string, Group>

  const INTERN_PREFIX := ".intern."
  const ATOMIC_MARKER := ".was"
  const WAS_PREFIX := ".was."
  const SET_PREFIX := ".set."

  predicate HasPrefixWithMore(s: string, prefix: string) {
    |s| > |prefix| && HasPrefix(s, prefix)
  }

  function Get(f: Keyfile, group: string, key: string): Option<string> {
    if group in f && key in f[group] then Some(f[group][key]) else None
  }

  /** g_key_file_set_value(). */
  function Put(f: Keyfile, group: string, key: string, value: string): Keyfile {
    f[group := (if group in f then f[group] else map[])[key := value]]
  }

  /** g_key_file_remove_key(): the group stays, even when it becomes empty. */
  function Drop(f: Keyfile, group: string, key: string): Keyfile {
    if group in f then f[group := f[group] - {key}] else f
  }

  /** How a group of the internal keyfile acts on the user's. */
  datatype Mode = Raw | Atomic | Plain

  function ModeOf(intern: Keyfile, group: string): Mode {
    if HasPrefix(group, INTERN_PREFIX) then Raw
    else if group in intern && ATOMIC_MARKER in intern[group] then Atomic
    else Plain
  }

  /** Which keys of an internal group are values to be set. */
  predicate IsValue(mode: Mode, key: string) {
    match mode
    case Raw => true
    case Atomic => key != ATOMIC_MARKER
    case Plain => !HasPrefixWithMore(key, WAS_PREFIX) && !HasPrefixWithMore(key, SET_PREFIX)
  }

  /** The keys that say that a user's value is gone. */
  ghost predicate Buried(mode: Mode, keys: set<string>, over: Group, key: string) {
    mode == Plain && key != "" && key !in over && WAS_PREFIX + key in keys
  }

  // ----- The meaning of the merge -------------------------------------------------------------

  /** The merged value of one key. */
  ghost function MergedValue(user: Keyfile, intern: Keyfile, group: string, key: string): Option<string> {
    if group !in intern then Get(user, group, key)
    else
      var mode, over := ModeOf(intern, group), intern[group];
      if key in over && IsValue(mode, key) then Some(over[key])
      else if mode == Atomic || Buried(mode, over.Keys, over, key) then None
      else Get(user, group, key)
  }

  predicate HasKeys(f: Keyfile, group: string) {
    group in f && f[group] != map[]
  }

  /** A keyfile without the groups that have no keys. */
  function WithKeys(f: Keyfile): Keyfile {
    map g | g in f && f[g] != map[] :: f[g]
  }

  /** Whether the merged keyfile has a group. A group of the user without keys does not make it. */
  ghost predicate MergedHasGroup(user: Keyfile, intern: Keyfile, group: string) {
    || (HasKeys(user, group) && ModeOf(intern, group) != Atomic)
    || (group in intern && exists key :: key in intern[group] && IsValue(ModeOf(intern, group), key))
  }

  /** The keyfile that means the merge of two others. */
  ghost predicate IsMerge(f: Keyfile, user: Keyfile, intern: Keyfile) {
    && (forall g :: g in f <==> MergedHasGroup(user, intern, g))
    && (forall g, k :: Get(f, g, k) == MergedValue(user, intern, g, k))
  }

  /** Keyfiles with the same groups and values are the same. */
  lemma SameKeyfile(a: Keyfile, b: Keyfile)
    requires forall g :: g in a <==> g in b
    requires forall g, k :: Get(a, g, k) == Get(b, g, k)
    ensures a == b
  {
    forall g | g in a ensures a[g] == b[g] {
      forall k ensures k in a[g] <==> k in b[g] {
        assert Get(a, g, k) == Get(b, g, k);
      }
      forall k | k in a[g] ensures a[g][k] == b[g][k] {
        assert Get(a, g, k) == Get(b, g, k);
      }
    }
  }

  /** There is only one merge, in whatever order groups and keys are visited. */
  lemma MergeIsUnique(a: Keyfile, b: Keyfile, user: Keyfile, intern: Keyfile)
    requires IsMerge(a, user, intern) && IsMerge(b, user, intern)
    ensures a == b
  {
    SameKeyfile(a, b);
  }

  /** The key is long enough and starts like a tombstone or like a shadowed value. */
  predicate IsMark(key: string) {
    |key| > 5 && (key[..5] == ".was." || key[..5] == ".set.")
  }

  /** What becomes of each key, for every kind of group. */
  lemma KeyMeans(f: Keyfile, user: Keyfile, intern: Keyfile, group: string, key: string)
    requires IsMerge(f, user, intern) && group in intern
    ensures var raw := |group| >= 8 && group[..8] == ".intern.";
            var merged, mine, over := Get(f, group, key), Get(user, group, key), intern[group];
            if raw then merged == if key in over then Some(over[key]) else mine
            else if ".was" in over then merged == if key in over && key != ".was" then Some(over[key]) else None
            else if key in over then merged == if IsMark(key) then mine else Some(over[key])
            else merged == if key != "" && ".was." + key in over then None else mine
  {
    assert Get(f, group, key) == MergedValue(user, intern, group, key);
  }

  /** An atomic group is the internal group without its marker, whatever the user configured; it is
      missing when the marker was all there was. */
  lemma AtomicGroupReplacesUsers(f: Keyfile, user: Keyfile, intern: Keyfile, group: string)
    requires IsMerge(f, user, intern) && group in intern && ModeOf(intern, group) == Atomic
    ensures group in f <==> intern[group] - {ATOMIC_MARKER} != map[]
    ensures group in f ==> f[group] == intern[group] - {ATOMIC_MARKER}
  {
    var over := intern[group] - {ATOMIC_MARKER};
    if over != map[] {
      var k :| k in over;
      assert k in intern[group] && IsValue(Atomic, k);
    }
    if group in f {
      var k :| k in intern[group] && IsValue(Atomic, k);
      assert k in over;
      forall k ensures k in f[group] <==> k in over {
        assert Get(f, group, k) == MergedValue(user, intern, group, k);
      }
      forall k | k in over ensures f[group][k] == over[k] {
        assert Get(f, group, k) == MergedValue(user, intern, group, k);
      }
    }
  }

  /** The tombstones bury every key the user has in a group, and nothing replaces them. */
  ghost predicate Emptied(user: Keyfile, intern: Keyfile, group: string) {
    && HasKeys(user, group) && group in intern && ModeOf(intern, group) == Plain
    && (forall k :: k in user[group] ==> Buried(Plain, intern[group].Keys, intern[group], k))
    && (forall k :: k in intern[group] ==> !IsValue(Plain, k))
  }

  /** Such a group stays in the merged keyfile, without keys; no other group there lacks keys. */
  lemma EmptiedExactlyWhen(f: Keyfile, user: Keyfile, intern: Keyfile, group: string)
    requires IsMerge(f, user, intern)
    ensures group in f && f[group] == map[] <==> Emptied(user, intern, group)
  {
    if Emptied(user, intern, group) {
      forall k ensures k !in f[group] {
        assert Get(f, group, k) == MergedValue(user, intern, group, k);
      }
      assert f[group] == map[];
    }
    if group in f && f[group] == map[] {
      NoKeysMeansEmptied(f, user, intern, group);
    }
  }

  lemma NoKeysMeansEmptied(f: Keyfile, user: Keyfile, intern: Keyfile, group: string)
    requires IsMerge(f, user, intern) && group in f && f[group] == map[]
    ensures Emptied(user, intern, group)
  {
    forall k ensures MergedValue(user, intern, group, k) == None {
      assert Get(f, group, k) == MergedValue(user, intern, group, k);
    }
    if group in intern {
      forall k | k in intern[group] ensures !IsValue(ModeOf(intern, group), k) {
        assert MergedValue(user, intern, group, k) == None;
      }
    }
    assert HasKeys(user, group);
    forall k | k in user[group]
      ensures group in intern && Buried(ModeOf(intern, group), intern[group].Keys, intern[group], k)
    {
      assert MergedValue(user, intern, group, k) == None;
    }
    var k :| k in user[group];
  }

  /** Merging the same internal configuration again changes no value. It drops the groups that the
      tombstones emptied, so it changes nothing exactly when there are none. */
  lemma MergeIsIdempotent(f: Keyfile, g: Keyfile, user: Keyfile, intern: Keyfile)
    requires IsMerge(f, user, intern) && IsMerge(g, f, intern)
    ensures g == WithKeys(f)
    ensures f == g <==> forall group :: !Emptied(user, intern, group)
  {
    forall s, k ensures Get(g, s, k) == Get(f, s, k) {
      assert Get(g, s, k) == MergedValue(f, intern, s, k);
      assert Get(f, s, k) == MergedValue(user, intern, s, k);
    }
    forall s ensures s in g <==> HasKeys(f, s) {
      SecondMergeHasGroup(f, g, user, intern, s);
    }
    SameKeyfile(g, WithKeys(f));
    forall group ensures group in f && f[group] == map[] <==> Emptied(user, intern, group) {
      EmptiedExactlyWhen(f, user, intern, group);
    }
    assert f == WithKeys(f) <==> forall group :: group in f ==> f[group] != map[];
  }

  lemma SecondMergeHasGroup(f: Keyfile, g: Keyfile, user: Keyfile, intern: Keyfile, s: string)
    requires IsMerge(f, user, intern) && IsMerge(g, f, intern)
    ensures s in g <==> HasKeys(f, s)
  {
    if s in intern && exists key :: key in intern[s] && IsValue(ModeOf(intern, s), key) {
      var key :| key in intern[s] && IsValue(ModeOf(intern, s), key);
      assert Get(f, s, key) == MergedValue(user, intern, s, key) == Some(intern[s][key]);
    } else if HasKeys(f, s) {
      assert ModeOf(intern, s) == Atomic ==> !MergedHasGroup(user, intern, s);
    }
  }

  /** One tombstone for the only key of a section is enough. */
  lemma SecondMergeDropsGroup(f: Keyfile, g: Keyfile)
    requires IsMerge(f, map["a" := map["k" := "v"]], map["a" := map[".was.k" := "x"]])
    requires IsMerge(g, f, map["a" := map[".was.k" := "x"]])
    ensures "a" in f && "a" !in g
  {
    var user, intern := map["a" := map["k" := "v"]], map["a" := map[".was.k" := "x"]];
    assert WAS_PREFIX + "k" == ".was.k";
    assert HasPrefixWithMore(".was.k", WAS_PREFIX) by {
      assert ".was.k"[..|WAS_PREFIX|] == WAS_PREFIX;
    }
    assert "k" in user["a"] && |"a"| < |INTERN_PREFIX| && |".was.k"| != |ATOMIC_MARKER|;
    assert ModeOf(intern, "a") == Plain;
    assert forall k :: k in intern["a"] ==> k == ".was.k";
    assert Emptied(user, intern, "a");
    MergeIsIdempotent(f, g, user, intern);
    EmptiedExactlyWhen(f, user, intern, "a");
  }

  // ----- The merge ----------------------------------------------------------------------------

  /** The order in which glib lists the groups of a keyfile and the keys of each group. */
  datatype Enumeration = Enumeration(groups: seq<string>, keys: map<string, seq<string>>)

  ghost predicate Enumerates(e: Enumeration, f: Keyfile) {
    && Elements(e.groups) == f.Keys
    && (forall g :: g in f ==> g in e.keys && Elements(e.keys[g]) == f[g].Keys)
  }

  /** The value of a key in a group some of whose internal keys were visited. */
  ghost function PartialValue(base: Keyfile, mode: Mode, over: Group, visited: set<string>, group: string, key: string)
    : Option<string>
    requires visited <= over.Keys
  {
    if key in visited && IsValue(mode, key) then Some(over[key])
    else if Buried(mode, visited, over, key) then None
    else Get(base, group, key)
  }

  ghost predicate PartialGroup(f: Keyfile, base: Keyfile, mode: Mode, over: Group, visited: set<string>, group: string)
    requires visited <= over.Keys
  {
    && (group in f <==> group in base || exists k :: k in visited && IsValue(mode, k))
    && (forall k :: Get(f, group, k) == PartialValue(base, mode, over, visited, group, k))
  }

  ghost predicate OthersUnchanged(f: Keyfile, base: Keyfile, group: string) {
    forall g :: g != group ==> (g in f <==> g in base) && (g in f ==> f[g] == base[g])
  }

  lemma VisitValue(f: Keyfile, base: Keyfile, mode: Mode, over: Group, visited: set<string>, group: string, key: string)
    requires visited <= over.Keys && key in over && IsValue(mode, key)
    requires PartialGroup(f, base, mode, over, visited, group)
    ensures PartialGroup(Put(f, group, key, over[key]), base, mode, over, visited + {key}, group)
  {
    var f' := Put(f, group, key, over[key]);
    assert key in visited + {key};
    forall k ensures Get(f', group, k) == PartialValue(base, mode, over, visited + {key}, group, k) {
      assert Get(f, group, k) == PartialValue(base, mode, over, visited, group, k);
      WasKey(key, k);
    }
  }

  lemma VisitOther(f: Keyfile, f': Keyfile, base: Keyfile, mode: Mode, over: Group, visited: set<string>, group: string,
                   key: string)
    requires visited <= over.Keys && key in over && !IsValue(mode, key)
    requires PartialGroup(f, base, mode, over, visited, group)
    requires f' == if mode == Plain && HasPrefixWithMore(key, WAS_PREFIX) && key[|WAS_PREFIX|..] !in over
                   then Drop(f, group, key[|WAS_PREFIX|..]) else f
    ensures PartialGroup(f', base, mode, over, visited + {key}, group)
  {
    forall k ensures Get(f', group, k) == PartialValue(base, mode, over, visited + {key}, group, k) {
      assert Get(f, group, k) == PartialValue(base, mode, over, visited, group, k);
      WasKey(key, k);
    }
    forall k ensures k in visited + {key} && IsValue(mode, k) <==> k in visited && IsValue(mode, k) {
    }
  }

  lemma WasKey(key: string, k: string)
    ensures key == WAS_PREFIX + k && k != "" <==> HasPrefixWithMore(key, WAS_PREFIX) && key[|WAS_PREFIX|..] == k
  {
  }

  /** What one key of an internal group does. */
  function VisitKey(f: Keyfile, mode: Mode, over: Group, group: string, key: string): Keyfile
    requires key in over
  {
    if IsValue(mode, key) then Put(f, group, key, over[key])
    else if mode == Plain && HasPrefixWithMore(key, WAS_PREFIX) && key[|WAS_PREFIX|..] !in over
    then Drop(f, group, key[|WAS_PREFIX|..])
    else f
  }

  lemma VisitKeeps(f: Keyfile, start: Keyfile, base: Keyfile, mode: Mode, over: Group, visited: set<string>,
                   group: string, key: string)
    requires visited <= over.Keys && key in over && OthersUnchanged(f, start, group)
    requires PartialGroup(f, base, mode, over, visited, group)
    ensures OthersUnchanged(VisitKey(f, mode, over, group, key), start, group)
    ensures PartialGroup(VisitKey(f, mode, over, group, key), base, mode, over, visited + {key}, group)
  {
    if IsValue(mode, key) {
      VisitValue(f, base, mode, over, visited, group, key);
    } else {
      VisitOther(f, VisitKey(f, mode, over, group, key), base, mode, over, visited, group, key);
    }
  }

  /** The body of the inner loop. */
  method MergeKey(f: Keyfile, over: Group, group: string, key: string, isIntern: bool, isAtomic: bool)
    returns (r: Keyfile)
    requires key in over && !(isIntern && isAtomic)
    ensures r == VisitKey(f, if isIntern then Raw else if isAtomic then Atomic else Plain, over, group, key)
  {
    if isAtomic && key == ATOMIC_MARKER {
      return f;
    }
    if !isIntern && !isAtomic && HasPrefixWithMore(key, WAS_PREFIX) {
      var keyBase := key[|WAS_PREFIX|..];
      return if keyBase !in over then Drop(f, group, keyBase) else f;
    }
    if !isIntern && !isAtomic && HasPrefixWithMore(key, SET_PREFIX) {
      return f;
    }
    return Put(f, group, key, over[key]);
  }

  /** The inner loop of _merge_keyfiles(): one group. */
  method MergeGroup(f: Keyfile, intern: Keyfile, group: string, keys: seq<string>) returns (r: Keyfile)
    requires group in intern && Elements(keys) == intern[group].Keys
    ensures var mode := ModeOf(intern, group);
            var base := if mode == Atomic then f - {group} else f;
            && OthersUnchanged(r, f, group)
            && PartialGroup(r, base, mode, intern[group], intern[group].Keys, group)
  {
    var over := intern[group];
    ghost var mode := ModeOf(intern, group);
    var isIntern, isAtomic := HasPrefix(group, INTERN_PREFIX), false;
    r := f;
    if !isIntern && ATOMIC_MARKER in over {
      r := r - {group};
      isAtomic := true;
    }
    ghost var base := r;
    for j := 0 to |keys|
      invariant Elements(keys[..j]) <= over.Keys
      invariant OthersUnchanged(r, f, group)
      invariant PartialGroup(r, base, mode, over, Elements(keys[..j]), group)
    {
      assert keys[j] in Elements(keys);
      assert Elements(keys[..j + 1]) == Elements(keys[..j]) + {keys[j]};
      VisitKeeps(r, f, base, mode, over, Elements(keys[..j]), group, keys[j]);
      r := MergeKey(r, over, group, keys[j], isIntern, isAtomic);
    }
    assert keys[..|keys|] == keys;
  }

  /** One group, as merged or as the user has it. */
  ghost predicate GroupDone(f: Keyfile, user: Keyfile, intern: Keyfile, g: string) {
    && (g in f <==> MergedHasGroup(user, intern, g))
    && (forall k :: Get(f, g, k) == MergedValue(user, intern, g, k))
  }

  /** The groups visited are merged, the others are the user's. */
  ghost predicate Visited(f: Keyfile, user: Keyfile, intern: Keyfile, groups: seq<string>) {
    && (forall g :: g in groups ==> GroupDone(f, user, intern, g))
    && (forall g :: g !in groups ==> (g in f <==> g in user) && (g in f ==> f[g] == user[g]))
  }

  lemma VisitGroup(r: Keyfile, f: Keyfile, user: Keyfile, intern: Keyfile, groups: seq<string>, group: string)
    requires forall g :: g in user ==> user[g] != map[]
    requires group in intern && Visited(f, user, intern, groups) && OthersUnchanged(r, f, group)
    requires var mode := ModeOf(intern, group);
             PartialGroup(r, if mode == Atomic then f - {group} else f, mode, intern[group], intern[group].Keys, group)
    ensures Visited(r, user, intern, groups + [group])
  {
    GroupIsMerged(r, f, user, intern, group);
    forall g | g in groups && g != group ensures GroupDone(r, user, intern, g) {
      SameGroupDone(r, f, user, intern, g);
    }
  }

  lemma GroupIsMerged(r: Keyfile, f: Keyfile, user: Keyfile, intern: Keyfile, group: string)
    requires group in user ==> user[group] != map[]
    requires group in intern
    requires var mode := ModeOf(intern, group);
             PartialGroup(r, if mode == Atomic then f - {group} else f, mode, intern[group], intern[group].Keys, group)
    requires || GroupDone(f, user, intern, group)
             || ((group in f <==> group in user) && (group in f ==> f[group] == user[group]))
    ensures GroupDone(r, user, intern, group)
  {
  }

  lemma SameGroupDone(r: Keyfile, f: Keyfile, user: Keyfile, intern: Keyfile, g: string)
    requires GroupDone(f, user, intern, g) && (g in r <==> g in f) && (g in r ==> r[g] == f[g])
    ensures GroupDone(r, user, intern, g)
  {
  }

  /** _nm_keyfile_copy() into an empty keyfile: key by key, so that a group without keys is not made. */
  method CopyKeyfile(src: Keyfile, e: Enumeration) returns (r: Keyfile)
    requires Enumerates(e, src)
    ensures r == WithKeys(src)
  {
    r := map[];
    for i := 0 to |e.groups|
      invariant forall g :: g in r <==> g in e.groups[..i] && HasKeys(src, g)
      invariant forall g :: g in r ==> g in src && r[g] == src[g]
    {
      var group := e.groups[i];
      assert group in Elements(e.groups);
      assert e.groups[..i + 1] == e.groups[..i] + [group];
      r := CopyGroup(r, src, group, e.keys[group]);
    }
    assert e.groups[..|e.groups|] == e.groups;
    forall g | g in src ensures g in e.groups {
      assert g in Elements(e.groups);
    }
  }

  method CopyGroup(dst: Keyfile, src: Keyfile, group: string, keys: seq<string>) returns (r: Keyfile)
    requires group in src && Elements(keys) == src[group].Keys && (group in dst ==> dst[group] == src[group])
    ensures r == if keys == [] then dst else dst[group := src[group]]
    ensures keys == [] <==> src[group] == map[]
  {
    r := dst;
    ElementsEmpty(keys);
    for j := 0 to |keys|
      invariant j > 0 ==> group in r
      invariant r == if j == 0 then dst else dst[group := r[group]]
      invariant group in r ==>
                  && (forall k :: k in r[group] ==> k in src[group] && r[group][k] == src[group][k])
                  && (forall k :: k in keys[..j] ==> k in r[group])
    {
      assert keys[j] in Elements(keys);
      assert keys[..j + 1] == keys[..j] + [keys[j]];
      r := Put(r, group, keys[j], src[group][keys[j]]);
    }
    assert keys[..|keys|] == keys;
    if keys != [] {
      forall k | k in src[group] ensures k in r[group] {
        assert k in Elements(keys);
      }
      assert r[group] == src[group];
    }
  }

  /** _merge_keyfiles(). */
  method MergeKeyfiles(user: Option<Keyfile>, eu: Enumeration, intern: Option<Keyfile>, ei: Enumeration)
    returns (r: Keyfile)
    requires user.Some? ==> Enumerates(eu, user.value)
    requires intern.Some? ==> Enumerates(ei, intern.value)
    ensures IsMerge(r, if user.Some? then user.value else map[], if intern.Some? then intern.value else map[])
  {
    r := map[];
    if user.Some? {
      r := CopyKeyfile(user.value, eu);
    }
    ghost var u := if user.Some? then user.value else map[];
    assert r == WithKeys(u);
    if intern.Some? {
      r := MergeGroups(r, intern.value, ei);
    } else {
      forall g ensures GroupDone(r, WithKeys(u), map[], g) {
      }
    }
    CopyIsEnough(r, u, if intern.Some? then intern.value else map[]);
  }

  lemma CopyLooksTheSame(f: Keyfile, group: string, key: string)
    ensures HasKeys(WithKeys(f), group) <==> HasKeys(f, group)
    ensures group in WithKeys(f) <==> HasKeys(f, group)
    ensures Get(WithKeys(f), group, key) == Get(f, group, key)
  {
    assert group in f && key in f[group] ==> f[group] != map[];
  }

  /** Merging the copy is merging the user's keyfile. */
  lemma CopyIsEnough(r: Keyfile, user: Keyfile, intern: Keyfile)
    requires forall g :: GroupDone(r, WithKeys(user), intern, g)
    ensures IsMerge(r, user, intern)
  {
    forall g, k ensures Get(r, g, k) == MergedValue(user, intern, g, k) {
      CopyLooksTheSame(user, g, k);
      assert GroupDone(r, WithKeys(user), intern, g);
    }
    forall g ensures g in r <==> MergedHasGroup(user, intern, g) {
      CopyLooksTheSame(user, g, "");
      assert GroupDone(r, WithKeys(user), intern, g);
    }
  }

  /** The outer loop of _merge_keyfiles(). */
  method MergeGroups(base: Keyfile, intern: Keyfile, e: Enumeration) returns (r: Keyfile)
    requires Enumerates(e, intern) && forall g :: g in base ==> base[g] != map[]
    ensures forall g :: GroupDone(r, base, intern, g)
  {
    r := base;
    for i := 0 to |e.groups|
      invariant Visited(r, base, intern, e.groups[..i])
    {
      var group := e.groups[i];
      assert group in Elements(e.groups);
      ghost var before := r;
      r := MergeGroup(r, intern, group, e.keys[group]);
      VisitGroup(r, before, base, intern, e.groups[..i], group);
      assert e.groups[..i + 1] == e.groups[..i] + [group];
    }
    assert e.groups[..|e.groups|] == e.groups;
    forall g ensures GroupDone(r, base, intern, g) {
      if g !in e.groups {
        assert g !in Elements(e.groups);
      }
    }
  }

  /** nm_config_data_is_intern_atomic_group(). */
  predicate IsInternAtomicGroup(f: Keyfile, intern: Option<Keyfile>, group: string) {
    intern.Some? && Get(intern.value, group, ATOMIC_MARKER).Some? && group in f
  }

  /** The test says that the section is the internal one as a whole, except for sections with the
      internal prefix: there the marker is a key like any other and the user's keys show through. */
  lemma AtomicGroupTest(f: Keyfile, user: Keyfile, intern: Keyfile, group: string)
    requires IsMerge(f, user, intern) && IsInternAtomicGroup(f, Some(intern), group)
    ensures f[group] == intern[group] - {ATOMIC_MARKER} <==> !HasPrefix(group, INTERN_PREFIX)
  {
    if HasPrefix(group, INTERN_PREFIX) {
      assert Get(f, group, ATOMIC_MARKER) == MergedValue(user, intern, group, ATOMIC_MARKER);
    } else {
      AtomicGroupReplacesUsers(f, user, intern, group);
    }
  }

  /** For such a section the internal keys win and every other key of the user shows through, so it is
      not the internal one exactly when the user has a key there that the internal one lacks. */
  lemma UserShowsThroughExactlyWhen(f: Keyfile, user: Keyfile, intern: Keyfile, group: string)
    requires IsMerge(f, user, intern) && IsInternAtomicGroup(f, Some(intern), group) && HasPrefix(group, INTERN_PREFIX)
    ensures forall k :: Get(f, group, k) == if k in intern[group] then Some(intern[group][k]) else Get(user, group, k)
    ensures f[group] != intern[group] <==> group in user && exists k :: k in user[group] && k !in intern[group]
  {
    forall k ensures Get(f, group, k) == if k in intern[group] then Some(intern[group][k]) else Get(user, group, k) {
      assert Get(f, group, k) == MergedValue(user, intern, group, k);
    }
    assert forall k :: k in intern[group] ==> Get(f, group, k) == Some(intern[group][k]);
    assert (forall k :: k in f[group] ==> k in intern[group]) ==> f[group] == intern[group];
    if f[group] != intern[group] {
      var k :| k in f[group] && k !in intern[group];
      assert Get(f, group, k) == Get(user, group, k);
    }
    if group in user && exists k :: k in user[group] && k !in intern[group] {
      var k :| k in user[group] && k !in intern[group];
      assert Get(f, group, k) == Some(user[group][k]);
    }
  }

  /** A section that passes for atomic although a key of the user is in it. */
  lemma UserShowsThrough(f: Keyfile)
    requires IsMerge(f, map[".intern.a" := map["k" := "v"]], map[".intern.a" := map[".was" := "x"]])
    ensures IsInternAtomicGroup(f, Some(map[".intern.a" := map[".was" := "x"]]), ".intern.a")
    ensures Get(f, ".intern.a", "k") == Some("v")
  {
    var user, intern := map[".intern.a" := map["k" := "v"]], map[".intern.a" := map[".was" := "x"]];
    assert HasPrefix(".intern.a", INTERN_PREFIX) by {
      assert ".intern.a"[..|INTERN_PREFIX|] == INTERN_PREFIX;
    }
    assert ATOMIC_MARKER in intern[".intern.a"] && IsValue(Raw, ATOMIC_MARKER);
    assert MergedHasGroup(user, intern, ".intern.a");
    assert |"k"| != |".was"|;
    assert Get(f, ".intern.a", "k") == MergedValue(user, intern, ".intern.a", "k");
  }
}
