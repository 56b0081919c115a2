/**
 * The list of active bond ports that _reconfigure_check() hands to nft
 * (src/core/nm-bond-manager.c:721-776): ports that were configured before keep their place,
 * newcomers follow in name order.
 */
module BondMembers {
  import opened Common
  import opened Order

  /** The entries of `prev` that are still available, each at most once, in their old order. */
  function Keep(prev: seq<string>, available: set<string>): seq<string> {
    if prev == [] then []
    else if prev[0] in available then [prev[0]] + Keep(prev[1..], available - {prev[0]})
    else Keep(prev[1..], available)
  }

  /** The entries of `s` that do not occur in `prev`. */
  function Without(s: seq<string>, prev: seq<string>): seq<string> {
    if s == [] then []
    else (if s[0] in prev then [] else [s[0]]) + Without(s[1..], prev)
  }

  /** What the list means, without saying how it is built. */
  ghost predicate IsActiveList(list: seq<string>, names: set<string>, prev: seq<string>) {
    var kept := Keep(prev, names);
    && Distinct(list)
    && Elements(list) == names
    && kept <= list
    && Increasing(list[|kept|..])
  }

  lemma {:induction false} KeepProperties(prev: seq<string>, available: set<string>)
    ensures Distinct(Keep(prev, available))
    ensures Elements(Keep(prev, available)) == Elements(prev) * available
  {
    if prev != [] {
      var rest := if prev[0] in available then available - {prev[0]} else available;
      KeepProperties(prev[1..], rest);
      assert prev == [prev[0]] + prev[1..];
      var k := Keep(prev[1..], rest);
      forall i | 0 <= i < |k| ensures k[i] in rest {
        assert k[i] in Elements(k);
      }
      ElementsConcat([prev[0]], prev[1..]);
      ElementsConcat([prev[0]], k);
    }
  }

  /** Appending one more previous member to what has been kept so far. */
  lemma {:induction false} KeepSnoc(prev: seq<string>, x: string, available: set<string>)
    ensures Keep(prev + [x], available) ==
            Keep(prev, available) + (if x in available && x !in prev then [x] else [])
  {
    if prev == [] {
      assert [] + [x] == [x];
    } else {
      assert (prev + [x])[1..] == prev[1..] + [x];
      assert prev == [prev[0]] + prev[1..];
      KeepSnoc(prev[1..], x, if prev[0] in available then available - {prev[0]} else available);
    }
  }

  lemma {:induction false} WithoutSnoc(s: seq<string>, x: string, prev: seq<string>)
    ensures Without(s + [x], prev) == Without(s, prev) + (if x in prev then [] else [x])
  {
    if s == [] {
      assert [] + [x] == [x];
    } else {
      assert (s + [x])[1..] == s[1..] + [x];
      WithoutSnoc(s[1..], x, prev);
    }
  }

  lemma {:induction false} WithoutMember(s: seq<string>, prev: seq<string>, x: string)
    ensures x in Without(s, prev) <==> x in s && x !in prev
  {
    if s != [] {
      WithoutMember(s[1..], prev, x);
      assert s == [s[0]] + s[1..];
    }
  }

  lemma WithoutElements(s: seq<string>, prev: seq<string>)
    ensures Elements(Without(s, prev)) == Elements(s) - Elements(prev)
  {
    forall x ensures x in Without(s, prev) <==> x in s && x !in prev {
      WithoutMember(s, prev, x);
    }
  }

  lemma {:induction false} WithoutIncreasing(s: seq<string>, prev: seq<string>)
    requires Increasing(s)
    ensures Increasing(Without(s, prev))
  {
    if s != [] {
      WithoutIncreasing(s[1..], prev);
      WithoutElements(s[1..], prev);
      var w := Without(s[1..], prev);
      forall i | 0 <= i < |w| ensures StrCmp(s[0], w[i]) < 0 {
        assert w[i] in Elements(w);
        assert w[i] in s[1..];
      }
    }
  }

  lemma DisjointConcat(a: seq<string>, b: seq<string>)
    requires Distinct(a) && Distinct(b) && Elements(a) !! Elements(b)
    ensures Distinct(a + b)
  {
    forall i, j | 0 <= i < |a| && 0 <= j < |b| ensures a[i] != b[j] {
      assert a[i] in Elements(a) && b[j] in Elements(b);
    }
  }

  /** Kept members followed by the sorted newcomers form the active list. */
  lemma KeptThenNewIsActiveList(sorted: seq<string>, prev: seq<string>)
    requires Increasing(sorted)
    ensures IsActiveList(Keep(prev, Elements(sorted)) + Without(sorted, prev), Elements(sorted), prev)
  {
    var names := Elements(sorted);
    var kept, added := Keep(prev, names), Without(sorted, prev);
    KeepProperties(prev, names);
    WithoutElements(sorted, prev);
    WithoutIncreasing(sorted, prev);
    IncreasingIsDistinct(added);
    var list := kept + added;
    DisjointConcat(kept, added);
    ElementsConcat(kept, added);
    assert list[|kept|..] == added;
  }

  /** The list is determined by the set of running ports and the previous list: the order in
      which the platform enumerates its links plays no role. */
  lemma ActiveListUnique(a: seq<string>, b: seq<string>, names: set<string>, prev: seq<string>)
    requires IsActiveList(a, names, prev) && IsActiveList(b, names, prev)
    ensures a == b
  {
    var kept := Keep(prev, names);
    assert a == kept + a[|kept|..] && b == kept + b[|kept|..];
    RestElements(a, kept);
    RestElements(b, kept);
    IncreasingUnique(a[|kept|..], b[|kept|..]);
  }

  lemma RestElements(list: seq<string>, kept: seq<string>)
    requires Distinct(list) && kept <= list
    ensures Elements(list[|kept|..]) == Elements(list) - Elements(kept)
  {
    var rest := list[|kept|..];
    forall x | x in rest ensures x in list && x !in kept {
      var i :| 0 <= i < |rest| && rest[i] == x;
      assert list[|kept| + i] == x;
    }
    assert list == kept + rest;
  }

  /** With an unchanged set of running ports the previous list is kept as it is. */
  lemma {:induction false} UnchangedPortsKeepList(list: seq<string>, prev: seq<string>)
    requires Distinct(prev) && IsActiveList(list, Elements(prev), prev)
    ensures list == prev
  {
    KeepAll(prev, Elements(prev));
    DistinctCount(prev);
    DistinctCount(list);
  }

  lemma {:induction false} KeepAll(prev: seq<string>, available: set<string>)
    requires Distinct(prev) && Elements(prev) <= available
    ensures Keep(prev, available) == prev
  {
    if prev != [] {
      assert prev[0] in available && prev == [prev[0]] + prev[1..];
      KeepAll(prev[1..], available - {prev[0]});
    }
  }

  /** The in-place list building of _reconfigure_check(): drop repeated names from the sorted
      array, steal the entries that were configured before, then append what is left. */
  method BuildActiveList(ports: seq<string>, prev: seq<string>) returns (result: seq<string>)
    ensures IsActiveList(result, Elements(ports), prev)
  {
    var sorted := Sort(ports, StrLe);
    StrLeTotal();
    SortIsSort(ports, StrLe);
    var lst := new Option<string>[|sorted|](i requires 0 <= i < |sorted| => Some(sorted[i]));
    var n, names := DropRepeated(lst, sorted);
    assert Elements(names) == Elements(ports) by {
      assert forall x :: x in sorted <==> x in multiset(sorted);
      assert forall x :: x in ports <==> x in multiset(ports);
    }
    var kept := StealKept(lst, n, names, prev);
    var rest := CollectRest(lst, n, names, prev);
    result := kept + rest;
    KeptThenNewIsActiveList(names, prev);
  }

  /** The distinct names among the first entries of a sorted list. */
  ghost function Uniq(sorted: seq<string>, i: nat): seq<string>
    requires i <= |sorted|
  {
    if i == 0 then []
    else if i > 1 && sorted[i - 2] == sorted[i - 1] then Uniq(sorted, i - 1)
    else Uniq(sorted, i - 1) + [sorted[i - 1]]
  }

  lemma {:induction false} UniqLast(sorted: seq<string>, i: nat)
    requires 0 < i <= |sorted|
    ensures Uniq(sorted, i) != [] && Uniq(sorted, i)[|Uniq(sorted, i)| - 1] == sorted[i - 1]
  {
    if i > 1 {
      UniqLast(sorted, i - 1);
    }
  }

  lemma {:induction false} UniqIsIncreasing(sorted: seq<string>, i: nat)
    requires i <= |sorted| && Sorted(sorted, StrLe)
    ensures Increasing(Uniq(sorted, i))
  {
    if i > 0 {
      UniqIsIncreasing(sorted, i - 1);
      if i > 1 {
        UniqLast(sorted, i - 1);
        assert StrLe(sorted[i - 2], sorted[i - 1]);
        StrCmpSign(sorted[i - 2], sorted[i - 1]);
        if sorted[i - 2] != sorted[i - 1] {
          ExtendIncreasing(Uniq(sorted, i - 1), sorted[i - 1]);
        }
      }
    }
  }

  lemma {:induction false} UniqHasAll(sorted: seq<string>, i: nat, x: string)
    requires i <= |sorted|
    ensures x in Uniq(sorted, i) <==> x in sorted[..i]
  {
    if i > 0 {
      UniqHasAll(sorted, i - 1, x);
      assert sorted[..i] == sorted[..i - 1] + [sorted[i - 1]];
      assert i > 1 ==> sorted[..i - 1][i - 2] == sorted[i - 2];
    }
  }

  /** Moves the distinct names of a sorted array to its front and counts them. */
  method DropRepeated(lst: array<Option<string>>, ghost sorted: seq<string>)
    returns (n: nat, ghost names: seq<string>)
    requires Sorted(sorted, StrLe)
    requires lst.Length == |sorted| && forall i :: 0 <= i < |sorted| ==> lst[i] == Some(sorted[i])
    modifies lst
    ensures |names| == n <= lst.Length && forall k :: 0 <= k < n ==> lst[k] == Some(names[k])
    ensures Increasing(names)
    ensures forall x :: x in names <==> x in sorted
  {
    names := Uniq(sorted, |sorted|);
    UniqIsIncreasing(sorted, |sorted|);
    forall x ensures x in names <==> x in sorted {
      UniqHasAll(sorted, |sorted|, x);
      assert sorted[..|sorted|] == sorted;
    }
    n := MoveDistinct(lst, sorted);
  }

  method MoveDistinct(lst: array<Option<string>>, ghost sorted: seq<string>) returns (n: nat)
    requires lst.Length == |sorted| && forall i :: 0 <= i < |sorted| ==> lst[i] == Some(sorted[i])
    modifies lst
    ensures n == |Uniq(sorted, |sorted|)| <= lst.Length
    ensures forall k :: 0 <= k < n ==> lst[k] == Some(Uniq(sorted, |sorted|)[k])
  {
    if lst.Length == 0 {
      return 0;
    }
    n := 1;
    ghost var names := [sorted[0]];
    assert Uniq(sorted, 1) == names;
    for i := 1 to lst.Length
      invariant names == Uniq(sorted, i) && |names| == n && 1 <= n <= i
      invariant forall k :: 0 <= k < n ==> lst[k] == Some(names[k])
      invariant forall k :: i <= k < lst.Length ==> lst[k] == Some(sorted[k])
    {
      UniqLast(sorted, i);
      if lst[n - 1] != lst[i] {
        names := names + [sorted[i]];
        lst[n] := lst[i];
        n := n + 1;
      }
    }
  }

  /** What is left in the array once the members in `prev` were taken out of it. */
  ghost predicate Stolen(lst: array<Option<string>>, n: nat, names: seq<string>, prev: seq<string>)
    requires n <= lst.Length && |names| == n
    reads lst
  {
    forall k :: 0 <= k < n ==> lst[k] == if names[k] in prev then None else Some(names[k])
  }

  /** Takes the members of `prev` out of the array, in the order of `prev`. */
  method StealKept(lst: array<Option<string>>, n: nat, ghost names: seq<string>, prev: seq<string>)
    returns (kept: seq<string>)
    requires |names| == n <= lst.Length && Increasing(names) && Stolen(lst, n, names, [])
    modifies lst
    ensures kept == Keep(prev, Elements(names))
    ensures Stolen(lst, n, names, prev)
  {
    kept := [];
    IncreasingIsDistinct(names);
    for i := 0 to |prev|
      invariant kept == Keep(prev[..i], Elements(names))
      invariant Stolen(lst, n, names, prev[..i])
    {
      var idx := FindFirst(lst, n, prev[i]);
      assert prev[..i + 1] == prev[..i] + [prev[i]];
      KeepSnoc(prev[..i], prev[i], Elements(names));
      if idx < n {
        kept := kept + [prev[i]];
        lst[idx] := None;
      } else if prev[i] in names {
        var k :| 0 <= k < n && names[k] == prev[i];
        assert lst[k] == None;
      }
    }
    assert prev[..|prev|] == prev;
  }

  /** The entries that are still in the array. */
  method CollectRest(lst: array<Option<string>>, n: nat, ghost names: seq<string>, ghost prev: seq<string>)
    returns (rest: seq<string>)
    requires |names| == n <= lst.Length && Stolen(lst, n, names, prev)
    ensures rest == Without(names, prev)
  {
    rest := [];
    for i := 0 to n
      invariant rest == Without(names[..i], prev)
    {
      assert names[..i + 1] == names[..i] + [names[i]];
      WithoutSnoc(names[..i], names[i], prev);
      if lst[i].Some? {
        rest := rest + [lst[i].value];
      }
    }
    assert names[..n] == names;
  }

  lemma ExtendIncreasing(s: seq<string>, x: string)
    requires Increasing(s) && s != [] && StrCmp(s[|s| - 1], x) < 0
    ensures Increasing(s + [x])
  {
    forall i | 0 <= i < |s| ensures StrCmp(s[i], x) < 0 {
      if i < |s| - 1 {
        StrCmpTransitive(s[i], s[|s| - 1], x);
      }
    }
  }

  /** nm_strv_find_first(): the first position of a name among entries not yet stolen. */
  method FindFirst(lst: array<Option<string>>, n: nat, name: string) returns (idx: nat)
    requires n <= lst.Length
    ensures idx <= n
    ensures idx < n ==> lst[idx] == Some(name)
    ensures forall k :: 0 <= k < idx ==> lst[k] != Some(name)
  {
    idx := 0;
    while idx < n && lst[idx] != Some(name)
      invariant idx <= n
      invariant forall k :: 0 <= k < idx ==> lst[k] != Some(name)
    {
      idx := idx + 1;
    }
  }
}
