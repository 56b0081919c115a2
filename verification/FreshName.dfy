/**
 * Searching for an unused connection name or interface name by counting up a suffix
 * (src/core/NetworkManagerUtils.c:74-157). The counter is a 32-bit unsigned integer.
 */
module FreshName {
  import opened Common

  const COUNTERS: nat := 0x1_0000_0000

  function Digit(d: nat): char
    requires d < 10
  {
    '0' + d as char
  }

  /** "%u". */
  function Decimal(n: nat): (s: string)
    ensures |s| > 0
    ensures forall i :: 0 <= i < |s| ==> '0' <= s[i] <= '9'
  {
    if n < 10 then [Digit(n)] else Decimal(n / 10) + [Digit(n % 10)]
  }

  /** "%d" given an unsigned counter: the upper half of the range prints as negative numbers. */
  function SignedDecimal(n: nat): string
    requires n < COUNTERS
  {
    if n < 0x8000_0000 then Decimal(n) else "-" + Decimal(COUNTERS - n)
  }

  /** Reading a decimal number back. */
  function Value(s: string): nat
    requires forall i :: 0 <= i < |s| ==> '0' <= s[i] <= '9'
  {
    if s == [] then 0 else Value(s[..|s| - 1]) * 10 + (s[|s| - 1] as int - '0' as int)
  }

  lemma {:induction false} DecimalRoundTrip(n: nat)
    ensures Value(Decimal(n)) == n
  {
    if n < 10 {
      assert Value([Digit(n)]) == Value([]) * 10 + n by {
        assert [Digit(n)][..0] == [];
      }
    } else {
      DecimalRoundTrip(n / 10);
      var s := Decimal(n);
      assert s[..|s| - 1] == Decimal(n / 10);
    }
  }

  lemma DecimalInjective(m: nat, n: nat)
    requires Decimal(m) == Decimal(n)
    ensures m == n
  {
    DecimalRoundTrip(m);
    DecimalRoundTrip(n);
  }

  lemma SignedDecimalInjective(m: nat, n: nat)
    requires m < COUNTERS && n < COUNTERS && SignedDecimal(m) == SignedDecimal(n)
    ensures m == n
  {
    var s, t := SignedDecimal(m), SignedDecimal(n);
    if s[0] == '-' {
      assert s[1..] == Decimal(COUNTERS - m) && t[1..] == Decimal(COUNTERS - n);
      DecimalInjective(COUNTERS - m, COUNTERS - n);
    } else {
      DecimalInjective(m, n);
    }
  }

  /** Reading a number with a sign back. */
  function SignedValue(s: string): int
    requires forall i :: 0 < i < |s| ==> '0' <= s[i] <= '9'
    requires s != [] ==> s[0] == '-' || '0' <= s[0] <= '9'
  {
    if s != [] && s[0] == '-' then -(Value(s[1..]) as int) else Value(s)
  }

  /** The name shows the counter as a signed 32-bit number. */
  lemma SignedRoundTrip(n: nat)
    requires n < 0x1_0000_0000
    ensures var s := SignedDecimal(n);
            && s != [] && (s[0] == '-' || '0' <= s[0] <= '9') && (forall i :: 0 < i < |s| ==> '0' <= s[i] <= '9')
            && SignedValue(s) == if n < 0x8000_0000 then n else n - 0x1_0000_0000
  {
    if n < 0x8000_0000 {
      DecimalRoundTrip(n);
    } else {
      DecimalRoundTrip(COUNTERS - n);
      assert SignedDecimal(n)[1..] == Decimal(COUNTERS - n);
    }
  }

  function ConnectionName(prefix: string, i: nat): string {
    prefix + " " + Decimal(i)
  }

  function InterfaceName(prefix: string, i: nat): string
    requires i < COUNTERS
  {
    prefix + SignedDecimal(i)
  }

  /** Different counters give different names. */
  lemma ConnectionNameInjective(prefix: string, i: nat, j: nat)
    requires ConnectionName(prefix, i) == ConnectionName(prefix, j)
    ensures i == j
  {
    assert ConnectionName(prefix, i)[|prefix| + 1..] == Decimal(i);
    assert ConnectionName(prefix, j)[|prefix| + 1..] == Decimal(j);
    DecimalInjective(i, j);
  }

  lemma InterfaceNameInjective(prefix: string, i: nat, j: nat)
    requires i < COUNTERS && j < COUNTERS && InterfaceName(prefix, i) == InterfaceName(prefix, j)
    ensures i == j
  {
    assert InterfaceName(prefix, i)[|prefix|..] == SignedDecimal(i);
    assert InterfaceName(prefix, j)[|prefix|..] == SignedDecimal(j);
    SignedDecimalInjective(i, j);
  }

  /** The counter after k increments. */
  function Wrapped(k: nat): nat {
    k % COUNTERS
  }

  lemma WrapStep(k: nat)
    ensures Wrapped(Wrapped(k) + 1) == Wrapped(k + 1)
  {
  }

  lemma WrappedInjective(i: nat, j: nat)
    requires 1 <= i < j <= COUNTERS
    ensures Wrapped(i) != Wrapped(j)
  {
  }

  /** The candidates of the connection name search, from 1 upwards and around at 2^32. */
  function ConnectionNames(prefix: string, n: nat): (r: seq<string>)
    ensures |r| == n && forall k :: 0 <= k < n ==> r[k] == ConnectionName(prefix, Wrapped(k + 1))
  {
    seq(n, k requires 0 <= k => ConnectionName(prefix, Wrapped(k + 1)))
  }

  /** The candidates of the interface name search, from 0 upwards. */
  function InterfaceNames(prefix: string, n: nat): (r: seq<string>)
    requires n <= COUNTERS
    ensures |r| == n && forall k :: 0 <= k < n ==> r[k] == InterfaceName(prefix, k)
  {
    seq(n, k requires 0 <= k < COUNTERS => InterfaceName(prefix, k))
  }

  lemma ConnectionNamesDistinct(prefix: string, n: nat)
    requires n <= COUNTERS
    ensures Distinct(ConnectionNames(prefix, n))
  {
    var names := ConnectionNames(prefix, n);
    forall i, j | 0 <= i < j < n ensures names[i] != names[j] {
      if names[i] == names[j] {
        ConnectionNameInjective(prefix, Wrapped(i + 1), Wrapped(j + 1));
        WrappedInjective(i + 1, j + 1);
      }
    }
  }

  lemma InterfaceNamesDistinct(prefix: string, n: nat)
    requires n <= COUNTERS
    ensures Distinct(InterfaceNames(prefix, n))
  {
    var names := InterfaceNames(prefix, n);
    forall i, j | 0 <= i < j < n ensures names[i] != names[j] {
      if names[i] == names[j] {
        InterfaceNameInjective(prefix, i, j);
      }
    }
  }

  ghost predicate AllTaken(names: seq<string>, taken: set<string>) {
    forall i :: 0 <= i < |names| ==> names[i] in taken
  }

  /** Distinct names that are all taken are at most as many as the taken names. */
  lemma Pigeonhole(names: seq<string>, taken: set<string>)
    requires Distinct(names) && AllTaken(names, taken)
    ensures |names| <= |taken|
  {
    DistinctCount(names);
    SubsetCount(Elements(names), taken);
  }

  /** A list has at most as many elements as it is long. */
  lemma {:induction false} ElementsCount(s: seq<string>)
    ensures |Elements(s)| <= |s|
  {
    if s != [] {
      ElementsCount(s[1..]);
      assert Elements(s) == {s[0]} + Elements(s[1..]);
    }
  }

  /**
   * get_new_connection_name(): the preferred name unless it is taken, else the first numbered name
   * that is not in use. The k-th candidate is returned and k is at most one more than the number of
   * existing profiles.
   */
  method NewConnectionName(existing: seq<string>, preferred: Option<string>, prefix: string)
    returns (name: string, ghost k: nat)
    requires |existing| < COUNTERS
    ensures name !in existing
    ensures preferred.Some? && preferred.value !in existing ==> name == preferred.value
    ensures preferred.None? || preferred.value in existing ==>
              && 1 <= k <= |existing| + 1
              && name == ConnectionName(prefix, Wrapped(k))
              && AllTaken(ConnectionNames(prefix, k - 1), Elements(existing))
  {
    var wanted := preferred;
    for i := 0 to |existing|
      invariant wanted == if preferred.Some? && preferred.value in existing[..i] then None else preferred
    {
      if wanted.Some? && wanted.value == existing[i] {
        wanted := None;
      }
    }
    k := 0;
    if wanted.Some? {
      return wanted.value, k;
    }
    name, k := NextNumberedName(existing, prefix);
  }

  /** One more candidate is taken. */
  lemma OneMoreTaken(prefix: string, k: nat, taken: set<string>)
    requires AllTaken(ConnectionNames(prefix, k), taken) && ConnectionName(prefix, Wrapped(k + 1)) in taken
    ensures AllTaken(ConnectionNames(prefix, k + 1), taken)
  {
    var names, more := ConnectionNames(prefix, k), ConnectionNames(prefix, k + 1);
    forall i | 0 <= i < |more| ensures more[i] in taken {
      if i < k {
        assert more[i] == names[i];
      }
    }
  }

  method NextNumberedName(existing: seq<string>, prefix: string) returns (name: string, ghost k: nat)
    requires |existing| < COUNTERS
    ensures name !in existing
    ensures 1 <= k <= |existing| + 1 && name == ConnectionName(prefix, Wrapped(k))
    ensures AllTaken(ConnectionNames(prefix, k - 1), Elements(existing))
  {
    var i := 1;
    k := 1;
    ElementsCount(existing);
    while true
      invariant 1 <= k <= |existing| + 1
      invariant i == Wrapped(k)
      invariant AllTaken(ConnectionNames(prefix, k - 1), Elements(existing))
      decreases |existing| + 1 - k
    {
      var temp := ConnectionName(prefix, i);
      if temp !in existing {
        return temp, k;
      }
      OneMoreTaken(prefix, k - 1, Elements(existing));
      ConnectionNamesDistinct(prefix, k);
      Pigeonhole(ConnectionNames(prefix, k), Elements(existing));
      WrapStep(k);
      i := Wrapped(i + 1);
      k := k + 1;
    }
  }

  /** The interface names of profiles that have one. */
  function ProfileNames(profiles: seq<Option<string>>): set<string> {
    set n: Option<string> | n in profiles && n.Some? :: n.value
  }

  /** Some counter value gives a name that neither a link nor a profile has. */
  ghost predicate SomeNameFree(links: set<string>, profiles: seq<Option<string>>, prefix: string) {
    !AllTaken(InterfaceNames(prefix, COUNTERS), links + ProfileNames(profiles))
  }

  /** Fewer than 2^32 names in use leave one free. */
  lemma FewNamesLeaveOneFree(links: set<string>, profiles: seq<Option<string>>, prefix: string)
    requires |links + ProfileNames(profiles)| < COUNTERS
    ensures SomeNameFree(links, profiles, prefix)
  {
    var names, taken := InterfaceNames(prefix, COUNTERS), links + ProfileNames(profiles);
    if AllTaken(names, taken) {
      InterfaceNamesDistinct(prefix, COUNTERS);
      Pigeonhole(names, taken);
    }
  }

  /**
   * get_new_connection_ifname(): whenever some name is free, the first free one is found, and its
   * number is at most the number of distinct names in use.
   */
  method NewInterfaceName(links: set<string>, profiles: seq<Option<string>>, prefix: string)
    returns (name: string, ghost k: nat)
    requires SomeNameFree(links, profiles, prefix)
    ensures name !in links && Some(name) !in profiles
    ensures k < COUNTERS && k <= |links + ProfileNames(profiles)| && name == InterfaceName(prefix, k)
    ensures AllTaken(InterfaceNames(prefix, k), links + ProfileNames(profiles))
  {
    ghost var taken := links + ProfileNames(profiles);
    var i := 0;
    while true
      invariant i < COUNTERS && AllTaken(InterfaceNames(prefix, i), taken)
      decreases COUNTERS - i
    {
      name := InterfaceName(prefix, i);
      var used := name in links;
      if !used {
        used := UsedByProfile(profiles, name);
      }
      if !used {
        InterfaceNamesDistinct(prefix, i);
        Pigeonhole(InterfaceNames(prefix, i), taken);
        return name, i;
      }
      assert AllTaken(InterfaceNames(prefix, i + 1), taken);
      i := i + 1;
    }
  }

  method UsedByProfile(profiles: seq<Option<string>>, name: string) returns (used: bool)
    ensures used <==> Some(name) in profiles
    ensures used <==> name in ProfileNames(profiles)
  {
    assert Some(name) in profiles <==> name in ProfileNames(profiles) by {
      assert Some(name) in profiles ==> Some(name).value in ProfileNames(profiles);
    }
    for j := 0 to |profiles|
      invariant Some(name) !in profiles[..j]
    {
      if profiles[j] == Some(name) {
        return true;
      }
    }
    assert profiles[..|profiles|] == profiles;
    return false;
  }
}
