/**
 * Comparing the routes of a generated profile with those of a candidate
 * (src/core/NetworkManagerUtils.c:396-513): both lists are sorted and merged.
 */
module Routes {
  import opened Common
  import opened Order

  /** An NMIPRoute: the metric is -1 when unset, the destination an address in network order. */
  datatype Route = Route(family: int, prefix: nat, metric: int, nextHop: Option<string>, dest: nat)

  /** What two routes are compared by. */
  datatype Key = Key(family: int, prefix: nat, metric: int, nextHop: Option<string>, network: nat)

  function Pow2(n: nat): (r: nat)
    ensures r >= 1
  {
    if n == 0 then 1 else 2 * Pow2(n - 1)
  }

  function Width(family: int): nat { if family == AF_INET then 32 else 128 }

  const AF_INET := 2

  /** nm_ip_addr_clear_host_address(). */
  function Network(family: int, dest: nat, prefix: nat): nat {
    if prefix >= Width(family) then dest
    else dest - dest % Pow2(Width(family) - prefix)
  }

  /** A gint64 converted to guint64. */
  function Unsigned(x: int): int { if x < 0 then x + 0x1_0000_0000_0000_0000 else x }

  function EffectiveMetric(metric: int, default: int): int {
    if metric == -1 then Unsigned(default) else Unsigned(metric)
  }

  function KeyOf(r: Route, default: int): Key {
    Key(r.family, r.prefix, EffectiveMetric(r.metric, default), r.nextHop, Network(r.family, r.dest, r.prefix))
  }

  /** strcmp() on possibly absent strings: an absent one sorts first. */
  function OptStrCmp(a: Option<string>, b: Option<string>): int {
    if a.None? then (if b.None? then 0 else -1)
    else if b.None? then 1
    else StrCmp(a.value, b.value)
  }

  /** route_compare(). */
  function RouteCompare(a: Route, b: Route, default: int): int {
    var metric := Compare(EffectiveMetric(a.metric, default), EffectiveMetric(b.metric, default));
    if a.family != b.family then Compare(a.family, b.family)
    else if a.prefix != b.prefix then Compare(a.prefix, b.prefix)
    else if metric != 0 then metric
    else if OptStrCmp(a.nextHop, b.nextHop) != 0 then OptStrCmp(a.nextHop, b.nextHop)
    else Compare(Network(a.family, a.dest, a.prefix), Network(a.family, b.dest, a.prefix))
  }

  function KeyCmp(a: Key, b: Key): int {
    if a.family != b.family then Compare(a.family, b.family)
    else if a.prefix != b.prefix then Compare(a.prefix, b.prefix)
    else if a.metric != b.metric then Compare(a.metric, b.metric)
    else if OptStrCmp(a.nextHop, b.nextHop) != 0 then OptStrCmp(a.nextHop, b.nextHop)
    else Compare(a.network, b.network)
  }

  lemma KeyCmpSign(a: Key, b: Key)
    ensures KeyCmp(a, b) == 0 <==> a == b
    ensures KeyCmp(b, a) == -KeyCmp(a, b)
  {
    if a.nextHop.Some? && b.nextHop.Some? {
      StrCmpSign(a.nextHop.value, b.nextHop.value);
    }
  }

  lemma KeyCmpTransitive(a: Key, b: Key, c: Key)
    requires KeyCmp(a, b) <= 0 && KeyCmp(b, c) <= 0
    ensures KeyCmp(a, c) <= 0
  {
    KeyCmpSign(a, b);
    KeyCmpSign(b, c);
    if a.nextHop.Some? && b.nextHop.Some? && c.nextHop.Some? {
      StrCmpSign(a.nextHop.value, b.nextHop.value);
      StrCmpSign(b.nextHop.value, c.nextHop.value);
      if StrCmp(a.nextHop.value, b.nextHop.value) <= 0 && StrCmp(b.nextHop.value, c.nextHop.value) <= 0 {
        StrCmpTransitive(a.nextHop.value, b.nextHop.value, c.nextHop.value);
      }
    }
  }

  /** Routes compare equal exactly when they agree on family, prefix, effective metric, next hop and
      masked destination. */
  lemma RouteCompareIsKeyCmp(a: Route, b: Route, default: int)
    ensures RouteCompare(a, b, default) == KeyCmp(KeyOf(a, default), KeyOf(b, default))
    ensures RouteCompare(a, b, default) == 0 <==> KeyOf(a, default) == KeyOf(b, default)
  {
    KeyCmpSign(KeyOf(a, default), KeyOf(b, default));
  }

  // ---------------------------------------------------------------- when routes tie

  /** Bit `i` of a number; bit 0 is the least significant one. */
  predicate Bit(n: nat, i: nat) {
    if i == 0 then n % 2 == 1 else Bit(n / 2, i - 1)
  }

  /** What the configuration code guarantees: a 64-bit metric, an address of the family's width, and a
      prefix that is not longer than that. */
  predicate IsValid(r: Route) {
    && -0x8000_0000_0000_0000 <= r.metric < 0x8000_0000_0000_0000
    && if r.family == 2 then r.prefix <= 32 && r.dest < 0x1_0000_0000
       else r.prefix <= 128 && r.dest < 0x1_0000_0000_0000_0000_0000_0000_0000_0000
  }

  /** Two routes that mean the same: the same network, reached in the same way. An unset metric stands
      for the default one, and only the leading `prefix` bits of a destination count. */
  ghost predicate SameRoute(a: Route, b: Route, default: int) {
    var width := if a.family == 2 then 32 else 128;
    && a.family == b.family && a.prefix == b.prefix && a.nextHop == b.nextHop
    && (if a.metric == -1 then default else a.metric) == (if b.metric == -1 then default else b.metric)
    && SameBits(a.dest, b.dest, width - a.prefix, width)
  }

  /** The bits from position `low` on agree. */
  ghost predicate SameBits(x: nat, y: nat, low: int, width: nat) {
    forall i: nat :: low <= i < width ==> Bit(x, i) == Bit(y, i)
  }

  /** Numbers of a given width with the same bits are equal. */
  lemma {:induction false} BitsDecide(x: nat, y: nat, width: nat)
    requires x < Pow2(width) && y < Pow2(width) && SameBits(x, y, 0, width)
    ensures x == y
  {
    if width > 0 {
      assert Bit(x, 0) == Bit(y, 0);
      assert SameBits(x / 2, y / 2, 0, width - 1) by {
        forall i: nat | i < width - 1 ensures Bit(x / 2, i) == Bit(y / 2, i) {
          assert Bit(x, i + 1) == Bit(y, i + 1);
        }
      }
      BitsDecide(x / 2, y / 2, width - 1);
    }
  }

  lemma Doubled(d: nat, p: nat, q: nat)
    requires d == 2 * p
    ensures d * q == 2 * (p * q)
  {
  }

  /** Of a multiple of 2^low plus a remainder, the multiple has exactly the bits from position `low` on. */
  lemma {:induction false} HighBits(n: nat, low: nat, q: nat, high: nat, r: nat, i: nat)
    requires high == Pow2(low) * q && n == high + r && r < Pow2(low)
    ensures Bit(high, i) <==> i >= low && Bit(n, i)
  {
    if low > 0 {
      Doubled(Pow2(low), Pow2(low - 1), q);
      if i > 0 {
        HighBits(n / 2, low - 1, q, Pow2(low - 1) * q, r / 2, i - 1);
      }
    }
  }

  lemma Multiple(n: nat, d: nat)
    requires d >= 1
    ensures n == d * (n / d) + n % d
  {
  }

  lemma NetworkBits(family: int, dest: nat, prefix: nat, i: nat)
    requires prefix <= Width(family)
    ensures Bit(Network(family, dest, prefix), i) <==> i >= Width(family) - prefix && Bit(dest, i)
  {
    var low := Width(family) - prefix;
    var d := Pow2(low);
    Multiple(dest, d);
    if low > 0 {
      HighBits(dest, low, dest / d, dest - dest % d, dest % d, i);
    }
  }

  lemma {:induction false} PowerOfSum(m: nat, n: nat)
    ensures Pow2(m + n) == Pow2(m) * Pow2(n)
  {
    if m > 0 {
      PowerOfSum(m - 1, n);
      assert Pow2(m + n) == 2 * Pow2(m - 1 + n);
      assert 2 * (Pow2(m - 1) * Pow2(n)) == (2 * Pow2(m - 1)) * Pow2(n);
    }
  }

  lemma Squared(n: nat, p: nat)
    requires Pow2(n) == p
    ensures Pow2(n + n) == p * p
  {
    PowerOfSum(n, n);
  }

  lemma AddressSpace(family: int)
    ensures Pow2(Width(family)) ==
            if family == 2 then 0x1_0000_0000 else 0x1_0000_0000_0000_0000_0000_0000_0000_0000
  {
    Squared(4, 0x10);
    Squared(8, 0x100);
    Squared(16, 0x1_0000);
    Squared(32, 0x1_0000_0000);
    Squared(64, 0x1_0000_0000_0000_0000);
  }

  lemma SameNetwork(family: int, x: nat, y: nat, prefix: nat)
    requires prefix <= Width(family) && x < Pow2(Width(family)) && y < Pow2(Width(family))
    ensures Network(family, x, prefix) == Network(family, y, prefix) <==>
            SameBits(x, y, Width(family) - prefix, Width(family))
  {
    var m, n := Network(family, x, prefix), Network(family, y, prefix);
    forall i: nat
      ensures Bit(m, i) <==> i >= Width(family) - prefix && Bit(x, i)
      ensures Bit(n, i) <==> i >= Width(family) - prefix && Bit(y, i)
    {
      NetworkBits(family, x, prefix, i);
      NetworkBits(family, y, prefix, i);
    }
    assert SameBits(m, n, 0, Width(family)) <==> SameBits(x, y, Width(family) - prefix, Width(family));
    if SameBits(m, n, 0, Width(family)) {
      BitsDecide(m, n, Width(family));
    }
  }

  /** Routes tie exactly if they mean the same. */
  lemma TieExactlyWhen(a: Route, b: Route, default: int)
    requires IsValid(a) && IsValid(b) && -0x8000_0000_0000_0000 <= default < 0x8000_0000_0000_0000
    ensures RouteCompare(a, b, default) == 0 <==> SameRoute(a, b, default)
    ensures KeyOf(a, default) == KeyOf(b, default) <==> SameRoute(a, b, default)
  {
    RouteCompareIsKeyCmp(a, b, default);
    AddressSpace(a.family);
    if a.family == b.family && a.prefix == b.prefix {
      SameNetwork(a.family, a.dest, b.dest, a.prefix);
    }
  }

  function RouteLe(default: int): (Route, Route) -> bool {
    (a, b) => RouteCompare(a, b, default) <= 0
  }

  lemma RouteLeTotal(default: int)
    ensures TotalPreorder(RouteLe(default))
  {
    var le := RouteLe(default);
    forall a, b ensures le(a, b) || le(b, a) {
      RouteCompareIsKeyCmp(a, b, default);
      RouteCompareIsKeyCmp(b, a, default);
      KeyCmpSign(KeyOf(a, default), KeyOf(b, default));
    }
    forall a, b, c | le(a, b) && le(b, c) ensures le(a, c) {
      RouteCompareIsKeyCmp(a, b, default);
      RouteCompareIsKeyCmp(b, c, default);
      RouteCompareIsKeyCmp(a, c, default);
      KeyCmpTransitive(KeyOf(a, default), KeyOf(b, default), KeyOf(c, default));
    }
  }

  function Keys(routes: seq<Route>, default: int): (r: seq<Key>)
    ensures |r| == |routes| && forall i :: 0 <= i < |r| ==> r[i] == KeyOf(routes[i], default)
  {
    seq(|routes|, i requires 0 <= i < |routes| => KeyOf(routes[i], default))
  }

  /** The candidate's routes are among the original's, counted with multiplicity, and whatever the
      original has in addition are host routes. */
  ghost predicate Matches(orig: seq<Key>, cand: seq<Key>, hostPrefix: nat) {
    Covered(multiset(orig), multiset(cand), hostPrefix)
  }

  ghost predicate Covered(orig: multiset<Key>, cand: multiset<Key>, hostPrefix: nat) {
    && cand <= orig
    && forall k :: k in orig - cand ==> k.prefix == hostPrefix
  }

  lemma CommonKey(o: multiset<Key>, c: multiset<Key>, k: Key, hostPrefix: nat)
    ensures Covered(multiset{k} + o, multiset{k} + c, hostPrefix) <==> Covered(o, c, hostPrefix)
  {
    assert (multiset{k} + o) - (multiset{k} + c) == o - c;
    forall x ensures (multiset{k} + c)[x] <= (multiset{k} + o)[x] <==> c[x] <= o[x] {
    }
  }

  lemma SurplusKey(o: multiset<Key>, c: multiset<Key>, k: Key, hostPrefix: nat)
    requires k !in c
    ensures Covered(multiset{k} + o, c, hostPrefix) <==> k.prefix == hostPrefix && Covered(o, c, hostPrefix)
  {
  }

  ghost predicate Ascending(s: seq<Key>) {
    forall i, j :: 0 <= i < j < |s| ==> KeyCmp(s[i], s[j]) <= 0
  }

  /** In an ascending list nothing is below the first element. */
  lemma BelowFirst(k: Key, s: seq<Key>)
    requires Ascending(s) && s != [] && KeyCmp(k, s[0]) < 0
    ensures k !in s
  {
    if k in s {
      var i :| 0 <= i < |s| && s[i] == k;
      KeyCmpSign(k, s[0]);
    }
  }

  /** The two list heads agree: both can be dropped. */
  lemma DropEqual(orig: seq<Key>, cand: seq<Key>, hostPrefix: nat)
    requires orig != [] && cand != [] && orig[0] == cand[0]
    ensures Matches(orig, cand, hostPrefix) <==> Matches(orig[1..], cand[1..], hostPrefix)
  {
    assert orig == [orig[0]] + orig[1..] && cand == [cand[0]] + cand[1..];
    CommonKey(multiset(orig[1..]), multiset(cand[1..]), orig[0], hostPrefix);
  }

  /** The original's first route is missing from the candidate: it must be a host route. */
  lemma DropSurplus(orig: seq<Key>, cand: seq<Key>, hostPrefix: nat)
    requires Ascending(orig) && Ascending(cand) && orig != [] && cand != [] && orig[0] != cand[0]
    ensures Matches(orig, cand, hostPrefix) <==>
            orig[0].prefix == hostPrefix && Matches(orig[1..], cand, hostPrefix)
  {
    var k := orig[0];
    assert orig == [k] + orig[1..];
    KeyCmpSign(k, cand[0]);
    if KeyCmp(k, cand[0]) < 0 {
      BelowFirst(k, cand);
      SurplusKey(multiset(orig[1..]), multiset(cand), k, hostPrefix);
    } else {
      BelowFirst(cand[0], orig);
      assert cand[0] in multiset(cand) && cand[0] !in multiset(orig);
    }
  }

  /** Nothing is left of the candidate: the rest must be host routes. */
  lemma OnlyHostRoutes(orig: seq<Key>, hostPrefix: nat)
    ensures Matches(orig, [], hostPrefix) <==> forall i :: 0 <= i < |orig| ==> orig[i].prefix == hostPrefix
  {
  }

  lemma SortedRoutesAscend(routes: seq<Route>, default: int)
    requires Sorted(routes, RouteLe(default))
    ensures Ascending(Keys(routes, default))
  {
  }

  lemma KeysConcat(a: seq<Route>, b: seq<Route>, default: int)
    ensures Keys(a + b, default) == Keys(a, default) + Keys(b, default)
  {
  }

  /** Moving one route to the front changes no multiset of keys. */
  lemma KeysMoveToFront(b: seq<Route>, i: nat, rest: seq<Route>, default: int)
    requires i < |b| && rest == b[..i] + b[i + 1..]
    ensures multiset(Keys(b, default)) == multiset{KeyOf(b[i], default)} + multiset(Keys(rest, default))
  {
    assert b == b[..i] + ([b[i]] + b[i + 1..]);
    KeysConcat(b[..i], b[i + 1..], default);
    KeysConcat(b[..i], [b[i]] + b[i + 1..], default);
    KeysConcat([b[i]], b[i + 1..], default);
    assert Keys([b[i]], default) == [KeyOf(b[i], default)];
  }

  /** A permutation starts with an element found somewhere in the other list. */
  lemma PermutationStep(a: seq<Route>, b: seq<Route>) returns (i: nat, rest: seq<Route>)
    requires multiset(a) == multiset(b) && a != []
    ensures i < |b| && b[i] == a[0] && rest == b[..i] + b[i + 1..]
    ensures multiset(a[1..]) == multiset(rest)
  {
    assert a[0] in multiset(b);
    i :| 0 <= i < |b| && b[i] == a[0];
    rest := b[..i] + b[i + 1..];
    assert a == [a[0]] + a[1..];
    assert multiset(b) == multiset{b[i]} + multiset(rest) by {
      assert b == b[..i] + ([b[i]] + b[i + 1..]);
    }
    assert multiset(a[1..]) == multiset(a) - multiset{a[0]};
  }

  /** Keys do not depend on the order of the routes. */
  lemma {:induction false} KeysOfPermutation(a: seq<Route>, b: seq<Route>, default: int)
    requires multiset(a) == multiset(b)
    ensures multiset(Keys(a, default)) == multiset(Keys(b, default))
    decreases |a|
  {
    if a == [] {
      EmptyPermutation(b);
    } else {
      var i, rest := PermutationStep(a, b);
      KeysOfPermutation(a[1..], rest, default);
      KeysMoveToFront(b, i, rest, default);
      KeysMoveToFront(a, 0, a[1..], default);
    }
  }

  lemma EmptyPermutation(b: seq<Route>)
    requires multiset(b) == multiset{}
    ensures b == []
  {
    assert |multiset(b)| == |b|;
  }

  /** The loop of check_ip_routes() on two ascending lists. */
  predicate Merge(orig: seq<Key>, cand: seq<Key>, hostPrefix: nat) {
    if cand == [] then forall i :: 0 <= i < |orig| ==> orig[i].prefix == hostPrefix
    else if orig == [] then false
    else if orig[0] == cand[0] then Merge(orig[1..], cand[1..], hostPrefix)
    else orig[0].prefix == hostPrefix && Merge(orig[1..], cand, hostPrefix)
  }

  /** Merging decides the multiset statement. */
  lemma {:induction false} MergeDecidesMatch(orig: seq<Key>, cand: seq<Key>, hostPrefix: nat)
    requires Ascending(orig) && Ascending(cand)
    ensures Merge(orig, cand, hostPrefix) <==> Matches(orig, cand, hostPrefix)
  {
    if cand == [] {
      OnlyHostRoutes(orig, hostPrefix);
    } else if orig == [] {
      assert cand[0] in multiset(cand);
    } else if orig[0] == cand[0] {
      MergeDecidesMatch(orig[1..], cand[1..], hostPrefix);
      DropEqual(orig, cand, hostPrefix);
    } else {
      MergeDecidesMatch(orig[1..], cand, hostPrefix);
      DropSurplus(orig, cand, hostPrefix);
    }
  }

  /** The sort and the two-index loop of check_ip_routes(). */
  method CompareRoutes(orig: seq<Route>, cand: seq<Route>, default: int, hostPrefix: nat) returns (ok: bool)
    ensures ok <==> Matches(Keys(orig, default), Keys(cand, default), hostPrefix)
  {
    RouteLeTotal(default);
    SortIsSort(orig, RouteLe(default));
    SortIsSort(cand, RouteLe(default));
    var routes1, routes2 := Sort(orig, RouteLe(default)), Sort(cand, RouteLe(default));
    KeysOfPermutation(routes1, orig, default);
    KeysOfPermutation(routes2, cand, default);
    SortedRoutesAscend(routes1, default);
    SortedRoutesAscend(routes2, default);
    MergeDecidesMatch(Keys(routes1, default), Keys(routes2, default), hostPrefix);
    ok := MergeRoutes(routes1, routes2, default, hostPrefix);
  }

  method MergeRoutes(routes1: seq<Route>, routes2: seq<Route>, default: int, hostPrefix: nat) returns (ok: bool)
    ensures ok <==> Merge(Keys(routes1, default), Keys(routes2, default), hostPrefix)
  {
    ghost var k1, k2 := Keys(routes1, default), Keys(routes2, default);
    var i1, i2 := 0, 0;
    assert k1[0..] == k1 && k2[0..] == k2;
    while i2 < |routes2|
      invariant i1 <= |routes1| && i2 <= |routes2|
      invariant Merge(k1, k2, hostPrefix) <==> Merge(k1[i1..], k2[i2..], hostPrefix)
      decreases |routes1| - i1
    {
      if i1 >= |routes1| {
        return false;
      }
      RouteCompareIsKeyCmp(routes1[i1], routes2[i2], default);
      assert k1[i1..][1..] == k1[i1 + 1..] && k2[i2..][1..] == k2[i2 + 1..];
      if RouteCompare(routes1[i1], routes2[i2], default) == 0 {
        i2 := i2 + 1;
      } else if routes1[i1].prefix != hostPrefix {
        return false;
      }
      i1 := i1 + 1;
    }
    while i1 < |routes1|
      invariant i1 <= |routes1|
      invariant Merge(k1, k2, hostPrefix) <==>
                forall i :: i1 <= i < |routes1| ==> k1[i].prefix == hostPrefix
    {
      if routes1[i1].prefix != hostPrefix {
        return false;
      }
      i1 := i1 + 1;
    }
    return true;
  }

  /** The verdict does not depend on how either profile lists its routes. */
  lemma OrderOfRoutesIsIrrelevant(orig: seq<Route>, orig': seq<Route>, cand: seq<Route>, cand': seq<Route>,
                                  default: int, hostPrefix: nat)
    requires multiset(orig) == multiset(orig') && multiset(cand) == multiset(cand')
    ensures Matches(Keys(orig, default), Keys(cand, default), hostPrefix) <==>
            Matches(Keys(orig', default), Keys(cand', default), hostPrefix)
  {
    KeysOfPermutation(orig, orig', default);
    KeysOfPermutation(cand, cand', default);
  }
}
