/**
 * The nft script for a balance-slb bond (src/core/nm-firewall-utils.c:761-947) and what it does to
 * the tables in the kernel. Rules, sets and counters are not represented; tables and chains are.
 */
module NftScript {
  import opened Common

  datatype Command =
    | AddTable(table: string)
    | FlushTable(table: string)
    | DeleteTable(table: string)
    | AddChain(table: string, chain: string)
    | DeleteChain(table: string, chain: string)

  /** The chains of every table of family netdev. */
  type Kernel = map<string, set<string>>

  /** One nft command. Flushing removes rules and keeps chains. */
  function Apply(k: Kernel, c: Command): Option<Kernel> {
    match c
    case AddTable(t) => Some(if t in k then k else k[t := {}])
    case FlushTable(t) => if t in k then Some(k) else None
    case DeleteTable(t) => if t in k then Some(k - {t}) else None
    case AddChain(t, n) => if t in k then Some(k[t := k[t] + {n}]) else None
    case DeleteChain(t, n) => if t in k && n in k[t] then Some(k[t := k[t] - {n}]) else None
  }

  /** A whole script is one transaction: it fails as soon as one command does. */
  function Run(k: Kernel, script: seq<Command>): Option<Kernel>
    decreases script
  {
    if script == [] then Some(k)
    else match Apply(k, script[0])
      case None => None
      case Some(k') => Run(k', script[1..])
  }

  lemma {:induction false} RunConcat(k: Kernel, a: seq<Command>, b: seq<Command>)
    ensures Run(k, a + b) == match Run(k, a) case None => None case Some(k') => Run(k', b)
    decreases a
  {
    if a == [] {
      assert a + b == b;
    } else {
      assert (a + b)[1..] == a[1..] + b;
      match Apply(k, a[0])
      case None =>
      case Some(k') => RunConcat(k', a[1..], b);
    }
  }

  const IFNAMSIZ := 16

  predicate IsAlpha(c: char) { 'a' <= c <= 'z' || 'A' <= c <= 'Z' }
  predicate IsDigit(c: char) { '0' <= c <= '9' }

  /** _nft_ifname_valid(): names nft can parse. */
  predicate IfnameValid(name: string) {
    && 0 < |name| < IFNAMSIZ
    && (forall i :: 0 <= i < |name| ==>
          || IsAlpha(name[i]) || name[i] == '_' || name[i] == '.'
          || (0 < i && (IsDigit(name[i]) || name[i] == '/' || name[i] == '-')))
  }

  /** The loop of _nft_ifname_valid() over the characters of a name. */
  method NftIfnameValid(name: string) returns (valid: bool)
    ensures valid <==> IfnameValid(name)
  {
    if name == [] {
      return false;
    }
    var i := 0;
    while i < |name|
      invariant i <= |name|
      invariant forall j :: 0 <= j < i ==>
                  || IsAlpha(name[j]) || name[j] == '_' || name[j] == '.'
                  || (0 < j && (IsDigit(name[j]) || name[j] == '/' || name[j] == '-'))
    {
      var c := name[i];
      if 'a' <= c <= 'z' || 'A' <= c <= 'Z' || c == '_' || c == '.' {
      } else if '0' <= c <= '9' || c == '/' || c == '-' {
        if i == 0 {
          return false;
        }
      } else {
        return false;
      }
      i := i + 1;
    }
    return i < 16;
  }

  function HexDigit(n: nat): char
    requires n < 16
  {
    if n < 10 then ('0' as int + n) as char else ('a' as int + n - 10) as char
  }

  function SanitizeChar(c: char): string {
    if IsAlpha(c) || IsDigit(c) then [c]
    else ['_', HexDigit(c as int / 16 % 16), HexDigit(c as int % 16)]
  }

  /** _strbuf_set_sanitized() without its prefix. */
  function Sanitize(s: string): string {
    if s == [] then [] else SanitizeChar(s[0]) + Sanitize(s[1..])
  }

  function TableName(bond: string): string { "nm-mlag-" + Sanitize(bond) }
  function ChainName(member: string): string { "rx-drop-bc-mc-" + Sanitize(member) }

  const SNOOP_CHAIN := "tx-snoop-source-mac"
  const LOOP_CHAIN := "rx-drop-looped-packets"
  const BASE_CHAINS := {SNOOP_CHAIN, LOOP_CHAIN}

  function TableCommands(table: string, up: bool): seq<Command> {
    [AddTable(table), if up then FlushTable(table) else DeleteTable(table)]
  }

  function ReplacedCommands(bond: string, replaced: seq<string>): seq<Command> {
    if replaced == [] then []
    else (if replaced[0] == bond then [] else TableCommands(TableName(replaced[0]), false))
         + ReplacedCommands(bond, replaced[1..])
  }

  function ForgetCommands(table: string, previous: seq<string>): seq<Command> {
    if previous == [] then []
    else (if IfnameValid(previous[0])
          then [AddChain(table, ChainName(previous[0])), DeleteChain(table, ChainName(previous[0]))]
          else [])
         + ForgetCommands(table, previous[1..])
  }

  /** The member at index 0 is the primary: its chain is created and deleted again. */
  function MemberCommands(table: string, members: seq<string>, primary: bool): seq<Command> {
    if members == [] then []
    else (if IfnameValid(members[0])
          then [AddChain(table, ChainName(members[0]))]
               + (if primary then [DeleteChain(table, ChainName(members[0]))] else [])
          else [])
         + MemberCommands(table, members[1..], false)
  }

  /** nm_firewall_nft_stdio_mlag(). */
  function MlagScript(up: bool, bond: string, replaced: seq<string>, active: seq<string>,
                      previous: seq<string>): seq<Command>
  {
    var table := TableName(bond);
    ReplacedCommands(bond, replaced)
    + (TableCommands(table, up)
       + (if !up || !IfnameValid(bond) then []
          else ForgetCommands(table, previous)
               + (MemberCommands(table, active, true)
                  + [AddChain(table, SNOOP_CHAIN), AddChain(table, LOOP_CHAIN)])))
  }

  /** The chains nft can create for some members. */
  function ChainsOf(members: set<string>): set<string> {
    set m | m in members && IfnameValid(m) :: ChainName(m)
  }

  function TablesOf(bonds: set<string>): set<string> {
    set b | b in bonds :: TableName(b)
  }

  function Chains(k: Kernel, bond: string): set<string> {
    if TableName(bond) in k then k[TableName(bond)] else {}
  }

  /** What an up-script does: the replaced tables vanish, the forgotten members and the primary
      lose their chains, every other active member has one. */
  function UpEffect(k: Kernel, bond: string, replaced: set<string>, active: seq<string>,
                    forget: set<string>): Kernel
  {
    var k' := k - TablesOf(replaced - {bond});
    var chains := Chains(k', bond);
    k'[TableName(bond) :=
        if IfnameValid(bond)
        then chains - ChainsOf(forget) - ChainsOf(Elements(Head(active)))
             + ChainsOf(Elements(Tail(active))) + BASE_CHAINS
        else chains]
  }

  function Head(s: seq<string>): seq<string> { if s == [] then [] else s[..1] }
  function Tail(s: seq<string>): seq<string> { if s == [] then [] else s[1..] }

  lemma {:induction false} RunReplaced(k: Kernel, bond: string, replaced: seq<string>)
    ensures Run(k, ReplacedCommands(bond, replaced)) == Some(k - TablesOf(Elements(replaced) - {bond}))
    decreases replaced
  {
    if replaced == [] {
      assert TablesOf(Elements(replaced) - {bond}) == {} && k - {} == k;
    } else {
      var d, rest := replaced[0], replaced[1..];
      assert replaced == [d] + rest;
      ElementsConcat([d], rest);
      if d == bond {
        assert ReplacedCommands(bond, replaced) == ReplacedCommands(bond, rest);
        RunReplaced(k, bond, rest);
        assert Elements(replaced) - {bond} == Elements(rest) - {bond};
      } else {
        RunTableCommands(k, TableName(d), false);
        RunConcat(k, TableCommands(TableName(d), false), ReplacedCommands(bond, rest));
        RunReplaced(k - {TableName(d)}, bond, rest);
        var gone := TablesOf(Elements(rest) - {bond});
        assert TablesOf(Elements(replaced) - {bond}) == {TableName(d)} + gone;
        assert k - {TableName(d)} - gone == k - ({TableName(d)} + gone);
      }
    }
  }

  /** Adding a table before deleting it makes the deletion succeed in any case. */
  lemma RunTableCommands(k: Kernel, table: string, up: bool)
    ensures Run(k, TableCommands(table, up)) ==
            Some(if up then (if table in k then k else k[table := {}]) else k - {table})
  {
    var k1 := Apply(k, AddTable(table)).value;
    var rest := TableCommands(table, up)[1..];
    assert rest[1..] == [];
    assert Run(k1, rest) == Apply(k1, rest[0]);
    assert !up ==> k1 - {table} == k - {table};
  }

  lemma PutTwice(k: Kernel, table: string, a: set<string>, b: set<string>)
    ensures k[table := a][table := b] == k[table := b]
  {
  }

  lemma RunAdd(k: Kernel, table: string, chain: string, rest: seq<Command>)
    requires table in k
    ensures Run(k, [AddChain(table, chain)] + rest) == Run(k[table := k[table] + {chain}], rest)
  {
  }

  /** Adding a chain before deleting it makes the deletion succeed in any case. */
  lemma RunAddDelete(k: Kernel, table: string, chain: string, rest: seq<Command>)
    requires table in k
    ensures Run(k, [AddChain(table, chain), DeleteChain(table, chain)] + rest) ==
            Run(k[table := k[table] - {chain}], rest)
  {
    var k1 := k[table := k[table] + {chain}];
    var script := [DeleteChain(table, chain)] + rest;
    assert [AddChain(table, chain), DeleteChain(table, chain)] + rest == [AddChain(table, chain)] + script;
    RunAdd(k, table, chain, script);
    RunDelete(k1, table, chain, rest);
    PutTwice(k, table, k1[table], k1[table] - {chain});
    assert k1[table] - {chain} == k[table] - {chain};
  }

  lemma RunDelete(k: Kernel, table: string, chain: string, rest: seq<Command>)
    requires table in k && chain in k[table]
    ensures Run(k, [DeleteChain(table, chain)] + rest) == Run(k[table := k[table] - {chain}], rest)
  {
    assert ([DeleteChain(table, chain)] + rest)[1..] == rest;
  }

  lemma ChainsOfCons(members: seq<string>)
    requires members != []
    ensures ChainsOf(Elements(members)) ==
            (if IfnameValid(members[0]) then {ChainName(members[0])} else {}) + ChainsOf(Elements(members[1..]))
  {
  }

  lemma {:induction false} RunForget(k: Kernel, table: string, previous: seq<string>)
    requires table in k
    ensures Run(k, ForgetCommands(table, previous)) ==
            Some(k[table := k[table] - ChainsOf(Elements(previous))])
    decreases previous
  {
    if previous == [] {
      assert k[table] - ChainsOf(Elements(previous)) == k[table];
      assert k[table := k[table]] == k;
    } else {
      var m, rest := previous[0], previous[1..];
      var gone := ChainsOf(Elements(rest));
      ChainsOfCons(previous);
      if IfnameValid(m) {
        var chains := k[table] - {ChainName(m)};
        RunAddDelete(k, table, ChainName(m), ForgetCommands(table, rest));
        RunForget(k[table := chains], table, rest);
        PutTwice(k, table, chains, chains - gone);
        assert chains - gone == k[table] - ChainsOf(Elements(previous));
      } else {
        assert ForgetCommands(table, previous) == ForgetCommands(table, rest);
        RunForget(k, table, rest);
        assert k[table] - gone == k[table] - ChainsOf(Elements(previous));
      }
    }
  }

  lemma {:induction false} RunMembers(k: Kernel, table: string, members: seq<string>)
    requires table in k
    ensures Run(k, MemberCommands(table, members, false)) ==
            Some(k[table := k[table] + ChainsOf(Elements(members))])
    decreases members
  {
    if members == [] {
      assert k[table] + ChainsOf(Elements(members)) == k[table];
      assert k[table := k[table]] == k;
    } else {
      var m, rest := members[0], members[1..];
      var more := ChainsOf(Elements(rest));
      ChainsOfCons(members);
      if IfnameValid(m) {
        var chains := k[table] + {ChainName(m)};
        assert MemberCommands(table, members, false) ==
               [AddChain(table, ChainName(m))] + MemberCommands(table, rest, false);
        RunAdd(k, table, ChainName(m), MemberCommands(table, rest, false));
        RunMembers(k[table := chains], table, rest);
        PutTwice(k, table, chains, chains + more);
        assert chains + more == k[table] + ChainsOf(Elements(members));
      } else {
        assert MemberCommands(table, members, false) == MemberCommands(table, rest, false);
        RunMembers(k, table, rest);
        assert k[table] + more == k[table] + ChainsOf(Elements(members));
      }
    }
  }

  lemma RunActive(k: Kernel, table: string, active: seq<string>)
    requires table in k
    ensures Run(k, MemberCommands(table, active, true)) ==
            Some(k[table := k[table] - ChainsOf(Elements(Head(active))) + ChainsOf(Elements(Tail(active)))])
  {
    if active == [] {
      assert k[table] - ChainsOf(Elements(Head(active))) + ChainsOf(Elements(Tail(active))) == k[table];
      assert k[table := k[table]] == k;
    } else {
      var m, rest := active[0], MemberCommands(table, active[1..], false);
      var more := ChainsOf(Elements(active[1..]));
      ChainsOfCons(Head(active));
      assert Head(active)[1..] == [];
      if IfnameValid(m) {
        var pair := [AddChain(table, ChainName(m)), DeleteChain(table, ChainName(m))];
        assert MemberCommands(table, active, true) == pair + rest;
        RunAddDelete(k, table, ChainName(m), rest);
        var chains := k[table] - {ChainName(m)};
        RunMembers(k[table := chains], table, active[1..]);
        PutTwice(k, table, chains, chains + more);
        assert chains == k[table] - ChainsOf(Elements(Head(active)));
      } else {
        assert MemberCommands(table, active, true) == rest;
        RunMembers(k, table, active[1..]);
        assert k[table] == k[table] - ChainsOf(Elements(Head(active)));
      }
    }
  }

  /** An up-script always applies, whatever is in the kernel, and leaves the stated tables. It
      depends on the set of forgotten members only, not on how they are listed. */
  lemma UpScript(k: Kernel, bond: string, replaced: seq<string>, active: seq<string>,
                 previous: seq<string>)
    ensures Run(k, MlagScript(true, bond, replaced, active, previous)) ==
            Some(UpEffect(k, bond, Elements(replaced), active, Elements(previous)))
  {
    var table := TableName(bond);
    var k1 := k - TablesOf(Elements(replaced) - {bond});
    var k2 := if table in k1 then k1 else k1[table := {}];
    RunReplaced(k, bond, replaced);
    RunTableCommands(k1, table, true);
    var tail := if !IfnameValid(bond) then []
                else ForgetCommands(table, previous)
                     + (MemberCommands(table, active, true)
                        + [AddChain(table, SNOOP_CHAIN), AddChain(table, LOOP_CHAIN)]);
    RunConcat(k, ReplacedCommands(bond, replaced), TableCommands(table, true) + tail);
    RunConcat(k1, TableCommands(table, true), tail);
    if IfnameValid(bond) {
      RunTail(k2, table, active, previous);
      PutTwice(k1, table, {}, UpEffect(k, bond, Elements(replaced), active, Elements(previous))[table]);
    } else {
      assert k1[table := Chains(k1, bond)] == k2;
    }
  }

  lemma RunTail(k: Kernel, table: string, active: seq<string>, previous: seq<string>)
    requires table in k
    ensures Run(k, ForgetCommands(table, previous)
                   + (MemberCommands(table, active, true)
                      + [AddChain(table, SNOOP_CHAIN), AddChain(table, LOOP_CHAIN)])) ==
            Some(k[table := k[table] - ChainsOf(Elements(previous)) - ChainsOf(Elements(Head(active)))
                            + ChainsOf(Elements(Tail(active))) + BASE_CHAINS])
  {
    var base := [AddChain(table, SNOOP_CHAIN), AddChain(table, LOOP_CHAIN)];
    var c1 := k[table] - ChainsOf(Elements(previous));
    var c2 := c1 - ChainsOf(Elements(Head(active))) + ChainsOf(Elements(Tail(active)));
    RunForget(k, table, previous);
    RunConcat(k, ForgetCommands(table, previous), MemberCommands(table, active, true) + base);
    RunActive(k[table := c1], table, active);
    RunConcat(k[table := c1], MemberCommands(table, active, true), base);
    PutTwice(k, table, c1, c2);
    RunBase(k[table := c2], table);
    PutTwice(k, table, c2, c2 + BASE_CHAINS);
  }

  lemma RunBase(k: Kernel, table: string)
    requires table in k
    ensures Run(k, [AddChain(table, SNOOP_CHAIN), AddChain(table, LOOP_CHAIN)]) ==
            Some(k[table := k[table] + BASE_CHAINS])
  {
    var k1 := k[table := k[table] + {SNOOP_CHAIN}];
    assert [AddChain(table, SNOOP_CHAIN), AddChain(table, LOOP_CHAIN)] ==
           [AddChain(table, SNOOP_CHAIN)] + ([AddChain(table, LOOP_CHAIN)] + []);
    RunAdd(k, table, SNOOP_CHAIN, [AddChain(table, LOOP_CHAIN)] + []);
    RunAdd(k1, table, LOOP_CHAIN, []);
    PutTwice(k, table, k1[table], k1[table] + {LOOP_CHAIN});
    assert k[table] + {SNOOP_CHAIN} + {LOOP_CHAIN} == k[table] + BASE_CHAINS;
  }

  /** A down-script always applies and removes exactly the table of the bond. */
  lemma DownScript(k: Kernel, bond: string)
    ensures Run(k, MlagScript(false, bond, [], [], [])) == Some(k - {TableName(bond)})
  {
    var table := TableName(bond);
    RunTableCommands(k, table, false);
    assert [] + (TableCommands(table, false) + []) == TableCommands(table, false);
  }

  function HexValue(c: char): nat {
    if '0' <= c <= '9' then c as int - '0' as int
    else if 'a' <= c <= 'f' then c as int - 'a' as int + 10
    else 0
  }

  /** Reads a sanitized string back: an underscore is followed by the two hex digits of a byte. */
  function Unsanitize(s: string): string {
    if s == [] then []
    else if s[0] == '_' && |s| >= 3 then
      [(16 * HexValue(s[1]) + HexValue(s[2])) as char] + Unsanitize(s[3..])
    else [s[0]] + Unsanitize(s[1..])
  }

  predicate IsByteString(s: string) {
    forall i :: 0 <= i < |s| ==> s[i] as int < 256
  }

  lemma HexDigitReads(n: nat)
    requires n < 16
    ensures HexValue(HexDigit(n)) == n
  {
  }

  lemma SanitizedCharReads(c: char, rest: string)
    requires c as int < 256
    ensures Unsanitize(SanitizeChar(c) + rest) == [c] + Unsanitize(rest)
  {
    var s := SanitizeChar(c) + rest;
    if IsAlpha(c) || IsDigit(c) {
      assert s[1..] == rest;
    } else {
      HexDigitReads(c as int / 16);
      HexDigitReads(c as int % 16);
      assert s[3..] == rest && c as int / 16 % 16 == c as int / 16;
    }
  }

  /** Sanitizing loses nothing. */
  lemma {:induction false} SanitizeRoundTrip(s: string)
    requires IsByteString(s)
    ensures Unsanitize(Sanitize(s)) == s
  {
    if s != [] {
      SanitizeRoundTrip(s[1..]);
      SanitizedCharReads(s[0], Sanitize(s[1..]));
    }
  }

  /** Different names never share a table or a chain. */
  lemma SanitizeInjective(a: string, b: string)
    requires IsByteString(a) && IsByteString(b)
    requires Sanitize(a) == Sanitize(b)
    ensures a == b
  {
    SanitizeRoundTrip(a);
    SanitizeRoundTrip(b);
  }

  /** Chain names tell members apart from each other and from the base chains. */
  lemma ChainNameOf(m: string, members: set<string>)
    requires IsByteString(m)
    ensures ChainName(m) !in BASE_CHAINS
    ensures ChainName(m) in ChainsOf(members) <==> m in members && IfnameValid(m)
  {
    var prefix := "rx-drop-bc-mc-";
    assert ChainName(m)[0] == 'r' && SNOOP_CHAIN[0] == 't';
    assert ChainName(m)[8] == 'b' && LOOP_CHAIN[8] == 'l';
    if ChainName(m) in ChainsOf(members) {
      var x :| x in members && IfnameValid(x) && ChainName(x) == ChainName(m);
      assert ChainName(x)[|prefix|..] == Sanitize(x) && ChainName(m)[|prefix|..] == Sanitize(m);
      SanitizeInjective(x, m);
    }
  }

  /** Broadcast and multicast are received on the first active member, and dropped on every other one
      that has a name nft can parse. */
  lemma PrimaryReceivesBroadcast(active: seq<string>)
    requires active != [] && Distinct(active) && forall m :: m in active ==> IsByteString(m)
    ensures ChainName(active[0]) !in BASE_CHAINS + ChainsOf(Elements(Tail(active)))
    ensures forall i :: 1 <= i < |active| ==>
              (ChainName(active[i]) in ChainsOf(Elements(Tail(active))) <==> IfnameValid(active[i]))
  {
    assert active[0] in active;
    ChainNameOf(active[0], Elements(Tail(active)));
    forall i | 1 <= i < |active|
      ensures ChainName(active[i]) in ChainsOf(Elements(Tail(active))) <==> IfnameValid(active[i])
    {
      assert active[i] in active && active[i] == Tail(active)[i - 1];
      assert active[i] in Elements(Tail(active));
      ChainNameOf(active[i], Elements(Tail(active)));
    }
  }
}
