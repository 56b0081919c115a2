/**
 * The list of checkpoints (src/core/nm-checkpoint-manager.c:45-232; src/core/nm-checkpoint.c:119-148,
 * 513-535, 732-739): which checkpoints may overlap, what a rollback takes away, and where the record
 * of a device is kept.
 */
module Checkpoints {
  import opened Common

  type Device = nat

  /** A DeviceCheckpoint: what was noted about a device when the checkpoint was made. */
  datatype Record = Record(device: Device, acVersion: Option<nat>)

  datatype Checkpoint = Checkpoint(id: nat, allowOverlapping: bool, devices: map<Device, Record>, removed: seq<Record>)

  datatype Flags = Flags(destroyAll: bool, allowOverlapping: bool, disconnectNew: bool)

  datatype Error = DisconnectNeedsEmptyList | UnknownDevice | NotRealized | NoDevice | AlreadyIncluded

  datatype Result = Ok | Err(error: Error)

  /** A request to create a checkpoint: the paths asked for, the devices behind paths, all devices, and
      which devices are realized. */
  datatype Request = Request(paths: seq<string>, byPath: map<string, Device>, all: seq<Device>, realized: set<Device>,
                             flags: Flags)

  predicate Overlap(a: Checkpoint, b: Checkpoint) {
    a.devices.Keys * b.devices.Keys != {}
  }

  /** nm_checkpoint_includes_devices_of(). */
  predicate IncludesDevicesOf(c: Checkpoint, forDevices: Checkpoint) {
    exists d :: d in forDevices.devices && d in c.devices
  }

  lemma CommonDevice(c: Checkpoint, forDevices: Checkpoint)
    ensures IncludesDevicesOf(c, forDevices) <==> Overlap(c, forDevices)
  {
    var common := c.devices.Keys * forDevices.devices.Keys;
    if common != {} {
      var d :| d in common;
    }
    if IncludesDevicesOf(c, forDevices) {
      var d :| d in forDevices.devices && d in c.devices;
      assert d in common;
    }
  }

  // ----- What a checkpoint keeps --------------------------------------------------------------

  /** Every record is filed under its device, and no device has two records. */
  ghost predicate Filed(c: Checkpoint) {
    && (forall d :: d in c.devices ==> c.devices[d].device == d)
    && (forall r :: r in c.removed ==> r.device !in c.devices)
    && (forall i, j :: 0 <= i < j < |c.removed| ==> c.removed[i].device != c.removed[j].device)
  }

  ghost function Records(c: Checkpoint): set<Record> {
    c.devices.Values + Elements(c.removed)
  }

  /** _move_dev_to_removed_devices(). */
  function MoveToRemoved(c: Checkpoint, d: Device): Checkpoint {
    if d in c.devices then c.(devices := c.devices - {d}, removed := c.removed + [c.devices[d]]) else c
  }

  /** Moving a device loses no record, duplicates none, and creates no overlap. */
  lemma MoveKeepsRecords(c: Checkpoint, d: Device)
    requires Filed(c)
    ensures var c' := MoveToRemoved(c, d);
            && Filed(c') && Records(c') == Records(c)
            && c'.devices.Keys == c.devices.Keys - {d}
            && c'.id == c.id && c'.allowOverlapping == c.allowOverlapping
  {
    if d in c.devices {
      var c' := MoveToRemoved(c, d);
      ElementsConcat(c.removed, [c.devices[d]]);
      assert c.devices.Values == c'.devices.Values + {c.devices[d]} by {
        forall r ensures r in c.devices.Values <==> r in c'.devices.Values || r == c.devices[d] {
          if r in c.devices.Values {
            var e :| e in c.devices && c.devices[e] == r;
            assert e != d ==> e in c'.devices && c'.devices[e] == r;
          }
        }
      }
    } else {
      assert c.devices.Keys - {d} == c.devices.Keys;
    }
  }

  // ----- The list -----------------------------------------------------------------------------

  /** Oldest first. Two checkpoints share a device only if the younger may overlap. */
  ghost predicate Inv(list: seq<Checkpoint>) {
    && (forall i :: 0 <= i < |list| ==> Filed(list[i]))
    && (forall i, j :: 0 <= i < j < |list| ==> list[i].id != list[j].id)
    && (forall i, j :: 0 <= i < j < |list| && Overlap(list[i], list[j]) ==> list[j].allowOverlapping)
  }

  function Apart(list: seq<Checkpoint>, c: Checkpoint): seq<Checkpoint> {
    if list == [] then []
    else if Overlap(list[0], c) then Apart(list[1..], c)
    else [list[0]] + Apart(list[1..], c)
  }

  /** One step of the walk: the entry is unlinked or passed. */
  lemma WalkStep(list: seq<Checkpoint>, i: nat, c: Checkpoint)
    requires i < |list|
    ensures var next := list[..i] + list[i + 1..];
            list[..i] + Apart(list[i..], c) ==
            if Overlap(list[i], c) then next[..i] + Apart(next[i..], c) else list[..i + 1] + Apart(list[i + 1..], c)
  {
  }

  /** rollback_checkpoint(): the checkpoint goes, and every younger one overlapping it. */
  function RolledBack(list: seq<Checkpoint>, k: nat): seq<Checkpoint>
    requires k < |list|
  {
    list[..k] + Apart(list[k + 1..], list[k])
  }

  function DeviceGone(list: seq<Checkpoint>, d: Device): (r: seq<Checkpoint>)
    ensures |r| == |list| && forall i :: 0 <= i < |r| ==> r[i] == MoveToRemoved(list[i], d)
  {
    seq(|list|, i requires 0 <= i < |list| => MoveToRemoved(list[i], d))
  }

  /** A list is what is left of another one when entries are dropped: `kept` are the old positions. */
  ghost predicate Picks(r: seq<Checkpoint>, list: seq<Checkpoint>, kept: seq<nat>) {
    && |kept| == |r|
    && (forall i :: 0 <= i < |kept| ==> kept[i] < |list| && r[i] == list[kept[i]])
    && (forall i, j :: 0 <= i < j < |kept| ==> kept[i] < kept[j])
  }

  lemma PicksKeepInv(r: seq<Checkpoint>, list: seq<Checkpoint>, kept: seq<nat>)
    requires Inv(list) && Picks(r, list, kept)
    ensures Inv(r)
  {
  }

  function Shifted(kept: seq<nat>, n: nat): (r: seq<nat>)
    ensures |r| == |kept| && forall i :: 0 <= i < |r| ==> r[i] == kept[i] + n
  {
    seq(|kept|, i requires 0 <= i < |kept| => kept[i] + n)
  }

  lemma ShiftedMember(kept: seq<nat>, n: nat, x: nat)
    ensures x in Shifted(kept, n) <==> x >= n && x - n in kept
  {
  }

  lemma ShiftedPicks(r: seq<Checkpoint>, list: seq<Checkpoint>, n: nat, kept: seq<nat>)
    requires n <= |list| && Picks(r, list[n..], kept)
    ensures Picks(r, list, Shifted(kept, n))
  {
  }

  function Identity(k: nat): (r: seq<nat>)
    ensures |r| == k && forall i :: 0 <= i < k ==> r[i] == i
  {
    seq(k, i requires 0 <= i => i)
  }

  lemma PrefixPicks(r: seq<Checkpoint>, list: seq<Checkpoint>, k: nat, kept: seq<nat>)
    requires k <= |list| && Picks(r, list, kept) && forall i :: 0 <= i < |kept| ==> kept[i] >= k
    ensures Picks(list[..k] + r, list, Identity(k) + kept)
  {
  }

  /** Exactly the checkpoints apart from another one stay. */
  ghost predicate KeptApart(list: seq<Checkpoint>, c: Checkpoint, kept: seq<nat>) {
    forall i :: 0 <= i < |list| ==> (i in kept <==> !Overlap(list[i], c))
  }

  lemma {:induction false} ApartPicks(list: seq<Checkpoint>, c: Checkpoint) returns (kept: seq<nat>)
    ensures Picks(Apart(list, c), list, kept) && KeptApart(list, c, kept)
  {
    if list == [] {
      kept := [];
    } else {
      var rest := ApartPicks(list[1..], c);
      ShiftedPicks(Apart(list[1..], c), list, 1, rest);
      kept := if Overlap(list[0], c) then Shifted(rest, 1) else Identity(1) + Shifted(rest, 1);
      if !Overlap(list[0], c) {
        PrefixPicks(Apart(list[1..], c), list, 1, Shifted(rest, 1));
        assert list[..1] == [list[0]];
      }
      forall i | 0 <= i < |list| ensures i in kept <==> !Overlap(list[i], c) {
        ShiftedMember(rest, 1, i);
        if i > 0 {
          assert list[1..][i - 1] == list[i];
        }
      }
    }
  }

  ghost predicate KeptByRollback(list: seq<Checkpoint>, k: nat, kept: seq<nat>)
    requires k < |list|
  {
    forall i :: 0 <= i < |list| ==> (i in kept <==> i < k || (i > k && !Overlap(list[i], list[k])))
  }

  /** A rollback keeps exactly the older checkpoints and the younger ones that do not overlap the one
      rolled back, in their order. */
  lemma RollbackPicks(list: seq<Checkpoint>, k: nat) returns (kept: seq<nat>)
    requires k < |list|
    ensures Picks(RolledBack(list, k), list, kept) && KeptByRollback(list, k, kept)
  {
    var young := ApartPicks(list[k + 1..], list[k]);
    var shifted := Shifted(young, k + 1);
    ShiftedPicks(Apart(list[k + 1..], list[k]), list, k + 1, young);
    PrefixPicks(Apart(list[k + 1..], list[k]), list, k, shifted);
    kept := Identity(k) + shifted;
    forall i | 0 <= i < |list| ensures i in kept <==> i < k || (i > k && !Overlap(list[i], list[k])) {
      ShiftedMember(young, k + 1, i);
      if i < k {
        assert Identity(k)[i] == i;
      } else if i > k {
        assert list[k + 1..][i - k - 1] == list[i];
      }
    }
  }

  lemma DeviceGoneKeepsInv(list: seq<Checkpoint>, d: Device)
    requires Inv(list)
    ensures Inv(DeviceGone(list, d))
    ensures forall i :: 0 <= i < |list| ==>
              && DeviceGone(list, d)[i].id == list[i].id
              && Records(DeviceGone(list, d)[i]) == Records(list[i])
  {
    var r := DeviceGone(list, d);
    forall i | 0 <= i < |list|
      ensures Filed(r[i]) && r[i].id == list[i].id && r[i].allowOverlapping == list[i].allowOverlapping
      ensures r[i].devices.Keys <= list[i].devices.Keys && Records(r[i]) == Records(list[i])
    {
      MoveKeepsRecords(list[i], d);
    }
    forall i, j | 0 <= i < j < |list| && Overlap(r[i], r[j]) ensures r[j].allowOverlapping {
      SmallerOverlap(r[i], r[j], list[i], list[j]);
    }
  }

  lemma SmallerOverlap(a: Checkpoint, b: Checkpoint, a': Checkpoint, b': Checkpoint)
    requires a.devices.Keys <= a'.devices.Keys && b.devices.Keys <= b'.devices.Keys && Overlap(a, b)
    ensures Overlap(a', b')
  {
  }

  // ----- Creating -----------------------------------------------------------------------------

  /** The devices a request is about, or why it is refused. */
  function Chosen(q: Request): (seq<Device>, Result) {
    if q.paths == [] then
      var devices := RealOnes(q.all, q.realized);
      (devices, if devices == [] then Err(NoDevice) else Ok)
    else if q.flags.disconnectNew then ([], Err(DisconnectNeedsEmptyList))
    else ByPath(q.paths, q.byPath, q.realized)
  }

  function RealOnes(all: seq<Device>, realized: set<Device>): seq<Device> {
    if all == [] then []
    else RealOnes(all[..|all| - 1], realized) + (if all[|all| - 1] in realized then [all[|all| - 1]] else [])
  }

  /** The first path that leads nowhere decides the error. */
  function ByPath(paths: seq<string>, byPath: map<string, Device>, realized: set<Device>): (seq<Device>, Result) {
    if paths == [] then ([], Ok)
    else
      var before := ByPath(paths[..|paths| - 1], byPath, realized);
      var p := paths[|paths| - 1];
      if before.1.Err? then before
      else if p !in byPath then ([], Err(UnknownDevice))
      else if byPath[p] !in realized then ([], Err(NotRealized))
      else (before.0 + [byPath[p]], Ok)
  }

  /** The path leads to a realized device. */
  predicate Leads(q: Request, i: nat)
    requires i < |q.paths|
  {
    q.paths[i] in q.byPath && q.byPath[q.paths[i]] in q.realized
  }

  ghost predicate FirstBad(q: Request, i: nat) {
    i < |q.paths| && !Leads(q, i) && forall j :: 0 <= j < i ==> Leads(q, j)
  }

  /** The request is about this device: every realized one, or those behind the paths. */
  ghost predicate Asks(q: Request, d: Device) {
    if q.paths == [] then d in q.all && d in q.realized
    else exists i :: 0 <= i < |q.paths| && q.paths[i] in q.byPath && q.byPath[q.paths[i]] == d
  }

  lemma {:induction false} RealOnesMeans(all: seq<Device>, realized: set<Device>, d: Device)
    ensures d in RealOnes(all, realized) <==> d in all && d in realized
  {
    if all != [] {
      RealOnesMeans(all[..|all| - 1], realized, d);
      assert all == all[..|all| - 1] + [all[|all| - 1]];
    }
  }

  /** The devices behind the paths, or the error of the first path that does not lead anywhere. */
  lemma {:induction false} ByPathMeans(q: Request, n: nat)
    requires n <= |q.paths|
    ensures var (devices, r) := ByPath(q.paths[..n], q.byPath, q.realized);
            if r.Ok? then
              && |devices| == n
              && forall i :: 0 <= i < n ==> Leads(q, i) && devices[i] == q.byPath[q.paths[i]]
            else exists i: nat :: i < n && FirstBad(q, i) &&
                   r.error == if q.paths[i] !in q.byPath then UnknownDevice else NotRealized
  {
    if n > 0 {
      ByPathMeans(q, n - 1);
      assert q.paths[..n][..n - 1] == q.paths[..n - 1];
      if ByPath(q.paths[..n - 1], q.byPath, q.realized).1.Ok? && !Leads(q, n - 1) {
        assert FirstBad(q, n - 1);
      }
    }
  }

  /** Which devices a request is about, and every reason to refuse it. */
  lemma ChosenMeans(q: Request)
    ensures Chosen(q).1.Ok? ==> forall d :: d in Chosen(q).0 <==> Asks(q, d)
    ensures q.paths == [] ==>
              Chosen(q).1 == if exists d :: d in q.all && d in q.realized then Ok else Err(NoDevice)
    ensures q.paths != [] && q.flags.disconnectNew ==> Chosen(q).1 == Err(DisconnectNeedsEmptyList)
    ensures q.paths != [] && !q.flags.disconnectNew ==>
              && (Chosen(q).1.Ok? <==> forall i :: 0 <= i < |q.paths| ==> Leads(q, i))
              && forall i: nat :: FirstBad(q, i) ==>
                   Chosen(q).1 == Err(if q.paths[i] !in q.byPath then UnknownDevice else NotRealized)
  {
    if q.paths == [] {
      var devices := RealOnes(q.all, q.realized);
      forall d ensures d in devices <==> d in q.all && d in q.realized {
        RealOnesMeans(q.all, q.realized, d);
      }
      assert devices != [] ==> devices[0] in devices;
    } else if !q.flags.disconnectNew {
      ByPathMeans(q, |q.paths|);
      assert q.paths[..|q.paths|] == q.paths;
    }
  }

  predicate Includes(c: Checkpoint, devices: seq<Device>) {
    exists i :: 0 <= i < |devices| && devices[i] in c.devices
  }

  predicate AnyIncludes(list: seq<Checkpoint>, devices: seq<Device>) {
    exists i :: 0 <= i < |list| && Includes(list[i], devices)
  }

  /** The records nm_checkpoint_new() makes; a device named twice is recorded once. */
  function Recorded(devices: seq<Device>, version: Device -> Option<nat>): (r: map<Device, Record>)
    ensures r.Keys == Elements(devices)
  {
    map d | d in devices :: Record(d, version(d))
  }

  function NewCheckpoint(id: nat, q: Request, version: Device -> Option<nat>): Checkpoint {
    Checkpoint(id, q.flags.allowOverlapping, Recorded(Chosen(q).0, version), [])
  }

  function Verdict(list: seq<Checkpoint>, q: Request): Result {
    var (devices, r) := Chosen(q);
    if r.Err? then r
    else if !q.flags.destroyAll && !q.flags.allowOverlapping && AnyIncludes(list, devices) then Err(AlreadyIncluded)
    else Ok
  }

  /** nm_checkpoint_manager_create(): nothing changes on error. */
  function Created(list: seq<Checkpoint>, id: nat, q: Request, version: Device -> Option<nat>): seq<Checkpoint> {
    if Verdict(list, q).Err? then list
    else (if q.flags.destroyAll then [] else list) + [NewCheckpoint(id, q, version)]
  }

  lemma CreatedKeepsInv(list: seq<Checkpoint>, id: nat, q: Request, version: Device -> Option<nat>)
    requires Inv(list) && forall i :: 0 <= i < |list| ==> list[i].id != id
    ensures Inv(Created(list, id, q, version))
  {
  }

  /** A request that is not refused for its devices, and does not replace all checkpoints, is refused exactly
      if the new checkpoint would break the overlap rule. */
  lemma RefusedExactlyWhen(list: seq<Checkpoint>, id: nat, q: Request, version: Device -> Option<nat>)
    requires Inv(list) && (forall i :: 0 <= i < |list| ==> list[i].id != id) && Chosen(q).1.Ok?
    ensures q.flags.destroyAll ==> Verdict(list, q) == Ok
    ensures !q.flags.destroyAll ==>
              Verdict(list, q) == if Inv(list + [NewCheckpoint(id, q, version)]) then Ok else Err(AlreadyIncluded)
  {
    var c := NewCheckpoint(id, q, version);
    var all := list + [c];
    if !q.flags.destroyAll && Verdict(list, q).Err? {
      var i :| 0 <= i < |list| && Includes(list[i], Chosen(q).0);
      var k :| 0 <= k < |Chosen(q).0| && Chosen(q).0[k] in list[i].devices;
      assert Chosen(q).0[k] in list[i].devices.Keys * c.devices.Keys;
      assert Overlap(all[i], all[|list|]) && !all[|list|].allowOverlapping;
    } else {
      CreatedKeepsInv(list, id, q, version);
    }
  }

  /** What a request that is not refused leaves: the new checkpoint, as asked for, after all others or in
      place of them. */
  lemma CreatedMeans(list: seq<Checkpoint>, id: nat, q: Request, version: Device -> Option<nat>)
    ensures Verdict(list, q).Err? ==> Created(list, id, q, version) == list
    ensures Verdict(list, q).Ok? ==>
              var r := Created(list, id, q, version);
              && r != [] && r[..|r| - 1] == (if q.flags.destroyAll then [] else list)
              && r[|r| - 1].id == id && r[|r| - 1].allowOverlapping == q.flags.allowOverlapping
              && r[|r| - 1].removed == [] && forall d :: d in r[|r| - 1].devices <==> Asks(q, d)
  {
    if Verdict(list, q).Ok? {
      ChosenMeans(q);
      var c := NewCheckpoint(id, q, version);
      assert forall d :: d in c.devices <==> d in Chosen(q).0;
    }
  }

  // ----- Whole runs ---------------------------------------------------------------------------

  /** What can happen: requests by clients, a rollback asked for or due, and devices that vanish, also
      while a rollback is at work. */
  datatype Event =
    | Create(request: Request, version: Device -> Option<nat>)
    | Destroy(k: nat)
    | DestroyAll
    | Rollback(position: nat, gone: seq<Device>)
    | DeviceRemoved(device: Device)

  function AllGone(list: seq<Checkpoint>, gone: seq<Device>): seq<Checkpoint> {
    if gone == [] then list else DeviceGone(AllGone(list, gone[..|gone| - 1]), gone[|gone| - 1])
  }

  function Step(list: seq<Checkpoint>, id: nat, e: Event): seq<Checkpoint> {
    match e
    case Create(q, version) => Created(list, id, q, version)
    case Destroy(k) => if k < |list| then list[..k] + list[k + 1..] else list
    case DestroyAll => []
    case Rollback(k, gone) => if k < |list| then AllGone(RolledBack(list, k), gone) else list
    case DeviceRemoved(d) => DeviceGone(list, d)
  }

  /** The i-th event of a run creates checkpoint number i, if any. */
  function Run(events: seq<Event>): seq<Checkpoint> {
    if events == [] then [] else Step(Run(events[..|events| - 1]), |events| - 1, events[|events| - 1])
  }

  /** Ids are handed out in order, and a listed checkpoint still has the records it started with. */
  ghost predicate Below(list: seq<Checkpoint>, n: nat) {
    forall i :: 0 <= i < |list| ==> list[i].id < n
  }

  /** Every listed checkpoint was listed before, with the same records, or is the new one. */
  ghost predicate Descends(list': seq<Checkpoint>, list: seq<Checkpoint>, id: nat) {
    forall i :: 0 <= i < |list'| ==> list'[i].id == id || HasTwin(list, list'[i])
  }

  ghost predicate HasTwin(list: seq<Checkpoint>, c: Checkpoint) {
    exists j :: 0 <= j < |list| && list[j].id == c.id && Records(list[j]) == Records(c)
  }

  lemma PicksDescend(r: seq<Checkpoint>, list: seq<Checkpoint>, kept: seq<nat>, id: nat)
    requires Picks(r, list, kept)
    ensures Descends(r, list, id)
  {
  }

  lemma DestroyPicks(list: seq<Checkpoint>, k: nat) returns (kept: seq<nat>)
    requires k < |list|
    ensures Picks(list[..k] + list[k + 1..], list, kept)
  {
    kept := seq(|list| - 1, i requires 0 <= i < |list| - 1 => if i < k then i else i + 1);
  }

  lemma {:induction false} AllGoneKeepsInv(list: seq<Checkpoint>, gone: seq<Device>)
    requires Inv(list)
    ensures Inv(AllGone(list, gone)) && |AllGone(list, gone)| == |list|
    ensures forall i :: 0 <= i < |list| ==>
              AllGone(list, gone)[i].id == list[i].id && Records(AllGone(list, gone)[i]) == Records(list[i])
  {
    if gone != [] {
      AllGoneKeepsInv(list, gone[..|gone| - 1]);
      DeviceGoneKeepsInv(AllGone(list, gone[..|gone| - 1]), gone[|gone| - 1]);
    }
  }

  lemma SameIdsDescend(r: seq<Checkpoint>, mid: seq<Checkpoint>, list: seq<Checkpoint>, id: nat)
    requires Descends(mid, list, id) && |r| == |mid|
    requires forall i :: 0 <= i < |r| ==> r[i].id == mid[i].id && Records(r[i]) == Records(mid[i])
    ensures Descends(r, list, id)
  {
  }

  lemma ItselfDescends(list: seq<Checkpoint>, id: nat)
    ensures Descends(list, list, id)
  {
  }

  lemma RollbackKeepsInv(list: seq<Checkpoint>, id: nat, k: nat, gone: seq<Device>)
    requires Inv(list) && k < |list|
    ensures Inv(AllGone(RolledBack(list, k), gone)) && Descends(AllGone(RolledBack(list, k), gone), list, id)
  {
    var kept := RollbackPicks(list, k);
    var mid := RolledBack(list, k);
    PicksKeepInv(mid, list, kept);
    PicksDescend(mid, list, kept, id);
    AllGoneKeepsInv(mid, gone);
    SameIdsDescend(AllGone(mid, gone), mid, list, id);
  }

  lemma DestroyKeepsInv(list: seq<Checkpoint>, id: nat, k: nat)
    requires Inv(list) && k < |list|
    ensures Inv(list[..k] + list[k + 1..]) && Descends(list[..k] + list[k + 1..], list, id)
  {
    var kept := DestroyPicks(list, k);
    PicksKeepInv(list[..k] + list[k + 1..], list, kept);
    PicksDescend(list[..k] + list[k + 1..], list, kept, id);
  }

  /** Every step keeps the overlap rule and the records of the checkpoints that stay. */
  lemma StepKeepsInv(list: seq<Checkpoint>, id: nat, e: Event)
    requires Inv(list) && Below(list, id)
    ensures Inv(Step(list, id, e)) && Descends(Step(list, id, e), list, id)
  {
    ItselfDescends(list, id);
    match e
    case Create(q, version) =>
      CreatedKeepsInv(list, id, q, version);
      CreatedDescends(list, id, q, version);
    case Destroy(k) =>
      if k < |list| {
        DestroyKeepsInv(list, id, k);
      }
    case DestroyAll =>
    case Rollback(k, gone) =>
      if k < |list| {
        RollbackKeepsInv(list, id, k, gone);
      }
    case DeviceRemoved(d) =>
      DeviceGoneKeepsInv(list, d);
      SameIdsDescend(DeviceGone(list, d), list, list, id);
  }

  lemma CreatedDescends(list: seq<Checkpoint>, id: nat, q: Request, version: Device -> Option<nat>)
    ensures Descends(Created(list, id, q, version), list, id)
  {
  }

  lemma DescendsBelow(list': seq<Checkpoint>, list: seq<Checkpoint>, id: nat)
    requires Below(list, id) && Descends(list', list, id)
    ensures Below(list', id + 1)
  {
  }

  /** In every run two listed checkpoints share a device only if the younger was allowed to. */
  lemma {:induction false} RunsKeepInv(events: seq<Event>)
    ensures Inv(Run(events)) && Below(Run(events), |events|)
  {
    if events != [] {
      var n := |events| - 1;
      RunsKeepInv(events[..n]);
      StepKeepsInv(Run(events[..n]), n, events[n]);
      DescendsBelow(Run(events), Run(events[..n]), n);
    }
  }

  /** The records a new checkpoint holds: one for each device asked for, with the version its active
      connection has right now. */
  lemma NewRecords(id: nat, q: Request, version: Device -> Option<nat>, r: Record)
    requires Chosen(q).1.Ok?
    ensures r in Records(NewCheckpoint(id, q, version)) <==> Asks(q, r.device) && r.acVersion == version(r.device)
  {
    ChosenMeans(q);
    var c := NewCheckpoint(id, q, version);
    assert r in Records(c) <==> r in c.devices.Values;
    if Asks(q, r.device) {
      assert c.devices[r.device] in c.devices.Values;
    }
  }

  /** In every run a listed checkpoint holds exactly one record for each device it was created for, in one
      place, with the version the active connection of the device had then. */
  lemma RecordsAreConserved(events: seq<Event>, i: nat)
    requires i < |Run(events)|
    ensures var c := Run(events)[i];
            && Filed(c) && c.id < |events| && events[c.id].Create?
            && forall r :: r in Records(c) <==>
                 Asks(events[c.id].request, r.device) && r.acVersion == events[c.id].version(r.device)
  {
    SameRecords(events, i);
    var c := Run(events)[i];
    forall r ensures r in Records(c) <==>
                       Asks(events[c.id].request, r.device) && r.acVersion == events[c.id].version(r.device)
    {
      NewRecords(c.id, events[c.id].request, events[c.id].version, r);
    }
  }

  lemma {:induction false} SameRecords(events: seq<Event>, i: nat)
    requires i < |Run(events)|
    ensures var c := Run(events)[i];
            && Filed(c) && c.id < |events| && events[c.id].Create? && Chosen(events[c.id].request).1.Ok?
            && Records(c) == Records(NewCheckpoint(c.id, events[c.id].request, events[c.id].version))
  {
    var n := |events| - 1;
    var list, e := Run(events[..n]), events[n];
    var c := Run(events)[i];
    RunsKeepInv(events);
    RunsKeepInv(events[..n]);
    StepKeepsInv(list, n, e);
    if c.id == n {
      NewestIsNew(list, n, e, i);
    } else {
      assert HasTwin(list, c);
      var j :| 0 <= j < |list| && list[j].id == c.id && Records(list[j]) == Records(c);
      SameRecords(events[..n], j);
    }
  }

  lemma NewestIsNew(list: seq<Checkpoint>, n: nat, e: Event, i: nat)
    requires Inv(list) && Below(list, n) && i < |Step(list, n, e)| && Step(list, n, e)[i].id == n
    ensures e.Create? && Step(list, n, e)[i] == NewCheckpoint(n, e.request, e.version)
    ensures Chosen(e.request).1.Ok?
  {
    if !e.Create? {
      OldIdsOnly(list, n, e, i);
    } else if i < |list| {
      assert Created(list, n, e.request, e.version)[i] == list[i] || e.request.flags.destroyAll;
    }
  }

  lemma OldIdsOnly(list: seq<Checkpoint>, n: nat, e: Event, i: nat)
    requires Inv(list) && Below(list, n) && !e.Create? && i < |Step(list, n, e)|
    ensures Step(list, n, e)[i].id != n
  {
    match e
    case Destroy(k) =>
    case DestroyAll =>
    case Rollback(k, gone) =>
      if k < |list| {
        var kept := RollbackPicks(list, k);
        PicksKeepInv(RolledBack(list, k), list, kept);
        AllGoneKeepsInv(RolledBack(list, k), gone);
      }
    case DeviceRemoved(d) =>
      DeviceGoneKeepsInv(list, d);
  }

  // ----- The manager --------------------------------------------------------------------------

  class CheckpointManager {
    var list: seq<Checkpoint>
    var nextId: nat

    ghost predicate Valid()
      reads this
    {
      Inv(list) && Below(list, nextId)
    }

    constructor ()
      ensures Valid() && list == []
    {
      list, nextId := [], 0;
    }

    /** destroy_checkpoint(). */
    method DestroyCheckpoint(k: nat)
      requires Valid() && k < |list|
      modifies this`list
      ensures Valid() && list == old(list)[..k] + old(list)[k + 1..]
    {
      ghost var kept := DestroyPicks(list, k);
      PicksKeepInv(list[..k] + list[k + 1..], list, kept);
      list := list[..k] + list[k + 1..];
    }

    /** nm_checkpoint_manager_destroy_all(). */
    method DestroyEverything()
      requires Valid()
      modifies this`list
      ensures Valid() && list == []
    {
      while list != []
        invariant Valid()
        decreases |list|
      {
        DestroyCheckpoint(0);
      }
    }

    /** rollback_checkpoint(): the younger overlapping checkpoints go first. */
    method RollbackCheckpoint(k: nat)
      requires Valid() && k < |list|
      modifies this`list
      ensures Valid() && list == RolledBack(old(list), k)
    {
      DestroyYounger(k);
      DestroyCheckpoint(k);
    }

    /** The list is walked while entries are unlinked from it. */
    method DestroyYounger(k: nat)
      requires Valid() && k < |list|
      modifies this`list
      ensures Valid() && list == old(list)[..k + 1] + Apart(old(list)[k + 1..], old(list)[k])
    {
      var target := list[k];
      var i := k + 1;
      while i < |list|
        invariant Valid() && k < i <= |list|
        invariant list[..i] + Apart(list[i..], target) == old(list)[..k + 1] + Apart(old(list)[k + 1..], target)
        decreases |list| - i
      {
        CommonDevice(list[i], target);
        WalkStep(list, i, target);
        if IncludesDevicesOf(list[i], target) {
          DestroyCheckpoint(i);
        } else {
          i := i + 1;
        }
      }
      assert list[..i] + Apart(list[i..], target) == list;
    }

    /** nm_checkpoint_manager_create(). */
    method CreateCheckpoint(q: Request, version: Device -> Option<nat>) returns (r: Result)
      requires Valid()
      modifies this
      ensures Valid() && r == Verdict(old(list), q)
      ensures list == Created(old(list), old(nextId), q, version)
    {
      CreatedKeepsInv(list, nextId, q, version);
      var devices, error := FindDevices(q);
      if error.Err? {
        return error;
      }
      if q.flags.destroyAll {
        DestroyEverything();
      } else if !q.flags.allowOverlapping {
        var taken := AlreadyTaken(devices);
        if taken {
          return Err(AlreadyIncluded);
        }
      }
      list := list + [Checkpoint(nextId, q.flags.allowOverlapping, Recorded(devices, version), [])];
      nextId := nextId + 1;
      return Ok;
    }

    /** Whether some checkpoint includes one of the devices. */
    method AlreadyTaken(devices: seq<Device>) returns (taken: bool)
      ensures taken == AnyIncludes(list, devices)
    {
      for i := 0 to |list|
        invariant forall j :: 0 <= j < i ==> !Includes(list[j], devices)
      {
        if Includes(list[i], devices) {
          return true;
        }
      }
      return false;
    }

    /** The device list of a request. */
    method FindDevices(q: Request) returns (devices: seq<Device>, r: Result)
      ensures r == Chosen(q).1 && (r.Ok? ==> devices == Chosen(q).0)
    {
      devices := [];
      if q.paths == [] {
        for i := 0 to |q.all|
          invariant devices == RealOnes(q.all[..i], q.realized)
        {
          assert q.all[..i + 1][..i] == q.all[..i];
          if q.all[i] in q.realized {
            devices := devices + [q.all[i]];
          }
        }
        assert q.all[..|q.all|] == q.all;
      } else if q.flags.disconnectNew {
        return [], Err(DisconnectNeedsEmptyList);
      } else {
        for i := 0 to |q.paths|
          invariant ByPath(q.paths[..i], q.byPath, q.realized) == (devices, Ok)
        {
          assert q.paths[..i + 1][..i] == q.paths[..i];
          var p := q.paths[i];
          if p !in q.byPath {
            FirstErrorStays(q.paths, i + 1, q.byPath, q.realized);
            return [], Err(UnknownDevice);
          }
          if q.byPath[p] !in q.realized {
            FirstErrorStays(q.paths, i + 1, q.byPath, q.realized);
            return [], Err(NotRealized);
          }
          devices := devices + [q.byPath[p]];
        }
        assert q.paths[..|q.paths|] == q.paths;
        ByPathCount(q.paths, q.byPath, q.realized);
      }
      return devices, if devices == [] then Err(NoDevice) else Ok;
    }

    /** Every checkpoint hears that a device is gone. */
    method OnDeviceRemoved(d: Device)
      requires Valid()
      modifies this`list
      ensures Valid() && list == DeviceGone(old(list), d)
    {
      DeviceGoneKeepsInv(list, d);
      ghost var was := list;
      for i := 0 to |list|
        invariant |list| == |was|
        invariant forall j :: 0 <= j < |list| ==> list[j] == if j < i then MoveToRemoved(was[j], d) else was[j]
      {
        list := list[i := MoveToRemoved(list[i], d)];
      }
      assert list == DeviceGone(was, d);
    }
  }

  lemma {:induction false} FirstErrorStays(paths: seq<string>, n: nat, byPath: map<string, Device>,
                                           realized: set<Device>)
    requires n <= |paths| && ByPath(paths[..n], byPath, realized).1.Err?
    ensures ByPath(paths, byPath, realized) == ByPath(paths[..n], byPath, realized)
    decreases |paths|
  {
    if n < |paths| {
      var init := paths[..|paths| - 1];
      assert init[..n] == paths[..n];
      FirstErrorStays(init, n, byPath, realized);
    } else {
      assert paths[..n] == paths;
    }
  }

  lemma {:induction false} ByPathCount(paths: seq<string>, byPath: map<string, Device>, realized: set<Device>)
    ensures ByPath(paths, byPath, realized).1.Ok? ==> |ByPath(paths, byPath, realized).0| == |paths|
  {
    if paths != [] {
      ByPathCount(paths[..|paths| - 1], byPath, realized);
    }
  }
}
