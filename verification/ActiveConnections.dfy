/**
 * Active connections (src/core/nm-active-connection.c:243-315, 679-747, 1218-1268, 1455-1476): version ids
 * that reveal a reactivation to a checkpoint, and the pending action that keeps a device busy while it
 * activates. The counter behind the version ids is taken as unbounded.
 */
module ActiveConnections {
  import opened Common

  type Device = nat
  type AcId = nat

  datatype ActState = Unknown | Activating | Activated | Deactivating | Deactivated

  datatype Kind = Managed | Assume | External

  datatype Ac = Ac(version: nat, state: ActState, kind: Kind, device: Option<Device>, pending: Option<nat>)

  /** Calls to nm_device_add_pending_action() and nm_device_remove_pending_action(). */
  datatype Op = Add(device: Device, id: nat) | Remove(from: Option<Device>, id: nat)

  function Rank(s: ActState): nat {
    match s case Unknown => 0 case Activating => 1 case Activated => 2 case Deactivating => 3 case Deactivated => 4
  }

  // ----- One active connection ----------------------------------------------------------------

  datatype Change = Change(ac: Ac, ops: seq<Op>)

  /** _device_cleanup(). */
  function Cleaned(c: Ac): Change {
    Change(c.(device := None, pending := None), if c.pending.Some? then [Remove(c.device, c.pending.value)] else [])
  }

  /** nm_active_connection_set_state(); a deactivated connection stays deactivated. */
  function WithState(c: Ac, st: ActState): Change {
    if (c.state == Deactivated && st != Deactivated) || c.state == st then Change(c, [])
    else
      var settles := c.device.Some? && Rank(c.state) < Rank(Activated) <= Rank(st) && c.pending.Some?;
      var ops := if settles then [Remove(c.device, c.pending.value)] else [];
      var next := c.(state := st, kind := if st == Activated && c.kind == Assume then Managed else c.kind,
                     pending := if settles then None else c.pending);
      if st == Deactivated then Change(Cleaned(next).ac, ops + Cleaned(next).ops) else Change(next, ops)
  }

  /** nm_active_connection_set_device(); the device of the controller is refused, after the old device
      was dropped. */
  function WithDevice(c: Ac, d: Option<Device>, controllerDevice: Option<Device>): Change {
    if d == c.device then Change(c, [])
    else
      var cleaned := Cleaned(c);
      if d.None? || d == controllerDevice then cleaned
      else if c.kind == External then cleaned.(ac := cleaned.ac.(device := d))
      else Change(cleaned.ac.(device := d, pending := Some(c.version)), cleaned.ops + [Add(d.value, c.version)])
  }

  /** _set_activation_type_managed(): the profile of an external connection was modified. */
  function TakenOver(c: Ac): Change { Change(c.(kind := Managed), []) }

  /** Adds minus removes. */
  function Balance(ops: seq<Op>): int {
    if ops == [] then 0 else Balance(ops[..|ops| - 1]) + (if ops[|ops| - 1].Add? then 1 else -1)
  }

  function Pending(c: Ac): int { if c.pending.Some? then 1 else 0 }

  lemma {:induction false} BalanceConcat(a: seq<Op>, b: seq<Op>)
    ensures Balance(a + b) == Balance(a) + Balance(b)
  {
    if b == [] {
      assert a + b == a;
    } else {
      BalanceConcat(a, b[..|b| - 1]);
      assert (a + b)[..|a + b| - 1] == a + b[..|b| - 1];
    }
  }

  /** Every change adds and removes as the pending id comes and goes. */
  lemma ChangesBalance(c: Ac, st: ActState, d: Option<Device>, controllerDevice: Option<Device>)
    ensures Balance(Cleaned(c).ops) == Pending(Cleaned(c).ac) - Pending(c)
    ensures Balance(WithState(c, st).ops) == Pending(WithState(c, st).ac) - Pending(c)
    ensures var w := WithDevice(c, d, controllerDevice); Balance(w.ops) == Pending(w.ac) - Pending(c)
  {
  }

  /** What can happen to one connection. */
  datatype Life =
    | Bumped(v: nat)
    | StateTo(st: ActState)
    | DeviceTo(d: Option<Device>, controllerDevice: Option<Device>)
    | Managing
    | Disposed

  function Live(c: Ac, e: Life): Change {
    match e
    case Bumped(v) => Change(c.(version := v), [])
    case StateTo(st) => WithState(c, st)
    case DeviceTo(d, controllerDevice) => WithDevice(c, d, controllerDevice)
    case Managing => TakenOver(c)
    case Disposed => Cleaned(c)
  }

  /** A connection and all its calls to devices, after a whole life. */
  function Lived(c: Ac, life: seq<Life>): Change {
    if life == [] then Change(c, [])
    else
      var before := Lived(c, life[..|life| - 1]);
      var last := Live(before.ac, life[|life| - 1]);
      Change(last.ac, before.ops + last.ops)
  }

  /** At any time, pending actions added minus removed is one exactly while the id is set. */
  lemma {:induction false} AddsMinusRemoves(c: Ac, life: seq<Life>)
    requires c.pending.None?
    ensures Balance(Lived(c, life).ops) == Pending(Lived(c, life).ac)
  {
    if life != [] {
      var before, e := Lived(c, life[..|life| - 1]), life[|life| - 1];
      AddsMinusRemoves(c, life[..|life| - 1]);
      ChangesBalance(before.ac, if e.StateTo? then e.st else Unknown, if e.DeviceTo? then e.d else None,
                     if e.DeviceTo? then e.controllerDevice else None);
      BalanceConcat(before.ops, Live(before.ac, e).ops);
    }
  }

  /** What a change of state does. */
  lemma StateMeans(c: Ac, st: ActState)
    ensures c.state == st ==> WithState(c, st) == Change(c, [])
    ensures var w := WithState(c, st);
            && w.ac.version == c.version
            && w.ac.state == (if c.state == Deactivated then Deactivated else st)
            && w.ac.kind == (if c.state != st == Activated && c.state != Deactivated && c.kind == Assume
                             then Managed else c.kind)
            && (c.state != st == Deactivated ==> w.ac.device == None && w.ac.pending == None)
            && (c.state == Deactivated || st != Deactivated ==> w.ac.device == c.device)
    ensures c.device.Some? && c.state in {Unknown, Activating} && st in {Activated, Deactivating, Deactivated} ==>
              && WithState(c, st).ac.pending == None
              && WithState(c, st).ops == if c.pending.None? then [] else [Remove(c.device, c.pending.value)]
    ensures (c.state in {Activated, Deactivating, Deactivated} && st != Deactivated) || st in {Unknown, Activating} ==>
              WithState(c, st).ac.pending == c.pending && WithState(c, st).ops == []
  {
  }

  /** What setting the device does: the old one is rid of the pending action; the controller's device is
      refused; a new one is busy with the connection, unless the connection is external. */
  lemma DeviceMeans(c: Ac, d: Option<Device>, controllerDevice: Option<Device>)
    ensures d == c.device ==> WithDevice(c, d, controllerDevice) == Change(c, [])
    ensures d != c.device ==>
              var w := WithDevice(c, d, controllerDevice);
              var freed := if c.pending.None? then [] else [Remove(c.device, c.pending.value)];
              var accepted := d.Some? && d != controllerDevice;
              && w.ac.version == c.version && w.ac.state == c.state && w.ac.kind == c.kind
              && w.ac.device == (if accepted then d else None)
              && w.ac.pending == (if accepted && c.kind != External then Some(c.version) else None)
              && w.ops == freed + if accepted && c.kind != External then [Add(d.value, c.version)] else []
  {
  }

  /** Without a new device, no connection gets a pending action. */
  lemma {:induction false} NoActionWithoutDevice(c: Ac, life: seq<Life>)
    requires c.pending.None? && forall e :: e in life ==> !e.DeviceTo?
    ensures Lived(c, life).ac.pending.None?
  {
    if life != [] {
      assert life[|life| - 1] in life;
      NoActionWithoutDevice(c, life[..|life| - 1]);
    }
  }

  /** Once a connection with a device is activated its pending action is gone, and stays so until it gets
      another device. */
  lemma ActivationEndsAction(c: Ac, st: ActState, life: seq<Life>)
    requires c.device.Some? && c.state in {Unknown, Activating} && st in {Activated, Deactivating, Deactivated}
    requires forall e :: e in life ==> !e.DeviceTo?
    ensures Lived(WithState(c, st).ac, life).ac.pending.None?
  {
    StateMeans(c, st);
    NoActionWithoutDevice(WithState(c, st).ac, life);
  }

  class ActiveConnection {
    var version: nat
    var state: ActState
    var kind: Kind
    var device: Option<Device>
    var pending: Option<nat>
    ghost var ops: seq<Op>

    ghost function View(): Ac
      reads this
    {
      Ac(version, state, kind, device, pending)
    }

    /** nm_active_connection_init(). */
    constructor (counter: VersionCounter)
      modifies counter
      ensures counter.id == old(counter.id) + 1
      ensures View() == Ac(counter.id, Unknown, Managed, None, None) && ops == []
    {
      state, kind, device, pending, ops := Unknown, Managed, None, None, [];
      new;
      version := counter.New();
    }

    /** nm_active_connection_version_id_bump(). */
    method Bump(counter: VersionCounter) returns (v: nat)
      modifies this`version, counter
      ensures v == counter.id == old(counter.id) + 1
      ensures View() == old(View()).(version := v) && ops == old(ops)
    {
      version := counter.New();
      v := version;
    }

    method DeviceCleanup()
      modifies this`device, this`pending, this`ops
      ensures View() == Cleaned(old(View())).ac && ops == old(ops) + Cleaned(old(View())).ops
    {
      if pending.Some? {
        ops := ops + [Remove(device, pending.value)];
        pending := None;
      }
      device := None;
    }

    method SetState(newState: ActState)
      modifies this`state, this`kind, this`device, this`pending, this`ops
      ensures View() == WithState(old(View()), newState).ac && ops == old(ops) + WithState(old(View()), newState).ops
    {
      if state == Deactivated && newState != Deactivated {
        return;
      }
      if state == newState {
        return;
      }
      if newState == Activated && kind == Assume {
        kind := Managed;
      }
      var oldState := state;
      state := newState;
      if device.Some? {
        if Rank(oldState) < Rank(Activated) && Rank(newState) >= Rank(Activated) && pending.Some? {
          ops := ops + [Remove(device, pending.value)];
          pending := None;
        }
      }
      if state == Deactivated {
        DeviceCleanup();
      }
    }

    /** _set_activation_type_managed(). */
    method SetManaged()
      modifies this`kind
      ensures View() == TakenOver(old(View())).ac && ops == old(ops) + TakenOver(old(View())).ops
      ensures kind == Managed && version == old(version) && state == old(state)
      ensures device == old(device) && pending == old(pending) && ops == old(ops)
    {
      if kind != Managed {
        kind := Managed;
      }
    }

    method SetDevice(d: Option<Device>, controllerDevice: Option<Device>) returns (ok: bool)
      modifies this`device, this`pending, this`ops
      ensures View() == WithDevice(old(View()), d, controllerDevice).ac
      ensures ops == old(ops) + WithDevice(old(View()), d, controllerDevice).ops
      ensures ok <==> device == d
    {
      if d == device {
        return true;
      }
      DeviceCleanup();
      if d.Some? {
        if d == controllerDevice {
          return false;
        }
        device := d;
        if kind != External {
          pending := Some(version);
          ops := ops + [Add(d.value, version)];
        }
      }
      return true;
    }
  }

  /** _version_id_new(). */
  class VersionCounter {
    var id: nat

    constructor ()
      ensures id == 0
    {
      id := 0;
    }

    method New() returns (v: nat)
      modifies this
      ensures v == id == old(id) + 1
    {
      id := id + 1;
      v := id;
    }
  }

  // ----- All of them --------------------------------------------------------------------------

  /** The daemon: `actions` are the pending activations of all devices; `sound` says that no device
      complained about an action that was already pending, or not pending. */
  datatype Sys = Sys(counter: nat, nextAc: nat, acs: map<AcId, Ac>, actions: set<(Device, nat)>, sound: bool)

  datatype Event =
    | Create(kind: Kind, device: Option<Device>, controllerDevice: Option<Device>)
    | BumpVersion(ac: AcId)
    | SetState(of: AcId, state: ActState)
    | SetDevice(for_: AcId, to: Option<Device>, controller: Option<Device>)
    | TakeOver(external: AcId)
    | Dispose(gone: AcId)

  function ApplyOne(s: Sys, op: Op): Sys {
    match op
    case Add(d, id) => s.(actions := s.actions + {(d, id)}, sound := s.sound && (d, id) !in s.actions)
    case Remove(from, id) =>
      if from.None? then s.(sound := false)
      else s.(actions := s.actions - {(from.value, id)}, sound := s.sound && (from.value, id) in s.actions)
  }

  function Apply(s: Sys, ops: seq<Op>): Sys
    decreases |ops|
  {
    if ops == [] then s else Apply(ApplyOne(s, ops[0]), ops[1..])
  }

  function Changed(s: Sys, a: AcId, c: Change): Sys {
    Apply(s.(acs := s.acs[a := c.ac]), c.ops)
  }

  function Step(s: Sys, e: Event): Sys {
    match e
    case Create(kind, device, controllerDevice) =>
      var c := WithDevice(Ac(s.counter + 1, Unknown, kind, None, None), device, controllerDevice);
      Changed(s.(counter := s.counter + 1, nextAc := s.nextAc + 1), s.nextAc, c)
    case BumpVersion(a) =>
      if a in s.acs then s.(counter := s.counter + 1, acs := s.acs[a := s.acs[a].(version := s.counter + 1)]) else s
    case SetState(a, st) => if a in s.acs then Changed(s, a, WithState(s.acs[a], st)) else s
    case SetDevice(a, d, controllerDevice) =>
      if a in s.acs then Changed(s, a, WithDevice(s.acs[a], d, controllerDevice)) else s
    case TakeOver(a) => if a in s.acs then Changed(s, a, TakenOver(s.acs[a])) else s
    case Dispose(a) =>
      if a in s.acs then var r := Changed(s, a, Cleaned(s.acs[a])); r.(acs := r.acs - {a}) else s
  }

  const START := Sys(0, 0, map[], {}, true)

  function Run(events: seq<Event>): Sys {
    if events == [] then START else Step(Run(events[..|events| - 1]), events[|events| - 1])
  }

  // ----- The invariant ------------------------------------------------------------------------

  /** The pending action of a connection is on its device. */
  ghost predicate AcOk(c: Ac, counter: nat) {
    && 1 <= c.version <= counter
    && (c.pending.Some? ==> c.device.Some? && c.pending.value <= counter)
  }

  predicate Owns(c: Ac, id: nat) { c.version == id || c.pending == Some(id) }

  /** The device entry of a connection's pending action. */
  predicate Busy(c: Ac, entry: (Device, nat)) { c.device == Some(entry.0) && c.pending == Some(entry.1) }

  ghost predicate Inv(s: Sys) {
    && s.sound
    && (forall a :: a in s.acs ==> a < s.nextAc && AcOk(s.acs[a], s.counter))
    && (forall a, b, id :: a in s.acs && b in s.acs && Owns(s.acs[a], id) && Owns(s.acs[b], id) ==> a == b)
    && (forall a, x :: a in s.acs && Busy(s.acs[a], x) ==> x in s.actions)
    && (forall x :: x in s.actions ==> exists a :: a in s.acs && Busy(s.acs[a], x))
  }

  /** What the rest of the system looks like to one connection: all but its own device entry. */
  ghost predicate Rest(s: Sys, a: AcId, others: set<(Device, nat)>) {
    && (forall b, x :: b in s.acs && b != a && Busy(s.acs[b], x) ==> x in others)
    && (forall x :: x in others ==> exists b :: b in s.acs && b != a && Busy(s.acs[b], x))
  }

  ghost function OwnEntry(c: Ac): set<(Device, nat)> {
    if c.device.Some? && c.pending.Some? then {(c.device.value, c.pending.value)} else {}
  }

  /** The entries of the others do not include that of one connection. */
  lemma EntriesSplit(s: Sys, a: AcId)
    requires Inv(s) && a in s.acs
    ensures Rest(s, a, s.actions - OwnEntry(s.acs[a])) && OwnEntry(s.acs[a]) <= s.actions
  {
    var own, others := OwnEntry(s.acs[a]), s.actions - OwnEntry(s.acs[a]);
    assert forall x :: x in own <==> Busy(s.acs[a], x);
    assert forall x :: x in own ==> Owns(s.acs[a], x.1);
    forall b, x | b in s.acs && b != a && Busy(s.acs[b], x) ensures x in others {
      assert Owns(s.acs[b], x.1);
    }
    forall x | x in others ensures exists b :: b in s.acs && b != a && Busy(s.acs[b], x) {
      var b :| b in s.acs && Busy(s.acs[b], x);
    }
  }

  /** A change of one connection acts on its own entry only, and never surprises a device: the entry
      removed was there, the entry added was not. */
  ghost predicate Fits(c: Ac, change: Change, others: set<(Device, nat)>) {
    forall s: Sys ::
      s.sound && s.actions == others + OwnEntry(c) && others !! OwnEntry(c) && others !! OwnEntry(change.ac) ==>
      Apply(s, change.ops) == s.(actions := others + OwnEntry(change.ac))
  }

  lemma ApplyTwo(s: Sys, ops: seq<Op>)
    ensures |ops| == 1 ==> Apply(s, ops) == Apply(s, [ops[0]])
    ensures |ops| == 2 ==> Apply(s, ops) == Apply(Apply(s, [ops[0]]), [ops[1]])
  {
    if |ops| == 1 {
      assert ops == [ops[0]];
    }
    if |ops| == 2 {
      assert ops[1..] == [ops[1]];
      assert [ops[0]][1..] == [];
    }
  }

  lemma ApplyAdd(s: Sys, d: Device, id: nat)
    requires s.sound && (d, id) !in s.actions
    ensures Apply(s, [Add(d, id)]) == s.(actions := s.actions + {(d, id)})
  {
  }

  lemma CleanedFits(c: Ac, others: set<(Device, nat)>)
    requires c.pending.Some? ==> c.device.Some?
    ensures Fits(c, Cleaned(c), others)
  {
  }

  lemma WithStateFits(c: Ac, st: ActState, others: set<(Device, nat)>)
    requires c.pending.Some? ==> c.device.Some?
    ensures Fits(c, WithState(c, st), others)
  {
  }

  lemma WithDeviceFits(c: Ac, d: Option<Device>, controllerDevice: Option<Device>, others: set<(Device, nat)>)
    requires c.pending.Some? ==> c.device.Some?
    ensures Fits(c, WithDevice(c, d, controllerDevice), others)
  {
    var w, k := WithDevice(c, d, controllerDevice), Cleaned(c);
    CleanedFits(c, others);
    if w.ac.pending.Some? && w.ac != c {
      forall s: Sys | s.sound && s.actions == others + OwnEntry(c) && others !! OwnEntry(c) && others !! OwnEntry(w.ac)
        ensures Apply(s, w.ops) == s.(actions := others + OwnEntry(w.ac))
      {
        var mid := Apply(s, k.ops);
        assert others + {} == others;
        ApplyAdd(mid, d.value, c.version);
        ApplyTwo(s, w.ops);
        ApplyTwo(s, k.ops);
      }
    }
  }

  /** Changing one connection, within what it owned, keeps the invariant. */
  lemma ChangedKeepsInv(s: Sys, a: AcId, c: Change)
    requires Inv(s) && a in s.acs && AcOk(c.ac, s.counter)
    requires forall id :: Owns(c.ac, id) ==> Owns(s.acs[a], id)
    requires Fits(s.acs[a], c, s.actions - OwnEntry(s.acs[a]))
    ensures Inv(Changed(s, a, c))
    ensures Changed(s, a, c) == s.(acs := s.acs[a := c.ac], actions := Changed(s, a, c).actions)
  {
    var own, others := OwnEntry(s.acs[a]), s.actions - OwnEntry(s.acs[a]);
    EntriesSplit(s, a);
    NotAmongOthers(s, a, c.ac, others);
    var s1 := s.(acs := s.acs[a := c.ac]);
    assert s.actions == others + own;
    var r := Changed(s, a, c);
    assert r == s1.(actions := others + OwnEntry(c.ac));
    EntriesJoin(s, a, c.ac, others);
    forall x, y, id: nat | x in r.acs && y in r.acs && Owns(r.acs[x], id) && Owns(r.acs[y], id) ensures x == y {
      assert Owns(s.acs[x], id) && Owns(s.acs[y], id);
    }
  }

  lemma NotAmongOthers(s: Sys, a: AcId, c: Ac, others: set<(Device, nat)>)
    requires Inv(s) && a in s.acs && Rest(s, a, others)
    requires forall id :: Owns(c, id) ==> Owns(s.acs[a], id)
    ensures others !! OwnEntry(c)
  {
    forall x | x in others ensures x !in OwnEntry(c) {
      var b :| b in s.acs && b != a && Busy(s.acs[b], x);
      assert Owns(s.acs[b], x.1);
      assert !Owns(s.acs[a], x.1);
      assert !Owns(c, x.1);
    }
  }

  /** The entries after a change are again those of all connections. */
  lemma EntriesJoin(s: Sys, a: AcId, c: Ac, others: set<(Device, nat)>)
    requires a in s.acs && Rest(s, a, others) && (c.pending.Some? ==> c.device.Some?)
    ensures var acs, actions := s.acs[a := c], others + OwnEntry(c);
            && (forall b, x :: b in acs && Busy(acs[b], x) ==> x in actions)
            && (forall x :: x in actions ==> exists b :: b in acs && Busy(acs[b], x))
  {
    var acs, actions := s.acs[a := c], others + OwnEntry(c);
    forall x | x in actions ensures exists b :: b in acs && Busy(acs[b], x) {
      if x in others {
        var b :| b in s.acs && b != a && Busy(s.acs[b], x);
        assert b in acs && Busy(acs[b], x);
      } else {
        assert a in acs && Busy(acs[a], x);
      }
    }
    forall b, x | b in acs && Busy(acs[b], x) ensures x in actions {
      if b != a {
        assert b in s.acs && Busy(s.acs[b], x);
      }
    }
  }

  /** A new connection, before it gets its device. */
  function Newborn(s: Sys, kind: Kind): Sys {
    s.(counter := s.counter + 1, nextAc := s.nextAc + 1,
       acs := s.acs[s.nextAc := Ac(s.counter + 1, Unknown, kind, None, None)])
  }

  lemma NewKeepsInv(s: Sys, kind: Kind)
    requires Inv(s)
    ensures Inv(Newborn(s, kind))
  {
    var r := Newborn(s, kind);
    assert s.nextAc !in s.acs;
    OldIdsAreSmall(s);
    forall x | x in r.actions ensures exists a :: a in r.acs && Busy(r.acs[a], x) {
      var a :| a in s.acs && Busy(s.acs[a], x);
      assert a in r.acs && Busy(r.acs[a], x);
    }
  }

  lemma OldIdsAreSmall(s: Sys)
    requires Inv(s)
    ensures forall a, id: nat :: a in s.acs && Owns(s.acs[a], id) ==> id <= s.counter
  {
  }

  lemma BumpKeepsInv(s: Sys, a: AcId)
    requires Inv(s) && a in s.acs
    ensures Inv(Step(s, BumpVersion(a)))
  {
    var r := Step(s, BumpVersion(a));
    OldIdsAreSmall(s);
    forall x, y, id: nat | x in r.acs && y in r.acs && Owns(r.acs[x], id) && Owns(r.acs[y], id) ensures x == y {
      if id <= s.counter {
        assert Owns(s.acs[x], id) && Owns(s.acs[y], id);
      }
    }
    forall b, x | b in r.acs && Busy(r.acs[b], x) ensures x in r.actions {
      assert Busy(s.acs[b], x);
    }
    forall x | x in r.actions ensures exists b :: b in r.acs && Busy(r.acs[b], x) {
      var b :| b in s.acs && Busy(s.acs[b], x);
      assert b in r.acs && Busy(r.acs[b], x);
    }
  }

  lemma DropKeepsInv(s: Sys, a: AcId)
    requires Inv(s) && a in s.acs && s.acs[a].pending.None?
    ensures Inv(s.(acs := s.acs - {a}))
  {
    var r := s.(acs := s.acs - {a});
    forall x | x in r.actions ensures exists b :: b in r.acs && Busy(r.acs[b], x) {
      var b :| b in s.acs && Busy(s.acs[b], x);
      assert b in r.acs && Busy(r.acs[b], x);
    }
  }

  /** What a step does to the version ids: nothing, except for a connection that is new or bumped,
      which gets one above all that were ever used. */
  ghost predicate Versions(s: Sys, e: Event, r: Sys) {
    && s.counter <= r.counter && s.nextAc <= r.nextAc
    && forall a :: a in r.acs ==>
         if a in s.acs && e != BumpVersion(a) then r.acs[a].version == s.acs[a].version
         else r.acs[a].version > s.counter && (a in s.acs || a >= s.nextAc)
  }

  lemma CreateKeepsInv(s: Sys, kind: Kind, device: Option<Device>, controllerDevice: Option<Device>)
    requires Inv(s)
    ensures var e := Create(kind, device, controllerDevice); Inv(Step(s, e)) && Versions(s, e, Step(s, e))
  {
    var w := WithDevice(Ac(s.counter + 1, Unknown, kind, None, None), device, controllerDevice);
    CreatedKeepsInv(s, kind, device, controllerDevice, w);
    CreateIsChange(s, kind, w);
    NewVersion(s, kind, w.ac);
  }

  lemma CreatedKeepsInv(s: Sys, kind: Kind, device: Option<Device>, controllerDevice: Option<Device>, w: Change)
    requires Inv(s) && w == WithDevice(Ac(s.counter + 1, Unknown, kind, None, None), device, controllerDevice)
    ensures Inv(Changed(Newborn(s, kind), s.nextAc, w))
    ensures var n, r := Newborn(s, kind), Changed(Newborn(s, kind), s.nextAc, w);
            r == n.(acs := n.acs[s.nextAc := w.ac], actions := r.actions)
  {
    NewKeepsInv(s, kind);
    SetDeviceKeepsInv(Newborn(s, kind), s.nextAc, device, controllerDevice);
  }

  lemma SetDeviceKeepsInv(s: Sys, a: AcId, d: Option<Device>, controllerDevice: Option<Device>)
    requires Inv(s) && a in s.acs
    ensures var w := WithDevice(s.acs[a], d, controllerDevice);
            && Inv(Changed(s, a, w))
            && Changed(s, a, w) == s.(acs := s.acs[a := w.ac], actions := Changed(s, a, w).actions)
  {
    WithDeviceFits(s.acs[a], d, controllerDevice, s.actions - OwnEntry(s.acs[a]));
    ChangedKeepsInv(s, a, WithDevice(s.acs[a], d, controllerDevice));
  }

  lemma SetStateKeepsInv(s: Sys, a: AcId, st: ActState)
    requires Inv(s) && a in s.acs
    ensures var w := WithState(s.acs[a], st);
            && Inv(Changed(s, a, w))
            && Changed(s, a, w) == s.(acs := s.acs[a := w.ac], actions := Changed(s, a, w).actions)
  {
    WithStateFits(s.acs[a], st, s.actions - OwnEntry(s.acs[a]));
    ChangedKeepsInv(s, a, WithState(s.acs[a], st));
  }

  lemma CreateIsChange(s: Sys, kind: Kind, w: Change)
    ensures Changed(Newborn(s, kind), s.nextAc, w) ==
            Changed(s.(counter := s.counter + 1, nextAc := s.nextAc + 1), s.nextAc, w)
  {
    assert Newborn(s, kind).acs[s.nextAc := w.ac] == s.acs[s.nextAc := w.ac];
  }

  lemma NewVersion(s: Sys, kind: Kind, c: Ac)
    requires Inv(s) && c.version == s.counter + 1
    ensures var acs := Newborn(s, kind).acs[s.nextAc := c];
            forall a :: a in acs ==>
              if a in s.acs then acs[a].version == s.acs[a].version else acs[a].version > s.counter && a >= s.nextAc
  {
  }

  lemma DisposeKeepsInv(s: Sys, a: AcId)
    requires Inv(s) && a in s.acs
    ensures Inv(Step(s, Dispose(a))) && Versions(s, Dispose(a), Step(s, Dispose(a)))
  {
    CleanedFits(s.acs[a], s.actions - OwnEntry(s.acs[a]));
    ChangedKeepsInv(s, a, Cleaned(s.acs[a]));
    DropKeepsInv(Changed(s, a, Cleaned(s.acs[a])), a);
  }

  lemma TakeOverKeepsInv(s: Sys, a: AcId)
    requires Inv(s) && a in s.acs
    ensures Inv(Step(s, TakeOver(a))) && Versions(s, TakeOver(a), Step(s, TakeOver(a)))
  {
    ChangedKeepsInv(s, a, TakenOver(s.acs[a]));
  }

  /** Every step keeps the invariant: in particular no device ever sees an activation added twice or
      removed without being there. */
  lemma StepKeepsInv(s: Sys, e: Event)
    requires Inv(s)
    ensures Inv(Step(s, e)) && Versions(s, e, Step(s, e))
  {
    match e
    case Create(kind, device, controllerDevice) =>
      CreateKeepsInv(s, kind, device, controllerDevice);
    case BumpVersion(a) =>
      if a in s.acs {
        BumpKeepsInv(s, a);
      }
    case SetState(a, st) =>
      if a in s.acs {
        SetStateKeepsInv(s, a, st);
      }
    case SetDevice(a, d, controllerDevice) =>
      if a in s.acs {
        SetDeviceKeepsInv(s, a, d, controllerDevice);
      }
    case TakeOver(a) =>
      if a in s.acs {
        TakeOverKeepsInv(s, a);
      }
    case Dispose(a) =>
      if a in s.acs {
        DisposeKeepsInv(s, a);
      }
  }

  lemma {:induction false} RunsKeepInv(events: seq<Event>)
    ensures Inv(Run(events))
  {
    if events != [] {
      RunsKeepInv(events[..|events| - 1]);
      StepKeepsInv(Run(events[..|events| - 1]), events[|events| - 1]);
    }
  }

  /** In every run the outstanding pending activations are pairwise distinct, each one is on the device
      of its connection, devices have no others, and no device was ever surprised. */
  lemma PendingIdsDistinct(events: seq<Event>)
    ensures var s := Run(events);
            && s.sound
            && (forall a, b :: a in s.acs && b in s.acs && a != b && s.acs[a].pending.Some? ==>
                  s.acs[a].pending != s.acs[b].pending)
            && (forall a :: a in s.acs && s.acs[a].pending.Some? ==> s.acs[a].device.Some?)
            && (forall x :: x in s.actions <==> exists a :: a in s.acs && Busy(s.acs[a], x))
  {
    RunsKeepInv(events);
    var s := Run(events);
    forall a, b | a in s.acs && b in s.acs && a != b && s.acs[a].pending.Some?
      ensures s.acs[a].pending != s.acs[b].pending
    {
      assert Owns(s.acs[a], s.acs[a].pending.value);
    }
  }

  // ----- Version ids --------------------------------------------------------------------------

  predicate BumpedBetween(events: seq<Event>, i: nat, j: nat, a: AcId)
    requires i <= j <= |events|
  {
    exists k :: i <= k < j && events[k] == BumpVersion(a)
  }

  lemma {:induction false} CountersGrow(events: seq<Event>, i: nat, j: nat)
    requires i <= j <= |events|
    ensures Run(events[..i]).counter <= Run(events[..j]).counter && Run(events[..i]).nextAc <= Run(events[..j]).nextAc
    decreases j
  {
    if i < j {
      CountersGrow(events, i, j - 1);
      RunStep(events, j);
    }
  }

  lemma RunStep(events: seq<Event>, j: nat)
    requires 0 < j <= |events|
    ensures Run(events[..j]) == Step(Run(events[..j - 1]), events[j - 1])
    ensures Versions(Run(events[..j - 1]), events[j - 1], Run(events[..j]))
  {
    assert events[..j][..j - 1] == events[..j - 1];
    RunsKeepInv(events[..j - 1]);
    StepKeepsInv(Run(events[..j - 1]), events[j - 1]);
  }

  /** The version id seen at one time is seen at a later time exactly on the same connection, not
      bumped in between: ids are never reused. */
  lemma {:induction false} SameVersionMeansUntouched(events: seq<Event>, i: nat, j: nat, a: AcId, b: AcId)
    requires i <= j <= |events| && a in Run(events[..i]).acs && b in Run(events[..j]).acs
    ensures Run(events[..i]).acs[a].version == Run(events[..j]).acs[b].version <==>
            a == b && !BumpedBetween(events, i, j, a)
    decreases j
  {
    if i == j {
      Bounds(events[..i], a, b);
    } else {
      LastStep(events, i, j, a, b);
      BumpedStep(events, i, j, a);
      if b in Run(events[..j - 1]).acs && events[j - 1] != BumpVersion(b) {
        SameVersionMeansUntouched(events, i, j - 1, a, b);
      }
    }
  }

  lemma LastStep(events: seq<Event>, i: nat, j: nat, a: AcId, b: AcId)
    requires i < j <= |events| && a in Run(events[..i]).acs && b in Run(events[..j]).acs
    ensures var s, e := Run(events[..j - 1]), events[j - 1];
            if b in s.acs && e != BumpVersion(b) then Run(events[..j]).acs[b].version == s.acs[b].version
            else Run(events[..j]).acs[b].version != Run(events[..i]).acs[a].version && (a == b ==> e == BumpVersion(a))
  {
    Bounds(events[..i], a, a);
    RunStep(events, j);
    CountersGrow(events, i, j - 1);
  }

  lemma Bounds(events: seq<Event>, a: AcId, b: AcId)
    requires a in Run(events).acs && b in Run(events).acs
    ensures a < Run(events).nextAc && Run(events).acs[a].version <= Run(events).counter
    ensures Run(events).acs[a].version == Run(events).acs[b].version ==> a == b
  {
    RunsKeepInv(events);
    assert Owns(Run(events).acs[a], Run(events).acs[a].version);
  }

  lemma BumpedStep(events: seq<Event>, i: nat, j: nat, a: AcId)
    requires i < j <= |events|
    ensures BumpedBetween(events, i, j, a) <==> BumpedBetween(events, i, j - 1, a) || events[j - 1] == BumpVersion(a)
  {
  }

  // ----- What a rollback makes of it ----------------------------------------------------------

  datatype Active = Active(uuid: string, ac: AcId)

  function FirstActive(actives: seq<Active>, uuid: string): Option<AcId> {
    if actives == [] then None
    else if actives[0].uuid == uuid then Some(actives[0].ac)
    else FirstActive(actives[1..], uuid)
  }

  /** The profile has to be activated again. */
  predicate NeedsActivation(s: Sys, actives: seq<Active>, uuid: string, changed: bool, recorded: nat) {
    var first := FirstActive(actives, uuid);
    changed || first.None? || first.value !in s.acs || s.acs[first.value].version != recorded
  }

  /** find_settings_connection(): whether the profile still exists, and what a rollback has to do to it. */
  method FindSettingsConnection(s: Sys, actives: seq<Active>, uuid: string, exists_: bool, changed: bool, recorded: nat)
    returns (found: bool, needUpdate: bool, needActivation: bool)
    requires forall x :: x in actives ==> x.ac in s.acs
    ensures found == exists_
    ensures found ==> needUpdate == changed && needActivation == NeedsActivation(s, actives, uuid, changed, recorded)
    ensures !found ==> !needUpdate && !needActivation
  {
    needActivation, needUpdate := false, false;
    if !exists_ {
      return false, needUpdate, needActivation;
    }
    if changed {
      needUpdate, needActivation := true, true;
    }
    var i := 0;
    assert actives[0..] == actives;
    while i < |actives| && actives[i].uuid != uuid
      invariant i <= |actives| && FirstActive(actives[i..], uuid) == FirstActive(actives, uuid)
    {
      assert actives[i..][1..] == actives[i + 1..];
      i := i + 1;
    }
    if i == |actives| {
      return true, needUpdate, true;
    }
    assert actives[i] in actives;
    if s.acs[actives[i].ac].version != recorded {
      needActivation := true;
    }
    return true, needUpdate, needActivation;
  }

  /** A rollback leaves a profile alone exactly when it is unchanged and what is active for it is the
      very connection that was active when the checkpoint was made, never reapplied since. */
  lemma RollbackSeesReactivation(events: seq<Event>, i: nat, j: nat, a: AcId, actives: seq<Active>, uuid: string,
                                 changed: bool)
    requires i <= j <= |events| && a in Run(events[..i]).acs
    requires forall x :: x in actives ==> x.ac in Run(events[..j]).acs
    ensures !NeedsActivation(Run(events[..j]), actives, uuid, changed, Run(events[..i]).acs[a].version) <==>
            !changed && FirstActive(actives, uuid) == Some(a) && !BumpedBetween(events, i, j, a)
  {
    var first := FirstActive(actives, uuid);
    FirstActiveIsActive(actives, uuid);
    if first.Some? {
      SameVersionMeansUntouched(events, i, j, a, first.value);
    }
  }

  lemma {:induction false} FirstActiveIsActive(actives: seq<Active>, uuid: string)
    ensures var first := FirstActive(actives, uuid); first.Some? ==> Active(uuid, first.value) in actives
  {
    if actives != [] && actives[0].uuid != uuid {
      FirstActiveIsActive(actives[1..], uuid);
    }
  }

  /** Deactivated is final: no event takes a connection out of it. */
  lemma DeactivatedIsFinal(s: Sys, e: Event, a: AcId)
    requires Inv(s) && a in s.acs && s.acs[a].state == Deactivated && a in Step(s, e).acs
    ensures Step(s, e).acs[a].state == Deactivated
  {
    match e
    case Create(kind, device, controllerDevice) =>
      var w := WithDevice(Ac(s.counter + 1, Unknown, kind, None, None), device, controllerDevice);
      var s1 := s.(counter := s.counter + 1, nextAc := s.nextAc + 1);
      ApplyKeepsAcs(s1.(acs := s1.acs[s.nextAc := w.ac]), w.ops);
    case BumpVersion(b) =>
    case SetState(b, st) =>
      if b in s.acs {
        ApplyKeepsAcs(s.(acs := s.acs[b := WithState(s.acs[b], st).ac]), WithState(s.acs[b], st).ops);
      }
    case SetDevice(b, d, controllerDevice) =>
      if b in s.acs {
        ApplyKeepsAcs(s.(acs := s.acs[b := WithDevice(s.acs[b], d, controllerDevice).ac]),
                      WithDevice(s.acs[b], d, controllerDevice).ops);
      }
    case TakeOver(b) =>
    case Dispose(b) =>
      if b in s.acs {
        ApplyKeepsAcs(s.(acs := s.acs[b := Cleaned(s.acs[b]).ac]), Cleaned(s.acs[b]).ops);
      }
  }

  lemma {:induction false} ApplyKeepsAcs(s: Sys, ops: seq<Op>)
    ensures Apply(s, ops).acs == s.acs
    decreases |ops|
  {
    if ops != [] {
      ApplyKeepsAcs(ApplyOne(s, ops[0]), ops[1..]);
    }
  }
}
