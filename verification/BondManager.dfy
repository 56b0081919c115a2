/**
 * struct _NMBondManager and the handlers that update its fields (src/core/nm-bond-manager.c), each
 * proved to take the step of the machine in BondMachine.
 */
module BondManager {
  import opened Common
  import opened BondMembers
  import opened BondMachine

  datatype RegState = NONE | UPPING | UP | DOWNING

  /** The state after a request, before anybody is notified. */
  function Requested(m: Manager, reapply: bool, want: Option<Config>): Manager {
    var (reg, call) := Request(m.reg, reapply, want);
    Issue(m.(reg := reg), call)
  }

  function Unqueued(m: Manager): Manager {
    match m.reg
    case Aborting(c, _) => m.(reg := Aborting(c, None))
    case Downing(c, _) => m.(reg := Downing(c, None))
    case _ => m
  }

  class BondManager {
    var regState: RegState
    var ifnameCurr: Option<string>
    var ifnameNext: Option<string>
    var membersCurr: seq<string>
    var membersNext: seq<string>
    var cancellable: bool
    var nftInProgress: bool
    var reconfigureCheck: bool
    var idleSource: bool
    var destroyed: bool
    var freed: bool
    var nftGood: bool
    var state: Verdict
    var previousMembers: set<string>
    var previousIfindexes: set<int>
    // What the completion callback of the running call was given.
    var pending: Option<Flight>

    function Curr(): Config
      reads this
      requires ifnameCurr.Some?
    {
      Config(ifnameCurr.value, membersCurr)
    }

    function Next(): Option<Config>
      reads this
    {
      if ifnameNext.None? then None else Some(Config(ifnameNext.value, membersNext))
    }

    /** The pointers fit the registration state. */
    ghost predicate WellFormed()
      reads this
    {
      && (membersCurr != [] ==> ifnameCurr.Some?)
      && (membersNext != [] ==> ifnameNext.Some?)
      && (ifnameCurr.Some? <==> regState != NONE)
      && (regState in {NONE, UP} ==> ifnameNext.None?)
      && (nftInProgress <==> pending.Some?)
      && (cancellable ==> nftInProgress)
      && (regState in {UPPING, DOWNING} <==> nftInProgress)
      && (regState == DOWNING ==> cancellable)
      && (regState == UPPING && cancellable ==> ifnameNext.None?)
    }

    ghost function Registered(): Registration
      reads this
      requires WellFormed()
    {
      match regState
      case NONE => Off
      case UPPING => if cancellable then Upping(Curr()) else Aborting(Curr(), Next())
      case UP => Up(Curr())
      case DOWNING => Downing(Curr(), Next())
    }

    /** The state of the machine these fields stand for. */
    ghost function Model(): Manager
      reads this
      requires WellFormed()
    {
      Manager(Registered(), pending, previousMembers, previousIfindexes, reconfigureCheck, idleSource,
              destroyed, freed, nftGood, state)
    }

    ghost predicate Valid()
      reads this
    {
      WellFormed() && Inv(Model())
    }

    /** nm_bond_manager_new(). */
    constructor (scan: Scan, ghost want: Option<Config>)
      requires Wants(scan, [], want)
      ensures Valid()
      ensures Model() == Check(FRESH, true, scan, want)
    {
      regState, ifnameCurr, ifnameNext, membersCurr, membersNext := NONE, None, None, [], [];
      cancellable, nftInProgress, reconfigureCheck, idleSource := false, false, false, false;
      destroyed, freed, nftGood, state := false, false, true, Pending;
      previousMembers, previousIfindexes, pending := {}, {}, None;
      new;
      ReconfigureCheck(true, scan, want);
    }

    /** _notify_state_change(). */
    method NotifyStateChange()
      requires WellFormed()
      modifies this`state
      ensures WellFormed() && Model() == Notify(old(Model()))
    {
      var s := if nftInProgress then Pending else if nftGood then Good else Bad;
      if s != state {
        state := s;
      }
    }

    /** _nft_call(). */
    method NftCall(call: Call)
      modifies this`previousMembers, this`cancellable, this`nftInProgress, this`idleSource, this`pending
      ensures cancellable && nftInProgress
      ensures idleSource == (old(idleSource) && !reconfigureCheck)
      ensures previousMembers ==
              old(previousMembers) + (if call.UpCall? then Elements(call.config.members) else {})
      ensures pending == Some(Flight(call,
                if call.UpCall? then old(previousMembers) - Elements(call.config.members) else {}))
    {
      var obsolete := {};
      if call.UpCall? {
        obsolete := previousMembers - Elements(call.config.members);
        var i := 0;
        while i < |call.config.members|
          modifies this`previousMembers
          invariant i <= |call.config.members|
          invariant previousMembers == old(previousMembers) + Elements(call.config.members[..i])
        {
          assert call.config.members[..i + 1] == call.config.members[..i] + [call.config.members[i]];
          previousMembers := previousMembers + {call.config.members[i]};
          i := i + 1;
        }
        assert call.config.members[..i] == call.config.members;
      }
      cancellable := true;
      nftInProgress := true;
      if reconfigureCheck {
        idleSource := false;
      }
      pending := Some(Flight(call, obsolete));
    }

    /** Nothing is in flight: configure `config`, which takes over from `former`. */
    method StartUp(config: Config, former: Option<string>)
      requires WellFormed() && !nftInProgress
      modifies this
      ensures WellFormed()
      ensures Model() == Issue(old(Model()).(reg := Upping(config)), Some(UpCall(config, former)))
    {
      NftCall(UpCall(config, former));
      regState := UPPING;
      ifnameCurr, membersCurr := Some(config.ifname), config.members;
    }

    /** UP: take the current configuration down. */
    method StartDown()
      requires WellFormed() && regState == UP
      modifies this
      ensures WellFormed()
      ensures Model() == Issue(old(Model()).(reg := Downing(old(Curr()), None)), Some(DownCall(old(Curr()).ifname)))
    {
      NftCall(DownCall(ifnameCurr.value));
      regState := DOWNING;
    }

    /** A call is in flight: let `want` follow it. While configuring, the call is cancelled. */
    method Queue(want: Option<Config>)
      requires WellFormed() && nftInProgress
      modifies this`ifnameNext, this`membersNext, this`cancellable
      ensures WellFormed()
      ensures Model() == old(Model()).(reg := if regState == UPPING then Aborting(old(Curr()), want)
                                              else Downing(old(Curr()), want))
    {
      SetNext(want);
      if regState == UPPING {
        cancellable := false;
      }
    }

    method SetNext(want: Option<Config>)
      modifies this`ifnameNext, this`membersNext
      ensures Next() == want && (membersNext != [] ==> ifnameNext.Some?)
    {
      ifnameNext, membersNext := None, [];
      if want.Some? {
        ifnameNext, membersNext := Some(want.value.ifname), want.value.members;
      }
    }

    /** The switch of _reconfigure_do(). */
    method Transition(reapply: bool, want: Option<Config>)
      requires WellFormed()
      modifies this
      ensures WellFormed()
      ensures Model() == Requested(old(Model()), reapply, want)
    {
      match regState {
        case NONE =>
          if want.Some? {
            StartUp(want.value, None);
          }
        case UPPING => TransitionWhileUpping(reapply, want);
        case UP =>
          if want.None? {
            StartDown();
          } else if reapply || want != Some(Curr()) {
            StartUp(want.value, ifnameCurr);
          }
        case DOWNING =>
          if want != Next() {
            Queue(want);
          }
      }
    }

    method TransitionWhileUpping(reapply: bool, want: Option<Config>)
      requires WellFormed() && regState == UPPING
      modifies this`ifnameNext, this`membersNext, this`cancellable
      ensures WellFormed()
      ensures Model() == Requested(old(Model()), reapply, want)
    {
      if want.None? {
        Queue(None);
      } else if !reapply && cancellable && want == Some(Curr()) {
      } else if !reapply && !cancellable && want == Next() {
      } else {
        Queue(want);
      }
    }

    /** _reconfigure_do(). */
    method ReconfigureDo(reapply: bool, want: Option<Config>)
      requires WellFormed()
      modifies this
      ensures WellFormed()
      ensures Model() == Notify(Requested(old(Model()), reapply, want))
    {
      Transition(reapply, want);
      NotifyStateChange();
    }

    /** _reconfigure_check(). */
    method ReconfigureCheck(reapply: bool, scan: Scan, ghost want: Option<Config>)
      requires WellFormed() && !destroyed && !freed
      requires Inv(Model()) || Settled(Model())
      requires Wants(scan, CurrentMembers(Registered()), want)
      modifies this
      ensures Valid()
      ensures Model() == Check(old(Model()), reapply, scan, want)
    {
      CheckKeepsInv(Model(), reapply, scan, want);
      Recheck(reapply, scan, want);
    }

    method Recheck(reapply: bool, scan: Scan, ghost want: Option<Config>)
      requires WellFormed() && Wants(scan, CurrentMembers(Registered()), want)
      modifies this
      ensures WellFormed() && Model() == Check(old(Model()), reapply, scan, want)
    {
      var found := Rescan(scan, want);
      ReconfigureDo(reapply, found);
    }

    method Rescan(scan: Scan, ghost want: Option<Config>) returns (found: Option<Config>)
      requires WellFormed() && Wants(scan, CurrentMembers(Registered()), want)
      modifies this`reconfigureCheck, this`idleSource, this`previousIfindexes
      ensures WellFormed() && found == want
      ensures Model() == old(Model()).(recheck := false, idle := false,
                           ports := if scan.bond.None? then {} else PortIndexes(scan.ports))
    {
      reconfigureCheck := false;
      idleSource := false;
      previousIfindexes := {};
      found := FindWanted(scan, want);
    }

    /** The configuration the platform asks for. */
    method FindWanted(scan: Scan, ghost want: Option<Config>) returns (found: Option<Config>)
      requires previousIfindexes == {} && Wants(scan, membersCurr, want)
      modifies this`previousIfindexes
      ensures previousIfindexes == if scan.bond.None? then {} else PortIndexes(scan.ports)
      ensures found == want
    {
      found := None;
      if scan.bond.Some? {
        var names := CollectPorts(scan.ports);
        var list := BuildActiveList(names, membersCurr);
        ActiveListUnique(list, want.value.members, PortNames(scan.ports), membersCurr);
        found := Some(Config(scan.bond.value, list));
      }
    }

    /** The loop of _reconfigure_check() over the running ports. */
    method CollectPorts(ports: seq<Port>) returns (names: seq<string>)
      requires previousIfindexes == {}
      modifies this`previousIfindexes
      ensures previousIfindexes == PortIndexes(ports)
      ensures Elements(names) == PortNames(ports)
    {
      names := [];
      for i := 0 to |ports|
        invariant previousIfindexes == PortIndexes(ports[..i])
        invariant Elements(names) == PortNames(ports[..i])
      {
        assert ports[..i + 1] == ports[..i] + [ports[i]];
        ElementsConcat(names, [ports[i].name]);
        previousIfindexes := previousIfindexes + {ports[i].ifindex};
        names := names + [ports[i].name];
      }
      assert ports[..|ports|] == ports;
    }

    /** _reconfigure_check_on_idle_cb(). */
    method OnIdle(scan: Scan, ghost want: Option<Config>)
      requires Valid() && idleSource
      requires Wants(scan, CurrentMembers(Registered()), want)
      modifies this
      ensures Valid() && Model() == Check(old(Model()), false, scan, want)
    {
      assert !nftInProgress;
      ReconfigureCheck(false, scan, want);
    }

    /** nm_bond_manager_reapply(). */
    method Reapply(scan: Scan, ghost want: Option<Config>)
      requires Valid() && !destroyed
      requires Wants(scan, CurrentMembers(Registered()), want)
      modifies this
      ensures Valid() && Model() == Check(old(Model()), true, scan, want)
    {
      ReconfigureCheck(true, scan, want);
    }

    /** _link_changed_cb(), given whether the event concerns the bond or one of its ports. */
    method LinkChangedCb(ifindex: int, concernsBond: bool)
      requires Valid()
      modifies this
      ensures Valid()
      ensures Model() == LinkChanged(old(Model()), concernsBond || ifindex in old(previousIfindexes))
    {
      LinkChangedKeepsInv(Model(), concernsBond || ifindex in previousIfindexes);
      if reconfigureCheck {
        return;
      }
      if destroyed {
        return;
      }
      if !(concernsBond || ifindex in previousIfindexes) {
        return;
      }
      reconfigureCheck := true;
      if !nftInProgress {
        idleSource := true;
      }
    }

    /** The prologue of _nft_call_cb(): the call is over, forget what it removed for good. */
    method ReapCall(succeeded: bool)
      requires pending.Some?
      modifies this`nftInProgress, this`previousMembers, this`pending, this`cancellable
      ensures !nftInProgress && !cancellable && pending == None
      ensures previousMembers == if !succeeded then old(previousMembers)
                                 else if old(pending).value.call.DownCall? then {}
                                 else old(previousMembers) - old(pending).value.forget
    {
      nftInProgress := false;
      if succeeded {
        if pending.value.call.DownCall? {
          previousMembers := {};
        } else {
          previousMembers := previousMembers - pending.value.forget;
        }
      }
      pending := None;
      cancellable := false;
    }

    /** Nothing is in flight any more: configure what was queued. */
    method StartNext()
      requires ifnameNext.Some? && ifnameCurr.Some?
      modifies this
      ensures regState == UPPING && cancellable && nftInProgress && ifnameNext.None? && membersNext == []
      ensures ifnameCurr == old(ifnameNext) && membersCurr == old(membersNext)
      ensures idleSource == (old(idleSource) && !old(reconfigureCheck))
      ensures previousMembers == old(previousMembers) + Elements(old(membersNext))
      ensures pending == Some(Flight(UpCall(old(Next()).value, old(ifnameCurr)),
                                     old(previousMembers) - Elements(old(membersNext))))
      ensures unchanged(this`reconfigureCheck, this`destroyed, this`freed, this`nftGood, this`state)
      ensures unchanged(this`previousIfindexes)
    {
      NftCall(UpCall(Next().value, ifnameCurr));
      ifnameCurr, membersCurr := ifnameNext, membersNext;
      ifnameNext, membersNext := None, [];
      regState := UPPING;
    }

    /** The cancelled call is over: nothing but UPPING can have been cancelled. */
    method AfterCancel()
      requires WellFormed() && regState == UPPING && !cancellable
      modifies this
      ensures WellFormed()
      ensures Model() == Issue(Completed(old(Model()), Cancelled), Completion(old(Registered()), Cancelled).1)
    {
      ReapCall(false);
      if ifnameNext.None? {
        NftCall(DownCall(ifnameCurr.value));
        regState := DOWNING;
      } else {
        StartNext();
      }
    }

    /** A configuration is down; says whether the manager was freed. */
    method AfterDown(succeeded: bool) returns (gone: bool)
      requires WellFormed() && regState == DOWNING
      modifies this
      ensures WellFormed()
      ensures var o := if succeeded then Succeeded else Failed;
              var m := Completed(old(Model()), o);
              && gone == (destroyed && m.reg.Off?)
              && Model() == if gone then m.(freed := true) else Issue(m, Completion(old(Registered()), o).1)
    {
      if ifnameNext.None? {
        gone := AfterLastDown(succeeded);
      } else {
        gone := false;
        ReapCall(succeeded);
        nftGood := succeeded;
        StartNext();
      }
    }

    method AfterLastDown(succeeded: bool) returns (gone: bool)
      requires WellFormed() && regState == DOWNING && ifnameNext.None?
      modifies this
      ensures WellFormed() && gone == destroyed
      ensures var m := Completed(old(Model()), if succeeded then Succeeded else Failed);
              Model() == if gone then m.(freed := true) else m
    {
      ReapCall(succeeded);
      nftGood := succeeded;
      ifnameCurr, membersCurr := None, [];
      regState := NONE;
      gone := destroyed;
      if destroyed {
        freed := true;
      }
    }

    /** A configuration is up. */
    method AfterUp(succeeded: bool)
      requires WellFormed() && regState == UPPING && cancellable
      modifies this
      ensures WellFormed()
      ensures Model() == Completed(old(Model()), if succeeded then Succeeded else Failed)
    {
      ReapCall(succeeded);
      nftGood := succeeded;
      regState := UP;
    }

    /** The call ran to its end; says whether the manager was freed. */
    method AfterEnd(succeeded: bool) returns (gone: bool)
      requires WellFormed() && cancellable
      modifies this
      ensures WellFormed()
      ensures var o := if succeeded then Succeeded else Failed;
              var m := Completed(old(Model()), o);
              && gone == (destroyed && m.reg.Off?)
              && Model() == if gone then m.(freed := true) else Issue(m, Completion(old(Registered()), o).1)
    {
      match regState {
        case NONE => assert false;
        case UP => assert false;
        case UPPING =>
          AfterUp(succeeded);
          gone := false;
        case DOWNING =>
          gone := AfterDown(succeeded);
      }
    }

    /** _nft_call_cb(). */
    method NftCallCb(o: Outcome, scan: Scan, ghost want: Option<Config>)
      requires Valid() && nftInProgress && Possible(Registered(), o)
      requires reconfigureCheck ==> Wants(scan, CurrentMembers(Completion(Registered(), o).0), want)
      modifies this
      ensures Valid()
      ensures Model() == NftDone(old(Model()), o, scan, want)
    {
      NftDoneKeepsInv(Model(), o, scan, want);
      CompleteCall(o, scan, want);
    }

    method CompleteCall(o: Outcome, scan: Scan, ghost want: Option<Config>)
      requires WellFormed() && nftInProgress && Possible(Registered(), o) && !idleSource
      requires reconfigureCheck ==>
                 !destroyed && Wants(scan, CurrentMembers(Completion(Registered(), o).0), want)
      modifies this
      ensures WellFormed()
      ensures Model() == NftDone(old(Model()), o, scan, want)
    {
      if o.Cancelled? {
        AfterCancel();
      } else {
        var gone := AfterEnd(o.Succeeded?);
        if gone {
          return;
        }
      }
      if reconfigureCheck {
        if destroyed {
          assert false;
        } else if !nftInProgress {
          assert !idleSource;
          Recheck(false, scan, want);
        }
      }
      NotifyStateChange();
    }

    /** nm_bond_manager_destroy(). */
    method DestroyManager()
      requires Valid() && !destroyed
      modifies this
      ensures Valid()
      ensures Model() == Destroy(old(Model()))
    {
      DestroyKeepsInv(Model());
      WindDown();
    }

    method WindDown()
      requires WellFormed()
      modifies this
      ensures WellFormed() && Model() == Destroy(old(Model()))
    {
      MarkDestroyed();
      match regState {
        case NONE => freed := true;
        case UPPING => cancellable := false;
        case UP => StartDown();
        case DOWNING =>
      }
    }

    /** Nothing is scheduled and nothing is queued any more. */
    method MarkDestroyed()
      requires WellFormed()
      modifies this`destroyed, this`idleSource, this`reconfigureCheck, this`ifnameNext, this`membersNext
      ensures WellFormed()
      ensures Model() == Unqueued(old(Model())).(destroyed := true, recheck := false, idle := false)
    {
      destroyed := true;
      idleSource := false;
      reconfigureCheck := false;
      SetNext(None);
    }
  }
}
