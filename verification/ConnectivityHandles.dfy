/**
 * The life of connectivity check handles (src/core/nm-connectivity.c:200-310, 396-405, 615-626, 698-711,
 * 1014-1156, 1360-1372). A handle waits in one list; results found inside curl move it to a second
 * list, which is drained when curl returns. Callbacks may start and cancel checks.
 */
module ConnectivityHandles {
  import opened Common

  type Id = nat

  datatype State = NoNetwork | Limited | Portal | Full | Failure | Fake | Cancelled | Disposing

  /** What a handle waits for: an idle handler with a known result, the name resolver, or curl
      guarded by a timeout. */
  datatype Stage = Idle(result: State) | Resolving | Transferring

  /** What the code behind a callback does: it may cancel checks and start new ones. */
  datatype Script = Return | Cancel(id: Id, rest: Script) | Start(stage: Stage, callback: Script, after: Script)

  function Size(s: Script): nat {
    match s
    case Return => 0
    case Cancel(_, rest) => 1 + Size(rest)
    case Start(_, callback, after) => 2 + Size(callback) + Size(after)
  }

  /** How much the callbacks of some handles can still do. */
  function Load(ids: seq<Id>, script: map<Id, Script>): nat {
    if ids == [] then 0
    else Load(ids[..|ids| - 1], script) + 1 + (if ids[|ids| - 1] in script then Size(script[ids[|ids| - 1]]) else 0)
  }

  lemma {:induction false} LoadConcat(a: seq<Id>, b: seq<Id>, script: map<Id, Script>)
    ensures Load(a + b, script) == Load(a, script) + Load(b, script)
  {
    if b == [] {
      assert a + b == a;
    } else {
      LoadConcat(a, b[..|b| - 1], script);
      assert (a + b)[..|a + b| - 1] == a + b[..|b| - 1];
    }
  }

  lemma {:induction false} LoadOfOthers(ids: seq<Id>, script: map<Id, Script>, id: Id, s: Script)
    requires id !in ids
    ensures Load(ids, script[id := s]) == Load(ids, script)
  {
    if ids != [] {
      LoadOfOthers(ids[..|ids| - 1], script, id, s);
    }
  }

  /** c_list_unlink(). */
  function Unlinked(ids: seq<Id>, id: Id): seq<Id> {
    if ids == [] then [] else if ids[0] == id then ids[1..] else [ids[0]] + Unlinked(ids[1..], id)
  }

  lemma {:induction false} UnlinkedCounts(ids: seq<Id>, id: Id, script: map<Id, Script>)
    requires id in ids && id in script
    ensures multiset(ids) == multiset(Unlinked(ids, id)) + multiset{id}
    ensures Load(ids, script) == Load(Unlinked(ids, id), script) + 1 + Size(script[id])
  {
    var tail := ids[1..];
    assert ids == [ids[0]] + tail;
    LoadConcat([ids[0]], tail, script);
    if ids[0] == id {
      LoadOfOne(id, script);
    } else {
      UnlinkedCounts(tail, id, script);
      LoadConcat([ids[0]], Unlinked(tail, id), script);
    }
  }

  lemma LoadOfOne(id: Id, script: map<Id, Script>)
    requires id in script
    ensures Load([id], script) == 1 + Size(script[id])
  {
  }

  lemma {:induction false} UnlinkedElements(ids: seq<Id>, id: Id, x: Id)
    ensures x in Unlinked(ids, id) ==> x in ids
    ensures id !in ids ==> Unlinked(ids, id) == ids
  {
    if ids != [] {
      UnlinkedElements(ids[1..], id, x);
      assert ids == [ids[0]] + ids[1..];
    }
  }

  lemma RestAreOthers(ids: seq<Id>, rest: seq<Id>, id: Id)
    requires multiset(ids) == multiset(rest) + multiset{id} && multiset(ids)[id] <= 1
    ensures forall x :: x in rest <==> x in ids && x != id
  {
    forall x ensures x in rest <==> x in ids && x != id {
      assert x in rest <==> x in multiset(rest);
      assert x in ids <==> x in multiset(ids);
    }
  }

  datatype Call = Call(id: Id, state: State)

  function CalledIds(calls: seq<Call>): (r: seq<Id>)
    ensures |r| == |calls| && forall i :: 0 <= i < |r| ==> r[i] == calls[i].id
  {
    seq(|calls|, i requires 0 <= i < |calls| => calls[i].id)
  }

  /** A handle is in exactly one place, once: waiting, queued, or called back. */
  ghost predicate OnePlace(id: Id, handles: seq<Id>, queued: seq<Id>, called: seq<Id>, next: nat) {
    multiset(handles)[id] + multiset(queued)[id] + multiset(called)[id] == if id < next then 1 else 0
  }

  /** Moving a handle from its list to the calls keeps every handle in one place. */
  lemma CalledBack(handles: seq<Id>, queued: seq<Id>, called: seq<Id>, id: Id, next: nat, script: map<Id, Script>)
    requires forall x: Id :: OnePlace(x, handles, queued, called, next)
    requires id in script && (id in handles || id in queued)
    ensures forall x: Id :: OnePlace(x, Unlinked(handles, id), Unlinked(queued, id), called + [id], next)
    ensures Load(handles, script) + Load(queued, script) ==
            Load(Unlinked(handles, id), script) + Load(Unlinked(queued, id), script) + 1 + Size(script[id])
  {
    assert OnePlace(id, handles, queued, called, next);
    UnlinkedElements(handles, id, id);
    UnlinkedElements(queued, id, id);
    if id in handles {
      UnlinkedCounts(handles, id, script);
    } else {
      UnlinkedCounts(queued, id, script);
    }
    forall x: Id ensures OnePlace(x, Unlinked(handles, id), Unlinked(queued, id), called + [id], next) {
      assert OnePlace(x, handles, queued, called, next);
    }
  }

  /** A new handle waits, and is nowhere else. */
  lemma Started(handles: seq<Id>, handles': seq<Id>, queued: seq<Id>, called: seq<Id>, id: Id, next: nat,
                script: map<Id, Script>, callback: Script)
    requires forall x: Id :: OnePlace(x, handles, queued, called, id)
    requires handles' == handles + [id] && next == id + 1
    ensures forall x: Id :: OnePlace(x, handles', queued, called, next)
    ensures Load(handles', script[id := callback]) + Load(queued, script[id := callback]) ==
            Load(handles, script) + Load(queued, script) + 1 + Size(callback)
  {
    assert OnePlace(id, handles, queued, called, id);
    LoadOfOthers(handles, script, id, callback);
    LoadOfOthers(queued, script, id, callback);
    LoadConcat(handles, [id], script[id := callback]);
    LoadOfOne(id, script[id := callback]);
    forall x: Id ensures OnePlace(x, handles', queued, called, next) {
      assert OnePlace(x, handles, queued, called, id);
    }
  }

  /** A handle that was queued and is nowhere any more has been called back since. */
  lemma CalledSince(handles: seq<Id>, queued: seq<Id>, calls: seq<Call>, next: nat,
                    handles': seq<Id>, calls': seq<Call>, next': nat, id: Id)
    requires OnePlace(id, handles, queued, CalledIds(calls), next) && id in queued
    requires OnePlace(id, handles', [], CalledIds(calls'), next') && id !in handles' && next <= next'
    requires calls <= calls'
    ensures exists i: nat :: |calls| <= i < |calls'| && calls'[i].id == id
  {
    var ids := CalledIds(calls');
    assert id in multiset(queued) && id !in multiset(handles');
    assert id in multiset(ids) && id in ids;
    assert forall k :: 0 <= k < |calls| ==> CalledIds(calls)[k] in multiset(CalledIds(calls));
    var i :| 0 <= i < |ids| && ids[i] == id;
  }

  // ---------------------------------------------------------------- why a callback gets its state

  /** The code behind a callback cancels a check. */
  predicate Cancels(s: Script, id: Id) {
    match s
    case Return => false
    case Cancel(x, rest) => x == id || Cancels(rest, id)
    case Start(_, _, after) => Cancels(after, id)
  }

  /** A callback made earlier, but not before `base`, cancelled this check. */
  ghost predicate CausedBy(calls: seq<Call>, i: nat, base: nat, script: map<Id, Script>)
    requires i < |calls|
  {
    && calls[i].state == Cancelled
    && exists j :: base <= j < i && calls[j].id in script && Cancels(script[calls[j].id], calls[i].id)
  }

  ghost predicate AllCaused(calls: seq<Call>, from: nat, base: nat, script: map<Id, Script>) {
    forall i: nat :: from <= i < |calls| ==> CausedBy(calls, i, base, script)
  }

  ghost predicate Extends<T>(m: map<Id, T>, m': map<Id, T>) {
    forall id :: id in m ==> id in m' && m'[id] == m[id]
  }

  /** The map is about the checks started so far. */
  ghost predicate Known<T>(m: map<Id, T>, next: nat) {
    forall id: Id :: id < next <==> id in m
  }

  lemma KnownGrows<T>(m: map<Id, T>, next: nat, x: T)
    requires Known(m, next)
    ensures Known(m[next := x], next + 1) && Extends(m, m[next := x])
  {
  }

  lemma StaysCaused(calls: seq<Call>, calls': seq<Call>, i: nat, base: nat, base': nat, script: map<Id, Script>,
                    script': map<Id, Script>)
    requires i < |calls| && CausedBy(calls, i, base, script)
    requires calls <= calls' && base' <= base && Extends(script, script')
    ensures CausedBy(calls', i, base', script')
  {
    var j :| base <= j < i && calls[j].id in script && Cancels(script[calls[j].id], calls[i].id);
    assert calls'[j] == calls[j];
  }

  lemma AllStayCaused(calls: seq<Call>, calls': seq<Call>, from: nat, base: nat, base': nat, script: map<Id, Script>,
                      script': map<Id, Script>)
    requires AllCaused(calls, from, base, script) && AllCaused(calls', |calls|, base', script')
    requires calls <= calls' && base' <= base && Extends(script, script')
    ensures AllCaused(calls', from, base', script')
  {
    forall i: nat | from <= i < |calls'| ensures CausedBy(calls', i, base', script') {
      if i < |calls| {
        StaysCaused(calls, calls', i, base, base', script, script');
      }
    }
  }

  /** What a waiting handle waits for. */
  function StageOf(handles: seq<Id>, stage: map<Id, Stage>, id: Id): Option<Stage> {
    if id in handles && id in stage then Some(stage[id]) else None
  }

  /** The first result found for a handle. */
  function FirstState(results: seq<Call>, id: Id): (r: Option<State>)
    ensures r.None? <==> forall k :: 0 <= k < |results| ==> results[k].id != id
    ensures r.Some? ==> exists j :: 0 <= j < |results| && results[j] == Call(id, r.value) &&
                                    forall k :: 0 <= k < j ==> results[k].id != id
  {
    if results == [] then None
    else
      var last, r := results[|results| - 1], FirstState(results[..|results| - 1], id);
      if r.None? && last.id == id then Some(last.state) else r
  }

  /** A check stays in the stage it was started in, until the resolver is done. */
  ghost predicate StagesFollow(born: map<Id, Stage>, stage: map<Id, Stage>) {
    forall id :: id in stage && id in born ==>
      stage[id] == born[id] || (born[id] == Resolving && stage[id] == Transferring)
  }

  ghost predicate InOrder(stage: map<Id, Stage>, script: map<Id, Script>, born: map<Id, Stage>, next: nat) {
    Known(stage, next) && Known(script, next) && Known(born, next) && StagesFollow(born, stage)
  }

  lemma OrderGrows(stage: map<Id, Stage>, script: map<Id, Script>, born: map<Id, Stage>, id: Id, st: Stage,
                   callback: Script)
    requires InOrder(stage, script, born, id)
    ensures InOrder(stage[id := st], script[id := callback], born[id := st], id + 1)
    ensures Extends(stage, stage[id := st]) && Extends(script, script[id := callback]) && Extends(born, born[id := st])
  {
    KnownGrows(stage, id, st);
    KnownGrows(script, id, callback);
    KnownGrows(born, id, st);
  }

  /** The new calls start with one for `id`; the others are checks that it, or they, cancelled. */
  ghost predicate CallsBack(before: seq<Call>, calls: seq<Call>, id: Id, state: State, script: map<Id, Script>) {
    && |before| < |calls| && calls[|before|] == Call(id, state)
    && AllCaused(calls, |before| + 1, |before|, script)
  }

  /** The new calls are the results found for `queued` handles, and checks that the callbacks cancelled. */
  ghost predicate Reports(calls: seq<Call>, from: nat, queued: seq<Id>, result: map<Id, State>,
                          script: map<Id, Script>) {
    forall i: nat :: from <= i < |calls| ==>
      || CausedBy(calls, i, from, script)
      || (calls[i].id in queued && calls[i].id in result && calls[i].state == result[calls[i].id])
  }

  lemma ReportsGoOn(calls: seq<Call>, calls': seq<Call>, from: nat, queued: seq<Id>, result: map<Id, State>,
                    script: map<Id, Script>, script': map<Id, Script>, id: Id)
    requires from <= |calls| && Reports(calls, from, queued, result, script)
    requires calls <= calls' && Extends(script, script')
    requires id in queued && id in result && CallsBack(calls, calls', id, result[id], script')
    ensures Reports(calls', from, queued, result, script')
  {
    forall i: nat | from <= i < |calls'|
      ensures CausedBy(calls', i, from, script') ||
              (calls'[i].id in queued && calls'[i].id in result && calls'[i].state == result[calls'[i].id])
    {
      if i < |calls| {
        if CausedBy(calls, i, from, script) {
          StaysCaused(calls, calls', i, from, from, script, script');
        }
      } else if i > |calls| {
        StaysCaused(calls', calls', i, |calls|, from, script', script');
      }
    }
  }

  class Connectivity {
    var handles: seq<Id>
    var queued: seq<Id>
    var stage: map<Id, Stage>
    var result: map<Id, State>
    var script: map<Id, Script>
    var born: map<Id, Stage>      // the stage each check was started in
    var next: nat
    var calls: seq<Call>

    constructor ()
      ensures Inv() && queued == [] && next == 0 && calls == []
    {
      handles, queued, stage, result, script, born, next, calls := [], [], map[], map[], map[], map[], 0, [];
    }

    ghost predicate Inv()
      reads this
    {
      && (forall id: Id :: OnePlace(id, handles, queued, CalledIds(calls), next))
      && InOrder(stage, script, born, next)
      && (forall id :: id in queued ==> id in result)
    }

    ghost function Weight(): nat
      reads this
    {
      Load(handles, script) + Load(queued, script)
    }

    predicate Pending(id: Id)
      reads this
    {
      id in handles || id in queued
    }

    /** What a waiting handle waits for. */
    function At(id: Id): Option<Stage>
      reads this
    {
      StageOf(handles, stage, id)
    }

    /** What a step leaves of the past: callbacks made stay made, handles wait for what they waited for or
        are new, queued handles can only leave the queue. */
    twostate predicate Continues()
      reads this
    {
      && old(calls) <= calls && old(next) <= next
      && (forall id :: id in queued ==> id in old(queued))
      && (forall id :: id in handles ==> id in old(handles) || id >= old(next))
      && result == old(result)
      && Extends(old(script), script) && Extends(old(born), born) && Extends(old(stage), stage)
    }

    /** cb_data_complete(), without the callback: the handle leaves its list. */
    method Unlink(id: Id, state: State)
      requires Inv() && Pending(id)
      modifies this`handles, this`queued, this`calls
      ensures Inv() && Continues() && calls == old(calls) + [Call(id, state)]
      ensures id in script && Weight() + 1 + Size(script[id]) == old(Weight())
    {
      PendingIsStarted(id);
      CalledBack(handles, queued, CalledIds(calls), id, next, script);
      forall x | x in Unlinked(queued, id) ensures x in queued {
        UnlinkedElements(queued, id, x);
      }
      forall x | x in Unlinked(handles, id) ensures x in handles {
        UnlinkedElements(handles, id, x);
      }
      assert CalledIds(calls + [Call(id, state)]) == CalledIds(calls) + [id];
      handles, queued, calls := Unlinked(handles, id), Unlinked(queued, id), calls + [Call(id, state)];
    }

    lemma PendingIsStarted(id: Id)
      requires Inv() && Pending(id)
      ensures id < next
    {
      assert OnePlace(id, handles, queued, CalledIds(calls), next);
    }

    /** cb_data_complete(): the callback may complete other handles, but none twice. */
    method Complete(id: Id, state: State)
      requires Inv() && Pending(id)
      modifies this
      ensures Inv() && Continues() && Weight() < old(Weight())
      ensures CallsBack(old(calls), calls, id, state, script)
      decreases Weight()
    {
      Unlink(id, state);
      Invoke(script[id], |calls| - 1);
    }

    /** The rest `s` of the code behind the callback made as number `cause`. */
    method Invoke(s: Script, ghost cause: nat)
      requires Inv() && cause < |calls| && calls[cause].id in script
      requires forall id :: Cancels(s, id) ==> Cancels(script[calls[cause].id], id)
      modifies this
      ensures Inv() && Continues() && Weight() <= old(Weight()) + Size(s)
      ensures AllCaused(calls, |old(calls)|, cause, script)
      decreases Weight() + Size(s)
    {
      match s
      case Return =>
      case Cancel(id, rest) =>
        if Pending(id) {
          Complete(id, Cancelled);
        }
        ghost var calls1, script1 := calls, script;
        assert AllCaused(calls1, |old(calls)|, cause, script1) by {
          if |calls1| > |old(calls)| {
            assert CausedBy(calls1, |old(calls)|, cause, script1);
            forall i: nat | |old(calls)| < i < |calls1| ensures CausedBy(calls1, i, cause, script1) {
              StaysCaused(calls1, calls1, i, |old(calls)|, cause, script1, script1);
            }
          }
        }
        Invoke(rest, cause);
        AllStayCaused(calls1, calls, |old(calls)|, cause, cause, script1, script);
      case Start(stage, callback, after) =>
        var _ := CheckStart(stage, callback);
        Invoke(after, cause);
    }

    /** nm_connectivity_check_start(): the handle waits, nothing is called back. */
    method CheckStart(st: Stage, callback: Script) returns (id: Id)
      requires Inv()
      modifies this`handles, this`stage, this`script, this`born, this`next
      ensures Inv() && Continues() && calls == old(calls) && queued == old(queued)
      ensures id == old(next) && next == id + 1 && handles == old(handles) + [id]
      ensures script == old(script)[id := callback] && stage == old(stage)[id := st] && born == old(born)[id := st]
      ensures Weight() == old(Weight()) + 1 + Size(callback)
    {
      Started(handles, handles + [next], queued, CalledIds(calls), next, next + 1, script, callback);
      id := Register(st, callback);
      handles := handles + [id];
    }

    /** The new handle, before it is linked. */
    method Register(st: Stage, callback: Script) returns (id: Id)
      requires InOrder(stage, script, born, next)
      modifies this`stage, this`script, this`born, this`next
      ensures InOrder(stage, script, born, next) && id == old(next) && next == id + 1
      ensures script == old(script)[id := callback] && stage == old(stage)[id := st] && born == old(born)[id := st]
      ensures Extends(old(script), script) && Extends(old(born), born) && Extends(old(stage), stage)
    {
      OrderGrows(stage, script, born, next, st, callback);
      id := next;
      stage, script, born, next := stage[id := st], script[id := callback], born[id := st], next + 1;
    }

    /** cb_data_queue_completed(), unless the handle has a result already. */
    method QueueCompleted(id: Id, state: State)
      requires Inv() && id in handles
      modifies this`handles, this`queued, this`result
      ensures Inv()
      ensures queued == old(queued) + [id] && result == old(result)[id := state]
      ensures handles == Unlinked(old(handles), id) && id !in handles
      ensures forall x :: x in handles <==> x in old(handles) && x != id
    {
      PendingIsStarted(id);
      assert OnePlace(id, handles, queued, CalledIds(calls), next);
      UnlinkedCounts(handles, id, script);
      assert multiset(handles)[id] <= 1;
      ghost var h, q := handles, queued;
      assert forall x :: x in queued + [id] <==> x in queued || x == id;
      handles, queued, result := Unlinked(handles, id), queued + [id], result[id := state];
      forall x: Id ensures OnePlace(x, handles, queued, CalledIds(calls), next) {
        assert OnePlace(x, h, q, CalledIds(calls), next);
      }
      RestAreOthers(h, handles, id);
    }

    /** _complete_queued(): however the callbacks interfere, the queue ends up empty, and each handle
        that was in it has been called back with its result, unless one of those callbacks cancelled it. */
    method CompleteQueued()
      requires Inv()
      modifies this
      ensures Inv() && Continues() && queued == []
      ensures Reports(calls, |old(calls)|, old(queued), result, script)
      ensures forall id :: id in old(queued) ==> exists i: nat :: |old(calls)| <= i < |calls| && calls[i].id == id
    {
      while queued != []
        invariant Inv() && Continues()
        invariant Reports(calls, |old(calls)|, old(queued), result, script)
        decreases Weight()
      {
        var id := queued[0];
        assert id in queued;
        ghost var calls1, script1 := calls, script;
        Complete(id, result[id]);
        ReportsGoOn(calls1, calls, |old(calls)|, old(queued), result, script1, script, id);
      }
      forall id | id in old(queued) ensures exists i: nat :: |old(calls)| <= i < |calls| && calls[i].id == id {
        assert OnePlace(id, handles, [], CalledIds(calls), next);
        assert OnePlace(id, old(handles), old(queued), CalledIds(old(calls)), old(next));
        assert id !in handles by {
          assert id in multiset(old(queued)) && (id in old(handles) <==> id in multiset(old(handles)));
        }
        CalledSince(old(handles), old(queued), old(calls), old(next), handles, calls, next, id);
      }
    }

    // ----- The main loop; a source of a handle that is gone no longer exists ------------------------

    /** What an event leaves of the past. */
    twostate predicate GoesOn()
      reads this
    {
      old(calls) <= calls && old(next) <= next && Extends(old(script), script) && Extends(old(born), born)
    }

    /** The event is over for this handle: it is called back with `state`, unless it is gone. */
    method Finish(id: Id, state: State)
      requires Inv() && queued == []
      modifies this
      ensures Inv() && GoesOn() && queued == []
      ensures if old(id in handles) then CallsBack(old(calls), calls, id, state, script) else calls == old(calls)
    {
      if id in handles {
        Complete(id, state);
        NothingQueued();
      }
    }

    /** _idle_cb(). */
    method OnIdle(id: Id)
      requires Inv() && queued == []
      modifies this
      ensures Inv() && GoesOn() && queued == []
      ensures if old(At(id)).Some? && old(At(id)).value.Idle?
              then CallsBack(old(calls), calls, id, old(At(id)).value.result, script) else calls == old(calls)
    {
      if At(id).Some? && At(id).value.Idle? {
        Finish(id, At(id).value.result);
      }
    }

    /** The name cannot be resolved. */
    method OnResolverFailure(id: Id)
      requires Inv() && queued == []
      modifies this
      ensures Inv() && GoesOn() && queued == []
      ensures if old(At(id)) == Some(Resolving) then CallsBack(old(calls), calls, id, Limited, script)
              else calls == old(calls)
    {
      if At(id) == Some(Resolving) {
        Finish(id, Limited);
      }
    }

    /** do_curl_request(): setting up curl can fail. */
    method OnResolved(id: Id, curlOk: bool)
      requires Inv() && queued == []
      modifies this
      ensures Inv() && GoesOn() && queued == []
      ensures if !curlOk && old(At(id)) == Some(Resolving) then CallsBack(old(calls), calls, id, Failure, script)
              else calls == old(calls)
      ensures curlOk && old(At(id)) == Some(Resolving) ==> At(id) == Some(Transferring) && handles == old(handles)
    {
      if At(id) == Some(Resolving) {
        if !curlOk {
          Finish(id, Failure);
        } else {
          stage := stage[id := Transferring];
        }
      }
    }

    /** _timeout_cb(). */
    method OnTimeout(id: Id)
      requires Inv() && queued == []
      modifies this
      ensures Inv() && GoesOn() && queued == []
      ensures if old(At(id)) == Some(Transferring) then CallsBack(old(calls), calls, id, Limited, script)
              else calls == old(calls)
    {
      if At(id) == Some(Transferring) {
        Finish(id, Limited);
      }
    }

    /** What curl finds about a handle; only the first result counts. */
    method QueueResults(results: seq<Call>)
      requires Inv() && queued == []
      modifies this`handles, this`queued, this`result
      ensures Inv()
      ensures forall id :: id in queued <==> old(At(id)) == Some(Transferring) && FirstState(results, id).Some?
      ensures forall id :: id in queued ==> id in result && FirstState(results, id) == Some(result[id])
    {
      for i := 0 to |results|
        invariant Inv()
        invariant forall id :: id in queued <==> old(At(id)) == Some(Transferring) && FirstState(results[..i], id).Some?
        invariant forall id :: id in queued ==> id in result && FirstState(results[..i], id) == Some(result[id])
        invariant forall id :: id in handles <==> id in old(handles) && id !in queued
      {
        var r := results[i];
        assert results[..i + 1][..i] == results[..i];
        if At(r.id) == Some(Transferring) {
          QueueCompleted(r.id, r.state);
        }
      }
      assert results[..|results|] == results;
    }

    /** _con_curl_check_connectivity() and the callbacks due after it. */
    method OnCurl(results: seq<Call>)
      requires Inv() && queued == []
      modifies this
      ensures Inv() && GoesOn() && queued == []
      ensures forall i: nat :: |old(calls)| <= i < |calls| ==>
                || CausedBy(calls, i, |old(calls)|, script)
                || (StageOf(old(handles), old(stage), calls[i].id) == Some(Transferring) &&
                    FirstState(results, calls[i].id) == Some(calls[i].state))
      ensures forall id :: old(At(id)) == Some(Transferring) && FirstState(results, id).Some? ==>
                exists i: nat :: |old(calls)| <= i < |calls| && calls[i].id == id
    {
      QueueResults(results);
      CompleteQueued();
    }

    /** nm_connectivity_check_cancel(). */
    method CancelCheck(id: Id)
      requires Inv() && queued == []
      modifies this
      ensures Inv() && GoesOn() && queued == []
      ensures if old(id in handles) then CallsBack(old(calls), calls, id, Cancelled, script) else calls == old(calls)
    {
      Finish(id, Cancelled);
    }

    /** What the main loop can dispatch. */
    method Dispatch(e: Event)
      requires Inv() && queued == []
      modifies this
      ensures Inv() && GoesOn() && queued == []
      ensures Answers(e, old(handles), old(stage), old(calls), calls, script)
      ensures e.StartCheck? ==> IsStarted(e, old(next), born, script) && At(old(next)) == Some(e.stage)
      ensures e.ResolverSucceeds? && e.curlOk && old(At(e.id)) == Some(Resolving) ==> At(e.id) == Some(Transferring)
      ensures forall i: nat :: |old(calls)| <= i < |calls| ==>
                || CausedBy(calls, i, |old(calls)|, script)
                || (calls[i].id in born && Explains(e, calls[i].id, born[calls[i].id], calls[i].state))
    {
      match e
      case StartCheck(st, callback) =>
        var _ := CheckStart(st, callback);
      case IdleFires(id) => OnIdle(id);
      case ResolverFails(id) => OnResolverFailure(id);
      case ResolverSucceeds(id, curlOk) => OnResolved(id, curlOk);
      case TimeoutFires(id) => OnTimeout(id);
      case CurlActivity(results) => OnCurl(results);
      case CancelCheck(id) =>
        if id in handles {
          PendingIsStarted(id);
        }
        CancelCheck(id);
    }

    /** dispose(): the loop ends with no handle left, even if callbacks start new checks. Handles are told
        so, unless another callback cancels them first. */
    method Dispose()
      requires Inv() && queued == []
      modifies this
      ensures Inv() && GoesOn() && handles == [] && queued == []
      ensures forall i: nat :: |old(calls)| <= i < |calls| ==>
                CausedBy(calls, i, |old(calls)|, script) || calls[i].state == Disposing
    {
      while handles != []
        invariant Inv() && GoesOn() && queued == []
        invariant forall i: nat :: |old(calls)| <= i < |calls| ==>
                    CausedBy(calls, i, |old(calls)|, script) || calls[i].state == Disposing
        decreases Weight()
      {
        ghost var calls1, script1 := calls, script;
        Complete(handles[0], Disposing);
        DisposingGoesOn(calls1, calls, |old(calls)|, script1, script);
        NothingQueued();
      }
    }

    lemma NothingQueued()
      requires forall id :: id !in queued
      ensures queued == []
    {
      assert Elements(queued) == {};
      ElementsEmpty(queued);
    }
  }

  lemma DisposingGoesOn(calls: seq<Call>, calls': seq<Call>, from: nat, script: map<Id, Script>,
                        script': map<Id, Script>)
    requires from <= |calls| < |calls'| && calls <= calls' && Extends(script, script')
    requires forall i: nat :: from <= i < |calls| ==> CausedBy(calls, i, from, script) || calls[i].state == Disposing
    requires calls'[|calls|].state == Disposing && AllCaused(calls', |calls| + 1, |calls|, script')
    ensures forall i: nat :: from <= i < |calls'| ==> CausedBy(calls', i, from, script') || calls'[i].state == Disposing
  {
    forall i: nat | from <= i < |calls'| ensures CausedBy(calls', i, from, script') || calls'[i].state == Disposing {
      if i < |calls| {
        if CausedBy(calls, i, from, script) {
          StaysCaused(calls, calls', i, from, from, script, script');
        }
      } else if i > |calls| {
        StaysCaused(calls', calls', i, |calls|, from, script', script');
      }
    }
  }

  // ---------------------------------------------------------------- whole sessions

  datatype Event =
    | StartCheck(stage: Stage, callback: Script)
    | IdleFires(id: Id)
    | ResolverFails(id: Id)
    | ResolverSucceeds(id: Id, curlOk: bool)
    | TimeoutFires(id: Id)
    | CurlActivity(results: seq<Call>)
    | CancelCheck(id: Id)

  /** What an event calls back, given the handles that wait. */
  ghost predicate Answers(e: Event, handles: seq<Id>, stage: map<Id, Stage>, before: seq<Call>, calls: seq<Call>,
                          script: map<Id, Script>) {
    match e
    case StartCheck(_, _) => calls == before
    case IdleFires(id) =>
      var st := StageOf(handles, stage, id);
      if st.Some? && st.value.Idle? then CallsBack(before, calls, id, st.value.result, script) else calls == before
    case ResolverFails(id) =>
      if StageOf(handles, stage, id) == Some(Resolving) then CallsBack(before, calls, id, Limited, script)
      else calls == before
    case ResolverSucceeds(id, curlOk) =>
      if StageOf(handles, stage, id) == Some(Resolving) && !curlOk then CallsBack(before, calls, id, Failure, script)
      else calls == before
    case TimeoutFires(id) =>
      if StageOf(handles, stage, id) == Some(Transferring) then CallsBack(before, calls, id, Limited, script)
      else calls == before
    case CancelCheck(id) =>
      if id in handles then CallsBack(before, calls, id, Cancelled, script) else calls == before
    case CurlActivity(results) =>
      forall id :: StageOf(handles, stage, id) == Some(Transferring) && FirstState(results, id).Some? ==>
        exists i: nat :: |before| <= i < |calls| && calls[i].id == id &&
          (calls[i].state == FirstState(results, id).value || CausedBy(calls, i, |before|, script))
  }

  /** The check is the one the event asked for. */
  predicate IsStarted(e: Event, id: Id, born: map<Id, Stage>, script: map<Id, Script>)
    requires e.StartCheck?
  {
    id in born && born[id] == e.stage && id in script && script[id] == e.callback
  }

  /** Every check that an event asked for was started. */
  ghost predicate AllStarted(events: seq<Event>, born: map<Id, Stage>, script: map<Id, Script>) {
    forall k :: 0 <= k < |events| && events[k].StartCheck? ==>
      exists id: Id :: IsStarted(events[k], id, born, script)
  }

  lemma StartedStay(events: seq<Event>, born: map<Id, Stage>, born': map<Id, Stage>, script: map<Id, Script>,
                    script': map<Id, Script>)
    requires AllStarted(events, born, script) && Extends(born, born') && Extends(script, script')
    ensures AllStarted(events, born', script')
  {
    forall k | 0 <= k < |events| && events[k].StartCheck?
      ensures exists id: Id :: IsStarted(events[k], id, born', script')
    {
      var id: Id :| IsStarted(events[k], id, born, script);
      assert IsStarted(events[k], id, born', script');
    }
  }

  /** The event makes a check that was started in stage `born` report `state`. */
  predicate Explains(e: Event, id: Id, born: Stage, state: State) {
    match e
    case StartCheck(_, _) => false
    case IdleFires(x) => x == id && born == Idle(state)
    case ResolverFails(x) => x == id && born == Resolving && state == Limited
    case ResolverSucceeds(x, curlOk) => x == id && born == Resolving && !curlOk && state == Failure
    case TimeoutFires(x) => x == id && !born.Idle? && state == Limited
    case CurlActivity(results) => !born.Idle? && FirstState(results, id) == Some(state)
    case CancelCheck(x) => x == id && state == Cancelled
  }

  /** One of the events made the check report its state, or an earlier callback cancelled it. */
  ghost predicate Because(events: seq<Event>, calls: seq<Call>, i: nat, born: map<Id, Stage>, script: map<Id, Script>)
    requires i < |calls|
  {
    || CausedBy(calls, i, 0, script)
    || (calls[i].id in born &&
        exists k :: 0 <= k < |events| && Explains(events[k], calls[i].id, born[calls[i].id], calls[i].state))
  }

  lemma BecauseStays(events: seq<Event>, calls: seq<Call>, calls': seq<Call>, i: nat, born: map<Id, Stage>,
                     born': map<Id, Stage>, script: map<Id, Script>, script': map<Id, Script>)
    requires calls <= calls' && Extends(born, born') && Extends(script, script')
    requires i < |calls| && Because(events, calls, i, born, script)
    ensures Because(events, calls', i, born', script')
  {
    if CausedBy(calls, i, 0, script) {
      StaysCaused(calls, calls', i, 0, 0, script, script');
    }
  }

  lemma BecauseGoesOn(events: seq<Event>, e: Event, calls: seq<Call>, calls': seq<Call>, born: map<Id, Stage>,
                      born': map<Id, Stage>, script: map<Id, Script>, script': map<Id, Script>)
    requires calls <= calls' && Extends(born, born') && Extends(script, script')
    requires forall i: nat :: i < |calls| ==> Because(events, calls, i, born, script)
    requires forall i: nat :: |calls| <= i < |calls'| ==>
               || CausedBy(calls', i, |calls|, script')
               || (calls'[i].id in born' && Explains(e, calls'[i].id, born'[calls'[i].id], calls'[i].state))
    ensures forall i: nat :: i < |calls'| ==> Because(events + [e], calls', i, born', script')
  {
    var all := events + [e];
    assert all[|events|] == e && forall k :: 0 <= k < |events| ==> all[k] == events[k];
    forall i: nat | i < |calls'| ensures Because(all, calls', i, born', script') {
      if i < |calls| {
        BecauseStays(events, calls, calls', i, born, born', script, script');
        assert CausedBy(calls', i, 0, script') || calls'[i].id in born';
      } else if CausedBy(calls', i, |calls|, script') {
        StaysCaused(calls', calls', i, |calls|, 0, script', script');
      }
    }
  }

  /** Every check was called back exactly once. */
  ghost predicate ExactlyOnce(calls: seq<Call>, started: nat) {
    forall id: Id :: multiset(CalledIds(calls))[id] == if id < started then 1 else 0
  }

  /** A whole session: whatever happens in whatever order, after the shutdown every check that was
      started, also from within callbacks, has been called back exactly once. Up to the shutdown one
      of the events accounts for the reported state, or a callback that cancelled the check. */
  method Session(events: seq<Event>)
    returns (started: nat, calls: seq<Call>, born: map<Id, Stage>, script: map<Id, Script>, shutdown: nat)
    ensures ExactlyOnce(calls, started) && Known(born, started) && Known(script, started)
    ensures AllStarted(events, born, script)
    ensures shutdown <= |calls|
    ensures forall i: nat :: i < shutdown ==> Because(events, calls, i, born, script)
    ensures forall i: nat :: shutdown <= i < |calls| ==>
              CausedBy(calls, i, shutdown, script) || calls[i].state == Disposing
  {
    var c := new Connectivity();
    for n := 0 to |events|
      invariant c.Inv() && c.queued == []
      invariant AllStarted(events[..n], c.born, c.script)
      invariant forall i: nat :: i < |c.calls| ==> Because(events[..n], c.calls, i, c.born, c.script)
    {
      ghost var calls1, born1, script1 := c.calls, c.born, c.script;
      c.Dispatch(events[n]);
      BecauseGoesOn(events[..n], events[n], calls1, c.calls, born1, c.born, script1, c.script);
      StartedStay(events[..n], born1, c.born, script1, c.script);
      assert events[..n] + [events[n]] == events[..n + 1];
    }
    assert events[..|events|] == events;
    shutdown := |c.calls|;
    ghost var calls1, born1, script1 := c.calls, c.born, c.script;
    c.Dispose();
    started, calls, born, script := c.next, c.calls, c.born, c.script;
    StartedStay(events, born1, born, script1, script);
    forall i: nat | i < shutdown ensures Because(events, calls, i, born, script) {
      BecauseStays(events, calls1, calls, i, born1, born, script1, script);
    }
    forall id: Id ensures multiset(CalledIds(calls))[id] == if id < started then 1 else 0 {
      assert OnePlace(id, c.handles, c.queued, CalledIds(calls), started);
    }
  }
}
