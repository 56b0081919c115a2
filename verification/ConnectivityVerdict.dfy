/**
 * Judging the response to a connectivity check while it arrives (src/core/nm-connectivity.c:313-394,
 * 523-606). curl hands over header lines and arbitrarily cut pieces of the body, then the outcome of
 * the transfer.
 */
module ConnectivityVerdict {
  import opened Common

  datatype State = Full | Portal | Limited

  type Bytes = seq<bv8>

  /** What curl reports: a header line, which may be the status header that says "online", or a piece
      of the body. */
  datatype Event = Header(online: bool) | Chunk(data: Bytes)

  /** How the transfer ended; the status code can be unavailable. */
  datatype Outcome = Failed | Finished(code: Option<int>)

  const EXCESSIVE_LENGTH: nat := 100 * 1024

  // ----- The verdict on a whole response ------------------------------------------------------

  function Body(events: seq<Event>): Bytes {
    if events == [] then []
    else Body(events[..|events| - 1]) + (match events[|events| - 1] case Header(_) => [] case Chunk(data) => data)
  }

  /** What the body alone decides, before the transfer is over. */
  function Early(response: Bytes, body: Bytes): Option<State> {
    if response == [] then (if |body| > EXCESSIVE_LENGTH then Some(Portal) else None)
    else if response <= body then Some(Full)
    else if body <= response then None
    else Some(Portal)
  }

  /** What the end of the transfer decides. */
  function Late(response: Bytes, body: Bytes, outcome: Outcome): State {
    match outcome
    case Failed => Limited
    case Finished(code) =>
      if response == [] && (code == Some(204) || (code == Some(200) && body == [])) then Full else Portal
  }

  /** The verdict on a response received as a whole. */
  function Verdict(response: Bytes, body: Bytes, outcome: Outcome): State {
    var early := Early(response, body);
    if early.Some? then early.value else Late(response, body, outcome)
  }

  /** A verdict reached early is not changed by what follows. */
  lemma EarlyIsFinal(response: Bytes, body: Bytes, more: Bytes)
    requires Early(response, body).Some?
    ensures Early(response, body + more) == Early(response, body)
  {
  }

  /** In a finished transfer a wanted response is recognised exactly when the body starts with it. */
  lemma WantedResponse(response: Bytes, body: Bytes, code: Option<int>)
    requires response != []
    ensures Verdict(response, body, Finished(code)) == if response <= body then Full else Portal
  {
  }

  /** If no response is wanted, an excessive one means a portal; otherwise the status code decides, and
      without a content "200 OK" will do. */
  lemma NoResponseWanted(body: Bytes, outcome: Outcome)
    ensures Verdict([], body, outcome) ==
            if |body| > 102400 then Portal
            else if outcome == Failed then Limited
            else if outcome.code == Some(204) || (outcome.code == Some(200) && |body| == 0) then Full
            else Portal
  {
  }

  /** A transfer that fails half way is judged by what has arrived. */
  lemma FailedTransfer(response: Bytes, body: Bytes)
    requires response != []
    ensures Verdict(response, body, Failed) ==
            if response <= body then Full else if body <= response then Limited else Portal
  {
  }

  /** The first status header that counts: it comes before the body has decided anything. */
  ghost predicate HeaderDecides(response: Bytes, events: seq<Event>) {
    exists i :: 0 <= i < |events| && events[i] == Header(true) && Early(response, Body(events[..i])).None?
  }

  // ----- The reader ---------------------------------------------------------------------------

  class Reader {
    const response: Bytes
    var completed: Option<State>
    var good: nat

    constructor (expected: Bytes)
      ensures response == expected && completed == None && good == 0
    {
      response, completed, good := expected, None, 0;
    }

    /** Nothing is decided yet, and what was received so far is accounted for. */
    ghost predicate Undecided(body: Bytes)
      reads this
    {
      completed.None? && good == |body| && Early(response, body).None?
    }

    /** The state after some events. */
    ghost predicate Follows(events: seq<Event>)
      reads this
    {
      if HeaderDecides(response, events) then completed == Some(Full)
      else if Early(response, Body(events)).Some? then completed == Early(response, Body(events))
      else Undecided(Body(events))
    }

    /** easy_header_cb(). */
    method HeaderCb(online: bool) returns (goOn: bool)
      modifies this`completed
      ensures completed == if old(completed).None? && online then Some(Full) else old(completed)
      ensures goOn <==> completed.None?
    {
      if completed.Some? {
        return false;
      }
      if online {
        completed := Some(Full);
        return false;
      }
      return true;
    }

    /** easy_write_cb(): a piece of the body, after the body before it. */
    method WriteCb(data: Bytes, ghost before: Bytes) returns (goOn: bool)
      requires completed.None? ==> Undecided(before)
      modifies this
      ensures old(completed).Some? ==> completed == old(completed)
      ensures old(completed).None? && Early(response, before + data).Some? ==>
                completed == Early(response, before + data)
      ensures old(completed).None? && Early(response, before + data).None? ==> Undecided(before + data)
      ensures goOn <==> completed.None?
    {
      if completed.Some? {
        return false;
      }
      if |data| == 0 {
        assert before + data == before;
        return true;
      }
      if |response| == 0 {
        good := good + |data|;
        if good > EXCESSIVE_LENGTH {
          completed := Some(Portal);
          return false;
        }
        return true;
      }
      assert before <= response && good < |response|;
      var checkLen := if |data| < |response| - good then |data| else |response| - good;
      MatchingPiece(response, before, data, checkLen);
      if response[good..good + checkLen] != data[..checkLen] {
        completed := Some(Portal);
        return false;
      }
      good := good + |data|;
      if good >= |response| {
        completed := Some(Full);
        return false;
      }
      return true;
    }

    /** The loop body of _con_curl_check_connectivity(). */
    method DoneCb(outcome: Outcome)
      modifies this`completed
      ensures old(completed).Some? ==> completed == old(completed)
      ensures old(completed).None? ==> completed == Some(match outcome
                case Failed => Limited
                case Finished(code) =>
                  if response == [] && (code == Some(204) || (code == Some(200) && good == 0)) then Full else Portal)
    {
      if completed.Some? {
        return;
      }
      if outcome.Failed? {
        completed := Some(Limited);
        return;
      }
      if |response| == 0 && outcome.code.Some? {
        if outcome.code.value == 204 {
          completed := Some(Full);
          return;
        }
        if outcome.code.value == 200 && good == 0 {
          completed := Some(Full);
          return;
        }
      }
      completed := Some(Portal);
    }
  }

  /** Comparing one piece decides the same as comparing the body so far. */
  lemma MatchingPiece(response: Bytes, before: Bytes, data: Bytes, checkLen: nat)
    requires before <= response && |before| < |response| && |data| > 0
    requires checkLen == if |data| < |response| - |before| then |data| else |response| - |before|
    ensures response[|before|..|before| + checkLen] == data[..checkLen] <==>
            if |before| + |data| < |response| then before + data <= response else response <= before + data
    ensures response[|before|..|before| + checkLen] != data[..checkLen] ==>
              !(before + data <= response) && !(response <= before + data)
  {
  }

  lemma BodyStep(events: seq<Event>, e: Event)
    ensures Body(events + [e]) == Body(events) + (if e.Chunk? then e.data else [])
  {
  }

  /** One more event. */
  lemma HeaderDecidesStep(response: Bytes, events: seq<Event>, e: Event)
    ensures HeaderDecides(response, events + [e]) <==>
            HeaderDecides(response, events) || (e == Header(true) && Early(response, Body(events)).None?)
  {
    var all := events + [e];
    assert forall i :: 0 <= i < |events| ==> all[i] == events[i] && all[..i] == events[..i];
    assert all[..|events|] == events && all[|events|] == e;
  }

  /** Handing one event to the reader keeps it in step with all events so far. */
  method Feed(reader: Reader, e: Event, ghost before: seq<Event>)
    requires reader.Follows(before)
    modifies reader
    ensures reader.Follows(before + [e])
  {
    ghost var body := Body(before);
    BodyStep(before, e);
    HeaderDecidesStep(reader.response, before, e);
    match e
    case Header(online) =>
      var _ := reader.HeaderCb(online);
      assert Body(before + [e]) == body;
    case Chunk(data) =>
      if Early(reader.response, body).Some? {
        EarlyIsFinal(reader.response, body, data);
      }
      var _ := reader.WriteCb(data, body);
  }

  /**
   * A whole transfer. However the body is cut into pieces, the verdict is the one on the body received
   * as a whole, unless the status header was seen before the body decided.
   */
  method Transfer(response: Bytes, events: seq<Event>, outcome: Outcome) returns (verdict: State)
    ensures verdict == if HeaderDecides(response, events) then Full else Verdict(response, Body(events), outcome)
  {
    var reader := new Reader(response);
    assert events[..0] == [];
    for i := 0 to |events|
      invariant reader.response == response && reader.Follows(events[..i])
    {
      assert events[..i + 1] == events[..i] + [events[i]];
      Feed(reader, events[i], events[..i]);
    }
    assert events[..|events|] == events;
    reader.DoneCb(outcome);
    return reader.completed.value;
  }
}
