/** The browser side of the live view: the windowed buffer of one well and the socket that reconnects. */
module Browser {
  import opened Numbers
  import opened Order
  import View = LiveView

  // ---- the message handler -------------------------------------------------------------------

  /** A parsed message; `CurveFrame` is a snapshot or a data frame, whose fields may be missing. */
  datatype ServerMessage =
    | CurveFrame(snapshot: bool, well: Option<string>, curves: Option<View.Batch>)
    | OtherFrame

  class WellStream {
    const wellUid: string
    const windowSize: nat
    var curves: View.Batch
    var rev: nat

    constructor (wellUid: string, windowSize: nat)
      ensures this.wellUid == wellUid && this.windowSize == windowSize && curves == map[] && rev == 0
    {
      this.wellUid, this.windowSize := wellUid, windowSize;
      curves, rev := map[], 0;
    }

    /** Frames that name another well are not for this view; an absent or empty name matches any. */
    predicate Concerns(m: ServerMessage) {
      m.CurveFrame? && m.curves.Some? && (m.well.None? || m.well.value == "" || m.well.value == wellUid)
    }

    /** A snapshot replaces the curves it carries, data extends them, anything else leaves the buffer alone. */
    method OnMessage(m: ServerMessage)
      modifies this
      ensures curves == if Concerns(m) then View.Windowed(old(curves), m.curves.value, windowSize, m.snapshot)
                        else old(curves)
      ensures m.CurveFrame? && m.well.Some? && m.well.value != "" && m.well.value != wellUid ==>
                curves == old(curves) && rev == old(rev)
      ensures m.CurveFrame? && m.curves.Some? && (m.well == Some(wellUid) || m.well.None? || m.well == Some("")) ==>
                curves == View.Windowed(old(curves), m.curves.value, windowSize, m.snapshot)
      ensures rev == old(rev) || rev == old(rev) + 1
      ensures rev == old(rev) + 1 <==> Concerns(m) && exists c :: c in m.curves.value && m.curves.value[c] != []
    {
      if Concerns(m) {
        var changed;
        curves, changed := View.AppendWindowed(curves, m.curves.value, windowSize, m.snapshot);
        if changed {
          rev := rev + 1;
        }
      }
    }
  }

  // ---- the reconnecting socket ---------------------------------------------------------------

  datatype Request = SubscribeTo(well: string) | UnsubscribeFrom(well: string)

  datatype Socket = NoSocket | Connecting | Open | Closed

  /** The well the server streams after these requests: it serves one well, and any unsubscription ends it. */
  function ServedWell(requests: seq<Request>): Option<string> {
    if requests == [] then None else
      match requests[|requests| - 1]
      case SubscribeTo(well) => if well != "" then Some(well) else ServedWell(requests[..|requests| - 1])
      case UnsubscribeFrom(_) => None
  }

  /** The delay before the next attempt after a number of failures in a row. */
  function Backoff(min: nat, max: nat, failures: nat): nat {
    if failures == 0 then min else Min(2 * Backoff(min, max, failures - 1), max)
  }

  /** The delay doubles with each failure and never exceeds its maximum. */
  lemma {:induction false} BackoffDoubles(min: nat, max: nat, failures: nat)
    requires min <= max
    ensures Backoff(min, max, failures) == Min(min * Power(2, failures), max)
  {
    if failures > 0 {
      BackoffDoubles(min, max, failures - 1);
      CappedTwice(min, Power(2, failures - 1), max);
    }
  }

  lemma CappedTwice(a: nat, p: int, max: nat)
    ensures Min(2 * Min(a * p, max), max) == Min(a * (2 * p), max)
  {
    assert a * (2 * p) == 2 * (a * p);
  }

  predicate NoRepeats(wells: seq<string>) {
    forall i, j :: 0 <= i < j < |wells| ==> wells[i] != wells[j]
  }

  function Requests(wells: seq<string>): (r: seq<Request>)
    ensures |r| == |wells| && forall i :: 0 <= i < |r| ==> r[i] == SubscribeTo(wells[i])
  {
    seq(|wells|, i requires 0 <= i < |wells| => SubscribeTo(wells[i]))
  }

  /** A JavaScript set without one of its members. */
  function Without(wells: seq<string>, well: string): (r: seq<string>)
    ensures forall w :: w in r <==> w in wells && w != well
    ensures NoRepeats(wells) ==> NoRepeats(r)
  {
    if wells == [] then [] else
      var n := |wells| - 1;
      var front := Without(wells[..n], well);
      assert wells == wells[..n] + [wells[n]];
      assert NoRepeats(wells) ==> wells[n] !in wells[..n];
      assert forall i :: 0 <= i < |front| ==> front[i] in front && front[i] in wells[..n];
      if wells[n] == well then front else front + [wells[n]]
  }

  /** The server ends up with the last well asked for that has a name. */
  lemma {:induction false} LastIsServed(wells: seq<string>, i: nat)
    requires i < |wells| && wells[i] != "" && forall j :: i < j < |wells| ==> wells[j] == ""
    ensures ServedWell(Requests(wells)) == Some(wells[i])
  {
    var n := |wells| - 1;
    assert Requests(wells)[..n] == Requests(wells[..n]);
    if i < n {
      LastIsServed(wells[..n], i);
    }
  }

  /** The others keep their order. */
  lemma {:induction false} WithoutInOrder(wells: seq<string>, well: string)
    ensures Subsequence(Without(wells, well), wells)
  {
    hide Subsequence;
    if wells != [] {
      var n := |wells| - 1;
      WithoutInOrder(wells[..n], well);
      assert wells == wells[..n] + [wells[n]];
      SubsequenceSkips(Without(wells[..n], well), wells[..n], wells[n]);
      SubsequenceTakes(Without(wells[..n], well), wells[..n], wells[n]);
    } else {
      NothingIsSubsequence(wells);
    }
  }

  class ReconnectingWebSocket {
    const minDelay: nat
    const maxDelay: nat
    var ws: Socket
    var currentDelay: nat
    var shouldRun: bool
    var reconnectTimer: Option<nat>
    /** In the order they were added, each once. */
    var subscribedWells: seq<string>

    /** What was sent on the present connection. */
    ghost var sent: seq<Request>
    ghost var failures: nat

    /** A reconnection is only ever pending while the socket is wanted; the delay follows the failures. */
    ghost predicate Valid()
      reads this
    {
      && (reconnectTimer.Some? ==> shouldRun)
      && currentDelay == Backoff(minDelay, maxDelay, failures)
      && (ws != Open ==> sent == [])
      && NoRepeats(subscribedWells)
    }

    constructor (minDelay: nat, maxDelay: nat)
      ensures Valid() && this.minDelay == minDelay && this.maxDelay == maxDelay
      ensures ws == NoSocket && !shouldRun && reconnectTimer.None? && subscribedWells == [] && failures == 0
    {
      this.minDelay, this.maxDelay := minDelay, maxDelay;
      ws, currentDelay, shouldRun, reconnectTimer, subscribedWells := NoSocket, minDelay, false, None, [];
      sent, failures := [], 0;
    }

    /** `connect`; `refused` tells whether constructing the socket throws. */
    method Connect(refused: bool)
      requires Valid()
      modifies this
      ensures Valid() && shouldRun && subscribedWells == old(subscribedWells)
      ensures !refused ==> ws == Connecting && failures == old(failures) && reconnectTimer == old(reconnectTimer)
      ensures refused ==> ws == old(ws) && reconnectTimer.Some?
    {
      shouldRun := true;
      TryOpen(refused);
    }

    /** `open`: nothing happens once the socket is closed for good. */
    method TryOpen(refused: bool)
      requires Valid()
      modifies this
      ensures Valid() && shouldRun == old(shouldRun) && subscribedWells == old(subscribedWells)
      ensures !shouldRun ==> ws == old(ws) && reconnectTimer == old(reconnectTimer) && failures == old(failures)
      ensures shouldRun && !refused ==>
                ws == Connecting && failures == old(failures) && reconnectTimer == old(reconnectTimer)
      ensures shouldRun && refused ==> ws == old(ws) && reconnectTimer.Some?
    {
      if !shouldRun {
        return;
      }
      if refused {
        ScheduleReconnect();
        return;
      }
      ws := Connecting;
      sent := [];
    }

    /** At most one attempt is pending, after the delay the failures so far call for. */
    method ScheduleReconnect()
      requires Valid()
      modifies this
      ensures Valid() && shouldRun == old(shouldRun) && ws == old(ws) && sent == old(sent)
      ensures subscribedWells == old(subscribedWells)
      ensures shouldRun ==> reconnectTimer.Some?
      ensures if !old(shouldRun) || old(reconnectTimer).Some? then
                reconnectTimer == old(reconnectTimer) && failures == old(failures)
              else
                reconnectTimer == Some(Backoff(minDelay, maxDelay, old(failures))) && failures == old(failures) + 1
    {
      if !shouldRun || reconnectTimer.Some? {
        return;
      }
      reconnectTimer := Some(currentDelay);
      currentDelay := Min(currentDelay * 2, maxDelay);
      failures := failures + 1;
    }

    method TimerFires(refused: bool)
      requires Valid() && reconnectTimer.Some?
      modifies this
      ensures Valid() && shouldRun && subscribedWells == old(subscribedWells)
      ensures if refused then reconnectTimer.Some? else ws == Connecting && reconnectTimer.None?
    {
      reconnectTimer := None;
      TryOpen(refused);
    }

    /**
     * `onopen`: every subscription is sent again, each once and in the order they were added, so the server serves
     * the last of them that has a name; the delay starts over.
     */
    method OnOpen()
      requires Valid() && ws == Connecting
      modifies this
      ensures Valid() && ws == Open && failures == 0 && currentDelay == minDelay
      ensures subscribedWells == old(subscribedWells) && sent == Requests(subscribedWells)
      ensures forall i :: 0 <= i < |subscribedWells| && subscribedWells[i] != "" &&
                          (forall j :: i < j < |subscribedWells| ==> subscribedWells[j] == "") ==>
                            ServedWell(sent) == Some(subscribedWells[i])
      ensures shouldRun == old(shouldRun) && reconnectTimer == old(reconnectTimer)
    {
      hide ServedWell, Backoff;
      BackoffStarts(minDelay, maxDelay);
      currentDelay := minDelay;
      failures := 0;
      ws := Open;
      for i := 0 to |subscribedWells|
        modifies `sent
        invariant sent == Requests(subscribedWells[..i])
      {
        Send(SubscribeTo(subscribedWells[i]));
        assert subscribedWells[..i + 1] == subscribedWells[..i] + [subscribedWells[i]];
      }
      assert subscribedWells[..|subscribedWells|] == subscribedWells;
      forall i | 0 <= i < |subscribedWells| && subscribedWells[i] != "" &&
                 (forall j :: i < j < |subscribedWells| ==> subscribedWells[j] == "")
        ensures ServedWell(sent) == Some(subscribedWells[i])
      {
        LastIsServed(subscribedWells, i);
      }
    }

    lemma BackoffStarts(min: nat, max: nat)
      ensures Backoff(min, max, 0) == min
    {
    }

    method OnClose()
      requires Valid()
      modifies this
      ensures Valid() && subscribedWells == old(subscribedWells) && shouldRun == old(shouldRun)
      ensures ws == if old(ws) == NoSocket then NoSocket else Closed
      ensures reconnectTimer.Some? <==> shouldRun
    {
      if ws != NoSocket {
        ws := Closed;
      }
      sent := [];
      ScheduleReconnect();
    }

    method Send(r: Request)
      modifies this`sent
      ensures sent == if ws == Open then old(sent) + [r] else old(sent)
    {
      if ws == Open {
        sent := sent + [r];
      }
    }

    /** A subscription is remembered whether or not it can be sent now. */
    method Subscribe(well: string)
      requires Valid()
      modifies this`subscribedWells, this`sent
      ensures Valid()
      ensures subscribedWells == old(subscribedWells) + if well in old(subscribedWells) then [] else [well]
      ensures ws == Open && well != "" ==> ServedWell(sent) == Some(well)
    {
      if well !in subscribedWells {
        subscribedWells := subscribedWells + [well];
      }
      Send(SubscribeTo(well));
    }

    method Unsubscribe(well: string)
      requires Valid()
      modifies this`subscribedWells, this`sent
      ensures Valid() && subscribedWells == Without(old(subscribedWells), well)
      ensures ws == Open ==> ServedWell(sent) == None
    {
      subscribedWells := Without(subscribedWells, well);
      Send(UnsubscribeFrom(well));
    }

    /** Closed for good: nothing is pending, and no later event of the socket or timer brings it back. */
    method Close()
      requires Valid()
      modifies this
      ensures Valid() && !shouldRun && reconnectTimer.None? && ws == NoSocket
      ensures subscribedWells == old(subscribedWells)
    {
      shouldRun := false;
      reconnectTimer := None;
      ws := NoSocket;
      sent := [];
    }
  }
}
