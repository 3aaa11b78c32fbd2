/** A protocol connection as the pool sees it: the sticky `healthy` flag.

    Transport, codec and protocol are outside; whether a handshake, ping or reset succeeds is an input.
    Beside the flag, `Conn` carries the history the pool's promises talk about.
  */
module ProtocolConnection {
  import opened Wrappers

  datatype Conn = Conn(
    healthy: bool,        // the source's field
    handshaken: bool,     // history: the handshake succeeded
    dirty: bool,          // history: user traffic since the last successful reset
    everUnhealthy: bool,  // history: a ping or a reset once failed
    pinged: bool)         // history: the latest health check since it was taken out or opened passed

  /** `ProtocolFactory::connect`: transport first, then the handshake. */
  function Connect(transportOk: bool, handshakeOk: bool): Option<Conn> {
    if !transportOk then None
    else if !handshakeOk then None
    else Some(Conn(true, true, false, false, false))
  }

  /** `is_healthy`: an unhealthy connection is not even pinged. */
  function HealthCheck(c: Conn, pingOk: bool): (Conn, bool) {
    if !c.healthy then (c, false)
    else (c.(healthy := pingOk, pinged := pingOk, everUnhealthy := c.everUnhealthy || !pingOk), pingOk)
  }

  /** `reset`: a failure marks the connection; a success clears the session state only. */
  function Reset(c: Conn, resetOk: bool): (Conn, bool) {
    if resetOk then (c.(dirty := false), true)
    else (c.(healthy := false, everUnhealthy := true), false)
  }

  /** Taken out of the pool: what was checked before no longer counts. */
  function TakenOut(c: Conn): Conn { c.(pinged := false) }

  function Traffic(c: Conn): Conn { c.(dirty := true) }

  class Connection {
    var healthy: bool
    ghost var dirty: bool
    ghost var everUnhealthy: bool
    ghost var pinged: bool

    ghost function View(): Conn
      reads this
    {
      Conn(healthy, true, dirty, everUnhealthy, pinged)
    }

    /** A connection object exists only once its handshake has succeeded. */
    constructor ()
      ensures Some(View()) == Connect(true, true)
    {
      healthy, dirty, everUnhealthy, pinged := true, false, false, false;
    }

    method IsHealthy(pingOk: bool) returns (ok: bool)
      modifies this
      ensures (View(), ok) == HealthCheck(old(View()), pingOk)
      ensures ok == healthy == (old(healthy) && pingOk)
    {
      if !healthy {
        return false;
      }
      ok := pingOk;
      healthy := ok;
      pinged, everUnhealthy := ok, everUnhealthy || !ok;
    }

    method ResetSession(resetOk: bool) returns (ok: bool)
      modifies this
      ensures (View(), ok) == Reset(old(View()), resetOk)
      ensures ok == resetOk && healthy == (old(healthy) && resetOk)
    {
      if !resetOk {
        healthy, everUnhealthy := false, true;
        return false;
      }
      dirty := false;
      return true;
    }
  }

  datatype Call = Ping(ok: bool) | ResetCall(ok: bool) | Frames

  function Apply(c: Conn, call: Call): Conn {
    match call
    case Ping(ok) => HealthCheck(c, ok).0
    case ResetCall(ok) => Reset(c, ok).0
    case Frames => Traffic(c)
  }

  function ApplyAll(c: Conn, calls: seq<Call>): Conn
    decreases |calls|
  {
    if calls == [] then c else ApplyAll(Apply(c, calls[0]), calls[1..])
  }

  /** The flag is sticky: whatever is called afterwards, an unhealthy connection answers `false`
      to every later health check, and the flag is exactly "never failed". */
  lemma {:induction false} UnhealthyForEver(c: Conn, calls: seq<Call>, pingOk: bool)
    requires c.healthy == !c.everUnhealthy
    ensures var d := ApplyAll(c, calls);
            && d.healthy == !d.everUnhealthy
            && (!c.healthy ==> !d.healthy && !HealthCheck(d, pingOk).1)
    decreases |calls|
  {
    if calls != [] {
      UnhealthyForEver(Apply(c, calls[0]), calls[1..], pingOk);
    }
  }

  /** A connection exists if and only if both the transport and the handshake succeeded. */
  lemma ConnectsIff(transportOk: bool, handshakeOk: bool)
    ensures Connect(transportOk, handshakeOk).Some? <==> transportOk && handshakeOk
    ensures Connect(transportOk, handshakeOk).Some? ==>
              var c := Connect(transportOk, handshakeOk).value;
              c.healthy && c.handshaken && !c.dirty && !c.everUnhealthy
  {
  }

  predicate Fails(call: Call) { call == Ping(false) || call == ResetCall(false) }

  /** In terms of the calls alone: a connection is healthy exactly if it was and no ping or reset since has failed,
      and a health check then answers exactly whether its own ping succeeds too. */
  lemma {:induction false} HealthyIffNothingFailed(c: Conn, calls: seq<Call>, pingOk: bool)
    ensures ApplyAll(c, calls).healthy <==> c.healthy && forall i :: 0 <= i < |calls| ==> !Fails(calls[i])
    ensures HealthCheck(ApplyAll(c, calls), pingOk).1 <==> ApplyAll(c, calls).healthy && pingOk
    decreases |calls|
  {
    if calls != [] {
      HealthyIffNothingFailed(Apply(c, calls[0]), calls[1..], pingOk);
      assert forall i :: 0 <= i < |calls[1..]| ==> calls[1..][i] == calls[i + 1];
      if forall i :: 0 <= i < |calls[1..]| ==> !Fails(calls[1..][i]) {
        assert forall i :: 1 <= i < |calls| ==> calls[i] == calls[1..][i - 1];
      }
    }
  }

  /** The latest of these calls that matter to the session is traffic. */
  predicate TrafficLast(calls: seq<Call>, dirty: bool) {
    if calls == [] then dirty
    else match calls[|calls| - 1]
      case Frames => true
      case ResetCall(ok) => !ok && TrafficLast(calls[..|calls| - 1], dirty)
      case Ping(_) => TrafficLast(calls[..|calls| - 1], dirty)
  }

  /** A session state is left over exactly if there was traffic after the latest successful reset. */
  lemma {:induction false} DirtyIffTrafficLast(c: Conn, calls: seq<Call>)
    ensures ApplyAll(c, calls).dirty <==> TrafficLast(calls, c.dirty)
    decreases |calls|
  {
    if calls != [] {
      var n := |calls| - 1;
      DirtyIffTrafficLast(c, calls[..n]);
      ApplyLast(c, calls[..n], calls[n]);
      assert calls[..n] + [calls[n]] == calls;
    }
  }

  lemma {:induction false} ApplyLast(c: Conn, calls: seq<Call>, call: Call)
    ensures ApplyAll(c, calls + [call]) == Apply(ApplyAll(c, calls), call)
    decreases |calls|
  {
    if calls == [] {
      assert (calls + [call])[1..] == [];
      assert ApplyAll(Apply(c, call), []) == Apply(c, call);
    } else {
      assert (calls + [call])[1..] == calls[1..] + [call];
      ApplyLast(Apply(c, calls[0]), calls[1..], call);
    }
  }
}
