/** The daemon's session map and its record of reconnect requests, updated in place. */
module SessionRegistry {
  import opened Prelude
  import opened Pairing
  import R = SessionRules

  /** The record of reconnect requests: for a peer, the id of the session a request went to. */
  class Renegotiation {
    var requested: map<Fingerprint, R.SessionId>

    constructor ()
      ensures requested == map[]
    {
      requested := map[];
    }

    /** Decides and records under one lock. */
    method OnGrantChanged(peer: Fingerprint, capability: Text, granted: bool, session: Option<R.Live>) returns (d: R.Decision)
      modifies this
      ensures d == R.DecideGrant(granted, capability, session, R.At(old(requested), peer))
      ensures requested == if d == R.Reconnect then old(requested)[peer := session.value.id] else old(requested)
    {
      d := R.DecideGrant(granted, capability, session, R.At(requested, peer));
      if d == R.Reconnect {
        requested := requested[peer := session.value.id];
      }
    }

    method Clear(peer: Fingerprint)
      modifies this
      ensures requested == old(requested) - {peer}
    {
      requested := requested - {peer};
    }
  }

  class Registry {
    var sessions: map<Fingerprint, R.Live>
    var lastSeen: map<Fingerprint, nat>
    const renegotiation: Renegotiation
    /** Sessions told to end because of a grant, and sessions ever registered. */
    ghost var asked: seq<R.SessionId>
    ghost var issued: map<R.SessionId, Fingerprint>

    ghost function View(): R.Sessions
      reads this, renegotiation
    {
      R.Sessions(sessions, renegotiation.requested, map[], asked, issued)
    }

    constructor ()
      ensures View() == R.NO_SESSIONS && fresh(renegotiation)
    {
      sessions, lastSeen, asked, issued := map[], map[], [], map[];
      renegotiation := new Renegotiation();
    }

    /** Returns the session that was registered before, for the caller to end. */
    method RegisterSession(peer: Fingerprint, handle: R.Live) returns (displaced: Option<R.Live>)
      modifies this, renegotiation
      ensures View() == R.Step(old(View()), R.Register(peer, handle)) && lastSeen == old(lastSeen)
      ensures displaced == R.At(old(sessions), peer)
    {
      renegotiation.Clear(peer);
      displaced := if peer in sessions then Some(sessions[peer]) else None;
      sessions := sessions[peer := handle];
      issued := issued[handle.id := peer];
    }

    /** A session that was replaced in the meantime leaves its replacement alone. */
    method UnregisterSession(peer: Fingerprint, id: R.SessionId, now: nat)
      modifies this
      ensures View() == R.Step(old(View()), R.Unregister(peer, id))
      ensures lastSeen == if sessions != old(sessions) then old(lastSeen)[peer := now] else old(lastSeen)
    {
      if peer in sessions && sessions[peer].id == id {
        sessions := sessions - {peer};
        lastSeen := lastSeen[peer := now];
      }
    }

    method DropSession(peer: Fingerprint, now: nat)
      modifies this
      ensures View() == R.Step(old(View()), R.Drop(peer))
      ensures lastSeen == if peer in old(sessions) then old(lastSeen)[peer := now] else old(lastSeen)
    {
      var removed := peer in sessions;
      sessions := sessions - {peer};
      if removed {
        lastSeen := lastSeen[peer := now];
      }
    }

    method ClearRenegotiation(peer: Fingerprint)
      modifies renegotiation
      ensures View() == R.Step(old(View()), R.Clear(peer))
    {
      renegotiation.Clear(peer);
    }

    /** The end of a revocation: the session goes, and then whatever was asked of it. */
    method ForgetPeer(peer: Fingerprint, now: nat)
      modifies this, renegotiation
      ensures View() == R.Step(old(View()), R.Forget(peer))
    {
      DropSession(peer, now);
      ClearRenegotiation(peer);
    }

    /** Ends a session that cannot use what was just granted, and no other. */
    method RenegotiateAfterGrant(peer: Fingerprint, capability: Text, granted: bool) returns (d: R.Decision)
      modifies this, renegotiation
      ensures View() == R.Step(old(View()), R.Grant(peer, capability, granted)) && lastSeen == old(lastSeen)
      ensures d == R.DecideGrant(granted, capability, R.At(sessions, peer), R.At(old(renegotiation.requested), peer))
    {
      var handle := if peer in sessions then Some(sessions[peer]) else None;
      d := renegotiation.OnGrantChanged(peer, capability, granted, handle);
      if d == R.Reconnect {
        asked := asked + [handle.value.id];
      }
    }
  }
}
