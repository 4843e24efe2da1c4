/** The two reductions of notifications.v1: role announcements and the snapshot bracket. */
module Notifications {
  import opened Prelude

  // ---- roles ----------------------------------------------------------------------------------

  datatype Role = Source | Sink | DismissTarget | DismissReporter

  /** An unknown or unspecified value is no role at all. */
  function RoleFromWire(value: int): Option<Role> {
    match value
    case 1 => Some(Source)
    case 2 => Some(Sink)
    case 3 => Some(DismissTarget)
    case 4 => Some(DismissReporter)
    case _ => None
  }

  datatype Announcement = Announcement(epoch: nat, wireRoles: seq<int>)

  function RolesOf(wire: seq<int>): set<Role> {
    set v | v in wire && RoleFromWire(v).Some? :: RoleFromWire(v).value
  }

  /** The number a role has on the wire. */
  function WireOf(role: Role): int {
    match role
    case Source => 1
    case Sink => 2
    case DismissTarget => 3
    case DismissReporter => 4
  }

  /** A list names exactly the roles whose numbers are in it; 0 and unknown numbers name none. */
  lemma RolesByNumber(wire: seq<int>, role: Role)
    ensures role in RolesOf(wire) <==> WireOf(role) in wire
  {
    assert RoleFromWire(WireOf(role)) == Some(role);
  }

  datatype RolesRejection = UnsetEpoch | StaleEpoch(last: nat, got: nat)

  datatype RolesState = RolesState(roles: set<Role>, epoch: nat)

  const NO_ROLES := RolesState({}, 0)

  function ApplyRoles(s: RolesState, a: Announcement): RolesState {
    if a.epoch == 0 || a.epoch <= s.epoch then s else RolesState(RolesOf(a.wireRoles), a.epoch)
  }

  class PeerRoles {
    var roles: set<Role>
    var epoch: nat

    function View(): RolesState
      reads this
    {
      RolesState(roles, epoch)
    }

    constructor ()
      ensures View() == NO_ROLES
    {
      roles, epoch := {}, 0;
    }

    /** The announcement is the complete set: it replaces, or it is refused whole. */
    method Apply(a: Announcement) returns (r: Result<(), RolesRejection>)
      modifies this
      ensures View() == ApplyRoles(old(View()), a)
      ensures r == if a.epoch == 0 then Err(UnsetEpoch)
                   else if a.epoch <= old(epoch) then Err(StaleEpoch(old(epoch), a.epoch)) else Ok(())
      ensures r.Ok? ==> forall role :: role in roles <==> WireOf(role) in a.wireRoles
    {
      if a.epoch == 0 {
        return Err(UnsetEpoch);
      }
      if a.epoch <= epoch {
        return Err(StaleEpoch(epoch, a.epoch));
      }
      var collected: set<Role> := {};
      for i := 0 to |a.wireRoles|
        invariant collected == RolesOf(a.wireRoles[..i])
      {
        var role := RoleFromWire(a.wireRoles[i]);
        assert a.wireRoles[..i + 1] == a.wireRoles[..i] + [a.wireRoles[i]];
        if role.Some? {
          collected := collected + {role.value};
        }
      }
      assert a.wireRoles[..|a.wireRoles|] == a.wireRoles;
      forall role
        ensures role in collected <==> WireOf(role) in a.wireRoles
      {
        RolesByNumber(a.wireRoles, role);
      }
      roles := collected;
      epoch := a.epoch;
      r := Ok(());
    }
  }

  function RolesAfter(h: seq<Announcement>): RolesState {
    if h == [] then NO_ROLES else ApplyRoles(RolesAfter(h[..|h| - 1]), h[|h| - 1])
  }

  /** `i` is the first announcement that reaches the largest epoch. */
  ghost predicate FirstLargest(h: seq<Announcement>, i: nat) {
    && i < |h|
    && (forall j :: 0 <= j < |h| ==> h[j].epoch <= h[i].epoch)
    && (forall j :: 0 <= j < i ==> h[j].epoch < h[i].epoch)
  }

  /** Whatever arrives, the roles are those of the first announcement with the largest non-zero epoch. */
  lemma {:induction false} RolesAreOfFirstLargest(h: seq<Announcement>) returns (i: nat)
    ensures RolesAfter(h).epoch == 0 ==> RolesAfter(h) == NO_ROLES && forall j :: 0 <= j < |h| ==> h[j].epoch == 0
    ensures RolesAfter(h).epoch > 0 ==> FirstLargest(h, i) && RolesAfter(h) == RolesState(RolesOf(h[i].wireRoles), h[i].epoch)
    ensures RolesAfter(h).epoch > 0 ==> forall role :: role in RolesAfter(h).roles <==> WireOf(role) in h[i].wireRoles
  {
    i := 0;
    if h != [] {
      i := RolesAreOfFirstLargest(h[..|h| - 1]);
      if h[|h| - 1].epoch > RolesAfter(h[..|h| - 1]).epoch {
        i := |h| - 1;
        forall role
          ensures role in RolesOf(h[i].wireRoles) <==> WireOf(role) in h[i].wireRoles
        {
          RolesByNumber(h[i].wireRoles, role);
        }
      }
    }
  }

  /** One epoch, one set: what an honest peer sends. */
  ghost predicate Consistent(h: seq<Announcement>) {
    forall i, j :: 0 <= i < |h| && 0 <= j < |h| && h[i].epoch == h[j].epoch
                   ==> RolesOf(h[i].wireRoles) == RolesOf(h[j].wireRoles)
  }

  /** No announcement reaches a larger epoch than this one, which is set. */
  ghost predicate IsLargest(h: seq<Announcement>, a: Announcement) {
    a in h && a.epoch > 0 && forall b :: b in h ==> b.epoch <= a.epoch
  }

  /** The announcements of the largest epoch carry one set; earlier epochs may contradict themselves. */
  ghost predicate AgreeAtLargest(h: seq<Announcement>) {
    forall a, b :: IsLargest(h, a) && IsLargest(h, b) ==> RolesOf(a.wireRoles) == RolesOf(b.wireRoles)
  }

  ghost predicate SameAnnouncements(h: seq<Announcement>, h': seq<Announcement>) {
    forall a :: a in h <==> a in h'
  }

  /** The state is that of some announcement of the largest epoch, if any epoch is set. */
  lemma RolesOfSomeLargest(h: seq<Announcement>) returns (a: Announcement)
    ensures RolesAfter(h).epoch == 0 ==> RolesAfter(h) == NO_ROLES && forall b :: b in h ==> b.epoch == 0
    ensures RolesAfter(h).epoch > 0 ==> IsLargest(h, a) && RolesAfter(h) == RolesState(RolesOf(a.wireRoles), a.epoch)
  {
    var i := RolesAreOfFirstLargest(h);
    a := if RolesAfter(h).epoch > 0 then h[i] else Announcement(0, []);
  }

  /** Reordering and duplicating announcements changes nothing about where a peer ends up. */
  lemma RolesConverge(h: seq<Announcement>, h': seq<Announcement>)
    requires AgreeAtLargest(h) && SameAnnouncements(h, h')
    ensures RolesAfter(h) == RolesAfter(h')
  {
    var a := RolesOfSomeLargest(h);
    var a' := RolesOfSomeLargest(h');
    if RolesAfter(h).epoch > 0 && RolesAfter(h').epoch > 0 {
      assert IsLargest(h, a) && IsLargest(h, a');
    }
  }

  lemma ConsistentAgrees(h: seq<Announcement>)
    requires Consistent(h)
    ensures AgreeAtLargest(h)
  {
    forall a, b | IsLargest(h, a) && IsLargest(h, b)
      ensures RolesOf(a.wireRoles) == RolesOf(b.wireRoles)
    {
      var i :| 0 <= i < |h| && h[i] == a;
      var j :| 0 <= j < |h| && h[j] == b;
    }
  }

  /** An announcement of the largest epoch that comes first decides. */
  lemma FirstDecides(h: seq<Announcement>, a: Announcement)
    requires IsLargest(h, a)
    ensures SameAnnouncements(h, [a] + h) && RolesAfter([a] + h) == RolesState(RolesOf(a.wireRoles), a.epoch)
  {
    var h' := [a] + h;
    assert h'[0] == a;
    var i := RolesAreOfFirstLargest(h');
    assert forall j :: 1 <= j < |h'| ==> h'[j] == h[j - 1] && h'[j] in h;
    assert RolesAfter(h').epoch > 0;
    assert i == 0;
  }

  /** Every sequence of the same announcements ends as this one does. */
  ghost predicate OrderIsIrrelevant(h: seq<Announcement>) {
    forall h' :: SameAnnouncements(h, h') ==> RolesAfter(h') == RolesAfter(h)
  }

  /** Order and repetition do not matter if and only if the announcements of the largest epoch agree. */
  lemma RolesDependOnOrder(h: seq<Announcement>)
    ensures OrderIsIrrelevant(h) <==> AgreeAtLargest(h)
  {
    if AgreeAtLargest(h) {
      forall h' | SameAnnouncements(h, h')
        ensures RolesAfter(h') == RolesAfter(h)
      {
        RolesConverge(h, h');
      }
    }
    if OrderIsIrrelevant(h) {
      forall a, b | IsLargest(h, a) && IsLargest(h, b)
        ensures RolesOf(a.wireRoles) == RolesOf(b.wireRoles)
      {
        FirstDecides(h, a);
        FirstDecides(h, b);
      }
    }
  }

  /** A replayed announcement that is not newer never widens, narrows or changes anything again. */
  lemma {:induction false} StaleIsInert(h: seq<Announcement>, late: seq<Announcement>)
    requires forall k :: 0 <= k < |late| ==> late[k].epoch <= RolesAfter(h).epoch
    ensures RolesAfter(h + late) == RolesAfter(h)
  {
    if late == [] {
      assert h + late == h;
    } else {
      var front := late[..|late| - 1];
      assert (h + late)[..|h + late| - 1] == h + front;
      StaleIsInert(h, front);
    }
  }

  // ---- snapshots ------------------------------------------------------------------------------

  datatype Phase = Begin | End | UnknownPhase

  datatype SnapshotRejection = EndWithoutBegin | WrongSyncId

  datatype SnapshotStep =
    | Opened | Recorded | Live | Complete(named: set<Bytes>) | Restarted | Ignored(why: SnapshotRejection)

  datatype Open = Open(syncId: Bytes, named: set<Bytes>)

  datatype Event = Marker(phase: Phase, syncId: Bytes) | Upsert(id: Bytes) | Abandon

  function Next(s: Option<Open>, e: Event): (SnapshotStep, Option<Open>) {
    match e
    case Marker(Begin, syncId) => (if s.Some? then Restarted else Opened, Some(Open(syncId, {})))
    case Marker(End, syncId) =>
      if s.None? then (Ignored(EndWithoutBegin), None)
      else if s.value.syncId == syncId then (Complete(s.value.named), None)
      else (Ignored(WrongSyncId), s)
    case Marker(UnknownPhase, _) => (Ignored(EndWithoutBegin), s)
    case Upsert(id) => if s.Some? then (Recorded, Some(s.value.(named := s.value.named + {id}))) else (Live, None)
    case Abandon => (Live, None)
  }

  class Snapshot {
    var open: Option<Open>

    constructor ()
      ensures open == None
    {
      open := None;
    }

    method FeedMarker(phase: Phase, syncId: Bytes) returns (step: SnapshotStep)
      modifies this
      ensures (step, open) == Next(old(open), Marker(phase, syncId))
    {
      match phase {
        case Begin =>
          var restarted := open.Some?;
          open := Some(Open(syncId, {}));
          step := if restarted then Restarted else Opened;
        case End =>
          var taken := open;
          open := None;
          if taken.None? {
            return Ignored(EndWithoutBegin);
          }
          if taken.value.syncId == syncId {
            step := Complete(taken.value.named);
          } else {
            open := taken;
            step := Ignored(WrongSyncId);
          }
        case UnknownPhase =>
          step := Ignored(EndWithoutBegin);
      }
    }

    method FeedUpsert(id: Bytes) returns (step: SnapshotStep)
      modifies this
      ensures (step, open) == Next(old(open), Upsert(id))
    {
      if open.Some? {
        open := Some(open.value.(named := open.value.named + {id}));
        step := Recorded;
      } else {
        step := Live;
      }
    }

    method DoAbandon()
      modifies this
      ensures open == Next(old(open), Abandon).1
    {
      open := None;
    }
  }

  function SnapshotAfter(h: seq<Event>): Option<Open> {
    if h == [] then None else Next(SnapshotAfter(h[..|h| - 1]), h[|h| - 1]).1
  }

  /** In the trace: `b` is a BEGIN that nothing after it has restarted, completed or abandoned. */
  ghost predicate OpenSince(h: seq<Event>, b: nat) {
    && b < |h| && h[b].Marker? && h[b].phase == Begin
    && forall k :: b < k < |h|
         ==> h[k] != Abandon && !(h[k].Marker? && h[k].phase == Begin) && h[k] != Marker(End, h[b].syncId)
  }

  ghost function NamedSince(h: seq<Event>, b: nat): set<Bytes> {
    set k | b < k < |h| && h[k].Upsert? :: h[k].id
  }

  lemma NamedGrows(h: seq<Event>, b: nat)
    requires h != [] && b < |h| - 1
    ensures h[|h| - 1].Upsert? ==> NamedSince(h, b) == NamedSince(h[..|h| - 1], b) + {h[|h| - 1].id}
    ensures !h[|h| - 1].Upsert? ==> NamedSince(h, b) == NamedSince(h[..|h| - 1], b)
  {
  }

  /** The receiver's state after any trace says exactly what the trace says. */
  lemma {:induction false} SnapshotRefinesTrace(h: seq<Event>)
    ensures SnapshotAfter(h).None? ==> forall b: nat :: !OpenSince(h, b)
    ensures SnapshotAfter(h).Some? ==> exists b: nat :: OpenSince(h, b)
    ensures forall b: nat :: OpenSince(h, b) ==> SnapshotAfter(h) == Some(Open(h[b].syncId, NamedSince(h, b)))
  {
    if h != [] {
      var front, last := h[..|h| - 1], h[|h| - 1];
      SnapshotRefinesTrace(front);
      forall b: nat | OpenSince(h, b)
        ensures SnapshotAfter(h) == Some(Open(h[b].syncId, NamedSince(h, b)))
      {
        if b == |h| - 1 {
          assert NamedSince(h, b) == {};
        } else {
          assert OpenSince(front, b);
          NamedGrows(h, b);
          assert SnapshotAfter(front) == Some(Open(h[b].syncId, NamedSince(front, b)));
        }
      }
      if SnapshotAfter(h).Some? {
        if last.Marker? && last.phase == Begin {
          assert OpenSince(h, |h| - 1);
        } else {
          var b: nat :| OpenSince(front, b);
          assert OpenSince(h, b);
        }
      }
    }
  }

  /**
   After any trace, an END completes a snapshot exactly when it carries the id of the BEGIN that is
   open, and the set it hands over is exactly what was upserted since that BEGIN.
   */
  lemma SnapshotCompletes(h: seq<Event>, syncId: Bytes)
    ensures Next(SnapshotAfter(h), Marker(End, syncId)).0.Complete?
            <==> exists b: nat :: OpenSince(h, b) && h[b].syncId == syncId
    ensures forall b: nat :: OpenSince(h, b) && h[b].syncId == syncId
              ==> Next(SnapshotAfter(h), Marker(End, syncId)).0 == Complete(NamedSince(h, b))
  {
    SnapshotRefinesTrace(h);
    if Next(SnapshotAfter(h), Marker(End, syncId)).0.Complete? {
      var b: nat :| OpenSince(h, b);
      assert h[b].syncId == syncId;
    }
  }

  /** Nothing but an END ever completes a snapshot. */
  lemma OnlyEndCompletes(h: seq<Event>, e: Event)
    requires Next(SnapshotAfter(h), e).0.Complete?
    ensures e.Marker? && e.phase == End && exists b: nat :: OpenSince(h, b) && h[b].syncId == e.syncId
  {
    SnapshotCompletes(h, e.syncId);
  }
}
