/**
 The registry of live sessions, and the rule that asks one to end when a grant widens past it.

 Handlers of different connections interleave. `Register` is `register_session`, `Grant` is
 `renegotiate_after_grant` and `Forget` the end of a revocation, each as one step; `Clear` and `Insert`
 are the two halves of the first, `Read` and `Decide` of the second and `Drop` and `Clear` of the
 third, for interleavings in which something else runs between them.
 */
module SessionRules {
  import opened Prelude
  import opened Pairing

  type SessionId = nat
  type Task = nat

  datatype Live = Live(id: SessionId, negotiated: seq<Text>)

  // ---- the rule -------------------------------------------------------------------------------

  datatype Decision = Withdrawn | NoSession | AlreadyNegotiated | AlreadyRequested | Reconnect

  function DecideGrant(granted: bool, capability: Text, session: Option<Live>, requested: Option<SessionId>): Decision {
    if !granted then Withdrawn
    else if session.None? then NoSession
    else if capability in session.value.negotiated then AlreadyNegotiated
    else if requested == Some(session.value.id) then AlreadyRequested
    else Reconnect
  }

  // ---- the machine ----------------------------------------------------------------------------

  datatype Event =
    | Register(peer: Fingerprint, live: Live)
    | Insert(peer: Fingerprint, live: Live)
    | Unregister(peer: Fingerprint, id: SessionId)
    | Drop(peer: Fingerprint)
    | Forget(peer: Fingerprint)
    | Clear(peer: Fingerprint)
    | Grant(peer: Fingerprint, capability: Text, granted: bool)
    | Read(task: Task, peer: Fingerprint)
    | Decide(task: Task, capability: Text, granted: bool)

  datatype Reading = Reading(peer: Fingerprint, session: Option<Live>)

  /** `asked` is every session told to end, in order; `issued` every session id handed out. */
  datatype Sessions = Sessions(
    live: map<Fingerprint, Live>,
    requested: map<Fingerprint, SessionId>,
    readings: map<Task, Reading>,
    asked: seq<SessionId>,
    issued: map<SessionId, Fingerprint>)

  const NO_SESSIONS := Sessions(map[], map[], map[], [], map[])

  function At<K, V>(m: map<K, V>, k: K): Option<V> {
    if k in m then Some(m[k]) else None
  }

  /** The decision, the record of it, and the session asked to end. */
  function Conclude(s: Sessions, p: Fingerprint, session: Option<Live>, capability: Text, granted: bool): Sessions {
    if DecideGrant(granted, capability, session, At(s.requested, p)) == Reconnect
    then s.(requested := s.requested[p := session.value.id], asked := s.asked + [session.value.id])
    else s
  }

  function Step(s: Sessions, e: Event): Sessions {
    match e
    case Register(p, live) => s.(requested := s.requested - {p}, live := s.live[p := live], issued := s.issued[live.id := p])
    case Insert(p, live) => s.(live := s.live[p := live], issued := s.issued[live.id := p])
    case Unregister(p, id) => if p in s.live && s.live[p].id == id then s.(live := s.live - {p}) else s
    case Drop(p) => s.(live := s.live - {p})
    case Forget(p) => s.(live := s.live - {p}, requested := s.requested - {p})
    case Clear(p) => s.(requested := s.requested - {p})
    case Grant(p, capability, granted) => Conclude(s, p, At(s.live, p), capability, granted)
    case Read(task, p) => s.(readings := s.readings[task := Reading(p, At(s.live, p))])
    case Decide(task, capability, granted) =>
      if task !in s.readings then s
      else
        var r := s.readings[task];
        Conclude(s, r.peer, r.session, capability, granted).(readings := s.readings - {task})
  }

  function Run(es: seq<Event>): Sessions {
    if es == [] then NO_SESSIONS else Step(Run(es[..|es| - 1]), es[|es| - 1])
  }

  // ---- the registered session is the last one -------------------------------------------------

  predicate Enters(e: Event, p: Fingerprint) {
    (e.Register? || e.Insert?) && e.peer == p
  }

  /** The event replaces, closes or drops this session. */
  predicate Leaves(e: Event, p: Fingerprint, live: Live) {
    Enters(e, p) || e == Drop(p) || e == Forget(p) || e == Unregister(p, live.id)
  }

  /** Event `i` registered `live` for the peer, and nothing since replaced, closed or dropped it. */
  ghost predicate StandsSince(es: seq<Event>, p: Fingerprint, live: Live, i: nat) {
    && i < |es| && Enters(es[i], p) && es[i].live == live
    && forall k :: i < k < |es| ==> !Leaves(es[k], p, live)
  }

  lemma StandsStep(es: seq<Event>, e: Event, p: Fingerprint, live: Live, i: nat)
    requires i < |es|
    ensures StandsSince(es + [e], p, live, i) <==> StandsSince(es, p, live, i) && !Leaves(e, p, live)
  {
    var es' := es + [e];
    assert es'[|es|] == e;
    if StandsSince(es', p, live, i) {
      forall k | i < k < |es|
        ensures !Leaves(es[k], p, live)
      {
        assert es'[k] == es[k];
      }
    }
  }

  ghost predicate Stands(es: seq<Event>, p: Fingerprint, live: Live) {
    exists i: nat :: StandsSince(es, p, live, i)
  }

  lemma StandsAfter(es: seq<Event>, e: Event, p: Fingerprint, live: Live)
    ensures Stands(es + [e], p, live) <==> (Enters(e, p) && e.live == live) || (Stands(es, p, live) && !Leaves(e, p, live))
  {
    var es' := es + [e];
    if Enters(e, p) && e.live == live {
      assert StandsSince(es', p, live, |es|);
    }
    if i: nat :| StandsSince(es', p, live, i) {
      if i < |es| {
        StandsStep(es, e, p, live, i);
      }
    }
    if i: nat :| StandsSince(es, p, live, i) {
      StandsStep(es, e, p, live, i);
    }
  }

  lemma LiveStep(s: Sessions, e: Event, p: Fingerprint, live: Live)
    ensures At(Step(s, e).live, p) == Some(live)
            <==> (Enters(e, p) && e.live == live) || (At(s.live, p) == Some(live) && !Leaves(e, p, live))
  {
  }

  /**
   Over any interleaving, the session registered for a peer is exactly the last one registered for it,
   unless that same session closed or the peer was dropped since. A superseded session closing late
   takes nothing away from its replacement.
   */
  lemma {:induction false} RegisteredIsLast(es: seq<Event>, p: Fingerprint, live: Live)
    ensures At(Run(es).live, p) == Some(live) <==> exists i: nat :: StandsSince(es, p, live, i)
  {
    if es != [] {
      var front, e := es[..|es| - 1], es[|es| - 1];
      assert es == front + [e];
      RegisteredIsLast(front, p, live);
      StandsAfter(front, e, p, live);
      LiveStep(Run(front), e, p, live);
    }
  }

  // ---- each session is asked to end at most once ----------------------------------------------

  /** A grant could still be decided against this session. */
  ghost predicate Askable(s: Sessions, p: Fingerprint, id: SessionId) {
    (p in s.live && s.live[p].id == id) || BeingDecided(s, p, id)
  }

  /** A handler has read it and not decided yet. */
  ghost predicate BeingDecided(s: Sessions, p: Fingerprint, id: SessionId) {
    exists task :: task in s.readings && s.readings[task].peer == p && s.readings[task].session.Some?
                   && s.readings[task].session.value.id == id
  }

  /** The event clears or replaces the record of a request to this peer. */
  predicate Rewrites(s: Sessions, e: Event, p: Fingerprint) {
    match e
    case Register(q, _) => q == p
    case Clear(q) => q == p
    case Forget(q) => q == p
    case Grant(q, capability, granted) =>
      q == p && DecideGrant(granted, capability, At(s.live, p), At(s.requested, p)) == Reconnect
    case Decide(task, capability, granted) =>
      && task in s.readings && s.readings[task].peer == p
      && DecideGrant(granted, capability, s.readings[task].session, At(s.requested, p)) == Reconnect
    case _ => false
  }

  /** No record is rewritten while its session is being decided about, or registered and not ended by the same event. */
  ghost predicate KeepsRecord(s: Sessions, e: Event) {
    forall p :: p in s.requested && Rewrites(s, e, p) ==>
      !BeingDecided(s, p, s.requested[p]) && (p in s.live && s.live[p].id == s.requested[p] ==> e.Register? || e.Forget?)
  }

  /** No request is forgotten about a session that can still be asked. */
  ghost predicate Remembers(s: Sessions, e: Event) {
    forall p :: p in s.requested && At(Step(s, e).requested, p) != At(s.requested, p) ==> !Askable(Step(s, e), p, s.requested[p])
  }

  lemma KeptIsRemembered(s: Sessions, e: Event)
    requires KeepsRecord(s, e) && FreshId(s, e) && forall p :: p in s.requested ==> s.requested[p] in s.issued
    ensures Remembers(s, e)
  {
    var s' := Step(s, e);
    forall p | p in s.requested && At(s'.requested, p) != At(s.requested, p)
      ensures !Askable(s', p, s.requested[p])
    {
      assert Rewrites(s, e, p);
      assert forall task :: task in s'.readings && !e.Read? ==> task in s.readings && s'.readings[task] == s.readings[task];
      assert !BeingDecided(s, p, s.requested[p]);
    }
  }

  ghost predicate FreshId(s: Sessions, e: Event) {
    e.Register? || e.Insert? ==> e.live.id !in s.issued
  }

  ghost predicate Inv(s: Sessions) {
    && Distinct(s.asked)
    && (forall p :: p in s.requested ==> s.requested[p] in s.issued)
    && (forall p :: p in s.live ==> s.live[p].id in s.issued && s.issued[s.live[p].id] == p)
    && (forall task :: task in s.readings && s.readings[task].session.Some? ==>
          var id := s.readings[task].session.value.id; id in s.issued && s.issued[id] == s.readings[task].peer)
    && (forall id :: id in s.asked ==>
          id in s.issued && (At(s.requested, s.issued[id]) == Some(id) || !Askable(s, s.issued[id], id)))
  }

  lemma ConcludeKeepsInv(s: Sessions, p: Fingerprint, session: Option<Live>, capability: Text, granted: bool)
    requires Inv(s)
    requires session.Some? ==> session.value.id in s.issued && s.issued[session.value.id] == p && Askable(s, p, session.value.id)
    requires p in s.requested && At(Conclude(s, p, session, capability, granted).requested, p) != At(s.requested, p)
             ==> !Askable(Conclude(s, p, session, capability, granted), p, s.requested[p])
    ensures Inv(Conclude(s, p, session, capability, granted))
  {
    var s' := Conclude(s, p, session, capability, granted);
    assert forall q, id :: Askable(s', q, id) <==> Askable(s, q, id);
    if s' != s {
      assert session.value.id !in s.asked;
    }
  }

  lemma DecideKeepsInv(s: Sessions, e: Event)
    requires Inv(s) && e.Decide? && e.task in s.readings && Remembers(s, e)
    ensures Inv(Step(s, e))
  {
    var r := s.readings[e.task];
    var mid := Conclude(s, r.peer, r.session, e.capability, e.granted);
    var s' := Step(s, e);
    forall p, id | Askable(s', p, id)
      ensures Askable(mid, p, id)
    {
    }
    forall p, id | Askable(mid, p, id)
      ensures Askable(s', p, id) || (p == r.peer && r.session.Some? && r.session.value.id == id)
    {
      if !(p in mid.live && mid.live[p].id == id) {
        var task :| task in mid.readings && mid.readings[task].peer == p && mid.readings[task].session.Some?
                    && mid.readings[task].session.value.id == id;
        assert task != e.task ==> task in s'.readings && s'.readings[task] == mid.readings[task];
      }
    }
    ConcludeKeepsInv(s, r.peer, r.session, e.capability, e.granted);
  }

  lemma RegisterKeepsInv(s: Sessions, e: Event)
    requires Inv(s) && FreshId(s, e) && Remembers(s, e) && (e.Register? || e.Insert?)
    ensures Inv(Step(s, e))
  {
    assert forall q, id :: Askable(Step(s, e), q, id) ==> Askable(s, q, id) || id == e.live.id;
  }

  lemma LeaveKeepsInv(s: Sessions, e: Event)
    requires Inv(s) && Remembers(s, e) && (e.Unregister? || e.Drop? || e.Forget? || e.Clear? || e.Read?)
    ensures Inv(Step(s, e))
  {
    assert forall q, id :: Askable(Step(s, e), q, id) ==> Askable(s, q, id);
  }

  lemma StepKeepsInv(s: Sessions, e: Event)
    requires Inv(s) && FreshId(s, e) && KeepsRecord(s, e)
    ensures Inv(Step(s, e))
  {
    KeptIsRemembered(s, e);
    match e
    case Grant(p, capability, granted) => ConcludeKeepsInv(s, p, At(s.live, p), capability, granted);
    case Decide(task, _, _) => if task in s.readings { DecideKeepsInv(s, e); }
    case Register(_, _) => RegisterKeepsInv(s, e);
    case Insert(_, _) => RegisterKeepsInv(s, e);
    case _ => LeaveKeepsInv(s, e);
  }

  /** Every id is handed out once, and no step forgets a request it must not forget. */
  ghost predicate Careful(es: seq<Event>) {
    forall i :: 0 <= i < |es| ==> FreshId(Run(es[..i]), es[i]) && KeepsRecord(Run(es[..i]), es[i])
  }

  lemma {:induction false} RunKeepsInv(es: seq<Event>)
    requires Careful(es)
    ensures Inv(Run(es))
  {
    if es != [] {
      var front := es[..|es| - 1];
      assert forall i :: 0 <= i < |front| ==> front[..i] == es[..i];
      RunKeepsInv(front);
      StepKeepsInv(Run(front), es[|es| - 1]);
    }
  }

  /** In a careful run no session is ever asked to end twice. */
  lemma AskedAtMostOnce(es: seq<Event>)
    requires Careful(es)
    ensures Distinct(Run(es).asked)
  {
    RunKeepsInv(es);
  }

  // ---- exactly when one is asked again --------------------------------------------------------

  /** Event `e` would decide a grant against this session. */
  ghost predicate Targets(s: Sessions, e: Event, p: Fingerprint, live: Live) {
    || (e.Grant? && e.peer == p && At(s.live, p) == Some(live))
    || (e.Decide? && At(s.readings, e.task) == Some(Reading(p, Some(live))))
  }

  /** It was asked to end, the record of that is gone, and it lacks the capability. */
  ghost predicate Exposed(s: Sessions, p: Fingerprint, live: Live, capability: Text) {
    live.id in s.asked && At(s.requested, p) != Some(live.id) && capability !in live.negotiated
  }

  /** A session asked before is asked once more. */
  ghost predicate AsksAgain(s: Sessions, e: Event) {
    exists id :: id in s.asked && Step(s, e).asked == s.asked + [id]
  }

  ghost predicate HitsExposed(s: Sessions, e: Event) {
    (e.Grant? || e.Decide?) && e.granted && exists p, live :: Targets(s, e, p, live) && Exposed(s, p, live, e.capability)
  }

  lemma AsksAgainExactly(s: Sessions, e: Event)
    ensures AsksAgain(s, e) <==> HitsExposed(s, e)
  {
    if AsksAgain(s, e) {
      var p := if e.Grant? then e.peer else s.readings[e.task].peer;
      var live := if e.Grant? then s.live[p] else s.readings[e.task].session.value;
      assert Step(s, e).asked[|s.asked|] == live.id;
      assert Targets(s, e, p, live) && Exposed(s, p, live, e.capability);
    }
    if HitsExposed(s, e) {
      var p, live :| Targets(s, e, p, live) && Exposed(s, p, live, e.capability);
      assert Step(s, e).asked == s.asked + [live.id];
    }
  }

  lemma AskedGrows(s: Sessions, e: Event)
    ensures Step(s, e).asked == s.asked || exists id :: Step(s, e).asked == s.asked + [id]
  {
    var session := if e.Grant? then At(s.live, e.peer)
                   else if e.Decide? && e.task in s.readings then s.readings[e.task].session else None;
    if Step(s, e).asked != s.asked {
      assert Step(s, e).asked == s.asked + [session.value.id];
    }
  }

  /** What one event does to the bound. */
  lemma OnceStep(s: Sessions, e: Event)
    ensures Distinct(Step(s, e).asked) <==> Distinct(s.asked) && !HitsExposed(s, e)
  {
    AskedGrows(s, e);
    AsksAgainExactly(s, e);
    var asked' := Step(s, e).asked;
    if asked' != s.asked {
      var id :| asked' == s.asked + [id];
      OneMoreDistinct(s.asked, id);
      assert asked'[|s.asked|] == id;
    }
  }

  lemma OneMoreDistinct(s: seq<SessionId>, id: SessionId)
    ensures Distinct(s + [id]) <==> Distinct(s) && id !in s
  {
    var t := s + [id];
    if Distinct(t) {
      assert forall i :: 0 <= i < |s| ==> t[i] == s[i];
      assert t[|s|] == id;
      forall i | 0 <= i < |s|
        ensures s[i] != id
      {
        assert t[i] != t[|s|];
      }
    }
  }

  /** No event of the run hits an exposed session. */
  ghost predicate NeverHits(es: seq<Event>) {
    es == [] || (NeverHits(es[..|es| - 1]) && !HitsExposed(Run(es[..|es| - 1]), es[|es| - 1]))
  }

  /**
   The exact condition, for every run at all: every session is asked at most once if and only if no
   grant ever comes to be decided against a session that was asked, whose record is gone, and that
   lacks what is granted. Each step can be checked before it is taken.
   */
  lemma {:induction false} OnceExactly(es: seq<Event>)
    ensures Distinct(Run(es).asked) <==> NeverHits(es)
  {
    if es != [] {
      OnceExactly(es[..|es| - 1]);
      OnceStep(Run(es[..|es| - 1]), es[|es| - 1]);
    }
  }

  lemma ExposedIsAsked(s: Sessions, p: Fingerprint, live: Live, capability: Text) returns (e: Event)
    requires Candidate(s, p, live) && Exposed(s, p, live, capability)
    ensures AsksAgain(s, e)
  {
    if At(s.live, p) == Some(live) {
      e := Grant(p, capability, true);
    } else {
      var task :| At(s.readings, task) == Some(Reading(p, Some(live)));
      e := Decide(task, capability, true);
    }
    assert Step(s, e).asked == s.asked + [live.id];
  }

  lemma AskedWasExposed(s: Sessions, e: Event) returns (p: Fingerprint, live: Live)
    requires AsksAgain(s, e)
    ensures (e.Grant? || e.Decide?) && Candidate(s, p, live) && Exposed(s, p, live, e.capability)
  {
    AsksAgainExactly(s, e);
    p, live :| Targets(s, e, p, live) && Exposed(s, p, live, e.capability);
  }

  ghost predicate SomeExposed(s: Sessions) {
    exists p, live, capability :: Candidate(s, p, live) && Exposed(s, p, live, capability)
  }

  /** After any run, some next event would ask a session again exactly when one that can be asked is exposed. */
  lemma ForgettingAsksAgain(es: seq<Event>)
    ensures (exists e :: AsksAgain(Run(es), e)) <==> SomeExposed(Run(es))
  {
    var s := Run(es);
    if SomeExposed(s) {
      var p, live, capability :| Candidate(s, p, live) && Exposed(s, p, live, capability);
      var e := ExposedIsAsked(s, p, live, capability);
    }
    if e :| AsksAgain(s, e) {
      var p, live := AskedWasExposed(s, e);
    }
  }

  /** Registered, or read by a handler that has not decided yet. */
  ghost predicate Candidate(s: Sessions, p: Fingerprint, live: Live) {
    At(s.live, p) == Some(live) || exists task :: At(s.readings, task) == Some(Reading(p, Some(live)))
  }

  lemma RunStep(es: seq<Event>, e: Event)
    ensures Run(es + [e]) == Step(Run(es), e)
  {
    assert (es + [e])[..|es|] == es;
  }

  /** A grant that reads the session before a newer one registers, and decides after. */
  lemma LateDecisionAsksTwice(p: Fingerprint, c: Text)
    ensures var one, two := Live(1, []), Live(2, []);
            Run([Register(p, one)] + [Read(7, p)] + [Grant(p, c, true)] + [Register(p, two)] + [Decide(7, c, true)]).asked == [1, 1]
  {
    var one, two := Live(1, []), Live(2, []);
    var a := [Register(p, one)];
    var b := a + [Read(7, p)];
    var d := b + [Grant(p, c, true)];
    var f := d + [Register(p, two)];
    assert a[..0] == [];
    RunStep(a, Read(7, p));
    RunStep(b, Grant(p, c, true));
    RunStep(d, Register(p, two));
    RunStep(f, Decide(7, c, true));
  }

  /** A grant between the two halves of a registration, which clears the record before it inserts the session. */
  lemma EarlyClearAsksTwice(p: Fingerprint, c: Text)
    ensures var one, two := Live(1, []), Live(2, []);
            Run([Register(p, one)] + [Grant(p, c, true)] + [Clear(p)] + [Grant(p, c, true)] + [Insert(p, two)]).asked == [1, 1]
  {
    var one, two := Live(1, []), Live(2, []);
    var a := [Register(p, one)];
    var b := a + [Grant(p, c, true)];
    var d := b + [Clear(p)];
    var f := d + [Grant(p, c, true)];
    assert a[..0] == [];
    RunStep(a, Grant(p, c, true));
    RunStep(b, Clear(p));
    RunStep(d, Grant(p, c, true));
    RunStep(f, Insert(p, two));
  }

  /** A peer paired anew whose session registers between the two halves of the end of its revocation. */
  lemma LateClearAsksTwice(p: Fingerprint, c: Text)
    ensures Run([Drop(p)] + [Register(p, Live(1, []))] + [Grant(p, c, true)] + [Clear(p)] + [Grant(p, c, true)]).asked == [1, 1]
  {
    var one := Live(1, []);
    var a := [Drop(p)];
    var b := a + [Register(p, one)];
    var d := b + [Grant(p, c, true)];
    var f := d + [Clear(p)];
    assert a[..0] == [];
    RunStep(a, Register(p, one));
    RunStep(b, Grant(p, c, true));
    RunStep(d, Clear(p));
    RunStep(f, Grant(p, c, true));
  }

  /** Registration, grant change and the end of a revocation each as one step: no half of any of them. */
  ghost predicate Coarse(es: seq<Event>) {
    forall i :: 0 <= i < |es| ==>
      FreshId(Run(es[..i]), es[i]) && !es[i].Insert? && !es[i].Clear? && !es[i].Read? && !es[i].Decide?
  }

  lemma {:induction false} CoarseRunsHoldNoReadings(es: seq<Event>)
    requires forall i :: 0 <= i < |es| ==> !es[i].Read?
    ensures Run(es).readings == map[]
  {
    if es != [] {
      CoarseRunsHoldNoReadings(es[..|es| - 1]);
    }
  }

  /** Every session on record was handed out. */
  ghost predicate Issued(s: Sessions) {
    && (forall p :: p in s.requested ==> s.requested[p] in s.issued)
    && (forall p :: p in s.live ==> s.live[p].id in s.issued)
  }

  lemma IssuedStep(s: Sessions, e: Event)
    requires Issued(s) && s.readings == map[]
    ensures Issued(Step(s, e))
  {
  }

  lemma CoarseStepKeepsRecord(s: Sessions, e: Event)
    requires Issued(s) && s.readings == map[]
    requires FreshId(s, e) && !e.Insert? && !e.Clear? && !e.Read? && !e.Decide?
    ensures KeepsRecord(s, e)
  {
  }

  lemma {:induction false} CoarseRunsAreIssued(es: seq<Event>)
    requires forall i :: 0 <= i < |es| ==> !es[i].Read?
    ensures Issued(Run(es))
  {
    if es != [] {
      CoarseRunsAreIssued(es[..|es| - 1]);
      CoarseRunsHoldNoReadings(es[..|es| - 1]);
      IssuedStep(Run(es[..|es| - 1]), es[|es| - 1]);
    }
  }

  lemma CoarseIsCareful(es: seq<Event>)
    requires Coarse(es)
    ensures Careful(es)
  {
    forall i | 0 <= i < |es|
      ensures FreshId(Run(es[..i]), es[i]) && KeepsRecord(Run(es[..i]), es[i])
    {
      CoarseRunsAreIssued(es[..i]);
      CoarseRunsHoldNoReadings(es[..i]);
      CoarseStepKeepsRecord(Run(es[..i]), es[i]);
    }
  }

  /** The bound the code promises, for handlers that run as single steps. */
  lemma OneRequestPerSession(es: seq<Event>)
    requires Coarse(es)
    ensures Distinct(Run(es).asked)
  {
    CoarseIsCareful(es);
    AskedAtMostOnce(es);
  }

  /** One event asks a session to end only as a grant, given, of something it did not negotiate. */
  lemma AskedByGrant(s: Sessions, e: Event)
    requires Step(s, e).asked != s.asked
    ensures (e.Grant? || e.Decide?) && e.granted
    ensures exists p, live: Live :: Targets(s, e, p, live) && Step(s, e).asked == s.asked + [live.id] && e.capability !in live.negotiated
  {
    var p := if e.Grant? then e.peer else s.readings[e.task].peer;
    var live := if e.Grant? then s.live[p] else s.readings[e.task].session.value;
    assert Targets(s, e, p, live) && Step(s, e).asked == s.asked + [live.id];
  }

  /** Event `i` of a run is a grant, given, of what a session lacks, and asks that session to end. */
  ghost predicate Widens(es: seq<Event>, i: nat, id: SessionId) {
    && i < |es| && (es[i].Grant? || es[i].Decide?) && es[i].granted
    && var s := Run(es[..i]);
       exists p, live :: Targets(s, es[i], p, live) && live.id == id && es[i].capability !in live.negotiated
  }

  /** Over every run: whichever session was asked to end, a grant widened past it; no withdrawal ever asks one. */
  lemma {:induction false} NeverOnWithdrawal(es: seq<Event>, id: SessionId) returns (i: nat)
    requires id in Run(es).asked
    ensures Widens(es, i, id)
  {
    var front, e := es[..|es| - 1], es[|es| - 1];
    var s := Run(front);
    if id in s.asked {
      i := NeverOnWithdrawal(front, id);
      assert front[..i] == es[..i] && front[i] == es[i];
    } else {
      AskedByGrant(s, e);
      i := |es| - 1;
    }
  }

  // ---- exactly when a session is asked --------------------------------------------------------

  /** Event `e` is a grant, given, that comes to be decided against this session of the peer, lacks it, and finds no request to it on record. */
  ghost predicate Asks(s: Sessions, e: Event, p: Fingerprint, id: SessionId) {
    && (e.Grant? || e.Decide?) && e.granted && At(s.requested, p) != Some(id)
    && exists live: Live :: Targets(s, e, p, live) && live.id == id && e.capability !in live.negotiated
  }

  /** The event asks a session to end exactly then, and no other session. */
  lemma AskedStep(s: Sessions, e: Event)
    ensures forall p, id :: Asks(s, e, p, id) ==> Step(s, e).asked == s.asked + [id]
    ensures (forall p, id :: !Asks(s, e, p, id)) ==> Step(s, e).asked == s.asked
  {
    if Step(s, e).asked != s.asked {
      var p := if e.Grant? then e.peer else s.readings[e.task].peer;
      var live := if e.Grant? then s.live[p] else s.readings[e.task].session.value;
      assert Targets(s, e, p, live);
      assert Asks(s, e, p, live.id);
    }
  }

  /** The state before event `i`. */
  ghost function Before(es: seq<Event>, i: nat): Sessions
    requires i <= |es|
  {
    Run(es[..i])
  }

  /** The event wipes or replaces what is on record for the peer. */
  ghost predicate Wipes(s: Sessions, e: Event, p: Fingerprint) {
    || ((e.Register? || e.Clear? || e.Forget?) && e.peer == p)
    || exists id :: Asks(s, e, p, id)
  }

  lemma RecordStep(s: Sessions, e: Event, p: Fingerprint, id: SessionId)
    ensures At(Step(s, e).requested, p) == Some(id)
            <==> Asks(s, e, p, id) || (At(s.requested, p) == Some(id) && !Wipes(s, e, p))
  {
    if e.Grant? && e.peer == p && p in s.live {
      assert Targets(s, e, p, s.live[p]);
      assert Step(s, e) != s ==> Asks(s, e, p, s.live[p].id);
    } else if e.Decide? && e.task in s.readings && s.readings[e.task].peer == p && s.readings[e.task].session.Some? {
      var live := s.readings[e.task].session.value;
      assert Targets(s, e, p, live);
      assert Step(s, e).requested != s.requested ==> Asks(s, e, p, live.id);
    }
  }

  ghost predicate OnRecordSince(es: seq<Event>, p: Fingerprint, i: nat, n: nat)
    requires i < n <= |es|
  {
    n == i + 1 || (OnRecordSince(es, p, i, n - 1) && !Wipes(Before(es, n - 1), es[n - 1], p))
  }

  /** Event `i` asked this session of the peer, and nothing before event `n` wiped that off the record. */
  ghost predicate IsOnRecord(es: seq<Event>, p: Fingerprint, id: SessionId, i: nat, n: nat) {
    i < n <= |es| && Asks(Before(es, i), es[i], p, id) && OnRecordSince(es, p, i, n)
  }

  lemma RecordAt(es: seq<Event>, p: Fingerprint, id: SessionId, m: nat, n: nat)
    requires m < n == m + 1 <= |es|
    ensures var s := Before(es, m);
            At(Before(es, n).requested, p) == Some(id)
            <==> Asks(s, es[m], p, id) || (At(s.requested, p) == Some(id) && !Wipes(s, es[m], p))
  {
    assert es[..n][..m] == es[..m];
    RecordStep(Before(es, m), es[m], p, id);
  }

  lemma OnRecordStep(es: seq<Event>, p: Fingerprint, id: SessionId, i: nat, m: nat, n: nat)
    requires i < m < n == m + 1 <= |es|
    ensures IsOnRecord(es, p, id, i, n) <==> IsOnRecord(es, p, id, i, m) && !Wipes(Before(es, m), es[m], p)
  {
  }

  lemma OnRecordAtOnce(es: seq<Event>, p: Fingerprint, id: SessionId, m: nat, n: nat)
    requires m < n == m + 1 <= |es|
    ensures IsOnRecord(es, p, id, m, n) <==> Asks(Before(es, m), es[m], p, id)
  {
  }

  lemma {:induction false} AskedIsOnRecord(es: seq<Event>, p: Fingerprint, id: SessionId, i: nat, n: nat)
    requires IsOnRecord(es, p, id, i, n)
    ensures At(Before(es, n).requested, p) == Some(id)
  {
    var m := n - 1;
    RecordAt(es, p, id, m, n);
    if m > i {
      OnRecordStep(es, p, id, i, m, n);
      AskedIsOnRecord(es, p, id, i, m);
    }
  }

  lemma {:induction false} OnRecordWasAsked(es: seq<Event>, p: Fingerprint, id: SessionId, n: nat) returns (i: nat)
    requires n <= |es| && At(Before(es, n).requested, p) == Some(id)
    ensures IsOnRecord(es, p, id, i, n)
  {
    var m := n - 1;
    RecordAt(es, p, id, m, n);
    if Asks(Before(es, m), es[m], p, id) {
      i := m;
      OnRecordAtOnce(es, p, id, m, n);
    } else {
      i := OnRecordWasAsked(es, p, id, m);
      OnRecordStep(es, p, id, i, m, n);
    }
  }

  /**
   Over every run: a session of a peer is on record as asked exactly from the grant that asked it until a
   registration, a clearing, the end of a revocation or another request wipes that.
   */
  lemma OnRecordExactly(es: seq<Event>, p: Fingerprint, id: SessionId)
    ensures At(Run(es).requested, p) == Some(id) <==> exists i: nat :: IsOnRecord(es, p, id, i, |es|)
  {
    var n := |es|;
    assert es[..n] == es;
    if At(Before(es, n).requested, p) == Some(id) {
      var i := OnRecordWasAsked(es, p, id, n);
    }
    forall i: nat | IsOnRecord(es, p, id, i, n)
      ensures At(Before(es, n).requested, p) == Some(id)
    {
      AskedIsOnRecord(es, p, id, i, n);
    }
  }

  ghost predicate AsksAt(es: seq<Event>, i: nat, p: Fingerprint, id: SessionId) {
    i < |es| && Asks(Before(es, i), es[i], p, id)
  }

  lemma AskedAt(es: seq<Event>, m: nat, n: nat, id: SessionId)
    requires m < n == m + 1 <= |es|
    ensures id in Before(es, n).asked <==> id in Before(es, m).asked || exists p :: AsksAt(es, m, p, id)
  {
    assert es[..n][..m] == es[..m];
    var s, e := Before(es, m), es[m];
    AskedStep(s, e);
    if p :| AsksAt(es, m, p, id) {
      assert (s.asked + [id])[|s.asked|] == id;
    } else if id in Step(s, e).asked && id !in s.asked {
      var p, x :| Asks(s, e, p, x);
      assert AsksAt(es, m, p, x);
    }
  }

  lemma {:induction false} AskedBefore(es: seq<Event>, n: nat, id: SessionId)
    requires n <= |es|
    ensures id in Before(es, n).asked <==> exists i: nat, p :: i < n && AsksAt(es, i, p, id)
  {
    if n > 0 {
      AskedBefore(es, n - 1, id);
      AskedAt(es, n - 1, n, id);
    }
  }

  /**
   Over every run: a session was asked to end exactly if some grant, given, came to be decided against it,
   that it lacked, while no request to it was on record.
   */
  lemma AskedExactly(es: seq<Event>, id: SessionId)
    ensures id in Run(es).asked <==> exists i: nat, p :: AsksAt(es, i, p, id)
  {
    AskedBefore(es, |es|, id);
    assert es[..|es|] == es;
  }

  /** A handler still has what it read: the session registered when it did. */
  ghost predicate ReadBy(es: seq<Event>, task: Task, i: nat, n: nat) {
    && i < n <= |es| && es[i].Read? && es[i].task == task
    && forall k :: i < k < n ==> !((es[k].Read? || es[k].Decide?) && es[k].task == task)
  }

  /** Over every run: a grant that is decided later is decided against what its handler read, once. */
  lemma {:induction false} ReadingExactly(es: seq<Event>, n: nat, task: Task)
    requires n <= |es|
    ensures task in Before(es, n).readings <==> exists i: nat :: ReadBy(es, task, i, n)
    ensures forall i: nat :: ReadBy(es, task, i, n)
                             ==> At(Before(es, n).readings, task) == Some(Reading(es[i].peer, At(Before(es, i).live, es[i].peer)))
  {
    if n > 0 {
      var m := n - 1;
      ReadingExactly(es, m, task);
      assert es[..n][..m] == es[..m];
      var again, done := es[m].Read? && es[m].task == task, es[m].Decide? && es[m].task == task;
      forall i: nat
        ensures ReadBy(es, task, i, n) <==> (i == m && again) || (ReadBy(es, task, i, m) && !again && !done)
      {
      }
    }
  }
}
