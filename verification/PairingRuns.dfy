/** Every run of pairing windows, proofs, answers and stored peers. */
module PairingRuns {
  import opened Prelude
  import opened Pairing

  /** A connection proves itself at most once, is confirmed by a human, and is then stored. */
  datatype Event =
    | Begin(token: Bytes, now: nat, ttl: nat)
    | EndWindow
    | Present(connection: nat, now: nat, later: nat, attempt: Attempt)
    | Decline(connection: nat)
    | StorePeer(connection: nat)

  /** What happened to windows, numbered in the order they were opened. */
  datatype Entry = Compared(window: nat, success: bool) | Stored(window: nat) | Refused(error: PairingError)

  datatype Held = Held(number: nat, window: Window)

  datatype Desk = Desk(
    held: Option<Held>,
    windows: nat,
    presented: set<nat>,
    proven: map<nat, nat>,
    log: seq<Entry>)

  const CLOSED_DESK := Desk(None, 0, {}, map[], [])

  function Step(hmac: Hmac, s: Desk, e: Event): Desk {
    match e
    case Begin(token, now, ttl) =>
      s.(held := Some(Held(s.windows, Window(token, now, ttl, 0, false))), windows := s.windows + 1)
    case EndWindow => s.(held := None)
    case Present(c, now, later, a) =>
      if c in s.presented then s
      else if s.held.None? then s.(presented := s.presented + {c}, log := s.log + [Refused(NotInPairingMode)])
      else
        var number := s.held.value.number;
        var (r, window) := VerifyHeld(hmac, Some(s.held.value.window), now, later, a);
        var held := if window.None? then None else Some(Held(number, window.value));
        var entry := match r
          case Ok(_) => Compared(number, true)
          case Err(BadProof) => Compared(number, false)
          case Err(error) => Refused(error);
        s.(held := held,
           presented := s.presented + {c},
           proven := if r.Ok? then s.proven[c := number] else s.proven,
           log := s.log + [entry])
    case Decline(c) => s.(proven := s.proven - {c})
    case StorePeer(c) =>
      if c in s.proven then s.(proven := s.proven - {c}, log := s.log + [Stored(s.proven[c])]) else s
  }

  function Run(hmac: Hmac, es: seq<Event>): Desk {
    if es == [] then CLOSED_DESK else Step(hmac, Run(hmac, es[..|es| - 1]), es[|es| - 1])
  }

  function Count(log: seq<Entry>, e: Entry): nat {
    if log == [] then 0 else Count(log[..|log| - 1], e) + (if log[|log| - 1] == e then 1 else 0)
  }

  /** Over every run: each count is the whole truth about its window. */
  ghost predicate Inv(s: Desk) {
    // The window held is fresh enough to use, and its record is its history.
    && (s.held.Some? ==>
          && s.held.value.number < s.windows
          && !s.held.value.window.consumed && s.held.value.window.failedAttempts < MAX_FAILED_ATTEMPTS
          && Count(s.log, Compared(s.held.value.number, true)) == 0
          && Count(s.log, Compared(s.held.value.number, false)) == s.held.value.window.failedAttempts)
    && (forall w: nat :: Count(s.log, Compared(w, false)) + Count(s.log, Compared(w, true)) <= MAX_FAILED_ATTEMPTS)
    && (forall w: nat :: Count(s.log, Compared(w, true)) <= 1)
    && (forall w: nat :: Count(s.log, Stored(w)) <= Count(s.log, Compared(w, true)))
    && (forall w: nat :: w >= s.windows ==> Count(s.log, Compared(w, true)) == Count(s.log, Compared(w, false)) == 0)
    // A connection that has proven itself is the one success of its window, and not stored yet.
    && (forall c :: c in s.proven ==> Count(s.log, Compared(s.proven[c], true)) == 1 && Count(s.log, Stored(s.proven[c])) == 0)
    && s.proven.Keys <= s.presented
    && (forall c, c' :: c in s.proven && c' in s.proven && s.proven[c] == s.proven[c'] ==> c == c')
    && (forall i :: 0 <= i < |s.log| && s.log[i].Refused? ==> s.log[i].error in {NotInPairingMode, Expired})
  }

  lemma CountAppend(log: seq<Entry>, e: Entry)
    ensures forall x :: Count(log + [e], x) == Count(log, x) + (if x == e then 1 else 0)
  {
    assert (log + [e])[..|log|] == log;
  }

  lemma SuccessKeepsInv(s: Desk, c: nat)
    requires Inv(s) && s.held.Some? && c !in s.proven
    ensures var number := s.held.value.number;
            Inv(s.(held := None, presented := s.presented + {c}, proven := s.proven[c := number],
                   log := s.log + [Compared(number, true)]))
  {
    CountAppend(s.log, Compared(s.held.value.number, true));
  }

  lemma FailureKeepsInv(s: Desk, c: nat, held: Option<Held>)
    requires Inv(s) && s.held.Some?
    requires var h, n := s.held.value, s.held.value.window.failedAttempts + 1;
             held == None || (n < MAX_FAILED_ATTEMPTS && held == Some(Held(h.number, h.window.(failedAttempts := n))))
    ensures Inv(s.(held := held, presented := s.presented + {c}, log := s.log + [Compared(s.held.value.number, false)]))
  {
    CountAppend(s.log, Compared(s.held.value.number, false));
  }

  lemma RefusalKeepsInv(s: Desk, c: nat, held: Option<Held>, error: PairingError)
    requires Inv(s) && (held == None || held == s.held) && error in {NotInPairingMode, Expired}
    ensures Inv(s.(held := held, presented := s.presented + {c}, log := s.log + [Refused(error)]))
  {
    CountAppend(s.log, Refused(error));
  }

  lemma PresentKeepsInv(hmac: Hmac, s: Desk, e: Event)
    requires Inv(s) && e.Present?
    ensures Inv(Step(hmac, s, e))
  {
    if e.connection !in s.presented {
      if s.held.None? {
        RefusalKeepsInv(s, e.connection, None, NotInPairingMode);
      } else {
        var (r, window) := VerifyHeld(hmac, Some(s.held.value.window), e.now, e.later, e.attempt);
        var held := if window.None? then None else Some(Held(s.held.value.number, window.value));
        if r.Ok? {
          SuccessKeepsInv(s, e.connection);
        } else if r.error == BadProof {
          FailureKeepsInv(s, e.connection, held);
        } else {
          RefusalKeepsInv(s, e.connection, held, r.error);
        }
      }
    }
  }

  lemma OthersAreUnstored(s: Desk, c: nat, d: nat)
    requires Inv(s) && c in s.proven && d in s.proven && d != c
    ensures s.proven[d] != s.proven[c]
    ensures Count(s.log + [Stored(s.proven[c])], Compared(s.proven[d], true)) == 1
    ensures Count(s.log + [Stored(s.proven[c])], Stored(s.proven[d])) == 0
  {
    CountAppend(s.log, Stored(s.proven[c]));
  }

  lemma StoredKeepsInv(s: Desk, c: nat)
    requires Inv(s) && c in s.proven
    ensures Inv(s.(proven := s.proven - {c}, log := s.log + [Stored(s.proven[c])]))
  {
    CountAppend(s.log, Stored(s.proven[c]));
    var proven := s.proven - {c};
    forall d | d in proven
      ensures Count(s.log + [Stored(s.proven[c])], Compared(proven[d], true)) == 1
      ensures Count(s.log + [Stored(s.proven[c])], Stored(proven[d])) == 0
    {
      OthersAreUnstored(s, c, d);
    }
  }

  lemma StoreKeepsInv(hmac: Hmac, s: Desk, e: Event)
    requires Inv(s) && e.StorePeer?
    ensures Inv(Step(hmac, s, e))
  {
    if e.connection in s.proven {
      StoredKeepsInv(s, e.connection);
    }
  }

  lemma StepKeepsInv(hmac: Hmac, s: Desk, e: Event)
    requires Inv(s)
    ensures Inv(Step(hmac, s, e))
  {
    match e
    case Present(_, _, _, _) => PresentKeepsInv(hmac, s, e);
    case StorePeer(_) => StoreKeepsInv(hmac, s, e);
    case Begin(_, _, _) =>
    case EndWindow =>
    case Decline(_) =>
  }

  lemma {:induction false} RunKeepsInv(hmac: Hmac, es: seq<Event>)
    ensures Inv(Run(hmac, es))
  {
    if es != [] {
      RunKeepsInv(hmac, es[..|es| - 1]);
      StepKeepsInv(hmac, Run(hmac, es[..|es| - 1]), es[|es| - 1]);
    }
  }

  /** However windows, proofs, answers and stores interleave: one peer and three comparisons a window. */
  lemma WindowIsSingleUse(hmac: Hmac, es: seq<Event>, w: nat)
    ensures Count(Run(hmac, es).log, Stored(w)) <= 1
    ensures Count(Run(hmac, es).log, Compared(w, true)) + Count(Run(hmac, es).log, Compared(w, false)) <= 3
  {
    RunKeepsInv(hmac, es);
  }

  /** The daemon drops a window before it could ever answer that it is used up or locked. */
  lemma HeldWindowIsUsable(hmac: Hmac, es: seq<Event>, now: nat, a: Attempt)
    ensures var held := Run(hmac, es).held;
            held.Some? ==> Verify(hmac, held.value.window, now, a).0 !in {Err(AlreadyUsed), Err(RateLimited)}
  {
    RunKeepsInv(hmac, es);
  }

  // ---- against the clock and the history ------------------------------------------------------

  /** The verdict in terms of the clock, the failures counted and the proof itself. */
  lemma VerdictByTheClock(hmac: Hmac, w: Window, now: nat, a: Attempt)
    requires !w.consumed && w.failedAttempts < 3
    ensures var right := a.proof == ComputeProof(hmac, a.profile, w.token, a.responder, a.initiator, a.nonce);
            var (r, w') := Verify(hmac, w, now, a);
            if now >= w.openedAt + w.ttl then r == Err(Expired) && w' == w
            else if right then r.Ok? && w'.consumed
            else r == Err(BadProof) && w' == w.(failedAttempts := w.failedAttempts + 1)
  {
  }

  /** How many windows were opened before event `i`: the number of one opened there. */
  function Number(es: seq<Event>, i: nat): nat
    requires i <= |es|
  {
    if i == 0 then 0 else Number(es, i - 1) + if es[i - 1].Begin? then 1 else 0
  }

  /** A connection presents a proof for the first time. */
  predicate Presents(es: seq<Event>, i: nat) {
    && i < |es| && es[i].Present?
    && forall j :: 0 <= j < i ==> !(es[j].Present? && es[j].connection == es[i].connection)
  }

  /** Event `b` opened a window, which was not closed or replaced up to event `i`. */
  predicate OpenFrom(es: seq<Event>, b: nat, i: nat) {
    && b < i <= |es| && es[b].Begin?
    && forall j :: b < j < i ==> !es[j].Begin? && !es[j].EndWindow?
  }

  predicate InTime(es: seq<Event>, b: nat, t: nat)
    requires b < |es| && es[b].Begin?
  {
    t < es[b].now + es[b].ttl
  }

  /** No look at the clock after a proof found the window's time over. */
  predicate NeverLate(es: seq<Event>, b: nat, i: nat)
    requires b < i <= |es| && es[b].Begin?
  {
    forall j :: b < j < i && Presents(es, j) ==> InTime(es, b, es[j].later)
  }

  predicate RightFor(hmac: Hmac, es: seq<Event>, b: nat, i: nat)
    requires b < |es| && es[b].Begin? && i < |es| && es[i].Present?
  {
    var a := es[i].attempt;
    a.proof == ComputeProof(hmac, a.profile, es[b].token, a.responder, a.initiator, a.nonce)
  }

  /** Event `i` presents a proof while the time of the window of `b` is not over. */
  predicate Tries(es: seq<Event>, b: nat, i: nat)
    requires b < |es| && es[b].Begin?
  {
    Presents(es, i) && InTime(es, b, es[i].now)
  }

  function Failures(hmac: Hmac, es: seq<Event>, b: nat, i: nat): nat
    requires b < i <= |es| && es[b].Begin?
  {
    if i == b + 1 then 0
    else Failures(hmac, es, b, i - 1) + if Tries(es, b, i - 1) && !RightFor(hmac, es, b, i - 1) then 1 else 0
  }

  /**
   Before event `i` the window of `b` can still be used: open, never found late, no right proof yet, and
   fewer than three wrong ones.
   */
  predicate UsableFrom(hmac: Hmac, es: seq<Event>, b: nat, i: nat) {
    && OpenFrom(es, b, i) && NeverLate(es, b, i)
    && (forall j :: b < j < i && Tries(es, b, j) ==> !RightFor(hmac, es, b, j))
    && Failures(hmac, es, b, i) < 3
  }

  function WindowOf(hmac: Hmac, es: seq<Event>, b: nat, i: nat): Held
    requires b < i <= |es| && es[b].Begin?
  {
    Held(Number(es, b), Window(es[b].token, es[b].now, es[b].ttl, Failures(hmac, es, b, i), false))
  }

  lemma RunAt(hmac: Hmac, es: seq<Event>, i: nat)
    requires i < |es|
    ensures Run(hmac, es[..i + 1]) == Step(hmac, Run(hmac, es[..i]), es[i])
  {
    assert es[..i + 1][..i] == es[..i];
  }

  lemma {:induction false} PresentedAt(hmac: Hmac, es: seq<Event>, i: nat)
    requires i <= |es|
    ensures Run(hmac, es[..i]).windows == Number(es, i)
    ensures forall c :: c in Run(hmac, es[..i]).presented <==> exists j :: 0 <= j < i && es[j].Present? && es[j].connection == c
  {
    if i > 0 {
      PresentedAt(hmac, es, i - 1);
      RunAt(hmac, es, i - 1);
    }
  }

  /** What is held is what the history says can be used. */
  ghost predicate HeldByHistory(hmac: Hmac, es: seq<Event>, i: nat)
    requires i <= |es|
  {
    var held := Run(hmac, es[..i]).held;
    && (forall b: nat :: UsableFrom(hmac, es, b, i) ==> held == Some(WindowOf(hmac, es, b, i)))
    && (held.Some? ==> exists b: nat :: UsableFrom(hmac, es, b, i))
  }

  /** Event `i` leaves the window of `b` usable. */
  predicate Spares(hmac: Hmac, es: seq<Event>, b: nat, i: nat)
    requires b < i < |es| && es[b].Begin?
  {
    && !es[i].Begin? && !es[i].EndWindow?
    && (Presents(es, i) ==> InTime(es, b, es[i].later))
    && (Tries(es, b, i) ==> !RightFor(hmac, es, b, i) && Failures(hmac, es, b, i) < 2)
  }

  lemma UsableStep(hmac: Hmac, es: seq<Event>, b: nat, i: nat)
    requires b < i < |es|
    ensures UsableFrom(hmac, es, b, i + 1) <==> UsableFrom(hmac, es, b, i) && Spares(hmac, es, b, i)
  {
  }

  /** What a first proof leaves of the window held, in terms of the clock. */
  lemma HeldAfterProof(hmac: Hmac, s: Desk, e: Event, w: Window)
    requires e.Present? && e.connection !in s.presented && s.held.Some? && s.held.value.window == w && !w.consumed && w.failedAttempts < 3
    ensures var end := w.openedAt + w.ttl;
            var right := e.attempt.proof
                         == ComputeProof(hmac, e.attempt.profile, w.token, e.attempt.responder, e.attempt.initiator, e.attempt.nonce);
            var failed := w.failedAttempts + if e.now < end && !right then 1 else 0;
            Step(hmac, s, e).held == if e.later >= end || (e.now < end && right) || failed >= 3 then None
                                     else Some(Held(s.held.value.number, w.(failedAttempts := failed)))
  {
    VerdictByTheClock(hmac, w, e.now, e.attempt);
  }

  lemma SparedIsHeld(hmac: Hmac, es: seq<Event>, b: nat, i: nat)
    requires b < i < |es| && es[b].Begin? && Failures(hmac, es, b, i) < 3 && !es[i].Begin?
    requires Run(hmac, es[..i]).held == Some(WindowOf(hmac, es, b, i))
    ensures Run(hmac, es[..i + 1]).held == if Spares(hmac, es, b, i) then Some(WindowOf(hmac, es, b, i + 1)) else None
  {
    RunAt(hmac, es, i);
    PresentedAt(hmac, es, i);
    if Presents(es, i) {
      HeldAfterProof(hmac, Run(hmac, es[..i]), es[i], WindowOf(hmac, es, b, i).window);
    }
  }

  /** The step of the desk, and the same step in the history of the window of `b`. */
  lemma HeldStep(hmac: Hmac, es: seq<Event>, b: nat, i: nat)
    requires b < i < |es| && UsableFrom(hmac, es, b, i) && Run(hmac, es[..i]).held == Some(WindowOf(hmac, es, b, i))
    requires !es[i].Begin?
    ensures Run(hmac, es[..i + 1]).held == if UsableFrom(hmac, es, b, i + 1) then Some(WindowOf(hmac, es, b, i + 1)) else None
  {
    UsableStep(hmac, es, b, i);
    SparedIsHeld(hmac, es, b, i);
  }

  lemma OnlyOneUsable(hmac: Hmac, es: seq<Event>, b: nat, b': nat, i: nat)
    requires UsableFrom(hmac, es, b, i) && UsableFrom(hmac, es, b', i)
    ensures b == b'
  {
  }

  lemma {:induction false} HeldAt(hmac: Hmac, es: seq<Event>, i: nat)
    requires i <= |es|
    ensures HeldByHistory(hmac, es, i)
  {
    if i > 0 {
      var n := i - 1;
      HeldAt(hmac, es, n);
      RunAt(hmac, es, n);
      PresentedAt(hmac, es, n);
      if es[n].Begin? {
        assert UsableFrom(hmac, es, n, i);
        forall b: nat | UsableFrom(hmac, es, b, i)
          ensures b == n
        {
          OnlyOneUsable(hmac, es, b, n, i);
        }
      } else {
        forall b: nat | b < n
          ensures UsableFrom(hmac, es, b, i) ==> UsableFrom(hmac, es, b, n)
        {
          UsableStep(hmac, es, b, n);
        }
        if b: nat :| UsableFrom(hmac, es, b, n) {
          HeldStep(hmac, es, b, n);
          forall b': nat | UsableFrom(hmac, es, b', i)
            ensures b' == b
          {
            OnlyOneUsable(hmac, es, b, b', n);
          }
        }
      }
    }
  }

  /**
   Over every run: the daemon holds a window exactly when the history has one that is open, was never
   found late, and has taken no right proof and fewer than three wrong ones in time; and it is that one.
   */
  lemma HeldExactly(hmac: Hmac, es: seq<Event>)
    ensures var held := Run(hmac, es).held;
            && (held.Some? <==> exists b: nat :: UsableFrom(hmac, es, b, |es|))
            && forall b: nat :: UsableFrom(hmac, es, b, |es|) ==> held == Some(WindowOf(hmac, es, b, |es|))
  {
    HeldAt(hmac, es, |es|);
    assert es[..|es|] == es;
  }

  // ---- what becomes of each proof -------------------------------------------------------------

  /** What a first proof at event `i` leads to, in terms of the window of `b`. */
  function VerdictOf(hmac: Hmac, es: seq<Event>, b: nat, i: nat): Entry
    requires b < i < |es| && es[b].Begin? && es[i].Present?
  {
    if !InTime(es, b, es[i].now) then Refused(Expired) else Compared(Number(es, b), RightFor(hmac, es, b, i))
  }

  /** A first proof is compared, found late or refused exactly as the history of windows says. */
  lemma ProofIsJudged(hmac: Hmac, es: seq<Event>, i: nat)
    requires Presents(es, i)
    ensures var log, log' := Run(hmac, es[..i]).log, Run(hmac, es[..i + 1]).log;
            && (forall b: nat :: UsableFrom(hmac, es, b, i) ==> log' == log + [VerdictOf(hmac, es, b, i)])
            && ((forall b: nat :: !UsableFrom(hmac, es, b, i)) ==> log' == log + [Refused(NotInPairingMode)])
  {
    HeldAt(hmac, es, i);
    RunAt(hmac, es, i);
    PresentedAt(hmac, es, i);
    if b: nat :| UsableFrom(hmac, es, b, i) {
      VerdictByTheClock(hmac, WindowOf(hmac, es, b, i).window, es[i].now, es[i].attempt);
      forall b': nat | UsableFrom(hmac, es, b', i)
        ensures b' == b
      {
        OnlyOneUsable(hmac, es, b, b', i);
      }
    }
  }

  lemma LogGrows(hmac: Hmac, s: Desk, e: Event)
    ensures s.log <= Step(hmac, s, e).log && |Step(hmac, s, e).log| <= |s.log| + 1
    ensures Step(hmac, s, e).log != s.log && !Step(hmac, s, e).log[|s.log|].Stored? ==> e.Present? && e.connection !in s.presented
  {
  }

  /** Every comparison ever made was made before the time of its window was over, and found the truth. */
  lemma {:induction false} ComparedInTime(hmac: Hmac, es: seq<Event>, n: nat, k: nat) returns (b: nat, i: nat)
    requires n <= |es| && k < |Run(hmac, es[..n]).log| && Run(hmac, es[..n]).log[k].Compared?
    ensures b < i < n && es[b].Begin? && Presents(es, i)
    ensures es[i].now < es[b].now + es[b].ttl
    ensures Run(hmac, es[..n]).log[k] == Compared(Number(es, b), RightFor(hmac, es, b, i))
  {
    var log := Run(hmac, es[..n - 1]).log;
    RunAt(hmac, es, n - 1);
    LogGrows(hmac, Run(hmac, es[..n - 1]), es[n - 1]);
    if k < |log| {
      b, i := ComparedInTime(hmac, es, n - 1, k);
    } else {
      i := n - 1;
      PresentedAt(hmac, es, i);
      ProofIsJudged(hmac, es, i);
      b :| UsableFrom(hmac, es, b, i);
    }
  }

  /** Connection `c` proves itself at event `i`, for the window of `b`. */
  predicate Proves(hmac: Hmac, es: seq<Event>, b: nat, i: nat, c: nat) {
    && i < |es| && UsableFrom(hmac, es, b, i) && Presents(es, i) && es[i].connection == c
    && InTime(es, b, es[i].now) && RightFor(hmac, es, b, i)
  }

  /** It did, and was neither declined nor stored up to event `n`. */
  predicate AwaitsStore(hmac: Hmac, es: seq<Event>, b: nat, i: nat, n: nat, c: nat) {
    && i < n <= |es| && Proves(hmac, es, b, i, c)
    && forall j :: i < j < n ==> es[j] != Decline(c) && es[j] != StorePeer(c)
  }

  /** A first proof is entered as proven exactly when it is right, in time, and for the window held. */
  lemma ProvenStep(hmac: Hmac, es: seq<Event>, n: nat)
    requires Presents(es, n)
    ensures var s, s' := Run(hmac, es[..n]), Run(hmac, es[..n + 1]);
            && (forall b: nat, c :: Proves(hmac, es, b, n, c) ==> s'.proven == s.proven[c := Number(es, b)])
            && ((forall b: nat, c :: !Proves(hmac, es, b, n, c)) ==> s'.proven == s.proven)
  {
    HeldAt(hmac, es, n);
    RunAt(hmac, es, n);
    PresentedAt(hmac, es, n);
    if b: nat :| UsableFrom(hmac, es, b, n) {
      VerdictByTheClock(hmac, WindowOf(hmac, es, b, n).window, es[n].now, es[n].attempt);
      assert InTime(es, b, es[n].now) && RightFor(hmac, es, b, n) ==> Proves(hmac, es, b, n, es[n].connection);
      forall b': nat | UsableFrom(hmac, es, b', n)
        ensures b' == b
      {
        OnlyOneUsable(hmac, es, b, b', n);
      }
    }
  }

  lemma AwaitsStep(hmac: Hmac, es: seq<Event>, b: nat, i: nat, n: nat, c: nat)
    requires n < |es|
    ensures AwaitsStore(hmac, es, b, i, n + 1, c) <==>
              || (i < n && AwaitsStore(hmac, es, b, i, n, c) && es[n] != Decline(c) && es[n] != StorePeer(c))
              || (i == n && Proves(hmac, es, b, n, c))
  {
  }

  lemma OneProof(hmac: Hmac, es: seq<Event>, b: nat, i: nat, b': nat, i': nat, c: nat)
    requires Proves(hmac, es, b, i, c) && Proves(hmac, es, b', i', c)
    ensures i == i' && b == b'
  {
    OnlyOneUsable(hmac, es, b, b', i);
  }

  /** Any other event takes away what it declines or stores. */
  lemma OtherProven(hmac: Hmac, s: Desk, e: Event, c: nat)
    requires !e.Present? || e.connection in s.presented
    ensures c in Step(hmac, s, e).proven <==> c in s.proven && e != Decline(c) && e != StorePeer(c)
    ensures c in Step(hmac, s, e).proven ==> Step(hmac, s, e).proven[c] == s.proven[c]
  {
  }

  /** What the history says of one connection. */
  ghost predicate ProvenOne(hmac: Hmac, es: seq<Event>, n: nat, c: nat)
    requires n <= |es|
  {
    var proven := Run(hmac, es[..n]).proven;
    && (forall b: nat, i: nat :: AwaitsStore(hmac, es, b, i, n, c) ==> c in proven && proven[c] == Number(es, b))
    && (c in proven ==> exists b: nat, i: nat :: AwaitsStore(hmac, es, b, i, n, c))
  }

  lemma OtherKeepsProven(hmac: Hmac, es: seq<Event>, n: nat, m: nat, c: nat)
    requires m < |es| && n == m + 1 && ProvenOne(hmac, es, m, c) && !Presents(es, m)
    ensures ProvenOne(hmac, es, n, c)
  {
    RunAt(hmac, es, m);
    PresentedAt(hmac, es, m);
    OtherProven(hmac, Run(hmac, es[..m]), es[m], c);
    if c in Run(hmac, es[..n]).proven {
      var b: nat, i: nat :| AwaitsStore(hmac, es, b, i, m, c);
      AwaitsStep(hmac, es, b, i, m, c);
    }
    forall b: nat, i: nat | AwaitsStore(hmac, es, b, i, n, c)
      ensures AwaitsStore(hmac, es, b, i, m, c) && es[m] != Decline(c) && es[m] != StorePeer(c)
    {
      AwaitsStep(hmac, es, b, i, m, c);
    }
  }

  lemma PresentsOnce(es: seq<Event>, i: nat, m: nat)
    requires Presents(es, i) && Presents(es, m) && i < m
    ensures es[i].connection != es[m].connection
  {
  }

  lemma PresentKeepsProven(hmac: Hmac, es: seq<Event>, n: nat, m: nat, c: nat)
    requires m < |es| && n == m + 1 && ProvenOne(hmac, es, m, c) && Presents(es, m)
    ensures ProvenOne(hmac, es, n, c)
  {
    ProvenStep(hmac, es, m);
    var proven, proven' := Run(hmac, es[..m]).proven, Run(hmac, es[..n]).proven;
    if c in proven {
      var b: nat, i: nat :| AwaitsStore(hmac, es, b, i, m, c);
      AwaitsStep(hmac, es, b, i, m, c);
    } else if c in proven' {
      var b: nat, c' :| Proves(hmac, es, b, m, c');
      AwaitsStep(hmac, es, b, m, m, c);
    }
    forall b: nat, i: nat | AwaitsStore(hmac, es, b, i, n, c)
      ensures c in proven' && proven'[c] == Number(es, b)
    {
      AwaitsStep(hmac, es, b, i, m, c);
      if i < m {
        PresentsOnce(es, i, m);
      }
    }
  }

  lemma EventKeepsProven(hmac: Hmac, es: seq<Event>, n: nat, m: nat, c: nat)
    requires m < |es| && n == m + 1 && ProvenOne(hmac, es, m, c)
    ensures ProvenOne(hmac, es, n, c)
  {
    if Presents(es, m) {
      PresentKeepsProven(hmac, es, n, m, c);
    } else {
      OtherKeepsProven(hmac, es, n, m, c);
    }
  }

  lemma NoneProven(hmac: Hmac, es: seq<Event>, c: nat)
    ensures ProvenOne(hmac, es, 0, c)
  {
  }

  lemma {:induction false} ProvenAt(hmac: Hmac, es: seq<Event>, n: nat, c: nat)
    requires n <= |es|
    ensures ProvenOne(hmac, es, n, c)
  {
    if n == 0 {
      NoneProven(hmac, es, c);
    } else {
      var m := n - 1;
      ProvenAt(hmac, es, m, c);
      EventKeepsProven(hmac, es, n, m, c);
    }
  }

  /**
   Over every run: an attempt to store a connection's peer is let through exactly when that connection
   gave a right proof, in time, for the window held then, and was neither declined nor stored since; and
   it counts for that window.
   */
  lemma StoredExactly(hmac: Hmac, es: seq<Event>, n: nat, c: nat)
    requires n < |es| && es[n] == StorePeer(c)
    ensures var log, log' := Run(hmac, es[..n]).log, Run(hmac, es[..n + 1]).log;
            && (log' != log <==> exists b: nat, i: nat :: AwaitsStore(hmac, es, b, i, n, c))
            && forall b: nat, i: nat :: AwaitsStore(hmac, es, b, i, n, c) ==> log' == log + [Stored(Number(es, b))]
  {
    ProvenAt(hmac, es, n, c);
    RunAt(hmac, es, n);
    if b: nat, i: nat :| AwaitsStore(hmac, es, b, i, n, c) {
      forall b': nat, i': nat | AwaitsStore(hmac, es, b', i', n, c)
        ensures b' == b
      {
        OneProof(hmac, es, b, i, b', i', c);
      }
    }
  }
}
