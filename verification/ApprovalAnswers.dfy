/**
 From the screen to the transfer: exactly when a file is accepted, and exactly which prompts are up.

 `ApprovalSessions` says what cannot happen. Here is what must: an offer in a queue reaches the screen,
 an answer on the screen reaches its question, and the question returns it.
 */
module ApprovalAnswers {
  import opened Prelude
  import R = ApprovalRules
  import opened ApprovalSessions

  /** The state before event `i`. */
  ghost function At(unattended: bool, es: seq<Event>, i: nat): System
    requires i <= |es|
  {
    Run(unattended, es[..i])
  }

  lemma RunAt(unattended: bool, es: seq<Event>, m: nat, n: nat)
    requires m < n == m + 1 <= |es|
    ensures At(unattended, es, n) == Step(At(unattended, es, m), es[m])
  {
    assert es[..n][..m] == es[..m];
  }

  lemma InvAt(unattended: bool, es: seq<Event>, i: nat)
    requires i <= |es|
    ensures R.Inv(At(unattended, es, i).approval)
  {
    RunShowsFirst(unattended, es[..i]);
  }

  // ---- which prompts are up -------------------------------------------------------------------

  /** Event `e` puts a prompt for `t` on the screen of session `k`. */
  predicate PutsUp(s: System, e: Event, k: nat, t: R.TransferId) {
    e == Prompt(k, true) && k < |s.prompts| && InHand(s, k, t)
  }

  /** Event `e`, of a session that is at rest, takes it down. */
  predicate TakesDown(s: System, e: Event, k: nat, t: R.TransferId) {
    AtRest(s, k) && (e == Settle(k, t) || (e.Answer? && e.session == k && e.transfer == t))
  }

  lemma HasStep(s: System, e: Event, k: nat, t: R.TransferId)
    ensures Has(Step(s, e), k, t) <==> PutsUp(s, e, k, t) || (Has(s, k, t) && !TakesDown(s, e, k, t))
  {
  }

  ghost predicate UpSince(unattended: bool, es: seq<Event>, i: nat, n: nat, k: nat, t: R.TransferId)
    requires i < n <= |es|
  {
    n == i + 1 || (UpSince(unattended, es, i, n - 1, k, t) && !TakesDown(At(unattended, es, n - 1), es[n - 1], k, t))
  }

  /** Event `i` put the prompt up, and nothing before event `n` took it down. */
  ghost predicate IsUp(unattended: bool, es: seq<Event>, i: nat, n: nat, k: nat, t: R.TransferId) {
    i < n <= |es| && PutsUp(At(unattended, es, i), es[i], k, t) && UpSince(unattended, es, i, n, k, t)
  }

  lemma HasAt(unattended: bool, es: seq<Event>, m: nat, n: nat, k: nat, t: R.TransferId)
    requires m < n == m + 1 <= |es|
    ensures var s := At(unattended, es, m);
            Has(At(unattended, es, n), k, t) <==> PutsUp(s, es[m], k, t) || (Has(s, k, t) && !TakesDown(s, es[m], k, t))
  {
    RunAt(unattended, es, m, n);
    HasStep(At(unattended, es, m), es[m], k, t);
  }

  lemma IsUpStep(unattended: bool, es: seq<Event>, i: nat, m: nat, n: nat, k: nat, t: R.TransferId)
    requires i < m < n == m + 1 <= |es|
    ensures IsUp(unattended, es, i, n, k, t) <==> IsUp(unattended, es, i, m, k, t) && !TakesDown(At(unattended, es, m), es[m], k, t)
  {
  }

  lemma IsUpAtOnce(unattended: bool, es: seq<Event>, m: nat, n: nat, k: nat, t: R.TransferId)
    requires m < n == m + 1 <= |es|
    ensures IsUp(unattended, es, m, n, k, t) <==> PutsUp(At(unattended, es, m), es[m], k, t)
  {
  }

  lemma {:induction false} UpIsHad(unattended: bool, es: seq<Event>, i: nat, n: nat, k: nat, t: R.TransferId)
    requires i < n <= |es| && IsUp(unattended, es, i, n, k, t)
    ensures Has(At(unattended, es, n), k, t)
  {
    var m := n - 1;
    HasAt(unattended, es, m, n, k, t);
    if m > i {
      IsUpStep(unattended, es, i, m, n, k, t);
      UpIsHad(unattended, es, i, m, k, t);
    }
  }

  lemma {:induction false} HadIsUp(unattended: bool, es: seq<Event>, n: nat, k: nat, t: R.TransferId) returns (i: nat)
    requires n <= |es| && Has(At(unattended, es, n), k, t)
    ensures i < n && IsUp(unattended, es, i, n, k, t)
  {
    var m := n - 1;
    HasAt(unattended, es, m, n, k, t);
    if PutsUp(At(unattended, es, m), es[m], k, t) {
      i := m;
      IsUpAtOnce(unattended, es, m, n, k, t);
    } else {
      i := HadIsUp(unattended, es, m, k, t);
      IsUpStep(unattended, es, i, m, n, k, t);
    }
  }

  /** Over every run: a prompt is on a screen exactly from being put up until it is answered or settled there. */
  lemma OnScreenExactly(unattended: bool, es: seq<Event>, k: nat, t: R.TransferId)
    ensures Has(Run(unattended, es), k, t) <==> exists i: nat :: IsUp(unattended, es, i, |es|, k, t)
  {
    var n := |es|;
    assert es[..n] == es;
    if Has(At(unattended, es, n), k, t) {
      var i := HadIsUp(unattended, es, n, k, t);
    }
    forall i: nat | IsUp(unattended, es, i, n, k, t)
      ensures Has(At(unattended, es, n), k, t)
    {
      UpIsHad(unattended, es, i, n, k, t);
    }
  }

  /** In every state, the first offer in the queue of a session that is at rest is what it shows next. */
  lemma QueuedIsShown(s: System, k: nat)
    requires AtRest(s, k) && k < |s.approval.channels| && s.approval.channels[k].queue != []
    ensures var t := s.approval.channels[k].queue[0].transfer;
            var s' := Step(Step(s, Fetch(k)), Prompt(k, true));
            && AtRest(s', k) && Has(s', k, t) && s'.log == s.log + [Shown(k, t)]
            && s'.approval == R.Step(s.approval, R.Take(k))
  {
  }

  // ---- exactly when a file is accepted --------------------------------------------------------

  /** The events of the seam that one event of the system comes down to. */
  function SeamOf(s: System, e: Event): seq<R.Event> {
    match e
    case AskAbout(q, offer) => [R.Ask(q, offer)]
    case Connect => [R.Attach]
    case Fetch(k) => if Step(s, e) == s then [] else [R.Take(k)]
    case Prompt(k, live) => if live || k >= |s.prompts| || k >= |s.inHand| || s.inHand[k].None? then [] else [R.Withdraw(s.inHand[k].value)]
    case Answer(k, t, accept) => if AtRest(s, k) && Has(s, k, t) then [R.Decide(t, accept)] else []
    case Settle(k, t) => if AtRest(s, k) && Has(s, k, t) then [R.Withdraw(t)] else []
    case Leave(k, detaches) => [R.StopListening(k)] + if detaches then [R.Detach(R.EpochOf(k + 1))] else []
    case Return(q) => [R.Resume(q)]
    case TimeOut(q) => [R.Cancel(q)]
  }

  function Continued(a: R.Approval, xs: seq<R.Event>): R.Approval {
    if xs == [] then a else if |xs| == 1 then R.Step(a, xs[0]) else R.Step(R.Step(a, xs[0]), xs[1])
  }

  lemma SeamOfStep(s: System, e: Event)
    ensures |SeamOf(s, e)| <= 2 && Step(s, e).approval == Continued(s.approval, SeamOf(s, e))
  {
  }

  /** A person accepts, on a prompt that is up, the very question that is pending under its transfer. */
  ghost predicate Accepts(s: System, e: Event, q: R.Question, accept: bool) {
    && e.Answer? && e.accept == accept && AtRest(s, e.session) && Has(s, e.session, e.transfer)
    && e.transfer in s.approval.pending && s.approval.pending[e.transfer].question == q
  }

  predicate Ends(e: Event, q: R.Question) {
    e == Return(q) || e == TimeOut(q)
  }

  lemma AnswerableOn(a: R.Approval, xs: seq<R.Event>, q: R.Question, accept: bool)
    requires R.Inv(a) && R.Answerable(a, q, accept) && |xs| <= 2 && forall i :: 0 <= i < |xs| ==> !R.Returns(xs[i], q)
    ensures R.Answerable(Continued(a, xs), q, accept)
  {
    if |xs| > 0 {
      R.AnswerableStep(a, xs[0], q, accept);
      R.StepKeepsInv(a, xs[0]);
      if |xs| > 1 {
        R.AnswerableStep(R.Step(a, xs[0]), xs[1], q, accept);
      }
    }
  }

  lemma SeamReturns(s: System, e: Event, q: R.Question)
    ensures !Ends(e, q) ==> forall i :: 0 <= i < |SeamOf(s, e)| ==> !R.Returns(SeamOf(s, e)[i], q)
  {
  }

  /** What one event does to a question that has its answer. */
  lemma AnswerableStep(s: System, e: Event, q: R.Question, accept: bool)
    requires R.Inv(s.approval) && R.Answerable(s.approval, q, accept)
    ensures var a := Step(s, e).approval;
            if Ends(e, q) then q in a.results && a.results[q] == (accept && e.Return?) else R.Answerable(a, q, accept)
  {
    if e == Return(q) {
      R.AnswerableStep(s.approval, R.Resume(q), q, accept);
    } else if e == TimeOut(q) {
      R.AnswerableStep(s.approval, R.Cancel(q), q, accept);
    } else {
      SeamOfStep(s, e);
      SeamReturns(s, e, q);
      AnswerableOn(s.approval, SeamOf(s, e), q, accept);
    }
  }

  lemma AcceptedIsAnswerable(s: System, e: Event, q: R.Question, accept: bool)
    requires R.Inv(s.approval) && Accepts(s, e, q, accept)
    ensures R.Answerable(Step(s, e).approval, q, accept)
  {
    R.DecisionIsAnswerable(s.approval, R.Decide(e.transfer, accept), q);
  }

  ghost predicate IsAnswered(a: R.Approval, q: R.Question, accept: bool) {
    q in a.replies && a.replies[q] == R.Answered(accept)
  }

  ghost predicate IsYes(a: R.Approval, q: R.Question) {
    q in a.results && a.results[q]
  }

  /** Only a decision on its entry answers a question. */
  lemma AnsweredOnce(a: R.Approval, x: R.Event, q: R.Question, accept: bool)
    requires R.Inv(a) && !IsAnswered(a, q, accept) && IsAnswered(R.Step(a, x), q, accept)
    ensures x.Decide? && x.accept == accept && x.transfer in a.pending && a.pending[x.transfer].question == q
  {
    R.AnsweredByDecision(a, x, q);
  }

  lemma AnsweredByAccept(s: System, e: Event, q: R.Question, accept: bool)
    requires R.Inv(s.approval) && !IsAnswered(s.approval, q, accept) && IsAnswered(Step(s, e).approval, q, accept)
    ensures Accepts(s, e, q, accept)
  {
    SeamOfStep(s, e);
    var xs := SeamOf(s, e);
    if |xs| == 2 {
      R.StepKeepsInv(s.approval, xs[0]);
      NeitherAnswers(s.approval, xs[0], xs[1], q, accept);
    } else if |xs| == 1 {
      AnsweredOnce(s.approval, xs[0], q, accept);
    }
  }

  lemma NeitherAnswers(a: R.Approval, x: R.Event, y: R.Event, q: R.Question, accept: bool)
    requires R.Inv(a) && R.Inv(R.Step(a, x)) && !x.Decide? && !y.Decide? && !IsAnswered(a, q, accept)
    ensures !IsAnswered(R.Step(R.Step(a, x), y), q, accept)
  {
    if IsAnswered(R.Step(a, x), q, accept) {
      AnsweredOnce(a, x, q, accept);
    } else if IsAnswered(R.Step(R.Step(a, x), y), q, accept) {
      AnsweredOnce(R.Step(a, x), y, q, accept);
    }
  }

  /** Only the return of a yes makes a yes. */
  lemma YesOnce(a: R.Approval, x: R.Event, q: R.Question)
    requires R.Inv(a) && !a.unattended && !IsYes(a, q) && IsYes(R.Step(a, x), q)
    ensures x == R.Resume(q) && IsAnswered(a, q, true) && q !in a.results
  {
    R.YesByResume(a, x, q);
    if q in a.results {
      R.ResultStays(a, x, q);
    }
  }

  lemma NeitherSaysYes(a: R.Approval, x: R.Event, y: R.Event, q: R.Question)
    requires R.Inv(a) && R.Inv(R.Step(a, x)) && !a.unattended && !x.Resume? && !y.Resume? && !IsYes(a, q)
    ensures !IsYes(R.Step(R.Step(a, x), y), q)
  {
    R.AttendanceStep(a, x);
    if IsYes(R.Step(a, x), q) {
      YesOnce(a, x, q);
    } else if IsYes(R.Step(R.Step(a, x), y), q) {
      YesOnce(R.Step(a, x), y, q);
    }
  }

  lemma YesByReturn(s: System, e: Event, q: R.Question)
    requires R.Inv(s.approval) && !s.approval.unattended && !IsYes(s.approval, q) && IsYes(Step(s, e).approval, q)
    ensures e == Return(q) && IsAnswered(s.approval, q, true) && q !in s.approval.results
  {
    SeamOfStep(s, e);
    var xs := SeamOf(s, e);
    if |xs| == 2 {
      R.StepKeepsInv(s.approval, xs[0]);
      NeitherSaysYes(s.approval, xs[0], xs[1], q);
    } else if |xs| == 1 {
      YesOnce(s.approval, xs[0], q);
    }
  }

  lemma ResultStays(s: System, e: Event, q: R.Question)
    requires R.Inv(s.approval) && q in s.approval.results
    ensures q in Step(s, e).approval.results && Step(s, e).approval.results[q] == s.approval.results[q]
  {
    SeamOfStep(s, e);
    var xs := SeamOf(s, e);
    if |xs| >= 1 {
      R.ResultStays(s.approval, xs[0], q);
      R.StepKeepsInv(s.approval, xs[0]);
      if |xs| == 2 {
        R.ResultStays(R.Step(s.approval, xs[0]), xs[1], q);
      }
    }
  }

  // ---- over runs ------------------------------------------------------------------------------

  ghost predicate AcceptsAt(es: seq<Event>, i: nat, q: R.Question) {
    i < |es| && Accepts(At(false, es, i), es[i], q, true)
  }

  lemma AnswerableAfter(es: seq<Event>, m: nat, n: nat, q: R.Question)
    requires m < n == m + 1 <= |es| && (AcceptsAt(es, m, q) || (R.Answerable(At(false, es, m).approval, q, true) && !Ends(es[m], q)))
    ensures R.Answerable(At(false, es, n).approval, q, true)
  {
    RunAt(false, es, m, n);
    InvAt(false, es, m);
    if AcceptsAt(es, m, q) {
      AcceptedIsAnswerable(At(false, es, m), es[m], q, true);
    } else {
      AnswerableStep(At(false, es, m), es[m], q, true);
    }
  }

  lemma {:induction false} StaysAnswerable(es: seq<Event>, i: nat, n: nat, q: R.Question)
    requires i < n <= |es| && AcceptsAt(es, i, q) && forall k :: i < k < n ==> !Ends(es[k], q)
    ensures R.Answerable(At(false, es, n).approval, q, true)
  {
    var m := n - 1;
    if m > i {
      StaysAnswerable(es, i, m, q);
    }
    AnswerableAfter(es, m, n, q);
  }

  lemma EndedAt(es: seq<Event>, m: nat, n: nat, q: R.Question)
    requires m < n == m + 1 <= |es| && Ends(es[m], q) && R.Answerable(At(false, es, m).approval, q, true)
    ensures var a := At(false, es, n).approval; q in a.results && a.results[q] == es[m].Return?
  {
    RunAt(false, es, m, n);
    InvAt(false, es, m);
    AnswerableStep(At(false, es, m), es[m], q, true);
  }

  lemma ResultAt(es: seq<Event>, m: nat, n: nat, q: R.Question)
    requires m < n == m + 1 <= |es| && q in At(false, es, m).approval.results
    ensures var a, a' := At(false, es, m).approval, At(false, es, n).approval; q in a'.results && a'.results[q] == a.results[q]
  {
    RunAt(false, es, m, n);
    InvAt(false, es, m);
    ResultStays(At(false, es, m), es[m], q);
  }

  lemma {:induction false} ResultIsFinal(es: seq<Event>, i: nat, n: nat, q: R.Question)
    requires i <= n <= |es| && q in At(false, es, i).approval.results
    ensures var a, a' := At(false, es, i).approval, At(false, es, n).approval; q in a'.results && a'.results[q] == a.results[q]
  {
    if i < n {
      var m := n - 1;
      ResultIsFinal(es, i, m, q);
      ResultAt(es, m, n, q);
    }
  }

  lemma AnsweredAt(es: seq<Event>, m: nat, n: nat, q: R.Question)
    requires m < n == m + 1 <= |es| && IsAnswered(At(false, es, n).approval, q, true) && !IsAnswered(At(false, es, m).approval, q, true)
    ensures AcceptsAt(es, m, q)
  {
    RunAt(false, es, m, n);
    InvAt(false, es, m);
    AnsweredByAccept(At(false, es, m), es[m], q, true);
  }

  lemma {:induction false} AnswerWasGiven(es: seq<Event>, n: nat, q: R.Question) returns (i: nat)
    requires n <= |es| && IsAnswered(At(false, es, n).approval, q, true)
    ensures i < n && AcceptsAt(es, i, q)
  {
    var m := n - 1;
    if IsAnswered(At(false, es, m).approval, q, true) {
      i := AnswerWasGiven(es, m, q);
    } else {
      i := m;
      AnsweredAt(es, m, n, q);
    }
  }

  lemma YesAt(es: seq<Event>, m: nat, n: nat, q: R.Question)
    requires m < n == m + 1 <= |es| && IsYes(At(false, es, n).approval, q) && !IsYes(At(false, es, m).approval, q)
    ensures es[m] == Return(q) && IsAnswered(At(false, es, m).approval, q, true) && q !in At(false, es, m).approval.results
  {
    RunAt(false, es, m, n);
    InvAt(false, es, m);
    RunIsAttended(es[..m]);
    YesByReturn(At(false, es, m), es[m], q);
  }

  lemma {:induction false} YesWasReturned(es: seq<Event>, n: nat, q: R.Question) returns (j: nat)
    requires n <= |es| && IsYes(At(false, es, n).approval, q)
    ensures j < n && es[j] == Return(q) && IsAnswered(At(false, es, j).approval, q, true) && q !in At(false, es, j).approval.results
  {
    var m := n - 1;
    if IsYes(At(false, es, m).approval, q) {
      j := YesWasReturned(es, m, q);
    } else {
      j := m;
      YesAt(es, m, n, q);
    }
  }

  lemma {:induction false} FirstEnd(es: seq<Event>, i: nat, j: nat, q: R.Question) returns (k: nat)
    requires i < j <= |es|
    ensures i < k <= j && (k < j ==> Ends(es[k], q)) && forall m :: i < m < k ==> !Ends(es[m], q)
  {
    if j == i + 1 {
      k := j;
    } else {
      k := FirstEnd(es, i, j - 1, q);
      if k == j - 1 && !Ends(es[k], q) {
        k := j;
      }
    }
  }

  lemma EndedBetween(es: seq<Event>, i: nat, k: nat, j: nat, q: R.Question)
    requires i < k < j <= |es| && AcceptsAt(es, i, q) && Ends(es[k], q) && forall m :: i < m < k ==> !Ends(es[m], q)
    ensures var a := At(false, es, j).approval; q in a.results && a.results[q] == es[k].Return?
  {
    StaysAnswerable(es, i, k, q);
    EndedAt(es, k, k + 1, q);
    ResultIsFinal(es, k + 1, j, q);
  }

  /** Event `i` accepts the question on a screen, and `j` is the first end of it after that, a return. */
  ghost predicate AcceptedBy(es: seq<Event>, i: nat, j: nat, q: R.Question) {
    i < j < |es| && AcceptsAt(es, i, q) && es[j] == Return(q) && forall k :: i < k < j ==> !Ends(es[k], q)
  }

  /**
   Over every run of an attended daemon: a file is accepted if and only if a person accepted it, on a
   prompt that was on the screen of their session, while the question was the one pending under its
   transfer, and the question then returned before it timed out.
   */
  lemma AcceptedExactly(es: seq<Event>, q: R.Question)
    ensures IsYes(Run(false, es).approval, q) <==> exists i: nat, j: nat :: AcceptedBy(es, i, j, q)
  {
    var n := |es|;
    assert es[..n] == es;
    if IsYes(At(false, es, n).approval, q) {
      var j := YesWasReturned(es, n, q);
      var i := AnswerWasGiven(es, j, q);
      var k := FirstEnd(es, i, j, q);
      if k < j {
        EndedBetween(es, i, k, j, q);
      }
      assert AcceptedBy(es, i, j, q);
    }
    forall i: nat, j: nat | AcceptedBy(es, i, j, q)
      ensures IsYes(At(false, es, n).approval, q)
    {
      EndedBetween(es, i, j, n, q);
    }
  }

  // ---- how long a question waits --------------------------------------------------------------

  /** The event ends the waiting of whatever question is pending under this transfer. */
  ghost predicate Stops(s: System, e: Event, t: R.TransferId) {
    match e
    // Another window takes over, or the one that is attached goes.
    case Connect => true
    case Leave(k, detaches) => detaches && R.EpochOf(k + 1) == s.approval.epoch
    // The prompt is answered, or it is about something that has ended.
    case Answer(k, x, _) => x == t && AtRest(s, k) && Has(s, k, t)
    case Settle(k, x) => x == t && AtRest(s, k) && Has(s, k, t)
    case Prompt(k, live) => !live && k < |s.prompts| && InHand(s, k, t)
    // The transfer is asked about once more, or a question about it is over.
    case AskAbout(q, offer) => offer.transfer == t && q !in s.approval.asked && R.CanQueue(s.approval)
    case Return(q) => q in s.approval.replies && s.approval.replies[q] != R.Waiting && IsAbout(s, q, t)
    case TimeOut(q) => q in s.approval.replies && IsAbout(s, q, t)
    case Fetch(_) => false
  }

  /** A question about this transfer that has not been returned. */
  ghost predicate IsAbout(s: System, q: R.Question, t: R.TransferId) {
    q in s.approval.asked && s.approval.asked[q].transfer == t && q !in s.approval.results
  }

  lemma LeaveWaits(a: R.Approval, k: nat, q: R.Question)
    requires R.Inv(a) && q in a.asked
    ensures var a1 := R.Step(a, R.StopListening(k));
            && R.Inv(a1) && q in a1.asked && a1.asked[q] == a.asked[q] && a1.epoch == a.epoch && (R.Waits(a1, q) <==> R.Waits(a, q))
  {
    R.StepKeepsInv(a, R.StopListening(k));
  }

  lemma LeavingWaits(s: System, k: nat, detaches: bool, q: R.Question)
    requires R.Inv(s.approval) && q in s.approval.asked
    ensures R.Waits(Step(s, Leave(k, detaches)).approval, q)
            <==> R.Waits(s.approval, q) && !(detaches && R.EpochOf(k + 1) == s.approval.epoch)
  {
    LeaveWaits(s.approval, k, q);
    if detaches {
      R.WaitsStep(R.Step(s.approval, R.StopListening(k)), R.Detach(R.EpochOf(k + 1)), q);
    }
  }

  lemma PromptWaits(s: System, e: Event, q: R.Question)
    requires R.Inv(s.approval) && q in s.approval.asked && (e.Fetch? || e.Prompt? || e.Answer? || e.Settle?)
    ensures R.Waits(Step(s, e).approval, q) <==> R.Waits(s.approval, q) && !Stops(s, e, s.approval.asked[q].transfer)
  {
    SeamOfStep(s, e);
    if |SeamOf(s, e)| == 1 {
      R.WaitsStep(s.approval, SeamOf(s, e)[0], q);
    }
  }

  lemma QuestionWaits(s: System, e: Event, q: R.Question)
    requires R.Inv(s.approval) && q in s.approval.asked && (e.Connect? || e.AskAbout? || e.Return? || e.TimeOut?)
    ensures R.Waits(Step(s, e).approval, q) <==> R.Waits(s.approval, q) && !Stops(s, e, s.approval.asked[q].transfer)
  {
    R.WaitsStep(s.approval, SeamOf(s, e)[0], q);
  }

  lemma WaitsStep(s: System, e: Event, q: R.Question)
    requires R.Inv(s.approval) && q in s.approval.asked
    ensures R.Waits(Step(s, e).approval, q) <==> R.Waits(s.approval, q) && !Stops(s, e, s.approval.asked[q].transfer)
  {
    if e.Leave? {
      LeavingWaits(s, e.session, e.detaches, q);
    } else if e.Fetch? || e.Prompt? || e.Answer? || e.Settle? {
      PromptWaits(s, e, q);
    } else {
      QuestionWaits(s, e, q);
    }
  }

  lemma AskedStays(s: System, e: Event, q: R.Question)
    ensures q in Step(s, e).approval.asked <==> q in s.approval.asked || (e.AskAbout? && e.question == q)
    ensures q in s.approval.asked ==> Step(s, e).approval.asked[q] == s.approval.asked[q]
  {
    SeamOfStep(s, e);
    var xs := SeamOf(s, e);
    if |xs| >= 1 {
      R.AskedStep(s.approval, xs[0], q);
      if |xs| == 2 {
        R.AskedStep(R.Step(s.approval, xs[0]), xs[1], q);
      }
    }
  }

  ghost predicate AskedAt(unattended: bool, es: seq<Event>, i: nat, q: R.Question) {
    i < |es| && es[i].AskAbout? && es[i].question == q && q !in At(unattended, es, i).approval.asked
  }

  ghost predicate Unstopped(unattended: bool, es: seq<Event>, i: nat, n: nat, t: R.TransferId)
    requires i < n <= |es|
  {
    n == i + 1 || (Unstopped(unattended, es, i, n - 1, t) && !Stops(At(unattended, es, n - 1), es[n - 1], t))
  }

  /** Event `i` put the question to a window that was there to be asked, and nothing before event `n` stopped it. */
  ghost predicate WaitsSince(unattended: bool, es: seq<Event>, i: nat, n: nat, q: R.Question) {
    && i < n <= |es| && AskedAt(unattended, es, i, q) && R.CanQueue(At(unattended, es, i).approval)
    && Unstopped(unattended, es, i, n, es[i].offer.transfer)
  }

  /** What became of the question of event `i` before event `n`. */
  ghost predicate WaitsTruly(unattended: bool, es: seq<Event>, i: nat, n: nat, q: R.Question)
    requires i < |es| && es[i].AskAbout? && n <= |es|
  {
    var a := At(unattended, es, n).approval;
    q in a.asked && a.asked[q] == es[i].offer && (R.Waits(a, q) <==> WaitsSince(unattended, es, i, n, q))
  }

  lemma WaitsAtOnce(unattended: bool, es: seq<Event>, i: nat, n: nat, q: R.Question)
    requires i < n == i + 1 <= |es| && AskedAt(unattended, es, i, q)
    ensures WaitsTruly(unattended, es, i, n, q)
  {
    RunAt(unattended, es, i, n);
    InvAt(unattended, es, i);
    R.AskedExactly(At(unattended, es, i).approval, q, es[i].offer);
  }

  lemma UnstoppedMore(unattended: bool, es: seq<Event>, i: nat, m: nat, n: nat, t: R.TransferId)
    requires i < m < n == m + 1 <= |es|
    ensures Unstopped(unattended, es, i, n, t) <==> Unstopped(unattended, es, i, m, t) && !Stops(At(unattended, es, m), es[m], t)
  {
  }

  lemma UnstoppedStep(unattended: bool, es: seq<Event>, i: nat, m: nat, n: nat, q: R.Question)
    requires i < m < n == m + 1 <= |es| && AskedAt(unattended, es, i, q)
    ensures WaitsSince(unattended, es, i, n, q)
            <==> WaitsSince(unattended, es, i, m, q) && !Stops(At(unattended, es, m), es[m], es[i].offer.transfer)
  {
    UnstoppedMore(unattended, es, i, m, n, es[i].offer.transfer);
  }

  lemma WaitsAt(unattended: bool, es: seq<Event>, m: nat, n: nat, q: R.Question, t: R.TransferId)
    requires m < n == m + 1 <= |es| && q in At(unattended, es, m).approval.asked && At(unattended, es, m).approval.asked[q].transfer == t
    ensures var s, s' := At(unattended, es, m), At(unattended, es, n);
            && q in s'.approval.asked && s'.approval.asked[q] == s.approval.asked[q]
            && (R.Waits(s'.approval, q) <==> R.Waits(s.approval, q) && !Stops(s, es[m], t))
  {
    RunAt(unattended, es, m, n);
    InvAt(unattended, es, m);
    AskedStays(At(unattended, es, m), es[m], q);
    WaitsStep(At(unattended, es, m), es[m], q);
  }

  lemma {:induction false} WaitsFrom(unattended: bool, es: seq<Event>, i: nat, n: nat, q: R.Question)
    requires i < n <= |es| && AskedAt(unattended, es, i, q)
    ensures WaitsTruly(unattended, es, i, n, q)
  {
    var m := n - 1;
    if m == i {
      WaitsAtOnce(unattended, es, i, n, q);
    } else {
      WaitsFrom(unattended, es, i, m, q);
      UnstoppedStep(unattended, es, i, m, n, q);
      WaitsAt(unattended, es, m, n, q, es[i].offer.transfer);
    }
  }

  lemma AskedWhen(unattended: bool, es: seq<Event>, m: nat, n: nat, q: R.Question)
    requires m < n == m + 1 <= |es|
    ensures q in At(unattended, es, n).approval.asked ==> q in At(unattended, es, m).approval.asked || AskedAt(unattended, es, m, q)
  {
    RunAt(unattended, es, m, n);
    AskedStays(At(unattended, es, m), es[m], q);
  }

  lemma {:induction false} WasAskedAt(unattended: bool, es: seq<Event>, n: nat, q: R.Question) returns (i: nat)
    requires n <= |es| && q in At(unattended, es, n).approval.asked
    ensures i < n && AskedAt(unattended, es, i, q)
  {
    var m := n - 1;
    AskedWhen(unattended, es, m, n, q);
    if q in At(unattended, es, m).approval.asked {
      i := WasAskedAt(unattended, es, m, q);
    } else {
      i := m;
    }
  }

  /**
   Over every run: a question waits exactly from being put to a window until the prompt is answered, its
   transfer ends, the window goes or another takes over, or the transfer is asked about again or given up.
   */
  lemma WaitsExactly(unattended: bool, es: seq<Event>, q: R.Question)
    ensures R.Waits(Run(unattended, es).approval, q) <==> exists i: nat :: WaitsSince(unattended, es, i, |es|, q)
  {
    var n := |es|;
    assert es[..n] == es;
    InvAt(unattended, es, n);
    if R.Waits(At(unattended, es, n).approval, q) {
      var i := WasAskedAt(unattended, es, n, q);
      WaitsFrom(unattended, es, i, n, q);
    }
    forall i: nat | WaitsSince(unattended, es, i, n, q)
      ensures R.Waits(At(unattended, es, n).approval, q)
    {
      WaitsFrom(unattended, es, i, n, q);
    }
  }

  // ---- which window is asked ------------------------------------------------------------------

  /** How many windows have connected. */
  function Connections(es: seq<Event>): nat {
    if es == [] then 0 else Connections(es[..|es| - 1]) + if es[|es| - 1].Connect? then 1 else 0
  }

  /** The last of them has not gone for good. */
  predicate LastStays(es: seq<Event>) {
    if es == [] then false
    else
      var front, e := es[..|es| - 1], es[|es| - 1];
      e.Connect? || (LastStays(front) && !(e.Leave? && e.detaches && R.EpochOf(e.session + 1) == R.EpochOf(Connections(front))))
  }

  lemma ProviderStep(s: System, e: Event)
    requires R.Inv(s.approval)
    ensures var s' := Step(s, e);
            && |s'.prompts| == |s.prompts| + (if e.Connect? then 1 else 0) && |s'.inHand| == |s.inHand| + (if e.Connect? then 1 else 0)
            && |s'.approval.channels| == |s.approval.channels| + (if e.Connect? then 1 else 0)
            && s'.approval.provider == (if e.Connect? then Some(|s.approval.channels|)
                                        else if e.Leave? && e.detaches && R.EpochOf(e.session + 1) == s.approval.epoch then None
                                        else s.approval.provider)
  {
    SeamOfStep(s, e);
    var xs := SeamOf(s, e);
    if |xs| >= 1 {
      R.ProviderStep(s.approval, xs[0], 0);
      R.StepKeepsInv(s.approval, xs[0]);
      if |xs| == 2 {
        LeaveKeepsEpoch(s.approval, e.session);
        R.ProviderStep(R.Step(s.approval, xs[0]), xs[1], 0);
      }
    }
  }

  lemma LeaveKeepsEpoch(a: R.Approval, k: nat)
    ensures R.Step(a, R.StopListening(k)).epoch == a.epoch
  {
  }

  ghost predicate AsksLast(s: System, n: nat, stays: bool) {
    && |s.prompts| == |s.inHand| == |s.approval.channels| == n
    && s.approval.epoch == R.EpochOf(n) && (stays ==> n > 0)
    && s.approval.provider == if stays then Some(n - 1) else None
  }

  lemma AsksLastStep(s: System, e: Event, n: nat, stays: bool)
    requires R.Inv(s.approval) && AsksLast(s, n, stays)
    ensures AsksLast(Step(s, e), n + (if e.Connect? then 1 else 0),
                     e.Connect? || (stays && !(e.Leave? && e.detaches && R.EpochOf(e.session + 1) == R.EpochOf(n))))
  {
    ProviderStep(s, e);
    EpochStep(s, e);
  }

  lemma EpochStep(s: System, e: Event)
    requires R.Inv(s.approval)
    ensures Step(s, e).approval.epoch == R.EpochOf(|Step(s, e).approval.channels|)
  {
    SeamOfStep(s, e);
    var xs := SeamOf(s, e);
    if |xs| >= 1 {
      R.StepKeepsInv(s.approval, xs[0]);
      if |xs| == 2 {
        R.StepKeepsInv(R.Step(s.approval, xs[0]), xs[1]);
      }
    }
  }

  /** Over every run: files are asked of the window that connected last, and of none if that one has gone. */
  lemma {:induction false} AskedWindow(unattended: bool, es: seq<Event>)
    ensures AsksLast(Run(unattended, es), Connections(es), LastStays(es))
  {
    if es != [] {
      var front := es[..|es| - 1];
      AskedWindow(unattended, front);
      RunShowsFirst(unattended, front);
      AsksLastStep(Run(unattended, front), es[|es| - 1], Connections(front), LastStays(front));
    }
  }
}
