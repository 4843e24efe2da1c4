/**
 The approval seam and the control sessions in front of it.

 Each attachment is a control session with the set of prompts it has on screen. Sessions come and go,
 with or without detaching, while questions are asked, answered, withdrawn and dropped.
 */
module ApprovalSessions {
  import opened Prelude
  import R = ApprovalRules

  datatype Out =
    | Shown(session: nat, transfer: R.TransferId)
    | Decided(session: nat, transfer: R.TransferId)
    | Withdrawn(session: nat, transfer: R.TransferId)

  /** `inHand` is an offer a session has taken off its queue and not shown yet: it asks whether the transfer lives. */
  datatype System = System(approval: R.Approval, prompts: seq<set<R.TransferId>>, inHand: seq<Option<R.TransferId>>, log: seq<Out>)

  /** Nothing stops a session that left from taking more steps: what is proved does not need that. */
  datatype Event =
    | AskAbout(question: R.Question, offer: R.Offer)
    | Connect
    | Fetch(session: nat)
    | Prompt(session: nat, live: bool)
    | Answer(session: nat, transfer: R.TransferId, accept: bool)
    | Settle(session: nat, transfer: R.TransferId)
    | Leave(session: nat, detaches: bool)
    | Return(question: R.Question)
    | TimeOut(question: R.Question)

  function Initial(unattended: bool): System {
    System(R.Initial(unattended), [], [], [])
  }

  predicate Has(s: System, k: nat, t: R.TransferId) {
    k < |s.prompts| && t in s.prompts[k]
  }

  predicate InHand(s: System, k: nat, t: R.TransferId) {
    k < |s.inHand| && s.inHand[k] == Some(t)
  }

  /** The session's one task is at its `select`, and not between taking an offer and showing it. */
  predicate AtRest(s: System, k: nat) {
    k < |s.prompts| && k < |s.inHand| && s.inHand[k] == None
  }

  function Step(s: System, e: Event): System {
    match e
    case AskAbout(q, offer) => s.(approval := R.Step(s.approval, R.Ask(q, offer)))
    case Connect => s.(approval := R.Step(s.approval, R.Attach), prompts := s.prompts + [{}], inHand := s.inHand + [None])
    case Fetch(k) =>
      if !AtRest(s, k) || k >= |s.approval.channels| || s.approval.channels[k].queue == [] then s
      else s.(approval := R.Step(s.approval, R.Take(k)), inHand := s.inHand[k := Some(s.approval.channels[k].queue[0].transfer)])
    case Prompt(k, live) =>
      if k >= |s.prompts| || k >= |s.inHand| || s.inHand[k].None? then s
      else
        var t := s.inHand[k].value;
        var s1 := s.(inHand := s.inHand[k := None]);
        if !live then s1.(approval := R.Step(s.approval, R.Withdraw(t)))
        else s1.(prompts := s.prompts[k := s.prompts[k] + {t}], log := s.log + [Shown(k, t)])
    case Answer(k, t, accept) =>
      if !AtRest(s, k) || !Has(s, k, t) then s
      else
        s.(approval := R.Step(s.approval, R.Decide(t, accept)), prompts := s.prompts[k := s.prompts[k] - {t}], log := s.log + [Decided(k, t)])
    case Settle(k, t) =>
      if !AtRest(s, k) || !Has(s, k, t) then s
      else
        s.(approval := R.Step(s.approval, R.Withdraw(t)), prompts := s.prompts[k := s.prompts[k] - {t}], log := s.log + [Withdrawn(k, t)])
    case Leave(k, detaches) =>
      var stopped := R.Step(s.approval, R.StopListening(k));
      s.(approval := if detaches then R.Step(stopped, R.Detach(R.EpochOf(k + 1))) else stopped)
    case Return(q) => s.(approval := R.Step(s.approval, R.Resume(q)))
    case TimeOut(q) => s.(approval := R.Step(s.approval, R.Cancel(q)))
  }

  function Run(unattended: bool, es: seq<Event>): System {
    if es == [] then Initial(unattended) else Step(Run(unattended, es[..|es| - 1]), es[|es| - 1])
  }

  function Count(log: seq<Out>, o: Out): nat {
    if log == [] then 0 else Count(log[..|log| - 1], o) + (if log[|log| - 1] == o then 1 else 0)
  }

  lemma CountAppend(log: seq<Out>, o: Out)
    ensures forall x :: Count(log + [o], x) == Count(log, x) + (if x == o then 1 else 0)
  {
    assert (log + [o])[..|log|] == log;
  }

  lemma {:induction false} Counted(log: seq<Out>, o: Out)
    ensures Count(log, o) > 0 <==> o in log
  {
    if log != [] {
      Counted(log[..|log| - 1], o);
      assert log == log[..|log| - 1] + [log[|log| - 1]];
    }
  }

  // ---- one ending a prompt --------------------------------------------------------------------

  /** Endings so far, and the prompt if it is still up, against the times it was put up. */
  ghost predicate Balanced(s: System) {
    forall k: nat, t :: Count(s.log, Decided(k, t)) + Count(s.log, Withdrawn(k, t)) + (if Has(s, k, t) then 1 else 0)
                        <= Count(s.log, Shown(k, t))
  }

  lemma StepKeepsBalance(s: System, e: Event)
    requires Balanced(s)
    ensures Balanced(Step(s, e))
  {
    var s' := Step(s, e);
    if s'.log != s.log {
      CountAppend(s.log, s'.log[|s.log|]);
    }
    forall k: nat, t
      ensures Count(s'.log, Decided(k, t)) + Count(s'.log, Withdrawn(k, t)) + (if Has(s', k, t) then 1 else 0)
              <= Count(s'.log, Shown(k, t))
    {
      assert Count(s.log, Decided(k, t)) + Count(s.log, Withdrawn(k, t)) + (if Has(s, k, t) then 1 else 0)
             <= Count(s.log, Shown(k, t));
    }
  }

  /** Over every run, a session ends a prompt at most as often as it put it up. */
  lemma {:induction false} PromptsBalance(unattended: bool, es: seq<Event>)
    ensures Balanced(Run(unattended, es))
  {
    if es != [] {
      PromptsBalance(unattended, es[..|es| - 1]);
      StepKeepsBalance(Run(unattended, es[..|es| - 1]), es[|es| - 1]);
    }
  }

  // ---- a yes was seen by a human's screen first -----------------------------------------------

  ghost predicate OnScreen(s: System, t: R.TransferId) {
    exists k: nat :: Shown(k, t) in s.log
  }

  /** Whatever was answered, or accepted, was on some provider's screen before. */
  ghost predicate ShownFirst(s: System) {
    && R.Inv(s.approval)
    && (forall q :: q in s.approval.replies && s.approval.replies[q].Answered? ==> OnScreen(s, s.approval.asked[q].transfer))
    && (!s.approval.unattended ==>
          forall q :: q in s.approval.results && s.approval.results[q] ==> OnScreen(s, s.approval.asked[q].transfer))
  }

  lemma StillOnScreen(s: System, e: Event, t: R.TransferId)
    requires OnScreen(s, t)
    ensures OnScreen(Step(s, e), t)
  {
    var k: nat :| Shown(k, t) in s.log;
    assert Shown(k, t) in Step(s, e).log;
  }

  lemma AskedStays(a: R.Approval, e: R.Event, q: R.Question)
    requires q in a.asked
    ensures q in R.Step(a, e).asked && R.Step(a, e).asked[q] == a.asked[q]
  {
  }

  /** What one event of the seam can add to its answers: nothing but a decision on a pending entry. */
  lemma AnswersGrow(a: R.Approval, e: R.Event, q: R.Question)
    requires R.Inv(a)
    requires q in R.Step(a, e).replies && R.Step(a, e).replies[q].Answered?
    ensures q in a.asked
    ensures (q in a.replies && a.replies[q].Answered?) || (e.Decide? && a.asked[q].transfer == e.transfer)
  {
  }

  lemma ResultsGrow(a: R.Approval, e: R.Event, q: R.Question)
    requires R.Inv(a) && !a.unattended
    requires q in R.Step(a, e).results && R.Step(a, e).results[q]
    ensures q in a.asked
    ensures (q in a.results && a.results[q]) || (q in a.replies && a.replies[q].Answered?)
  {
  }

  /** Two events of the seam in a row that are no decisions. */
  lemma SeamStep(s: System, a: R.Approval, e: R.Event, s': System)
    requires ShownFirst(s.(approval := a)) && s'.approval == R.Step(a, e)
    requires forall t :: OnScreen(s, t) ==> OnScreen(s', t)
    requires e.Decide? ==> OnScreen(s, e.transfer)
    ensures ShownFirst(s')
  {
    R.StepKeepsInv(a, e);
    R.AttendanceStep(a, e);
    var s0 := s.(approval := a);
    assert forall t :: OnScreen(s0, t) <==> OnScreen(s, t);
    forall q | q in s'.approval.replies && s'.approval.replies[q].Answered?
      ensures OnScreen(s', s'.approval.asked[q].transfer)
    {
      AnswersGrow(a, e, q);
      AskedStays(a, e, q);
    }
    if !a.unattended {
      forall q | q in s'.approval.results && s'.approval.results[q]
        ensures OnScreen(s', s'.approval.asked[q].transfer)
      {
        ResultsGrow(a, e, q);
        AskedStays(a, e, q);
      }
    }
  }

  lemma SameSeam(s: System, s': System)
    requires ShownFirst(s) && s'.approval == s.approval
    requires forall t :: OnScreen(s, t) ==> OnScreen(s', t)
    ensures ShownFirst(s')
  {
  }

  lemma StepKeepsShownFirst(s: System, e: Event)
    requires ShownFirst(s) && Balanced(s)
    ensures ShownFirst(Step(s, e))
  {
    var s' := Step(s, e);
    forall t | OnScreen(s, t)
      ensures OnScreen(s', t)
    {
      StillOnScreen(s, e, t);
    }
    match e
    case AskAbout(q, offer) => SeamStep(s, s.approval, R.Ask(q, offer), s');
    case Connect => SeamStep(s, s.approval, R.Attach, s');
    case Fetch(k) =>
      if s' != s {
        SeamStep(s, s.approval, R.Take(k), s');
      }
    case Prompt(k, live) =>
      if s' != s && !live {
        SeamStep(s, s.approval, R.Withdraw(s.inHand[k].value), s');
      } else {
        SameSeam(s, s');
      }
    case Answer(k, t, accept) =>
      if s' != s {
        Counted(s.log, Shown(k, t));
        SeamStep(s, s.approval, R.Decide(t, accept), s');
      }
    case Settle(k, t) =>
      if s' != s {
        SeamStep(s, s.approval, R.Withdraw(t), s');
      }
    case Leave(k, detaches) =>
      var mid := s.(approval := R.Step(s.approval, R.StopListening(k)));
      SeamStep(s, s.approval, R.StopListening(k), mid);
      if detaches {
        SeamStep(mid, mid.approval, R.Detach(R.EpochOf(k + 1)), s');
      }
    case Return(q) => SeamStep(s, s.approval, R.Resume(q), s');
    case TimeOut(q) => SeamStep(s, s.approval, R.Cancel(q), s');
  }

  lemma {:induction false} RunShowsFirst(unattended: bool, es: seq<Event>)
    ensures ShownFirst(Run(unattended, es))
  {
    if es != [] {
      RunShowsFirst(unattended, es[..|es| - 1]);
      PromptsBalance(unattended, es[..|es| - 1]);
      StepKeepsShownFirst(Run(unattended, es[..|es| - 1]), es[|es| - 1]);
    }
  }

  /** Over every run of an attended daemon, a file is accepted only if its offer was on a screen. */
  lemma AcceptedWasShown(es: seq<Event>, q: R.Question)
    requires var s := Run(false, es); q in s.approval.results && s.approval.results[q]
    ensures var s := Run(false, es); q in s.approval.asked && exists k: nat :: Shown(k, s.approval.asked[q].transfer) in s.log
  {
    RunShowsFirst(false, es);
    RunIsAttended(es);
    var s := Run(false, es);
    assert OnScreen(s, s.approval.asked[q].transfer);
  }

  lemma {:induction false} RunIsAttended(es: seq<Event>)
    ensures !Run(false, es).approval.unattended
  {
    if es != [] {
      RunIsAttended(es[..|es| - 1]);
      StepIsAttended(Run(false, es[..|es| - 1]), es[|es| - 1]);
    }
  }

  lemma StepIsAttended(s: System, e: Event)
    ensures Step(s, e).approval.unattended == s.approval.unattended
  {
    forall a: R.Approval, x: R.Event
      ensures R.Step(a, x).unattended == a.unattended
    {
      R.AttendanceStep(a, x);
    }
  }

  // ---- one prompt a transfer ------------------------------------------------------------------

  ghost predicate AskedBefore(s: System, t: R.TransferId) {
    exists q :: q in s.approval.asked && s.approval.asked[q].transfer == t
  }

  ghost predicate IsQueued(s: System, k: nat, i: nat, t: R.TransferId) {
    k < |s.approval.channels| && i < |s.approval.channels[k].queue| && s.approval.channels[k].queue[i].transfer == t
  }

  /** A transfer is in one place of one queue, in one hand, or on the log once, and in one of the three only. */
  ghost predicate OnePlace(s: System) {
    && (forall k: nat, i: nat, t :: IsQueued(s, k, i, t) ==> AskedBefore(s, t) && !OnScreen(s, t))
    && (forall k: nat, i: nat, k': nat, i': nat, t :: IsQueued(s, k, i, t) && IsQueued(s, k', i', t) ==> k == k' && i == i')
    && (forall k: nat, t :: InHand(s, k, t) ==> AskedBefore(s, t) && !OnScreen(s, t))
    && (forall k: nat, k': nat, t :: InHand(s, k, t) && InHand(s, k', t) ==> k == k')
    && (forall k: nat, k': nat, i: nat, t :: InHand(s, k, t) ==> !IsQueued(s, k', i, t))
    && (forall k: nat, t :: Shown(k, t) in s.log ==> AskedBefore(s, t) && Count(s.log, Shown(k, t)) == 1)
    && (forall k: nat, k': nat, t :: Shown(k, t) in s.log && Shown(k', t) in s.log ==> k == k')
  }

  /** No earlier question was about the transfer of this one. */
  ghost predicate FreshTransfer(s: System, e: Event) {
    e.AskAbout? ==> !AskedBefore(s, e.offer.transfer)
  }

  /** A step that queues nothing new and shows nothing. */
  lemma QuietKeepsOnePlace(s: System, s': System)
    requires OnePlace(s)
    requires forall q :: q in s.approval.asked ==> q in s'.approval.asked && s'.approval.asked[q] == s.approval.asked[q]
    requires forall k: nat, i: nat, t :: IsQueued(s', k, i, t) ==> IsQueued(s, k, i, t)
    requires forall k: nat, t :: InHand(s', k, t) ==> InHand(s, k, t)
    requires forall k: nat, t :: Shown(k, t) in s'.log <==> Shown(k, t) in s.log
    requires forall k: nat, t :: Count(s'.log, Shown(k, t)) == Count(s.log, Shown(k, t))
    ensures OnePlace(s')
  {
    forall t | AskedBefore(s, t)
      ensures AskedBefore(s', t)
    {
      var q :| q in s.approval.asked && s.approval.asked[q].transfer == t;
      assert q in s'.approval.asked;
    }
    assert forall t :: OnScreen(s', t) ==> OnScreen(s, t);
  }

  /** A fresh transfer at the end of one queue. */
  lemma QueueKeepsOnePlace(s: System, s': System, at: nat, offer: R.Offer)
    requires OnePlace(s) && !AskedBefore(s, offer.transfer) && AskedBefore(s', offer.transfer)
    requires forall q :: q in s.approval.asked ==> q in s'.approval.asked && s'.approval.asked[q] == s.approval.asked[q]
    requires s'.log == s.log && s'.inHand == s.inHand && at < |s.approval.channels|
    requires |s'.approval.channels| == |s.approval.channels|
    requires s'.approval.channels == s.approval.channels[at := s'.approval.channels[at]]
    requires s'.approval.channels[at].queue == s.approval.channels[at].queue + [offer]
    ensures OnePlace(s')
  {
    forall t | AskedBefore(s, t)
      ensures AskedBefore(s', t)
    {
      var q :| q in s.approval.asked && s.approval.asked[q].transfer == t;
      assert q in s'.approval.asked;
    }
    assert forall t :: OnScreen(s', t) <==> OnScreen(s, t);
    assert forall k: nat, t :: InHand(s', k, t) ==> InHand(s, k, t);
    var n := |s.approval.channels[at].queue|;
    forall k: nat, i: nat, t | IsQueued(s', k, i, t)
      ensures IsQueued(s, k, i, t) || (k == at && i == n && t == offer.transfer)
    {
    }
  }

  /** Where an entry of a queue was before the head of queue `at` left. */
  function Shifted(at: nat, k: nat, i: nat): nat {
    if k == at then i + 1 else i
  }

  lemma ShiftedQueue(s: System, s': System, at: nat, k: nat, i: nat, t: R.TransferId)
    requires at < |s.approval.channels| && s.approval.channels[at].queue != []
    requires |s'.approval.channels| == |s.approval.channels|
    requires s'.approval.channels == s.approval.channels[at := s'.approval.channels[at]]
    requires s'.approval.channels[at].queue == s.approval.channels[at].queue[1..]
    ensures IsQueued(s', k, i, t) <==> IsQueued(s, k, Shifted(at, k, i), t)
  {
  }

  /** The head of a queue comes into the hand of its session. */
  lemma FetchKeepsOnePlace(s: System, s': System, at: nat)
    requires OnePlace(s) && at < |s.approval.channels| && s.approval.channels[at].queue != [] && AtRest(s, at)
    requires s'.approval.asked == s.approval.asked && s'.log == s.log
    requires |s'.approval.channels| == |s.approval.channels|
    requires s'.approval.channels == s.approval.channels[at := s'.approval.channels[at]]
    requires s'.approval.channels[at].queue == s.approval.channels[at].queue[1..]
    requires s'.inHand == s.inHand[at := Some(s.approval.channels[at].queue[0].transfer)]
    ensures OnePlace(s')
  {
    var taken := s.approval.channels[at].queue[0].transfer;
    assert IsQueued(s, at, 0, taken);
    assert forall t :: AskedBefore(s', t) <==> AskedBefore(s, t);
    assert forall t :: OnScreen(s', t) <==> OnScreen(s, t);
    forall k: nat, i: nat, t | IsQueued(s', k, i, t)
      ensures IsQueued(s, k, Shifted(at, k, i), t) && t != taken
    {
      ShiftedQueue(s, s', at, k, i, t);
    }
    forall k: nat, t | InHand(s', k, t)
      ensures InHand(s, k, t) || (k == at && t == taken)
    {
    }
  }

  /** What was in a hand is put on the screen of its session, or dropped. */
  lemma ShowKeepsOnePlace(s: System, s': System, at: nat, live: bool)
    requires OnePlace(s) && at < |s.inHand| && s.inHand[at].Some?
    requires s'.approval.asked == s.approval.asked && s'.approval.channels == s.approval.channels
    requires s'.inHand == s.inHand[at := None]
    requires s'.log == if live then s.log + [Shown(at, s.inHand[at].value)] else s.log
    ensures OnePlace(s')
  {
    var shown := s.inHand[at].value;
    assert InHand(s, at, shown);
    CountAppend(s.log, Shown(at, shown));
    Counted(s.log, Shown(at, shown));
    assert forall t :: AskedBefore(s', t) <==> AskedBefore(s, t);
    assert forall k: nat, i: nat, t :: IsQueued(s', k, i, t) <==> IsQueued(s, k, i, t);
    forall k: nat, t | InHand(s', k, t)
      ensures InHand(s, k, t) && t != shown
    {
      assert k != at && InHand(s, k, t);
    }
    forall t | OnScreen(s', t)
      ensures OnScreen(s, t) || t == shown
    {
      var k: nat :| Shown(k, t) in s'.log;
    }
  }

  lemma SeamLeavesQueues(a: R.Approval, e: R.Event)
    requires !e.Ask? && !e.Attach? && !e.Take? && !e.StopListening?
    ensures R.Step(a, e).channels == a.channels && R.Step(a, e).asked == a.asked
  {
  }

  lemma AskKeepsOnePlace(s: System, q: R.Question, offer: R.Offer)
    requires OnePlace(s) && !AskedBefore(s, offer.transfer)
    ensures OnePlace(Step(s, AskAbout(q, offer)))
  {
    var s' := Step(s, AskAbout(q, offer));
    if q !in s.approval.asked {
      assert q in s'.approval.asked && s'.approval.asked[q].transfer == offer.transfer;
      if s'.approval.channels == s.approval.channels {
        QuietKeepsOnePlace(s, s');
      } else {
        QueueKeepsOnePlace(s, s', s.approval.provider.value, offer);
      }
    }
  }

  lemma LogOnly(s: System, s': System, o: Out)
    requires s'.log == s.log + [o] && !o.Shown?
    ensures forall k: nat, t :: Shown(k, t) in s'.log <==> Shown(k, t) in s.log
    ensures forall k: nat, t :: Count(s'.log, Shown(k, t)) == Count(s.log, Shown(k, t))
  {
    CountAppend(s.log, o);
  }

  /** An answer or a withdrawal, on the seam and on the log. */
  lemma EndingKeepsOnePlace(s: System, e: Event)
    requires OnePlace(s) && (e.Answer? || e.Settle?)
    ensures OnePlace(Step(s, e))
  {
    var s' := Step(s, e);
    if s' != s {
      var x := if e.Answer? then R.Decide(e.transfer, e.accept) else R.Withdraw(e.transfer);
      SeamLeavesQueues(s.approval, x);
      LogOnly(s, s', if e.Answer? then Decided(e.session, e.transfer) else Withdrawn(e.session, e.transfer));
      QuietKeepsOnePlace(s, s');
    }
  }

  /** A step of the seam that no queue, hand or log takes part in. */
  lemma SeamKeepsOnePlace(s: System, x: R.Event)
    requires OnePlace(s) && (x.Resume? || x.Cancel? || x.StopListening? || x.Detach?)
    ensures OnePlace(s.(approval := R.Step(s.approval, x)))
  {
    var s' := s.(approval := R.Step(s.approval, x));
    if !x.StopListening? {
      SeamLeavesQueues(s.approval, x);
    }
    QuietKeepsOnePlace(s, s');
  }

  lemma LeaveKeepsOnePlace(s: System, k: nat, detaches: bool)
    requires OnePlace(s)
    ensures OnePlace(Step(s, Leave(k, detaches)))
  {
    SeamKeepsOnePlace(s, R.StopListening(k));
    if detaches {
      SeamKeepsOnePlace(s.(approval := R.Step(s.approval, R.StopListening(k))), R.Detach(R.EpochOf(k + 1)));
    }
  }

  lemma PromptKeepsOnePlace(s: System, k: nat, live: bool)
    requires OnePlace(s)
    ensures OnePlace(Step(s, Prompt(k, live)))
  {
    var s' := Step(s, Prompt(k, live));
    if s' != s {
      SeamLeavesQueues(s.approval, R.Withdraw(s.inHand[k].value));
      ShowKeepsOnePlace(s, s', k, live);
    }
  }

  lemma StepKeepsOnePlace(s: System, e: Event)
    requires OnePlace(s) && FreshTransfer(s, e)
    ensures OnePlace(Step(s, e))
  {
    var s' := Step(s, e);
    match e
    case AskAbout(q, offer) => AskKeepsOnePlace(s, q, offer);
    case Connect => QuietKeepsOnePlace(s, s');
    case Fetch(k) =>
      if s' != s {
        FetchKeepsOnePlace(s, s', k);
      }
    case Prompt(k, live) => PromptKeepsOnePlace(s, k, live);
    case Answer(_, _, _) => EndingKeepsOnePlace(s, e);
    case Settle(_, _) => EndingKeepsOnePlace(s, e);
    case Leave(k, detaches) => LeaveKeepsOnePlace(s, k, detaches);
    case Return(q) => SeamKeepsOnePlace(s, R.Resume(q));
    case TimeOut(q) => SeamKeepsOnePlace(s, R.Cancel(q));
  }

  ghost predicate EachAskedOnce(unattended: bool, es: seq<Event>) {
    forall i :: 0 <= i < |es| ==> FreshTransfer(Run(unattended, es[..i]), es[i])
  }

  lemma {:induction false} RunKeepsOnePlace(unattended: bool, es: seq<Event>)
    requires EachAskedOnce(unattended, es)
    ensures OnePlace(Run(unattended, es))
  {
    if es != [] {
      var front := es[..|es| - 1];
      assert forall i :: 0 <= i < |front| ==> front[..i] == es[..i];
      RunKeepsOnePlace(unattended, front);
      StepKeepsOnePlace(Run(unattended, front), es[|es| - 1]);
    }
  }

  /**
   If each transfer is asked about once, its offer is put up at most once, on one screen, and gets at
   most one ending there: a decision or a withdrawal, never both and never twice.
   */
  lemma OneEndingAPrompt(unattended: bool, es: seq<Event>, k: nat, t: R.TransferId)
    requires EachAskedOnce(unattended, es)
    ensures var log := Run(unattended, es).log;
            Count(log, Decided(k, t)) + Count(log, Withdrawn(k, t)) <= Count(log, Shown(k, t)) <= 1
    ensures var log := Run(unattended, es).log;
            forall k': nat :: Shown(k, t) in log && Shown(k', t) in log ==> k == k'
  {
    RunKeepsOnePlace(unattended, es);
    PromptsBalance(unattended, es);
    Counted(Run(unattended, es).log, Shown(k, t));
  }
}
