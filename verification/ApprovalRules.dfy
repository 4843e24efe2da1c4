/**
 The rendezvous between an incoming file and a human, as a protocol.

 A question is one call of `confirm_receive`. It is in three parts, because it waits in the middle:
 `Ask` puts it, `Resume` returns its answer, `Cancel` is its future being dropped by a timeout. Every
 other event may come between, from any task, in any order.
 */
module ApprovalRules {
  import opened Prelude
  import opened Pairing

  type TransferId = Bytes
  type Question = nat

  const PROVIDER_QUEUE := 32
  const EPOCHS := 0x1_0000_0000_0000_0000

  datatype Offer = Offer(transfer: TransferId, peer: Fingerprint)

  /** The entry of the map: who asked, and which question's answer channel it holds. */
  datatype Pending = Pending(peer: Fingerprint, question: Question)

  /** The answer channel of a question, seen from its receiving end. */
  datatype Reply = Waiting | Answered(accept: bool) | Dropped

  /** A provider's queue: what it has not taken yet, and whether it still listens. */
  datatype Channel = Channel(queue: seq<Offer>, listening: bool)

  datatype Approval = Approval(
    unattended: bool,
    provider: Option<nat>,
    epoch: nat,
    pending: map<TransferId, Pending>,
    channels: seq<Channel>,
    replies: map<Question, Reply>,
    asked: map<Question, Offer>,
    queuedTo: map<Question, nat>,
    results: map<Question, bool>)

  function Initial(unattended: bool): Approval {
    Approval(unattended, None, 0, map[], [], map[], map[], map[], map[])
  }

  datatype Event =
    | Ask(question: Question, offer: Offer)
    | Attach
    | Detach(epoch: nat)
    | Decide(transfer: TransferId, accept: bool)
    | Withdraw(transfer: TransferId)
    | Resume(question: Question)
    | Cancel(question: Question)
    | Take(provider: nat)
    | StopListening(provider: nat)

  // ---- one event ------------------------------------------------------------------------------

  /** Dropping an answer channel declines; one that was answered already stays answered. */
  function DropAll(replies: map<Question, Reply>, pending: map<TransferId, Pending>): map<Question, Reply> {
    map q | q in replies :: if exists t :: t in pending && pending[t].question == q then Dropped else replies[q]
  }

  function DropOne(s: Approval, t: TransferId): map<Question, Reply> {
    if t in s.pending then s.replies[s.pending[t].question := Dropped] else s.replies
  }

  function DoWithdraw(s: Approval, t: TransferId): Approval {
    s.(pending := s.pending - {t}, replies := DropOne(s, t))
  }

  /** The end of a question: its guard takes whatever is pending under its transfer along. */
  function Finish(s: Approval, q: Question, result: bool): Approval
    requires q in s.asked
  {
    DoWithdraw(s, s.asked[q].transfer).(results := s.results[q := result])
  }

  function DoAsk(s: Approval, q: Question, offer: Offer): Approval {
    var s1 := s.(asked := s.asked[q := offer]);
    if s.unattended then s1.(results := s.results[q := true])
    else if s.provider.None? || s.provider.value >= |s.channels| then s1.(results := s.results[q := false])
    else
      var k := s.provider.value;
      var channel := s.channels[k];
      if !channel.listening || |channel.queue| >= PROVIDER_QUEUE then s1.(results := s.results[q := false])
      else
        s1.(channels := s.channels[k := channel.(queue := channel.queue + [offer])],
            replies := DropOne(s, offer.transfer)[q := Waiting],
            pending := s.pending[offer.transfer := Pending(offer.peer, q)],
            queuedTo := s.queuedTo[q := k])
  }

  function Step(s: Approval, e: Event): Approval {
    match e
    case Ask(q, offer) => if q in s.asked then s else DoAsk(s, q, offer)
    case Attach =>
      s.(epoch := (s.epoch + 1) % EPOCHS,
         provider := Some(|s.channels|),
         channels := s.channels + [Channel([], true)],
         replies := DropAll(s.replies, s.pending),
         pending := map[])
    case Detach(epoch) =>
      if epoch != s.epoch then s
      else s.(provider := None, replies := DropAll(s.replies, s.pending), pending := map[])
    case Decide(t, accept) =>
      if t !in s.pending then s
      else s.(pending := s.pending - {t}, replies := s.replies[s.pending[t].question := Answered(accept)])
    case Withdraw(t) => DoWithdraw(s, t)
    case Resume(q) =>
      if q !in s.replies || q !in s.asked || q in s.results || s.replies[q].Waiting? then s
      else Finish(s, q, s.replies[q].Answered? && s.replies[q].accept)
    case Cancel(q) =>
      if q !in s.replies || q !in s.asked || q in s.results then s else Finish(s, q, false)
    case Take(k) =>
      if k >= |s.channels| || s.channels[k].queue == [] then s
      else s.(channels := s.channels[k := s.channels[k].(queue := s.channels[k].queue[1..])])
    case StopListening(k) =>
      if k >= |s.channels| then s else s.(channels := s.channels[k := s.channels[k].(listening := false)])
  }

  function Run(unattended: bool, es: seq<Event>): Approval {
    if es == [] then Initial(unattended) else Step(Run(unattended, es[..|es| - 1]), es[|es| - 1])
  }

  // ---- what every reachable state satisfies ---------------------------------------------------

  /**
   A question that waits is the one pending under its transfer, was queued to the provider that is
   attached now, and has no result; nothing is pending without a provider.
   */
  ghost predicate Inv(s: Approval) {
    && (forall t :: t in s.pending ==>
          var q := s.pending[t].question;
          && q in s.asked && s.asked[q] == Offer(t, s.pending[t].peer)
          && q in s.replies && s.replies[q] == Waiting && q !in s.results
          && q in s.queuedTo && s.provider == Some(s.queuedTo[q]))
    && (forall q :: q in s.replies && s.replies[q] == Waiting ==>
          q in s.asked && s.asked[q].transfer in s.pending && s.pending[s.asked[q].transfer].question == q)
    && s.replies.Keys <= s.asked.Keys && s.results.Keys <= s.asked.Keys
    && (s.provider.Some? ==> s.provider.value == |s.channels| - 1)
    && s.epoch == |s.channels| % EPOCHS
    && (s.unattended ==> s.replies == map[])
  }

  lemma WithdrawKeepsInv(s: Approval, t: TransferId)
    requires Inv(s)
    ensures Inv(DoWithdraw(s, t)) && t !in DoWithdraw(s, t).pending
  {
  }

  lemma RefusedKeepsInv(s: Approval, q: Question, offer: Offer, result: bool)
    requires Inv(s) && q !in s.asked
    ensures Inv(s.(asked := s.asked[q := offer], results := s.results[q := result]))
  {
  }

  /** A question queued to the provider, nothing being pending under its transfer. */
  function Queued(s: Approval, q: Question, offer: Offer, channels: seq<Channel>): Approval
    requires s.provider.Some?
  {
    s.(asked := s.asked[q := offer],
       channels := channels,
       replies := s.replies[q := Waiting],
       pending := s.pending[offer.transfer := Pending(offer.peer, q)],
       queuedTo := s.queuedTo[q := s.provider.value])
  }

  lemma QueueKeepsInv(s: Approval, q: Question, offer: Offer, channels: seq<Channel>)
    requires Inv(s) && q !in s.asked && offer.transfer !in s.pending && s.provider.Some? && !s.unattended
    requires |channels| == |s.channels|
    ensures Inv(Queued(s, q, offer, channels))
  {
  }

  /** A queued question displaces an entry under the same transfer as if that had been withdrawn first. */
  lemma QueuedAfterWithdraw(s: Approval, q: Question, offer: Offer)
    requires q !in s.results && q !in DoAsk(s, q, offer).results
    ensures s.provider.Some? && !s.unattended && |DoAsk(s, q, offer).channels| == |s.channels|
    ensures DoAsk(s, q, offer) == Queued(DoWithdraw(s, offer.transfer), q, offer, DoAsk(s, q, offer).channels)
  {
    assert s.pending[offer.transfer := Pending(offer.peer, q)] == (s.pending - {offer.transfer})[offer.transfer := Pending(offer.peer, q)];
  }

  lemma AskKeepsInv(s: Approval, q: Question, offer: Offer)
    requires Inv(s)
    ensures Inv(Step(s, Ask(q, offer)))
  {
    if q !in s.asked {
      var s' := DoAsk(s, q, offer);
      if q in s'.results {
        assert s'.pending == s.pending;
        RefusedKeepsInv(s, q, offer, s'.results[q]);
      } else {
        WithdrawKeepsInv(s, offer.transfer);
        QueuedAfterWithdraw(s, q, offer);
        QueueKeepsInv(DoWithdraw(s, offer.transfer), q, offer, s'.channels);
      }
    }
  }

  lemma FinishKeepsInv(s: Approval, q: Question, result: bool)
    requires Inv(s) && q in s.asked && q in s.replies
    ensures Inv(Finish(s, q, result))
  {
  }

  lemma ClearKeepsInv(s: Approval, e: Event)
    requires Inv(s) && (e.Attach? || e.Detach?)
    ensures Inv(Step(s, e))
  {
  }

  lemma DecideKeepsInv(s: Approval, t: TransferId, accept: bool)
    requires Inv(s)
    ensures Inv(Step(s, Decide(t, accept)))
  {
  }

  lemma ReturnKeepsInv(s: Approval, e: Event)
    requires Inv(s) && (e.Resume? || e.Cancel?)
    ensures Inv(Step(s, e))
  {
    if Step(s, e) != s {
      FinishKeepsInv(s, e.question, Step(s, e).results[e.question]);
    }
  }

  lemma StepKeepsInv(s: Approval, e: Event)
    requires Inv(s)
    ensures Inv(Step(s, e))
  {
    match e
    case Ask(q, offer) => AskKeepsInv(s, q, offer);
    case Attach => ClearKeepsInv(s, e);
    case Detach(_) => ClearKeepsInv(s, e);
    case Resume(_) => ReturnKeepsInv(s, e);
    case Cancel(_) => ReturnKeepsInv(s, e);
    case Decide(t, accept) => DecideKeepsInv(s, t, accept);
    case Withdraw(t) => WithdrawKeepsInv(s, t);
    case Take(_) =>
    case StopListening(_) =>
  }

  lemma {:induction false} RunKeepsInv(unattended: bool, es: seq<Event>)
    ensures Inv(Run(unattended, es))
  {
    if es != [] {
      RunKeepsInv(unattended, es[..|es| - 1]);
      StepKeepsInv(Run(unattended, es[..|es| - 1]), es[|es| - 1]);
    }
  }

  // ---- soundness ------------------------------------------------------------------------------

  /** Event `i` of a run is a decision, and it takes the entry of question `q` itself. */
  ghost predicate Decides(unattended: bool, es: seq<Event>, i: nat, q: Question, accept: bool) {
    && i < |es| && es[i].Decide? && es[i].accept == accept
    && var s := Run(unattended, es[..i]);
       es[i].transfer in s.pending && s.pending[es[i].transfer].question == q
  }

  /** One event gives a question an answer only by being a decision on its own entry. */
  lemma AnsweredByDecision(s: Approval, e: Event, q: Question)
    requires Inv(s) && q in Step(s, e).replies && Step(s, e).replies[q].Answered?
    requires q !in s.replies || s.replies[q] != Step(s, e).replies[q]
    ensures e.Decide? && e.accept == Step(s, e).replies[q].accept
    ensures e.transfer in s.pending && s.pending[e.transfer].question == q
  {
  }

  ghost predicate Settled(s: Approval, q: Question) {
    q in s.asked && (q in s.replies ==> s.replies[q] != Waiting)
  }

  lemma SettledStep(s: Approval, e: Event, q: Question)
    requires Settled(s, q)
    ensures Settled(Step(s, e), q)
  {
  }

  lemma AttendanceStep(s: Approval, e: Event)
    ensures Step(s, e).unattended == s.unattended
  {
  }

  /** A question that is settled, or asked and never queued, is never waiting again. */
  lemma {:induction false} SettledForGood(unattended: bool, es: seq<Event>, i: nat, q: Question)
    requires i <= |es|
    requires Settled(Run(unattended, es[..i]), q)
    ensures Settled(Run(unattended, es), q)
    decreases |es| - i
  {
    if i == |es| {
      assert es[..i] == es;
    } else {
      assert es[..i + 1][..i] == es[..i];
      SettledStep(Run(unattended, es[..i]), es[i], q);
      SettledForGood(unattended, es, i + 1, q);
    }
  }

  lemma {:induction false} AnswersComeFromDecisions(unattended: bool, es: seq<Event>, q: Question) returns (i: nat)
    requires var s := Run(unattended, es); q in s.replies && s.replies[q].Answered?
    ensures Decides(unattended, es, i, q, Run(unattended, es).replies[q].accept)
  {
    var front, e := es[..|es| - 1], es[|es| - 1];
    var s, s' := Run(unattended, front), Run(unattended, es);
    RunKeepsInv(unattended, front);
    if q in s.replies && s.replies[q] == s'.replies[q] {
      i := AnswersComeFromDecisions(unattended, front, q);
      assert front[..i] == es[..i];
    } else {
      AnsweredByDecision(s, e, q);
      i := |es| - 1;
    }
  }

  /** A decision on a question's entry is the last that can ever reach it. */
  lemma DecidedOnce(unattended: bool, es: seq<Event>, i: nat, j: nat, q: Question, a: bool, b: bool)
    requires Decides(unattended, es, i, q, a) && Decides(unattended, es, j, q, b)
    ensures i == j
  {
    if i < j {
      NoSecondDecision(unattended, es, i, j, q, a);
    } else if j < i {
      NoSecondDecision(unattended, es, j, i, q, b);
    }
  }

  lemma DecisionSettles(s: Approval, e: Event, q: Question)
    requires Inv(s) && e.Decide? && e.transfer in s.pending && s.pending[e.transfer].question == q
    ensures Settled(Step(s, e), q)
  {
  }

  lemma SettledIsNotPending(s: Approval, q: Question, t: TransferId)
    requires Inv(s) && Settled(s, q) && t in s.pending
    ensures s.pending[t].question != q
  {
  }

  lemma SettledFrom(unattended: bool, es: seq<Event>, i: nat, j: nat, q: Question)
    requires i < j <= |es| && Settled(Step(Run(unattended, es[..i]), es[i]), q)
    ensures Settled(Run(unattended, es[..j]), q)
  {
    var h := es[..j];
    var n := h[..i + 1];
    assert n[..i] == es[..i] && n[i] == es[i];
    assert Run(unattended, n) == Step(Run(unattended, n[..i]), n[i]);
    SettledForGood(unattended, h, i + 1, q);
  }

  lemma NoSecondDecision(unattended: bool, es: seq<Event>, i: nat, j: nat, q: Question, a: bool)
    requires Decides(unattended, es, i, q, a) && i < j < |es|
    ensures forall b :: !Decides(unattended, es, j, q, b)
  {
    RunKeepsInv(unattended, es[..i]);
    DecisionSettles(Run(unattended, es[..i]), es[i], q);
    SettledFrom(unattended, es, i, j, q);
    RunKeepsInv(unattended, es[..j]);
    if es[j].Decide? && es[j].transfer in Run(unattended, es[..j]).pending {
      SettledIsNotPending(Run(unattended, es[..j]), q, es[j].transfer);
    }
  }

  /** One event makes a yes only by returning an answer that was a yes. */
  lemma YesByResume(s: Approval, e: Event, q: Question)
    requires Inv(s) && !s.unattended && q in Step(s, e).results && Step(s, e).results[q]
    requires !(q in s.results && s.results[q])
    ensures e == Resume(q) && q in s.replies && s.replies[q] == Answered(true)
  {
  }

  /** The results of questions that were returned along the way, and what they came from. */
  lemma {:induction false} YesComesFromDecision(unattended: bool, es: seq<Event>, q: Question) returns (i: nat)
    requires !unattended
    requires var s := Run(unattended, es); q in s.results && s.results[q]
    ensures Decides(unattended, es, i, q, true)
  {
    var front, e := es[..|es| - 1], es[|es| - 1];
    var s := Run(unattended, front);
    AttendanceIsFixed(unattended, front);
    RunKeepsInv(unattended, front);
    if q in s.results && s.results[q] {
      i := YesComesFromDecision(unattended, front, q);
    } else {
      YesByResume(s, e, q);
      i := AnswersComeFromDecisions(unattended, front, q);
    }
    assert front[..i] == es[..i];
  }

  lemma {:induction false} AttendanceIsFixed(unattended: bool, es: seq<Event>)
    ensures Run(unattended, es).unattended == unattended
  {
    if es != [] {
      AttendanceIsFixed(unattended, es[..|es| - 1]);
      AttendanceStep(Run(unattended, es[..|es| - 1]), es[|es| - 1]);
    }
  }

  /**
   No unasked yes. Over every interleaving, `confirm_receive` returns true only on a daemon started to
   accept unattended, or because exactly one decision to accept took that question's own entry.
   */
  lemma NoUnaskedYes(unattended: bool, es: seq<Event>, q: Question)
    requires var s := Run(unattended, es); q in s.results && s.results[q]
    ensures unattended || exists i: nat :: Decides(unattended, es, i, q, true)
    ensures forall i: nat, j: nat, a, b :: Decides(unattended, es, i, q, a) && Decides(unattended, es, j, q, b) ==> i == j && a == b
  {
    if !unattended {
      var i := YesComesFromDecision(unattended, es, q);
    }
    forall i: nat, j: nat, a, b | Decides(unattended, es, i, q, a) && Decides(unattended, es, j, q, b)
      ensures i == j && a == b
    {
      DecidedOnce(unattended, es, i, j, q, a, b);
    }
  }

  // ---- completeness ---------------------------------------------------------------------------

  /** There is somebody to ask: an attended daemon whose provider listens and has room for one more. */
  predicate CanQueue(s: Approval) {
    && !s.unattended && s.provider.Some? && s.provider.value < |s.channels|
    && s.channels[s.provider.value].listening && |s.channels[s.provider.value].queue| < 32
  }

  /** A new question goes to the provider whenever there is somebody to ask; otherwise it is answered at once. */
  lemma AskedExactly(s: Approval, q: Question, offer: Offer)
    requires Inv(s) && q !in s.asked
    ensures var s' := Step(s, Ask(q, offer));
            && q in s'.asked && s'.asked[q] == offer
            && if CanQueue(s) then
                 && offer.transfer in s'.pending && s'.pending[offer.transfer] == Pending(offer.peer, q)
                 && q in s'.replies && s'.replies[q] == Waiting && q !in s'.results
                 && s'.channels[s.provider.value].queue == s.channels[s.provider.value].queue + [offer]
               else
                 q !in s'.replies && q in s'.results && s'.results[q] == s.unattended && s'.pending == s.pending && s'.channels == s.channels
  {
  }

  /** The state before event `i`. */
  ghost function At(unattended: bool, es: seq<Event>, i: nat): Approval
    requires i <= |es|
  {
    Run(unattended, es[..i])
  }

  lemma RunAt(unattended: bool, es: seq<Event>, i: nat)
    requires i < |es|
    ensures At(unattended, es, i + 1) == Step(At(unattended, es, i), es[i])
  {
    assert es[..i + 1][..i] == es[..i];
  }

  /** The answer is there and has not been returned yet. */
  ghost predicate Answerable(s: Approval, q: Question, accept: bool) {
    q in s.asked && q in s.replies && s.replies[q] == Answered(accept) && q !in s.results
  }

  predicate Returns(e: Event, q: Question) {
    e == Resume(q) || e == Cancel(q)
  }

  lemma AnswerableStep(s: Approval, e: Event, q: Question, accept: bool)
    requires Inv(s) && Answerable(s, q, accept)
    ensures if Returns(e, q) then q in Step(s, e).results && Step(s, e).results[q] == (accept && e.Resume?)
            else Answerable(Step(s, e), q, accept)
  {
  }

  lemma DecisionIsAnswerable(s: Approval, e: Event, q: Question)
    requires Inv(s) && e.Decide? && e.transfer in s.pending && s.pending[e.transfer].question == q
    ensures Answerable(Step(s, e), q, e.accept)
  {
  }

  /** The same at one event of a run. */
  lemma AnswerableAt(unattended: bool, es: seq<Event>, i: nat, q: Question, accept: bool)
    requires i < |es| && Answerable(At(unattended, es, i), q, accept)
    ensures var s := At(unattended, es, i + 1);
            if Returns(es[i], q) then q in s.results && s.results[q] == (accept && es[i].Resume?) else Answerable(s, q, accept)
  {
    RunAt(unattended, es, i);
    RunKeepsInv(unattended, es[..i]);
    AnswerableStep(At(unattended, es, i), es[i], q, accept);
  }

  lemma DecidedAt(unattended: bool, es: seq<Event>, i: nat, q: Question, accept: bool)
    requires Decides(unattended, es, i, q, accept)
    ensures Answerable(At(unattended, es, i + 1), q, accept)
  {
    RunAt(unattended, es, i);
    RunKeepsInv(unattended, es[..i]);
    DecisionIsAnswerable(At(unattended, es, i), es[i], q);
  }

  lemma {:induction false} StaysAnswerable(unattended: bool, es: seq<Event>, i: nat, j: nat, q: Question, accept: bool)
    requires i < j <= |es| && Answerable(At(unattended, es, i + 1), q, accept) && forall k :: i < k < j ==> !Returns(es[k], q)
    ensures Answerable(At(unattended, es, j), q, accept)
  {
    if j > i + 1 {
      StaysAnswerable(unattended, es, i, j - 1, q, accept);
      AnswerableAt(unattended, es, j - 1, q, accept);
    }
  }

  /** From an answer to its first return. */
  lemma AnswerIsReturned(unattended: bool, es: seq<Event>, i: nat, j: nat, q: Question, accept: bool)
    requires i < j < |es| && Answerable(At(unattended, es, i + 1), q, accept)
    requires Returns(es[j], q) && forall k :: i < k < j ==> !Returns(es[k], q)
    ensures var s := At(unattended, es, j + 1); q in s.results && s.results[q] == (accept && es[j].Resume?)
  {
    StaysAnswerable(unattended, es, i, j, q, accept);
    AnswerableAt(unattended, es, j, q, accept);
  }

  lemma ResultStays(s: Approval, e: Event, q: Question)
    requires Inv(s) && q in s.results
    ensures q in Step(s, e).results && Step(s, e).results[q] == s.results[q]
  {
  }

  lemma ResultAt(unattended: bool, es: seq<Event>, m: nat, n: nat, q: Question)
    requires m < n == m + 1 <= |es| && q in At(unattended, es, m).results
    ensures q in At(unattended, es, n).results && At(unattended, es, n).results[q] == At(unattended, es, m).results[q]
  {
    RunAt(unattended, es, m);
    RunKeepsInv(unattended, es[..m]);
    ResultStays(At(unattended, es, m), es[m], q);
  }

  lemma {:induction false} ResultIsFinal(unattended: bool, es: seq<Event>, i: nat, j: nat, q: Question)
    requires i <= j <= |es| && q in At(unattended, es, i).results
    ensures q in At(unattended, es, j).results && At(unattended, es, j).results[q] == At(unattended, es, i).results[q]
  {
    if i < j {
      var m := j - 1;
      ResultIsFinal(unattended, es, i, m, q);
      ResultAt(unattended, es, m, j, q);
    }
  }

  lemma ResultIsKept(unattended: bool, es: seq<Event>, i: nat, q: Question)
    requires i <= |es| && q in At(unattended, es, i).results
    ensures q in Run(unattended, es).results && Run(unattended, es).results[q] == At(unattended, es, i).results[q]
  {
    ResultIsFinal(unattended, es, i, |es|, q);
    assert es[..|es|] == es;
  }

  /** Decision `i` answered the question, and `j` is the first return of it after that. */
  ghost predicate ReturnsDecision(unattended: bool, es: seq<Event>, i: nat, j: nat, q: Question, accept: bool) {
    && i < j < |es| && Decides(unattended, es, i, q, accept) && Returns(es[j], q)
    && forall k :: i < k < j ==> !Returns(es[k], q)
  }

  lemma AnswerIsKept(unattended: bool, es: seq<Event>, i: nat, j: nat, q: Question, accept: bool)
    requires i < j < |es| && Answerable(At(unattended, es, i + 1), q, accept)
    requires Returns(es[j], q) && forall k :: i < k < j ==> !Returns(es[k], q)
    ensures var s := Run(unattended, es); q in s.results && s.results[q] == (accept && es[j].Resume?)
  {
    AnswerIsReturned(unattended, es, i, j, q, accept);
    ResultIsKept(unattended, es, j + 1, q);
  }

  /** What a person decided is what is returned, unless the question was given up first. */
  lemma DecisionIsReturned(unattended: bool, es: seq<Event>, i: nat, j: nat, q: Question, accept: bool)
    requires ReturnsDecision(unattended, es, i, j, q, accept)
    ensures var s := Run(unattended, es); q in s.results && s.results[q] == (accept && es[j].Resume?)
  {
    DecidedAt(unattended, es, i, q, accept);
    AnswerIsKept(unattended, es, i, j, q, accept);
  }

  /** The event that made a result a yes. */
  lemma {:induction false} YesComesFromResume(es: seq<Event>, n: nat, q: Question) returns (j: nat)
    requires n <= |es|
    requires var s := At(false, es, n); q in s.results && s.results[q]
    ensures j < n && es[j] == Resume(q)
    ensures var s := At(false, es, j); q !in s.results && q in s.replies && s.replies[q] == Answered(true)
  {
    var s := At(false, es, n - 1);
    RunAt(false, es, n - 1);
    RunKeepsInv(false, es[..n - 1]);
    AttendanceIsFixed(false, es[..n - 1]);
    if q in s.results {
      ResultStays(s, es[n - 1], q);
      j := YesComesFromResume(es, n - 1, q);
    } else {
      j := n - 1;
      YesByResume(s, es[j], q);
    }
  }

  lemma NotReturnedBetween(es: seq<Event>, i: nat, j: nat, k: nat, q: Question)
    requires i < k < j < |es| && Decides(false, es, i, q, true) && Returns(es[k], q) && forall m :: i < m < k ==> !Returns(es[m], q)
    ensures q in At(false, es, j).results
  {
    DecidedAt(false, es, i, q, true);
    AnswerIsReturned(false, es, i, k, q, true);
    ResultIsFinal(false, es, k + 1, j, q);
  }

  /** The first return after `i`, if there is one before `j`. */
  lemma {:induction false} FirstReturn(es: seq<Event>, i: nat, j: nat, q: Question) returns (k: nat)
    requires i < j <= |es|
    ensures i < k <= j && forall m :: i < m < k ==> !Returns(es[m], q)
    ensures k < j ==> Returns(es[k], q)
  {
    if j == i + 1 {
      k := j;
    } else {
      k := FirstReturn(es, i, j - 1, q);
      if k == j - 1 && !Returns(es[k], q) {
        k := j;
      }
    }
  }

  /**
   A yes, exactly. Over every interleaving on an attended daemon, `confirm_receive` returns true if and
   only if a decision to accept took that question's own entry, and the question was then returned
   before it was given up.
   */
  lemma YesExactly(es: seq<Event>, q: Question)
    ensures var s := Run(false, es);
            q in s.results && s.results[q]
            <==> exists i: nat, j: nat :: ReturnsDecision(false, es, i, j, q, true) && es[j].Resume?
  {
    assert es[..|es|] == es;
    var s := Run(false, es);
    if q in s.results && s.results[q] {
      var j := YesComesFromResume(es, |es|, q);
      var i := AnswersComeFromDecisions(false, es[..j], q);
      assert es[..j][..i] == es[..i];
      assert Decides(false, es, i, q, true);
      var k := FirstReturn(es, i, j, q);
      if k < j {
        NotReturnedBetween(es, i, j, k, q);
      }
      assert ReturnsDecision(false, es, i, j, q, true);
    }
    forall i: nat, j: nat | ReturnsDecision(false, es, i, j, q, true) && es[j].Resume?
      ensures q in s.results && s.results[q]
    {
      DecisionIsReturned(false, es, i, j, q, true);
    }
  }

  // ---- how long a question waits --------------------------------------------------------------

  /** This event takes away whatever is pending under `t`. */
  predicate TakesEntry(s: Approval, e: Event, t: TransferId) {
    match e
    case Attach => true
    case Detach(epoch) => epoch == s.epoch
    case Decide(x, _) => x == t
    case Withdraw(x) => x == t
    case Ask(q, offer) => offer.transfer == t && q !in s.asked && CanQueue(s)
    case Resume(q) => q in s.asked && s.asked[q].transfer == t && q in s.replies && s.replies[q] != Waiting && q !in s.results
    case Cancel(q) => q in s.asked && s.asked[q].transfer == t && q in s.replies && q !in s.results
    case _ => false
  }

  ghost predicate Waits(s: Approval, q: Question) {
    q in s.replies && s.replies[q] == Waiting
  }

  /** Withdrawing what is under a transfer stops exactly the question about it. */
  lemma WaitsWithdrawn(s: Approval, t: TransferId, q: Question)
    requires Inv(s) && q in s.asked
    ensures q in DropOne(s, t) && DropOne(s, t)[q] == Waiting <==> Waits(s, q) && s.asked[q].transfer != t
  {
  }

  lemma AskWaits(s: Approval, e: Event, q: Question)
    requires Inv(s) && q in s.asked && e.Ask?
    ensures Waits(Step(s, e), q) <==> Waits(s, q) && !TakesEntry(s, e, s.asked[q].transfer)
  {
    WaitsWithdrawn(s, e.offer.transfer, q);
  }

  lemma ReturnWaits(s: Approval, e: Event, q: Question)
    requires Inv(s) && q in s.asked && (e.Resume? || e.Cancel? || e.Withdraw?)
    ensures Waits(Step(s, e), q) <==> Waits(s, q) && !TakesEntry(s, e, s.asked[q].transfer)
  {
    if e.Withdraw? {
      WaitsWithdrawn(s, e.transfer, q);
    } else if e.question in s.asked {
      WaitsWithdrawn(s, s.asked[e.question].transfer, q);
    }
  }

  lemma ProviderWaits(s: Approval, e: Event, q: Question)
    requires Inv(s) && q in s.asked && (e.Attach? || e.Detach? || e.Decide?)
    ensures Waits(Step(s, e), q) <==> Waits(s, q) && !TakesEntry(s, e, s.asked[q].transfer)
  {
  }

  lemma WaitsStep(s: Approval, e: Event, q: Question)
    requires Inv(s) && q in s.asked
    ensures Waits(Step(s, e), q) <==> Waits(s, q) && !TakesEntry(s, e, s.asked[q].transfer)
  {
    match e
    case Ask(_, _) => AskWaits(s, e, q);
    case Resume(_) => ReturnWaits(s, e, q);
    case Cancel(_) => ReturnWaits(s, e, q);
    case Withdraw(_) => ReturnWaits(s, e, q);
    case Attach => ProviderWaits(s, e, q);
    case Detach(_) => ProviderWaits(s, e, q);
    case Decide(_, _) => ProviderWaits(s, e, q);
    case Take(_) =>
    case StopListening(_) =>
  }

  ghost predicate AskedAt(unattended: bool, es: seq<Event>, i: nat, q: Question) {
    i < |es| && es[i].Ask? && es[i].question == q && q !in At(unattended, es, i).asked
  }

  /** No event after `i` and before `n` takes the entry of `t`. */
  ghost predicate Untaken(unattended: bool, es: seq<Event>, i: nat, n: nat, t: TransferId)
    requires i < n <= |es|
  {
    n == i + 1 || (Untaken(unattended, es, i, n - 1, t) && !TakesEntry(At(unattended, es, n - 1), es[n - 1], t))
  }

  /** Event `i` put the question to a provider, and nothing up to event `n` took its entry. */
  ghost predicate WaitsSince(unattended: bool, es: seq<Event>, i: nat, n: nat, q: Question) {
    && i < n <= |es| && AskedAt(unattended, es, i, q) && CanQueue(At(unattended, es, i))
    && Untaken(unattended, es, i, n, es[i].offer.transfer)
  }

  lemma AskedStep(s: Approval, e: Event, q: Question)
    ensures q in Step(s, e).asked <==> q in s.asked || (e.Ask? && e.question == q)
    ensures q in s.asked ==> Step(s, e).asked[q] == s.asked[q]
  {
  }

  lemma {:induction false} WasAskedAt(unattended: bool, es: seq<Event>, n: nat, q: Question) returns (i: nat)
    requires n <= |es| && q in At(unattended, es, n).asked
    ensures i < n && AskedAt(unattended, es, i, q)
  {
    RunAt(unattended, es, n - 1);
    AskedStep(At(unattended, es, n - 1), es[n - 1], q);
    if q in At(unattended, es, n - 1).asked {
      i := WasAskedAt(unattended, es, n - 1, q);
    } else {
      i := n - 1;
    }
  }

  /** The same at one event of a run. */
  lemma WaitsAt(unattended: bool, es: seq<Event>, i: nat, n: nat, q: Question, t: TransferId)
    requires i < n == i + 1 <= |es| && q in At(unattended, es, i).asked && At(unattended, es, i).asked[q].transfer == t
    ensures var s, s' := At(unattended, es, i), At(unattended, es, n);
            && q in s'.asked && s'.asked[q] == s.asked[q]
            && (Waits(s', q) <==> Waits(s, q) && !TakesEntry(s, es[i], t))
  {
    RunAt(unattended, es, i);
    RunKeepsInv(unattended, es[..i]);
    AskedStep(At(unattended, es, i), es[i], q);
    WaitsStep(At(unattended, es, i), es[i], q);
  }

  lemma WaitsAtOnce(unattended: bool, es: seq<Event>, i: nat, q: Question)
    requires AskedAt(unattended, es, i, q)
    ensures var s, s' := At(unattended, es, i), At(unattended, es, i + 1);
            q in s'.asked && s'.asked[q] == es[i].offer && (Waits(s', q) <==> CanQueue(s))
  {
    RunAt(unattended, es, i);
    RunKeepsInv(unattended, es[..i]);
    AskedExactly(At(unattended, es, i), q, es[i].offer);
  }

  /** What became of the question of event `i` before event `n`. */
  ghost predicate WaitsTruly(unattended: bool, es: seq<Event>, i: nat, n: nat, q: Question)
    requires i < |es| && es[i].Ask? && n <= |es|
  {
    var s := At(unattended, es, n);
    q in s.asked && s.asked[q] == es[i].offer && (Waits(s, q) <==> WaitsSince(unattended, es, i, n, q))
  }

  lemma UntakenStep(unattended: bool, es: seq<Event>, i: nat, m: nat, n: nat, q: Question)
    requires i < m < n == m + 1 <= |es| && AskedAt(unattended, es, i, q)
    ensures WaitsSince(unattended, es, i, n, q)
            <==> WaitsSince(unattended, es, i, m, q) && !TakesEntry(At(unattended, es, m), es[m], es[i].offer.transfer)
  {
  }

  lemma WaitsTrulyStep(unattended: bool, es: seq<Event>, i: nat, m: nat, n: nat, q: Question)
    requires i < m < n == m + 1 <= |es| && AskedAt(unattended, es, i, q) && WaitsTruly(unattended, es, i, m, q)
    ensures WaitsTruly(unattended, es, i, n, q)
  {
    UntakenStep(unattended, es, i, m, n, q);
    WaitsAt(unattended, es, m, n, q, es[i].offer.transfer);
  }

  lemma WaitsTrulyAtOnce(unattended: bool, es: seq<Event>, i: nat, n: nat, q: Question)
    requires n == i + 1 <= |es| && AskedAt(unattended, es, i, q)
    ensures WaitsTruly(unattended, es, i, n, q)
  {
    WaitsAtOnce(unattended, es, i, q);
  }

  lemma {:induction false} WaitsFrom(unattended: bool, es: seq<Event>, i: nat, n: nat, q: Question)
    requires i < n <= |es| && AskedAt(unattended, es, i, q)
    ensures WaitsTruly(unattended, es, i, n, q)
  {
    var m := n - 1;
    if m == i {
      WaitsTrulyAtOnce(unattended, es, i, n, q);
    } else {
      WaitsFrom(unattended, es, i, m, q);
      WaitsTrulyStep(unattended, es, i, m, n, q);
    }
  }

  /** Over every run: a question waits exactly from being queued until something takes its entry. */
  lemma WaitsExactly(unattended: bool, es: seq<Event>, q: Question)
    ensures var s := Run(unattended, es);
            Waits(s, q) <==> exists i: nat :: WaitsSince(unattended, es, i, |es|, q)
  {
    assert es[..|es|] == es;
    RunKeepsInv(unattended, es);
    var s := Run(unattended, es);
    if Waits(s, q) {
      var i := WasAskedAt(unattended, es, |es|, q);
      WaitsFrom(unattended, es, i, |es|, q);
    }
    forall i: nat | WaitsSince(unattended, es, i, |es|, q)
      ensures Waits(s, q)
    {
      WaitsFrom(unattended, es, i, |es|, q);
    }
  }

  predicate AsksAbout(e: Event, t: TransferId) {
    e.Ask? && e.offer.transfer == t
  }

  lemma OnlyAskingPends(s: Approval, e: Event, t: TransferId)
    requires t !in s.pending && !AsksAbout(e, t)
    ensures t !in Step(s, e).pending
  {
  }

  /** A state with more events after it. */
  function Continue(s: Approval, es: seq<Event>): Approval {
    if es == [] then s else Step(Continue(s, es[..|es| - 1]), es[|es| - 1])
  }

  lemma {:induction false} NothingPendsUnasked(s: Approval, later: seq<Event>, t: TransferId)
    requires t !in s.pending && forall i :: 0 <= i < |later| ==> !AsksAbout(later[i], t)
    ensures t !in Continue(s, later).pending
  {
    if later != [] {
      NothingPendsUnasked(s, later[..|later| - 1], t);
      OnlyAskingPends(Continue(s, later[..|later| - 1]), later[|later| - 1], t);
    }
  }

  lemma DecidedIsNotPending(s: Approval, t: TransferId, a: bool)
    ensures t !in Step(s, Decide(t, a)).pending
    ensures t !in s.pending ==> Step(s, Decide(t, a)) == s
  {
  }

  /** After any run: a second answer is inert, whatever comes before it, until the transfer is asked about again. */
  lemma SecondAnswerIsInert(unattended: bool, es: seq<Event>, t: TransferId, a: bool, later: seq<Event>, b: bool)
    requires forall i :: 0 <= i < |later| ==> !AsksAbout(later[i], t)
    ensures var s := Continue(Step(Run(unattended, es), Decide(t, a)), later); Step(s, Decide(t, b)) == s
  {
    var s := Step(Run(unattended, es), Decide(t, a));
    DecidedIsNotPending(Run(unattended, es), t, a);
    NothingPendsUnasked(s, later, t);
    DecidedIsNotPending(Continue(s, later), t, b);
  }

  // ---- epochs ---------------------------------------------------------------------------------

  /** In every reachable state nothing is pending without a provider, or towards an earlier one. */
  lemma PendingBelongsToProvider(unattended: bool, es: seq<Event>, t: TransferId)
    requires t in Run(unattended, es).pending
    ensures var s := Run(unattended, es);
            s.provider == Some(|s.channels| - 1) && s.pending[t].question in s.queuedTo
            && s.queuedTo[s.pending[t].question] == |s.channels| - 1
  {
    RunKeepsInv(unattended, es);
  }

  /** The epoch the `k`-th attachment was given, counting from 1. */
  function EpochOf(k: nat): nat {
    k % EPOCHS
  }

  /**
   A session that was displaced and detaches late changes nothing, exactly as long as fewer than
   2^64 attachments lie between: the counter wraps, and only a full turn brings its epoch back.
   */
  lemma StaleDetach(unattended: bool, es: seq<Event>, k: nat)
    requires var s := Run(unattended, es); 0 < k <= |s.channels| && s.provider.Some?
    ensures var s := Run(unattended, es); Step(s, Detach(EpochOf(k))) == s <==> EpochOf(k) != EpochOf(|s.channels|)
    ensures var s := Run(unattended, es); k < |s.channels| < k + EPOCHS ==> Step(s, Detach(EpochOf(k))) == s
  {
    RunKeepsInv(unattended, es);
    var n := |Run(unattended, es).channels|;
    if k < n < k + EPOCHS {
      DifferentEpochs(k, n);
    }
  }

  lemma DifferentEpochs(k: nat, n: nat)
    requires k < n < k + EPOCHS
    ensures k % EPOCHS != n % EPOCHS
  {
    assert k == (k / EPOCHS) * EPOCHS + k % EPOCHS;
    assert n == (n / EPOCHS) * EPOCHS + n % EPOCHS;
  }

  // ---- who is asked, and what is in the queues ------------------------------------------------

  /** How many providers have attached. */
  function Attachments(es: seq<Event>): nat {
    if es == [] then 0 else Attachments(es[..|es| - 1]) + if es[|es| - 1].Attach? then 1 else 0
  }

  /** The last provider that attached has not been detached by its own epoch. */
  predicate LastStands(es: seq<Event>) {
    if es == [] then false
    else
      var front, e := es[..|es| - 1], es[|es| - 1];
      e.Attach? || (LastStands(front) && e != Detach(EpochOf(Attachments(front))))
  }

  /** The `k`-th provider, counting from 0, has attached and listens still. */
  predicate Listens(es: seq<Event>, k: nat) {
    if es == [] then false
    else
      var front, e := es[..|es| - 1], es[|es| - 1];
      (e.Attach? && Attachments(front) == k) || (Listens(front, k) && e != StopListening(k))
  }

  /** Over every run: the provider is the last to have attached, unless it was detached; and it listens until it stops. */
  lemma {:induction false} ProviderExactly(unattended: bool, es: seq<Event>, k: nat)
    ensures var s := Run(unattended, es);
            && |s.channels| == Attachments(es)
            && (s.provider == Some(k) <==> LastStands(es) && k + 1 == Attachments(es))
            && (k < |s.channels| ==> (s.channels[k].listening <==> Listens(es, k)))
            && (k >= |s.channels| ==> !Listens(es, k))
  {
    if es != [] {
      var front, e := es[..|es| - 1], es[|es| - 1];
      ProviderExactly(unattended, front, k);
      RunKeepsInv(unattended, front);
      var s := Run(unattended, front);
      ProviderExactly(unattended, front, if s.provider.Some? then s.provider.value else k);
      ProviderStep(s, e, k);
    }
  }

  predicate TouchesChannels(e: Event) {
    e.Ask? || e.Attach? || e.Take? || e.StopListening?
  }

  lemma ChannelsKept(s: Approval, e: Event)
    requires !TouchesChannels(e)
    ensures Step(s, e).channels == s.channels
  {
  }

  lemma AskQueues(s: Approval, q: Question, offer: Offer)
    requires Inv(s)
    ensures var s', k := Step(s, Ask(q, offer)), if s.provider.Some? then s.provider.value else 0;
            && s'.provider == s.provider
            && s'.channels == if q !in s.asked && CanQueue(s) then s.channels[k := s.channels[k].(queue := s.channels[k].queue + [offer])]
                              else s.channels
  {
  }

  lemma ProviderKept(s: Approval, e: Event)
    requires !e.Attach? && e != Detach(s.epoch)
    ensures Step(s, e).provider == s.provider
  {
  }

  /** What one event does to providers. */
  lemma ProviderStep(s: Approval, e: Event, k: nat)
    requires Inv(s)
    ensures var s' := Step(s, e);
            && |s'.channels| == |s.channels| + (if e.Attach? then 1 else 0)
            && s'.provider == (if e.Attach? then Some(|s.channels|) else if e == Detach(s.epoch) then None else s.provider)
            && (k < |s.channels| ==> s'.channels[k].listening == (s.channels[k].listening && e != StopListening(k)))
            && (e.Attach? ==> s'.channels[|s.channels|] == Channel([], true))
  {
    if e.Ask? {
      AskQueues(s, e.question, e.offer);
    } else if !TouchesChannels(e) {
      ChannelsKept(s, e);
    }
    if !e.Attach? && e != Detach(s.epoch) {
      ProviderKept(s, e);
    }
  }

  /** The event puts an offer into the queue of the `k`-th provider. */
  predicate Queues(s: Approval, e: Event, k: nat) {
    e.Ask? && e.question !in s.asked && CanQueue(s) && s.provider == Some(k)
  }

  /** All offers that were put to the `k`-th provider. */
  ghost function SentTo(unattended: bool, es: seq<Event>, k: nat): seq<Offer> {
    if es == [] then []
    else
      var front, e := es[..|es| - 1], es[|es| - 1];
      SentTo(unattended, front, k) + if Queues(Run(unattended, front), e, k) then [e.offer] else []
  }

  /** How many of them it has taken. */
  ghost function TakenBy(unattended: bool, es: seq<Event>, k: nat): nat {
    if es == [] then 0
    else
      var front, e := es[..|es| - 1], es[|es| - 1];
      TakenBy(unattended, front, k) + if e == Take(k) && TakenBy(unattended, front, k) < |SentTo(unattended, front, k)| then 1 else 0
  }

  lemma QueueStep(s: Approval, e: Event, k: nat)
    requires Inv(s) && k < |s.channels|
    ensures var queue := s.channels[k].queue;
            Step(s, e).channels[k].queue
            == if Queues(s, e, k) then queue + [e.offer] else if e == Take(k) && queue != [] then queue[1..] else queue
  {
    if e.Ask? {
      AskQueues(s, e.question, e.offer);
    } else if !TouchesChannels(e) {
      ChannelsKept(s, e);
    }
  }

  lemma TakenOff(sent: seq<Offer>, n: nat, offer: Offer)
    requires n <= |sent|
    ensures (sent + [offer])[n..] == sent[n..] + [offer] && (n < |sent| ==> sent[n..][1..] == sent[n + 1..])
  {
  }

  /** The queue of the `k`-th provider is what was put to it from the `taken`-th on. */
  ghost predicate Holds(s: Approval, k: nat, sent: seq<Offer>, taken: nat) {
    taken <= |sent| && if k < |s.channels| then s.channels[k].queue == sent[taken..] else sent == []
  }

  lemma HoldsStep(s: Approval, e: Event, k: nat, sent: seq<Offer>, taken: nat)
    requires Inv(s) && Holds(s, k, sent, taken)
    ensures Holds(Step(s, e), k, sent + (if Queues(s, e, k) then [e.offer] else []),
                  taken + if e == Take(k) && taken < |sent| then 1 else 0)
  {
    ProviderStep(s, e, k);
    assert sent + [] == sent;
    if k < |s.channels| {
      QueueStep(s, e, k);
      if e.Ask? {
        TakenOff(sent, taken, e.offer);
      } else if taken < |sent| {
        TakenOff(sent, taken, sent[0]);
      }
    }
  }

  /** Over every run: a queue holds what was put to its provider and not taken yet, in order. */
  lemma {:induction false} QueueExactly(unattended: bool, es: seq<Event>, k: nat)
    ensures Holds(Run(unattended, es), k, SentTo(unattended, es, k), TakenBy(unattended, es, k))
  {
    if es != [] {
      var front := es[..|es| - 1];
      QueueExactly(unattended, front, k);
      RunKeepsInv(unattended, front);
      HoldsStep(Run(unattended, front), es[|es| - 1], k, SentTo(unattended, front, k), TakenBy(unattended, front, k));
    }
  }
}
