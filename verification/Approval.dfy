/** The approval seam itself: one mutex, a provider, an epoch and a map of pending offers. */
module Approval {
  import opened Prelude
  import R = ApprovalRules

  datatype Decision = Answered | Unknown

  /**
   `provider`, `epoch` and `pending` are the fields under the lock. The other fields stand for the
   channels the code holds ends of: the providers' queues and the answer channel of each question.
   Each method is one critical section.
   */
  class FileApproval {
    const unattended: bool
    var provider: Option<nat>
    var epoch: nat
    var pending: map<R.TransferId, R.Pending>
    var channels: seq<R.Channel>
    var replies: map<R.Question, R.Reply>
    var asked: map<R.Question, R.Offer>
    var queuedTo: map<R.Question, nat>
    var results: map<R.Question, bool>

    ghost function View(): R.Approval
      reads this
    {
      R.Approval(unattended, provider, epoch, pending, channels, replies, asked, queuedTo, results)
    }

    constructor (unattended: bool)
      ensures View() == R.Initial(unattended)
    {
      this.unattended, provider, epoch, pending := unattended, None, 0, map[];
      channels, replies, asked, queuedTo, results := [], map[], map[], map[], map[];
    }

    /** Dropping the map's entries drops their answer channels. */
    method ClearPending()
      modifies this`pending, this`replies
      ensures pending == map[] && replies == R.DropAll(old(replies), old(pending))
    {
      var todo := pending.Keys;
      while todo != {}
        invariant todo <= pending.Keys && pending == old(pending) && replies.Keys == old(replies).Keys
        invariant forall q :: q in replies ==>
          replies[q] == if exists t :: t in pending && t !in todo && pending[t].question == q then R.Dropped else old(replies)[q]
        decreases |todo|
      {
        var t :| t in todo;
        todo := todo - {t};
        if pending[t].question in replies {
          replies := replies[pending[t].question := R.Dropped];
        }
      }
      pending := map[];
    }

    /** Attaches a provider, replacing any previous one and declining what it was still being asked. */
    method AttachProvider() returns (given: nat, channel: nat)
      modifies this
      ensures View() == R.Step(old(View()), R.Attach)
      ensures given == epoch && provider == Some(channel)
    {
      channel := |channels|;
      channels := channels + [R.Channel([], true)];
      epoch := (epoch + 1) % R.EPOCHS;
      given := epoch;
      provider := Some(channel);
      ClearPending();
    }

    method DetachProvider(given: nat)
      modifies this
      ensures View() == R.Step(old(View()), R.Detach(given))
    {
      if epoch != given {
        return;
      }
      provider := None;
      ClearPending();
    }

    method DecideOffer(transfer: R.TransferId, accept: bool) returns (d: Decision)
      modifies this
      ensures View() == R.Step(old(View()), R.Decide(transfer, accept))
      ensures d == if transfer in old(pending) then Answered else Unknown
    {
      if transfer !in pending {
        return Unknown;
      }
      var entry := pending[transfer];
      pending := pending - {transfer};
      replies := replies[entry.question := R.Answered(accept)];
      d := Answered;
    }

    method WithdrawOffer(transfer: R.TransferId)
      modifies this
      ensures View() == R.Step(old(View()), R.Withdraw(transfer))
    {
      if transfer in pending {
        replies := replies[pending[transfer].question := R.Dropped];
      }
      pending := pending - {transfer};
    }

    /** The first half of `confirm_receive`: an answer at once, or a question queued and recorded. */
    method BeginConfirm(q: R.Question, offer: R.Offer) returns (atOnce: Option<bool>)
      requires R.Inv(View()) && q !in asked
      modifies this
      ensures View() == R.Step(old(View()), R.Ask(q, offer))
      ensures atOnce == if q in results then Some(results[q]) else None
    {
      asked := asked[q := offer];
      if unattended {
        results := results[q := true];
        return Some(true);
      }
      if provider.None? {
        results := results[q := false];
        return Some(false);
      }
      var k := provider.value;
      if !channels[k].listening || |channels[k].queue| >= R.PROVIDER_QUEUE {
        results := results[q := false];
        return Some(false);
      }
      channels := channels[k := channels[k].(queue := channels[k].queue + [offer])];
      // Inserting over an entry drops that entry's answer channel.
      if offer.transfer in pending {
        replies := replies[pending[offer.transfer].question := R.Dropped];
      }
      pending := pending[offer.transfer := R.Pending(offer.peer, q)];
      replies := replies[q := R.Waiting];
      queuedTo := queuedTo[q := k];
      atOnce := None;
    }

    /** The second half, once the answer channel has something to say; the guard withdraws on the way out. */
    method EndConfirm(q: R.Question) returns (accepted: bool)
      requires q in asked && q in replies && q !in results && replies[q] != R.Waiting
      modifies this
      ensures View() == R.Step(old(View()), R.Resume(q))
      ensures accepted == results[q]
      ensures accepted <==> old(replies[q]) == R.Answered(true)
    {
      match replies[q] {
        case Answered(accept) => accepted := accept;
        case _ => accepted := false;
      }
      WithdrawOffer(asked[q].transfer);
      results := results[q := accepted];
    }

    /** The future is dropped while it waits: only the guard runs. */
    method AbandonConfirm(q: R.Question)
      requires q in asked && q in replies && q !in results
      modifies this
      ensures View() == R.Step(old(View()), R.Cancel(q))
    {
      WithdrawOffer(asked[q].transfer);
      results := results[q := false];
    }
  }

  /** One control session serving as the approval provider: `shown` is what it has on screen. */
  class ControlSession {
    const approval: FileApproval
    const epoch: nat
    const channel: nat
    var shown: set<R.TransferId>

    constructor (approval: FileApproval)
      modifies approval
      ensures approval.View() == R.Step(old(approval.View()), R.Attach)
      ensures this.approval == approval && shown == {} && approval.epoch == epoch && approval.provider == Some(channel)
    {
      this.approval, shown := approval, {};
      var given, queue := approval.AttachProvider();
      epoch, channel := given, queue;
    }

    /** An offer arrives; one whose transfer has ended is withdrawn instead of shown. */
    method TakeOffer(live: bool) returns (request: Option<R.Offer>)
      requires channel < |approval.channels|
      modifies this, approval
      ensures approval.channels == old(R.Step(approval.View(), R.Take(channel))).channels
      ensures old(approval.channels[channel].queue) == [] ==> request == None && approval.View() == old(approval.View()) && shown == old(shown)
      ensures old(approval.channels[channel].queue) != [] ==>
                var offer, taken := old(approval.channels[channel].queue[0]), old(R.Step(approval.View(), R.Take(channel)));
                if live then request == Some(offer) && approval.View() == taken && shown == old(shown) + {offer.transfer}
                else request == None && approval.View() == R.Step(taken, R.Withdraw(offer.transfer)) && shown == old(shown)
    {
      var queue := approval.channels[channel].queue;
      if queue == [] {
        return None;
      }
      approval.channels := approval.channels[channel := approval.channels[channel].(queue := queue[1..])];
      if !live {
        approval.WithdrawOffer(queue[0].transfer);
        return None;
      }
      shown := shown + {queue[0].transfer};
      request := Some(queue[0]);
    }

    /** A decision counts only for a prompt this provider has on screen. */
    method ApplyFileDecision(transfer: R.TransferId, accept: bool)
      modifies this, approval
      ensures shown == old(shown) - {transfer}
      ensures approval.View() == if transfer in old(shown) then R.Step(old(approval.View()), R.Decide(transfer, accept))
                                 else old(approval.View())
    {
      if transfer !in shown {
        return;
      }
      shown := shown - {transfer};
      var _ := approval.DecideOffer(transfer, accept);
    }

    /** A transfer reached a terminal state: a prompt for it comes down, once. */
    method TransferSettled(transfer: R.TransferId) returns (withdrawn: bool)
      modifies this, approval
      ensures withdrawn == (transfer in old(shown)) && shown == old(shown) - {transfer}
      ensures approval.View() == if withdrawn then R.Step(old(approval.View()), R.Withdraw(transfer)) else old(approval.View())
    {
      withdrawn := transfer in shown;
      if withdrawn {
        shown := shown - {transfer};
        approval.WithdrawOffer(transfer);
      }
    }

    /** The end of the session; an early return of the code skips this. */
    method Close()
      modifies approval
      ensures approval.View() == R.Step(old(approval.View()), R.Detach(epoch))
    {
      approval.DetachProvider(epoch);
    }
  }
}
