/** Sequence stamping on one side, the bounded replay guard on the other. */
module Replay {
  import opened Prelude
  import opened Protocol
  import opened Framing

  const DEDUP_WINDOW := 1024

  datatype Violation = BadMessageId | SequenceDidNotIncrease | DuplicateMessageId

  // ---- the guard ------------------------------------------------------------------------------

  /** The fields of a guard, as a value. */
  datatype Guard = Guard(lastSequence: nat, seen: set<Bytes>, order: seq<Bytes>)

  const FRESH_GUARD := Guard(0, {}, [])

  /** One call of `admit`: the verdict and the guard afterwards. */
  function Admit(g: Guard, e: Envelope): (Option<Violation>, Guard) {
    if |e.messageId| != MESSAGE_ID_LEN then (Some(BadMessageId), g)
    else if e.sequence <= g.lastSequence then (Some(SequenceDidNotIncrease), g)
    else if e.messageId in g.seen then (Some(DuplicateMessageId), g)
    else
      var order := g.order + [e.messageId];
      var seen := g.seen + {e.messageId};
      if |order| > DEDUP_WINDOW
      then (None, Guard(e.sequence, seen - {order[0]}, order[1..]))
      else (None, Guard(e.sequence, seen, order))
  }

  class ReplayGuard {
    var lastSequence: nat
    var seen: set<Bytes>
    var order: seq<Bytes>

    function View(): Guard
      reads this
    {
      Guard(lastSequence, seen, order)
    }

    constructor ()
      ensures View() == FRESH_GUARD
    {
      lastSequence, seen, order := 0, {}, [];
    }

    method AdmitEnvelope(e: Envelope) returns (violation: Option<Violation>)
      modifies this
      ensures (violation, View()) == Admit(old(View()), e)
    {
      if |e.messageId| != MESSAGE_ID_LEN {
        return Some(BadMessageId);
      }
      if e.sequence <= lastSequence {
        return Some(SequenceDidNotIncrease);
      }
      if e.messageId in seen {
        return Some(DuplicateMessageId);
      }
      seen := seen + {e.messageId};
      lastSequence := e.sequence;
      order := order + [e.messageId];
      if |order| > DEDUP_WINDOW {
        var oldest := order[0];
        order := order[1..];
        seen := seen - {oldest};
      }
      violation := None;
    }
  }

  // ---- the full history it stands for ---------------------------------------------------------

  function Ids(es: seq<Envelope>): (r: seq<Bytes>)
    ensures |r| == |es| && forall i :: 0 <= i < |es| ==> r[i] == es[i].messageId
  {
    seq(|es|, i requires 0 <= i < |es| => es[i].messageId)
  }

  function Recent(accepted: seq<Envelope>): seq<Bytes> {
    var n := |accepted|;
    Ids(if n > DEDUP_WINDOW then accepted[n - DEDUP_WINDOW..] else accepted)
  }

  /** What admission means, over everything accepted so far. */
  ghost predicate Fresh(accepted: seq<Envelope>, e: Envelope) {
    && |e.messageId| == MESSAGE_ID_LEN
    && e.sequence > 0
    && (forall i :: 0 <= i < |accepted| ==> accepted[i].sequence < e.sequence)
    && e.messageId !in Recent(accepted)
  }

  /** The envelopes a connection accepts out of all that arrive, by the full history. */
  ghost function AcceptedOf(es: seq<Envelope>): seq<Envelope> {
    if es == [] then [] else Accepting(AcceptedOf(es[..|es| - 1]), es[|es| - 1])
  }

  ghost function Accepting(accepted: seq<Envelope>, e: Envelope): seq<Envelope> {
    if Fresh(accepted, e) then accepted + [e] else accepted
  }

  /** The guard after all of them. */
  function GuardAfter(es: seq<Envelope>): Guard {
    if es == [] then FRESH_GUARD else Admit(GuardAfter(es[..|es| - 1]), es[|es| - 1]).1
  }

  /** The set and the queue hold the same ids, each once, and exactly those of the last 1024 accepted. */
  ghost predicate Represents(g: Guard, accepted: seq<Envelope>) {
    && g.lastSequence == (if accepted == [] then 0 else accepted[|accepted| - 1].sequence)
    && (forall i :: 0 <= i < |accepted| ==> 0 < accepted[i].sequence)
    && (forall i, j :: 0 <= i < j < |accepted| ==> accepted[i].sequence < accepted[j].sequence)
    && g.order == Recent(accepted)
    && SameMembers(g.seen, g.order)
    && Distinct(g.order)
  }

  lemma RecentAppend(accepted: seq<Envelope>, e: Envelope)
    ensures |Recent(accepted)| <= DEDUP_WINDOW
    ensures var order := Recent(accepted) + [e.messageId];
            Recent(accepted + [e]) == if |order| > DEDUP_WINDOW then order[1..] else order
  {
    var order := Recent(accepted) + [e.messageId];
    if |order| > DEDUP_WINDOW {
      assert Recent(accepted + [e]) == order[1..];
    } else {
      assert Recent(accepted + [e]) == order;
    }
  }

  lemma NotRecent(accepted: seq<Envelope>, id: Bytes)
    requires forall i :: 0 <= i < |accepted| ==> accepted[i].messageId != id
    ensures id !in Recent(accepted)
  {
  }

  lemma LastIsLargest(g: Guard, accepted: seq<Envelope>, sequence: nat)
    requires Represents(g, accepted)
    ensures sequence > g.lastSequence
            <==> sequence > 0 && forall i :: 0 <= i < |accepted| ==> accepted[i].sequence < sequence
  {
    if accepted != [] {
      var n := |accepted| - 1;
      assert accepted[n].sequence == g.lastSequence;
      assert forall i :: 0 <= i < n ==> accepted[i].sequence < accepted[n].sequence;
    }
  }

  lemma VerdictRefines(g: Guard, accepted: seq<Envelope>, e: Envelope)
    requires Represents(g, accepted)
    ensures Admit(g, e).0 == None <==> Fresh(accepted, e)
  {
    LastIsLargest(g, accepted, e.sequence);
  }

  ghost predicate SameMembers(seen: set<Bytes>, order: seq<Bytes>) {
    forall id :: id in seen <==> id in order
  }

  lemma SeenAppend(seen: set<Bytes>, order: seq<Bytes>, id: Bytes)
    requires SameMembers(seen, order) && Distinct(order) && id !in order
    ensures Distinct(order + [id]) && SameMembers(seen + {id}, order + [id])
    ensures Distinct((order + [id])[1..]) && SameMembers(seen + {id} - {(order + [id])[0]}, (order + [id])[1..])
  {
    DistinctAppend(order, id);
  }

  lemma AdmittedRepresents(g: Guard, accepted: seq<Envelope>, e: Envelope)
    requires Represents(g, accepted) && Fresh(accepted, e) && Admit(g, e).0 == None
    ensures Represents(Admit(g, e).1, accepted + [e])
  {
    RecentAppend(accepted, e);
    SeenAppend(g.seen, g.order, e.messageId);
    StaysIncreasing(accepted, e);
    var g' := Admit(g, e).1;
    assert SameMembers(g'.seen, g'.order);
  }

  /** One admission: the bounded guard answers as the full history does, and goes on standing for it. */
  lemma AdmitRefines(g: Guard, accepted: seq<Envelope>, e: Envelope)
    requires Represents(g, accepted)
    ensures Admit(g, e).0 == None <==> Fresh(accepted, e)
    ensures Represents(Admit(g, e).1, if Fresh(accepted, e) then accepted + [e] else accepted)
  {
    VerdictRefines(g, accepted, e);
    if Fresh(accepted, e) {
      AdmittedRepresents(g, accepted, e);
    }
  }

  lemma StaysIncreasing(accepted: seq<Envelope>, e: Envelope)
    requires forall i, j :: 0 <= i < j < |accepted| ==> accepted[i].sequence < accepted[j].sequence
    requires forall i :: 0 <= i < |accepted| ==> accepted[i].sequence < e.sequence
    ensures forall i, j :: 0 <= i < j < |accepted + [e]| ==> (accepted + [e])[i].sequence < (accepted + [e])[j].sequence
  {
  }

  lemma DistinctAppend(order: seq<Bytes>, id: Bytes)
    requires Distinct(order) && id !in order
    ensures Distinct(order + [id])
    ensures forall x :: x in (order + [id])[1..] <==> x in order + [id] && x != (order + [id])[0]
  {
    var all := order + [id];
    forall x | x in all && x != all[0]
      ensures x in all[1..]
    {
      var i :| 0 <= i < |all| && all[i] == x;
      assert all[1..][i - 1] == x;
    }
  }

  /** For every sequence of envelopes, the guard stands for its full history. */
  lemma {:induction false} GuardRefinesHistory(es: seq<Envelope>)
    ensures Represents(GuardAfter(es), AcceptedOf(es))
    ensures |GuardAfter(es).order| <= DEDUP_WINDOW
  {
    if es != [] {
      GuardRefinesHistory(es[..|es| - 1]);
      AdmitRefines(GuardAfter(es[..|es| - 1]), AcceptedOf(es[..|es| - 1]), es[|es| - 1]);
    }
  }

  /** The verdict on the next envelope, after anything at all: admitted exactly when it is fresh. */
  lemma VerdictIsFreshness(es: seq<Envelope>, e: Envelope)
    ensures Admit(GuardAfter(es), e).0 == None <==> Fresh(AcceptedOf(es), e)
  {
    GuardRefinesHistory(es);
    AdmitRefines(GuardAfter(es), AcceptedOf(es), e);
  }

  /** The guard admits the envelope at `i`, after all that came before it. */
  predicate AdmittedAt(es: seq<Envelope>, i: nat) {
    i < |es| && Admit(GuardAfter(es[..i]), es[i]).0 == None
  }

  /** What was admitted stays in the history. */
  lemma {:induction false} AdmittedStays(es: seq<Envelope>, i: nat, j: nat)
    requires i < j <= |es| && AdmittedAt(es, i)
    ensures es[i] in AcceptedOf(es[..j])
    decreases j
  {
    var front := es[..j - 1];
    assert es[..j][..j - 1] == front;
    if i == j - 1 {
      VerdictIsFreshness(front, es[i]);
    } else {
      AdmittedStays(es, i, j - 1);
    }
  }

  lemma FreshIsNew(accepted: seq<Envelope>, e: Envelope)
    requires Fresh(accepted, e)
    ensures e !in accepted
  {
  }

  /** However far apart two copies of an envelope arrive on a connection, the guard does not admit both. */
  lemma NeverTwice(es: seq<Envelope>, i: nat, j: nat)
    requires i < j && AdmittedAt(es, i) && AdmittedAt(es, j)
    ensures es[i] != es[j]
  {
    AdmittedStays(es, i, j);
    VerdictIsFreshness(es[..j], es[j]);
    FreshIsNew(AcceptedOf(es[..j]), es[j]);
  }

  // ---- the factory ----------------------------------------------------------------------------

  class EnvelopeFactory {
    var version: nat
    var sequence: nat

    constructor (version: nat)
      ensures this.version == version && sequence == 0
    {
      this.version, sequence := version, 0;
    }

    /** `messageId` is what the random generator gave. */
    method Build(body: Body, messageId: Bytes) returns (e: Envelope)
      modifies this
      ensures version == old(version) && sequence == old(sequence) + 1
      ensures e == Envelope(version, messageId, sequence, [], body)
    {
      sequence := sequence + 1;
      e := Envelope(version, messageId, sequence, [], body);
    }

    method BuildReply(body: Body, messageId: Bytes, correlate: Bytes) returns (e: Envelope)
      modifies this
      ensures version == old(version) && sequence == old(sequence) + 1
      ensures e == Envelope(version, messageId, sequence, correlate, body)
    {
      e := Build(body, messageId);
      e := e.(correlationId := correlate);
    }
  }

  /** Consecutive stamps of one factory, starting after `start`. */
  ghost predicate Stamped(es: seq<Envelope>, start: nat) {
    forall i :: 0 <= i < |es| ==> es[i].sequence == start + 1 + i
  }

  ghost predicate GoodIds(es: seq<Envelope>) {
    && (forall i, j :: 0 <= i < j < |es| ==> es[i].messageId != es[j].messageId)
    && (forall i :: 0 <= i < |es| ==> |es[i].messageId| == MESSAGE_ID_LEN)
  }

  lemma NextIsFresh(es: seq<Envelope>, k: nat)
    requires k < |es| && Stamped(es, 0) && GoodIds(es)
    ensures Accepting(es[..k], es[k]) == es[..k] + [es[k]]
  {
    var front, last := es[..k], es[k];
    assert forall i :: 0 <= i < |front| ==> front[i].messageId == es[i].messageId != last.messageId;
    NotRecent(front, last.messageId);
  }

  lemma AcceptsLast(front: seq<Envelope>, last: Envelope)
    requires AcceptedOf(front) == front && Accepting(front, last) == front + [last]
    ensures AcceptedOf(front + [last]) == front + [last]
  {
    assert (front + [last])[..|front|] == front;
  }

  lemma OneMore<T>(s: seq<T>, k: nat)
    requires k < |s|
    ensures s[..k] + [s[k]] == s[..k + 1]
  {
  }

  lemma AcceptsNext(es: seq<Envelope>, k: nat)
    requires k < |es| && AcceptedOf(es[..k]) == es[..k] && Accepting(es[..k], es[k]) == es[..k] + [es[k]]
    ensures AcceptedOf(es[..k + 1]) == es[..k + 1]
  {
    AcceptsLast(es[..k], es[k]);
    OneMore(es, k);
  }

  /** Everything one factory stamps, with distinct 16-byte ids, is admitted by a fresh guard. */
  lemma {:induction false} StampedIsAdmitted(es: seq<Envelope>, k: nat)
    requires k <= |es| && Stamped(es, 0) && GoodIds(es)
    ensures AcceptedOf(es[..k]) == es[..k]
  {
    if k > 0 {
      StampedIsAdmitted(es, k - 1);
      NextIsFresh(es, k - 1);
      AcceptsNext(es, k - 1);
    }
  }

  /** The same of the guard itself. */
  lemma StampedPassesGuard(es: seq<Envelope>, i: nat)
    requires i < |es| && Stamped(es, 0) && GoodIds(es)
    ensures AdmittedAt(es, i)
  {
    StampedIsAdmitted(es, i);
    NextIsFresh(es, i);
    VerdictIsFreshness(es[..i], es[i]);
  }

  /**
   From the sender's factory to the receiver's guard: whatever part of the byte stream arrives and
   however it ends, what is read is a prefix of what was sent, and the guard admits every envelope of it.
   */
  lemma WireRoundTrip(codec: Codec, es: seq<Envelope>, k: nat, ending: ReadError) returns (n: nat)
    requires AllSendable(codec, es) && Stamped(es, 0) && GoodIds(es)
    requires k <= |FrameAll(codec, es)|
    ensures n <= |es| && (k == |FrameAll(codec, es)| ==> n == |es|)
    ensures ReadAll(codec, FrameAll(codec, es)[..k], ending) == (es[..n], ending)
    ensures forall i :: 0 <= i < n ==> AdmittedAt(es, i)
  {
    n := CutReadsAsPrefix(codec, es, k, ending);
    if k == |FrameAll(codec, es)| {
      StreamRoundTrip(codec, es, ending);
      assert FrameAll(codec, es)[..k] == FrameAll(codec, es);
    }
    forall i | 0 <= i < n
      ensures AdmittedAt(es, i)
    {
      StampedPassesGuard(es, i);
    }
  }
}
