// The serial dispatcher: drains submissions, consults the cancel registry and
// posts completions. Its whole state is a function of the submissions it has
// dispatched.

module Dispatchers {
  import opened Words
  import opened Submissions
  import opened CancelRegistry
  import opened SerialRuns
  import opened PendingCancels

  // What the cancel protocol sees of a submission. The cap gate comes first, so
  // a refused submission is invisible, whatever its op.
  function Classify(bound: bool, e: Event): Move {
    if FirstRefusal(bound, e.sub.caps, e.foreign.lookups, 0).Some? then Refuse
    else if e.sub.op.Cancel? then Names(e.sub.CancelTarget())
    else Enters(e.sub.tag, e.sub.IsLinked())
  }

  function Moves(bound: bool, h: seq<Event>): (run: Run)
    ensures |run| == |h|
    ensures forall i :: 0 <= i < |h| ==> run[i] == Classify(bound, h[i])
  {
    seq(|h|, i requires 0 <= i < |h| => Classify(bound, h[i]))
  }

  // The completion posted for a submission dispatched in registry state r.
  function Reply(bound: bool, r: Registry, e: Event): (c: Completion)
    ensures c.tag == e.sub.tag && !c.status.Pending?
  {
    var refusal := FirstRefusal(bound, e.sub.caps, e.foreign.lookups, 0);
    if refusal.Some? then Completion(e.sub.tag, refusal.value, NO_RESULT)
    else if Stops(r, Classify(bound, e)) then CancelOutcome(e.sub.tag, e.sub.flags)
    else BodyCompletion(bound, e, false)
  }

  function ReplyAt(bound: bool, h: seq<Event>, i: nat): Completion
    requires i < |h|
  {
    Reply(bound, After(Moves(bound, h[..i])), h[i])
  }

  // Serial cancellation, on submissions and completions: with distinct tags and
  // before the chain allocator saturates, the reply to an entered submission is
  // the cancel outcome if an earlier cancel named it or an already entered
  // member of its chain, and the reply of its body, with an unset token,
  // otherwise.
  lemma SerialCancellation(bound: bool, h: seq<Event>, i: nat)
    requires i < |h| && Classify(bound, h[i]).Enters?
    requires DistinctTags(Moves(bound, h)) && Started(Moves(bound, h)) <= U32_MAX
    ensures CancelledBefore(Moves(bound, h), i) ==>
              ReplyAt(bound, h, i) ==
              Completion(h[i].sub.tag,
                         if Contains(h[i].sub.flags, CANCELLABLE) then Cancelled else CancelRequested,
                         NO_RESULT)
    ensures !CancelledBefore(Moves(bound, h), i) ==> ReplyAt(bound, h, i) == BodyCompletion(bound, h[i], false)
  {
    assert Moves(bound, h[..i]) == Moves(bound, h)[..i];
    ShortCircuitedIffNamed(Moves(bound, h), i);
  }

  // ---------------------------------------------------------------------
  // What every completion means, from the event alone
  // ---------------------------------------------------------------------

  // The gate fails on slot i: a capability is presented there, and there is no
  // table to find it in or the lookup refuses it.
  predicate FailsAt(bound: bool, e: Event, i: nat)
    requires i < 4
  {
    e.sub.caps[i] != CapSlot(0, 0, 0, 0) && (bound ==> e.foreign.lookups[i].Some?)
  }

  ghost predicate Passes(bound: bool, e: Event) {
    forall i :: 0 <= i < 4 ==> !FailsAt(bound, e, i)
  }

  // The gate fails on slot i first, and on no earlier one.
  ghost predicate FailsFirstAt(bound: bool, e: Event, i: nat) {
    i < 4 && FailsAt(bound, e, i) && forall j :: 0 <= j < i ==> !FailsAt(bound, e, j)
  }

  // The first refused lookup ends with one of these errors.
  ghost predicate RefusedWith(bound: bool, e: Event, errors: set<CapError>) {
    bound && exists i: nat :: FailsFirstAt(bound, e, i) && e.foreign.lookups[i].value in errors
  }

  // What the cancel protocol sees: bit 1 of the flags is LINKED, and a cancel
  // names its first operand.
  lemma MoveMeans(bound: bool, e: Event)
    ensures Classify(bound, e) ==
              if !Passes(bound, e) then Refuse
              else if e.sub.op.Cancel? then Names(e.sub.inline[0])
              else Enters(e.sub.tag, e.sub.flags & 2 == 2)
  {
    GateMeans(bound, e, 0);
  }

  // The status the gate answers with, from a slot on.
  lemma {:induction false} GateMeans(bound: bool, e: Event, from: nat)
    requires from <= 4 && forall j :: 0 <= j < from ==> !FailsAt(bound, e, j)
    ensures var r := FirstRefusal(bound, e.sub.caps, e.foreign.lookups, from);
            && (r.None? <==> Passes(bound, e))
            && (r == Some(CapRevoked) <==> RefusedWith(bound, e, {Revoked}))
            && (r == Some(Busy) <==> RefusedWith(bound, e, {CapTableFull}))
            && (r == Some(Forbidden) <==>
                  || (!bound && !Passes(bound, e))
                  || RefusedWith(bound, e, {DomainMismatch, TypeMismatch, RightsTooWeak, ObjectMismatch}))
    decreases 4 - from
  {
    if from < 4 {
      if FailsAt(bound, e, from) {
        assert FailsFirstAt(bound, e, from);
        assert forall i: nat :: FailsFirstAt(bound, e, i) ==> i == from;
      } else {
        GateMeans(bound, e, from + 1);
      }
    }
  }

  // A cancel reached submission i before it was dispatched.
  ghost predicate CancelReached(bound: bool, h: seq<Event>, i: nat)
    requires i < |h|
  {
    && Classify(bound, h[i]).Enters?
    && (NamedDirectly(Moves(bound, h), i) || NamedThroughChain(Moves(bound, h), i))
  }

  // The op body of submission i ran.
  ghost predicate Ran(bound: bool, h: seq<Event>, i: nat)
    requires i < |h|
  {
    Passes(bound, h[i]) && !CancelReached(bound, h, i)
  }

  predicate Transferred(bound: bool, e: Event) {
    e.sub.op.CapTransfer? && bound && e.foreign.transfer.Installed?
  }

  predicate TransferRefusedWith(bound: bool, e: Event, errors: set<CapError>) {
    e.sub.op.CapTransfer? && bound && e.foreign.transfer.Refused? && e.foreign.transfer.error in errors
  }

  // The reply in every history, with no assumption on tags or the allocator.
  lemma ReplyCases(bound: bool, h: seq<Event>, i: nat)
    requires i < |h|
    ensures Ran(bound, h, i) ==> ReplyAt(bound, h, i) == BodyCompletion(bound, h[i], false)
    ensures CancelReached(bound, h, i) ==> ReplyAt(bound, h, i) == CancelOutcome(h[i].sub.tag, h[i].sub.flags)
    ensures !Passes(bound, h[i]) ==>
              var r := FirstRefusal(bound, h[i].sub.caps, h[i].foreign.lookups, 0);
              r.Some? && ReplyAt(bound, h, i) == Completion(h[i].sub.tag, r.value, NO_RESULT)
    ensures CancelReached(bound, h, i) ==> Passes(bound, h[i])
  {
    MoveMeans(bound, h[i]);
    GateMeans(bound, h[i], 0);
    assert Moves(bound, h[..i]) == Moves(bound, h)[..i];
    if Classify(bound, h[i]).Enters? {
      ShortCircuitedIffCancelled(Moves(bound, h), i);
    }
  }

  // Every status, exactly: which submissions complete with it.
  lemma StatusMeans(bound: bool, h: seq<Event>, i: nat)
    requires i < |h|
    ensures var e, status, ran := h[i], ReplyAt(bound, h, i).status, Ran(bound, h, i);
            && (status == Ok <==>
                  ran && (|| e.sub.op in {Noop, Cancel, Yield}
                          || Transferred(bound, e)
                          || (e.sub.op.FileOp? && e.foreign.fileStatus == 0)
                          || (e.sub.op.CpuOp? && e.foreign.cpuStatus == 0)))
            && (status == InvalidOp <==>
                  ran && (|| e.sub.op in {RingSend, RingRecv, DomainEnter, DomainExit}
                          || (e.sub.op.FileOp? && e.foreign.fileStatus !in {0, 2})
                          || (e.sub.op.CpuOp? && e.foreign.cpuStatus !in {0, 2, 8, 9})))
            && (status == Unsupported <==> ran && e.sub.op.CpuOp? && e.foreign.cpuStatus == 9)
            && (status == Cancelled <==>
                  (CancelReached(bound, h, i) || (ran && BridgeCancelled(e))) && e.sub.flags & 1 == 1)
            && (status == CancelRequested <==>
                  (CancelReached(bound, h, i) || (ran && BridgeCancelled(e))) && e.sub.flags & 1 == 0)
            && status != Pending && status != Closed
  {
    ReplyCases(bound, h, i);
  }

  // The statuses of a capability that fails, at the gate or in a transfer.
  lemma RefusalMeans(bound: bool, h: seq<Event>, i: nat)
    requires i < |h|
    ensures var e, status, ran := h[i], ReplyAt(bound, h, i).status, Ran(bound, h, i);
            var wrong := {DomainMismatch, TypeMismatch, RightsTooWeak, ObjectMismatch};
            && (status == CapRevoked <==>
                  RefusedWith(bound, e, {Revoked}) || (ran && TransferRefusedWith(bound, e, {Revoked})))
            && (status == Busy <==>
                  RefusedWith(bound, e, {CapTableFull}) || (ran && TransferRefusedWith(bound, e, {CapTableFull})))
            && (status == Forbidden <==>
                  || (!bound && !Passes(bound, e))
                  || RefusedWith(bound, e, wrong)
                  || (ran && e.sub.op.CapTransfer? && !bound)
                  || (ran && TransferRefusedWith(bound, e, wrong))
                  || (ran && e.sub.op.CpuOp? && e.foreign.cpuStatus == 8))
  {
    ReplyCases(bound, h, i);
    GateMeans(bound, h[i], 0);
  }

  // Every payload, exactly.
  lemma PayloadMeans(bound: bool, h: seq<Event>, i: nat)
    requires i < |h|
    ensures var e, c, ran := h[i], ReplyAt(bound, h, i), Ran(bound, h, i);
            && c.tag == e.sub.tag
            && c.result ==
               if ran && Transferred(bound, e) then [e.foreign.transfer.slot, 0, 0, 0, 0, 0]
               else if ran && e.sub.op.FileOp? && e.foreign.fileStatus == 0 then [e.foreign.fileValue, 0, 0, 0, 0, 0]
               else if ran && e.sub.op.CpuOp? && e.foreign.cpuStatus != 2 then e.foreign.cpuResult
               else [0, 0, 0, 0, 0, 0]
  {
    ReplyCases(bound, h, i);
  }

  // A submission completes as cancelled exactly when it passed the gate and was
  // cancelled before, or its bridge said so; a cancel itself never does.
  lemma CancelStatusMeans(bound: bool, h: seq<Event>, i: nat)
    requires i < |h|
    requires DistinctTags(Moves(bound, h)) && Started(Moves(bound, h)) <= U32_MAX
    ensures IsCancelStatus(ReplyAt(bound, h, i).status) <==>
              && Classify(bound, h[i]).Enters?
              && (CancelledBefore(Moves(bound, h), i) || BridgeCancelled(h[i]))
  {
    BodyCancelMeans(bound, h[i]);
    if Classify(bound, h[i]).Enters? {
      SerialCancellation(bound, h, i);
    }
  }

  lemma AppendEvent(bound: bool, h: seq<Event>, e: Event)
    ensures After(Moves(bound, h + [e])) == Step(After(Moves(bound, h)), Classify(bound, e))
    ensures forall k :: 0 <= k < |h| ==> ReplyAt(bound, h + [e], k) == ReplyAt(bound, h, k)
    ensures ReplyAt(bound, h + [e], |h|) == Reply(bound, After(Moves(bound, h)), e)
  {
    var g := h + [e];
    assert Moves(bound, g)[..|h|] == Moves(bound, h);
    assert g[..|h|] == h;
    assert forall k :: 0 <= k < |h| ==> g[..k] == h[..k];
  }

  // How many submissions are dispatched before the queue is found closed.
  function Handled(events: seq<Event>): (n: nat)
    ensures n <= |events|
  {
    if events == [] then 0
    else if !events[0].foreign.delivered then 1
    else 1 + Handled(events[1..])
  }

  class Dispatcher {
    const bound: bool
    const pending: Pending
    var cq: seq<Completion>
    var cqOpen: bool
    ghost var dispatched: seq<Event>

    // Between dispatches nothing is in flight, the registry is the one the
    // dispatched submissions produce, and the completion queue answers them in
    // order; only the answer that found the queue closed is missing.
    ghost predicate Valid()
      reads this, pending
    {
      && pending.Valid() && pending.inflight == []
      && pending.Reg() == After(Moves(bound, dispatched))
      && |dispatched| == |cq| + (if cqOpen then 0 else 1)
      && (forall k :: 0 <= k < |cq| ==> cq[k] == ReplyAt(bound, dispatched, k))
    }

    constructor (bound: bool)
      ensures Valid() && fresh(pending) && cqOpen && dispatched == [] && this.bound == bound
    {
      this.bound := bound;
      pending := new Pending();
      cq, cqOpen, dispatched := [], true, [];
    }

    method DispatchOne(e: Event) returns (completion: Completion)
      requires pending.Valid() && pending.inflight == []
      modifies pending
      ensures pending.Valid() && pending.inflight == []
      ensures pending.Reg() == Step(old(pending.Reg()), Classify(bound, e))
      ensures completion == Reply(bound, old(pending.Reg()), e)
    {
      var sub := e.sub;
      var refusal := ValidateSubmissionCaps(bound, sub.caps, e.foreign.lookups);
      if refusal.Some? {
        return Completion(sub.tag, refusal.value, NO_RESULT);
      }
      var chain := pending.Enter(sub);
      if sub.op.Cancel? {
        pending.Request(sub.CancelTarget());
        pending.SignalInflight(sub.CancelTarget());
        return BodyCompletion(bound, e, false);
      }
      var hit := pending.Consume(sub.tag, chain);
      if hit {
        return CancelOutcome(sub.tag, sub.flags);
      }
      var token := pending.EnterInflight(sub.tag, chain);
      completion := BodyCompletion(bound, e, token.requested);
      pending.ExitInflight(sub.tag);
    }

    // One turn of the loop: dispatch a submission and post its completion.
    method Turn(e: Event)
      requires Valid() && cqOpen
      modifies this, pending
      ensures Valid()
      ensures dispatched == old(dispatched) + [e] && cqOpen == e.foreign.delivered
      ensures old(cq) <= cq
    {
      AppendEvent(bound, dispatched, e);
      var completion := DispatchOne(e);
      dispatched := dispatched + [e];
      if e.foreign.delivered {
        cq := cq + [completion];
      } else {
        cqOpen := false;
      }
    }

    // The dispatch loop: ends when the submissions do, or when a completion
    // cannot be posted.
    method Run(events: seq<Event>)
      requires Valid() && cqOpen
      modifies this, pending
      ensures Valid()
      ensures dispatched == old(dispatched) + events[..Handled(events)]
      ensures cqOpen ==> Handled(events) == |events|
      ensures old(cq) <= cq
    {
      var i := 0;
      while i < |events| && cqOpen
        invariant Valid() && 0 <= i <= |events|
        invariant dispatched == old(dispatched) + events[..i]
        invariant Handled(events) == if cqOpen then i + Handled(events[i..]) else i
        invariant old(cq) <= cq
      {
        assert events[i..][1..] == events[i + 1..];
        Turn(events[i]);
        i := i + 1;
      }
    }

    // Completion tags are the submission tags, in order, and none is Pending.
    lemma CompletionsFollowSubmissions()
      requires Valid()
      ensures |cq| <= |dispatched| <= |cq| + 1
      ensures forall k :: 0 <= k < |cq| ==> cq[k].tag == dispatched[k].sub.tag && !cq[k].status.Pending?
    {
    }
  }
}
