// Ring entries, completion statuses and the capability gate of the ABI.

module Submissions {
  import opened Words

  datatype FileOpKind = Open | Read | Write | Close | Mmap | Munmap

  datatype CpuOpKind =
    | Topology | PerfState | RaplEnergy | LatencyHint | LatencyRelease
    | SetFreqRange | SetEpp | SetGovernor | SetEnergyBudget | ClearEnergyBudget

  datatype OpCode =
    | Noop
    | Cancel
    | RingSend
    | RingRecv
    | Yield
    | DomainEnter
    | DomainExit
    | CapTransfer
    | FileOp(file: FileOpKind)
    | CpuOp(cpu: CpuOpKind)

  datatype NarfStatus =
    | Ok | Pending | Cancelled | CancelRequested | CapRevoked
    | InvalidOp | Busy | Closed | Forbidden | Unsupported

  datatype CapError =
    | Revoked | DomainMismatch | TypeMismatch | RightsTooWeak | CapTableFull | ObjectMismatch

  datatype CapSlot = CapSlot(generation: u32, index: u32, rights: u32, typeTag: u32) {
    predicate IsEmpty() {
      this == EMPTY_SLOT
    }
  }

  const EMPTY_SLOT := CapSlot(0, 0, 0, 0)
  const NO_RESULT: Payload := [0, 0, 0, 0, 0, 0]

  type Caps = s: seq<CapSlot> | |s| == 4 witness [EMPTY_SLOT, EMPTY_SLOT, EMPTY_SLOT, EMPTY_SLOT]
  type Payload = s: seq<u64> | |s| == 6 witness [0, 0, 0, 0, 0, 0]

  // Submission flags are a bit set on the wire.
  const CANCELLABLE: bv32 := 1
  const LINKED: bv32 := 2

  predicate Contains(flags: bv32, wanted: bv32) {
    flags & wanted == wanted
  }

  datatype Submission =
    Submission(op: OpCode, flags: bv32, caps: Caps, tag: u64, inline: Payload)
  {
    function CancelTarget(): u64 {
      inline[0]
    }

    predicate IsLinked() {
      Contains(flags, LINKED)
    }
  }

  datatype Completion = Completion(tag: u64, status: NarfStatus, result: Payload)

  function CancelOutcome(tag: u64, flags: bv32): Completion {
    Completion(tag, if Contains(flags, CANCELLABLE) then Cancelled else CancelRequested, NO_RESULT)
  }

  function CapErrorStatus(e: CapError): NarfStatus {
    match e
    case Revoked => CapRevoked
    case CapTableFull => Busy
    case _ => Forbidden
  }

  // What the code outside the dispatcher answers while one submission is
  // handled: the per-slot capability lookup, the capability transfer, the file
  // and CPU bridges, and whether the completion could be posted.
  datatype Foreign = Foreign(
    lookups: Lookups,
    transfer: Transfer,
    fileStatus: u32,
    fileValue: u64,
    cpuStatus: u32,
    cpuResult: Payload,
    delivered: bool)

  type Lookups = s: seq<Option<CapError>> | |s| == 4 witness [None, None, None, None]

  datatype Transfer = Installed(slot: u32) | Refused(error: CapError)

  datatype Event = Event(sub: Submission, foreign: Foreign)

  predicate Resolves(bound: bool, caps: Caps, lookups: Lookups, i: nat)
    requires i < 4
  {
    caps[i].IsEmpty() || (bound && lookups[i].None?)
  }

  // The status of the first presented capability, from a slot on, that does
  // not resolve against the submitting task's table. An unbound dispatcher has
  // no table, so it refuses every presented capability.
  function FirstRefusal(bound: bool, caps: Caps, lookups: Lookups, from: nat): (r: Option<NarfStatus>)
    requires from <= 4
    ensures r.None? <==> forall i :: from <= i < 4 ==> Resolves(bound, caps, lookups, i)
    ensures r.Some? ==> r.value in {CapRevoked, Busy, Forbidden}
    decreases 4 - from
  {
    if from == 4 then None
    else if Resolves(bound, caps, lookups, from) then FirstRefusal(bound, caps, lookups, from + 1)
    else Some(if !bound then Forbidden else CapErrorStatus(lookups[from].value))
  }

  // The cap gate: a scan over the four slots that stops at the first refusal.
  method ValidateSubmissionCaps(bound: bool, caps: Caps, lookups: Lookups)
    returns (refusal: Option<NarfStatus>)
    ensures refusal == FirstRefusal(bound, caps, lookups, 0)
  {
    var i := 0;
    while i < 4
      invariant 0 <= i <= 4
      invariant FirstRefusal(bound, caps, lookups, 0) == FirstRefusal(bound, caps, lookups, i)
    {
      if !caps[i].IsEmpty() {
        if !bound {
          return Some(Forbidden);
        }
        if lookups[i].Some? {
          return Some(CapErrorStatus(lookups[i].value));
        }
      }
      i := i + 1;
    }
    return None;
  }

  // The completion an op body produces, given whether its cancel token is set
  // when it is polled.
  function BodyCompletion(bound: bool, e: Event, requested: bool): Completion {
    var sub := e.sub;
    var foreign := e.foreign;
    match sub.op
    case Noop => Completion(sub.tag, Ok, NO_RESULT)
    case Cancel => Completion(sub.tag, Ok, NO_RESULT)
    case CapTransfer =>
      if !bound then Completion(sub.tag, Forbidden, NO_RESULT)
      else (match foreign.transfer
            case Installed(slot) => Completion(sub.tag, Ok, [slot, 0, 0, 0, 0, 0])
            case Refused(error) => Completion(sub.tag, CapErrorStatus(error), NO_RESULT))
    case Yield =>
      if requested then CancelOutcome(sub.tag, sub.flags) else Completion(sub.tag, Ok, NO_RESULT)
    case FileOp(_) =>
      if foreign.fileStatus == 0 then Completion(sub.tag, Ok, [foreign.fileValue, 0, 0, 0, 0, 0])
      else if foreign.fileStatus == 2 then CancelOutcome(sub.tag, sub.flags)
      else Completion(sub.tag, InvalidOp, NO_RESULT)
    case CpuOp(_) =>
      if foreign.cpuStatus == 2 then CancelOutcome(sub.tag, sub.flags)
      else Completion(sub.tag,
                      if foreign.cpuStatus == 0 then Ok
                      else if foreign.cpuStatus == 8 then Forbidden
                      else if foreign.cpuStatus == 9 then Unsupported
                      else InvalidOp,
                      foreign.cpuResult)
    case _ => Completion(sub.tag, InvalidOp, NO_RESULT)
  }

  predicate IsCancelStatus(status: NarfStatus) {
    status.Cancelled? || status.CancelRequested?
  }

  // A file or CPU bridge reported that it was cancelled.
  predicate BridgeCancelled(e: Event) {
    (e.sub.op.FileOp? && e.foreign.fileStatus == 2) || (e.sub.op.CpuOp? && e.foreign.cpuStatus == 2)
  }

  // A body whose token is unset reports a cancel only if its bridge does.
  lemma BodyCancelMeans(bound: bool, e: Event)
    ensures IsCancelStatus(BodyCompletion(bound, e, false).status) <==> BridgeCancelled(e)
  {
  }
}
