// Serial dispatch, reduced to what the cancel protocol sees of each submission.
// A run is the sequence of moves one dispatcher has made; the theorems say which
// moves of an arbitrary run are short-circuited, in terms of the run alone.

module SerialRuns {
  import opened Words
  import opened CancelRegistry

  // A refused submission never reaches the registry; a cancel names a tag;
  // everything else enters with its tag and its LINKED flag.
  datatype Move = Refuse | Enters(tag: u64, linked: bool) | Names(target: u64)

  type Run = seq<Move>

  predicate EntersAs(m: Move, tag: u64) {
    m.Enters? && m.tag == tag
  }

  predicate CancelOf(m: Move, tag: u64) {
    m.Names? && m.target == tag
  }

  function Step(r: Registry, m: Move): Registry {
    match m
    case Refuse => r
    case Enters(tag, linked) => Consume(Enter(r, tag, linked), tag)
    case Names(target) => Request(r, target)
  }

  // Whether the pre-check stops this move before its op body runs.
  predicate Stops(r: Registry, m: Move) {
    m.Enters? && var s := Enter(r, m.tag, m.linked); Hit(s, m.tag, s.lastChain)
  }

  function After(h: Run): Registry {
    if h == [] then EMPTY else Step(After(h[..|h| - 1]), h[|h| - 1])
  }

  // The chain id given to the move at position i.
  function ChainId(h: Run, i: nat): u32
    requires i < |h|
  {
    After(h[..i + 1]).lastChain
  }

  predicate IsShortCircuited(h: Run, i: nat)
    requires i < |h|
  {
    Stops(After(h[..i]), h[i])
  }

  // ---------------------------------------------------------------------
  // Chain structure
  // ---------------------------------------------------------------------

  // How many chains a history starts: an entered submission starts one unless
  // it is LINKED and something was entered before it.
  ghost function Started(h: Run): nat {
    if h == [] then 0
    else
      var before := Started(h[..|h| - 1]);
      var e := h[|h| - 1];
      if e.Enters? && (!e.linked || before == 0) then before + 1 else before
  }

  // The allocator is a saturating count of the chains started.
  lemma {:induction false} AllocatorCountsChains(h: Run)
    ensures After(h).lastChain == Saturating(Started(h))
    ensures After(h).nextChain == Saturating(Started(h) + 1)
  {
    if h != [] {
      AllocatorCountsChains(h[..|h| - 1]);
    }
  }

  lemma PrefixOfPrefix<T>(s: seq<T>, i: nat, j: nat)
    requires i <= j <= |s|
    ensures s[..j][..i] == s[..i]
  {
  }

  // Every entered submission after i, up to and including j, carries LINKED.
  ghost predicate LinkedThrough(h: Run, i: nat, j: nat)
    requires i <= j < |h|
  {
    forall m :: i < m <= j && h[m].Enters? ==> h[m].linked
  }

  // Between two positions the count of started chains is unchanged exactly
  // when everything entered in between is LINKED.
  lemma {:induction false} StartedBetween(h: Run, i: nat, j: nat)
    requires i <= j < |h| && h[i].Enters?
    ensures 0 < Started(h[..i + 1]) <= Started(h[..j + 1])
    ensures Started(h[..i + 1]) == Started(h[..j + 1]) <==> LinkedThrough(h, i, j)
    decreases j
  {
    PrefixOfPrefix(h, j, j + 1);
    if i < j {
      StartedBetween(h, i, j - 1);
      assert LinkedThrough(h, i, j) <==>
               LinkedThrough(h, i, j - 1) && (h[j].Enters? ==> h[j].linked);
    }
  }

  // Two entered submissions share a chain id exactly when the later one is
  // reached from the earlier through LINKED submissions only, or the allocator
  // had already saturated at the earlier one. Cancels and gate-refused
  // submissions do not matter.
  lemma SharedChain(h: Run, i: nat, j: nat)
    requires i <= j < |h| && h[i].Enters? && h[j].Enters?
    ensures ChainId(h, i) == ChainId(h, j) <==>
              LinkedThrough(h, i, j) || Started(h[..i + 1]) >= U32_MAX
  {
    AllocatorCountsChains(h[..i + 1]);
    AllocatorCountsChains(h[..j + 1]);
    StartedBetween(h, i, j);
  }

  // The logged ids start at 1 and rise by 0 or 1 per entered submission.
  ghost predicate RisesFromOne(log: seq<(u64, u32)>) {
    && (log != [] ==> log[0].1 == 1)
    && forall j, k :: 0 <= j < k < |log| && k == j + 1 ==> 0 <= log[k].1 as int - log[j].1 <= 1
  }

  ghost predicate AllocatorFollowsLog(r: Registry) {
    && r.lastChain == (if r.chainOf == [] then 0 else r.chainOf[|r.chainOf| - 1].1)
    && r.nextChain == Saturating(r.lastChain + 1)
  }

  lemma AppendKeepsRising(log: seq<(u64, u32)>, entry: (u64, u32))
    requires RisesFromOne(log)
    requires if log == [] then entry.1 == 1 else 0 <= entry.1 as int - log[|log| - 1].1 <= 1
    ensures RisesFromOne(log + [entry])
  {
    assert (log + [entry])[..|log|] == log;
  }

  lemma StepKeepsLogRising(r: Registry, m: Move)
    requires RisesFromOne(r.chainOf) && AllocatorFollowsLog(r)
    ensures RisesFromOne(Step(r, m).chainOf) && AllocatorFollowsLog(Step(r, m))
  {
    if m.Enters? {
      AppendKeepsRising(r.chainOf, (m.tag, Enter(r, m.tag, m.linked).lastChain));
    }
  }

  lemma {:induction false} LogRisesFromOne(h: Run)
    ensures RisesFromOne(After(h).chainOf) && AllocatorFollowsLog(After(h))
  {
    if h != [] {
      LogRisesFromOne(h[..|h| - 1]);
      StepKeepsLogRising(After(h[..|h| - 1]), h[|h| - 1]);
    }
  }

  // ---------------------------------------------------------------------
  // What the registry remembers
  // ---------------------------------------------------------------------

  // A cancel named the tag at j and nothing with that tag entered since.
  ghost predicate PendingSince(h: Run, j: nat, tag: u64)
    requires j < |h|
  {
    CancelOf(h[j], tag) && forall m :: j < m < |h| ==> !EntersAs(h[m], tag)
  }

  lemma StepKeepsNoDuplicates(r: Registry, m: Move)
    requires NoDuplicates(r.tags) && NoDuplicates(r.chains)
    ensures NoDuplicates(Step(r, m).tags) && NoDuplicates(Step(r, m).chains)
  {
    match m
    case Refuse =>
    case Enters(tag, linked) => ConsumeRemovesOnlyTag(Enter(r, tag, linked), tag);
    case Names(target) => RequestKeepsNoDuplicates(r, target);
  }

  lemma StepTags(r: Registry, m: Move, tag: u64)
    requires NoDuplicates(r.tags)
    ensures tag in Step(r, m).tags <==> CancelOf(m, tag) || (tag in r.tags && !EntersAs(m, tag))
  {
    if m.Enters? {
      ConsumeRemovesOnlyTag(Enter(r, m.tag, m.linked), m.tag);
    }
  }

  lemma {:induction false} NeverDuplicates(h: Run)
    ensures NoDuplicates(After(h).tags) && NoDuplicates(After(h).chains)
  {
    if h != [] {
      var r, e := After(h[..|h| - 1]), h[|h| - 1];
      NeverDuplicates(h[..|h| - 1]);
      StepKeepsNoDuplicates(r, e);
    }
  }

  lemma {:induction false} TagsArePending(h: Run, tag: u64)
    ensures tag in After(h).tags <==> exists j :: 0 <= j < |h| && PendingSince(h, j, tag)
  {
    if h != [] {
      var n := |h| - 1;
      var before, e := h[..n], h[n];
      var r := After(before);
      TagsArePending(before, tag);
      NeverDuplicates(before);
      StepTags(r, e, tag);
      forall j | 0 <= j < n
        ensures PendingSince(h, j, tag) <==>
                  PendingSince(before, j, tag) && !EntersAs(e, tag)
      {
        if PendingSince(before, j, tag) && !EntersAs(e, tag) {
          forall m | j < m < |h|
            ensures !EntersAs(h[m], tag)
          {
            assert m < n ==> before[m] == h[m];
          }
        }
        if PendingSince(h, j, tag) {
          forall m | j < m < n
            ensures !EntersAs(before[m], tag)
          {
            assert before[m] == h[m];
          }
        }
      }
      if CancelOf(e, tag) {
        assert PendingSince(h, n, tag);
      }
    }
  }

  // The position of the first entered submission with a tag, or the length.
  ghost function FirstIndex(h: Run, tag: u64): (k: nat)
    ensures k <= |h|
    ensures k < |h| ==> EntersAs(h[k], tag)
    ensures forall m :: 0 <= m < k ==> !EntersAs(h[m], tag)
  {
    if h == [] then 0
    else
      var n := |h| - 1;
      var k := FirstIndex(h[..n], tag);
      if k < n || EntersAs(h[n], tag) then k else n + 1
  }

  ghost predicate FirstEntry(h: Run, k: nat, tag: u64)
    requires k < |h|
  {
    EntersAs(h[k], tag) && forall m :: 0 <= m < k ==> !EntersAs(h[m], tag)
  }

  lemma StepLookup(r: Registry, m: Move, tag: u64)
    ensures Lookup(Step(r, m).chainOf, tag) ==
              if Lookup(r.chainOf, tag).Some? || !EntersAs(m, tag) then Lookup(r.chainOf, tag)
              else Some(Step(r, m).lastChain)
  {
    if m.Enters? {
      LookupAppend(r.chainOf, (m.tag, Enter(r, m.tag, m.linked).lastChain), tag);
    }
  }

  // The log answers with the chain id of the first entered submission.
  lemma {:induction false} LogFindsFirstEntry(h: Run, tag: u64)
    ensures Lookup(After(h).chainOf, tag) ==
              if FirstIndex(h, tag) < |h| then Some(ChainId(h, FirstIndex(h, tag))) else None
  {
    if h != [] {
      var n := |h| - 1;
      LogFindsFirstEntry(h[..n], tag);
      StepLookup(After(h[..n]), h[n], tag);
      if FirstIndex(h[..n], tag) < n {
        PrefixOfPrefix(h, FirstIndex(h[..n], tag) + 1, n);
      } else {
        assert h[..n + 1] == h;
      }
    }
  }

  // A cancel at j found the chain of an entry that was there before it.
  ghost predicate Marked(h: Run, j: nat, chain: u32)
    requires j < |h|
  {
    && h[j].Names?
    && Lookup(After(h[..j]).chainOf, h[j].target) == Some(chain)
  }

  lemma {:induction false} ChainsAreMarked(h: Run, chain: u32)
    ensures chain in After(h).chains <==> exists j :: 0 <= j < |h| && Marked(h, j, chain)
  {
    if h != [] {
      var n := |h| - 1;
      var before := h[..n];
      ChainsAreMarked(before, chain);
      forall j | 0 <= j < n
        ensures Marked(h, j, chain) <==> Marked(before, j, chain)
      {
        PrefixOfPrefix(h, j, n);
      }
      assert Marked(h, n, chain) <==>
               h[n].Names?
               && Lookup(After(before).chainOf, h[n].target) == Some(chain);
    }
  }

  // ---------------------------------------------------------------------
  // Which submissions are short-circuited
  // ---------------------------------------------------------------------

  // An earlier cancel named the tag of submission i, and no submission with
  // that tag entered in between to use it up.
  ghost predicate NamedDirectly(h: Run, i: nat)
    requires i < |h| && h[i].Enters?
  {
    exists j :: 0 <= j < i && CancelOf(h[j], h[i].tag)
                && forall m :: j < m < i ==> !EntersAs(h[m], h[i].tag)
  }

  // The cancel at j found entry k, and k has the chain id of submission i.
  ghost predicate ReachesThrough(h: Run, i: nat, j: nat, k: nat)
    requires k < j < i < |h|
  {
    && h[j].Names?
    && FirstEntry(h, k, h[j].target)
    && ChainId(h, k) == ChainId(h, i)
  }

  ghost predicate NamedThroughChain(h: Run, i: nat)
    requires i < |h|
  {
    exists j, k :: 0 <= k < j < i && ReachesThrough(h, i, j, k)
  }

  lemma PendingBefore(h: Run, i: nat)
    requires i < |h| && h[i].Enters?
    ensures h[i].tag in After(h[..i]).tags <==> NamedDirectly(h, i)
  {
    var tag, before := h[i].tag, h[..i];
    TagsArePending(before, tag);
    forall j | 0 <= j < i
      ensures PendingSince(before, j, tag) <==>
                CancelOf(h[j], tag) && forall m :: j < m < i ==> !EntersAs(h[m], tag)
    {
      assert forall m :: 0 <= m < i ==> before[m] == h[m];
    }
  }

  lemma MarkFindsEntry(h: Run, i: nat, j: nat)
    requires j < i < |h| && h[j].Names?
    ensures Marked(h, j, ChainId(h, i)) <==> exists k :: 0 <= k < j && ReachesThrough(h, i, j, k)
  {
    var target := h[j].target;
    var k := FirstIndex(h[..j], target);
    LogFindsFirstEntry(h[..j], target);
    assert forall m :: 0 <= m < j ==> h[..j][m] == h[m];
    if k < j {
      PrefixOfPrefix(h, k + 1, j);
      assert FirstEntry(h, k, target);
      assert ReachesThrough(h, i, j, k) <==> ChainId(h, k) == ChainId(h, i);
    }
    forall k' | 0 <= k' < j && FirstEntry(h, k', target)
      ensures k' == k
    {
      assert k < j ==> EntersAs(h[k], target);
      assert h[..j][k'] == h[k'];
    }
  }

  lemma MarkedBefore(h: Run, i: nat)
    requires i < |h|
    ensures ChainId(h, i) in After(h[..i]).chains <==> NamedThroughChain(h, i)
  {
    var before, chain := h[..i], ChainId(h, i);
    ChainsAreMarked(before, chain);
    forall j | 0 <= j < i
      ensures Marked(before, j, chain) <==> exists k :: 0 <= k < j && ReachesThrough(h, i, j, k)
    {
      PrefixOfPrefix(h, j, i);
      if h[j].Names? {
        MarkFindsEntry(h, i, j);
      }
    }
    if NamedThroughChain(h, i) {
      var j, k :| 0 <= k < j < i && ReachesThrough(h, i, j, k);
      assert Marked(before, j, chain);
    }
  }

  // Every history, with no assumption on tags or on the allocator: an entered
  // submission is short-circuited exactly when a cancel reached it.
  lemma ShortCircuitedIffCancelled(h: Run, i: nat)
    requires i < |h| && h[i].Enters?
    ensures IsShortCircuited(h, i) <==> NamedDirectly(h, i) || NamedThroughChain(h, i)
  {
    PendingBefore(h, i);
    MarkedBefore(h, i);
    assert h[..i + 1][..i] == h[..i];
  }

  // Tags of entered submissions are pairwise distinct.
  ghost predicate DistinctTags(h: Run) {
    forall i, j :: 0 <= i < j < |h| && h[i].Enters? && h[j].Enters? ==> h[i].tag != h[j].tag
  }

  // An earlier cancel named submission i, or named a member of its LINKED run
  // that had entered before that cancel.
  ghost predicate CancelledBefore(h: Run, i: nat)
    requires i < |h| && h[i].Enters?
  {
    || (exists j :: 0 <= j < i && CancelOf(h[j], h[i].tag))
    || (exists j, k :: 0 <= k < j < i && h[k].Enters? && CancelOf(h[j], h[k].tag) && LinkedThrough(h, k, i))
  }

  // With distinct tags and an unsaturated allocator, that is the whole rule.
  lemma ShortCircuitedIffNamed(h: Run, i: nat)
    requires i < |h| && h[i].Enters?
    requires DistinctTags(h) && Started(h) <= U32_MAX
    ensures IsShortCircuited(h, i) <==> CancelledBefore(h, i)
  {
    ShortCircuitedIffCancelled(h, i);
    forall j, k | 0 <= k < j < i
      ensures ReachesThrough(h, i, j, k) <==>
                h[k].Enters? && CancelOf(h[j], h[k].tag) && LinkedThrough(h, k, i)
    {
      if h[k].Enters? {
        SharedChain(h, k, i);
        UnsaturatedPrefix(h, k, i);
      }
    }
  }

  lemma UnsaturatedPrefix(h: Run, k: nat, i: nat)
    requires k < i < |h| && h[k].Enters? && h[i].Enters?
    requires Started(h) <= U32_MAX
    ensures Started(h[..k + 1]) >= U32_MAX ==> LinkedThrough(h, k, i)
  {
    StartedBetween(h, k, i);
    StartedBetween(h, i, |h| - 1);
    assert h[..|h|] == h;
  }

  // ---------------------------------------------------------------------
  // Conservation: no cancel of a tag is spent twice, tags may repeat
  // ---------------------------------------------------------------------

  ghost function CancelsOf(h: Run, tag: u64): nat {
    if h == [] then 0
    else CancelsOf(h[..|h| - 1], tag) + FromBit(CancelOf(h[|h| - 1], tag))
  }

  // Cancels that found their tag already pending.
  ghost function Absorbed(h: Run, tag: u64): nat {
    if h == [] then 0
    else
      Absorbed(h[..|h| - 1], tag)
      + FromBit(CancelOf(h[|h| - 1], tag) && tag in After(h[..|h| - 1]).tags)
  }

  // Submissions short-circuited because their own tag was pending.
  ghost function TagHits(h: Run, tag: u64): nat {
    if h == [] then 0
    else
      TagHits(h[..|h| - 1], tag)
      + FromBit(EntersAs(h[|h| - 1], tag) && tag in After(h[..|h| - 1]).tags)
  }

  lemma {:induction false} CancelsAreConserved(h: Run, tag: u64)
    ensures CancelsOf(h, tag) ==
              TagHits(h, tag) + FromBit(tag in After(h).tags) + Absorbed(h, tag)
  {
    if h != [] {
      var before, e := h[..|h| - 1], h[|h| - 1];
      CancelsAreConserved(before, tag);
      NeverDuplicates(before);
      StepTags(After(before), e, tag);
    }
  }
}
