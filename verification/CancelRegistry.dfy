// The pending-cancel registry: what each locked method does to the tag list,
// the marked chains, the tag-to-chain log, the chain allocator and the tokens
// of the ops in flight.

module CancelRegistry {
  import opened Words

  // Everything behind the registry lock except the in-flight tokens.
  datatype Registry = Registry(
    tags: seq<u64>,
    chains: seq<u32>,
    chainOf: seq<(u64, u32)>,
    lastChain: u32,
    nextChain: u32)

  const EMPTY := Registry([], [], [], 0, 1)

  // A token as seen from outside: `id` is its identity, shared between the
  // in-flight list and the op that owns it.
  datatype Token<T> = Token(id: T, tag: u64, requested: bool)

  function Saturating(n: int): (r: u32)
    requires 0 <= n
    ensures n <= U32_MAX ==> r == n
    ensures n >= U32_MAX ==> r == U32_MAX
  {
    if n <= U32_MAX then n else U32_MAX
  }

  // The chain logged by the earliest entry for a tag.
  function Lookup(log: seq<(u64, u32)>, tag: u64): (r: Option<u32>) {
    if log == [] then None
    else
      var earlier := Lookup(log[..|log| - 1], tag);
      if earlier.Some? then earlier
      else if log[|log| - 1].0 == tag then Some(log[|log| - 1].1)
      else None
  }

  lemma LookupIsFirstMatch(log: seq<(u64, u32)>, tag: u64)
    ensures Lookup(log, tag).None? <==> forall k :: 0 <= k < |log| ==> log[k].0 != tag
    ensures Lookup(log, tag).Some? ==>
              exists k :: 0 <= k < |log| && log[k] == (tag, Lookup(log, tag).value)
                          && forall j :: 0 <= j < k ==> log[j].0 != tag
  {
    if log != [] {
      LookupIsFirstMatch(log[..|log| - 1], tag);
    }
  }

  lemma LookupAppend(log: seq<(u64, u32)>, entry: (u64, u32), tag: u64)
    ensures Lookup(log + [entry], tag) ==
              if Lookup(log, tag).Some? then Lookup(log, tag)
              else if entry.0 == tag then Some(entry.1) else None
  {
    assert (log + [entry])[..|log|] == log;
  }

  function IndexOf<T(==)>(s: seq<T>, x: T): (r: nat)
    ensures r <= |s|
    ensures r < |s| ==> s[r] == x
    ensures forall k :: 0 <= k < r ==> s[k] != x
  {
    if s == [] then 0 else if s[0] == x then 0 else 1 + IndexOf(s[1..], x)
  }

  // Constant-time removal: the last element takes the place of the removed one.
  function SwapRemove<T>(s: seq<T>, i: nat): (r: seq<T>)
    requires i < |s|
  {
    s[i := s[|s| - 1]][..|s| - 1]
  }

  // `enter`: LINKED inherits the chain of the previously entered submission.
  function Enter(r: Registry, tag: u64, linked: bool): Registry {
    if linked && r.lastChain != 0 then
      r.(chainOf := r.chainOf + [(tag, r.lastChain)])
    else
      Registry(r.tags, r.chains, r.chainOf + [(tag, r.nextChain)],
               r.nextChain, Saturating(r.nextChain + 1))
  }

  // `request`: remember the tag; mark the target's chain if it is logged.
  function Request(r: Registry, target: u64): Registry {
    var chain := Lookup(r.chainOf, target);
    r.(tags := if target in r.tags then r.tags else r.tags + [target],
       chains := if chain.None? || chain.value in r.chains then r.chains else r.chains + [chain.value])
  }

  predicate Hit(r: Registry, tag: u64, chain: u32) {
    tag in r.tags || chain in r.chains
  }

  // `consume`: the tag is used up, the chain mark stays.
  function Consume(r: Registry, tag: u64): Registry {
    if tag in r.tags then r.(tags := SwapRemove(r.tags, IndexOf(r.tags, tag))) else r
  }

  // Whether a cancel of `target` reaches the in-flight token of `tag`.
  predicate Signals(r: Registry, target: u64, tag: u64) {
    || tag == target
    || (Lookup(r.chainOf, target).Some? && Lookup(r.chainOf, tag) == Lookup(r.chainOf, target))
  }

  function SignalAll<T>(r: Registry, inflight: seq<Token<T>>, target: u64): (s: seq<Token<T>>)
    ensures |s| == |inflight|
    ensures forall i :: 0 <= i < |s| ==>
              s[i] == inflight[i].(requested := inflight[i].requested || Signals(r, target, inflight[i].tag))
  {
    seq(|inflight|, i requires 0 <= i < |inflight| =>
          inflight[i].(requested := inflight[i].requested || Signals(r, target, inflight[i].tag)))
  }

  function FirstWithTag<T>(inflight: seq<Token<T>>, tag: u64): (r: nat)
    ensures r <= |inflight|
    ensures r < |inflight| ==> inflight[r].tag == tag
    ensures forall k :: 0 <= k < r ==> inflight[k].tag != tag
  {
    if inflight == [] || inflight[0].tag == tag then 0 else 1 + FirstWithTag(inflight[1..], tag)
  }

  function ExitFirst<T>(inflight: seq<Token<T>>, tag: u64): seq<Token<T>> {
    var i := FirstWithTag(inflight, tag);
    if i < |inflight| then SwapRemove(inflight, i) else inflight
  }

  ghost predicate NoDuplicates<T>(s: seq<T>) {
    forall i, j :: 0 <= i < j < |s| ==> s[i] != s[j]
  }

  // Consuming a duplicate-free tag list takes out that tag and nothing else.
  lemma ConsumeRemovesOnlyTag(r: Registry, tag: u64)
    requires NoDuplicates(r.tags)
    ensures NoDuplicates(Consume(r, tag).tags)
    ensures forall t :: t in Consume(r, tag).tags <==> t in r.tags && t != tag
  {
    if tag in r.tags {
      var i := IndexOf(r.tags, tag);
      var s := SwapRemove(r.tags, i);
      forall t
        ensures t in s <==> t in r.tags && t != tag
      {
        if t in r.tags && t != tag {
          var k :| 0 <= k < |r.tags| && r.tags[k] == t;
          assert if k == |r.tags| - 1 then s[i] == t else s[k] == t;
        }
      }
    }
  }

  lemma RequestKeepsNoDuplicates(r: Registry, target: u64)
    requires NoDuplicates(r.tags) && NoDuplicates(r.chains)
    ensures NoDuplicates(Request(r, target).tags) && NoDuplicates(Request(r, target).chains)
  {
  }
}
