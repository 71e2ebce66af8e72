// The lock-protected registry object and the tokens it shares with running
// ops. Every method is tied to the registry function of the same name.

module PendingCancels {
  import opened Words
  import opened Submissions
  import R = CancelRegistry
  import opened CancelRegistry

  class CancelToken {
    const tag: u64
    var requested: bool

    constructor (tag: u64)
      ensures this.tag == tag && !requested
    {
      this.tag := tag;
      requested := false;
    }

    method Request()
      modifies this
      ensures requested
    {
      requested := true;
    }
  }

  class Pending {
    var tags: seq<u64>
    var chains: seq<u32>
    var chainOf: seq<(u64, u32)>
    var lastChain: u32
    var nextChain: u32
    var inflight: seq<CancelToken>

    ghost function Reg(): Registry
      reads this
    {
      Registry(tags, chains, chainOf, lastChain, nextChain)
    }

    ghost function InFlight(): (s: seq<Token<CancelToken>>)
      reads this, inflight
      ensures |s| == |inflight|
      ensures forall i :: 0 <= i < |s| ==> s[i] == Token(inflight[i], inflight[i].tag, inflight[i].requested)
    {
      seq(|inflight|, i reads this, inflight requires 0 <= i < |inflight| =>
            Token(inflight[i], inflight[i].tag, inflight[i].requested))
    }

    ghost predicate Valid()
      reads this
    {
      NoDuplicates(inflight)
    }

    constructor ()
      ensures Valid() && Reg() == EMPTY && inflight == []
    {
      tags, chains, chainOf, lastChain, nextChain, inflight := [], [], [], 0, 1, [];
    }

    method EnterInflight(tag: u64, chain: u32) returns (tok: CancelToken)
      requires Valid()
      modifies this`inflight
      ensures Valid() && fresh(tok) && tok.tag == tag
      ensures tok.requested == Hit(Reg(), tag, chain)
      ensures inflight == old(inflight) + [tok]
    {
      tok := new CancelToken(tag);
      if tag in tags || chain in chains {
        tok.Request();
      }
      inflight := inflight + [tok];
    }

    function PositionOf(tag: u64, from: nat): (r: nat)
      reads this
      requires from <= |inflight|
      ensures from <= r <= |inflight|
      ensures r < |inflight| ==> inflight[r].tag == tag
      ensures forall k :: from <= k < r ==> inflight[k].tag != tag
      decreases |inflight| - from
    {
      if from == |inflight| || inflight[from].tag == tag then from else PositionOf(tag, from + 1)
    }

    method ExitInflight(tag: u64)
      requires Valid()
      modifies this`inflight
      ensures Valid() && InFlight() == ExitFirst(old(InFlight()), tag)
    {
      var pos := PositionOf(tag, 0);
      ghost var view := InFlight();
      assert pos == FirstWithTag(view, tag);
      if pos < |inflight| {
        inflight := SwapRemove(inflight, pos);
      }
    }

    method SignalInflight(target: u64)
      requires Valid()
      modifies inflight
      ensures Valid() && InFlight() == SignalAll(Reg(), old(InFlight()), target)
    {
      var chain := Lookup(chainOf, target);
      var i := 0;
      while i < |inflight|
        invariant 0 <= i <= |inflight|
        invariant forall k :: 0 <= k < i ==>
                    inflight[k].requested == (old(inflight[k].requested) || Signals(Reg(), target, inflight[k].tag))
        invariant forall k :: i <= k < |inflight| ==> inflight[k].requested == old(inflight[k].requested)
      {
        var tok := inflight[i];
        if tok.tag == target {
          tok.Request();
        } else if chain.Some? && Lookup(chainOf, tok.tag) == chain {
          tok.Request();
        }
        i := i + 1;
      }
    }

    // A cancel belongs to no chain: it gets the sentinel 0 and leaves no trace.
    method Enter(sub: Submission) returns (chain: u32)
      modifies this`chainOf, this`lastChain, this`nextChain
      ensures sub.op.Cancel? ==> chain == 0 && Reg() == old(Reg())
      ensures !sub.op.Cancel? ==>
                Reg() == R.Enter(old(Reg()), sub.tag, sub.IsLinked()) && chain == lastChain
    {
      if sub.op.Cancel? {
        return 0;
      }
      if sub.IsLinked() && lastChain != 0 {
        chain := lastChain;
      } else {
        chain := nextChain;
        nextChain := Saturating(nextChain + 1);
      }
      lastChain := chain;
      chainOf := chainOf + [(sub.tag, chain)];
    }

    method Request(target: u64)
      modifies this`tags, this`chains
      ensures Reg() == R.Request(old(Reg()), target)
    {
      if target !in tags {
        tags := tags + [target];
      }
      var chain := Lookup(chainOf, target);
      if chain.Some? && chain.value !in chains {
        chains := chains + [chain.value];
      }
    }

    method Consume(tag: u64, chain: u32) returns (hit: bool)
      modifies this`tags
      ensures Reg() == R.Consume(old(Reg()), tag)
      ensures hit == Hit(old(Reg()), tag, chain)
    {
      hit := false;
      var pos := IndexOf(tags, tag);
      if pos < |tags| {
        tags := SwapRemove(tags, pos);
        hit := true;
      }
      if chain in chains {
        hit := true;
      }
    }
  }
}
