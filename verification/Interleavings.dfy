// Ops and cancellers running in parallel. Each locked registry method is one
// atomic step; a schedule is any sequence of steps, so a statement about every
// schedule is a statement about every interleaving.

module Interleavings {
  import opened Words
  import opened CancelRegistry

  datatype Op = Op(tag: u64, linked: bool)

  // The ops to be dispatched and the target tag of each canceller.
  datatype Config = Config(ops: seq<Op>, targets: seq<u64>)

  // An op enters the chain log, consumes pending cancels, registers its token,
  // runs, and deregisters. Its chain id is fixed when it enters.
  datatype Phase =
    | Waiting
    | Entered(chain: u32)
    | Checked(chain: u32)
    | Running(chain: u32)
    | Stopped(chain: u32)
    | Exited(chain: u32)

  // A canceller first records its request, then signals tokens in flight;
  // `marked` is the chain its request found in the log.
  datatype CancelPhase = Ready | Requested(marked: Option<u32>) | Signalled(marked: Option<u32>)

  datatype World = World(
    reg: Registry,
    inflight: seq<Token<nat>>,
    retired: map<nat, bool>,
    ops: seq<Phase>,
    cancellers: seq<CancelPhase>)

  datatype Step = OpStep(op: nat) | CancelStep(canceller: nat)

  function Start(cfg: Config): World {
    World(EMPTY, [], map[], seq(|cfg.ops|, _ => Waiting), seq(|cfg.targets|, _ => Ready))
  }

  predicate Shaped(cfg: Config, w: World) {
    |w.ops| == |cfg.ops| && |w.cancellers| == |cfg.targets|
  }

  // One step of op o. The op's own token carries its id; leaving retires the
  // first token with its tag, as the code does.
  function OpAct(cfg: Config, w: World, o: nat): World
    requires Shaped(cfg, w) && o < |w.ops|
  {
    var tag := cfg.ops[o].tag;
    match w.ops[o]
    case Waiting =>
      var r := Enter(w.reg, tag, cfg.ops[o].linked);
      w.(reg := r, ops := w.ops[o := Entered(r.lastChain)])
    case Entered(chain) =>
      w.(reg := Consume(w.reg, tag),
         ops := w.ops[o := if Hit(w.reg, tag, chain) then Stopped(chain) else Checked(chain)])
    case Checked(chain) =>
      w.(inflight := w.inflight + [Token(o, tag, Hit(w.reg, tag, chain))],
         ops := w.ops[o := Running(chain)])
    case Running(chain) =>
      var i := FirstWithTag(w.inflight, tag);
      w.(inflight := ExitFirst(w.inflight, tag),
         retired := if i < |w.inflight| then w.retired[w.inflight[i].id := w.inflight[i].requested] else w.retired,
         ops := w.ops[o := Exited(chain)])
    case Stopped(_) => w
    case Exited(_) => w
  }

  function CancelAct(cfg: Config, w: World, c: nat): World
    requires Shaped(cfg, w) && c < |w.cancellers|
  {
    var target := cfg.targets[c];
    match w.cancellers[c]
    case Ready =>
      w.(reg := Request(w.reg, target),
         cancellers := w.cancellers[c := Requested(Lookup(w.reg.chainOf, target))])
    case Requested(marked) =>
      w.(inflight := SignalAll(w.reg, w.inflight, target),
         cancellers := w.cancellers[c := Signalled(marked)])
    case Signalled(_) => w
  }

  function Act(cfg: Config, w: World, s: Step): (w': World)
    requires Shaped(cfg, w)
    ensures Shaped(cfg, w')
  {
    match s
    case OpStep(o) => if o < |w.ops| then OpAct(cfg, w, o) else w
    case CancelStep(c) => if c < |w.cancellers| then CancelAct(cfg, w, c) else w
  }

  function Execute(cfg: Config, schedule: seq<Step>): (w: World)
    ensures Shaped(cfg, w)
  {
    if schedule == [] then Start(cfg)
    else Act(cfg, Execute(cfg, schedule[..|schedule| - 1]), schedule[|schedule| - 1])
  }

  ghost predicate DistinctTags(cfg: Config) {
    forall i, j :: 0 <= i < j < |cfg.ops| ==> cfg.ops[i].tag != cfg.ops[j].tag
  }

  // The op's token is set, whether it is still in flight or retired.
  ghost predicate TokenSet(cfg: Config, w: World, o: nat)
    requires o < |cfg.ops|
  {
    Token(o, cfg.ops[o].tag, true) in w.inflight || (o in w.retired && w.retired[o])
  }

  // ---------------------------------------------------------------------
  // What every step keeps
  // ---------------------------------------------------------------------

  // The log answers an entered op's tag with its chain id, and nothing else.
  ghost predicate LogMatches(cfg: Config, w: World)
    requires Shaped(cfg, w)
  {
    forall o :: 0 <= o < |w.ops| ==>
      Lookup(w.reg.chainOf, cfg.ops[o].tag) == if w.ops[o].Waiting? then None else Some(w.ops[o].chain)
  }

  // The tokens in flight are those of the running ops, one each; the retired
  // ones are those of the ops that have exited.
  ghost predicate TokensMatch(cfg: Config, w: World)
    requires Shaped(cfg, w)
  {
    && NoDuplicates(w.reg.tags)
    && (forall tok :: tok in w.inflight ==>
          tok.id < |w.ops| && tok.tag == cfg.ops[tok.id].tag && w.ops[tok.id].Running?)
    && DistinctIds(w.inflight)
    && (forall o :: 0 <= o < |w.ops| && w.ops[o].Running? ==>
          Token(o, cfg.ops[o].tag, true) in w.inflight || Token(o, cfg.ops[o].tag, false) in w.inflight)
    && (forall o :: o in w.retired ==> o < |w.ops| && w.ops[o].Exited?)
  }

  ghost predicate DistinctIds(tokens: seq<Token<nat>>) {
    forall i, j :: 0 <= i < j < |tokens| ==> tokens[i].id != tokens[j].id
  }

  // Removing one token of a list with distinct ids removes that id only.
  lemma RemoveToken(tokens: seq<Token<nat>>, i: nat)
    requires DistinctIds(tokens) && i < |tokens|
    ensures DistinctIds(SwapRemove(tokens, i))
    ensures forall tok :: tok in SwapRemove(tokens, i) <==> tok in tokens && tok.id != tokens[i].id
  {
    var r := SwapRemove(tokens, i);
    forall tok
      ensures tok in r <==> tok in tokens && tok.id != tokens[i].id
    {
      if tok in tokens && tok.id != tokens[i].id {
        var j :| 0 <= j < |tokens| && tokens[j] == tok;
        assert if j == |tokens| - 1 then r[i] == tok else r[j] == tok;
      }
    }
  }

  lemma {:induction false} LogStep(cfg: Config, w: World, s: Step)
    requires Shaped(cfg, w) && DistinctTags(cfg) && LogMatches(cfg, w)
    ensures LogMatches(cfg, Act(cfg, w, s))
  {
    if s.OpStep? && s.op < |w.ops| && w.ops[s.op].Waiting? {
      var tag := cfg.ops[s.op].tag;
      var chain := Enter(w.reg, tag, cfg.ops[s.op].linked).lastChain;
      forall o | 0 <= o < |w.ops|
        ensures Lookup(w.reg.chainOf + [(tag, chain)], cfg.ops[o].tag) ==
                  if o == s.op then Some(chain) else Lookup(w.reg.chainOf, cfg.ops[o].tag)
      {
        LookupAppend(w.reg.chainOf, (tag, chain), cfg.ops[o].tag);
      }
    }
  }

  // With distinct tags the first token carrying an op's tag is its own.
  lemma OwnTokenIsFirst(cfg: Config, w: World, o: nat)
    requires Shaped(cfg, w) && DistinctTags(cfg) && TokensMatch(cfg, w)
    requires o < |w.ops| && w.ops[o].Running?
    ensures var i := FirstWithTag(w.inflight, cfg.ops[o].tag);
            i < |w.inflight| && w.inflight[i].id == o
            && (w.inflight[i].requested <==> Token(o, cfg.ops[o].tag, true) in w.inflight)
  {
    var i := FirstWithTag(w.inflight, cfg.ops[o].tag);
    assert i < |w.inflight|;
    assert w.inflight[i] in w.inflight;
  }

  lemma TokensAfterExit(cfg: Config, w: World, o: nat)
    requires Shaped(cfg, w) && DistinctTags(cfg) && TokensMatch(cfg, w)
    requires o < |w.ops| && w.ops[o].Running?
    ensures TokensMatch(cfg, OpAct(cfg, w, o))
    ensures forall tok :: tok in w.inflight && tok.id != o ==> tok in OpAct(cfg, w, o).inflight
    ensures TokenSet(cfg, w, o) <==> TokenSet(cfg, OpAct(cfg, w, o), o)
  {
    OwnTokenIsFirst(cfg, w, o);
    RemoveToken(w.inflight, FirstWithTag(w.inflight, cfg.ops[o].tag));
  }

  // Signalling changes flags only, and sets exactly those it should.
  lemma SignalTokens(r: Registry, tokens: seq<Token<nat>>, target: u64)
    ensures DistinctIds(tokens) ==> DistinctIds(SignalAll(r, tokens, target))
    ensures forall tok :: tok in tokens ==>
              tok.(requested := tok.requested || Signals(r, target, tok.tag)) in SignalAll(r, tokens, target)
    ensures forall tok :: tok in SignalAll(r, tokens, target) ==>
              && (tok.(requested := true) in tokens || tok.(requested := false) in tokens)
              && (tok.requested ==> tok in tokens || Signals(r, target, tok.tag))
  {
    var s := SignalAll(r, tokens, target);
    forall tok | tok in tokens
      ensures tok.(requested := tok.requested || Signals(r, target, tok.tag)) in s
    {
      var i :| 0 <= i < |tokens| && tokens[i] == tok;
      assert s[i] == tok.(requested := tok.requested || Signals(r, target, tok.tag));
    }
    forall tok | tok in s
      ensures tok.(requested := true) in tokens || tok.(requested := false) in tokens
      ensures tok.requested ==> tok in tokens || Signals(r, target, tok.tag)
    {
      var i :| 0 <= i < |s| && s[i] == tok;
      assert tokens[i] in tokens;
    }
  }

  lemma TokensAfterSignal(cfg: Config, w: World, c: nat)
    requires Shaped(cfg, w) && TokensMatch(cfg, w)
    requires c < |w.cancellers| && w.cancellers[c].Requested?
    ensures TokensMatch(cfg, CancelAct(cfg, w, c))
    ensures forall o :: 0 <= o < |w.ops| ==>
              (TokenSet(cfg, CancelAct(cfg, w, c), o) <==>
               TokenSet(cfg, w, o) || (w.ops[o].Running? && Signals(w.reg, cfg.targets[c], cfg.ops[o].tag)))
  {
    SignalTokens(w.reg, w.inflight, cfg.targets[c]);
  }

  lemma TokensStep(cfg: Config, w: World, s: Step)
    requires Shaped(cfg, w) && DistinctTags(cfg) && TokensMatch(cfg, w)
    ensures TokensMatch(cfg, Act(cfg, w, s))
  {
    match s
    case OpStep(o) =>
      if o < |w.ops| {
        match w.ops[o]
        case Entered(_) => ConsumeRemovesOnlyTag(w.reg, cfg.ops[o].tag);
        case Running(_) => TokensAfterExit(cfg, w, o);
        case _ =>
      }
    case CancelStep(c) =>
      if c < |w.cancellers| && w.cancellers[c].Requested? {
        TokensAfterSignal(cfg, w, c);
      }
  }

  // The tag of an op that has not yet passed its last check is still pending
  // once a canceller has requested it; a chain found by a request stays marked
  // and stays the target's chain.
  ghost predicate RequestsPending(cfg: Config, w: World)
    requires Shaped(cfg, w)
  {
    forall c :: 0 <= c < |w.cancellers| && !w.cancellers[c].Ready? ==>
      && (forall o :: 0 <= o < |w.ops| && cfg.ops[o].tag == cfg.targets[c]
                      && (w.ops[o].Waiting? || w.ops[o].Entered? || w.ops[o].Checked?) ==>
            cfg.targets[c] in w.reg.tags)
      && (w.cancellers[c].marked.Some? ==>
            && w.cancellers[c].marked.value in w.reg.chains
            && Lookup(w.reg.chainOf, cfg.targets[c]) == w.cancellers[c].marked)
  }

  // A canceller that has done both steps reaches op o by tag or by chain.
  ghost predicate Reached(cfg: Config, w: World, c: nat, o: nat)
    requires Shaped(cfg, w) && c < |w.cancellers| && o < |w.ops|
  {
    && w.cancellers[c].Signalled?
    && (cfg.targets[c] == cfg.ops[o].tag
        || (!w.ops[o].Waiting? && w.cancellers[c].marked == Some(w.ops[o].chain)))
  }

  // Every running op reached by a finished canceller has its token set.
  ghost predicate SignalsSeen(cfg: Config, w: World)
    requires Shaped(cfg, w)
  {
    forall c, o :: 0 <= c < |w.cancellers| && 0 <= o < |w.ops| && w.ops[o].Running? && Reached(cfg, w, c, o) ==>
      TokenSet(cfg, w, o)
  }

  lemma LookupSurvivesEnter(r: Registry, tag: u64, linked: bool, other: u64)
    requires Lookup(r.chainOf, other).Some?
    ensures Lookup(Enter(r, tag, linked).chainOf, other) == Lookup(r.chainOf, other)
  {
    LookupAppend(r.chainOf, (tag, Enter(r, tag, linked).lastChain), other);
  }

  // Step s is an op using up its own pending tag.
  predicate UsesUp(cfg: Config, w: World, s: Step, tag: u64)
    requires Shaped(cfg, w)
  {
    s.OpStep? && s.op < |w.ops| && w.ops[s.op].Entered? && cfg.ops[s.op].tag == tag
  }

  // Apart from that, the registry only grows.
  lemma RegistryGrows(cfg: Config, w: World, s: Step)
    requires Shaped(cfg, w) && NoDuplicates(w.reg.tags)
    ensures forall t :: t in w.reg.tags && !UsesUp(cfg, w, s, t) ==> t in Act(cfg, w, s).reg.tags
    ensures forall ch :: ch in w.reg.chains ==> ch in Act(cfg, w, s).reg.chains
    ensures forall t :: Lookup(w.reg.chainOf, t).Some? ==>
              Lookup(Act(cfg, w, s).reg.chainOf, t) == Lookup(w.reg.chainOf, t)
  {
    if s.OpStep? && s.op < |w.ops| {
      var tag, linked := cfg.ops[s.op].tag, cfg.ops[s.op].linked;
      if w.ops[s.op].Entered? {
        ConsumeRemovesOnlyTag(w.reg, tag);
      } else if w.ops[s.op].Waiting? {
        forall t | Lookup(w.reg.chainOf, t).Some?
          ensures Lookup(Enter(w.reg, tag, linked).chainOf, t) == Lookup(w.reg.chainOf, t)
        {
          LookupSurvivesEnter(w.reg, tag, linked, t);
        }
      }
    }
  }

  lemma RequestsStep(cfg: Config, w: World, s: Step)
    requires Shaped(cfg, w) && DistinctTags(cfg) && LogMatches(cfg, w) && TokensMatch(cfg, w)
    requires RequestsPending(cfg, w)
    ensures RequestsPending(cfg, Act(cfg, w, s))
  {
    RegistryGrows(cfg, w, s);
  }

  lemma SignalsStep(cfg: Config, w: World, s: Step)
    requires Shaped(cfg, w) && DistinctTags(cfg) && LogMatches(cfg, w) && TokensMatch(cfg, w)
    requires RequestsPending(cfg, w) && SignalsSeen(cfg, w)
    ensures SignalsSeen(cfg, Act(cfg, w, s))
  {
    var w' := Act(cfg, w, s);
    forall c, o | 0 <= c < |w.cancellers| && 0 <= o < |w.ops| && w'.ops[o].Running? && Reached(cfg, w', c, o)
      ensures TokenSet(cfg, w', o)
    {
      if s.OpStep? && s.op < |w.ops| && w.ops[s.op].Running? {
        TokensAfterExit(cfg, w, s.op);
        assert Reached(cfg, w, c, o);
      } else if s.CancelStep? && s.canceller < |w.cancellers| && w.cancellers[s.canceller].Requested? {
        TokensAfterSignal(cfg, w, s.canceller);
        if c == s.canceller {
          assert Signals(w.reg, cfg.targets[c], cfg.ops[o].tag);
        } else {
          assert Reached(cfg, w, c, o);
        }
      } else if s == OpStep(o) {
        assert w.ops[o].Checked?;
        assert w'.inflight[|w.inflight|] == Token(o, cfg.ops[o].tag, true);
      } else {
        assert Reached(cfg, w, c, o);
      }
    }
  }

  ghost predicate Inv(cfg: Config, w: World) {
    && Shaped(cfg, w) && LogMatches(cfg, w) && TokensMatch(cfg, w)
    && RequestsPending(cfg, w) && SignalsSeen(cfg, w)
  }

  lemma {:induction false} Reachable(cfg: Config, schedule: seq<Step>)
    requires DistinctTags(cfg)
    ensures Inv(cfg, Execute(cfg, schedule))
  {
    if schedule != [] {
      var n := |schedule| - 1;
      var w := Execute(cfg, schedule[..n]);
      Reachable(cfg, schedule[..n]);
      LogStep(cfg, w, schedule[n]);
      TokensStep(cfg, w, schedule[n]);
      RequestsStep(cfg, w, schedule[n]);
      SignalsStep(cfg, w, schedule[n]);
    }
  }

  // ---------------------------------------------------------------------
  // No cancel is lost
  // ---------------------------------------------------------------------

  // The op will observe a cancel: it has, or its next check is bound to hit.
  ghost predicate Doomed(cfg: Config, w: World, o: nat)
    requires Shaped(cfg, w) && o < |w.ops|
  {
    match w.ops[o]
    case Waiting => cfg.ops[o].tag in w.reg.tags
    case Entered(chain) => Hit(w.reg, cfg.ops[o].tag, chain)
    case Checked(chain) => Hit(w.reg, cfg.ops[o].tag, chain)
    case Running(_) => TokenSet(cfg, w, o)
    case Stopped(_) => true
    case Exited(_) => TokenSet(cfg, w, o)
  }

  // The same, provided the op is in, or ends up in, a given chain.
  ghost predicate DoomedInChain(cfg: Config, w: World, o: nat, chain: u32)
    requires Shaped(cfg, w) && o < |w.ops|
  {
    if w.ops[o].Waiting? then chain in w.reg.chains
    else w.ops[o].chain == chain ==> Doomed(cfg, w, o)
  }

  lemma DoomedStep(cfg: Config, w: World, s: Step, o: nat)
    requires Inv(cfg, w) && DistinctTags(cfg) && o < |w.ops|
    requires Doomed(cfg, w, o)
    ensures Doomed(cfg, Act(cfg, w, s), o)
  {
    if w.ops[o].Running? || w.ops[o].Exited? {
      TokenStaysSet(cfg, w, s, o);
    } else {
      RegistryGrows(cfg, w, s);
      if s == OpStep(o) && w.ops[o].Checked? {
        assert Act(cfg, w, s).inflight[|w.inflight|] == Token(o, cfg.ops[o].tag, true);
      }
    }
  }

  lemma TokenStaysSet(cfg: Config, w: World, s: Step, o: nat)
    requires Inv(cfg, w) && DistinctTags(cfg) && o < |w.ops|
    requires TokenSet(cfg, w, o)
    ensures TokenSet(cfg, Act(cfg, w, s), o)
  {
    if s.OpStep? && s.op < |w.ops| && w.ops[s.op].Running? {
      TokensAfterExit(cfg, w, s.op);
    } else if s.CancelStep? && s.canceller < |w.cancellers| && w.cancellers[s.canceller].Requested? {
      TokensAfterSignal(cfg, w, s.canceller);
    }
  }

  lemma DoomedInChainStep(cfg: Config, w: World, s: Step, o: nat, chain: u32)
    requires Inv(cfg, w) && DistinctTags(cfg) && o < |w.ops|
    requires DoomedInChain(cfg, w, o, chain)
    ensures DoomedInChain(cfg, Act(cfg, w, s), o, chain)
  {
    if w.ops[o].Waiting? {
      RegistryGrows(cfg, w, s);
    } else if w.ops[o].chain == chain {
      DoomedStep(cfg, w, s, o);
    }
  }

  // What no later step changes: chain ids and what a request found.
  ghost predicate Follows(w: World, w': World) {
    && |w.ops| == |w'.ops| && |w.cancellers| == |w'.cancellers|
    && (forall o :: 0 <= o < |w.ops| && !w.ops[o].Waiting? ==>
          !w'.ops[o].Waiting? && w'.ops[o].chain == w.ops[o].chain)
    && (forall c :: 0 <= c < |w.cancellers| && !w.cancellers[c].Ready? ==>
          !w'.cancellers[c].Ready? && w'.cancellers[c].marked == w.cancellers[c].marked)
  }

  lemma StepFollows(cfg: Config, w: World, s: Step)
    requires Shaped(cfg, w)
    ensures Follows(w, Act(cfg, w, s))
  {
  }

  lemma FollowsTransitive(a: World, b: World, c: World)
    requires Follows(a, b) && Follows(b, c)
    ensures Follows(a, c)
  {
  }

  lemma {:induction false} Extend(cfg: Config, schedule: seq<Step>, n: nat)
    requires n <= |schedule|
    ensures Follows(Execute(cfg, schedule[..n]), Execute(cfg, schedule))
    decreases |schedule|
  {
    if n == |schedule| {
      assert schedule[..n] == schedule;
    } else {
      var m := |schedule| - 1;
      assert schedule[..m][..n] == schedule[..n];
      Extend(cfg, schedule[..m], n);
      StepFollows(cfg, Execute(cfg, schedule[..m]), schedule[m]);
      FollowsTransitive(Execute(cfg, schedule[..n]), Execute(cfg, schedule[..m]), Execute(cfg, schedule));
    }
  }

  lemma {:induction false} DoomedStays(cfg: Config, schedule: seq<Step>, n: nat, o: nat, chain: u32)
    requires DistinctTags(cfg) && n <= |schedule| && o < |cfg.ops|
    ensures Doomed(cfg, Execute(cfg, schedule[..n]), o) ==> Doomed(cfg, Execute(cfg, schedule), o)
    ensures DoomedInChain(cfg, Execute(cfg, schedule[..n]), o, chain) ==>
              DoomedInChain(cfg, Execute(cfg, schedule), o, chain)
    decreases |schedule|
  {
    if n == |schedule| {
      assert schedule[..n] == schedule;
    } else {
      var m := |schedule| - 1;
      assert schedule[..m][..n] == schedule[..n];
      DoomedStays(cfg, schedule[..m], n, o, chain);
      Reachable(cfg, schedule[..m]);
      var w := Execute(cfg, schedule[..m]);
      if Doomed(cfg, w, o) {
        DoomedStep(cfg, w, schedule[m], o);
      }
      if DoomedInChain(cfg, w, o, chain) {
        DoomedInChainStep(cfg, w, schedule[m], o, chain);
      }
    }
  }

  // Whatever the interleaving: if both steps of a canceller are done at some
  // point where the op it names has not exited, the op is short-circuited or
  // exits with its token set.
  lemma NoCancelLost(cfg: Config, schedule: seq<Step>, n: nat, c: nat, o: nat)
    requires DistinctTags(cfg) && n <= |schedule| && c < |cfg.targets| && o < |cfg.ops|
    requires Execute(cfg, schedule[..n]).cancellers[c].Signalled?
    requires !Execute(cfg, schedule[..n]).ops[o].Exited?
    requires cfg.targets[c] == cfg.ops[o].tag
    ensures Doomed(cfg, Execute(cfg, schedule), o)
    ensures Execute(cfg, schedule).ops[o].Exited? ==> TokenSet(cfg, Execute(cfg, schedule), o)
  {
    var w := Execute(cfg, schedule[..n]);
    Reachable(cfg, schedule[..n]);
    assert Reached(cfg, w, c, o);
    DoomedStays(cfg, schedule, n, o, 0);
  }

  // A request finds exactly the chain of the named op, if it has entered.
  lemma RequestMarksChain(cfg: Config, schedule: seq<Step>, p: nat, c: nat, m: nat)
    requires DistinctTags(cfg) && p < |schedule| && c < |cfg.targets| && m < |cfg.ops|
    requires schedule[p] == CancelStep(c) && Execute(cfg, schedule[..p]).cancellers[c].Ready?
    requires cfg.ops[m].tag == cfg.targets[c] && !Execute(cfg, schedule[..p]).ops[m].Waiting?
    ensures !Execute(cfg, schedule).ops[m].Waiting?
    ensures Execute(cfg, schedule[..p + 1]).cancellers[c] == Requested(Some(Execute(cfg, schedule).ops[m].chain))
  {
    Reachable(cfg, schedule[..p]);
    assert schedule[..p + 1][..p] == schedule[..p];
    Extend(cfg, schedule, p);
  }

  // The same for a cancel that names another member of the op's chain, entered
  // before the request.
  lemma NoCancelLostInChain(cfg: Config, schedule: seq<Step>, p: nat, n: nat, c: nat, m: nat, o: nat)
    requires DistinctTags(cfg) && p < n <= |schedule| && c < |cfg.targets| && m < |cfg.ops| && o < |cfg.ops|
    requires schedule[p] == CancelStep(c) && Execute(cfg, schedule[..p]).cancellers[c].Ready?
    requires cfg.ops[m].tag == cfg.targets[c] && !Execute(cfg, schedule[..p]).ops[m].Waiting?
    requires Execute(cfg, schedule[..n]).cancellers[c].Signalled?
    requires !Execute(cfg, schedule[..n]).ops[o].Exited?
    ensures var end := Execute(cfg, schedule);
            && !end.ops[m].Waiting?
            && (!end.ops[o].Waiting? && end.ops[o].chain == end.ops[m].chain ==>
                  && Doomed(cfg, end, o)
                  && (end.ops[o].Exited? ==> TokenSet(cfg, end, o)))
  {
    var w, end := Execute(cfg, schedule[..n]), Execute(cfg, schedule);
    RequestMarksChain(cfg, schedule, p, c, m);
    var chain := end.ops[m].chain;
    assert schedule[..n][..p + 1] == schedule[..p + 1];
    Extend(cfg, schedule[..n], p + 1);
    Reachable(cfg, schedule[..n]);
    if !w.ops[o].Waiting? && w.ops[o].chain == chain {
      assert Reached(cfg, w, c, o);
    }
    DoomedStays(cfg, schedule, n, o, chain);
  }

  // ---------------------------------------------------------------------
  // No op is cancelled without cause
  // ---------------------------------------------------------------------

  // A canceller has requested the op's tag or that of a logged chain member.
  ghost predicate Caused(cfg: Config, w: World, c: nat, o: nat)
    requires Shaped(cfg, w) && c < |w.cancellers| && o < |w.ops|
  {
    && !w.cancellers[c].Ready?
    && !w.ops[o].Waiting?
    && (cfg.targets[c] == cfg.ops[o].tag || Lookup(w.reg.chainOf, cfg.targets[c]) == Some(w.ops[o].chain))
  }

  ghost predicate HasCause(cfg: Config, w: World, o: nat)
    requires Shaped(cfg, w) && o < |w.ops|
  {
    exists c :: 0 <= c < |w.cancellers| && Caused(cfg, w, c, o)
  }

  ghost predicate MarksHaveCause(cfg: Config, w: World)
    requires Shaped(cfg, w)
  {
    && (forall t :: t in w.reg.tags ==>
          exists c :: 0 <= c < |w.cancellers| && !w.cancellers[c].Ready? && cfg.targets[c] == t)
    && (forall ch :: ch in w.reg.chains ==>
          exists c :: 0 <= c < |w.cancellers| && !w.cancellers[c].Ready?
                      && Lookup(w.reg.chainOf, cfg.targets[c]) == Some(ch))
  }

  ghost predicate CancelledHaveCause(cfg: Config, w: World)
    requires Shaped(cfg, w)
  {
    forall o :: 0 <= o < |w.ops| && (w.ops[o].Stopped? || TokenSet(cfg, w, o)) ==> HasCause(cfg, w, o)
  }

  lemma CauseStep(cfg: Config, w: World, s: Step, o: nat)
    requires Shaped(cfg, w) && NoDuplicates(w.reg.tags) && o < |w.ops| && HasCause(cfg, w, o)
    ensures HasCause(cfg, Act(cfg, w, s), o)
  {
    var c :| 0 <= c < |w.cancellers| && Caused(cfg, w, c, o);
    RegistryGrows(cfg, w, s);
    assert Caused(cfg, Act(cfg, w, s), c, o);
  }

  lemma MarksStep(cfg: Config, w: World, s: Step)
    requires Shaped(cfg, w) && TokensMatch(cfg, w) && MarksHaveCause(cfg, w)
    ensures MarksHaveCause(cfg, Act(cfg, w, s))
  {
    var w' := Act(cfg, w, s);
    RegistryGrows(cfg, w, s);
    if s.OpStep? && s.op < |w.ops| {
      ConsumeRemovesOnlyTag(w.reg, cfg.ops[s.op].tag);
    }
    forall t | t in w'.reg.tags
      ensures exists c :: 0 <= c < |w'.cancellers| && !w'.cancellers[c].Ready? && cfg.targets[c] == t
    {
      if t in w.reg.tags {
        var c :| 0 <= c < |w.cancellers| && !w.cancellers[c].Ready? && cfg.targets[c] == t;
        assert !w'.cancellers[c].Ready?;
      } else {
        assert !w'.cancellers[s.canceller].Ready? && cfg.targets[s.canceller] == t;
      }
    }
    forall ch | ch in w'.reg.chains
      ensures exists c :: 0 <= c < |w'.cancellers| && !w'.cancellers[c].Ready?
                          && Lookup(w'.reg.chainOf, cfg.targets[c]) == Some(ch)
    {
      if ch in w.reg.chains {
        var c :| 0 <= c < |w.cancellers| && !w.cancellers[c].Ready?
                 && Lookup(w.reg.chainOf, cfg.targets[c]) == Some(ch);
        assert !w'.cancellers[c].Ready?;
      } else {
        assert !w'.cancellers[s.canceller].Ready?;
      }
    }
  }

  // An op whose check hits has a cause.
  lemma HitHasCause(cfg: Config, w: World, o: nat)
    requires Shaped(cfg, w) && MarksHaveCause(cfg, w) && o < |w.ops| && !w.ops[o].Waiting?
    requires Hit(w.reg, cfg.ops[o].tag, w.ops[o].chain)
    ensures HasCause(cfg, w, o)
  {
    if cfg.ops[o].tag in w.reg.tags {
      var c :| 0 <= c < |w.cancellers| && !w.cancellers[c].Ready? && cfg.targets[c] == cfg.ops[o].tag;
      assert Caused(cfg, w, c, o);
    } else {
      var c :| 0 <= c < |w.cancellers| && !w.cancellers[c].Ready?
               && Lookup(w.reg.chainOf, cfg.targets[c]) == Some(w.ops[o].chain);
      assert Caused(cfg, w, c, o);
    }
  }

  lemma CancelledStep(cfg: Config, w: World, s: Step)
    requires Inv(cfg, w) && DistinctTags(cfg) && MarksHaveCause(cfg, w) && CancelledHaveCause(cfg, w)
    ensures CancelledHaveCause(cfg, Act(cfg, w, s))
  {
    var w' := Act(cfg, w, s);
    forall o | 0 <= o < |w.ops| && (w'.ops[o].Stopped? || TokenSet(cfg, w', o))
      ensures HasCause(cfg, w', o)
    {
      if w.ops[o].Stopped? || TokenSet(cfg, w, o) {
        CauseStep(cfg, w, s, o);
      } else {
        NewlyCancelled(cfg, w, s, o);
      }
    }
  }

  // A step that stops an op or sets its token does so for a cause.
  lemma NewlyCancelled(cfg: Config, w: World, s: Step, o: nat)
    requires Inv(cfg, w) && DistinctTags(cfg) && MarksHaveCause(cfg, w) && o < |w.ops|
    requires !w.ops[o].Stopped? && !TokenSet(cfg, w, o)
    requires Act(cfg, w, s).ops[o].Stopped? || TokenSet(cfg, Act(cfg, w, s), o)
    ensures HasCause(cfg, Act(cfg, w, s), o)
  {
    match s
    case OpStep(p) =>
      if w.ops[p].Running? {
        TokensAfterExit(cfg, w, p);
        assert false;
      } else {
        HitHasCause(cfg, w, o);
        CauseStep(cfg, w, s, o);
      }
    case CancelStep(c) =>
      TokensAfterSignal(cfg, w, c);
      assert Caused(cfg, Act(cfg, w, s), c, o);
  }

  // The converse of the two theorems above: in every reachable state, an op
  // that was short-circuited or whose token is set was named, or a member of
  // its chain was, by a canceller that has made its request.
  lemma {:induction false} NoSpuriousCancel(cfg: Config, schedule: seq<Step>)
    requires DistinctTags(cfg)
    ensures MarksHaveCause(cfg, Execute(cfg, schedule)) && CancelledHaveCause(cfg, Execute(cfg, schedule))
  {
    if schedule != [] {
      var n := |schedule| - 1;
      var w := Execute(cfg, schedule[..n]);
      Reachable(cfg, schedule[..n]);
      NoSpuriousCancel(cfg, schedule[..n]);
      MarksStep(cfg, w, schedule[n]);
      CancelledStep(cfg, w, schedule[n]);
    }
  }
}
