// The counters against the requests they count.
module Accounting {
  import opened GoText
  import opened DnsTypes
  import opened Pipeline
  import opened Slots
  import opened Coalescing
  import Messages

  predicate Pending(pc: Pc) {
    !Upstream(pc) && !Replying(pc)
  }

  predicate Unreadable(pc: Pc) {
    Replying(pc) && pc.reply.Unparsed?
  }

  predicate FailedUpstream(pc: Pc) {
    Replying(pc) && pc.reply == Code(RCODE_SERVFAIL)
  }

  predicate Ended(pc: Pc) {
    pc.Finished?
  }

  // The requests at a control point of this kind.
  function At(reqs: map<nat, Request>, kind: Pc -> bool): set<nat> {
    set i | i in reqs && kind(reqs[i].pc)
  }

  function One(b: bool): nat {
    if b then 1 else 0
  }

  lemma SizeMoved(a: set<nat>, b: set<nat>, id: nat)
    requires b - {id} == a - {id}
    ensures |b| == |a| - One(id in a) + One(id in b)
  {
    assert a == if id in a then (a - {id}) + {id} else a - {id};
    assert b == if id in b then (b - {id}) + {id} else b - {id};
  }

  lemma AtMoved(reqs: map<nat, Request>, id: nat, r: Request, kind: Pc -> bool)
    ensures |At(reqs[id := r], kind)|
         == |At(reqs, kind)| - (if id in reqs then One(kind(reqs[id].pc)) else 0) + One(kind(r.pc))
  {
    assert At(reqs[id := r], kind) - {id} == At(reqs, kind) - {id};
    SizeMoved(At(reqs, kind), At(reqs[id := r], kind), id);
  }

  ghost predicate Balanced(n: Counters, reqs: map<nat, Request>, started: set<nat>) {
    && n.total == |reqs|
    && n.total == n.hits + n.misses + |At(reqs, Unreadable)| + |At(reqs, Pending)|
    && n.misses == |started|
    && n.errors == |At(reqs, Unreadable)| + |At(reqs, FailedUpstream)|
    && n.latencies == |At(reqs, Ended)|
    && At(reqs, FailedUpstream) <= started
  }

  // Queries are the hits, the misses, the unreadable packets and the requests
  // not yet classified; misses are the upstream resolves started; errors are the
  // unreadable packets and the failed resolves, which are among the misses; and
  // a latency is recorded for each finished request.
  ghost predicate AccountsBalance(s: State) {
    Balanced(s.count, s.reqs, s.past.started)
  }

  lemma QueriesTallied(s: State, id: nat, c: Choice)
    requires CanAct(s, id, c) && Shape(s.reqs[id])
    ensures var r, e := s.reqs[id], Decide(s, id, c);
      && One(Pending(r.pc)) + One(Unreadable(r.pc))
         == One(Pending(e.pc)) + One(Unreadable(e.pc)) + One(e.tally.HitTally?) + One(e.tally.MissTally?)
      && (e.tally.MissTally? ==> Pending(r.pc))
  {
    hide Messages.ParseQuery, Request.Key, Request.Domain, Request.Qtype, Cacheable;
  }

  lemma ErrorsTallied(s: State, id: nat, c: Choice)
    requires CanAct(s, id, c) && Shape(s.reqs[id])
    ensures var r, e := s.reqs[id], Decide(s, id, c);
      && One(e.tally.ErrorTally?) + One(Unreadable(r.pc)) + One(FailedUpstream(r.pc))
         == One(Unreadable(e.pc)) + One(FailedUpstream(e.pc))
      && (FailedUpstream(e.pc) ==> FailedUpstream(r.pc) || Upstream(r.pc))
  {
    hide Messages.ParseQuery, Request.Key, Request.Domain, Request.Qtype, Cacheable;
    match s.reqs[id].pc
    case Parsing =>
    case Resolving(_) =>
    case _ =>
  }

  lemma LatencyTallied(s: State, id: nat, c: Choice)
    requires CanAct(s, id, c)
    ensures var r, e := s.reqs[id], Decide(s, id, c);
      One(e.tally.LatencyTally?) + One(Ended(r.pc)) == One(Ended(e.pc))
  {
    hide Messages.ParseQuery, Request.Key, Request.Domain, Request.Qtype, Cacheable;
  }

  // How the classes change in size when one request is added or moved.
  lemma ClassesMoved(reqs: map<nat, Request>, id: nat, r: Request)
    ensures |At(reqs[id := r], Unreadable)|
         == |At(reqs, Unreadable)| - (if id in reqs then One(Unreadable(reqs[id].pc)) else 0) + One(Unreadable(r.pc))
    ensures |At(reqs[id := r], Pending)|
         == |At(reqs, Pending)| - (if id in reqs then One(Pending(reqs[id].pc)) else 0) + One(Pending(r.pc))
    ensures |At(reqs[id := r], FailedUpstream)|
         == |At(reqs, FailedUpstream)| - (if id in reqs then One(FailedUpstream(reqs[id].pc)) else 0)
            + One(FailedUpstream(r.pc))
    ensures |At(reqs[id := r], Ended)|
         == |At(reqs, Ended)| - (if id in reqs then One(Ended(reqs[id].pc)) else 0) + One(Ended(r.pc))
    ensures |reqs[id := r]| == |reqs| + One(id !in reqs)
  {
    hide At;
    AtMoved(reqs, id, r, Unreadable);
    AtMoved(reqs, id, r, Pending);
    AtMoved(reqs, id, r, FailedUpstream);
    AtMoved(reqs, id, r, Ended);
    assert reqs[id := r].Keys == reqs.Keys + {id};
  }

  lemma BalancedAfter(n: Counters, reqs: map<nat, Request>, started: set<nat>, id: nat, r: Request, tally: Tally)
    requires Balanced(n, reqs, started) && id in reqs
    requires var p, p' := reqs[id].pc, r.pc;
      && One(Pending(p)) + One(Unreadable(p))
         == One(Pending(p')) + One(Unreadable(p')) + One(tally.HitTally?) + One(tally.MissTally?)
      && One(tally.ErrorTally?) + One(Unreadable(p)) + One(FailedUpstream(p)) == One(Unreadable(p')) + One(FailedUpstream(p'))
      && One(tally.LatencyTally?) + One(Ended(p)) == One(Ended(p'))
    requires tally.MissTally? ==> id !in started
    requires At(reqs[id := r], FailedUpstream) <= started
    ensures Balanced(Counted(n, tally), reqs[id := r], if tally.MissTally? then started + {id} else started)
  {
    hide At, Unreadable, Pending, FailedUpstream, Ended;
    ClassesMoved(reqs, id, r);
  }

  lemma BalancedArrival(n: Counters, reqs: map<nat, Request>, started: set<nat>, id: nat, r: Request)
    requires Balanced(n, reqs, started) && id !in reqs && r.pc == Parsing
    ensures Balanced(n.(total := n.total + 1), reqs[id := r], started)
  {
    assert At(reqs[id := r], FailedUpstream) <= At(reqs, FailedUpstream);
    assert Pending(r.pc) && !Unreadable(r.pc) && !FailedUpstream(r.pc) && !Ended(r.pc);
    hide At, Unreadable, Pending, FailedUpstream, Ended;
    ClassesMoved(reqs, id, r);
  }

  lemma BalanceActs(s: State, id: nat, c: Choice)
    requires AccountsBalance(s) && CanAct(s, id, c) && Shape(s.reqs[id]) && Warmed(s, id, s.reqs[id])
    ensures AccountsBalance(Do(s, id, c))
  {
    var e := Decide(s, id, c);
    QueriesTallied(s, id, c);
    ErrorsTallied(s, id, c);
    LatencyTallied(s, id, c);
    ApplyGrows(s, id, e);
    CountApplied(s, id, e);
    if Pending(s.reqs[id].pc) {
      NotStartedYet(s, id);
    }
    hide Decide, Apply, CanAct, Shape, At, Warmed, Pending, Unreadable, FailedUpstream, Ended, Upstream;
    FailedStarted(s, id, e);
    BalancedAfter(s.count, s.reqs, s.past.started, id, s.reqs[id].(role := e.role, pc := e.pc), e.tally);
  }

  lemma BalanceKept(s: State, step: Step)
    requires AccountsBalance(s) && SlotInv(s) && Stages(s) && Enabled(s, step)
    ensures AccountsBalance(After(s, step))
  {
    hide *;
    match step
    case Act(id, c) =>
      ActIs(s, id, c);
      SlotInvAt(s, id);
      WarmedAt(s, id);
      BalanceActs(s, id, c);
    case Refresh(child, c) =>
      RefreshIs(s, child, c);
      RefreshGrows(s, child, c);
      BalanceSame(s, After(s, step));
    case Arrive(id, packet) =>
      ArriveIs(s, id, packet);
      BalanceArrives(s, id, packet);
    case Tick(now) =>
      TickIs(s, now);
      BalanceSame(s, After(s, step));
  }

  lemma WarmedAt(s: State, i: nat)
    requires Stages(s) && i in s.reqs
    ensures Warmed(s, i, s.reqs[i])
  {
    assert Stage(s, i);
    hide Warmed;
  }

  lemma BalanceSame(s: State, s': State)
    requires AccountsBalance(s)
    requires s'.count == s.count && s'.reqs == s.reqs && s'.past.started == s.past.started
    ensures AccountsBalance(s')
  {
    hide Balanced;
  }

  lemma BalanceArrives(s: State, id: nat, packet: seq<byte>)
    requires AccountsBalance(s) && id !in s.reqs
    ensures AccountsBalance(s.(count := s.count.(total := s.count.total + 1), reqs := s.reqs[id := Begin(s, packet)]))
  {
    BeginsAt(s, packet);
    hide Begin, Balanced;
    BalancedArrival(s.count, s.reqs, s.past.started, id, Begin(s, packet));
  }

  lemma FailedStarted(s: State, id: nat, e: Effect)
    requires id in s.reqs && At(s.reqs, FailedUpstream) <= s.past.started && Warmed(s, id, s.reqs[id])
    requires FailedUpstream(e.pc) ==> FailedUpstream(s.reqs[id].pc) || Upstream(s.reqs[id].pc)
    ensures At(s.reqs[id := s.reqs[id].(role := e.role, pc := e.pc)], FailedUpstream) <= s.past.started
  {
    assert FailedUpstream(s.reqs[id].pc) ==> id in At(s.reqs, FailedUpstream);
  }

  lemma CountApplied(s: State, id: nat, e: Effect)
    requires id in s.reqs
    ensures Apply(s, id, e).count == Counted(s.count, e.tally)
  {
  }

  lemma NotStartedYet(s: State, id: nat)
    requires id in s.reqs && Warmed(s, id, s.reqs[id]) && Pending(s.reqs[id].pc)
    ensures id !in s.past.started
  {
  }
}
