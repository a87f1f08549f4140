// Which requests go upstream: coalescing behind an owner, and serving from the
// cache whatever has ever been there.
module Coalescing {
  import opened GoText
  import opened DnsTypes
  import opened CacheKeys
  import opened Pipeline
  import opened Slots
  import Messages

  // A request that holds or was served a cached answer.
  predicate FromCache(pc: Pc) {
    Replying(pc) && pc.reply.Answer? && !pc.reply.override
  }

  // Committed to an upstream resolve, or done with it.
  predicate Upstream(pc: Pc) {
    pc.Resolving? || pc.NegativeStore? || pc.Storing? || pc.Persisting?
  }

  // The owner released its waiters with nothing in the cache.
  predicate ReleasedEmpty(s: State, o: nat) {
    o in s.past.released && !s.past.released[o]
  }

  // The keys with an entry in either layer.
  function Present(s: State): set<Text> {
    s.hot.Keys + s.disk.Keys
  }

  ghost predicate ReleasesTold(reqs: map<nat, Request>, released: map<nat, bool>, present: set<Text>) {
    && (forall o: nat :: o in released <==> o in reqs && Closed(reqs[o]))
    && (forall o | o in released :: released[o] ==> reqs[o].Key() in present)
    && (forall o | o in released :: FromCache(reqs[o].pc) ==> released[o])
  }

  // A cached answer has an entry behind it.
  ghost predicate Backed(s: State, r: Request) {
    FromCache(r.pc) || r.pc.Judging? ==> r.Key() in Present(s)
  }

  // A waiter gets past the re-check only behind an owner that left nothing.
  ghost predicate Waited(s: State, i: nat, r: Request) {
    r.role.Waiter? ==>
      && (r.pc.RecheckDisk? && !ReleasedEmpty(s, r.role.on) ==> r.Key() in s.disk)
      && (Searching(r.pc) || i in s.past.started ==> ReleasedEmpty(s, r.role.on))
  }

  // A request that found its key cached when it began never goes upstream.
  ghost predicate Warmed(s: State, i: nat, r: Request) {
    && (r.warm ==>
          && r.Key() in Present(s) && i !in s.past.started
          && (r.pc.LookDisk? ==> r.Key() in s.disk))
    && (Upstream(r.pc) ==> i in s.past.started)
    && (i in s.past.started ==> Upstream(r.pc) || (Claimed(r.pc) && Replying(r.pc)))
  }

  ghost predicate Stage(s: State, i: nat)
    requires i in s.reqs
  {
    Backed(s, s.reqs[i]) && Waited(s, i, s.reqs[i]) && Warmed(s, i, s.reqs[i])
  }

  ghost predicate Stages(s: State) {
    && (forall i | i in s.reqs :: Stage(s, i))
    && (forall i | i in s.past.started :: i in s.reqs)
  }

  ghost predicate CacheInv(s: State) {
    ReleasesTold(s.reqs, s.past.released, Present(s)) && Stages(s)
  }

  // ---------- what a step can do to the cache and the history ----------

  ghost predicate Grows(s: State, s': State) {
    && s.hot.Keys <= s'.hot.Keys && s.disk.Keys <= s'.disk.Keys
    && s'.past.v6 == s.past.v6 && s'.past.disk0 == s.past.disk0 && s.past.resolutions <= s'.past.resolutions
    && s.now <= s'.now
  }

  lemma ApplyGrows(s: State, id: nat, e: Effect)
    requires id in s.reqs
    ensures Grows(s, Apply(s, id, e))
    ensures var s' := Apply(s, id, e);
      && s'.reqs == s.reqs[id := s.reqs[id].(role := e.role, pc := e.pc)]
      && s'.past.started == (if e.tally.MissTally? then s.past.started + {id} else s.past.started)
      && s'.past.released == (if e.change.CloseChannel? then s.past.released[id := s.reqs[id].Key() in Present(s)]
                              else s.past.released)
  {
  }

  lemma RefreshGrows(s: State, child: nat, c: Choice)
    requires CanRefresh(s, child, c)
    ensures Grows(s, DoRefresh(s, child, c))
    ensures var s' := DoRefresh(s, child, c);
      s'.reqs == s.reqs && s'.past.started == s.past.started && s'.past.released == s.past.released
  {
  }

  lemma Grown(s: State, step: Step)
    requires Enabled(s, step)
    ensures Grows(s, After(s, step))
  {
    hide Begin, DoRefresh, Grows;
    match step
    case Act(id, c) =>
      hide Decide, Apply;
      ApplyGrows(s, id, Decide(s, id, c));
    case Refresh(child, c) => RefreshGrows(s, child, c);
    case Arrive(id, packet) => StillGrows(s, After(s, step));
    case Tick(now) => StillGrows(s, After(s, step));
  }

  lemma StillGrows(s: State, s': State)
    requires s'.hot == s.hot && s'.disk == s.disk && s'.past == s.past && s.now <= s'.now
    ensures Grows(s, s')
  {
  }

  lemma BackedDecided(s: State, id: nat, c: Choice)
    requires CanAct(s, id, c) && Shape(s.reqs[id]) && Backed(s, s.reqs[id])
    ensures var r, e := s.reqs[id], Decide(s, id, c);
      && (FromCache(e.pc) || e.pc.Judging? ==> r.Key() in Present(s) || e.change.PutHot? || e.change.PutDisk?)
      && (Closed(r) || e.change.CloseChannel? ==> FromCache(e.pc) == FromCache(r.pc))
  {
    hide Messages.ParseQuery, CacheKey;
  }

  lemma StageDecided(s: State, id: nat, c: Choice)
    requires CanAct(s, id, c) && Shape(s.reqs[id])
    ensures var r, e := s.reqs[id], Decide(s, id, c);
      && (e.tally.MissTally? ==> r.pc.LookDisk? && r.Key() !in s.disk)
      && (e.pc.RecheckDisk? ==> r.pc.RecheckHot? && r.Key() !in s.hot)
      && (e.pc.LookDisk? ==> r.pc.LookHot? && r.Key() !in s.hot)
      && (Searching(e.pc) && !Searching(r.pc) ==> r.pc.Claiming? || (r.pc.RecheckDisk? && r.Key() !in s.disk))
      && (r.pc.Claiming? && Searching(e.pc) ==> e.role == Owner)
      && (Upstream(e.pc) ==> Upstream(r.pc) || e.tally.MissTally?)
      && (Upstream(r.pc) || Replying(r.pc) ==> Upstream(e.pc) || Replying(e.pc))
      && (e.tally.MissTally? ==> e.pc.Resolving?)
  {
    hide Messages.ParseQuery, CacheKey;
  }

  lemma ReleasesAfter(reqs: map<nat, Request>, released: map<nat, bool>, present: set<Text>,
                      id: nat, r: Request, close: bool, present': set<Text>)
    requires ReleasesTold(reqs, released, present) && present <= present'
    requires id in reqs && r.Key() == reqs[id].Key()
    requires Closed(r) <==> Closed(reqs[id]) || close
    requires close ==> !Closed(reqs[id]) && (FromCache(r.pc) ==> r.Key() in present)
    requires Closed(reqs[id]) ==> FromCache(r.pc) == FromCache(reqs[id].pc)
    ensures ReleasesTold(reqs[id := r], if close then released[id := r.Key() in present] else released, present')
  {
    hide Closed, Request.Key, FromCache;
  }

  lemma ReleasesKept(s: State, id: nat, c: Choice)
    requires SlotInv(s) && CacheInv(s) && CanAct(s, id, c)
    ensures var s' := Do(s, id, c); ReleasesTold(s'.reqs, s'.past.released, Present(s'))
  {
    hide Decide, Shape, CacheKey, SlotInv, CacheInv, Searching, Upstream, ReleasesTold, Closed, FromCache;
    SlotInvAt(s, id);
    CacheInvAt(s, id);
    CacheInvOut(s);
    SlotDecided(s, id, c);
    BackedDecided(s, id, c);
    var e := Decide(s, id, c);
    ApplyGrows(s, id, e);
    var r := s.reqs[id].(role := e.role, pc := e.pc);
    ReleasesAfter(s.reqs, s.past.released, Present(s), id, r, e.change.CloseChannel?, Present(Do(s, id, c)));
  }

  // A request that did not move keeps its stage.
  lemma StageFramed(s: State, s': State, i: nat)
    requires i in s.reqs && Stage(s, i) && Grows(s, s')
    requires i in s'.reqs && s'.reqs[i] == s.reqs[i]
    requires i in s'.past.started <==> i in s.past.started
    requires s.reqs[i].role.Waiter? && ReleasedEmpty(s, s.reqs[i].role.on) ==> ReleasedEmpty(s', s.reqs[i].role.on)
    requires s.reqs[i].role.Waiter? && !s.reqs[i].pc.Waiting? ==> s.reqs[i].role.on in s.past.released
    ensures Stage(s', i)
  {
    hide CacheKey, Searching, Upstream, FromCache;
  }

  lemma BackedMoved(s: State, id: nat, c: Choice)
    requires CanAct(s, id, c) && Shape(s.reqs[id]) && Backed(s, s.reqs[id])
    ensures Backed(Do(s, id, c), Do(s, id, c).reqs[id])
  {
    BackedDecided(s, id, c);
    ApplyGrows(s, id, Decide(s, id, c));
    hide Decide, Shape, CacheKey, CanAct, FromCache;
  }

  // Entering the disk lookup of the re-check behind an owner: the owner left an
  // entry, and it was not in the hot layer, so it is on disk.
  lemma RecheckFindsDisk(s: State, id: nat)
    requires CacheInv(s)
    requires id in s.reqs && WaitsFor(s, id) && s.reqs[id].role.Waiter? && s.reqs[id].pc.RecheckHot?
    requires s.reqs[id].Key() !in s.hot
    ensures ReleasedEmpty(s, s.reqs[id].role.on) || s.reqs[id].Key() in s.disk
  {
    hide CacheKey, FromCache;
    assert Closed(s.reqs[s.reqs[id].role.on]);
  }

  lemma WaitedAfter(s: State, s': State, id: nat, r: Request, r': Request)
    requires Waited(s, id, r) && r'.Key() == r.Key()
    requires s.disk.Keys <= s'.disk.Keys
    requires r'.role.Waiter? ==> (r'.role == r.role || r'.pc.Waiting?) && s'.past.released == s.past.released
    requires r'.role.Waiter? && r'.role != r.role ==> id !in s'.past.started
    requires r.role.Waiter? && r'.pc.RecheckDisk? ==> ReleasedEmpty(s, r.role.on) || r.Key() in s.disk
    requires r.role.Waiter? && Searching(r'.pc) && !Searching(r.pc) ==> r.pc.RecheckDisk? && r.Key() !in s.disk
    requires id in s'.past.started ==> id in s.past.started || Searching(r.pc)
    ensures Waited(s', id, r')
  {
    hide CacheKey, Request.Key;
    assert r'.pc.Waiting? ==> !Searching(r'.pc);
    hide Searching;
  }

  lemma UnclaimedNotStarted(s: State, id: nat)
    requires id in s.reqs && Warmed(s, id, s.reqs[id]) && !Claimed(s.reqs[id].pc)
    ensures id !in s.past.started
  {
  }

  lemma WaitedMoved(s: State, id: nat, c: Choice)
    requires SlotInv(s) && CacheInv(s) && CanAct(s, id, c)
    ensures Waited(Do(s, id, c), id, Do(s, id, c).reqs[id])
  {
    hide Apply, Decide, SlotInv, CacheInv, CacheKey, Request.Key;
    var e, r := Decide(s, id, c), s.reqs[id];
    SlotInvAt(s, id);
    CacheInvAt(s, id);
    SlotDecided(s, id, c);
    StageDecided(s, id, c);
    ApplyGrows(s, id, e);
    hide CanAct;
    assert r.role.Waiter? ==> !e.change.CloseChannel?;
    if r.role.Waiter? && e.pc.RecheckDisk? {
      RecheckFindsDisk(s, id);
    }
    if !Claimed(r.pc) {
      UnclaimedNotStarted(s, id);
    }
    hide Waited, WaitsFor, Backed, Warmed, ReleasedEmpty, Closed, Holds, FromCache;
    SameKey(r, e.role, e.pc);
    WaitedAfter(s, Apply(s, id, e), id, r, r.(role := e.role, pc := e.pc));
  }

  lemma WarmedMoved(s: State, id: nat, c: Choice)
    requires CanAct(s, id, c) && Shape(s.reqs[id]) && Warmed(s, id, s.reqs[id])
    ensures Warmed(Do(s, id, c), id, Do(s, id, c).reqs[id])
  {
    hide Apply, Decide, Shape, CacheKey;
    var e := Decide(s, id, c);
    StageDecided(s, id, c);
    ApplyGrows(s, id, e);
    hide CanAct, Request.Key;
  }

  // The requests that a step does not move.
  lemma OthersStay(s: State, s': State, id: nat)
    requires SlotInv(s) && CacheInv(s) && Grows(s, s')
    requires forall i | i in s.reqs && i != id :: i in s'.reqs && s'.reqs[i] == s.reqs[i]
    requires forall i | i in s.reqs && i != id :: i in s'.past.started <==> i in s.past.started
    requires forall o | o in s.past.released :: o in s'.past.released && s'.past.released[o] == s.past.released[o]
    ensures forall i | i in s.reqs && i != id :: Stage(s', i)
  {
    hide Stage, Grows;
    forall i | i in s.reqs && i != id ensures Stage(s', i) {
      assert Stage(s, i) && WaitsFor(s, i);
      StageFramed(s, s', i);
    }
  }

  lemma StageOfMoved(s: State, id: nat, c: Choice)
    requires SlotInv(s) && CacheInv(s) && CanAct(s, id, c)
    ensures Stage(Do(s, id, c), id)
  {
    SlotInvAt(s, id);
    CacheInvAt(s, id);
    hide SlotInv, CacheInv, Shape, Backed, Waited, Warmed, Do;
    BackedMoved(s, id, c);
    WaitedMoved(s, id, c);
    WarmedMoved(s, id, c);
  }

  lemma StagesKept(s: State, id: nat, c: Choice)
    requires SlotInv(s) && CacheInv(s) && CanAct(s, id, c)
    ensures Stages(Do(s, id, c))
  {
    hide Apply, Decide, CanAct, Shape, CacheKey, Request.Key, Grows, Stage, SlotInv, CacheInv;
    var s', e := Do(s, id, c), Decide(s, id, c);
    assert id in s.reqs by { ActsOnRequest(s, id, c); }
    SlotInvAt(s, id);
    CacheInvAt(s, id);
    StageOfMoved(s, id, c);
    SlotDecided(s, id, c);
    ApplyGrows(s, id, e);
    OthersStay(s, s', id);
    AllStages(s', id);
  }

  lemma ActsOnRequest(s: State, id: nat, c: Choice)
    requires CanAct(s, id, c)
    ensures id in s.reqs
  {
  }

  lemma CacheInvAt(s: State, i: nat)
    requires CacheInv(s) && i in s.reqs
    ensures Stage(s, i)
    ensures i in s.past.released <==> Closed(s.reqs[i])
    ensures forall j | j in s.past.started :: j in s.reqs
  {
    hide Stage, Closed;
  }

  lemma AllStages(s: State, id: nat)
    requires id in s.reqs && Stage(s, id) && forall i | i in s.reqs && i != id :: Stage(s, i)
    requires forall i | i in s.past.started :: i in s.reqs
    ensures Stages(s)
  {
    hide Stage;
  }

  lemma CacheInvIdle(s: State, s': State)
    requires SlotInv(s) && CacheInv(s) && Grows(s, s')
    requires s'.reqs == s.reqs && s'.past.started == s.past.started && s'.past.released == s.past.released
    ensures CacheInv(s')
  {
    hide Stage, SlotInv, CacheInv;
    CacheInvOut(s);
    assert Present(s) <= Present(s');
    forall i | i in s'.reqs ensures Stage(s', i) {
      CacheInvAt(s, i);
      SlotInvAt(s, i);
      StageFramed(s, s', i);
    }
    assert CacheInv(s') by { CacheInvIn(s'); }
  }

  lemma CacheInvArrives(s: State, id: nat, packet: seq<byte>)
    requires SlotInv(s) && CacheInv(s) && id !in s.reqs
    ensures CacheInv(s.(count := s.count.(total := s.count.total + 1), reqs := s.reqs[id := Begin(s, packet)]))
  {
    hide Messages.ParseQuery, CacheKey, SlotInv, CacheInv, Grows, Begin, Request.Key, Stage;
    var r := Begin(s, packet);
    var s' := s.(count := s.count.(total := s.count.total + 1), reqs := s.reqs[id := r]);
    BeginsAt(s, packet);
    CacheInvOut(s);
    assert Stage(s', id) by { FreshStage(s', id); }
    StillGrows(s, s');
    OthersStay(s, s', id);
    AllStages(s', id);
    ReleasesArrive(s.reqs, s.past.released, Present(s), id, r);
    assert CacheInv(s') by { CacheInvIn(s'); }
  }

  lemma BeginsAt(s: State, packet: seq<byte>)
    ensures var r := Begin(s, packet);
      r.role == Unclaimed && r.pc == Parsing && (r.warm ==> r.Key() in Present(s))
  {
    hide Messages.ParseQuery;
  }

  lemma CacheInvOut(s: State)
    requires CacheInv(s)
    ensures ReleasesTold(s.reqs, s.past.released, Present(s))
    ensures forall i | i in s.past.started :: i in s.reqs
  {
  }

  lemma CacheInvIn(s: State)
    requires ReleasesTold(s.reqs, s.past.released, Present(s)) && Stages(s)
    ensures CacheInv(s)
  {
  }

  lemma FreshStage(s: State, id: nat)
    requires id in s.reqs && id !in s.past.started
    requires var r := s.reqs[id]; r.role == Unclaimed && r.pc == Parsing && (r.warm ==> r.Key() in Present(s))
    ensures Stage(s, id)
  {
  }

  lemma ReleasesArrive(reqs: map<nat, Request>, released: map<nat, bool>, present: set<Text>, id: nat, r: Request)
    requires ReleasesTold(reqs, released, present) && id !in reqs && r.role == Unclaimed
    ensures ReleasesTold(reqs[id := r], released, present)
  {
    hide FromCache, Request.Key;
  }

  lemma CacheInvKept(s: State, step: Step)
    requires SlotInv(s) && CacheInv(s) && Enabled(s, step)
    ensures CacheInv(After(s, step))
  {
    hide *;
    Grown(s, step);
    match step
    case Act(id, c) =>
      ActIs(s, id, c);
      ReleasesKept(s, id, c);
      StagesKept(s, id, c);
      CacheInvIn(After(s, step));
    case Arrive(id, packet) =>
      ArriveIs(s, id, packet);
      CacheInvArrives(s, id, packet);
    case Tick(now) =>
      TickIs(s, now);
      CacheInvIdle(s, After(s, step));
    case Refresh(child, c) =>
      RefreshIs(s, child, c);
      RefreshGrows(s, child, c);
      CacheInvIdle(s, After(s, step));
  }
}
