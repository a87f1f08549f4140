// In-flight slots of the pipeline: who owns them, who waits for them, and why
// every request gets its turn.
module Slots {
  import opened GoText
  import opened DnsTypes
  import opened CacheKeys
  import opened Pipeline
  import Messages

  // ---------- the shape of a request ----------

  predicate Replying(pc: Pc) {
    pc.Closing? || pc.Deleting? || pc.Counting? || pc.Finished?
  }

  predicate Claimed(pc: Pc) {
    !(pc.Parsing? || pc.Overriding? || pc.Claiming?)
  }

  predicate Rechecking(pc: Pc) {
    pc.RecheckHot? || pc.RecheckDisk? || pc.RecheckPromote?
  }

  // Past the check for a competing request, and not yet answered.
  predicate Searching(pc: Pc) {
    Claimed(pc) && !pc.Waiting? && !Rechecking(pc) && !Replying(pc)
  }

  ghost predicate Shape(r: Request) {
    && r.parsed == Messages.ParseQuery(r.packet)
    && (r.parsed.Err? ==> r.role == Unclaimed && r.pc in {Parsing, Counting(Unparsed), Finished(Unparsed)})
    && (r.parsed.Ok? && Replying(r.pc) ==> r.pc.reply != Unparsed)
    && (r.role == Unclaimed <==> !Claimed(r.pc) || (Replying(r.pc) && (r.pc.reply.Unparsed? || (r.pc.reply.Answer? && r.pc.reply.override))))
    && (r.pc.Waiting? || Rechecking(r.pc) ==> r.role.Waiter?)
    && (r.pc.Closing? || r.pc.Deleting? ==> r.role == Owner)
  }

  ghost predicate Shapes(s: State) {
    forall i | i in s.reqs :: Shape(s.reqs[i])
  }

  lemma ShapeDecided(s: State, id: nat, c: Choice)
    requires CanAct(s, id, c) && Shape(s.reqs[id])
    ensures var e := Decide(s, id, c); Shape(s.reqs[id].(role := e.role, pc := e.pc))
  {
    hide Messages.ParseQuery, Request.Key, Request.Domain, Request.Qtype, Cacheable, CacheKey;
  }

  lemma ShapesKept(s: State, id: nat, c: Choice)
    requires Shapes(s) && CanAct(s, id, c)
    ensures Shapes(Do(s, id, c))
  {
    ShapeDecided(s, id, c);
    hide Decide, Shape;
  }

  // ---------- slots ----------

  predicate Holds(r: Request) {
    r.role == Owner && !(r.pc.Counting? || r.pc.Finished?)
  }

  predicate Closed(r: Request) {
    r.role == Owner && (r.pc.Deleting? || r.pc.Counting? || r.pc.Finished?)
  }

  // Every slot belongs to one live owner of that key, and every live owner has
  // its slot.
  ghost predicate SlotsOwned(reqs: map<nat, Request>, inflight: map<Text, nat>) {
    && (forall k | k in inflight ::
          inflight[k] in reqs && Holds(reqs[inflight[k]]) && reqs[inflight[k]].Key() == k)
    && (forall i | i in reqs && Holds(reqs[i]) ::
          reqs[i].Key() in inflight && inflight[reqs[i].Key()] == i)
  }

  // A channel is closed once, by its owner, and never otherwise.
  ghost predicate ClosedOnce(s: State) {
    forall i: nat :: s.closes[i] == if i in s.reqs && Closed(s.reqs[i]) then 1 else 0
  }

  // A waiter waits for an owner of its own key, and goes on once that closed.
  ghost predicate WaitsFor(s: State, i: nat)
    requires i in s.reqs
  {
    s.reqs[i].role.Waiter? ==>
      var o := s.reqs[i].role.on;
      && o in s.reqs && s.reqs[o].role == Owner && s.reqs[o].Key() == s.reqs[i].Key()
      && (s.reqs[i].pc.Waiting? || Closed(s.reqs[o]))
  }

  ghost predicate Waits(s: State) {
    forall i | i in s.reqs :: WaitsFor(s, i)
  }

  ghost predicate SlotInv(s: State) {
    Shapes(s) && SlotsOwned(s.reqs, s.inflight) && ClosedOnce(s) && Waits(s)
  }

  lemma SameKey(r: Request, role: Role, pc: Pc)
    ensures r.(role := role, pc := pc).Key() == r.Key()
  {
  }

  lemma SlotInvAt(s: State, i: nat)
    requires SlotInv(s) && i in s.reqs
    ensures Shape(s.reqs[i]) && WaitsFor(s, i)
  {
    hide Shape;
  }

  // What a step may do to roles, slots and channels.
  lemma SlotDecided(s: State, id: nat, c: Choice)
    requires CanAct(s, id, c) && Shape(s.reqs[id])
    ensures var r, e := s.reqs[id], Decide(s, id, c);
      var r' := r.(role := e.role, pc := e.pc);
      && (e.change.TakeSlot? ==> r.pc.Claiming? && r.Key() !in s.inflight && Holds(r') && !Closed(r'))
      && (e.change.DropSlot? <==> r.pc.Deleting?)
      && (e.change.CloseChannel? <==> r.pc.Closing?)
      && (Closed(r') <==> Closed(r) || e.change.CloseChannel?)
      && (Holds(r') <==> (Holds(r) && !e.change.DropSlot?) || e.change.TakeSlot?)
      && (e.change.CloseChannel? || e.change.DropSlot? ==> Holds(r))
      && (e.change.CloseChannel? ==> !Closed(r))
      && (e.change.TakeSlot? ==> !Holds(r))
      && (r.role != Unclaimed ==> e.role == r.role)
      && (e.role.Waiter? && r.role == Unclaimed ==>
            r.Key() in s.inflight && e.role.on == s.inflight[r.Key()] && e.pc.Waiting?)
      && (r.pc.Waiting? ==> r.role.Waiter? && r.role.on in s.closes)
      && (e.pc.Waiting? ==> r.pc.Claiming? && r.role == Unclaimed)
  {
    hide Messages.ParseQuery, Request.Key, Request.Domain, Request.Qtype, Cacheable, CacheKey;
  }

  // Ownership after request id became r: as before, or id took its free slot, or
  // id left the slot it held.
  lemma OwnersAfter(reqs: map<nat, Request>, inflight: map<Text, nat>, id: nat, r: Request, take: bool, drop: bool)
    requires SlotsOwned(reqs, inflight) && id in reqs
    requires r.Key() == reqs[id].Key()
    requires take ==> r.Key() !in inflight && !drop
    requires drop ==> Holds(reqs[id])
    requires Holds(r) <==> (Holds(reqs[id]) && !drop) || take
    ensures SlotsOwned(reqs[id := r],
                       if take then inflight[r.Key() := id] else if drop then inflight - {r.Key()} else inflight)
  {
    hide Holds, Request.Key;
  }

  lemma SlotsOwnedKept(s: State, id: nat, c: Choice)
    requires SlotInv(s) && CanAct(s, id, c)
    ensures SlotsOwned(Do(s, id, c).reqs, Do(s, id, c).inflight)
  {
    SlotDecided(s, id, c);
    var e := Decide(s, id, c);
    hide Decide, Shape, ClosedOnce, Waits, Closed, CacheKey, SlotsOwned, Holds;
    var r := s.reqs[id].(role := e.role, pc := e.pc);
    OwnersAfter(s.reqs, s.inflight, id, r, e.change.TakeSlot?, e.change.DropSlot?);
  }

  lemma ClosedOnceKept(s: State, id: nat, c: Choice)
    requires SlotInv(s) && CanAct(s, id, c)
    ensures ClosedOnce(Do(s, id, c))
  {
    SlotDecided(s, id, c);
    hide Decide, Shape, SlotsOwned, Waits, Holds, Closed;
  }

  // Waiting after request id became r, whose role, once taken, stays.
  lemma WaitsAfter(s: State, s': State, id: nat, r: Request)
    requires Waits(s) && id in s.reqs && s'.reqs == s.reqs[id := r]
    requires r.Key() == s.reqs[id].Key() && (Closed(s.reqs[id]) ==> Closed(r))
    requires s.reqs[id].role != Unclaimed ==> r.role == s.reqs[id].role
    requires r.role.Waiter? ==>
               var o := r.role.on;
               && o in s.reqs && s.reqs[o].role == Owner && s.reqs[o].Key() == r.Key()
               && (r.pc.Waiting? || Closed(s.reqs[o]))
    ensures Waits(s')
  {
    hide Request.Key, Closed;
    forall i | i in s'.reqs ensures WaitsFor(s', i) {
      assert i in s.reqs;
      assert WaitsFor(s, i);
    }
  }

  lemma WaitsKept(s: State, id: nat, c: Choice)
    requires SlotInv(s) && CanAct(s, id, c)
    ensures Waits(Do(s, id, c))
  {
    SlotInvAt(s, id);
    SlotDecided(s, id, c);
    var e := Decide(s, id, c);
    hide Decide, Shape, CanAct, CacheKey;
    var r := s.reqs[id].(role := e.role, pc := e.pc);
    assert Do(s, id, c).reqs == s.reqs[id := r];
    hide Apply, Do, Request.Key, Holds, Closed, Waits;
    SameKey(s.reqs[id], e.role, e.pc);
    WaitsAfter(s, Do(s, id, c), id, r);
  }

  // The clock and the background refreshes do not touch requests or slots.
  lemma SlotInvIdle(s: State, s': State)
    requires SlotInv(s)
    requires s'.reqs == s.reqs && s'.inflight == s.inflight && s'.closes == s.closes
    ensures SlotInv(s')
  {
    hide Shape, SlotsOwned, Closed;
    forall i | i in s'.reqs ensures WaitsFor(s', i) {
      assert WaitsFor(s, i);
    }
  }

  lemma SlotInvArrives(s: State, id: nat, packet: seq<byte>)
    requires SlotInv(s) && id !in s.reqs
    ensures SlotInv(s.(count := s.count.(total := s.count.total + 1), reqs := s.reqs[id := Begin(s, packet)]))
  {
    hide Shape, Holds, Closed, Begin, Request.Key;
    var r := Begin(s, packet);
    BeginsFresh(s, packet);
    var s' := s.(count := s.count.(total := s.count.total + 1), reqs := s.reqs[id := r]);
    forall i | i in s'.reqs ensures WaitsFor(s', i) {
      assert i in s.reqs ==> WaitsFor(s, i);
    }
  }

  lemma BeginsFresh(s: State, packet: seq<byte>)
    ensures var r := Begin(s, packet); Shape(r) && !Holds(r) && !Closed(r) && !r.role.Waiter?
  {
    hide Messages.ParseQuery, Request.Key;
  }

  lemma SlotInvActs(s: State, id: nat, c: Choice)
    requires SlotInv(s) && CanAct(s, id, c)
    ensures SlotInv(Do(s, id, c))
  {
    ShapesKept(s, id, c);
    SlotsOwnedKept(s, id, c);
    ClosedOnceKept(s, id, c);
    WaitsKept(s, id, c);
    hide *;
    assert SlotInv(Do(s, id, c)) by { SlotInvParts(Do(s, id, c)); }
  }

  lemma SlotInvParts(s: State)
    requires Shapes(s) && SlotsOwned(s.reqs, s.inflight) && ClosedOnce(s) && Waits(s)
    ensures SlotInv(s)
  {
  }

  lemma SlotInvKept(s: State, step: Step)
    requires SlotInv(s) && Enabled(s, step)
    ensures SlotInv(After(s, step))
  {
    hide *;
    match step
    case Act(id, c) =>
      ActIs(s, id, c);
      SlotInvActs(s, id, c);
    case Arrive(id, packet) =>
      ArriveIs(s, id, packet);
      SlotInvArrives(s, id, packet);
    case Tick(now) =>
      TickIs(s, now);
      SlotInvIdle(s, After(s, step));
    case Refresh(child, c) =>
      RefreshIs(s, child, c);
      SlotInvIdle(s, After(s, step));
  }

  // ---------- consequences ----------

  predicate IsFinished(r: Request) {
    r.pc.Finished?
  }

  // Two live owners of one key are one and the same.
  lemma OneOwnerPerKey(s: State, i: nat, j: nat)
    requires SlotInv(s) && i in s.reqs && j in s.reqs
    requires Holds(s.reqs[i]) && Holds(s.reqs[j]) && s.reqs[i].Key() == s.reqs[j].Key()
    ensures i == j
  {
  }

  // An owner that is about to delete the entry of its key deletes its own.
  lemma DeletesOwnSlot(s: State, id: nat, c: Choice)
    requires SlotInv(s) && CanAct(s, id, c) && s.reqs[id].pc.Deleting?
    ensures var k, s' := s.reqs[id].Key(), Do(s, id, c);
      && k in s.inflight && s.inflight[k] == id
      && s'.inflight == s.inflight - {k}
      && (forall i | i in s.reqs && i != id && Holds(s.reqs[i]) ::
            s.reqs[i].Key() in s'.inflight && s'.inflight[s.reqs[i].Key()] == i)
  {
    SlotDecided(s, id, c);
    assert Decide(s, id, c).change == DropSlot;
    hide CacheKey, Decide, Shape, ClosedOnce, Waits, CanAct;
    assert Holds(s.reqs[id]);
  }

  // A blocked waiter waits for a channel that is closed, or that a live owner of
  // its key still holds, and that owner is not itself waiting.
  lemma WaiterIsServed(s: State, i: nat)
    requires SlotInv(s) && i in s.reqs && s.reqs[i].pc.Waiting?
    ensures s.reqs[i].role.Waiter?
    ensures var o := s.reqs[i].role.on;
      && o in s.reqs && s.reqs[o].Key() == s.reqs[i].Key()
      && (o in s.closes || (Holds(s.reqs[o]) && !s.reqs[o].pc.Waiting? && s.inflight[s.reqs[o].Key()] == o))
  {
    assert Shape(s.reqs[i]);
    assert WaitsFor(s, i);
    assert Shape(s.reqs[s.reqs[i].role.on]);
  }

  lemma {:induction false} Fresh(used: set<nat>) returns (n: nat)
    ensures n !in used && forall x | x in used :: x < n
    decreases |used|
  {
    if used == {} {
      n := 0;
    } else {
      var x :| x in used;
      var m := Fresh(used - {x});
      n := if m <= x then x + 1 else m;
      assert forall y | y in used :: y == x || y in used - {x};
    }
  }

  // A request that is not finished and not waiting can take its next step.
  lemma CanStep(s: State, id: nat) returns (c: Choice)
    requires id in s.reqs && !IsFinished(s.reqs[id])
    requires s.reqs[id].pc.Waiting? ==> s.reqs[id].role.Waiter? && s.reqs[id].role.on in s.closes
    ensures CanAct(s, id, c) && Plausible(s, id, c)
  {
    var child := Fresh(s.refreshers.Keys);
    c := match s.reqs[id].pc
         case LookDisk => Start(false)
         case Judging(_) => Spawn(child)
         case Resolving(_) => Fail
         case _ => Pass;
  }

  // No deadlock: while a request is unfinished, it or the owner it waits for can
  // take a step.
  lemma NoDeadlock(s: State, id: nat) returns (who: nat, c: Choice)
    requires SlotInv(s) && id in s.reqs && !IsFinished(s.reqs[id])
    ensures Enabled(s, Act(who, c))
    ensures who == id || (s.reqs[id].role == Waiter(who) && s.reqs[id].pc.Waiting?)
  {
    who := id;
    if s.reqs[id].pc.Waiting? {
      WaiterIsServed(s, id);
      if s.reqs[id].role.on !in s.closes {
        who := s.reqs[id].role.on;
      }
    }
    c := CanStep(s, who);
  }

  // Once all requests are finished, no slot is left behind.
  lemma NoSlotLeft(s: State)
    requires SlotInv(s)
    requires forall i | i in s.reqs :: IsFinished(s.reqs[i])
    ensures s.inflight == map[]
  {
    assert forall k :: k !in s.inflight;
  }
}
