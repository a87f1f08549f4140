// What becomes of each request and each refresh, told by the steps it took: an
// upstream success is the answer and is cached, a failure is a failure, an
// override is the answer, and anything else is served from the cache.
module Outcomes {
  import opened GoText
  import opened DnsTypes
  import opened CacheKeys
  import opened Pipeline
  import opened Slots
  import opened Coalescing
  import opened Provenance
  import opened Progress
  import opened Runs
  import Messages

  // ---------- the choice that settles a request ----------

  predicate Settles(c: Choice) {
    c.Override? || c.Fail? || c.Replied?
  }

  // The settling choice that request i met last, in the first n steps.
  function Settled(steps: seq<Step>, i: nat, n: nat): Option<Choice>
    requires n <= |steps|
  {
    if n == 0 then None
    else if steps[n - 1].Act? && steps[n - 1].id == i && Settles(steps[n - 1].choice) then Some(steps[n - 1].choice)
    else Settled(steps, i, n - 1)
  }

  // Where a request can be after that choice, and with what.
  predicate Fitting(pc: Pc, d: Option<Choice>) {
    match d
    case None =>
      && !pc.NegativeStore? && !pc.Storing? && !pc.Persisting?
      && (Replying(pc) ==> pc.reply.Unparsed? || pc.reply == Code(3) || (pc.reply.Answer? && !pc.reply.override))
    case Some(Override(records)) => Replying(pc) && pc.reply == Answer(records, true)
    case Some(Fail) => Replying(pc) && pc.reply == Code(2)
    case Some(Replied(result)) =>
      || pc.NegativeStore?
      || ((pc.Storing? || pc.Persisting?) && pc.entry.records == result.records)
      || (Replying(pc) && pc.reply in {Answer(result.records, false), Code(3)})
    case _ => false
  }

  lemma FittingDecided(s: State, id: nat, c: Choice, d: Option<Choice>)
    requires CanAct(s, id, c) && Fitting(s.reqs[id].pc, d)
    ensures Fitting(Decide(s, id, c).pc, if Settles(c) then Some(c) else d)
    ensures Settles(c) ==> d == None
  {
    hide Request.Key, Request.Domain, Request.Qtype, CacheKey;
    match s.reqs[id].pc
    case Overriding =>
    case Resolving(_) =>
    case NegativeStore =>
    case Storing(_) =>
    case Persisting(_) =>
    case _ =>
  }

  // A step touches at most one request.
  lemma OthersKeepPlace(s: State, step: Step, i: nat)
    requires Enabled(s, step) && i in s.reqs
    ensures i in After(s, step).reqs && After(s, step).reqs[i].parsed == s.reqs[i].parsed
    ensures step.Act? && step.id == i ==>
              CanAct(s, i, step.choice) && After(s, step).reqs[i].pc == Decide(s, i, step.choice).pc
    ensures !(step.Act? && step.id == i) ==> After(s, step).reqs[i] == s.reqs[i]
  {
    hide Enabled, After, Decide, CanAct, Plausible, Apply, DoRefresh, CanRefresh, Begin;
    match step
    case Act(id, c) =>
      ActIs(s, id, c);
      ApplyGrows(s, id, Decide(s, id, c));
    case Refresh(child, c) => RefreshIs(s, child, c);
    case Arrive(id, packet) => ArriveIs(s, id, packet);
    case Tick(now) => TickIs(s, now);
  }

  lemma NewlyArrived(s: State, step: Step, i: nat)
    requires Enabled(s, step) && i !in s.reqs && i in After(s, step).reqs
    ensures step.Arrive? && After(s, step).reqs[i].pc == Parsing
  {
    hide Enabled, After, Decide, CanAct, Plausible, Apply, DoRefresh, CanRefresh;
    match step
    case Act(id, c) =>
      ActIs(s, id, c);
      ApplyGrows(s, id, Decide(s, id, c));
    case Refresh(child, c) => RefreshIs(s, child, c);
    case Arrive(id, packet) => ArriveIs(s, id, packet);
    case Tick(now) => TickIs(s, now);
  }

  // A request that has not arrived has taken no step.
  lemma {:induction false} NotSettledYet(states: seq<State>, steps: seq<Step>, i: nat, n: nat)
    requires Leads(states, steps) && n <= |steps| && i !in states[n].reqs
    ensures Settled(steps, i, n) == None
  {
    hide Leads, Enabled, After, Settles;
    LeadsLength(states, steps);
    if n > 0 {
      LedBy(states, steps, n - 1);
      if i in states[n - 1].reqs {
        OthersKeepPlace(states[n - 1], steps[n - 1], i);
      }
      Absent(states[n - 1], steps[n - 1], i);
      NotSettledYet(states, steps, i, n - 1);
    }
  }

  lemma Absent(s: State, step: Step, i: nat)
    requires Enabled(s, step) && i !in s.reqs
    ensures !(step.Act? && step.id == i)
  {
    hide After;
    if step.Act? {
      ActIs(s, step.id, step.choice);
    }
  }

  lemma {:induction false} AlwaysFitting(states: seq<State>, steps: seq<Step>, i: nat, n: nat)
    requires Leads(states, steps) && Init(states[0]) && n <= |steps| && i in states[n].reqs
    ensures Fitting(states[n].reqs[i].pc, Settled(steps, i, n))
  {
    hide Leads, Enabled, After, Fitting, Settles, CanAct, Decide;
    LeadsLength(states, steps);
    if n > 0 {
      var s, step := states[n - 1], steps[n - 1];
      LedBy(states, steps, n - 1);
      if i in s.reqs {
        AlwaysFitting(states, steps, i, n - 1);
        OthersKeepPlace(s, step, i);
        if step.Act? && step.id == i {
          FittingDecided(s, i, step.choice, Settled(steps, i, n - 1));
        }
      } else {
        NotSettledYet(states, steps, i, n - 1);
        NewlyArrived(s, step, i);
        FittingFresh();
      }
    }
  }

  lemma FittingFresh()
    ensures Fitting(Parsing, None)
  {
  }

  // A settling choice was met in one of the steps, and none is met after it.
  lemma {:induction false} SettledAt(steps: seq<Step>, i: nat, n: nat) returns (m: nat)
    requires n <= |steps| && Settled(steps, i, n).Some?
    ensures m < n && steps[m] == Act(i, Settled(steps, i, n).value) && Settles(steps[m].choice)
  {
    if steps[n - 1].Act? && steps[n - 1].id == i && Settles(steps[n - 1].choice) {
      m := n - 1;
    } else {
      m := SettledAt(steps, i, n - 1);
    }
  }

  lemma LedBy(states: seq<State>, steps: seq<Step>, n: nat)
    requires Leads(states, steps) && n < |steps|
    ensures Enabled(states[n], steps[n]) && states[n + 1] == After(states[n], steps[n])
  {
    hide Enabled, After;
  }

  lemma {:induction false} StaysSettled(states: seq<State>, steps: seq<Step>, i: nat, m: nat, n: nat)
    requires Leads(states, steps) && Init(states[0]) && m < n <= |steps|
    requires steps[m].Act? && steps[m].id == i && Settles(steps[m].choice)
    ensures Settled(steps, i, n) == Some(steps[m].choice)
    decreases n - m
  {
    hide Leads, Init, Enabled, After, Fitting, Settles, CanAct, Plausible, Decide;
    LeadsLength(states, steps);
    if n > m + 1 {
      StaysSettled(states, steps, i, m, n - 1);
      var s, step := states[n - 1], steps[n - 1];
      LedBy(states, steps, n - 1);
      if step.Act? && step.id == i && Settles(step.choice) {
        ActIs(s, i, step.choice);
        AlwaysFitting(states, steps, i, n - 1);
        FittingDecided(s, i, step.choice, Settled(steps, i, n - 1));
      }
    }
  }

  // ---------- what was stored on the way ----------

  ghost predicate WasHot(states: seq<State>, n: nat, k: Text, e: Entry) {
    exists m | 0 <= m <= n < |states| :: k in states[m].hot && states[m].hot[k] == e
  }

  ghost predicate WasOnDisk(states: seq<State>, n: nat, k: Text, e: Entry) {
    exists m | 0 <= m <= n < |states| :: k in states[m].disk && states[m].disk[k] == e
  }

  // What the resolve of a request left behind, as far as the request has come.
  ghost predicate Left(states: seq<State>, n: nat, i: nat, result: Result)
    requires n < |states| && i in states[n].reqs
  {
    var r := states[n].reqs[i];
    && (r.pc.Storing? || r.pc.Persisting? ==> Fetched(states[n], r.Domain(), r.Qtype(), r.pc.entry))
    && (r.pc.Persisting? ==> WasHot(states, n, r.Key(), r.pc.entry))
    && (FromCache(r.pc) ==> exists e: Entry ::
          && e.records == result.records && Fetched(states[n], r.Domain(), r.Qtype(), e)
          && WasHot(states, n, r.Key(), e) && WasOnDisk(states, n, r.Key(), e))
  }

  // How a request gets from one of these places to the next.
  lemma StoreDecided(s: State, id: nat, c: Choice, result: Result)
    requires CanAct(s, id, c)
    requires Fitting(s.reqs[id].pc, Some(Replied(result))) || (s.reqs[id].pc.Resolving? && c == Replied(result))
    ensures var pc, e := s.reqs[id].pc, Decide(s, id, c);
      && (e.pc.Storing? ==> pc.Resolving? && e.change == Resolved(e.pc.entry))
      && (e.pc.Persisting? ==> pc.Storing? && e.pc.entry == pc.entry && e.change == PutHot(pc.entry))
      && (FromCache(e.pc) ==>
            || (FromCache(pc) && e.pc.reply == pc.reply)
            || (pc.Persisting? && e.pc.reply.records == pc.entry.records && e.change == PutDisk(pc.entry)))
  {
    hide Request.Key, Request.Domain, Request.Qtype, CacheKey, Cacheable;
    match s.reqs[id].pc
    case Resolving(_) =>
    case Storing(_) =>
    case Persisting(_) =>
    case _ =>
  }

  lemma LeftLater(states: seq<State>, n: nat, i: nat, result: Result)
    requires 0 < n < |states| && i in states[n - 1].reqs && i in states[n].reqs
    requires states[n].reqs[i] == states[n - 1].reqs[i] && Grows(states[n - 1], states[n])
    requires Left(states, n - 1, i, result)
    ensures Left(states, n, i, result)
  {
    hide Grows, CacheKey, Request.Domain, Request.Qtype, Request.Key;
    var r := states[n].reqs[i];
    FetchedGrows(states[n - 1], states[n], r.Domain(), r.Qtype());
    WasGrows(states, n, r.Key());
    hide Fetched, WasHot, WasOnDisk;
  }

  lemma FetchedGrows(s: State, s': State, domain: Text, qtype: u16)
    requires Grows(s, s')
    ensures forall e | Fetched(s, domain, qtype, e) :: Fetched(s', domain, qtype, e)
  {
    forall e | Fetched(s, domain, qtype, e) ensures Fetched(s', domain, qtype, e) {
      var at :| Resolution(domain, qtype, e, at) in s.past.resolutions;
      assert Resolution(domain, qtype, e, at) in s'.past.resolutions;
    }
  }

  lemma WasGrows(states: seq<State>, n: nat, k: Text)
    requires 0 < n < |states|
    ensures forall e | WasHot(states, n - 1, k, e) :: WasHot(states, n, k, e)
    ensures forall e | WasOnDisk(states, n - 1, k, e) :: WasOnDisk(states, n, k, e)
  {
  }

  lemma NowHot(states: seq<State>, n: nat, k: Text, e: Entry)
    requires n < |states| && k in states[n].hot && states[n].hot[k] == e
    ensures WasHot(states, n, k, e)
  {
  }

  lemma NowOnDisk(states: seq<State>, n: nat, k: Text, e: Entry)
    requires n < |states| && k in states[n].disk && states[n].disk[k] == e
    ensures WasOnDisk(states, n, k, e)
  {
  }

  lemma LeftByStep(states: seq<State>, n: nat, i: nat, c: Choice, result: Result)
    requires 0 < n < |states| && i in states[n - 1].reqs && CanAct(states[n - 1], i, c)
    requires states[n] == Do(states[n - 1], i, c)
    requires (Fitting(states[n - 1].reqs[i].pc, Some(Replied(result))) && Left(states, n - 1, i, result))
          || (states[n - 1].reqs[i].pc.Resolving? && c == Replied(result))
    requires Fitting(states[n].reqs[i].pc, Some(Replied(result)))
    ensures i in states[n].reqs && Left(states, n, i, result)
  {
    var s, s' := states[n - 1], states[n];
    var e, r := Decide(s, i, c), s.reqs[i];
    StoreDecided(s, i, c, result);
    ApplyGrows(s, i, e);
    ApplyLayers(s, i, e);
    hide Decide, Apply, CanAct, Grows, CacheKey, Request.Domain, Request.Qtype, Request.Key;
    SameKey(r, e.role, e.pc);
    SamePair(r, e.role, e.pc);
    FetchedGrows(s, s', r.Domain(), r.Qtype());
    WasGrows(states, n, r.Key());
    if e.pc.Storing? {
      assert Resolution(r.Domain(), r.Qtype(), e.pc.entry, s.now) in s'.past.resolutions;
    }
    if e.pc.Persisting? {
      NowHot(states, n, r.Key(), e.pc.entry);
    }
    if r.pc.Persisting? && e.change == PutDisk(r.pc.entry) {
      NowOnDisk(states, n, r.Key(), r.pc.entry);
    }
    hide Fetched, WasHot, WasOnDisk;
  }

  lemma SamePair(r: Request, role: Role, pc: Pc)
    ensures r.(role := role, pc := pc).Domain() == r.Domain() && r.(role := role, pc := pc).Qtype() == r.Qtype()
  {
  }

  lemma {:induction false} AlwaysLeft(states: seq<State>, steps: seq<Step>, i: nat, n: nat, result: Result)
    requires Leads(states, steps) && Init(states[0]) && n <= |steps| && i in states[n].reqs
    requires Settled(steps, i, n) == Some(Replied(result))
    ensures Left(states, n, i, result)
  {
    hide Enabled, After, Fitting, Init, CanAct, Plausible, Decide, Left, Leads;
    LeadsLength(states, steps);
    var s, step := states[n - 1], steps[n - 1];
    LedBy(states, steps, n - 1);
    AlwaysFitting(states, steps, i, n);
    Grown(s, step);
    if i !in s.reqs {
      NotSettledYet(states, steps, i, n - 1);
      Absent(s, step, i);
    } else {
      OthersKeepPlace(s, step, i);
      AlwaysFitting(states, steps, i, n - 1);
      if step.Act? && step.id == i {
        ActIs(s, i, step.choice);
        if Settles(step.choice) {
          RepliedWhileResolving(s, i, step.choice);
        } else {
          AlwaysLeft(states, steps, i, n - 1, result);
        }
        LeftByStep(states, n, i, step.choice, result);
      } else {
        AlwaysLeft(states, steps, i, n - 1, result);
        LeftLater(states, n, i, result);
      }
    }
  }

  lemma RepliedWhileResolving(s: State, id: nat, c: Choice)
    requires CanAct(s, id, c) && c.Replied?
    ensures s.reqs[id].pc.Resolving?
  {
  }

  // ---------- the outcome of a request ----------

  lemma RunOf(states: seq<State>, steps: seq<Step>)
    requires Leads(states, steps) && Init(states[0])
    ensures Run(states)
  {
    hide Enabled, After, Init;
    forall n | 0 <= n < |states| - 1 ensures Next(states[n], states[n + 1]) {
      LedBy(states, steps, n);
      NextBy(states[n], steps[n]);
    }
  }

  lemma NextBy(s: State, step: Step)
    requires Enabled(s, step)
    ensures Next(s, After(s, step))
  {
    hide Enabled, After;
  }

  lemma NotDenied(states: seq<State>, steps: seq<Step>, i: nat, n: nat)
    requires Leads(states, steps) && Init(states[0]) && n <= |steps|
    requires i in states[n].reqs && IsFinished(states[n].reqs[i])
    ensures states[n].reqs[i].pc.reply != Code(3)
  {
    hide Leads, Init, Run;
    RunOf(states, steps);
    LeadsLength(states, steps);
    NegativeCacheStaysEmpty(states, n);
  }

  lemma LeadsLength(states: seq<State>, steps: seq<Step>)
    requires Leads(states, steps)
    ensures |states| == |steps| + 1
  {
  }

  // An upstream success, of the fan-out or of the bootstrap resolver, is the
  // answer: its very records. They were also put in both layers, as an entry for
  // the pair asked for that was built from this or another resolve of the pair.
  lemma SuccessIsAnswered(states: seq<State>, steps: seq<Step>, i: nat, m: nat, n: nat, result: Result)
    requires Leads(states, steps) && Init(states[0]) && m < n <= |steps| && steps[m] == Act(i, Replied(result))
    requires i in states[n].reqs && IsFinished(states[n].reqs[i])
    ensures |states| == |steps| + 1
    ensures var r := states[n].reqs[i];
      && r.pc == Finished(Answer(result.records, false))
      && exists e: Entry ::
           && e.records == result.records && Fetched(states[n], r.Domain(), r.Qtype(), e)
           && WasHot(states, n, r.Key(), e) && WasOnDisk(states, n, r.Key(), e)
  {
    hide Leads, Init, Fetched, WasHot, WasOnDisk, Request.Key, Request.Domain, Request.Qtype;
    LeadsLength(states, steps);
    StaysSettled(states, steps, i, m, n);
    AlwaysFitting(states, steps, i, n);
    AlwaysLeft(states, steps, i, n, result);
    NotDenied(states, steps, i, n);
  }

  // A request answers that the server failed exactly if its resolve failed.
  lemma FailureExact(states: seq<State>, steps: seq<Step>, i: nat, n: nat)
    requires Leads(states, steps) && Init(states[0]) && n <= |steps|
    requires i in states[n].reqs && IsFinished(states[n].reqs[i])
    ensures states[n].reqs[i].pc.reply == Code(2) <==> exists m | 0 <= m < n :: steps[m] == Act(i, Fail)
  {
    hide Leads, Init;
    LeadsLength(states, steps);
    AlwaysFitting(states, steps, i, n);
    if m :| 0 <= m < n && steps[m] == Act(i, Fail) {
      StaysSettled(states, steps, i, m, n);
    }
    if states[n].reqs[i].pc.reply == Code(2) {
      var m := SettledAt(steps, i, n);
    }
  }

  // A request answers with an override exactly if it met one, and with just its
  // records.
  lemma OverrideExact(states: seq<State>, steps: seq<Step>, i: nat, n: nat, records: seq<RR>)
    requires Leads(states, steps) && Init(states[0]) && n <= |steps|
    requires i in states[n].reqs && IsFinished(states[n].reqs[i])
    ensures states[n].reqs[i].pc.reply == Answer(records, true)
       <==> exists m | 0 <= m < n :: steps[m] == Act(i, Override(records))
  {
    hide Leads, Init;
    LeadsLength(states, steps);
    AlwaysFitting(states, steps, i, n);
    if m :| 0 <= m < n && steps[m] == Act(i, Override(records)) {
      StaysSettled(states, steps, i, m, n);
    }
    if states[n].reqs[i].pc.reply == Answer(records, true) {
      var m := SettledAt(steps, i, n);
    }
  }

  // ---------- served from the cache ----------

  // A layer had this entry for the key of request i at a time when i had arrived.
  ghost predicate Seen(states: seq<State>, n: nat, i: nat, k: Text, e: Entry) {
    exists m | 0 <= m <= n < |states| ::
      && i in states[m].reqs
      && ((k in states[m].hot && states[m].hot[k] == e) || (k in states[m].disk && states[m].disk[k] == e))
  }

  // The hot layer had it.
  ghost predicate SeenHot(states: seq<State>, n: nat, i: nat, k: Text, e: Entry) {
    exists m | 0 <= m <= n < |states| :: i in states[m].reqs && k in states[m].hot && states[m].hot[k] == e
  }

  predicate Promoting(pc: Pc) {
    pc.RecheckPromote? || pc.LookPromote?
  }

  ghost predicate Cached(states: seq<State>, n: nat, i: nat)
    requires n < |states| && i in states[n].reqs
  {
    var r := states[n].reqs[i];
    && (Promoting(r.pc) ==> Seen(states, n, i, r.Key(), r.pc.entry))
    && (r.pc.Judging? ==> SeenHot(states, n, i, r.Key(), r.pc.entry))
    && (FromCache(r.pc) ==> exists e: Entry :: e.records == r.pc.reply.records && SeenHot(states, n, i, r.Key(), e))
  }

  lemma CacheDecided(s: State, id: nat, c: Choice)
    requires CanAct(s, id, c) && Fitting(s.reqs[id].pc, None) && !Settles(c)
    ensures var r, e := s.reqs[id], Decide(s, id, c);
      && (Promoting(e.pc) ==> r.Key() in s.disk && e.pc.entry == s.disk[r.Key()])
      && (e.pc.Judging? ==>
            || (r.Key() in s.hot && e.pc.entry == s.hot[r.Key()])
            || (Promoting(r.pc) && e.pc.entry == r.pc.entry && e.change == PutHot(r.pc.entry)))
      && (FromCache(e.pc) ==>
            || (FromCache(r.pc) && e.pc.reply == r.pc.reply)
            || (r.pc.Judging? && e.pc.reply.records == r.pc.entry.records)
            || (Promoting(r.pc) && e.pc.reply.records == r.pc.entry.records && e.change == PutHot(r.pc.entry))
            || (r.Key() in s.hot && e.pc.reply.records == s.hot[r.Key()].records))
  {
    hide Request.Key, Request.Domain, Request.Qtype, CacheKey, Cacheable;
    match s.reqs[id].pc
    case RecheckHot =>
    case RecheckDisk =>
    case RecheckPromote(_) =>
    case LookHot =>
    case LookDisk =>
    case LookPromote(_) =>
    case Judging(_) =>
    case _ =>
  }

  lemma SeenLater(states: seq<State>, n: nat, i: nat, k: Text)
    requires 0 < n < |states| && i in states[n - 1].reqs
    ensures forall e | Seen(states, n - 1, i, k, e) :: Seen(states, n, i, k, e)
    ensures forall e | SeenHot(states, n - 1, i, k, e) :: SeenHot(states, n, i, k, e)
    ensures k in states[n - 1].hot ==> SeenHot(states, n, i, k, states[n - 1].hot[k])
    ensures k in states[n - 1].disk ==> Seen(states, n, i, k, states[n - 1].disk[k])
  {
  }

  lemma HotIsSeen(states: seq<State>, n: nat, i: nat, k: Text, e: Entry)
    requires n < |states| && i in states[n].reqs && k in states[n].hot && states[n].hot[k] == e
    ensures SeenHot(states, n, i, k, e)
  {
  }

  lemma CachedByStep(states: seq<State>, n: nat, i: nat, c: Choice)
    requires 0 < n < |states| && i in states[n - 1].reqs && CanAct(states[n - 1], i, c) && !Settles(c)
    requires states[n] == Do(states[n - 1], i, c)
    requires Fitting(states[n - 1].reqs[i].pc, None) && Cached(states, n - 1, i)
    ensures i in states[n].reqs && Cached(states, n, i)
  {
    var s := states[n - 1];
    var e, r := Decide(s, i, c), s.reqs[i];
    CacheDecided(s, i, c);
    ApplyGrows(s, i, e);
    ApplyLayers(s, i, e);
    hide Decide, Apply, CanAct, Grows, CacheKey, Request.Domain, Request.Qtype, Request.Key, Fitting, Settles;
    SameKey(r, e.role, e.pc);
    SeenLater(states, n, i, r.Key());
    if Promoting(r.pc) && e.change == PutHot(r.pc.entry) {
      HotIsSeen(states, n, i, r.Key(), r.pc.entry);
    }
    hide Seen, SeenHot;
  }

  lemma CachedLater(states: seq<State>, n: nat, i: nat)
    requires 0 < n < |states| && i in states[n - 1].reqs && i in states[n].reqs
    requires states[n].reqs[i] == states[n - 1].reqs[i] && Cached(states, n - 1, i)
    ensures Cached(states, n, i)
  {
    hide Request.Key;
    SeenLater(states, n, i, states[n].reqs[i].Key());
    hide Seen, SeenHot;
  }

  lemma {:induction false} AlwaysCached(states: seq<State>, steps: seq<Step>, i: nat, n: nat)
    requires Leads(states, steps) && Init(states[0]) && n <= |steps| && i in states[n].reqs
    requires Settled(steps, i, n) == None
    ensures |states| == |steps| + 1 && Cached(states, n, i)
  {
    hide Enabled, After, Fitting, CanAct, Plausible, Decide, Cached, Leads, Settles;
    LeadsLength(states, steps);
    if n > 0 {
      var s, step := states[n - 1], steps[n - 1];
      LedBy(states, steps, n - 1);
      if i in s.reqs {
        OthersKeepPlace(s, step, i);
        AlwaysCached(states, steps, i, n - 1);
        AlwaysFitting(states, steps, i, n - 1);
        if step.Act? && step.id == i {
          ActIs(s, i, step.choice);
          CachedByStep(states, n, i, step.choice);
        } else {
          CachedLater(states, n, i);
        }
      } else {
        NewlyArrived(s, step, i);
        CachedFresh(states, n, i);
      }
    }
  }

  lemma CachedFresh(states: seq<State>, n: nat, i: nat)
    requires n < |states| && i in states[n].reqs && states[n].reqs[i].pc == Parsing
    ensures Cached(states, n, i)
  {
  }

  // A request that can be read, meets no override and goes through no resolve is
  // answered from the cache, with an entry that the hot layer had for its key
  // after it arrived: found there, or promoted from disk.
  lemma OthersAreServedFromCache(states: seq<State>, steps: seq<Step>, i: nat, n: nat)
    requires Leads(states, steps) && Init(states[0]) && n <= |steps|
    requires i in states[n].reqs && IsFinished(states[n].reqs[i])
    requires Messages.ParseQuery(states[n].reqs[i].packet).Ok?
    requires forall m | 0 <= m < n && steps[m].Act? && steps[m].id == i :: !Settles(steps[m].choice)
    ensures exists e: Entry ::
              && states[n].reqs[i].pc == Finished(Answer(e.records, false))
              && SeenHot(states, n, i, states[n].reqs[i].Key(), e)
  {
    hide Leads, Init, Seen, SeenHot, Request.Key, Messages.ParseQuery, Settles, Invariant, Run;
    LeadsLength(states, steps);
    RunOf(states, steps);
    RunInvariant(states, n);
    ShapeOf(states[n], i);
    if Settled(steps, i, n).Some? {
      var m := SettledAt(steps, i, n);
      assert false;
    }
    AlwaysFitting(states, steps, i, n);
    AlwaysCached(states, steps, i, n);
    NotDenied(states, steps, i, n);
  }

  // ---------- upstream as the last resort ----------

  // Request i met no override.
  ghost predicate PassedOverrides(states: seq<State>, steps: seq<Step>, n: nat, i: nat) {
    exists m | 0 <= m < n <= |steps| && n < |states| ::
      i in states[m].reqs && states[m].reqs[i].pc == Overriding && steps[m] == Act(i, Pass)
  }

  ghost predicate Denied(s: State, domain: Text) {
    domain in s.neg && s.now < s.neg[domain]
  }

  // It looked for its domain in the negative cache, when that had no live entry.
  ghost predicate PassedNegative(states: seq<State>, n: nat, i: nat) {
    exists m | 0 <= m < n < |states| ::
      i in states[m].reqs && states[m].reqs[i].pc == Negative && !Denied(states[m], states[m].reqs[i].Domain())
  }

  // It looked for its key in the hot layer, which did not have it.
  ghost predicate MissedHot(states: seq<State>, n: nat, i: nat) {
    exists m | 0 <= m < n < |states| ::
      i in states[m].reqs && states[m].reqs[i].pc == LookHot && states[m].reqs[i].Key() !in states[m].hot
  }

  // Nor did the disk, when it looked there.
  ghost predicate MissedDisk(states: seq<State>, n: nat, i: nat) {
    exists m | 0 <= m < n < |states| ::
      i in states[m].reqs && states[m].reqs[i].pc == LookDisk && states[m].reqs[i].Key() !in states[m].disk
  }

  predicate WentUpstream(pc: Pc, d: Option<Choice>) {
    Upstream(pc) || (d.Some? && (d.value.Fail? || d.value.Replied?))
  }

  predicate AfterOverrides(pc: Pc) {
    !pc.Parsing? && !pc.Overriding? && (Replying(pc) ==> pc.reply != Unparsed && !(pc.reply.Answer? && pc.reply.override))
  }

  predicate AfterNegative(pc: Pc, d: Option<Choice>) {
    pc.LookHot? || pc.LookDisk? || pc.LookPromote? || pc.Judging? || WentUpstream(pc, d)
  }

  predicate AfterHot(pc: Pc, d: Option<Choice>) {
    pc.LookDisk? || pc.LookPromote? || WentUpstream(pc, d)
  }

  ghost predicate Consulted(states: seq<State>, steps: seq<Step>, n: nat, i: nat, pc: Pc, d: Option<Choice>) {
    && (AfterOverrides(pc) ==> PassedOverrides(states, steps, n, i))
    && (AfterNegative(pc, d) ==> PassedNegative(states, n, i))
    && (AfterHot(pc, d) ==> MissedHot(states, n, i))
    && (WentUpstream(pc, d) ==> MissedDisk(states, n, i))
  }

  lemma WayDecided(s: State, id: nat, c: Choice, d: Option<Choice>)
    requires CanAct(s, id, c) && Fitting(s.reqs[id].pc, d)
    ensures var r, pc := s.reqs[id], Decide(s, id, c).pc;
      var d' := if Settles(c) then Some(c) else d;
      && (AfterOverrides(pc) ==> AfterOverrides(r.pc) || (r.pc == Overriding && c == Pass))
      && (AfterNegative(pc, d') ==> AfterNegative(r.pc, d) || (r.pc == Negative && !Denied(s, r.Domain())))
  {
    hide Request.Key, Request.Domain, Request.Qtype, CacheKey, Cacheable;
    match s.reqs[id].pc
    case Parsing =>
    case Overriding =>
    case Negative =>
    case LookHot =>
    case Resolving(_) =>
    case _ =>
  }

  lemma MissesDecided(s: State, id: nat, c: Choice, d: Option<Choice>)
    requires CanAct(s, id, c) && Fitting(s.reqs[id].pc, d)
    ensures var r, pc := s.reqs[id], Decide(s, id, c).pc;
      var d' := if Settles(c) then Some(c) else d;
      && (AfterHot(pc, d') ==> AfterHot(r.pc, d) || (r.pc == LookHot && r.Key() !in s.hot))
      && (WentUpstream(pc, d') ==> WentUpstream(r.pc, d) || (r.pc == LookDisk && r.Key() !in s.disk))
  {
    hide Request.Key, Request.Domain, Request.Qtype, CacheKey, Cacheable;
    match s.reqs[id].pc
    case Overriding =>
    case LookHot =>
    case LookDisk =>
    case Resolving(_) =>
    case _ =>
  }

  lemma ConsultedLater(states: seq<State>, steps: seq<Step>, n: nat, i: nat, pc: Pc, d: Option<Choice>)
    requires 0 < n < |states| && n <= |steps| && Consulted(states, steps, n - 1, i, pc, d)
    ensures Consulted(states, steps, n, i, pc, d)
  {
    hide Request.Key, Request.Domain, Denied;
  }

  lemma ConsultedByStep(states: seq<State>, steps: seq<Step>, n: nat, i: nat, c: Choice, d: Option<Choice>)
    requires 0 < n < |states| && n <= |steps| && steps[n - 1] == Act(i, c)
    requires CanAct(states[n - 1], i, c) && Fitting(states[n - 1].reqs[i].pc, d)
    requires Consulted(states, steps, n - 1, i, states[n - 1].reqs[i].pc, d)
    ensures Consulted(states, steps, n, i, Decide(states[n - 1], i, c).pc, if Settles(c) then Some(c) else d)
  {
    var s := states[n - 1];
    WayDecided(s, i, c, d);
    MissesDecided(s, i, c, d);
    ConsultedLater(states, steps, n, i, s.reqs[i].pc, d);
    hide Decide, CanAct, Fitting, Settles, AfterOverrides, AfterNegative, AfterHot, WentUpstream, Request.Key, Request.Domain, Denied;
    assert 0 <= n - 1 < n;
  }

  lemma {:induction false} AlwaysConsulted(states: seq<State>, steps: seq<Step>, i: nat, n: nat)
    requires Leads(states, steps) && Init(states[0]) && n <= |steps| && i in states[n].reqs
    ensures Consulted(states, steps, n, i, states[n].reqs[i].pc, Settled(steps, i, n))
  {
    hide Enabled, After, Fitting, CanAct, Plausible, Decide, Consulted, Leads, Settles;
    LeadsLength(states, steps);
    if n > 0 {
      var s, step := states[n - 1], steps[n - 1];
      LedBy(states, steps, n - 1);
      if i in s.reqs {
        OthersKeepPlace(s, step, i);
        AlwaysConsulted(states, steps, i, n - 1);
        AlwaysFitting(states, steps, i, n - 1);
        if step.Act? && step.id == i {
          ActIs(s, i, step.choice);
          ConsultedByStep(states, steps, n, i, step.choice, Settled(steps, i, n - 1));
        } else {
          ConsultedLater(states, steps, n, i, states[n].reqs[i].pc, Settled(steps, i, n - 1));
        }
      } else {
        NotSettledYet(states, steps, i, n - 1);
        NewlyArrived(s, step, i);
        ConsultedFresh(states, steps, n, i);
      }
    }
  }

  lemma ConsultedFresh(states: seq<State>, steps: seq<Step>, n: nat, i: nat)
    ensures Consulted(states, steps, n, i, Parsing, None)
  {
  }

  // A request goes upstream only when it met no override, found no live entry for
  // its domain in the negative cache, none for its key in the hot layer and none
  // on disk.
  lemma UpstreamIsLastResort(states: seq<State>, steps: seq<Step>, i: nat, n: nat)
    requires Leads(states, steps) && Init(states[0]) && n <= |steps|
    requires i in states[n].reqs && WentUpstream(states[n].reqs[i].pc, Settled(steps, i, n))
    ensures PassedOverrides(states, steps, n, i) && PassedNegative(states, n, i)
    ensures MissedHot(states, n, i) && MissedDisk(states, n, i)
  {
    hide Leads, Init, PassedOverrides, PassedNegative, MissedHot, MissedDisk;
    AlwaysConsulted(states, steps, i, n);
    AlwaysFitting(states, steps, i, n);
  }

  // And it is answered from the cache only when it met no override.
  lemma OverridesComeFirst(states: seq<State>, steps: seq<Step>, i: nat, n: nat)
    requires Leads(states, steps) && Init(states[0]) && n <= |steps|
    requires i in states[n].reqs && FromCache(states[n].reqs[i].pc)
    ensures PassedOverrides(states, steps, n, i)
  {
    hide Leads, Init, PassedOverrides, PassedNegative, MissedHot, MissedDisk;
    AlwaysConsulted(states, steps, i, n);
  }

  // ---------- single steps ----------

  // What may happen to a request: an override is met only at the check for one,
  // only for addresses and with at least one record; a resolve fails or replies.
  lemma ChoicesExact(s: State, id: nat, records: seq<RR>, result: Result)
    requires id in s.reqs
    ensures CanAct(s, id, Override(records)) <==> s.reqs[id].pc.Overriding? && records != [] && s.reqs[id].Qtype() in {1, 28}
    ensures CanAct(s, id, Replied(result)) <==> s.reqs[id].pc.Resolving?
    ensures CanAct(s, id, Fail) <==> s.reqs[id].pc.Resolving?
  {
  }

  lemma RefreshChoicesExact(s: State, child: nat, result: Result)
    requires child in s.refreshers
    ensures CanRefresh(s, child, Replied(result)) <==> s.refreshers[child].pc.Fetching?
    ensures CanRefresh(s, child, Fail) <==> s.refreshers[child].pc.Fetching?
  {
  }

  // Whatever the negative cache holds: a domain with a live entry is denied, and
  // no other; and a denial lives for 300 seconds.
  lemma NegativeExact(s: State, id: nat)
    requires id in s.reqs
    ensures s.reqs[id].pc.Negative? ==>
              && CanAct(s, id, Pass)
              && (Denied(s, s.reqs[id].Domain()) <==> Replying(Do(s, id, Pass).reqs[id].pc))
              && (Replying(Do(s, id, Pass).reqs[id].pc) ==> Do(s, id, Pass).reqs[id].pc.reply == Code(3))
    ensures s.reqs[id].pc.NegativeStore? ==>
              && CanAct(s, id, Pass)
              && Do(s, id, Pass).neg == s.neg[s.reqs[id].Domain() := s.now + 300]
              && Replying(Do(s, id, Pass).reqs[id].pc) && Do(s, id, Pass).reqs[id].pc.reply == Code(3)
  {
    hide CacheKey;
  }

  // ---------- the outcome of a refresh ----------

  function RefreshSettled(steps: seq<Step>, child: nat, n: nat): Option<Choice>
    requires n <= |steps|
  {
    if n == 0 then None
    else if steps[n - 1].Refresh? && steps[n - 1].child == child && Settles(steps[n - 1].choice) then Some(steps[n - 1].choice)
    else RefreshSettled(steps, child, n - 1)
  }

  // Where a refresh can be after its reply: failed, or on the way to store the
  // records it got.
  predicate RefreshFitting(pc: RefreshPc, d: Option<Choice>) {
    match d
    case None => pc.Fetching?
    case Some(Fail) => pc.Failed?
    case Some(Replied(result)) => (pc.Hotting? || pc.Disking? || pc.Stored?) && pc.entry.records == result.records
    case _ => false
  }

  // What it has put into the layers by then.
  ghost predicate RefreshLeft(states: seq<State>, n: nat, child: nat)
    requires n < |states| && child in states[n].refreshers
  {
    var r := states[n].refreshers[child];
    && (r.pc.Disking? || r.pc.Stored? ==> WasHot(states, n, CacheKey(r.domain, r.qtype), r.pc.entry))
    && (r.pc.Stored? ==> WasOnDisk(states, n, CacheKey(r.domain, r.qtype), r.pc.entry))
  }

  lemma RefreshStep(s: State, child: nat, c: Choice, d: Option<Choice>)
    requires CanRefresh(s, child, c) && RefreshFitting(s.refreshers[child].pc, d)
    ensures RefreshFitting(DecideRefresh(s, s.refreshers[child].pc, c), if Settles(c) then Some(c) else d)
    ensures Settles(c) ==> d == None
  {
  }

  // A refresh is at work on its own, whatever the other steps do.
  lemma OtherStep(s: State, step: Step, child: nat)
    requires Enabled(s, step) && child in s.refreshers && !(step.Refresh? && step.child == child)
    ensures child in After(s, step).refreshers && After(s, step).refreshers[child] == s.refreshers[child]
  {
    hide Enabled, After, Decide, CanAct, Plausible, Apply, CanRefresh, Begin, Rank, Cacheable, CacheKey;
    match step
    case Act(id, c) =>
      ActIs(s, id, c);
      RankDecided(s, id, c);
      ApplyLayers(s, id, Decide(s, id, c));
    case Refresh(other, c) => RefreshIs(s, other, c);
    case Arrive(id, packet) => ArriveIs(s, id, packet);
    case Tick(now) => TickIs(s, now);
  }

  lemma NewRefresher(s: State, step: Step, child: nat)
    requires Enabled(s, step) && child !in s.refreshers
    ensures !(step.Refresh? && step.child == child)
    ensures child in After(s, step).refreshers ==> After(s, step).refreshers[child].pc == Fetching
  {
    hide Enabled, After, Decide, CanAct, Plausible, Apply, Begin, Cacheable, CacheKey;
    match step
    case Act(id, c) =>
      ActIs(s, id, c);
      ApplyLayers(s, id, Decide(s, id, c));
    case Refresh(other, c) => RefreshIs(s, other, c);
    case Arrive(id, packet) => ArriveIs(s, id, packet);
    case Tick(now) => TickIs(s, now);
  }

  lemma {:induction false} NoRefreshYet(states: seq<State>, steps: seq<Step>, child: nat, n: nat)
    requires Leads(states, steps) && n <= |steps| && child !in states[n].refreshers
    ensures RefreshSettled(steps, child, n) == None
  {
    hide Leads, Enabled, After, Settles;
    LeadsLength(states, steps);
    if n > 0 {
      var s, step := states[n - 1], steps[n - 1];
      LedBy(states, steps, n - 1);
      if child in s.refreshers {
        SameRefresher(s, step, child);
      }
      NewRefresher(s, step, child);
      NoRefreshYet(states, steps, child, n - 1);
    }
  }

  lemma RefreshLeftByStep(states: seq<State>, n: nat, child: nat, c: Choice)
    requires 0 < n < |states| && child in states[n - 1].refreshers && CanRefresh(states[n - 1], child, c)
    requires states[n] == DoRefresh(states[n - 1], child, c) && RefreshLeft(states, n - 1, child)
    ensures child in states[n].refreshers && RefreshLeft(states, n, child)
    ensures states[n].refreshers[child].pc == DecideRefresh(states[n - 1], states[n - 1].refreshers[child].pc, c)
  {
    hide CacheKey, Cacheable;
    var r := states[n - 1].refreshers[child];
    var k := CacheKey(r.domain, r.qtype);
    WasGrows(states, n, k);
    if r.pc.Hotting? {
      NowHot(states, n, k, r.pc.entry);
    }
    if r.pc.Disking? {
      NowOnDisk(states, n, k, r.pc.entry);
    }
    hide WasHot, WasOnDisk;
  }

  lemma RefreshLeftLater(states: seq<State>, n: nat, child: nat)
    requires 0 < n < |states| && child in states[n - 1].refreshers && child in states[n].refreshers
    requires states[n].refreshers[child] == states[n - 1].refreshers[child] && RefreshLeft(states, n - 1, child)
    ensures RefreshLeft(states, n, child)
  {
    var r := states[n].refreshers[child];
    WasGrows(states, n, CacheKey(r.domain, r.qtype));
    hide WasHot, WasOnDisk, CacheKey;
  }

  lemma {:induction false} RefreshAlwaysFitting(states: seq<State>, steps: seq<Step>, child: nat, n: nat)
    requires Leads(states, steps) && Init(states[0]) && n <= |steps| && child in states[n].refreshers
    ensures |states| == |steps| + 1
    ensures RefreshFitting(states[n].refreshers[child].pc, RefreshSettled(steps, child, n))
    ensures RefreshLeft(states, n, child)
  {
    hide Enabled, After, CanRefresh, DecideRefresh, DoRefresh, RefreshLeft, RefreshFitting, Leads, Settles;
    LeadsLength(states, steps);
    if n > 0 {
      var s, step := states[n - 1], steps[n - 1];
      LedBy(states, steps, n - 1);
      if child in s.refreshers {
        RefreshAlwaysFitting(states, steps, child, n - 1);
        if step.Refresh? && step.child == child {
          RefreshIs(s, child, step.choice);
          RefreshStep(s, child, step.choice, RefreshSettled(steps, child, n - 1));
          RefreshLeftByStep(states, n, child, step.choice);
        } else {
          OtherStep(s, step, child);
          RefreshLeftLater(states, n, child);
        }
      } else {
        NoRefreshYet(states, steps, child, n - 1);
        NewRefresher(s, step, child);
        RefreshFresh(states, n, child);
      }
    }
  }

  lemma RefreshFresh(states: seq<State>, n: nat, child: nat)
    requires n < |states| && child in states[n].refreshers && states[n].refreshers[child].pc == Fetching
    ensures RefreshFitting(Fetching, None) && RefreshLeft(states, n, child)
  {
  }

  lemma {:induction false} RefreshStaysSettled(states: seq<State>, steps: seq<Step>, child: nat, m: nat, n: nat)
    requires Leads(states, steps) && Init(states[0]) && m < n <= |steps|
    requires steps[m].Refresh? && steps[m].child == child && Settles(steps[m].choice)
    ensures RefreshSettled(steps, child, n) == Some(steps[m].choice)
    decreases n - m
  {
    hide Leads, Init, Enabled, After, RefreshFitting, Settles, CanRefresh, DecideRefresh;
    LeadsLength(states, steps);
    if n > m + 1 {
      RefreshStaysSettled(states, steps, child, m, n - 1);
      var s, step := states[n - 1], steps[n - 1];
      LedBy(states, steps, n - 1);
      if step.Refresh? && step.child == child && Settles(step.choice) {
        RefreshIs(s, child, step.choice);
        RefresherThere(s, child, step.choice);
        RefreshAlwaysFitting(states, steps, child, n - 1);
        RefreshStep(s, child, step.choice, RefreshSettled(steps, child, n - 1));
      }
    }
  }

  lemma RefresherThere(s: State, child: nat, c: Choice)
    requires CanRefresh(s, child, c)
    ensures child in s.refreshers
  {
  }

  // A refresh that got a reply does not fail: once it is over, it has put an entry
  // with the records of that reply in both layers under its own pair.
  lemma RefreshIsStored(states: seq<State>, steps: seq<Step>, child: nat, m: nat, n: nat, result: Result)
    requires Leads(states, steps) && Init(states[0]) && m < n <= |steps| && steps[m] == Refresh(child, Replied(result))
    requires child in states[n].refreshers
    requires states[n].refreshers[child].pc.Failed? || states[n].refreshers[child].pc.Stored?
    ensures |states| == |steps| + 1
    ensures var r := states[n].refreshers[child];
      && r.pc.Stored? && r.pc.entry.records == result.records
      && WasHot(states, n, CacheKey(r.domain, r.qtype), r.pc.entry)
      && WasOnDisk(states, n, CacheKey(r.domain, r.qtype), r.pc.entry)
  {
    hide Leads, Init, WasHot, WasOnDisk, CacheKey;
    LeadsLength(states, steps);
    RefreshStaysSettled(states, steps, child, m, n);
    RefreshAlwaysFitting(states, steps, child, n);
  }

  // It fails only if its resolve did.
  lemma RefreshFailureExact(states: seq<State>, steps: seq<Step>, child: nat, n: nat)
    requires Leads(states, steps) && Init(states[0]) && n <= |steps| && child in states[n].refreshers
    ensures states[n].refreshers[child].pc.Failed? <==> exists m | 0 <= m < n :: steps[m] == Refresh(child, Fail)
  {
    hide Leads, Init, RefreshLeft;
    LeadsLength(states, steps);
    RefreshAlwaysFitting(states, steps, child, n);
    if m :| 0 <= m < n && steps[m] == Refresh(child, Fail) {
      RefreshStaysSettled(states, steps, child, m, n);
    }
    if states[n].refreshers[child].pc.Failed? {
      var m := RefreshSettledAt(steps, child, n);
    }
  }

  lemma {:induction false} RefreshSettledAt(steps: seq<Step>, child: nat, n: nat) returns (m: nat)
    requires n <= |steps| && RefreshSettled(steps, child, n).Some?
    ensures m < n && steps[m] == Refresh(child, RefreshSettled(steps, child, n).value)
  {
    if steps[n - 1].Refresh? && steps[n - 1].child == child && Settles(steps[n - 1].choice) {
      m := n - 1;
    } else {
      m := RefreshSettledAt(steps, child, n - 1);
    }
  }
}
