// What holds in every run of the query pipeline.
module Runs {
  import opened GoText
  import opened DnsTypes
  import opened CacheKeys
  import opened Pipeline
  import opened Slots
  import opened Coalescing
  import opened Provenance
  import opened Accounting
  import opened IpText
  import Messages
  import Records
  import Replies
  import Resolvers
  import opened Progress

  ghost predicate Invariant(s: State) {
    && SlotInv(s) && CacheInv(s) && ProvenanceInv(s) && Timely(s) && NothingDenied(s) && AccountsBalance(s)
  }

  lemma InvariantInitially(s: State)
    requires Init(s)
    ensures Invariant(s)
  {
    hide CacheKey;
    assert At(s.reqs, Unreadable) == {} && At(s.reqs, Pending) == {};
    assert At(s.reqs, FailedUpstream) == {} && At(s.reqs, Ended) == {};
    forall k, domain, qtype | k in s.disk && CacheKey(domain, qtype) == k
      ensures Legit(s, domain, qtype, s.disk[k])
    {
    }
    assert LegitLayer(s, s.disk);
  }

  lemma InvariantKept(s: State, step: Step)
    requires Invariant(s) && Enabled(s, step)
    ensures Invariant(After(s, step))
  {
    hide SlotInv, CacheInv, ProvenanceInv, Timely, NothingDenied, AccountsBalance, Enabled, After;
    SlotInvKept(s, step);
    CacheInvKept(s, step);
    ProvenanceKept(s, step);
    TimelyKept(s, step);
    NothingDeniedKept(s, step);
    assert Stages(s) by { StagesOf(s); }
    BalanceKept(s, step);
  }

  lemma StagesOf(s: State)
    requires CacheInv(s)
    ensures Stages(s)
  {
  }

  lemma StepAt(states: seq<State>, n: nat) returns (step: Step)
    requires Run(states) && 0 < n < |states|
    ensures Enabled(states[n - 1], step) && states[n] == After(states[n - 1], step)
  {
    hide Enabled, After;
    assert Next(states[n - 1], states[n - 1 + 1]);
    step :| Enabled(states[n - 1], step) && states[n] == After(states[n - 1], step);
  }

  lemma {:induction false} RunInvariant(states: seq<State>, i: nat)
    requires Run(states) && i < |states|
    ensures Invariant(states[i])
  {
    hide Invariant, Init, Enabled, After;
    if i == 0 {
      InvariantInitially(states[0]);
    } else {
      RunInvariant(states, i - 1);
      var step := StepAt(states, i);
      InvariantKept(states[i - 1], step);
    }
  }

  // ---------- in-flight slots ----------

  ghost predicate OneOwner(s: State) {
    forall i, j | i in s.reqs && j in s.reqs && Holds(s.reqs[i]) && Holds(s.reqs[j])
                  && s.reqs[i].Key() == s.reqs[j].Key() :: i == j
  }

  ghost predicate SlotPerOwner(s: State) {
    forall k :: k in s.inflight <==> exists i | i in s.reqs :: Holds(s.reqs[i]) && s.reqs[i].Key() == k
  }

  // The request, or the owner it waits for, can take a step.
  ghost predicate Served(s: State, i: nat) {
    i in s.reqs && exists who, c ::
      Enabled(s, Act(who, c)) && (who == i || (s.reqs[i].pc.Waiting? && s.reqs[i].role == Waiter(who)))
  }

  lemma OwnersAndSlots(s: State)
    requires SlotInv(s)
    ensures OneOwner(s) && SlotPerOwner(s) && ClosedOnce(s)
  {
    hide CacheKey, Holds, Request.Key, Shape, Waits, Closed;
  }

  lemma IsServed(s: State, i: nat)
    requires SlotInv(s) && i in s.reqs && !IsFinished(s.reqs[i])
    ensures Served(s, i)
  {
    hide SlotInv, Enabled, IsFinished;
    var who, c := NoDeadlock(s, i);
  }

  // In every state of every run: one live owner per key, each channel closed at
  // most once and only by its owner, a slot exactly for the live owners, and
  // every unfinished request able to go on, itself or through its owner.
  lemma SlotSafety(states: seq<State>, n: nat)
    requires Run(states) && n < |states|
    ensures OneOwner(states[n]) && SlotPerOwner(states[n])
    ensures forall i: nat :: states[n].closes[i] == if i in states[n].reqs && Closed(states[n].reqs[i]) then 1 else 0
    ensures forall i | i in states[n].reqs && !IsFinished(states[n].reqs[i]) :: Served(states[n], i)
    ensures (forall i | i in states[n].reqs :: IsFinished(states[n].reqs[i])) ==> states[n].inflight == map[]
  {
    var s := states[n];
    RunInvariant(states, n);
    SlotsOf(s);
    OwnersAndSlots(s);
    hide Run, Invariant, SlotInv, OneOwner, SlotPerOwner, Served, IsFinished, Closed;
    forall i | i in s.reqs && !IsFinished(s.reqs[i]) ensures Served(s, i) {
      IsServed(s, i);
    }
    if forall i | i in s.reqs :: IsFinished(s.reqs[i]) {
      NoSlotLeft(s);
    }
  }

  lemma SlotsOf(s: State)
    requires Invariant(s)
    ensures SlotInv(s)
  {
    hide SlotInv;
  }

  // ---------- coalescing ----------

  // A waiter goes upstream only behind an owner that released it with no entry
  // in either layer of the cache for their common key.
  lemma WaiterGoesUpstream(states: seq<State>, n: nat, i: nat)
    requires Run(states) && n < |states|
    requires i in states[n].reqs && i in states[n].past.started && states[n].reqs[i].role.Waiter?
    ensures var s := states[n];
      var o := s.reqs[i].role.on;
      && o in s.reqs && s.reqs[o].Key() == s.reqs[i].Key()
      && Closed(s.reqs[o]) && ReleasedEmpty(s, o)
  {
    RunInvariant(states, n);
    var s := states[n];
    assert Stage(s, i) && WaitsFor(s, i);
    hide CacheKey, Searching;
  }

  // The requests of a key that went upstream: the owner itself, or waiters on it.
  ghost function StartedWith(s: State, o: nat): set<nat> {
    set i | i in s.past.started && i in s.reqs && (i == o || s.reqs[i].role == Waiter(o))
  }

  lemma NoneBehind(s: State, o: nat)
    requires CacheInv(s) && o in s.reqs && Closed(s.reqs[o]) && FromCache(s.reqs[o].pc) && o in s.past.started
    ensures StartedWith(s, o) == {o}
  {
    CacheInvAt(s, o);
    hide CacheKey, Searching, Upstream, FromCache, Closed;
    assert !ReleasedEmpty(s, o);
    forall i | i in s.reqs && i in s.past.started ensures s.reqs[i].role != Waiter(o) {
      assert Stage(s, i);
    }
  }

  // However many requests waited on an owner that resolved and answered, the
  // owner's resolve is the only one among them all.
  lemma Coalesced(states: seq<State>, n: nat, o: nat)
    requires Run(states) && n < |states|
    requires var s := states[n];
      o in s.reqs && Closed(s.reqs[o]) && FromCache(s.reqs[o].pc) && o in s.past.started
    ensures StartedWith(states[n], o) == {o}
  {
    RunInvariant(states, n);
    hide Run, Searching, Upstream, ProvenanceInv, SlotInv, AccountsBalance, Timely, NothingDenied, CacheKey;
    NoneBehind(states[n], o);
  }

  // ---------- serving stale ----------

  // Once a key has an entry, a request for it that arrives later never goes
  // upstream itself, whatever happens in between and after.
  lemma {:induction false} ServesStale(states: seq<State>, m: nat, n: nat, i: nat)
    requires Run(states) && m <= n < |states|
    requires i in states[n].reqs && states[n].reqs[i].parsed.Ok?
    requires states[m].Has(states[n].reqs[i].Key()) && i !in states[m].reqs
    ensures i !in states[n].past.started
  {
    EntryStays(states, m, n, states[n].reqs[i].Key());
    ArrivesWarm(states, m, n, i);
    RunInvariant(states, n);
    assert Stage(states[n], i);
  }

  lemma {:induction false} EntryStays(states: seq<State>, m: nat, n: nat, k: Text)
    requires Run(states) && m <= n < |states| && states[m].Has(k)
    ensures states[n].Has(k)
    decreases n - m
  {
    hide Run, Enabled, After;
    if m < n {
      EntryStays(states, m, n - 1, k);
      var step := StepAt(states, n);
      Grown(states[n - 1], step);
    }
  }

  lemma {:induction false} ArrivesWarm(states: seq<State>, m: nat, n: nat, i: nat)
    requires Run(states) && m <= n < |states|
    requires i in states[n].reqs && i !in states[m].reqs
    requires states[n].reqs[i].parsed.Ok? && states[m].Has(states[n].reqs[i].Key())
    ensures states[n].reqs[i].warm
    decreases n - m
  {
    hide CacheKey, Run, Enabled, After;
    var s := states[n - 1];
    var step := StepAt(states, n);
    SameRequest(s, step, i);
    if i in s.reqs {
      ArrivesWarm(states, m, n - 1, i);
    } else {
      EntryStays(states, m, n - 1, states[n].reqs[i].Key());
    }
  }

  // A request keeps its packet and what was cached for it on arrival.
  lemma SameRequest(s: State, step: Step, i: nat)
    requires Enabled(s, step) && i in After(s, step).reqs
    ensures var r := After(s, step).reqs[i];
      if i in s.reqs then r.parsed == s.reqs[i].parsed && r.warm == s.reqs[i].warm
      else r.warm == (r.parsed.Ok? && s.Has(r.Key()))
  {
    hide Messages.ParseQuery, CacheKey;
    match step
    case Act(id, c) =>
      ApplyGrows(s, id, Decide(s, id, c));
      hide Decide, Apply, CanAct, Begin;
    case Refresh(child, c) =>
      RefreshGrows(s, child, c);
      hide DoRefresh, Begin;
    case _ =>
  }

  ghost predicate Spawned(s: State, s': State, domain: Text, qtype: u16) {
    exists child: nat | child !in s.refreshers ::
      s'.refreshers == s.refreshers[child := Refresher(domain, qtype, Fetching)]
  }

  // An entry that a request found is its answer at once, fresh or stale, and a
  // refresh of the same pair starts in the background exactly if it is stale.
  lemma StaleIsRefreshed(states: seq<State>, n: nat, i: nat)
    requires Run(states) && 0 < n < |states| && i in states[n - 1].reqs && states[n - 1].reqs[i].pc.Judging?
    ensures i in states[n].reqs
    ensures var s, s', r := states[n - 1], states[n], states[n - 1].reqs[i];
      s'.reqs[i].pc != r.pc ==>
        && Replying(s'.reqs[i].pc) && s'.reqs[i].pc.reply == Answer(r.pc.entry.records, false)
        && (if s.now < r.pc.entry.expireAt then s'.refreshers == s.refreshers
            else Spawned(s, s', r.Domain(), r.Qtype()))
  {
    hide Run, Enabled, After, Decide, CanAct, Plausible, Apply, DoRefresh, Begin, Spawned, Request.Domain, Request.Qtype,
         Replying;
    var s := states[n - 1];
    var step := StepAt(states, n);
    match step
    case Act(id, c) =>
      ActIs(s, id, c);
      if id == i {
        JudgingActs(s, i, c);
      } else {
        ActMovesOne(s, id, c, i);
      }
    case Refresh(child, c) => RefreshIs(s, child, c);
    case Arrive(id, packet) => ArriveIs(s, id, packet);
    case Tick(now) => TickIs(s, now);
  }

  lemma JudgingActs(s: State, i: nat, c: Choice)
    requires CanAct(s, i, c) && s.reqs[i].pc.Judging?
    ensures var r, s' := s.reqs[i], Do(s, i, c);
      && i in s'.reqs
      && Replying(s'.reqs[i].pc) && s'.reqs[i].pc.reply == Answer(r.pc.entry.records, false)
      && (if s.now < r.pc.entry.expireAt then s'.refreshers == s.refreshers
          else Spawned(s, s', r.Domain(), r.Qtype()))
  {
    hide CacheKey;
    var r := s.reqs[i];
    var e := r.pc.entry;
    assert Decide(s, i, c) == Leave(r.role, Answer(e.records, false),
                                    if s.now < e.expireAt then Nothing else SpawnRefresh(c.child), HitTally);
  }

  lemma ActMovesOne(s: State, id: nat, c: Choice, i: nat)
    requires CanAct(s, id, c) && i in s.reqs && i != id
    ensures i in Do(s, id, c).reqs && Do(s, id, c).reqs[i] == s.reqs[i]
  {
    hide Decide, CanAct;
  }

  // A refresh that is over failed, or it stored an entry resolved for its own
  // pair, and that pair has entries in both layers.
  ghost predicate Over(s: State, r: Refresher) {
    || r.pc.Failed?
    || (r.pc.Stored? && Fetched(s, r.domain, r.qtype, r.pc.entry)
        && CacheKey(r.domain, r.qtype) in s.hot && CacheKey(r.domain, r.qtype) in s.disk)
  }

  // Where no step of a request or a refresh is possible, every refresh is over.
  lemma RefreshesEnd(states: seq<State>, n: nat, child: nat)
    requires Run(states) && n < |states| && child in states[n].refreshers
    requires forall s' :: !Works(states[n], s')
    ensures Over(states[n], states[n].refreshers[child])
  {
    var s := states[n];
    RunInvariant(states, n);
    RefresherOf(s, child);
    hide Run, Invariant, Works, CacheKey, Fetched;
    StillRefreshers(s);
  }

  lemma RefresherOf(s: State, child: nat)
    requires Invariant(s) && child in s.refreshers
    ensures LegitRefresher(s, s.refreshers[child])
  {
    hide LegitRefresher;
  }

  lemma {:induction false} RefresherStays(states: seq<State>, m: nat, n: nat, child: nat)
    requires Run(states) && m <= n < |states| && child in states[m].refreshers
    ensures child in states[n].refreshers
    ensures var r, r' := states[m].refreshers[child], states[n].refreshers[child];
      r'.domain == r.domain && r'.qtype == r.qtype
    decreases n - m
  {
    hide Enabled, After;
    if m < n {
      RefresherStays(states, m, n - 1, child);
      var step := StepAt(states, n);
      SameRefresher(states[n - 1], step, child);
    }
  }

  lemma SameRefresher(s: State, step: Step, child: nat)
    requires Enabled(s, step) && child in s.refreshers
    ensures var s' := After(s, step);
      && child in s'.refreshers
      && s'.refreshers[child].domain == s.refreshers[child].domain
      && s'.refreshers[child].qtype == s.refreshers[child].qtype
  {
    hide Enabled, After, Decide, CanAct, Plausible, Apply, DoRefresh, CanRefresh, Begin, Rank;
    match step
    case Act(id, c) =>
      ActIs(s, id, c);
      RankDecided(s, id, c);
      ApplyLayers(s, id, Decide(s, id, c));
    case Refresh(other, c) =>
      RefreshIs(s, other, c);
      RefreshMovesOne(s, other, c);
    case Arrive(id, packet) => ArriveIs(s, id, packet);
    case Tick(now) => TickIs(s, now);
  }

  lemma RefreshMovesOne(s: State, child: nat, c: Choice)
    requires CanRefresh(s, child, c)
    ensures child in s.refreshers
    ensures exists pc :: DoRefresh(s, child, c).refreshers == s.refreshers[child := s.refreshers[child].(pc := pc)]
  {
    hide CacheKey, Cacheable;
    var pc := DoRefresh(s, child, c).refreshers[child].pc;
    assert DoRefresh(s, child, c).refreshers == s.refreshers[child := s.refreshers[child].(pc := pc)];
  }

  // So the refresh that a stale answer starts ends in that way, for that pair.
  lemma StaleRefreshEnds(states: seq<State>, m: nat, n: nat, i: nat)
    requires Run(states) && 0 < m <= n < |states| && i in states[m - 1].reqs && states[m - 1].reqs[i].pc.Judging?
    requires i in states[m].reqs && states[m].reqs[i].pc != states[m - 1].reqs[i].pc
    requires states[m - 1].now >= states[m - 1].reqs[i].pc.entry.expireAt
    requires forall s' :: !Works(states[n], s')
    ensures var r := states[m - 1].reqs[i];
      exists child | child in states[n].refreshers ::
        && child !in states[m - 1].refreshers
        && states[n].refreshers[child].domain == r.Domain() && states[n].refreshers[child].qtype == r.Qtype()
        && Over(states[n], states[n].refreshers[child])
  {
    hide Run, Works, Over, Request.Domain, Request.Qtype;
    StaleIsRefreshed(states, m, i);
    var r := states[m - 1].reqs[i];
    var child: nat :| child !in states[m - 1].refreshers
      && states[m].refreshers == states[m - 1].refreshers[child := Refresher(r.Domain(), r.Qtype(), Fetching)];
    RefresherStays(states, m, n, child);
    RefreshesEnd(states, n, child);
  }

  // ---------- time to live ----------

  // Every entry the service built at time T lives for the least positive TTL of
  // its records, but no less than 300, and at every clock value from T on its
  // remaining TTL is between 300 and its TTL.
  lemma EntriesLiveLongEnough(states: seq<State>, n: nat, w: Resolution, now: int)
    requires Run(states) && n < |states| && w in states[n].past.resolutions && w.at <= now
    ensures w.entry.ttl == (if MinTTL(w.entry.records) < MINIMUM_TTL then MINIMUM_TTL else MinTTL(w.entry.records))
    ensures w.entry.expireAt == w.at + w.entry.ttl >= w.at + MINIMUM_TTL
    ensures MINIMUM_TTL <= TTLRemaining(w.entry.expireAt, now) <= w.entry.ttl
    ensures now + MINIMUM_TTL <= w.entry.expireAt ==> TTLRemaining(w.entry.expireAt, now) == w.entry.expireAt - now
  {
    hide Run, Timely, Sound, Invariant, MinTTL, TTLRemaining;
    RunInvariant(states, n);
    TimelyOf(states[n]);
    SoundOf(states[n], w);
    RemainingBounds(states[n].past.v6, w, now);
  }

  lemma TimelyOf(s: State)
    requires Invariant(s)
    ensures Timely(s)
  {
  }

  lemma SoundOf(s: State, w: Resolution)
    requires Timely(s) && w in s.past.resolutions
    ensures Sound(s.past.v6, w.entry, w.at)
  {
    hide Sound;
  }

  lemma RemainingBounds(v6: V6, w: Resolution, now: int)
    requires Sound(v6, w.entry, w.at) && w.at <= now
    ensures w.entry.ttl == (if MinTTL(w.entry.records) < MINIMUM_TTL then MINIMUM_TTL else MinTTL(w.entry.records))
    ensures w.entry.expireAt == w.at + w.entry.ttl >= w.at + MINIMUM_TTL
    ensures MINIMUM_TTL <= TTLRemaining(w.entry.expireAt, now) <= w.entry.ttl
    ensures now + MINIMUM_TTL <= w.entry.expireAt ==> TTLRemaining(w.entry.expireAt, now) == w.entry.expireAt - now
  {
    hide MinTTL;
  }

  // ---------- provenance ----------

  // Every record served that is no override came from a resolve of the very
  // name and type asked for, or from their entry on disk at startup.
  lemma NoCrossContamination(states: seq<State>, n: nat, i: nat)
    requires Run(states) && n < |states| && i in states[n].reqs && FromCache(states[n].reqs[i].pc)
    ensures var s, r := states[n], states[n].reqs[i];
      r.parsed.Ok? && LegitRecords(s, r.parsed.value.domain, r.parsed.value.qtype, r.pc.reply.records)
  {
    RunInvariant(states, n);
    assert Shape(states[n].reqs[i]);
    hide LegitRecords, LegitLayer, Messages.ParseQuery;
  }

  ghost predicate AllWireData(v6: V6, records: seq<RR>) {
    forall rr | rr in records :: Resolvers.WireData(v6, rr)
  }

  // What a reply holds that is no override is data as parsing gives it, if the
  // entries on disk at startup were such.
  lemma ServedRecordsAreParsed(states: seq<State>, n: nat, i: nat)
    requires Run(states) && n < |states| && i in states[n].reqs && FromCache(states[n].reqs[i].pc)
    requires forall k | k in states[n].past.disk0 :: AllWireData(states[n].past.v6, states[n].past.disk0[k].records)
    ensures AllWireData(states[n].past.v6, states[n].reqs[i].pc.reply.records)
  {
    hide Run, Invariant, Timely, Sound, AllWireData, CacheKey;
    var s, r := states[n], states[n].reqs[i];
    RunInvariant(states, n);
    TimelyOf(s);
    NoCrossContamination(states, n, i);
    var domain, qtype := r.parsed.value.domain, r.parsed.value.qtype;
    var e :| Legit(s, domain, qtype, e) && e.records == r.pc.reply.records;
    if at :| Resolution(domain, qtype, e, at) in s.past.resolutions {
      SoundOf(s, Resolution(domain, qtype, e, at));
      SoundRecords(s.past.v6, e, at);
    }
  }

  lemma SoundRecords(v6: V6, e: Entry, at: int)
    requires Sound(v6, e, at)
    ensures AllWireData(v6, e.records)
  {
  }

  // So it has a type the service knows and data to show.
  lemma ServedRecordsCanBeShown(states: seq<State>, n: nat, i: nat)
    requires Run(states) && n < |states| && i in states[n].reqs && FromCache(states[n].reqs[i].pc)
    requires forall k, rr | k in states[n].past.disk0 && rr in states[n].past.disk0[k].records :: Records.Presentable(rr)
    ensures forall rr | rr in states[n].reqs[i].pc.reply.records :: Records.Presentable(rr)
  {
    hide Run, Invariant, Timely, Sound, Records.Presentable, CacheKey, Resolvers.WireData;
    var s, r := states[n], states[n].reqs[i];
    RunInvariant(states, n);
    TimelyOf(s);
    NoCrossContamination(states, n, i);
    var domain, qtype := r.parsed.value.domain, r.parsed.value.qtype;
    var e :| Legit(s, domain, qtype, e) && e.records == r.pc.reply.records;
    if at :| Resolution(domain, qtype, e, at) in s.past.resolutions {
      SoundOf(s, Resolution(domain, qtype, e, at));
      SoundRecords(s.past.v6, e, at);
      Resolvers.WireDataPresents(s.past.v6, e.records);
    }
  }

  // ---------- counters ----------

  lemma CountersConserve(states: seq<State>, n: nat)
    requires Run(states) && n < |states|
    ensures var s := states[n];
      && s.count.total == |s.reqs|
      && s.count.total == s.count.hits + s.count.misses + |At(s.reqs, Unreadable)| + |At(s.reqs, Pending)|
      && s.count.errors == |At(s.reqs, Unreadable)| + |At(s.reqs, FailedUpstream)|
      && |At(s.reqs, FailedUpstream)| <= s.count.misses
      && s.count.latencies == |At(s.reqs, Ended)|
  {
    RunInvariant(states, n);
    hide At, SlotInv, CacheInv, ProvenanceInv;
    Subset(At(states[n].reqs, FailedUpstream), states[n].past.started);
  }

  lemma {:induction false} Subset(a: set<nat>, b: set<nat>)
    requires a <= b
    ensures |a| <= |b|
  {
    assert b == a + (b - a);
  }

  // ---------- the negative cache ----------

  // The missing-domain flag of a resolver does not survive the fan-out, so the
  // negative cache stays empty and no reply of the service says NXDOMAIN.
  lemma NegativeCacheStaysEmpty(states: seq<State>, n: nat)
    requires Run(states) && n < |states|
    ensures states[n].neg == map[]
    ensures forall i | i in states[n].reqs && Replying(states[n].reqs[i].pc) ::
              states[n].reqs[i].pc.reply != Code(RCODE_NXDOMAIN)
  {
    RunInvariant(states, n);
  }

  // ---------- the bytes of a reply ----------

  // The packet sent for a reply; nothing is sent for an unreadable query.
  function ReplyBytes(v6: V6, r: Request): Option<seq<byte>> {
    if r.parsed.Err? || !Replying(r.pc) || |r.parsed.value.packet| < 12 then None
    else
      match r.pc.reply
      case Unparsed => None
      case Answer(records, _) => Some(Messages.ResponseBytes(v6, r.parsed.value, Result(records, MINIMUM_TTL, false)))
      case Code(rcode) => Some(Messages.ErrorBytes(r.parsed.value, rcode))
  }

  lemma AcceptedPacket(r: Request)
    requires r.parsed == Messages.ParseQuery(r.packet) && r.parsed.Ok?
    ensures var q := r.parsed.value; Replies.Accepted(q) && q.packet == r.packet && |q.packet| >= 12
  {
  }

  // In every run, a query packet that can be read is answered, and the reply is
  // framed for that packet, unless it has more records than can be told.
  lemma RepliesAreFramed(states: seq<State>, n: nat, i: nat, v6: V6)
    requires Run(states) && n < |states| && i in states[n].reqs && IsFinished(states[n].reqs[i])
    requires var reply := states[n].reqs[i].pc.reply; reply.Answer? ==> Replies.SmallData(v6, reply.records)
    ensures var r := states[n].reqs[i];
      var bytes := ReplyBytes(v6, r);
      && (bytes.Some? <==> Messages.ParseQuery(r.packet).Ok?)
      && (bytes.Some? ==>
            (Replies.WellFramed(v6, r.packet, bytes.value) <==> (r.pc.reply.Answer? ==> |r.pc.reply.records| < 0x1_0000)))
  {
    hide Run, Invariant, IsFinished, Messages.ParseQuery, Replies.WellFramed, Messages.ResponseBytes, Messages.ErrorBytes,
         Replies.SmallData, Replies.Accepted;
    var r := states[n].reqs[i];
    RunInvariant(states, n);
    ShapeOf(states[n], i);
    if r.parsed.Ok? {
      var q := r.parsed.value;
      AcceptedPacket(r);
      match r.pc.reply
      case Answer(records, _) => Replies.ResponseFraming(v6, q, Result(records, MINIMUM_TTL, false));
      case Code(rcode) => Replies.ErrorFraming(v6, q, rcode);
      case Unparsed =>
    }
  }

  lemma ShapeOf(s: State, i: nat)
    requires Invariant(s) && i in s.reqs && IsFinished(s.reqs[i])
    ensures var r := s.reqs[i];
      && r.parsed == Messages.ParseQuery(r.packet) && r.pc.Finished?
      && (r.parsed.Err? ==> r.pc == Finished(Unparsed)) && (r.parsed.Ok? ==> r.pc.reply != Unparsed)
  {
    assert Shape(s.reqs[i]);
    hide Messages.ParseQuery, CacheInv, ProvenanceInv, Timely, NothingDenied, AccountsBalance;
  }

  // Any answer, an override's too, is parsed back to its records exactly when the
  // data of each is canonical and their number can be told in 16 bits; a failure
  // is parsed as the code that says so.
  lemma RepliesParse(states: seq<State>, n: nat, i: nat, v6: V6)
    requires Run(states) && n < |states| && i in states[n].reqs && IsFinished(states[n].reqs[i]) && Lawful(v6)
    requires states[n].reqs[i].parsed.Ok?
    ensures var r := states[n].reqs[i];
      ReplyBytes(v6, r).Some?
        && match r.pc.reply
           case Answer(records, _) =>
             Replies.SmallData(v6, records) ==>
               (Messages.ParseResponse(v6, ReplyBytes(v6, r).value)
                  == Messages.Ok(Result(Replies.Renamed(records, r.parsed.value.domain), MinTTL(records), false))
                <==> Replies.AllCanonical(v6, records) && |records| < 0x1_0000)
           case Code(rcode) =>
             rcode == 2 ==> Messages.ParseResponse(v6, ReplyBytes(v6, r).value) == Messages.Err(Messages.ErrorCode(2))
           case Unparsed => false
  {
    hide Run, Invariant, IsFinished, Messages.ParseQuery, Messages.ParseResponse, Messages.ResponseBytes,
         Messages.ErrorBytes, Replies.SmallData, Replies.Accepted, Replies.AllCanonical, Replies.Renamed, MinTTL, Lawful;
    var r := states[n].reqs[i];
    RunInvariant(states, n);
    ShapeOf(states[n], i);
    var q := r.parsed.value;
    AcceptedPacket(r);
    match r.pc.reply
    case Answer(records, _) =>
      if Replies.SmallData(v6, records) {
        Replies.ResponseRoundTrip(v6, q, Result(records, MINIMUM_TTL, false));
      }
    case Code(rcode) => Replies.ErrorRoundTrip(v6, q, rcode);
    case Unparsed =>
  }

  // From the wire to the wire, in every run: a finished request that is answered
  // from the cache or from upstream has the records of a resolve of its own pair,
  // or of that pair's entry at startup, and its reply is parsed back to exactly
  // these, in order and under the question's name, if and only if no alias among
  // them has an empty label and their number can be told in 16 bits.
  lemma RepliesReadBack(states: seq<State>, n: nat, i: nat)
    requires Run(states) && n < |states| && i in states[n].reqs
    requires IsFinished(states[n].reqs[i]) && FromCache(states[n].reqs[i].pc)
    requires Lawful(states[n].past.v6) && Replies.SmallData(states[n].past.v6, states[n].reqs[i].pc.reply.records)
    requires forall k | k in states[n].past.disk0 :: AllWireData(states[n].past.v6, states[n].past.disk0[k].records)
    ensures var s, r := states[n], states[n].reqs[i];
      var v6, records := s.past.v6, r.pc.reply.records;
      && r.parsed.Ok? && ReplyBytes(v6, r).Some?
      && LegitRecords(s, r.parsed.value.domain, r.parsed.value.qtype, records)
      && (Messages.ParseResponse(v6, ReplyBytes(v6, r).value)
            == Messages.Ok(Result(Replies.Renamed(records, r.parsed.value.domain), MinTTL(records), false))
          <==> Resolvers.FullLabels(records) && |records| < 0x1_0000)
  {
    var s, r := states[n], states[n].reqs[i];
    RunInvariant(states, n);
    ShapeOf(s, i);
    ServedRecordsAreParsed(states, n, i);
    NoCrossContamination(states, n, i);
    hide Run, Invariant, LegitRecords, Lawful, Messages.ResponseBytes, Messages.ParseResponse, Replies.SmallData, MinTTL,
         Resolvers.FullLabels, Resolvers.WireData;
    AcceptedPacket(r);
    hide Messages.ParseQuery, Replies.Accepted;
    Resolvers.WireRecordsRelayed(s.past.v6, r.parsed.value, Result(r.pc.reply.records, MINIMUM_TTL, false));
  }
}
