// Where served records come from, and how long entries live.
module Provenance {
  import opened GoText
  import opened DnsTypes
  import opened CacheKeys
  import opened Pipeline
  import opened Slots
  import opened Coalescing
  import Messages
  import IpText
  import Resolvers

  // ---------- provenance ----------

  // The entry was built from a resolve of exactly this pair, or lay on disk for
  // this pair when the service started.
  ghost predicate Legit(s: State, domain: Text, qtype: u16, e: Entry) {
    || (exists at :: Resolution(domain, qtype, e, at) in s.past.resolutions)
    || (CacheKey(domain, qtype) in s.past.disk0 && s.past.disk0[CacheKey(domain, qtype)] == e)
  }

  ghost predicate LegitRecords(s: State, domain: Text, qtype: u16, records: seq<RR>) {
    exists e :: Legit(s, domain, qtype, e) && e.records == records
  }

  // An entry filed under a key is legitimate for every pair with that key.
  ghost predicate LegitUnder(s: State, k: Text, e: Entry) {
    forall domain, qtype | CacheKey(domain, qtype) == k :: Legit(s, domain, qtype, e)
  }

  ghost predicate LegitLayer(s: State, m: map<Text, Entry>) {
    forall k | k in m :: LegitUnder(s, k, m[k])
  }

  predicate Carries(pc: Pc) {
    pc.RecheckPromote? || pc.LookPromote? || pc.Judging? || pc.Storing? || pc.Persisting?
  }

  ghost predicate LegitPc(s: State, domain: Text, qtype: u16, pc: Pc) {
    && (Carries(pc) ==> Legit(s, domain, qtype, pc.entry))
    && (FromCache(pc) ==> LegitRecords(s, domain, qtype, pc.reply.records))
  }

  ghost predicate Fetched(s: State, domain: Text, qtype: u16, e: Entry) {
    exists at :: Resolution(domain, qtype, e, at) in s.past.resolutions
  }

  // What a refresh carries was resolved for its own pair, and where it has stored
  // it there is an entry.
  ghost predicate LegitRefresher(s: State, r: Refresher) {
    && (r.pc.Hotting? || r.pc.Disking? || r.pc.Stored? ==> Fetched(s, r.domain, r.qtype, r.pc.entry))
    && (r.pc.Disking? || r.pc.Stored? ==> CacheKey(r.domain, r.qtype) in s.hot)
    && (r.pc.Stored? ==> CacheKey(r.domain, r.qtype) in s.disk)
  }

  ghost predicate ProvenanceInv(s: State) {
    && LegitLayer(s, s.hot) && LegitLayer(s, s.disk)
    && (forall i | i in s.reqs :: LegitPc(s, s.reqs[i].Domain(), s.reqs[i].Qtype(), s.reqs[i].pc))
    && (forall j | j in s.refreshers :: LegitRefresher(s, s.refreshers[j]))
  }

  // An entry built at that time has records with parsed data, and lives for their
  // least positive TTL, or for the minimum if that is less.
  ghost predicate Sound(v6: IpText.V6, e: Entry, at: int) {
    && (forall rr | rr in e.records :: Resolvers.WireData(v6, rr))
    && e.ttl == (if MinTTL(e.records) < MINIMUM_TTL then MINIMUM_TTL else MinTTL(e.records))
    && e.expireAt == at + e.ttl
  }

  // So does every entry the service built.
  ghost predicate Timely(s: State) {
    forall w | w in s.past.resolutions :: w.at <= s.now && Sound(s.past.v6, w.entry, w.at)
  }

  lemma CacheableIsSound(v6: IpText.V6, result: Result, now: int)
    requires Resolvers.FromWire(v6, result) || Resolvers.IsMerge(v6, result)
    ensures Sound(v6, Cacheable(result, now), now)
    ensures Resolvers.IsMerge(v6, result) ==> !result.nxdomain
  {
    hide Resolvers.FromWire, Resolvers.IsMerge, Resolvers.WireData;
    Resolvers.TrustedResult(v6, result);
  }

  lemma LegitGrows(s: State, s': State, domain: Text, qtype: u16, e: Entry)
    requires Legit(s, domain, qtype, e) && Grows(s, s')
    ensures Legit(s', domain, qtype, e)
  {
    hide CacheKey;
  }

  lemma LegitPcGrows(s: State, s': State, domain: Text, qtype: u16, pc: Pc)
    requires LegitPc(s, domain, qtype, pc) && Grows(s, s')
    ensures LegitPc(s', domain, qtype, pc)
  {
    hide Legit, Grows;
    if Carries(pc) {
      LegitGrows(s, s', domain, qtype, pc.entry);
    }
    if FromCache(pc) {
      var e :| Legit(s, domain, qtype, e) && e.records == pc.reply.records;
      LegitGrows(s, s', domain, qtype, e);
    }
  }

  lemma LegitLayerGrows(s: State, s': State, m: map<Text, Entry>)
    requires LegitLayer(s, m) && Grows(s, s')
    ensures LegitLayer(s', m)
  {
    hide Legit, Grows, CacheKey;
    forall k | k in m ensures LegitUnder(s', k, m[k]) {
      forall domain, qtype | CacheKey(domain, qtype) == k ensures Legit(s', domain, qtype, m[k]) {
        assert LegitUnder(s, k, m[k]);
        LegitGrows(s, s', domain, qtype, m[k]);
      }
    }
  }

  // Because keys are injective, a legitimate entry may be filed under its key.
  lemma LegitPut(s: State, m: map<Text, Entry>, domain: Text, qtype: u16, e: Entry)
    requires LegitLayer(s, m) && Legit(s, domain, qtype, e)
    ensures LegitLayer(s, m[CacheKey(domain, qtype) := e])
  {
    hide Legit;
    var k := CacheKey(domain, qtype);
    forall d, t | CacheKey(d, t) == k ensures Legit(s, d, t, e) {
      CacheKeyInjective(d, t, domain, qtype);
    }
    hide CacheKey;
    assert LegitUnder(s, k, e);
  }

  // The step of one request: what it carries was legitimate, or it took it from
  // a layer, or it just resolved it.
  lemma CarriedDecided(s: State, id: nat, c: Choice)
    requires CanAct(s, id, c)
    ensures var r, e := s.reqs[id], Decide(s, id, c);
      Carries(e.pc) ==>
        || (Carries(r.pc) && e.pc.entry == r.pc.entry)
        || (r.Key() in s.hot && e.pc.entry == s.hot[r.Key()])
        || (r.Key() in s.disk && e.pc.entry == s.disk[r.Key()])
        || (e.change == Resolved(e.pc.entry))
  {
    hide CacheKey, Request.Key, Request.Domain, Request.Qtype, Cacheable;
    match s.reqs[id].pc
    case RecheckDisk =>
    case LookHot =>
    case LookDisk =>
    case LookPromote(_) =>
    case Resolving(_) =>
    case Storing(_) =>
    case _ =>
  }

  lemma PutDecided(s: State, id: nat, c: Choice)
    requires CanAct(s, id, c)
    ensures var r, e := s.reqs[id], Decide(s, id, c);
      e.change.PutHot? || e.change.PutDisk? ==> Carries(r.pc) && r.pc.entry == e.change.entry
  {
    hide CacheKey, Request.Key, Request.Domain, Request.Qtype, Cacheable;
  }

  lemma ServedDecided(s: State, id: nat, c: Choice)
    requires CanAct(s, id, c)
    ensures var r, e := s.reqs[id], Decide(s, id, c);
      FromCache(e.pc) ==>
        || (FromCache(r.pc) && e.pc.reply == r.pc.reply)
        || (Carries(r.pc) && e.pc.reply.records == r.pc.entry.records)
        || (r.Key() in s.hot && e.pc.reply.records == s.hot[r.Key()].records)
  {
    hide CacheKey, Request.Key, Request.Domain, Request.Qtype, Cacheable;
  }

  lemma LegitOfMoved(s: State, s': State, id: nat, c: Choice)
    requires ProvenanceInv(s) && CanAct(s, id, c) && Grows(s, s')
    requires var e, r := Decide(s, id, c), s.reqs[id];
      e.change.Resolved? ==> Resolution(r.Domain(), r.Qtype(), e.change.entry, s.now) in s'.past.resolutions
    ensures LegitPc(s', s.reqs[id].Domain(), s.reqs[id].Qtype(), Decide(s, id, c).pc)
  {
    CarriedDecided(s, id, c);
    ServedDecided(s, id, c);
    var e, r, pc := Decide(s, id, c), s.reqs[id], Decide(s, id, c).pc;
    var domain, qtype := r.Domain(), r.Qtype();
    assert LegitPc(s, domain, qtype, r.pc);
    assert r.Key() in s.hot ==> LegitUnder(s, r.Key(), s.hot[r.Key()]);
    assert r.Key() in s.disk ==> LegitUnder(s, r.Key(), s.disk[r.Key()]);
    hide Decide, CanAct, ProvenanceInv, Carries, FromCache, Request.Domain, Request.Qtype, CacheKey;
    if Carries(pc) {
      if e.change == Resolved(pc.entry) {
        assert Legit(s', domain, qtype, pc.entry);
      } else {
        assert Legit(s, domain, qtype, pc.entry);
        LegitGrows(s, s', domain, qtype, pc.entry);
      }
    }
    if FromCache(pc) {
      hide Legit;
      assert LegitRecords(s, domain, qtype, pc.reply.records);
      var x :| Legit(s, domain, qtype, x) && x.records == pc.reply.records;
      LegitGrows(s, s', domain, qtype, x);
    }
  }

  lemma ApplyLayers(s: State, id: nat, e: Effect)
    requires id in s.reqs
    ensures var s', r, k := Apply(s, id, e), s.reqs[id], s.reqs[id].Key();
      && s'.hot == (if e.change.PutHot? then s.hot[k := e.change.entry] else s.hot)
      && s'.disk == (if e.change.PutDisk? then s.disk[k := e.change.entry] else s.disk)
      && s'.refreshers == (if e.change.SpawnRefresh?
                           then s.refreshers[e.change.child := Refresher(r.Domain(), r.Qtype(), Fetching)] else s.refreshers)
      && s'.past.resolutions == (if e.change.Resolved?
                                 then s.past.resolutions + {Resolution(r.Domain(), r.Qtype(), e.change.entry, s.now)}
                                 else s.past.resolutions)
      && s'.now == s.now && s'.count == Counted(s.count, e.tally)
      && (!e.change.DenyDomain? ==> s'.neg == s.neg)
      && s'.past.v6 == s.past.v6
  {
  }

  lemma RefresherGrows(s: State, s': State, r: Refresher)
    requires LegitRefresher(s, r) && Grows(s, s')
    ensures LegitRefresher(s', r)
  {
    hide CacheKey;
    if r.pc.Hotting? || r.pc.Disking? || r.pc.Stored? {
      var at :| Resolution(r.domain, r.qtype, r.pc.entry, at) in s.past.resolutions;
      assert Resolution(r.domain, r.qtype, r.pc.entry, at) in s'.past.resolutions;
    }
  }

  // What was legitimate stays so while the history grows.
  lemma ProvenanceGrows(s: State, s': State)
    requires ProvenanceInv(s) && Grows(s, s')
    ensures LegitLayer(s', s.hot) && LegitLayer(s', s.disk)
    ensures forall i | i in s.reqs :: LegitPc(s', s.reqs[i].Domain(), s.reqs[i].Qtype(), s.reqs[i].pc)
    ensures forall j | j in s.refreshers :: LegitRefresher(s', s.refreshers[j])
  {
    LegitLayerGrows(s, s', s.hot);
    LegitLayerGrows(s, s', s.disk);
    hide LegitLayer, Grows, LegitPc, Legit, LegitRefresher;
    forall i | i in s.reqs ensures LegitPc(s', s.reqs[i].Domain(), s.reqs[i].Qtype(), s.reqs[i].pc) {
      LegitPcGrows(s, s', s.reqs[i].Domain(), s.reqs[i].Qtype(), s.reqs[i].pc);
    }
    forall j | j in s.refreshers ensures LegitRefresher(s', s.refreshers[j]) {
      assert LegitRefresher(s, s.refreshers[j]);
      RefresherGrows(s, s', s.refreshers[j]);
    }
  }

  lemma LayersKept(s: State, id: nat, c: Choice)
    requires ProvenanceInv(s) && CanAct(s, id, c)
    ensures var s' := Do(s, id, c); LegitLayer(s', s'.hot) && LegitLayer(s', s'.disk)
  {
    var s', e, r := Do(s, id, c), Decide(s, id, c), s.reqs[id];
    ApplyGrows(s, id, e);
    ApplyLayers(s, id, e);
    PutDecided(s, id, c);
    ProvenanceGrows(s, s');
    hide Decide, Apply, CanAct, LegitLayer, Grows, Legit, CacheKey, FromCache, ProvenanceInv, Request.Domain, Request.Qtype;
    if e.change.PutHot? || e.change.PutDisk? {
      assert LegitPc(s', r.Domain(), r.Qtype(), r.pc);
      LegitPut(s', s.hot, r.Domain(), r.Qtype(), e.change.entry);
      LegitPut(s', s.disk, r.Domain(), r.Qtype(), e.change.entry);
    }
  }

  lemma ProvenanceActs(s: State, id: nat, c: Choice)
    requires ProvenanceInv(s) && CanAct(s, id, c)
    ensures ProvenanceInv(Do(s, id, c))
  {
    var s', e := Do(s, id, c), Decide(s, id, c);
    ApplyGrows(s, id, e);
    ApplyLayers(s, id, e);
    LayersKept(s, id, c);
    ProvenanceGrows(s, s');
    LegitOfMoved(s, s', id, c);
    hide Decide, Apply, CanAct, LegitLayer, Grows, Legit, CacheKey, LegitPc;
    assert s'.reqs[id].Domain() == s.reqs[id].Domain() && s'.reqs[id].Qtype() == s.reqs[id].Qtype();
  }

  lemma ProvenanceRefreshes(s: State, child: nat, c: Choice)
    requires ProvenanceInv(s) && CanRefresh(s, child, c)
    ensures ProvenanceInv(DoRefresh(s, child, c))
  {
    var s', r := DoRefresh(s, child, c), s.refreshers[child];
    RefreshGrows(s, child, c);
    ProvenanceGrows(s, s');
    assert LegitRefresher(s', r);
    hide LegitLayer, Legit, CacheKey, LegitPc;
    if r.pc.Hotting? || r.pc.Disking? {
      LegitPut(s', s.hot, r.domain, r.qtype, r.pc.entry);
      LegitPut(s', s.disk, r.domain, r.qtype, r.pc.entry);
    }
    assert LegitRefresher(s', s'.refreshers[child]) by { NewlyResolved(s, s', child, c); }
  }

  lemma NewlyResolved(s: State, s': State, child: nat, c: Choice)
    requires CanRefresh(s, child, c) && s' == DoRefresh(s, child, c)
    requires LegitRefresher(s', s.refreshers[child])
    ensures LegitRefresher(s', s'.refreshers[child])
  {
    hide CacheKey, Cacheable;
    var r := s.refreshers[child];
    if r.pc.Fetching? && c.Replied? {
      assert Resolution(r.domain, r.qtype, Cacheable(c.result, s.now), s.now) in s'.past.resolutions;
    }
  }

  lemma ProvenanceKept(s: State, step: Step)
    requires ProvenanceInv(s) && Enabled(s, step)
    ensures ProvenanceInv(After(s, step))
  {
    Grown(s, step);
    match step
    case Act(id, c) =>
      hide ProvenanceInv, Do;
      ProvenanceActs(s, id, c);
    case Refresh(child, c) =>
      hide ProvenanceInv, DoRefresh;
      ProvenanceRefreshes(s, child, c);
    case Arrive(id, packet) =>
      ProvenanceGrows(s, After(s, step));
      hide Messages.ParseQuery, CacheKey;
      assert LegitPc(After(s, step), Begin(s, packet).Domain(), Begin(s, packet).Qtype(), Parsing);
      hide LegitLayer, Begin, LegitPc;
    case Tick(_) =>
      ProvenanceGrows(s, After(s, step));
      hide LegitLayer, LegitPc;
  }

  lemma TimelyGrows(s: State, s': State, e: Entry, domain: Text, qtype: u16)
    requires Timely(s) && s.now <= s'.now && s'.past.v6 == s.past.v6
    requires s'.past.resolutions != s.past.resolutions ==> Sound(s.past.v6, e, s.now)
    requires s'.past.resolutions in {s.past.resolutions, s.past.resolutions + {Resolution(domain, qtype, e, s.now)}}
    ensures Timely(s')
  {
    hide Sound;
  }

  lemma ResolvedIsSound(s: State, id: nat, c: Choice)
    requires CanAct(s, id, c) && Plausible(s, id, c) && Decide(s, id, c).change.Resolved?
    ensures Sound(s.past.v6, Decide(s, id, c).change.entry, s.now)
  {
    CacheableIsSound(s.past.v6, c.result, s.now);
    hide Sound;
  }

  lemma TimelyKept(s: State, step: Step)
    requires Timely(s) && Enabled(s, step)
    ensures Timely(After(s, step))
  {
    hide Timely, Sound, Begin, Decide, CanAct, Plausible, Cacheable, Resolvers.IsMerge;
    var s' := After(s, step);
    var dummy := Entry([], 0, 0);
    match step
    case Act(id, c) =>
      var e := Decide(s, id, c);
      ActsOnRequest(s, id, c);
      ApplyLayers(s, id, e);
      if e.change.Resolved? {
        ResolvedIsSound(s, id, c);
        TimelyGrows(s, s', e.change.entry, s.reqs[id].Domain(), s.reqs[id].Qtype());
      } else {
        TimelyGrows(s, s', dummy, [], 0);
      }
    case Refresh(child, c) =>
      if c.Replied? {
        CacheableIsSound(s.past.v6, c.result, s.now);
        TimelyGrows(s, s', Cacheable(c.result, s.now), s.refreshers[child].domain, s.refreshers[child].qtype);
      } else {
        TimelyGrows(s, s', dummy, [], 0);
      }
    case _ => TimelyGrows(s, s', dummy, [], 0);
  }

  // The fan-out never reports a missing domain, so nothing is ever denied.
  ghost predicate NothingDenied(s: State) {
    s.neg == map[] && forall i | i in s.reqs :: !Denying(s.reqs[i].pc)
  }

  predicate Denying(pc: Pc) {
    pc.NegativeStore? || (Replying(pc) && pc.reply == Code(RCODE_NXDOMAIN))
  }

  lemma DenyDecided(s: State, id: nat, c: Choice)
    requires CanAct(s, id, c) && Plausible(s, id, c) && s.neg == map[] && !Denying(s.reqs[id].pc)
    ensures var e := Decide(s, id, c); !Denying(e.pc) && !e.change.DenyDomain?
  {
  }

  lemma NothingDeniedKept(s: State, step: Step)
    requires NothingDenied(s) && Enabled(s, step)
    ensures NothingDenied(After(s, step))
  {
    match step
    case Act(id, c) =>
      var e := Decide(s, id, c);
      DenyDecided(s, id, c);
      ApplyLayers(s, id, e);
      ApplyGrows(s, id, e);
      hide Decide, Apply, CanAct, Denying;
    case Refresh(child, c) =>
      RefreshGrows(s, child, c);
      assert DoRefresh(s, child, c).neg == s.neg;
      hide DoRefresh, Denying;
    case Arrive(_, packet) =>
      assert Begin(s, packet).pc == Parsing;
      hide Begin;
    case Tick(_) =>
  }
}
