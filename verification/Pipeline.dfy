// The query pipeline as a state machine: any number of requests and background
// refreshes, each advancing by atomic steps in any order, over one in-flight
// table, one two-layer cache, one negative cache and one set of counters.
module Pipeline {
  import opened GoText
  import opened DnsTypes
  import opened CacheKeys
  import IpText
  import Messages
  import Resolvers

  // What a request answers: nothing for an unreadable packet, records (noting
  // whether they are a user's override), or a bare response code.
  datatype Reply = Unparsed | Answer(records: seq<RR>, override: bool) | Code(rcode: int)

  // How a request stands to the in-flight slot of its key: it has not tried to
  // take it, it owns it, or it found it owned and waits for that owner. A
  // channel is named by the request that made it.
  datatype Role = Unclaimed | Owner | Waiter(on: nat)

  datatype Pc =
    | Parsing
    | Overriding
    | Claiming
    | Waiting
    | RecheckHot
    | RecheckDisk
    | RecheckPromote(entry: Entry)
    | Negative
    | LookHot
    | LookDisk
    | LookPromote(entry: Entry)
    | Judging(entry: Entry)
    | Resolving(bootstrap: bool)
    | NegativeStore
    | Storing(entry: Entry)
    | Persisting(entry: Entry)
    | Closing(reply: Reply)
    | Deleting(reply: Reply)
    | Counting(reply: Reply)
    | Finished(reply: Reply)

  // warm records whether the cache had an entry for the request when it began.
  datatype Request = Request(packet: seq<byte>, parsed: Messages.Parsed<Query>, role: Role, pc: Pc, warm: bool)
  {
    function Domain(): Text {
      if parsed.Ok? then parsed.value.domain else []
    }

    function Qtype(): u16 {
      if parsed.Ok? then parsed.value.qtype else 0
    }

    function Key(): Text {
      CacheKey(Domain(), Qtype())
    }
  }

  datatype RefreshPc = Fetching | Hotting(entry: Entry) | Disking(entry: Entry) | Failed | Stored(entry: Entry)

  datatype Refresher = Refresher(domain: Text, qtype: u16, pc: RefreshPc)

  datatype Counters = Counters(total: nat, hits: nat, misses: nat, errors: nat, latencies: nat)

  // A successful resolve of a pair, and the entry built from it at that time.
  datatype Resolution = Resolution(domain: Text, qtype: u16, entry: Entry, at: int)

  // What was given and what happened so far; no step of the program reads it. v6
  // prints addresses in upstream answers. released tells, for each owner that
  // closed its channel, whether the cache then had an entry for its key.
  datatype History = History(
    v6: IpText.V6,
    disk0: map<Text, Entry>,
    resolutions: set<Resolution>,
    started: set<nat>,
    released: map<nat, bool>)

  datatype State = State(
    now: int,
    reqs: map<nat, Request>,
    refreshers: map<nat, Refresher>,
    inflight: map<Text, nat>,
    closes: multiset<nat>,
    hot: map<Text, Entry>,
    disk: map<Text, Entry>,
    neg: map<Text, int>,
    count: Counters,
    past: History)
  {
    predicate Has(k: Text) {
      k in hot || k in disk
    }
  }

  predicate Init(s: State) {
    && s.reqs == map[] && s.refreshers == map[] && s.inflight == map[] && s.closes == multiset{}
    && s.hot == map[] && s.disk == s.past.disk0 && s.neg == map[]
    && s.count == Counters(0, 0, 0, 0, 0)
    && s.past.resolutions == {} && s.past.started == {} && s.past.released == map[]
  }

  // ---------- steps ----------

  // What the environment decides in a step.
  datatype Choice =
    | Pass
    | Override(records: seq<RR>)
    | Start(bootstrap: bool)
    | Spawn(child: nat)
    | Fail
    | Replied(result: Result)

  datatype Step =
    | Arrive(id: nat, packet: seq<byte>)
    | Tick(now: int)
    | Act(id: nat, choice: Choice)
    | Refresh(child: nat, choice: Choice)

  function Cacheable(result: Result, now: int): Entry {
    var ttl := if result.ttl < MINIMUM_TTL then MINIMUM_TTL else result.ttl;
    Entry(result.records, ttl, now + ttl)
  }

  // What a step of a request does beyond the request itself, and what it counts.
  datatype Change =
    | Nothing
    | TakeSlot
    | CloseChannel
    | DropSlot
    | PutHot(entry: Entry)
    | PutDisk(entry: Entry)
    | Resolved(entry: Entry)
    | SpawnRefresh(child: nat)
    | DenyDomain

  datatype Tally = NoTally | HitTally | MissTally | ErrorTally | LatencyTally

  datatype Effect = Effect(role: Role, pc: Pc, change: Change, tally: Tally)

  predicate CanAct(s: State, id: nat, c: Choice) {
    && id in s.reqs
    && var r := s.reqs[id];
       match r.pc
       case Overriding =>
         c == Pass || (c.Override? && c.records != [] && r.Qtype() in {TYPE_A, TYPE_AAAA})
       case Waiting => c == Pass && r.role.Waiter? && r.role.on in s.closes
       case LookDisk => c.Start?
       case Judging(_) => c.Spawn? && c.child !in s.refreshers
       case Resolving(_) => c == Fail || c.Replied?
       case Finished(_) => false
       case _ => c == Pass
  }

  // A reply of the fan-out is a merge of what resolvers said; a reply of the
  // bootstrap resolver is what that one said.
  ghost predicate Plausible(s: State, id: nat, c: Choice) {
    id in s.reqs && s.reqs[id].pc.Resolving? && c.Replied? ==>
      if s.reqs[id].pc.bootstrap then Resolvers.FromWire(s.past.v6, c.result) else Resolvers.IsMerge(s.past.v6, c.result)
  }

  // Return from the body: an owner has its channel and slot to clean up first.
  function Leave(role: Role, reply: Reply, change: Change, tally: Tally): Effect {
    Effect(role, if role.Owner? then Closing(reply) else Counting(reply), change, tally)
  }

  // The next step of a request.
  function Decide(s: State, id: nat, c: Choice): Effect
    requires CanAct(s, id, c)
  {
    var r := s.reqs[id];
    var k := r.Key();
    var role := r.role;
    match r.pc
    case Parsing =>
      if r.parsed.Err? then Effect(role, Counting(Unparsed), Nothing, ErrorTally)
      else Effect(role, Overriding, Nothing, NoTally)
    case Overriding =>
      if c.Override? then Leave(role, Answer(c.records, true), Nothing, HitTally)
      else Effect(role, Claiming, Nothing, NoTally)
    case Claiming =>
      if k in s.inflight then Effect(Waiter(s.inflight[k]), Waiting, Nothing, NoTally)
      else Effect(Owner, Negative, TakeSlot, NoTally)
    case Waiting => Effect(role, RecheckHot, Nothing, NoTally)
    case RecheckHot =>
      if k in s.hot then Leave(role, Answer(s.hot[k].records, false), Nothing, HitTally)
      else Effect(role, RecheckDisk, Nothing, NoTally)
    case RecheckDisk =>
      Effect(role, if k in s.disk then RecheckPromote(s.disk[k]) else Negative, Nothing, NoTally)
    case RecheckPromote(e) => Leave(role, Answer(e.records, false), PutHot(e), HitTally)
    case Negative =>
      if r.Domain() in s.neg && s.now < s.neg[r.Domain()] then Leave(role, Code(RCODE_NXDOMAIN), Nothing, HitTally)
      else Effect(role, LookHot, Nothing, NoTally)
    case LookHot => Effect(role, if k in s.hot then Judging(s.hot[k]) else LookDisk, Nothing, NoTally)
    case LookDisk =>
      if k in s.disk then Effect(role, LookPromote(s.disk[k]), Nothing, NoTally)
      else Effect(role, Resolving(c.bootstrap), Nothing, MissTally)
    case LookPromote(e) => Effect(role, Judging(e), PutHot(e), NoTally)
    case Judging(e) =>
      // A stale entry is served as well, and refreshed in the background.
      Leave(role, Answer(e.records, false), if s.now < e.expireAt then Nothing else SpawnRefresh(c.child), HitTally)
    case Resolving(bootstrap) =>
      if c.Fail? then Leave(role, Code(RCODE_SERVFAIL), Nothing, ErrorTally)
      else if !bootstrap && c.result.nxdomain then Effect(role, NegativeStore, Nothing, NoTally)
      else
        var e := Cacheable(c.result, s.now);
        Effect(role, Storing(e), Resolved(e), NoTally)
    case NegativeStore => Leave(role, Code(RCODE_NXDOMAIN), DenyDomain, NoTally)
    case Storing(e) => Effect(role, Persisting(e), PutHot(e), NoTally)
    case Persisting(e) => Leave(role, Answer(e.records, false), PutDisk(e), NoTally)
    case Closing(reply) => Effect(role, Deleting(reply), CloseChannel, NoTally)
    case Deleting(reply) => Effect(role, Counting(reply), DropSlot, NoTally)
    case Counting(reply) => Effect(role, Finished(reply), Nothing, LatencyTally)
  }

  function Counted(n: Counters, tally: Tally): Counters {
    match tally
    case NoTally => n
    case HitTally => n.(hits := n.hits + 1)
    case MissTally => n.(misses := n.misses + 1)
    case ErrorTally => n.(errors := n.errors + 1)
    case LatencyTally => n.(latencies := n.latencies + 1)
  }

  function Apply(s: State, id: nat, e: Effect): State
    requires id in s.reqs
  {
    var r := s.reqs[id];
    var k, change := r.Key(), e.change;
    State(
      s.now,
      s.reqs[id := r.(role := e.role, pc := e.pc)],
      if change.SpawnRefresh? then s.refreshers[change.child := Refresher(r.Domain(), r.Qtype(), Fetching)] else s.refreshers,
      if change.TakeSlot? then s.inflight[k := id] else if change.DropSlot? then s.inflight - {k} else s.inflight,
      if change.CloseChannel? then s.closes + multiset{id} else s.closes,
      if change.PutHot? then s.hot[k := change.entry] else s.hot,
      if change.PutDisk? then s.disk[k := change.entry] else s.disk,
      if change.DenyDomain? then s.neg[r.Domain() := s.now + MINIMUM_TTL] else s.neg,
      Counted(s.count, e.tally),
      History(
        s.past.v6,
        s.past.disk0,
        if change.Resolved? then s.past.resolutions + {Resolution(r.Domain(), r.Qtype(), change.entry, s.now)}
        else s.past.resolutions,
        if e.tally.MissTally? then s.past.started + {id} else s.past.started,
        if change.CloseChannel? then s.past.released[id := s.Has(k)] else s.past.released))
  }

  function Do(s: State, id: nat, c: Choice): State
    requires CanAct(s, id, c)
  {
    Apply(s, id, Decide(s, id, c))
  }

  predicate CanRefresh(s: State, child: nat, c: Choice) {
    && child in s.refreshers
    && match s.refreshers[child].pc
       case Fetching => c == Fail || c.Replied?
       case Failed => false
       case Stored(_) => false
       case _ => c == Pass
  }

  // The next step of a refresh.
  function DecideRefresh(s: State, pc: RefreshPc, c: Choice): RefreshPc {
    match pc
    case Fetching => if c.Replied? then Hotting(Cacheable(c.result, s.now)) else Failed
    case Hotting(e) => Disking(e)
    case Disking(e) => Stored(e)
    case _ => pc
  }

  function DoRefresh(s: State, child: nat, c: Choice): State
    requires CanRefresh(s, child, c)
  {
    var r := s.refreshers[child];
    var k, pc := CacheKey(r.domain, r.qtype), DecideRefresh(s, r.pc, c);
    State(
      s.now,
      s.reqs,
      s.refreshers[child := r.(pc := pc)],
      s.inflight,
      s.closes,
      if r.pc.Hotting? then s.hot[k := r.pc.entry] else s.hot,
      if r.pc.Disking? then s.disk[k := r.pc.entry] else s.disk,
      s.neg,
      s.count,
      History(
        s.past.v6,
        s.past.disk0,
        if pc.Hotting? then s.past.resolutions + {Resolution(r.domain, r.qtype, pc.entry, s.now)} else s.past.resolutions,
        s.past.started,
        s.past.released))
  }

  ghost predicate Enabled(s: State, step: Step) {
    match step
    case Arrive(id, _) => id !in s.reqs
    case Tick(now) => s.now <= now
    case Act(id, c) => CanAct(s, id, c) && Plausible(s, id, c)
    case Refresh(child, c) => CanRefresh(s, child, c) && (c.Replied? ==> Resolvers.IsMerge(s.past.v6, c.result))
  }

  function Begin(s: State, packet: seq<byte>): Request {
    var r := Request(packet, Messages.ParseQuery(packet), Unclaimed, Parsing, false);
    r.(warm := r.parsed.Ok? && s.Has(r.Key()))
  }

  ghost function After(s: State, step: Step): State
    requires Enabled(s, step)
  {
    match step
    case Arrive(id, packet) => s.(count := s.count.(total := s.count.total + 1), reqs := s.reqs[id := Begin(s, packet)])
    case Tick(now) => s.(now := now)
    case Act(id, c) => Do(s, id, c)
    case Refresh(child, c) => DoRefresh(s, child, c)
  }

  // What each kind of step comes to.

  lemma ActIs(s: State, id: nat, c: Choice)
    requires Enabled(s, Act(id, c))
    ensures CanAct(s, id, c) && Plausible(s, id, c) && id in s.reqs && After(s, Act(id, c)) == Do(s, id, c)
  {
  }

  lemma RefreshIs(s: State, child: nat, c: Choice)
    requires Enabled(s, Refresh(child, c))
    ensures CanRefresh(s, child, c) && After(s, Refresh(child, c)) == DoRefresh(s, child, c)
    ensures var s' := After(s, Refresh(child, c));
      s'.reqs == s.reqs && s'.inflight == s.inflight && s'.closes == s.closes && s'.neg == s.neg && s'.count == s.count
  {
    hide DecideRefresh, CacheKey;
  }

  lemma ArriveIs(s: State, id: nat, packet: seq<byte>)
    requires Enabled(s, Arrive(id, packet))
    ensures id !in s.reqs
    ensures After(s, Arrive(id, packet))
         == s.(count := s.count.(total := s.count.total + 1), reqs := s.reqs[id := Begin(s, packet)])
  {
    hide Begin;
  }

  lemma TickIs(s: State, now: int)
    requires Enabled(s, Tick(now))
    ensures s.now <= now && After(s, Tick(now)) == s.(now := now)
  {
  }

  ghost predicate Next(s: State, s': State) {
    exists step :: Enabled(s, step) && s' == After(s, step)
  }

  // The states of a run, in order.
  ghost predicate Run(states: seq<State>) {
    && |states| >= 1 && Init(states[0])
    && (forall i | 0 <= i < |states| - 1 :: Next(states[i], states[i + 1]))
  }
}
