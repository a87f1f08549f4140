// Any sequence of cache operations, restarts included, against one persistent
// map from (domain, query type) to entry.
module CacheSessions {
  import opened GoText
  import opened DnsTypes
  import opened CacheKeys
  import opened LayeredCache

  datatype Op =
    | GetOp(domain: Text, qtype: u16)
    | SetOp(domain: Text, qtype: u16, entry: Entry)
    | DelOp(domain: Text)
    | ListOp
    | ReopenOp

  datatype Out = Got(found: Option<Entry>) | Listed(items: set<CacheItem>) | Nothing

  type Pair = (Text, u16)
  type PairMap = map<Pair, Entry>

  // ---------- the specification: one map ----------

  // A deletion of domain takes the entries of domain itself, and those of any
  // domain that continues it with a bar.
  predicate Takes(domain: Text, other: Text) {
    other == domain || HasPrefix(other, DomainPrefix(domain))
  }

  function Step(m: PairMap, op: Op): PairMap {
    match op
    case SetOp(domain, qtype, entry) => m[(domain, qtype) := entry]
    case DelOp(domain) => map p | p in m && !Takes(domain, p.0) :: m[p]
    case _ => m
  }

  function Listing(m: PairMap): set<CacheItem> {
    set p | p in m && Shown(p.0, p.1, m[p]).Some? :: Shown(p.0, p.1, m[p]).value
  }

  function Output(m: PairMap, op: Op): Out {
    match op
    case GetOp(domain, qtype) => Got(if (domain, qtype) in m then Some(m[(domain, qtype)]) else None)
    case ListOp => Listed(Listing(m))
    case _ => Nothing
  }

  function Outputs(m: PairMap, ops: seq<Op>): seq<Out>
    decreases |ops|
  {
    if ops == [] then [] else [Output(m, ops[0])] + Outputs(Step(m, ops[0]), ops[1..])
  }

  function Final(m: PairMap, ops: seq<Op>): PairMap
    decreases |ops|
  {
    if ops == [] then m else Final(Step(m, ops[0]), ops[1..])
  }

  // ---------- the representation ----------

  // The keyed map stands for the pair map: the same entries, and no other keys.
  ghost predicate Represents(keyed: map<Text, Entry>, m: PairMap) {
    && (forall p | p in m :: CacheKey(p.0, p.1) in keyed && keyed[CacheKey(p.0, p.1)] == m[p])
    && (forall k | k in keyed :: exists p | p in m :: CacheKey(p.0, p.1) == k)
  }

  lemma RepresentsAt(keyed: map<Text, Entry>, m: PairMap, domain: Text, qtype: u16)
    requires Represents(keyed, m)
    ensures CacheKey(domain, qtype) in keyed <==> (domain, qtype) in m
    ensures (domain, qtype) in m ==> keyed[CacheKey(domain, qtype)] == m[(domain, qtype)]
  {
    hide CacheKey;
    if (domain, qtype) in m {
      assert CacheKey((domain, qtype).0, (domain, qtype).1) in keyed;
    }
    if CacheKey(domain, qtype) in keyed {
      var p :| p in m && CacheKey(p.0, p.1) == CacheKey(domain, qtype);
      CacheKeyInjective(p.0, p.1, domain, qtype);
    }
  }

  lemma SetRepresents(keyed: map<Text, Entry>, m: PairMap, domain: Text, qtype: u16, e: Entry)
    requires Represents(keyed, m)
    ensures Represents(keyed[CacheKey(domain, qtype) := e], m[(domain, qtype) := e])
  {
    hide CacheKey;
    var k, keyed', m' := CacheKey(domain, qtype), keyed[CacheKey(domain, qtype) := e], m[(domain, qtype) := e];
    forall p | p in m' ensures CacheKey(p.0, p.1) in keyed' && keyed'[CacheKey(p.0, p.1)] == m'[p] {
      if CacheKey(p.0, p.1) == k {
        CacheKeyInjective(p.0, p.1, domain, qtype);
      }
    }
    forall j | j in keyed' ensures exists p | p in m' :: CacheKey(p.0, p.1) == j {
      if j == k {
        assert (domain, qtype) in m' && CacheKey((domain, qtype).0, (domain, qtype).1) == j;
      } else {
        var p :| p in m && CacheKey(p.0, p.1) == j;
        assert p in m';
      }
    }
  }

  lemma DelRepresents(keyed: map<Text, Entry>, m: PairMap, domain: Text)
    requires Represents(keyed, m)
    ensures Represents(WithoutPrefix(keyed, DomainPrefix(domain)), Step(m, DelOp(domain)))
  {
    hide CacheKey, DomainPrefix;
    var keyed', m' := WithoutPrefix(keyed, DomainPrefix(domain)), Step(m, DelOp(domain));
    forall p: Pair ensures HasPrefix(CacheKey(p.0, p.1), DomainPrefix(domain)) <==> Takes(domain, p.0) {
      PrefixExact(domain, p.0, p.1);
    }
    forall j | j in keyed' ensures exists p | p in m' :: CacheKey(p.0, p.1) == j {
      var p :| p in m && CacheKey(p.0, p.1) == j;
      assert p in m';
    }
  }

  lemma ListRepresents(codec: Codec, disk: Bucket, m: PairMap, items: seq<CacheItem>)
    requires Represents(Contents(codec, disk), m)
    requires forall k | k in disk :: codec.decode(disk[k]).Some?
    requires forall x :: x in items <==> exists k | k in disk :: ItemOf(codec, k, disk[k]) == Some(x)
    ensures (set x | x in items) == Listing(m)
  {
    hide CacheKey, ItemOf, Shown;
    var keyed := Contents(codec, disk);
    forall p | p in m
      ensures CacheKey(p.0, p.1) in disk
      ensures ItemOf(codec, CacheKey(p.0, p.1), disk[CacheKey(p.0, p.1)]) == Shown(p.0, p.1, m[p])
    {
      assert CacheKey(p.0, p.1) in keyed;
      ItemOfKey(codec, p.0, p.1, disk[CacheKey(p.0, p.1)]);
    }
    forall x | x in items ensures x in Listing(m) {
      var k :| k in disk && ItemOf(codec, k, disk[k]) == Some(x);
      assert k in keyed;
      var p :| p in m && CacheKey(p.0, p.1) == k;
    }
    forall x | x in Listing(m) ensures x in items {
      var p :| p in m && Shown(p.0, p.1, m[p]) == Some(x);
    }
  }

  // ---------- when a listing is exact ----------

  function Entries(m: PairMap): set<CacheItem> {
    set p | p in m :: CacheItem(p.0, p.1, m[p])
  }

  ghost predicate BarFree(m: PairMap) {
    forall p | p in m :: PIPE !in p.0
  }

  lemma ShownWithoutBar(domain: Text, qtype: u16, entry: Entry)
    ensures Shown(domain, qtype, entry).Some? ==> PIPE !in Shown(domain, qtype, entry).value.domain
    ensures PIPE !in domain ==> Shown(domain, qtype, entry) == Some(CacheItem(domain, qtype, entry))
  {
    hide ScanU16;
  }

  // A listing is exactly the entries of the map if and only if no stored domain
  // has a bar.
  lemma ListingExact(m: PairMap)
    ensures Listing(m) == Entries(m) <==> BarFree(m)
  {
    forall p | p in m
      ensures CacheItem(p.0, p.1, m[p]) in Entries(m)
      ensures Shown(p.0, p.1, m[p]).Some? ==> PIPE !in Shown(p.0, p.1, m[p]).value.domain
      ensures PIPE !in p.0 ==> Shown(p.0, p.1, m[p]) == Some(CacheItem(p.0, p.1, m[p]))
    {
      ShownWithoutBar(p.0, p.1, m[p]);
    }
    hide Shown;
    if BarFree(m) {
      assert forall x :: x in Listing(m) <==> x in Entries(m);
    }
  }

  // An entry of the domain "|" is not listed at all, and one of "a|5" is listed
  // as if it were of domain "a" and type 5.
  lemma BarredDomainsMislisted(qtype: u16, entry: Entry)
    ensures Listing(map[([PIPE], qtype) := entry]) == {}
    ensures Listing(map[([97, PIPE, 53], qtype) := entry]) == {CacheItem([97], 5, entry)}
  {
    var a5: Text := [97, PIPE, 53];
    BarOfBarred();
    assert a5[2..] == [53] == Decimal(5) && a5[..1] == [97];
    DecimalScans(5);
    assert Shown([PIPE], qtype, entry) == None;
    assert Shown(a5, qtype, entry) == Some(CacheItem([97], 5, entry));
  }

  lemma BarOfBarred()
    ensures BarAt([PIPE]) == 0 && [PIPE][1..] == [] && BarAt([97, PIPE, 53]) == 1
  {
  }

  // ---------- a session of the program ----------

  ghost predicate Readable(codec: Codec, disk: Bucket) {
    forall k | k in disk :: codec.decode(disk[k]).Some?
  }

  // Running the operations on the cache, over any number of closings and
  // reopenings, gives what the one map gives.
  method Session(codec: Codec, disk: Bucket, ghost m: PairMap, ops: seq<Op>) returns (outs: seq<Out>, file: Bucket)
    requires Faithful(codec) && Readable(codec, disk) && Represents(Contents(codec, disk), m)
    ensures outs == Outputs(m, ops)
    ensures Readable(codec, file) && Represents(Contents(codec, file), Final(m, ops))
  {
    hide Step, Output, Represents, Faithful, HasPrefix;
    var cache := new Cache(codec, disk);
    outs := [];
    ghost var now := m;
    for i := 0 to |ops|
      invariant fresh(cache) && cache.Valid() && cache.codec == codec
      invariant Readable(codec, cache.disk) && Represents(cache.Map(), now)
      invariant outs + Outputs(now, ops[i..]) == Outputs(m, ops)
      invariant Final(now, ops[i..]) == Final(m, ops)
    {
      Unfold(now, ops, i);
      hide Outputs, Final;
      ghost var rest := Outputs(Step(now, ops[i]), ops[i + 1..]);
      var out;
      cache, out := Perform(cache, now, ops[i]);
      ConcatAssoc(outs, [out], rest);
      outs := outs + [out];
      now := Step(now, ops[i]);
    }
    assert ops[|ops|..] == [] && outs + [] == outs;
    file := cache.Close();
  }

  lemma Unfold(m: PairMap, ops: seq<Op>, i: nat)
    requires i < |ops|
    ensures Outputs(m, ops[i..]) == [Output(m, ops[i])] + Outputs(Step(m, ops[i]), ops[i + 1..])
    ensures Final(m, ops[i..]) == Final(Step(m, ops[i]), ops[i + 1..])
  {
    hide Step, Output;
    assert ops[i..][0] == ops[i] && ops[i..][1..] == ops[i + 1..];
  }

  // One operation; a reopening leaves the hot layer behind.
  method Perform(cache: Cache, ghost m: PairMap, op: Op) returns (next: Cache, out: Out)
    requires cache.Valid() && Readable(cache.codec, cache.disk) && Represents(cache.Map(), m)
    modifies cache
    ensures next == cache || fresh(next)
    ensures next.codec == cache.codec
    ensures next.Valid() && Readable(next.codec, next.disk) && Represents(next.Map(), Step(m, op))
    ensures out == Output(m, op)
  {
    hide CacheKey, DomainPrefix, HasPrefix, Represents, Contents, Faithful, Listing, Takes;
    next, out := cache, Nothing;
    match op
    case GetOp(domain, qtype) =>
      RepresentsAt(cache.Map(), m, domain, qtype);
      var found := cache.Get(domain, qtype);
      out := Got(found);
    case SetOp(domain, qtype, entry) =>
      SetRepresents(cache.Map(), m, domain, qtype, entry);
      cache.Set(domain, qtype, entry);
    case DelOp(domain) =>
      DelRepresents(cache.Map(), m, domain);
      cache.Del(domain);
    case ListOp =>
      var items := cache.List();
      ListRepresents(cache.codec, cache.disk, m, items);
      out := Listed(set x | x in items);
    case ReopenOp =>
      var file := cache.Close();
      next := new Cache(cache.codec, file);
  }
}
