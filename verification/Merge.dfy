// Fan-out to several resolvers and the merge of their replies.
module Merge {
  import opened GoText
  import opened DnsTypes

  // ---------- merging records ----------

  datatype RKey = RKey(name: Text, rtype: u16, rdata: Text)

  function KeyOf(r: RR): RKey {
    RKey(r.name, r.rtype, r.rdata)
  }

  function Min(a: u32, b: u32): u32 {
    if a < b then a else b
  }

  // The least TTL of each key: what merging is for, whatever the order.
  function KeyTtl(records: seq<RR>): map<RKey, u32> {
    if records == [] then map[]
    else
      var rest, r := KeyTtl(records[..|records| - 1]), records[|records| - 1];
      rest[KeyOf(r) := if KeyOf(r) in rest then Min(r.ttl, rest[KeyOf(r)]) else r.ttl]
  }

  ghost predicate Attained(records: seq<RR>, k: RKey, ttl: u32) {
    exists i | 0 <= i < |records| :: KeyOf(records[i]) == k && records[i].ttl == ttl
  }

  lemma {:induction false} KeyTtlBounds(records: seq<RR>)
    ensures forall i | 0 <= i < |records| ::
              KeyOf(records[i]) in KeyTtl(records) && KeyTtl(records)[KeyOf(records[i])] <= records[i].ttl
  {
    if records != [] {
      var front := records[..|records| - 1];
      KeyTtlBounds(front);
      assert forall i | 0 <= i < |front| :: front[i] == records[i];
    }
  }

  lemma {:induction false} KeyTtlAttained(records: seq<RR>)
    ensures forall k | k in KeyTtl(records) :: Attained(records, k, KeyTtl(records)[k])
  {
    if records != [] {
      var n := |records| - 1;
      var front := records[..n];
      KeyTtlAttained(front);
      var m, before := KeyTtl(records), KeyTtl(front);
      hide KeyTtl;
      forall k | k in m ensures Attained(records, k, m[k]) {
        if k in before && m[k] == before[k] {
          assert Attained(front, k, m[k]);
          var i :| 0 <= i < n && KeyOf(front[i]) == k && front[i].ttl == m[k];
          assert KeyOf(records[i]) == k && records[i].ttl == m[k];
        } else {
          assert KeyOf(records[n]) == k && records[n].ttl == m[k];
        }
      }
    }
  }

  // The map holds, for each key that occurs and no other, a TTL that occurs with
  // the key and is no larger than any other.
  lemma KeyTtlIsLeast(records: seq<RR>)
    ensures forall k | k in KeyTtl(records) :: Attained(records, k, KeyTtl(records)[k])
    ensures forall i | 0 <= i < |records| ::
              KeyOf(records[i]) in KeyTtl(records) && KeyTtl(records)[KeyOf(records[i])] <= records[i].ttl
  {
    KeyTtlBounds(records);
    KeyTtlAttained(records);
  }

  // b has a record with the key of x and no larger TTL.
  ghost predicate Covered(x: RR, b: seq<RR>) {
    exists j | 0 <= j < |b| :: KeyOf(b[j]) == KeyOf(x) && b[j].ttl <= x.ttl
  }

  lemma KeyTtlBelow(a: seq<RR>, b: seq<RR>)
    requires forall i | 0 <= i < |a| :: Covered(a[i], b)
    ensures forall k | k in KeyTtl(a) :: k in KeyTtl(b) && KeyTtl(b)[k] <= KeyTtl(a)[k]
  {
    KeyTtlIsLeast(a);
    KeyTtlIsLeast(b);
    hide KeyTtl;
    forall k | k in KeyTtl(a)
      ensures k in KeyTtl(b) && KeyTtl(b)[k] <= KeyTtl(a)[k]
    {
      assert Attained(a, k, KeyTtl(a)[k]);
      var i :| 0 <= i < |a| && KeyOf(a[i]) == k && a[i].ttl == KeyTtl(a)[k];
      assert Covered(a[i], b);
      var j :| 0 <= j < |b| && KeyOf(b[j]) == k && b[j].ttl <= a[i].ttl;
    }
  }

  lemma KeyTtlEqual(a: seq<RR>, b: seq<RR>)
    requires forall i | 0 <= i < |a| :: Covered(a[i], b)
    requires forall i | 0 <= i < |b| :: Covered(b[i], a)
    ensures KeyTtl(a) == KeyTtl(b)
  {
    KeyTtlBelow(a, b);
    KeyTtlBelow(b, a);
  }

  // The same records in any order, and any number of times, have the same keys
  // with the same least TTLs.
  lemma KeyTtlOfSet(a: seq<RR>, b: seq<RR>)
    requires forall r :: r in a <==> r in b
    ensures KeyTtl(a) == KeyTtl(b)
  {
    forall i | 0 <= i < |a| ensures Covered(a[i], b) {
      assert a[i] in b;
    }
    forall i | 0 <= i < |b| ensures Covered(b[i], a) {
      assert b[i] in a;
    }
    KeyTtlEqual(a, b);
  }

  // ---------- the merge as a function ----------

  ghost predicate Distinct(records: seq<RR>) {
    forall i, j | 0 <= i < j < |records| :: KeyOf(records[i]) != KeyOf(records[j])
  }

  function Find(records: seq<RR>, k: RKey): (i: nat)
    ensures i <= |records|
    ensures i < |records| ==> KeyOf(records[i]) == k
    ensures forall j | 0 <= j < i :: KeyOf(records[j]) != k
  {
    if records == [] || KeyOf(records[0]) == k then 0 else 1 + Find(records[1..], k)
  }

  function Absorb(deduped: seq<RR>, r: RR): seq<RR> {
    var i := Find(deduped, KeyOf(r));
    if i == |deduped| then deduped + [r]
    else deduped[i := deduped[i].(ttl := Min(r.ttl, deduped[i].ttl))]
  }

  function Deduped(records: seq<RR>): seq<RR> {
    if records == [] then [] else Absorb(Deduped(records[..|records| - 1]), records[|records| - 1])
  }

  function Reduced(records: seq<RR>): Result {
    Result(Deduped(records), MinTTL(Deduped(records)), false)
  }

  // The map says at which index the record of a key stands.
  ghost predicate Indexes(seen: map<RKey, nat>, deduped: seq<RR>) {
    && Distinct(deduped)
    && (forall i | 0 <= i < |deduped| :: KeyOf(deduped[i]) in seen)
    && (forall k | k in seen :: seen[k] < |deduped| && KeyOf(deduped[seen[k]]) == k)
  }

  lemma IndexFinds(seen: map<RKey, nat>, deduped: seq<RR>, k: RKey)
    requires Indexes(seen, deduped)
    ensures Find(deduped, k) == if k in seen then seen[k] else |deduped|
  {
    var i := Find(deduped, k);
    hide Find;
  }

  lemma IndexAbsorbs(seen: map<RKey, nat>, deduped: seq<RR>, r: RR)
    requires Indexes(seen, deduped)
    ensures KeyOf(r) in seen ==> Indexes(seen, Absorb(deduped, r))
    ensures KeyOf(r) !in seen ==> Indexes(seen[KeyOf(r) := |deduped|], Absorb(deduped, r))
  {
    IndexFinds(seen, deduped, KeyOf(r));
    hide Find;
    var after := Absorb(deduped, r);
    assert forall j | 0 <= j < |deduped| :: KeyOf(after[j]) == KeyOf(deduped[j]);
  }

  method Reduce(records: seq<RR>) returns (result: Result)
    ensures result == Reduced(records)
  {
    if |records| == 0 {
      return Result([], MINIMUM_TTL, false);
    }
    hide Indexes, Find, KeyOf;
    var seen: map<RKey, nat> := map[];
    var deduped: seq<RR> := [];
    EmptyIndex();
    for n := 0 to |records|
      invariant deduped == Deduped(records[..n]) && Indexes(seen, deduped)
    {
      var r := records[n];
      var k := KeyOf(r);
      assert records[..n + 1][..n] == records[..n];
      assert Deduped(records[..n + 1]) == Absorb(deduped, r);
      IndexFinds(seen, deduped, k);
      IndexAbsorbs(seen, deduped, r);
      hide Deduped;
      if k in seen {
        var i := seen[k];
        assert deduped[i].(ttl := deduped[i].ttl) == deduped[i];
        if r.ttl < deduped[i].ttl {
          deduped := deduped[i := deduped[i].(ttl := r.ttl)];
        }
        continue;
      }
      seen := seen[k := |deduped|];
      deduped := deduped + [r];
    }
    assert records[..|records|] == records;
    var ttl := MinTTLFrom(deduped);
    return Result(deduped, ttl, false);
  }

  lemma EmptyIndex()
    ensures Indexes(map[], [])
  {
  }

  // One record for each key seen, with the least TTL of that key.
  lemma {:induction false} DedupedMeaning(records: seq<RR>)
    ensures Distinct(Deduped(records))
    ensures KeyTtl(Deduped(records)) == KeyTtl(records)
  {
    if records != [] {
      var n := |records| - 1;
      var front, r := records[..n], records[n];
      DedupedMeaning(front);
      var before := Deduped(front);
      AbsorbMeaning(before, r);
      assert (before + [r])[..|before|] == before;
    }
  }

  // Apart from its TTL, a merged record is one of the records given.
  ghost predicate From(d: RR, records: seq<RR>) {
    exists i | 0 <= i < |records| :: records[i].(ttl := d.ttl) == d
  }

  lemma {:induction false} DedupedComeFrom(records: seq<RR>)
    ensures forall j | 0 <= j < |Deduped(records)| :: From(Deduped(records)[j], records)
  {
    if records != [] {
      var n := |records| - 1;
      var front, r := records[..n], records[n];
      DedupedComeFrom(front);
      var before, after := Deduped(front), Absorb(Deduped(front), r);
      hide Deduped;
      forall j | 0 <= j < |after| ensures From(after[j], records) {
        if j < |before| {
          assert From(before[j], front);
          var i :| 0 <= i < n && front[i].(ttl := before[j].ttl) == before[j];
          assert records[i].(ttl := after[j].ttl) == after[j];
        } else {
          assert records[n].(ttl := after[j].ttl) == after[j];
        }
      }
    }
  }

  lemma DistinctTtls(records: seq<RR>)
    requires Distinct(records)
    ensures forall d | d in records :: KeyOf(d) in KeyTtl(records) && KeyTtl(records)[KeyOf(d)] == d.ttl
  {
    KeyTtlIsLeast(records);
    forall d | d in records
      ensures KeyOf(d) in KeyTtl(records) && KeyTtl(records)[KeyOf(d)] == d.ttl
    {
      var i :| 0 <= i < |records| && records[i] == d;
      assert KeyOf(records[i]) == KeyOf(d);
    }
  }

  lemma AbsorbMeaning(deduped: seq<RR>, r: RR)
    requires Distinct(deduped)
    ensures Distinct(Absorb(deduped, r))
    ensures KeyTtl(Absorb(deduped, r)) == KeyTtl(deduped + [r])
  {
    var i := Find(deduped, KeyOf(r));
    var after, all := Absorb(deduped, r), deduped + [r];
    if i < |deduped| {
      assert forall j | 0 <= j < |deduped| :: KeyOf(after[j]) == KeyOf(deduped[j]);
      forall j | 0 <= j < |after| ensures Covered(after[j], all) {
        var l := if j == i && r.ttl < deduped[i].ttl then |deduped| else j;
        assert KeyOf(all[l]) == KeyOf(after[j]) && all[l].ttl <= after[j].ttl;
      }
      forall l | 0 <= l < |all| ensures Covered(all[l], after) {
        var j := if l < |deduped| then l else i;
        assert KeyOf(after[j]) == KeyOf(all[l]) && after[j].ttl <= all[l].ttl;
      }
      KeyTtlEqual(after, all);
    }
  }

  // ---------- consequences ----------

  lemma FindMisses(records: seq<RR>, k: RKey)
    requires forall j | 0 <= j < |records| :: KeyOf(records[j]) != k
    ensures Find(records, k) == |records|
  {
  }

  lemma AbsorbNew(front: seq<RR>, r: RR)
    requires forall j | 0 <= j < |front| :: KeyOf(front[j]) != KeyOf(r)
    ensures Absorb(front, r) == front + [r]
  {
    hide Find;
    FindMisses(front, KeyOf(r));
  }

  lemma DistinctFront(records: seq<RR>, front: seq<RR>, r: RR)
    requires Distinct(records) && records == front + [r]
    ensures Distinct(front) && forall j | 0 <= j < |front| :: KeyOf(front[j]) != KeyOf(r)
  {
    hide KeyOf;
    assert forall j | 0 <= j < |front| :: front[j] == records[j];
    assert r == records[|front|];
  }

  lemma {:induction false} DedupedOfDistinct(records: seq<RR>)
    requires Distinct(records)
    ensures Deduped(records) == records
  {
    if records != [] {
      hide Absorb, KeyOf;
      var n := |records| - 1;
      var front, r := records[..n], records[n];
      DistinctFront(records, front, r);
      hide Distinct;
      DedupedOfDistinct(front);
      AbsorbNew(front, r);
    }
  }

  ghost predicate SameData(a: RR, b: RR) {
    a.name == b.name && a.rtype == b.rtype && a.rdata == b.rdata
  }

  lemma SameDataIsSameKey(a: RR, b: RR)
    ensures SameData(a, b) <==> KeyOf(a) == KeyOf(b)
  {
  }

  // b has a record with the name, type and data of r, and a TTL no larger.
  ghost predicate Represented(r: RR, b: seq<RR>) {
    exists x | x in b :: SameData(x, r) && x.ttl <= r.ttl
  }

  // The TTL of x was given in b with its name, type and data.
  ghost predicate TtlGiven(x: RR, b: seq<RR>) {
    exists r | r in b :: SameData(r, x) && r.ttl == x.ttl
  }

  lemma RepresentedInMerge(records: seq<RR>, r: RR)
    requires r in records
    ensures Represented(r, Deduped(records))
  {
    var merged := Deduped(records);
    DedupedMeaning(records);
    KeyTtlIsLeast(records);
    KeyTtlIsLeast(merged);
    hide KeyTtl, KeyOf, SameData, Deduped, Distinct;
    var l :| 0 <= l < |records| && records[l] == r;
    assert Attained(merged, KeyOf(r), KeyTtl(merged)[KeyOf(records[l])]);
    var j :| 0 <= j < |merged| && KeyOf(merged[j]) == KeyOf(r) && merged[j].ttl == KeyTtl(merged)[KeyOf(r)];
    SameDataIsSameKey(merged[j], r);
    assert merged[j] in merged;
  }

  lemma MergedTtlGiven(records: seq<RR>, x: RR)
    requires x in Deduped(records)
    ensures TtlGiven(x, records)
  {
    DedupedMeaning(records);
    DistinctTtls(Deduped(records));
    KeyTtlIsLeast(records);
    hide KeyTtl, KeyOf, SameData, Deduped, Distinct;
    assert Attained(records, KeyOf(x), KeyTtl(records)[KeyOf(x)]);
    var l :| 0 <= l < |records| && KeyOf(records[l]) == KeyOf(x) && records[l].ttl == KeyTtl(records)[KeyOf(x)];
    SameDataIsSameKey(records[l], x);
    assert records[l] in records;
  }

  // What merging does, told by the fields of the records: each record given has
  // one of its name, type and data in the merge, with a TTL no larger; there is
  // only one such; and its TTL was given with that name, type and data.
  lemma MergeExact(records: seq<RR>)
    ensures var merged := Reduced(records).records;
      && (forall r | r in records :: Represented(r, merged))
      && (forall i, j | 0 <= i < |merged| && 0 <= j < |merged| && SameData(merged[i], merged[j]) :: i == j)
      && (forall x | x in merged :: TtlGiven(x, records))
  {
    var merged := Deduped(records);
    DedupedMeaning(records);
    hide KeyTtl, KeyOf, SameData, Deduped, MinTTL, Represented, TtlGiven;
    forall r | r in records ensures Represented(r, merged) {
      RepresentedInMerge(records, r);
    }
    forall i, j | 0 <= i < |merged| && 0 <= j < |merged| && SameData(merged[i], merged[j]) ensures i == j {
      SameDataIsSameKey(merged[i], merged[j]);
    }
    forall x | x in merged ensures TtlGiven(x, records) {
      MergedTtlGiven(records, x);
    }
  }

  // Before each record like l there is one like j.
  ghost predicate Earlier(records: seq<RR>, j: RR, l: RR) {
    forall b | 0 <= b < |records| && SameData(records[b], l) ::
      exists a | 0 <= a < b :: SameData(records[a], j)
  }

  ghost predicate InOrder(merged: seq<RR>, records: seq<RR>) {
    forall j, l | 0 <= j < l < |merged| :: Earlier(records, merged[j], merged[l])
  }

  lemma EarlierStays(front: seq<RR>, r: RR, j: RR, l: RR)
    requires Earlier(front, j, l)
    requires SameData(r, l) ==> exists a | 0 <= a < |front| :: SameData(front[a], j)
    ensures Earlier(front + [r], j, l)
  {
    hide SameData;
    var all := front + [r];
    forall b | 0 <= b < |all| && SameData(all[b], l) ensures exists a | 0 <= a < b :: SameData(all[a], j) {
      if b < |front| {
        assert SameData(front[b], l);
        var a :| 0 <= a < b && SameData(front[a], j);
        assert SameData(all[a], j);
      } else {
        var a :| 0 <= a < |front| && SameData(front[a], j);
        assert SameData(all[a], j);
      }
    }
  }

  lemma EarlierAlike(records: seq<RR>, j: RR, l: RR, j': RR, l': RR)
    requires Earlier(records, j, l) && SameData(j', j) && SameData(l', l)
    ensures Earlier(records, j', l')
  {
    forall b | 0 <= b < |records| && SameData(records[b], l') ensures exists a | 0 <= a < b :: SameData(records[a], j') {
      assert SameData(records[b], l);
      var a :| 0 <= a < b && SameData(records[a], j);
      assert SameData(records[a], j');
    }
  }

  lemma GivenIn(records: seq<RR>, x: RR)
    requires x in Deduped(records)
    ensures exists a | 0 <= a < |records| :: SameData(records[a], x)
  {
    hide Deduped;
    MergedTtlGiven(records, x);
    var r :| r in records && SameData(r, x);
    var a :| 0 <= a < |records| && records[a] == r;
  }

  // Merged records stand in the order in which their kind was first given.
  lemma {:induction false} MergeKeepsOrder(records: seq<RR>)
    ensures InOrder(Reduced(records).records, records)
  {
    hide MinTTL, SameData, KeyOf, Find;
    if records != [] {
      var n := |records| - 1;
      var front, r := records[..n], records[n];
      MergeKeepsOrder(front);
      var before, after := Deduped(front), Absorb(Deduped(front), r);
      assert Deduped(records) == after;
      hide Deduped, Absorb;
      AbsorbShape(before, r);
      assert records == front + [r];
      forall j, l | 0 <= j < l < |after| ensures Earlier(records, after[j], after[l]) {
        assert j < |before|;
        GivenIn(front, before[j]);
        if l < |before| {
          EarlierStays(front, r, before[j], before[l]);
          EarlierAlike(records, before[j], before[l], after[j], after[l]);
        } else {
          NoneLike(front, r, before);
          EarlierStays(front, r, before[j], r);
          SameDataReflects(r);
          EarlierAlike(records, before[j], r, after[j], after[l]);
        }
      }
    }
  }

  lemma SameDataReflects(r: RR)
    ensures SameData(r, r)
  {
  }

  lemma AbsorbShape(deduped: seq<RR>, r: RR)
    ensures var after := Absorb(deduped, r);
      && |deduped| <= |after| <= |deduped| + 1
      && (forall j | 0 <= j < |deduped| :: SameData(after[j], deduped[j]))
      && (|after| > |deduped| ==> after[|deduped|] == r && forall j | 0 <= j < |deduped| :: !SameData(deduped[j], r))
  {
    hide Find;
    FindIsExact(deduped, r);
  }

  lemma FindIsExact(deduped: seq<RR>, r: RR)
    ensures var i := Find(deduped, KeyOf(r));
      i == |deduped| ==> forall j | 0 <= j < |deduped| :: !SameData(deduped[j], r)
  {
    var i := Find(deduped, KeyOf(r));
    hide Find;
  }

  lemma NoneLike(front: seq<RR>, r: RR, before: seq<RR>)
    requires before == Deduped(front) && forall j | 0 <= j < |before| :: !SameData(before[j], r)
    ensures forall x :: Earlier(front, x, r)
  {
    forall b | 0 <= b < |front| ensures !SameData(front[b], r) {
      hide Deduped;
      RepresentedInMerge(front, front[b]);
      var x :| x in before && SameData(x, front[b]);
      var j :| 0 <= j < |before| && before[j] == x;
    }
  }

  // Merging a merged list changes nothing.
  lemma ReduceIsIdempotent(records: seq<RR>)
    ensures Reduced(Reduced(records).records) == Reduced(records)
  {
    DedupedMeaning(records);
    DedupedOfDistinct(Deduped(records));
  }

  // b has a positive TTL that is no larger than this one.
  ghost predicate PositiveBelow(ttl: u32, b: seq<RR>) {
    exists j | 0 <= j < |b| :: 0 < b[j].ttl <= ttl
  }

  lemma LeastBelow(a: seq<RR>, b: seq<RR>)
    requires forall i | 0 <= i < |a| && a[i].ttl > 0 :: PositiveBelow(a[i].ttl, b)
    ensures LeastPositive(b, NO_TTL) <= LeastPositive(a, NO_TTL)
  {
    LeastPositiveIsLeast(a, NO_TTL);
    LeastPositiveIsLeast(b, NO_TTL);
    hide LeastPositive;
    var least := LeastPositive(a, NO_TTL);
    if least != NO_TTL {
      var i :| 0 <= i < |a| && a[i].ttl == least && least > 0;
      assert PositiveBelow(a[i].ttl, b);
    }
  }

  // The reported TTL depends only on the keys and their least TTLs.
  lemma TtlFromKeys(a: seq<RR>, b: seq<RR>)
    requires Distinct(a) && Distinct(b) && KeyTtl(a) == KeyTtl(b)
    ensures MinTTL(a) == MinTTL(b)
  {
    KeysBelow(a, b);
    KeysBelow(b, a);
    LeastBelow(a, b);
    LeastBelow(b, a);
  }

  // The same records in another order, or repeated, merge to the same keys, the
  // same TTLs, and the same reported TTL.
  lemma ReduceIgnoresOrder(a: seq<RR>, b: seq<RR>)
    requires forall r :: r in a <==> r in b
    ensures KeyTtl(Reduced(a).records) == KeyTtl(Reduced(b).records) == KeyTtl(a)
    ensures Distinct(Reduced(a).records) && Distinct(Reduced(b).records)
    ensures |Reduced(a).records| == |Reduced(b).records|
    ensures Reduced(a).ttl == Reduced(b).ttl
  {
    DedupedMeaning(a);
    DedupedMeaning(b);
    KeyTtlOfSet(a, b);
    TtlFromKeys(Deduped(a), Deduped(b));
    DistinctSize(Deduped(a));
    DistinctSize(Deduped(b));
  }

  lemma {:induction false} DistinctSize(records: seq<RR>)
    requires Distinct(records)
    ensures |KeyTtl(records)| == |records|
  {
    if records != [] {
      var n := |records| - 1;
      DistinctSize(records[..n]);
      KeyTtlIsLeast(records[..n]);
      assert KeyOf(records[n]) !in KeyTtl(records[..n]);
    }
  }

  // Some record of the key has a zero TTL.
  ghost predicate Zeroed(records: seq<RR>, k: RKey) {
    exists i | 0 <= i < |records| :: KeyOf(records[i]) == k && records[i].ttl == 0
  }

  // The records of a list whose keys are not zeroed in another.
  ghost function Unzeroed(records: seq<RR>, all: seq<RR>): seq<RR> {
    if records == [] then []
    else (if Zeroed(all, KeyOf(records[0])) then [] else [records[0]]) + Unzeroed(records[1..], all)
  }

  lemma {:induction false} UnzeroedMember(records: seq<RR>, all: seq<RR>, r: RR)
    ensures r in Unzeroed(records, all) <==> r in records && !Zeroed(all, KeyOf(r))
  {
    hide Zeroed, KeyOf;
    if records != [] {
      UnzeroedMember(records[1..], all, r);
      assert r in records <==> r == records[0] || r in records[1..];
    }
  }

  // On every input the merged TTL is the smallest positive TTL of the records
  // whose keys have no zero TTL: one zero takes its key out of account.
  lemma ReducedTTLExact(records: seq<RR>)
    ensures Reduced(records).ttl == MinTTL(Unzeroed(records, records))
  {
    var d, f := Deduped(records), Unzeroed(records, records);
    DedupedMeaning(records);
    hide Deduped, LeastPositive, Unzeroed;
    forall i | 0 <= i < |d| && d[i].ttl > 0 ensures PositiveBelow(d[i].ttl, f) {
      UnzeroedHasLeast(records, d, i);
    }
    forall i | 0 <= i < |f| && f[i].ttl > 0 ensures PositiveBelow(f[i].ttl, d) {
      UnzeroedMember(records, records, f[i]);
      LeastOfUnzeroed(records, d, f[i]);
    }
    LeastBelow(d, f);
    LeastBelow(f, d);
  }

  lemma UnzeroedHasLeast(records: seq<RR>, d: seq<RR>, i: nat)
    requires Distinct(d) && KeyTtl(d) == KeyTtl(records) && i < |d| && d[i].ttl > 0
    ensures PositiveBelow(d[i].ttl, Unzeroed(records, records))
  {
    KeyTtlIsLeast(records);
    DistinctTtls(d);
    hide KeyTtl, Unzeroed, Distinct;
    var k := KeyOf(d[i]);
    assert d[i] in d;
    assert Attained(records, k, d[i].ttl);
    var l :| 0 <= l < |records| && KeyOf(records[l]) == k && records[l].ttl == d[i].ttl;
    UnzeroedMember(records, records, records[l]);
    var f := Unzeroed(records, records);
    assert records[l] in f;
  }

  lemma LeastOfUnzeroed(records: seq<RR>, d: seq<RR>, r: RR)
    requires KeyTtl(d) == KeyTtl(records) && r in records && r.ttl > 0 && !Zeroed(records, KeyOf(r))
    ensures PositiveBelow(r.ttl, d)
  {
    KeyTtlIsLeast(records);
    KeyTtlIsLeast(d);
    hide KeyTtl;
    var k := KeyOf(r);
    assert Attained(records, k, KeyTtl(records)[k]) && Attained(d, k, KeyTtl(d)[k]);
  }

  // The minimum TTL of the records is shown by a record whose key has no zero
  // TTL; or no such record shows a TTL at all, and the minimum is the default.
  ghost predicate MinimumStays(records: seq<RR>) {
    || (exists r | r in records :: r.ttl == MinTTL(records) && r.ttl != NO_TTL && !Zeroed(records, KeyOf(r)))
    || ((forall r | r in records && 0 < r.ttl < NO_TTL :: Zeroed(records, KeyOf(r))) && MinTTL(records) == MINIMUM_TTL)
  }

  // Merging keeps the minimum TTL of the replies exactly then.
  lemma ReduceKeepsMinTTL(records: seq<RR>)
    ensures Reduced(records).ttl == MinTTL(records) <==> MinimumStays(records)
  {
    ReducedTTLExact(records);
    hide Reduced, MinTTL, Unzeroed, KeyOf, Zeroed;
    var part := Unzeroed(records, records);
    forall r ensures r in part <==> r in records && !Zeroed(records, KeyOf(r)) {
      UnzeroedMember(records, records, r);
    }
    MinimumOfPart(records, part);
  }

  lemma MinimumOfPart(all: seq<RR>, part: seq<RR>)
    requires forall r | r in part :: r in all
    ensures MinTTL(part) == MinTTL(all) <==>
              || (exists r | r in part :: r.ttl == MinTTL(all) && r.ttl != NO_TTL)
              || ((forall r | r in part :: r.ttl in {0, NO_TTL}) && MinTTL(all) == MINIMUM_TTL)
  {
    MinTTLMeaning(all);
    MinTTLMeaning(part);
    hide MinTTL;
    if forall r | r in part :: r.ttl in {0, NO_TTL} {
      assert forall i | 0 <= i < |part| :: part[i] in part;
    } else {
      var r :| r in part && r.ttl !in {0, NO_TTL};
      var j :| 0 <= j < |part| && part[j] == r;
      var i :| 0 <= i < |part| && part[i].ttl == MinTTL(part);
      assert part[i] in part;
    }
  }

  // In particular it does when no key has both a zero and a positive TTL.
  lemma UnmixedKeepsMinTTL(records: seq<RR>)
    requires NoMixedZero(records)
    ensures Reduced(records).ttl == MinTTL(records)
  {
    var d := Deduped(records);
    DedupedMeaning(records);
    hide Deduped;
    KeysBelow(d, records);
    KeysBelow(records, d);
    LeastBelow(d, records);
    LeastBelow(records, d);
  }

  ghost predicate NoMixedZero(records: seq<RR>) {
    forall i, j | 0 <= i < |records| && 0 <= j < |records| ::
      KeyOf(records[i]) == KeyOf(records[j]) && records[i].ttl == 0 ==> records[j].ttl == 0
  }

  lemma KeysBelow(a: seq<RR>, b: seq<RR>)
    requires KeyTtl(a) == KeyTtl(b) && (NoMixedZero(a) || Distinct(a))
    ensures forall i | 0 <= i < |a| && a[i].ttl > 0 :: PositiveBelow(a[i].ttl, b)
  {
    KeyTtlIsLeast(a);
    KeyTtlIsLeast(b);
    hide KeyTtl, KeyOf, NoMixedZero, Distinct;
    forall i | 0 <= i < |a| && a[i].ttl > 0
      ensures PositiveBelow(a[i].ttl, b)
    {
      var k := KeyOf(a[i]);
      assert Attained(a, k, KeyTtl(a)[k]) && Attained(b, k, KeyTtl(b)[k]);
      var l :| 0 <= l < |a| && KeyOf(a[l]) == k && a[l].ttl == KeyTtl(a)[k];
      var j :| 0 <= j < |b| && KeyOf(b[j]) == k && b[j].ttl == KeyTtl(b)[k];
      PositiveTogether(a, i, l);
    }
  }

  lemma PositiveTogether(a: seq<RR>, i: nat, l: nat)
    requires NoMixedZero(a) || Distinct(a)
    requires i < |a| && l < |a| && KeyOf(a[i]) == KeyOf(a[l]) && a[i].ttl > 0
    ensures a[l].ttl > 0
  {
    hide KeyOf;
  }

  // A zero TTL hides a positive one of the same record: the merged TTL is then
  // the default, not the smallest non-zero TTL of the replies.
  lemma ZeroTtlHidesPositive(r: RR)
    requires r.ttl !in {0, NO_TTL}
    ensures Reduced([r, r.(ttl := 0)]).ttl == MINIMUM_TTL && MinTTL([r, r.(ttl := 0)]) == r.ttl
  {
    var zero := r.(ttl := 0);
    var both := [r, zero];
    assert both[..1] == [r] && [r][..0] == [];
    assert Deduped([r]) == [] + [r];
    assert Deduped(both) == [zero];
    assert both[1..] == [zero];
    assert LeastPositive([zero], NO_TTL) == LeastPositive([], NO_TTL);
    assert LeastPositive(both, NO_TTL) == LeastPositive([zero], r.ttl) == r.ttl;
  }

  // ---------- the fan-out ----------

  // What one resolver comes back with.
  datatype Reply = Failed(error: Text) | Answered(result: Result)

  datatype Outcome =
    | Resolved(result: Result)
    | NoResolvers
    | DeadlineExceeded
    | AllFailed(error: Text)

  // The records of the successful replies, in arrival order. A resolver's
  // NXDOMAIN flag is not carried along.
  function Collected(replies: seq<Reply>): seq<RR> {
    if replies == [] then []
    else
      var last := replies[|replies| - 1];
      Collected(replies[..|replies| - 1]) + (if last.Answered? then last.result.records else [])
  }

  ghost predicate AnyAnswered(replies: seq<Reply>) {
    exists i | 0 <= i < |replies| :: replies[i].Answered?
  }

  // The receive loop: the replies in the order they arrive, and the number of
  // them taken before the deadline fires (the deadline does not fire when that
  // is all of them).
  method ResolveAll(replies: seq<Reply>, deadline: nat) returns (outcome: Outcome)
    ensures var taken := replies[..if deadline < |replies| then deadline else |replies|];
      && (outcome.Resolved? <==> AnyAnswered(taken))
      && (outcome.Resolved? ==> outcome.result == Reduced(Collected(taken)))
      && (outcome.NoResolvers? <==> replies == [])
      && (outcome.DeadlineExceeded? <==> deadline < |replies| && !AnyAnswered(taken))
      && (outcome.AllFailed? ==> replies != [] && replies[0] == Failed(outcome.error))
  {
    if |replies| == 0 {
      return NoResolvers;
    }
    var allRecords: seq<RR> := [];
    var firstErr: Option<Text> := None;
    var ok := 0;
    for i := 0 to |replies|
      invariant i <= deadline
      invariant allRecords == Collected(replies[..i])
      invariant ok > 0 <==> AnyAnswered(replies[..i])
      invariant firstErr.Some? <==> exists j | 0 <= j < i :: replies[j].Failed?
      invariant i > 0 && replies[0].Failed? ==> firstErr == Some(replies[0].error)
    {
      if i == deadline {
        if ok > 0 {
          var merged := Reduce(allRecords);
          return Resolved(merged);
        }
        return DeadlineExceeded;
      }
      assert replies[..i + 1][..i] == replies[..i];
      match replies[i]
      case Failed(error) =>
        if firstErr == None {
          firstErr := Some(error);
        }
        assert forall j | 0 <= j <= i && replies[j].Answered? :: replies[..i][j].Answered?;
      case Answered(result) =>
        ok := ok + 1;
        allRecords := allRecords + result.records;
        assert replies[..i + 1][i].Answered?;
    }
    assert replies[..|replies|] == replies;
    if ok > 0 {
      var merged := Reduce(allRecords);
      return Resolved(merged);
    }
    assert !replies[0].Answered?;
    return AllFailed(firstErr.value);
  }

  lemma {:induction false} CollectedFrom(replies: seq<Reply>, r: RR)
    ensures r in Collected(replies) <==> exists o | o in replies :: o.Answered? && r in o.result.records
  {
    if replies != [] {
      var n := |replies| - 1;
      CollectedFrom(replies[..n], r);
      assert replies == replies[..n] + [replies[n]];
    }
  }

  // The order in which the resolvers answer decides neither success, nor which
  // records are returned, nor any TTL.
  lemma FanOutIgnoresOrder(a: seq<Reply>, b: seq<Reply>)
    requires multiset(a) == multiset(b)
    ensures AnyAnswered(a) <==> AnyAnswered(b)
    ensures var x, y := Reduced(Collected(a)), Reduced(Collected(b));
      && KeyTtl(x.records) == KeyTtl(y.records)
      && Distinct(x.records) && Distinct(y.records) && |x.records| == |y.records|
      && x.ttl == y.ttl
  {
    assert forall o :: o in a <==> o in multiset(a);
    assert forall o :: o in b <==> o in multiset(b);
    AnsweredMember(a);
    AnsweredMember(b);
    forall r
      ensures r in Collected(a) <==> r in Collected(b)
    {
      CollectedFrom(a, r);
      CollectedFrom(b, r);
    }
    ReduceIgnoresOrder(Collected(a), Collected(b));
  }

  lemma AnsweredMember(replies: seq<Reply>)
    ensures AnyAnswered(replies) <==> exists o | o in replies :: o.Answered?
  {
    if o :| o in replies && o.Answered? {
      var i :| 0 <= i < |replies| && replies[i] == o;
    }
  }
}
