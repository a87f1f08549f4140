// The values the DNS pipeline passes around, and the arithmetic of their TTLs.
module DnsTypes {
  import opened GoText

  const TYPE_A: u16 := 1
  const TYPE_CNAME: u16 := 5
  const TYPE_SOA: u16 := 6
  const TYPE_AAAA: u16 := 28
  const CLASS_IN: u16 := 1
  const MINIMUM_TTL: u32 := 300
  const NO_TTL: u32 := 0xFFFF_FFFF
  const RCODE_SERVFAIL := 2
  const RCODE_NXDOMAIN := 3

  datatype RR = RR(name: Text, rtype: u16, rclass: u16, ttl: u32, rdata: Text)

  datatype Query = Query(id: u16, domain: Text, qtype: u16, packet: seq<byte>)

  datatype Result = Result(records: seq<RR>, ttl: u32, nxdomain: bool)

  // ---------- the smallest non-zero TTL ----------

  function LeastPositive(records: seq<RR>, least: u32): u32 {
    if records == [] then least
    else
      var ttl := records[0].ttl;
      LeastPositive(records[1..], if 0 < ttl < least then ttl else least)
  }

  function OrDefault(least: u32): u32 {
    if least == NO_TTL then MINIMUM_TTL else least
  }

  function MinTTL(records: seq<RR>): u32 {
    OrDefault(LeastPositive(records, NO_TTL))
  }

  method MinTTLFrom(records: seq<RR>) returns (ttl: u32)
    ensures ttl == MinTTL(records)
  {
    if |records| == 0 {
      return MINIMUM_TTL;
    }
    var least := NO_TTL;
    for i := 0 to |records|
      invariant LeastPositive(records[i..], least) == LeastPositive(records, NO_TTL)
    {
      assert records[i..][1..] == records[i + 1..];
      if records[i].ttl > 0 && records[i].ttl < least {
        least := records[i].ttl;
      }
    }
    if least == NO_TTL {
      return MINIMUM_TTL;
    }
    return least;
  }

  // least is the bound itself or a positive TTL that occurs, and no positive
  // TTL is below it.
  ghost predicate IsLeastPositive(records: seq<RR>, bound: u32, least: u32) {
    && least <= bound
    && (least == bound || exists i | 0 <= i < |records| :: records[i].ttl == least && least > 0)
    && (forall i | 0 <= i < |records| && records[i].ttl > 0 :: least <= records[i].ttl)
  }

  lemma {:induction false} LeastPositiveIsLeast(records: seq<RR>, bound: u32)
    ensures IsLeastPositive(records, bound, LeastPositive(records, bound))
  {
    if records != [] {
      var ttl := records[0].ttl;
      var rest := records[1..];
      LeastPositiveIsLeast(rest, if 0 < ttl < bound then ttl else bound);
      assert forall i | 1 <= i < |records| :: records[i] == rest[i - 1];
      var least := LeastPositive(records, bound);
      if least != bound && least != ttl {
        var j :| 0 <= j < |rest| && rest[j].ttl == least && least > 0;
        assert records[j + 1].ttl == least;
      }
    }
  }

  // The reported TTL is the default exactly when no record has a TTL strictly
  // between zero and the largest value; otherwise it is the least of those.
  lemma MinTTLMeaning(records: seq<RR>)
    ensures MinTTL(records) > 0
    ensures (forall i | 0 <= i < |records| :: records[i].ttl in {0, NO_TTL}) ==> MinTTL(records) == MINIMUM_TTL
    ensures (exists i | 0 <= i < |records| :: records[i].ttl !in {0, NO_TTL}) ==>
              && (exists i | 0 <= i < |records| :: records[i].ttl == MinTTL(records))
              && (forall i | 0 <= i < |records| && records[i].ttl > 0 :: MinTTL(records) <= records[i].ttl)
  {
    LeastPositiveIsLeast(records, NO_TTL);
  }

  // ---------- remaining TTL of a cached entry ----------

  // The clock is a parameter. The conversion to 32 bits keeps the low 32 bits.
  function TTLRemaining(expireAt: int, now: int): u32 {
    var remaining := expireAt - now;
    if remaining < MINIMUM_TTL then MINIMUM_TTL else remaining % 0x1_0000_0000
  }
}
