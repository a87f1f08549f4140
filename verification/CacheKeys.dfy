// Cache entries and the text keys under which the cache and the in-flight table
// file a (domain, query type) pair.
module CacheKeys {
  import opened GoText
  import opened DnsTypes

  datatype Entry = Entry(records: seq<RR>, ttl: u32, expireAt: int)

  // The same text serves as the key in the store and in the in-flight table.
  function CacheKey(domain: Text, qtype: u16): Text {
    domain + [PIPE] + Decimal(qtype)
  }

  // The prefix under which Del looks for a domain.
  function DomainPrefix(domain: Text): Text {
    domain + [PIPE]
  }

  lemma CacheKeyAt(domain: Text, qtype: u16)
    ensures var k := CacheKey(domain, qtype);
      && |k| == |domain| + 1 + |Decimal(qtype)|
      && k[..|domain|] == domain && k[|domain|] == PIPE == 124 && k[|domain| + 1..] == Decimal(qtype)
      && (forall i | |domain| < i < |k| :: k[i] != PIPE)
  {
  }

  // Different pairs have different keys, also for domains that contain a bar.
  lemma CacheKeyInjective(d1: Text, t1: u16, d2: Text, t2: u16)
    requires CacheKey(d1, t1) == CacheKey(d2, t2)
    ensures d1 == d2 && t1 == t2
  {
    CacheKeyAt(d1, t1);
    CacheKeyAt(d2, t2);
    assert |d1| == |d2|;
    DecimalReads(t1);
    DecimalReads(t2);
  }

  // A key falls under the prefix of a domain exactly when it is a key of that
  // domain, or of a longer one that continues it with a bar.
  lemma PrefixExact(domain: Text, other: Text, qtype: u16)
    ensures HasPrefix(CacheKey(other, qtype), DomainPrefix(domain))
       <==> other == domain || HasPrefix(other, DomainPrefix(domain))
  {
    CacheKeyAt(other, qtype);
    var k, p := CacheKey(other, qtype), DomainPrefix(domain);
    assert p[|domain|] == PIPE && p[..|domain|] == domain;
    if HasPrefix(k, p) {
      assert k[|domain|] == PIPE;
      assert |domain| <= |other|;
      if |domain| == |other| {
        assert k[..|domain|] == p[..|domain|];
      } else {
        assert k[..|p|] == k[..|other|][..|p|];
      }
    }
    if HasPrefix(other, p) {
      assert k[..|p|] == k[..|other|][..|p|];
    }
  }
}
