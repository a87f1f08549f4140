// The two-layer cache: a volatile hot map over a persistent bucket.
module LayeredCache {
  import opened GoText
  import opened DnsTypes
  import opened CacheKeys
  import opened ByteOrder

  // How entries are written in the bucket.
  datatype Codec = Codec(encode: Entry -> seq<byte>, decode: seq<byte> -> Option<Entry>)

  ghost predicate Faithful(codec: Codec) {
    forall e :: codec.decode(codec.encode(e)) == Some(e)
  }

  type Bucket = map<Text, seq<byte>>

  function Lookup(codec: Codec, disk: Bucket, k: Text): Option<Entry> {
    if k in disk then codec.decode(disk[k]) else None
  }

  // The entries that can be read back from the bucket.
  function Contents(codec: Codec, disk: Bucket): map<Text, Entry> {
    map k | k in disk && codec.decode(disk[k]).Some? :: codec.decode(disk[k]).value
  }

  lemma SameContents(codec: Codec, a: Bucket, b: Bucket)
    requires a.Keys == b.Keys && forall k | k in b :: codec.decode(b[k]) == codec.decode(a[k])
    ensures Contents(codec, a) == Contents(codec, b)
  {
  }

  datatype CacheItem = CacheItem(domain: Text, qtype: u16, entry: Entry)

  // ---------- reading a key back ----------

  function DigitRun(t: Text): Text {
    if t == [] || t[0] < 48 || t[0] > 57 then [] else [t[0]] + DigitRun(t[1..])
  }

  // The blanks a scan skips; it does not skip the end of a line.
  function SkipBlanks(t: Text): Text {
    if t != [] && t[0] in {9, 11, 12, 13, 32} then SkipBlanks(t[1..]) else t
  }

  lemma {:induction false} DigitRunIsDigits(t: Text)
    ensures AllDigits(DigitRun(t))
    ensures AllDigits(t) ==> DigitRun(t) == t
  {
    if t != [] {
      DigitRunIsDigits(t[1..]);
    }
  }

  // The decimal number that begins a text, as a 16-bit unsigned scan takes it.
  function ScanU16(t: Text): Option<u16> {
    DigitRunIsDigits(SkipBlanks(t));
    var run := DigitRun(SkipBlanks(t));
    if run == [] || DecimalValue(run) >= 0x1_0000 then None else Some(DecimalValue(run))
  }

  ghost predicate Blanks(t: Text) {
    forall i | 0 <= i < |t| :: t[i] in {9, 11, 12, 13, 32}
  }

  // A text that consists of blanks, a run of digits that ends there, and a rest.
  ghost predicate NumberAt(t: Text, i: nat, j: nat) {
    && i < j <= |t| && Blanks(t[..i]) && AllDigits(t[i..j])
    && (j < |t| ==> t[j] < 48 || 57 < t[j])
  }

  lemma {:induction false} BlanksSkipped(t: Text) returns (i: nat)
    ensures i <= |t| && SkipBlanks(t) == t[i..] && Blanks(t[..i])
    ensures i < |t| ==> t[i] !in {9, 11, 12, 13, 32}
  {
    if t != [] && t[0] in {9, 11, 12, 13, 32} {
      var j := BlanksSkipped(t[1..]);
      i := j + 1;
      assert t[..i] == [t[0]] + t[1..][..j];
    } else {
      i := 0;
    }
  }

  lemma {:induction false} DigitsTaken(t: Text)
    ensures var n := |DigitRun(t)|;
      n <= |t| && DigitRun(t) == t[..n] && AllDigits(t[..n]) && (n < |t| ==> t[n] < 48 || 57 < t[n])
  {
    if t != [] && 48 <= t[0] <= 57 {
      DigitsTaken(t[1..]);
      var m := |DigitRun(t[1..])|;
      assert t[..m + 1] == [t[0]] + t[1..][..m];
    }
  }

  // Exactly such texts are scanned, if the number has 16 bits.
  lemma ScanExact(t: Text, n: u16)
    ensures ScanU16(t) == Some(n) <==> exists i: nat, j: nat :: NumberAt(t, i, j) && DecimalValue(t[i..j]) == n
  {
    var i := BlanksSkipped(t);
    var rest := t[i..];
    DigitsTaken(rest);
    var m := |DigitRun(rest)|;
    assert rest[..m] == t[i..i + m];
    hide SkipBlanks, DigitRun;
    if m > 0 {
      assert NumberAt(t, i, i + m);
    }
    assert i + m < |t| ==> rest[m] == t[i + m];
    forall k: nat, j: nat | NumberAt(t, k, j) ensures k == i && j == i + m {
      assert t[k] == t[k..j][0];
      OneStart(t, i, k);
      OneStop(t, i, i + m, j);
    }
  }

  lemma OneStart(t: Text, i: nat, k: nat)
    requires i <= |t| && k < |t| && Blanks(t[..i]) && Blanks(t[..k])
    requires t[k] !in {9, 11, 12, 13, 32} && (i < |t| ==> t[i] !in {9, 11, 12, 13, 32})
    ensures i == k
  {
    assert forall x | 0 <= x < i :: t[x] == t[..i][x];
    assert forall x | 0 <= x < k :: t[x] == t[..k][x];
  }

  lemma OneStop(t: Text, i: nat, a: nat, b: nat)
    requires i <= a <= |t| && i <= b <= |t| && AllDigits(t[i..a]) && AllDigits(t[i..b])
    requires (a < |t| ==> t[a] < 48 || 57 < t[a]) && (b < |t| ==> t[b] < 48 || 57 < t[b])
    ensures a == b
  {
    assert forall x | i <= x < a :: t[x] == t[i..a][x - i];
    assert forall x | i <= x < b :: t[x] == t[i..b][x - i];
  }

  // The position of the first bar, or the length.
  function BarAt(t: Text): (i: nat)
    ensures i <= |t|
    ensures i < |t| ==> t[i] == PIPE
    ensures forall j | 0 <= j < i :: t[j] != PIPE
  {
    if t == [] || t[0] == PIPE then 0 else 1 + BarAt(t[1..])
  }

  function ItemOf(codec: Codec, k: Text, data: seq<byte>): Option<CacheItem> {
    var bar := BarAt(k);
    if bar == |k| then None
    else
      match (ScanU16(k[bar + 1..]), codec.decode(data))
      case (Some(qtype), Some(entry)) => Some(CacheItem(k[..bar], qtype, entry))
      case _ => None
  }

  lemma {:induction false} DigitRunStops(t: Text, rest: Text)
    ensures DigitRun(t + [PIPE] + rest) == DigitRun(t)
  {
    if t != [] {
      assert (t + [PIPE] + rest)[1..] == t[1..] + [PIPE] + rest;
      DigitRunStops(t[1..], rest);
    }
  }

  lemma {:induction false} SkipBlanksStops(t: Text, rest: Text)
    ensures SkipBlanks(t + [PIPE] + rest) == SkipBlanks(t) + [PIPE] + rest
  {
    if t != [] {
      assert (t + [PIPE] + rest)[1..] == t[1..] + [PIPE] + rest;
      SkipBlanksStops(t[1..], rest);
    }
  }

  lemma DecimalScans(n: u16)
    ensures ScanU16(Decimal(n)) == Some(n)
  {
    DecimalReads(n);
    DigitRunIsDigits(Decimal(n));
  }

  // How the entry of a pair is listed: a domain with a bar is taken for its part
  // before the bar, with a type scanned from what follows, or left out.
  function Shown(domain: Text, qtype: u16, entry: Entry): Option<CacheItem> {
    var bar := BarAt(domain);
    if bar == |domain| then Some(CacheItem(domain, qtype, entry))
    else
      match ScanU16(domain[bar + 1..])
      case Some(scanned) => Some(CacheItem(domain[..bar], scanned, entry))
      case None => None
  }

  lemma ItemOfKey(codec: Codec, domain: Text, qtype: u16, data: seq<byte>)
    requires codec.decode(data).Some?
    ensures ItemOf(codec, CacheKey(domain, qtype), data) == Shown(domain, qtype, codec.decode(data).value)
  {
    CacheKeyAt(domain, qtype);
    var k, bar, digits := CacheKey(domain, qtype), BarAt(domain), Decimal(qtype);
    assert k == domain + [PIPE] + digits;
    assert forall i | 0 <= i < |domain| :: k[i] == domain[i];
    assert BarAt(k) == bar;
    hide CacheKey, Decimal;
    if bar == |domain| {
      DecimalScans(qtype);
      assert k[..bar] == domain && k[bar + 1..] == digits;
    } else {
      var tail := domain[bar + 1..];
      assert k[..bar] == domain[..bar] && k[bar + 1..] == tail + [PIPE] + digits;
      SkipBlanksStops(tail, digits);
      DigitRunStops(SkipBlanks(tail), digits);
    }
  }

  function WithoutPrefix<T>(m: map<Text, T>, prefix: Text): map<Text, T> {
    map k | k in m && !HasPrefix(k, prefix) :: m[k]
  }

  lemma ContentsWithout(codec: Codec, disk: Bucket, prefix: Text)
    ensures Contents(codec, WithoutPrefix(disk, prefix)) == WithoutPrefix(Contents(codec, disk), prefix)
  {
    hide HasPrefix;
  }

  class Cache {
    const codec: Codec
    var disk: Bucket
    var hot: map<Text, Entry>
    var hits: nat
    var misses: nat
    var size: nat

    // The hot layer is contained in what the bucket says.
    ghost predicate Valid()
      reads this
    {
      && Faithful(codec)
      && (forall k | k in hot :: k in disk && codec.decode(disk[k]) == Some(hot[k]))
    }

    ghost function Map(): map<Text, Entry>
      reads this
    {
      Contents(codec, disk)
    }

    // New: open the bucket; nothing is hot, and the size is counted once.
    constructor (codec: Codec, disk: Bucket)
      requires Faithful(codec)
      ensures Valid() && this.codec == codec && this.disk == disk
      ensures hot == map[] && hits == 0 && misses == 0 && size == |disk|
    {
      this.codec := codec;
      this.disk := disk;
      this.hot := map[];
      this.hits, this.misses, this.size := 0, 0, |disk|;
    }

    method Get(domain: Text, qtype: u16) returns (found: Option<Entry>)
      requires Valid()
      modifies this`hot, this`hits, this`misses
      ensures Valid()
      ensures var k := CacheKey(domain, qtype);
        && found == (if k in Map() then Some(Map()[k]) else None)
        && hot == (if found.Some? then old(hot)[k := found.value] else old(hot))
      ensures hits == old(hits) + (if found.Some? then 1 else 0)
      ensures misses == old(misses) + (if found.None? then 1 else 0)
    {
      var k := CacheKey(domain, qtype);
      if k in hot {
        hits := hits + 1;
        assert hot == hot[k := hot[k]];
        return Some(hot[k]);
      }
      var entry := Lookup(codec, disk, k);
      if entry.Some? {
        hot := hot[k := entry.value];
        hits := hits + 1;
        return entry;
      }
      misses := misses + 1;
      return None;
    }

    method Set(domain: Text, qtype: u16, entry: Entry)
      requires Valid()
      modifies this`hot, this`disk
      ensures Valid()
      ensures Map() == old(Map())[CacheKey(domain, qtype) := entry]
      ensures hot == old(hot)[CacheKey(domain, qtype) := entry]
      ensures disk == old(disk)[CacheKey(domain, qtype) := codec.encode(entry)]
    {
      var k := CacheKey(domain, qtype);
      hot := hot[k := entry];
      var data := codec.encode(entry);
      disk := disk[k := data];
    }

    // Del: drop the keys of the prefix from the hot layer, then from the bucket,
    // walking it in key order from the first key that is not before the prefix.
    method Del(domain: Text)
      requires Valid()
      modifies this`hot, this`disk
      ensures Valid()
      ensures hot == WithoutPrefix(old(hot), DomainPrefix(domain))
      ensures disk == WithoutPrefix(old(disk), DomainPrefix(domain))
      ensures Map() == WithoutPrefix(old(Map()), DomainPrefix(domain))
    {
      hide HasPrefix, DomainPrefix, Contents;
      var prefix := DomainPrefix(domain);
      var remaining := hot.Keys;
      while remaining != {}
        invariant remaining <= old(hot).Keys
        invariant hot == map k | k in old(hot) && (k in remaining || !HasPrefix(k, prefix)) :: old(hot)[k]
        invariant disk == old(disk)
        decreases |remaining|
      {
        var k :| k in remaining;
        remaining := remaining - {k};
        if HasPrefix(k, prefix) {
          hot := hot - {k};
        }
      }
      DelFromBucket(prefix);
      ContentsWithout(codec, old(disk), prefix);
    }

    method DelFromBucket(prefix: Text)
      modifies this`disk
      ensures disk == WithoutPrefix(old(disk), prefix)
    {
      var k := Seek(disk.Keys, prefix);
      forall t | t in disk && HasPrefix(t, prefix) ensures !Less(t, prefix) {
        PrefixNotAfter(prefix, t);
      }
      while k.Some? && HasPrefix(k.value, prefix)
        invariant forall t | t in disk :: t in old(disk) && disk[t] == old(disk)[t]
        invariant forall t | t in old(disk) && !HasPrefix(t, prefix) :: t in disk
        invariant forall t | t in disk && HasPrefix(t, prefix) :: k.Some? && (t == k.value || Less(k.value, t))
        invariant k.Some? ==> k.value in disk && !Less(k.value, prefix)
        decreases |disk|
      {
        var current := k.value;
        disk := disk - {current};
        k := Next(disk.Keys, current);
        if k.Some? && Less(k.value, prefix) {
          LessTransitive(current, k.value, prefix);
        }
      }
      forall t | t in disk ensures !HasPrefix(t, prefix) {
        if HasPrefix(t, prefix) {
          PrefixContiguous(prefix, k.value, t);
        }
      }
      assert disk.Keys == WithoutPrefix(old(disk), prefix).Keys;
    }

    // Close: write every hot entry to the bucket once more, and hand it back.
    method Close() returns (file: Bucket)
      requires Valid()
      modifies this`disk
      ensures Valid()
      ensures file == disk && Map() == old(Map())
      ensures disk.Keys == old(disk.Keys)
      ensures forall k | k in disk :: codec.decode(disk[k]) == codec.decode(old(disk)[k])
    {
      hide Contents;
      var remaining := hot.Keys;
      while remaining != {}
        invariant remaining <= hot.Keys
        invariant Valid()
        invariant disk.Keys == old(disk.Keys)
        invariant forall k | k in disk :: codec.decode(disk[k]) == codec.decode(old(disk)[k])
        decreases |remaining|
      {
        var k :| k in remaining;
        remaining := remaining - {k};
        ghost var before := disk;
        disk := disk[k := codec.encode(hot[k])];
        assert codec.decode(disk[k]) == Some(hot[k]) == codec.decode(before[k]);
        assert disk.Keys == before.Keys;
      }
      SameContents(codec, old(disk), disk);
      file := disk;
    }

    // List: every entry of the bucket whose key and value can be read.
    method List() returns (items: seq<CacheItem>)
      ensures forall x :: x in items <==> exists k | k in disk :: ItemOf(codec, k, disk[k]) == Some(x)
      ensures |items| <= |disk|
    {
      items := [];
      var rest := disk.Keys;
      while rest != {}
        invariant rest <= disk.Keys
        invariant forall x :: x in items <==> exists k | k in disk.Keys - rest :: ItemOf(codec, k, disk[k]) == Some(x)
        invariant |items| + |rest| <= |disk|
        decreases |rest|
      {
        var k := Least(rest);
        var item := ItemOf(codec, k, disk[k]);
        ghost var before := items;
        if item.Some? {
          items := items + [item.value];
        }
        ghost var seen := disk.Keys - rest;
        rest := rest - {k};
        assert disk.Keys - rest == seen + {k};
        forall x ensures x in items <==> exists j | j in disk.Keys - rest :: ItemOf(codec, j, disk[j]) == Some(x) {
          if x in items && x !in before {
            assert ItemOf(codec, k, disk[k]) == Some(x);
          }
        }
      }
    }
  }
}
