// Which RDATA texts come back after being written into a reply: exactly the
// canonical ones.
module SurvivingData {
  import opened GoText
  import opened DnsTypes
  import opened Names
  import opened IpText
  import opened Records
  import opened RoundTrips

  // The text that reading gives: an address as it is printed, an alias whose
  // labels the RDATA reader takes, or the text of every SOA record.
  ghost predicate Canonical(v6: V6, rr: RR) {
    if rr.rtype == TYPE_A then exists b: seq<byte> :: |b| == 4 && rr.rdata == FormatIP(v6, b)
    else if rr.rtype == TYPE_AAAA then exists b: seq<byte> :: |b| == 16 && rr.rdata == FormatIP(v6, b)
    else if rr.rtype == TYPE_CNAME then Encodable(rr.rdata, 191)
    else rr.rtype == TYPE_SOA && rr.rdata == SoaText()
  }

  // ---------- the simple reader on encoded names ----------

  lemma {:induction false} PlainReadsWire(data: seq<byte>, offset: nat, parts: seq<Text>, labels: seq<Text>)
    requires offset + |Wire(labels)| < |data| && LabelsWithin(labels, 191)
    requires data[offset..offset + |Wire(labels)| + 1] == Wire(labels) + [0]
    ensures ReadPlain(data, offset, parts) == Join(parts + labels)
    decreases |labels|
  {
    hide Wire, Join, ReadPlain, LabelsWithin;
    if labels == [] {
      PlainStops(data, offset, parts);
      assert parts + labels == parts;
    } else {
      var first, rest := labels[0], labels[1..];
      LabelsTail(labels, 191);
      WireHead(data, offset, labels, [0]);
      PlainStep(data, offset, parts, first);
      PlainReadsWire(data, offset + 1 + |first|, parts + [first], rest);
      assert parts + [first] + rest == parts + labels;
    }
  }

  lemma PlainStops(data: seq<byte>, offset: nat, parts: seq<Text>)
    requires offset + |Wire([])| < |data| && data[offset..offset + |Wire([])| + 1] == Wire([]) + [0]
    ensures ReadPlain(data, offset, parts) == Join(parts)
  {
    assert data[offset] == data[offset..offset + 1][0];
  }

  lemma PlainStep(data: seq<byte>, offset: nat, parts: seq<Text>, first: Text)
    requires offset + 1 + |first| <= |data| && 1 <= |first| <= 191
    requires data[offset] == |first| && data[offset + 1..offset + 1 + |first|] == first
    ensures ReadPlain(data, offset, parts) == ReadPlain(data, offset + 1 + |first|, parts + [first])
  {
  }

  lemma UncompressedReadsWire(labels: seq<Text>)
    requires LabelsWithin(labels, 191)
    ensures UncompressedName(Wire(labels) + [0]) == Join(labels)
  {
    var data := Wire(labels) + [0];
    hide Wire, ReadPlain;
    assert data[0..|data|] == data && [] + labels == labels;
    PlainReadsWire(data, 0, [], labels);
  }

  // Conversely, a text that is read is the join of the labels that lie there.
  lemma {:induction false} PlainFindsWire(data: seq<byte>, offset: nat, parts: seq<Text>)
      returns (labels: seq<Text>, end: nat)
    requires offset <= |data| && ReadPlain(data, offset, parts) != []
    ensures ReadPlain(data, offset, parts) == Join(parts + labels) && LabelsWithin(labels, 191)
    ensures offset <= end <= |data|
    ensures data[offset..end] == Wire(labels) + [0] || (end == |data| && data[offset..] == Wire(labels))
    decreases |data| - offset
  {
    if offset == |data| || data[offset] == 0 {
      labels, end := [], if offset == |data| then offset else offset + 1;
      assert parts + labels == parts;
    } else {
      var next := offset + 1 + data[offset];
      var first := data[offset + 1..next];
      var rest;
      rest, end := PlainFindsWire(data, next, parts + [first]);
      labels := [first] + rest;
      WireCons(data, offset, next, rest, end);
      assert parts + [first] + rest == parts + labels;
    }
  }

  // An encoded name is read back by the simple reader, as a name that is not
  // empty, exactly when each of its labels has 1 to 191 bytes.
  lemma PlainTextExact(t: Text)
    ensures UncompressedName(DomainWire(t) + [0]) == t != [] <==> Encodable(t, 191)
  {
    hide Wire, UncompressedName, Split, Join, LabelsWithin;
    if t == [] {
      EmptyNotEncodable();
    } else if UncompressedName(DomainWire(t) + [0]) == t {
      ReadBackIsEncodable(t);
    }
    if Encodable(t, 191) {
      UncompressedReadsWire(Split(t));
      JoinSplit(t);
    }
  }

  lemma EmptyNotEncodable()
    ensures !Encodable([], 191)
  {
    assert Split([])[0] == [];
  }

  lemma ReadBackIsEncodable(t: Text)
    requires t != [] && UncompressedName(DomainWire(t) + [0]) == t
    ensures Encodable(t, 191)
  {
    var labels, data := Split(t), DomainWire(t) + [0];
    hide Wire, ReadPlain, Split, Join, LabelsWithin;
    JoinSplit(t);
    SplitIsDotFree(t);
    var found, end := PlainFindsWire(data, 0, []);
    assert [] + found == found && data[0..] == data;
    WireLength(found);
    WireLength(labels);
    assert data[..|data|] == data;
    SameFront(Wire(found), Wire(labels), [0]);
    SameWireSameText(found, labels);
  }

  // ---------- no reader gives a run of 192 bytes without a dot ----------

  ghost predicate ShortRuns(t: Text) {
    forall i | 0 <= i < |Split(t)| :: |Split(t)[i]| <= 191
  }

  lemma {:induction false} RunsWithin(t: Text)
    ensures forall i | 0 <= i < |Split(t)| :: |Split(t)[i]| <= |t|
  {
    if t != [] {
      RunsWithin(t[1..]);
    }
  }

  function Consed(c: byte, parts: seq<Text>): seq<Text>
    requires parts != []
  {
    if c == DOT then [[]] + parts else [[c] + parts[0]] + parts[1..]
  }

  lemma ConsedSum(c: byte, first: seq<Text>, second: seq<Text>)
    requires first != []
    ensures Consed(c, first + second) == Consed(c, first) + second
  {
    if c == DOT {
      ConcatAssoc([[]], first, second);
    } else {
      ConcatAssoc([[c] + first[0]], first[1..], second);
      assert (first + second)[0] == first[0] && (first + second)[1..] == first[1..] + second;
    }
  }

  lemma SplitIsConsed(c: byte, t: Text)
    ensures Split([c] + t) == Consed(c, Split(t))
  {
    assert ([c] + t)[1..] == t;
  }

  lemma {:induction false} SplitOfDotted(a: Text, b: Text)
    ensures Split(a + [DOT] + b) == Split(a) + Split(b)
  {
    if a == [] {
      SplitIsConsed(DOT, b);
      assert a + [DOT] + b == [DOT] + b;
    } else {
      var c, tail := a[0], a[1..];
      assert a == [c] + tail && a + [DOT] + b == [c] + (tail + [DOT] + b);
      hide Split, Consed;
      SplitOfDotted(tail, b);
      SplitIsConsed(c, tail + [DOT] + b);
      SplitIsConsed(c, tail);
      ConsedSum(c, Split(tail), Split(b));
    }
  }

  lemma {:induction false} JoinedRuns(parts: seq<Text>)
    requires forall i | 0 <= i < |parts| :: ShortRuns(parts[i])
    ensures ShortRuns(Join(parts))
  {
    if |parts| > 1 {
      JoinedRuns(parts[1..]);
      SplitOfDotted(parts[0], Join(parts[1..]));
    }
  }

  lemma {:induction false} NamesHaveShortRuns(packet: seq<byte>, start: int)
    ensures var r := UnpackName(packet, start, false); r.Name? ==> ShortRuns(r.text)
    decreases start, |packet| + 1
  {
    if 0 <= start < |packet| {
      ScansHaveShortRuns(packet, start, start, []);
    }
  }

  lemma {:induction false} ScansHaveShortRuns(packet: seq<byte>, start: int, offset: int, parts: seq<Text>)
    requires 0 <= start <= offset <= |packet|
    requires forall i | 0 <= i < |parts| :: ShortRuns(parts[i])
    ensures var r := ScanLabels(packet, start, offset, parts, false); r.Name? ==> ShortRuns(r.text)
    decreases start, |packet| - offset
  {
    hide ShortRuns;
    JoinedRuns(parts);
    if offset < |packet| {
      var length := packet[offset];
      if length >= 192 {
        if offset + 1 < |packet| && Pointer(length, packet[offset + 1]) < start {
          var target := UnpackName(packet, Pointer(length, packet[offset + 1]), false);
          NamesHaveShortRuns(packet, Pointer(length, packet[offset + 1]));
          if target.Name? {
            JoinedRuns(parts + [target.text]);
          }
        }
      } else if length != 0 && offset + 1 + length <= |packet| {
        var run := packet[offset + 1..offset + 1 + length];
        LabelIsShort(run);
        ScansHaveShortRuns(packet, start, offset + 1 + length, parts + [run]);
      }
    }
  }

  lemma LabelIsShort(run: Text)
    requires |run| <= 191
    ensures ShortRuns(run)
  {
    RunsWithin(run);
  }

  // ---------- aliases ----------

  lemma {:induction false} PlainKeepsText(data: seq<byte>, offset: nat, parts: seq<Text>, labels: seq<Text>)
    requires offset + |Wire(labels)| < |data| && parts != [] && parts[0] != []
    requires forall i | 0 <= i < |labels| :: |labels[i]| <= 191
    requires data[offset..offset + |Wire(labels)| + 1] == Wire(labels) + [0]
    ensures ReadPlain(data, offset, parts) != []
    decreases |labels|
  {
    JoinLength(parts);
    if labels == [] {
      assert data[offset] == data[offset..offset + 1][0];
    } else {
      WireHead(data, offset, labels, [0]);
      PlainKeepsText(data, offset + 1 + |labels[0]|, parts + [labels[0]], labels[1..]);
    }
  }

  // With short labels only, the simple reader gives up only on a name that
  // begins with an empty label.
  lemma GivesUpOnRoot(t: Text)
    requires t != [] && ShortRuns(t)
    requires UncompressedName(DomainWire(t) + [0]) == []
    ensures DomainWire(t)[0] == 0
  {
    var labels, data := Split(t), DomainWire(t) + [0];
    if labels[0] != [] {
      assert data[0..|data|] == data;
      WireHead(data, 0, labels, [0]);
      assert [] + [labels[0]] == [labels[0]];
      PlainKeepsText(data, 1 + |labels[0]|, [labels[0]], labels[1..]);
      assert false;
    }
  }

  lemma RootReadsEmpty(packet: seq<byte>, at: nat, data: seq<byte>)
    requires data != [] && data[0] == 0
    requires at + |data| <= |packet| && packet[at..at + |data|] == data
    ensures UnpackName(packet, at, false) == Name([], at + 1)
  {
    assert packet[at] == packet[at..at + |data|][0];
    assert UnpackName(packet, at, false) == ScanLabels(packet, at, at, [], false);
  }

  // An alias written at its place in a packet is read back from there exactly
  // when each of its labels has 1 to 191 bytes, whatever a pointer byte in it
  // may point to.
  lemma AliasExact(v6: V6, packet: seq<byte>, t: Text, at: nat)
    requires var data := DomainWire(t) + [0];
      at + |data| <= |packet| && packet[at..at + |data|] == data
    ensures ParseRData(v6, packet, TYPE_CNAME, DomainWire(t) + [0], at) == t != [] <==> Encodable(t, 191)
  {
    var data := DomainWire(t) + [0];
    if t != [] {
      PlainTextExact(t);
      if !Encodable(t, 191) && UncompressedName(data) == [] && UnpackName(packet, at, false).Name?
        && UnpackName(packet, at, false).text == t
      {
        NamesHaveShortRuns(packet, at);
        GivesUpOnRoot(t);
        RootReadsEmpty(packet, at, data);
        assert false;
      }
    } else {
      assert Split(t)[0] == [];
    }
  }

  // ---------- every kind of record ----------

  lemma AddressExact(v6: V6, packet: seq<byte>, rr: RR, at: int)
    requires Lawful(v6) && rr.rtype in {TYPE_A, TYPE_AAAA}
    ensures ParseRData(v6, packet, rr.rtype, EncodeRData(v6, rr.rtype, rr.rdata), at) == rr.rdata != []
       <==> Canonical(v6, rr)
  {
    if rr.rtype == TYPE_A {
      if b: seq<byte> :| |b| == 4 && rr.rdata == FormatIP(v6, b) {
        AddressReads(v6, b);
        assert (V4_PREFIX + b)[..12] == V4_PREFIX && (V4_PREFIX + b)[12..] == b;
      }
    } else {
      if b: seq<byte> :| |b| == 16 && rr.rdata == FormatIP(v6, b) {
        AddressReads(v6, b);
      }
    }
  }

  // Record data that lies where it was written is read back as it was exactly
  // when it is canonical.
  lemma SurvivesExactly(v6: V6, packet: seq<byte>, rr: RR, at: nat)
    requires Lawful(v6)
    requires var data := EncodeRData(v6, rr.rtype, rr.rdata);
      at + |data| <= |packet| && packet[at..at + |data|] == data
    ensures ParseRData(v6, packet, rr.rtype, EncodeRData(v6, rr.rtype, rr.rdata), at) == rr.rdata != []
       <==> Canonical(v6, rr)
  {
    if rr.rtype in {TYPE_A, TYPE_AAAA} {
      AddressExact(v6, packet, rr, at);
    } else if rr.rtype == TYPE_CNAME {
      AliasExact(v6, packet, rr.rdata, at);
    }
  }
}
