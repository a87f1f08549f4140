// The wire format told byte by byte, after sections 4.1.1 to 4.1.4 of RFC 1035
// and section 2.2 of RFC 3596, and what the codec makes of it. Type codes, flags
// and the other numbers are written out here, as the standard gives them.
module WireFormat {
  import opened GoText
  import opened DnsTypes
  import opened Names
  import opened IpText
  import opened Records
  import opened Messages

  // ---------- integers, most significant byte first ----------

  ghost predicate Bytes16(p: seq<byte>, i: int, v: u16) {
    0 <= i && i + 2 <= |p| && p[i] == v / 256 && p[i + 1] == v % 256
  }

  ghost predicate Bytes32(p: seq<byte>, i: int, v: u32) {
    && 0 <= i && i + 4 <= |p|
    && p[i] == v / 16777216 && p[i + 1] == v / 65536 % 256 && p[i + 2] == v / 256 % 256 && p[i + 3] == v % 256
  }

  lemma Read16(p: seq<byte>, i: nat, v: u16)
    requires i + 2 <= |p|
    ensures U16At(p, i) == v <==> Bytes16(p, i, v)
  {
  }

  lemma Read32(p: seq<byte>, i: nat, v: u32)
    requires Bytes32(p, i, v)
    ensures U32At(p, i) == v
  {
    FourBytes(v);
    Read16(p, i, v / 65536);
    Read16(p, i + 2, v % 65536);
  }

  // ---------- records ----------

  // A record on the wire: the labels of its owner, where its fixed fields begin,
  // those fields, the size of its data, and the labels of the name that is its
  // data, if it is an alias.
  datatype WireRecord = WireRecord(
    owner: seq<Text>, at: nat, rtype: u16, rclass: u16, ttl: u32, size: u16, alias: seq<Text>)
  {
    function Data(): nat {
      at + 10
    }

    function End(): nat {
      at + 10 + size
    }
  }

  ghost predicate RecordAt(packet: seq<byte>, offset: nat, w: WireRecord) {
    && WellFormed(packet, offset, offset, w.owner, w.at)
    && Bytes16(packet, w.at, w.rtype) && Bytes16(packet, w.at + 2, w.rclass)
    && Bytes32(packet, w.at + 4, w.ttl) && Bytes16(packet, w.at + 8, w.size)
    && w.End() <= |packet|
    && (w.rtype == 5 ==> WellFormed(packet, w.Data(), w.Data(), w.alias, w.End()))
  }

  // The text of 16 address bytes: a quad for the IPv4 addresses among them.
  function SixteenText(v6: V6, b: seq<byte>): Text
    requires |b| == 16
  {
    if b[..12] == [0, 0, 0, 0, 0, 0, 0, 0, 0, 0, 255, 255] then QuadText(b[12..]) else v6.format(b)
  }

  // The text a record shows, empty if it shows none: an address, the name that an
  // alias stands for, and a fixed text for a start of authority.
  function ShownText(v6: V6, packet: seq<byte>, w: WireRecord): Text
    requires w.End() <= |packet|
  {
    var data := packet[w.Data()..w.End()];
    if w.rtype == 1 && w.size == 4 then QuadText(data)
    else if w.rtype == 28 && w.size == 16 then SixteenText(v6, data)
    else if w.rtype == 5 then Join(w.alias)
    else if w.rtype == 6 then [51, 48, 48]
    else []
  }

  lemma SixteenPrinted(v6: V6, b: seq<byte>)
    requires |b| == 16
    ensures FormatIP(v6, b) == SixteenText(v6, b)
  {
    if b[..12] == [0, 0, 0, 0, 0, 0, 0, 0, 0, 0, 255, 255] {
      QuadIsPrinted(v6, b[12..]);
    }
  }

  // An alias is read, compressed or not: the joined labels of the name that is its
  // data.
  lemma AliasIsRead(v6: V6, packet: seq<byte>, at: nat, size: nat, labels: seq<Text>)
    requires at + size <= |packet| && WellFormed(packet, at, at, labels, at + size)
    ensures ParseRData(v6, packet, 5, packet[at..at + size], at) == Join(labels)
  {
    PlainOnWellFormed(packet, at, size, 0, [], labels);
    assert [] + labels == labels;
    Decompression(packet, at, labels, at + size);
    WellFormedEnds(packet, at, at, labels, at + size);
    hide WellFormed, ReadPlain, UnpackName;
  }

  lemma SoaIsThreeHundred()
    ensures SoaText() == [51, 48, 48]
  {
    assert Decimal(300) == Decimal(30) + [48];
    assert Decimal(30) == Decimal(3) + [48];
  }

  lemma DataIsShown(v6: V6, packet: seq<byte>, offset: nat, w: WireRecord)
    requires RecordAt(packet, offset, w)
    ensures ParseRData(v6, packet, w.rtype, packet[w.Data()..w.End()], w.Data()) == ShownText(v6, packet, w)
  {
    hide WellFormed, QuadText, SixteenText, FormatIP, UncompressedName, UnpackName, SoaText;
    var data := packet[w.Data()..w.End()];
    if w.rtype == 1 && w.size == 4 {
      QuadIsPrinted(v6, data);
    } else if w.rtype == 28 && w.size == 16 {
      SixteenPrinted(v6, data);
    } else if w.rtype == 5 {
      AliasIsRead(v6, packet, w.Data(), w.size, w.alias);
    } else if w.rtype == 6 {
      SoaIsThreeHundred();
    }
  }

  // A record is read with its owner, type, class and TTL, and the text it shows;
  // without such a text it is passed over.
  lemma RecordIsRead(v6: V6, packet: seq<byte>, offset: nat, w: WireRecord)
    requires RecordAt(packet, offset, w)
    ensures var text := ShownText(v6, packet, w);
      UnpackRR(v6, packet, offset)
        == Read(if text != [] then Some(RR(Join(w.owner), w.rtype, w.rclass, w.ttl, text)) else None, w.End())
  {
    Decompression(packet, offset, w.owner, w.at);
    WellFormedEnds(packet, offset, offset, w.owner, w.at);
    DataIsShown(v6, packet, offset, w);
    Read16(packet, w.at, w.rtype);
    Read16(packet, w.at + 2, w.rclass);
    Read32(packet, w.at + 4, w.ttl);
    Read16(packet, w.at + 8, w.size);
    hide WellFormed, UnpackName, ParseRData, ShownText, U16At, U32At, Bytes16, Bytes32;
  }

  // ---------- sections ----------

  function SectionEnd(offset: nat, ws: seq<WireRecord>): nat {
    if ws == [] then offset else ws[|ws| - 1].End()
  }

  // Each record begins where the one before it ends.
  ghost predicate SectionAt(packet: seq<byte>, offset: nat, ws: seq<WireRecord>)
    decreases |ws|
  {
    ws == [] || (RecordAt(packet, offset, ws[0]) && SectionAt(packet, ws[0].End(), ws[1..]))
  }

  function Presented(v6: V6, packet: seq<byte>, ws: seq<WireRecord>): seq<RR>
    decreases |ws|
  {
    if ws == [] then []
    else
      var w := ws[0];
      var text := if w.End() <= |packet| then ShownText(v6, packet, w) else [];
      (if text != [] then [RR(Join(w.owner), w.rtype, w.rclass, w.ttl, text)] else []) + Presented(v6, packet, ws[1..])
  }

  lemma {:induction false} SectionIsRead(v6: V6, packet: seq<byte>, offset: nat, ws: seq<WireRecord>)
    requires SectionAt(packet, offset, ws)
    ensures UnpackSection(v6, packet, |ws|, offset) == Section(Presented(v6, packet, ws), SectionEnd(offset, ws), true)
    decreases |ws|
  {
    hide RecordAt, UnpackRR, ShownText, UnpackSection;
    SectionUnroll(v6, packet, |ws|, offset);
    if ws != [] {
      RecordIsRead(v6, packet, offset, ws[0]);
      RecordFits(packet, offset, ws[0]);
      SectionIsRead(v6, packet, ws[0].End(), ws[1..]);
      assert |ws| > 1 ==> ws[1..][|ws[1..]| - 1] == ws[|ws| - 1];
    }
  }

  lemma RecordFits(packet: seq<byte>, offset: nat, w: WireRecord)
    requires RecordAt(packet, offset, w)
    ensures w.End() <= |packet|
  {
  }

  // ---------- responses ----------

  // The labels asked for, where the question ends, and the records of the three
  // sections.
  datatype Layout = Layout(
    question: seq<Text>, start: nat, answers: seq<WireRecord>, authority: seq<WireRecord>, additional: seq<WireRecord>)
  {
    function Second(): nat {
      SectionEnd(start, answers)
    }

    function Third(): nat {
      SectionEnd(Second(), authority)
    }
  }

  ghost predicate ResponseAt(packet: seq<byte>, l: Layout) {
    && 12 <= |packet| && |l.answers| < 65536 && |l.authority| < 65536 && |l.additional| < 65536
    && Bytes16(packet, 6, |l.answers|) && Bytes16(packet, 8, |l.authority|) && Bytes16(packet, 10, |l.additional|)
    && QuestionNameAt(packet, 12, l.start - 4, l.question) && l.start <= |packet|
    && SectionAt(packet, l.start, l.answers)
    && SectionAt(packet, l.Second(), l.authority)
    && SectionAt(packet, l.Third(), l.additional)
  }

  function AllPresented(v6: V6, packet: seq<byte>, l: Layout): seq<RR> {
    Presented(v6, packet, l.answers) + Presented(v6, packet, l.authority) + Presented(v6, packet, l.additional)
  }

  lemma SectionsAreRead(v6: V6, packet: seq<byte>, l: Layout)
    requires ResponseAt(packet, l)
    ensures ReadSections(v6, packet, Counts(packet), l.start) == AllPresented(v6, packet, l)
  {
    hide SectionAt, UnpackSection, Presented, U16At, QuestionNameAt, SectionEnd, Bytes16, ReadSections;
    SectionIsRead(v6, packet, l.start, l.answers);
    SectionIsRead(v6, packet, l.Second(), l.authority);
    SectionIsRead(v6, packet, l.Third(), l.additional);
    Read16(packet, 6, |l.answers|);
    Read16(packet, 8, |l.authority|);
    Read16(packet, 10, |l.additional|);
    ThreeSections(v6, packet, |l.answers|, |l.authority|, |l.additional|, l.start);
    ConcatAssoc(Presented(v6, packet, l.answers), Presented(v6, packet, l.authority), Presented(v6, packet, l.additional));
  }

  lemma ThreeSections(v6: V6, packet: seq<byte>, a: nat, b: nat, c: nat, start: nat)
    ensures var s := UnpackSection(v6, packet, a, start);
      var t := UnpackSection(v6, packet, b, s.end);
      var u := UnpackSection(v6, packet, c, t.end);
      ReadSections(v6, packet, [a, b, c], start) == Kept(s) + (Kept(t) + Kept(u))
  {
    hide UnpackSection, Kept;
    var s := UnpackSection(v6, packet, a, start);
    var t := UnpackSection(v6, packet, b, s.end);
    var u := UnpackSection(v6, packet, c, t.end);
    assert [a, b, c][1..] == [b, c] && [b, c][1..] == [c] && [c][1..] == [];
    assert ReadSections(v6, packet, [c], t.end) == Kept(u) + [];
    assert ReadSections(v6, packet, [b, c], s.end) == Kept(t) + Kept(u);
  }

  // Every well-formed response is read right: all its records that show a text,
  // section after section, with what the response code says of them.
  lemma ResponseIsRead(v6: V6, packet: seq<byte>, l: Layout)
    requires ResponseAt(packet, l)
    ensures var rcode, records := packet[3] % 16, AllPresented(v6, packet, l);
      ParseResponse(v6, packet)
        == if rcode == 0 || (rcode == 3 && records != []) then Ok(Result(records, MinTTL(records), false))
           else if rcode == 3 then Ok(Result([], 0, true))
           else Err(ErrorCode(rcode))
  {
    hide ResponseAt, ReadSections, SkipQuestion, AllPresented, MinTTL, Counts, U16At;
    SectionsAreRead(v6, packet, l);
    QuestionIsSkipped(packet, l);
    CodeIsRead(packet);
  }

  lemma QuestionIsSkipped(packet: seq<byte>, l: Layout)
    requires ResponseAt(packet, l)
    ensures |packet| >= 12 && SkipQuestion(packet, 12) == Ok(l.start)
  {
    hide UnpackName, SectionAt, QuestionNameAt, Bytes16;
    QuestionNameRead(packet, 12, l.start - 4, l.question);
  }

  lemma HasHeader(packet: seq<byte>, l: Layout)
    requires ResponseAt(packet, l)
    ensures |packet| >= 12
  {
  }

  lemma CodeIsRead(packet: seq<byte>)
    requires |packet| >= 12
    ensures U16At(packet, 2) % 16 == packet[3] % 16
  {
  }

  // A section that says more records than the packet has is read to the end of
  // the packet in vain.
  lemma {:induction false} SectionIsCut(v6: V6, packet: seq<byte>, offset: nat, ws: seq<WireRecord>, count: nat)
    requires SectionAt(packet, offset, ws) && SectionEnd(offset, ws) == |packet| && |ws| < count
    ensures var s := UnpackSection(v6, packet, count, offset); s.end == |packet| && !s.ok
    decreases |ws|
  {
    hide RecordAt, ShownText, UnpackSection;
    SectionUnroll(v6, packet, count, offset);
    if ws != [] {
      RecordIsRead(v6, packet, offset, ws[0]);
      hide UnpackRR;
      assert |ws| > 1 ==> ws[1..][|ws[1..]| - 1] == ws[|ws| - 1];
      SectionIsCut(v6, packet, ws[0].End(), ws[1..], count - 1);
    }
  }

  lemma NothingAtEnd(v6: V6, packet: seq<byte>, count: nat)
    ensures var s := UnpackSection(v6, packet, count, |packet|); s.end == |packet| && Kept(s) == []
  {
    SectionUnroll(v6, packet, count, |packet|);
  }

  // A response that is cut off behind one of its answers yields none of them.
  lemma CutResponseIsEmpty(v6: V6, packet: seq<byte>, l: Layout, answers: u16)
    requires 12 <= |packet| && Bytes16(packet, 6, answers) && |l.answers| < answers && packet[3] % 16 == 0
    requires QuestionNameAt(packet, 12, l.start - 4, l.question) && l.start <= |packet|
    requires SectionAt(packet, l.start, l.answers) && SectionEnd(l.start, l.answers) == |packet|
    ensures ParseResponse(v6, packet) == Ok(Result([], 300, false))
  {
    hide UnpackName, SectionAt, QuestionNameAt, Bytes16, UnpackSection, ReadSections, U16At, SectionEnd;
    QuestionNameRead(packet, 12, l.start - 4, l.question);
    CodeIsRead(packet);
    Read16(packet, 6, answers);
    var second, third := U16At(packet, 8), U16At(packet, 10);
    SectionIsCut(v6, packet, l.start, l.answers, answers);
    NothingAtEnd(v6, packet, second);
    NothingAtEnd(v6, packet, third);
    ThreeSections(v6, packet, answers, second, third, l.start);
    assert Counts(packet) == [answers, second, third];
  }

  // Packets without a header, and with other response codes, are refused.
  lemma ResponseIsRefused(v6: V6, packet: seq<byte>)
    ensures |packet| < 12 ==> ParseResponse(v6, packet) == Err(TooShort)
    ensures |packet| >= 12 && packet[3] % 16 !in {0, 3} ==>
              ParseResponse(v6, packet) == Err(ErrorCode(packet[3] % 16))
  {
    hide ReadSections, SkipQuestion, U16At;
    if |packet| >= 12 {
      CodeIsRead(packet);
    }
  }

  // ---------- queries ----------

  // The exact set of packets taken as queries, and what is taken from them: the
  // identity, and the name and type of the first question.
  lemma QueryExact(packet: seq<byte>, id: u16, domain: Text, qtype: u16)
    ensures ParseQuery(packet) == Ok(Query(id, domain, qtype, packet)) <==>
              && |packet| >= 12 && Bytes16(packet, 0, id) && !(packet[4] == 0 && packet[5] == 0)
              && exists labels: seq<Text>, end ::
                   && QuestionNameAt(packet, 12, end, labels) && domain == Join(labels)
                   && end + 4 <= |packet| && Bytes16(packet, end, qtype)
  {
    hide UnpackName, QuestionNameAt, Join;
    if |packet| >= 12 {
      Read16(packet, 0, id);
      Read16(packet, 4, 0);
      var r := UnpackName(packet, 12, true);
      if r.Name? {
        var found := QuestionNameFound(packet, 12);
        if r.end + 4 <= |packet| {
          Read16(packet, r.end, qtype);
        }
      }
      forall labels: seq<Text>, end | QuestionNameAt(packet, 12, end, labels)
        ensures r == Name(Join(labels), end)
      {
        QuestionNameRead(packet, 12, end, labels);
      }
    }
  }

  // Where the question ends: behind the type and class of the name that lies
  // there, or behind the name if the packet has no room for them; without a name,
  // at its beginning.
  lemma QuestionEndExact(packet: seq<byte>)
    ensures forall end, labels: seq<Text> | |packet| >= 12 && QuestionNameAt(packet, 12, end, labels) ::
              QuestionEnd(packet) == if end + 4 > |packet| then end else end + 4
    ensures (|packet| < 12 || forall end, labels: seq<Text> :: !QuestionNameAt(packet, 12, end, labels)) ==>
              QuestionEnd(packet) == 12
  {
    hide UnpackName, QuestionNameAt;
    forall end, labels: seq<Text> | |packet| >= 12 && QuestionNameAt(packet, 12, end, labels)
      ensures UnpackName(packet, 12, true) == Name(Join(labels), end)
    {
      QuestionNameRead(packet, 12, end, labels);
    }
    if |packet| >= 12 && UnpackName(packet, 12, true).Name? {
      var labels := QuestionNameFound(packet, 12);
    }
  }

  // The bytes of a built query: a recursive query with one question, for the
  // Internet class.
  lemma QueryWire(domain: Text, qtype: u16, id: u16)
    ensures QueryBytes(domain, qtype, id)
         == [id / 256, id % 256, 1, 0, 0, 1, 0, 0, 0, 0, 0, 0] + (DomainWire(domain) + [0])
            + [qtype / 256, qtype % 256, 0, 1]
  {
  }

  // ---------- replies ----------

  // The first twelve bytes of a reply with records: a response to a recursive
  // query, recursion available, no error; no answer is counted for a missing domain.
  lemma ResponseWire(v6: V6, q: Query, r: Result)
    requires |q.packet| >= 12
    ensures var n := if r.nxdomain then 0 else |r.records| % 65536;
      ResponseBytes(v6, q, r)
        == [q.id / 256, q.id % 256, 129, 128, 0, 1, n / 256, n % 256, 0, 0, 0, 0] + Question(q) + Answers(v6, r.records)
  {
    hide Answers, Question;
  }

  // The whole of an error reply.
  lemma ErrorWire(q: Query, rcode: nat)
    requires |q.packet| >= 12 && rcode < 16
    ensures ErrorBytes(q, rcode) == [q.id / 256, q.id % 256, 129, 128 + rcode, 0, 1, 0, 0, 0, 0, 0, 0] + Question(q)
  {
    hide Question;
  }

  // One answer: its owner is a pointer to the question.
  lemma AnswerWire(v6: V6, rr: RR)
    ensures var data := EncodeRData(v6, rr.rtype, rr.rdata);
      var n := |data| % 65536;
      Answer(v6, rr)
        == [192, 12, rr.rtype / 256, rr.rtype % 256, rr.rclass / 256, rr.rclass % 256,
            rr.ttl / 16777216, rr.ttl / 65536 % 256, rr.ttl / 256 % 256, rr.ttl % 256, n / 256, n % 256] + data
  {
    hide EncodeRData, EncodeU32;
    Written32(rr.ttl);
  }

  lemma Written32(v: u32)
    ensures EncodeU32(v) == [v / 16777216, v / 65536 % 256, v / 256 % 256, v % 256]
  {
    FourBytes(v);
    hide EncodeU16;
    assert EncodeU32(v) == EncodeU16(v / 65536) + EncodeU16(v % 65536);
    Written16(v / 65536);
    Written16(v % 65536);
  }

  lemma Written16(v: u16)
    ensures EncodeU16(v) == [v / 256, v % 256]
  {
  }

  // The upper and lower halves of a number have its four bytes.
  lemma FourBytes(v: u32)
    ensures v / 65536 / 256 == v / 16777216
    ensures v % 65536 / 256 == v / 256 % 256 && v % 65536 % 256 == v % 256
  {
    var hi, lo := v / 65536, v % 65536;
    var a, b, c, d := hi / 256, hi % 256, lo / 256, lo % 256;
    assert v == 16777216 * a + (65536 * b + 256 * c + d);
    assert v == 256 * (65536 * a + 256 * b + c) + d;
    assert 65536 * a + 256 * b + c == 256 * (256 * a + b) + c;
    ByConstants(v, a, 65536 * b + 256 * c + d, 65536 * a + 256 * b + c, d);
    ByConstants(65536 * a + 256 * b + c, 0, 65536 * a + 256 * b + c, 256 * a + b, c);
  }

  lemma ByConstants(v: nat, q: nat, r: nat, q': nat, r': nat)
    requires v == 16777216 * q + r && r < 16777216 && v == 256 * q' + r' && r' < 256
    ensures v / 16777216 == q && v / 256 == q' && v % 256 == r'
  {
  }

  // What the data of an answer encodes: the four bytes of a printed quad, or of
  // one that the IPv6 reader finds; the sixteen bytes of an address; a name; and
  // nothing for other texts and types.
  lemma DataWire(v6: V6, rtype: u16, t: Text)
    requires Lawful(v6)
    ensures var data, mapped := EncodeRData(v6, rtype, t), [0, 0, 0, 0, 0, 0, 0, 0, 0, 0, 255, 255];
      && (rtype == 1 ==>
            && |data| in {0, 4}
            && forall b: seq<byte> | |b| == 4 ::
                 data == b <==> t == QuadText(b) || (FirstOf(t, 58) && v6.parse(t) == Some(mapped + b)))
      && (rtype == 28 ==>
            && |data| in {0, 16}
            && forall b: seq<byte> | |b| == 16 ::
                 data == b <==> (b[..12] == mapped && t == QuadText(b[12..])) || (FirstOf(t, 58) && v6.parse(t) == Some(b)))
      && (rtype == 5 ==> data == DomainWire(t) + [0])
      && (rtype !in {1, 5, 28} ==> data == [])
  {
    if rtype in {1, 28} {
      AddressBytes(v6, rtype, t);
    }
  }

  lemma QuadNoColon(b: seq<byte>)
    requires |b| == 4
    ensures !FirstOf(QuadText(b), 58)
  {
    var t, n := QuadText(b), |OctetText(b[0])|;
    assert t[n] == 46;
    assert forall j | 0 <= j < n :: t[j] == OctetText(b[0])[j];
  }

  lemma AddressBytes(v6: V6, rtype: u16, t: Text)
    requires Lawful(v6) && rtype in {1, 28}
    ensures var data, mapped := EncodeRData(v6, rtype, t), [0, 0, 0, 0, 0, 0, 0, 0, 0, 0, 255, 255];
      && (rtype == 1 ==>
            && |data| in {0, 4}
            && forall b: seq<byte> | |b| == 4 ::
                 data == b <==> t == QuadText(b) || (FirstOf(t, 58) && v6.parse(t) == Some(mapped + b)))
      && (rtype == 28 ==>
            && |data| in {0, 16}
            && forall b: seq<byte> | |b| == 16 ::
                 data == b <==> (b[..12] == mapped && t == QuadText(b[12..])) || (FirstOf(t, 58) && v6.parse(t) == Some(b)))
  {
    var mapped: seq<byte> := [0, 0, 0, 0, 0, 0, 0, 0, 0, 0, 255, 255];
    AddressExact(v6, t);
    forall b: seq<byte> | |b| == 4 ensures !FirstOf(QuadText(b), 58) {
      QuadNoColon(b);
    }
    forall b: seq<byte> | |b| == 4 ensures (mapped + b)[..12] == mapped && (mapped + b)[12..] == b {
    }
    forall b: seq<byte> | |b| == 16 ensures b == b[..12] + b[12..] {
    }
    hide QuadText, FirstOf, ParseIP;
  }
}
