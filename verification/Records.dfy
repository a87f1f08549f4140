// Resource records on the wire (section 4.1.3 of RFC 1035).
module Records {
  import opened GoText
  import opened DnsTypes
  import opened Names
  import opened IpText

  // ---------- big-endian integers ----------

  function U16At(p: seq<byte>, i: nat): u16
    requires i + 2 <= |p|
  {
    var hi: int := p[i];
    hi * 0x100 + p[i + 1]
  }

  function U32At(p: seq<byte>, i: nat): u32
    requires i + 4 <= |p|
  {
    var hi: int := U16At(p, i);
    hi * 0x1_0000 + U16At(p, i + 2)
  }

  function EncodeU16(v: u16): (b: seq<byte>)
    ensures |b| == 2 && U16At(b, 0) == v
  {
    [v / 0x100, v % 0x100]
  }

  function EncodeU32(v: u32): (b: seq<byte>)
    ensures |b| == 4 && U32At(b, 0) == v
  {
    EncodeU16(v / 0x1_0000) + EncodeU16(v % 0x1_0000)
  }

  // ---------- RDATA ----------

  function SoaText(): Text {
    Decimal(MINIMUM_TTL)
  }

  function ParseRData(v6: V6, packet: seq<byte>, rtype: u16, data: seq<byte>, dataOffset: int): Text {
    if rtype == TYPE_A then
      if |data| == 4 then FormatIP(v6, data) else []
    else if rtype == TYPE_AAAA then
      if |data| == 16 then FormatIP(v6, data) else []
    else if rtype == TYPE_CNAME then
      var name := UncompressedName(data);
      if name != [] then name
      else if 0 <= dataOffset < |packet| then
        match UnpackName(packet, dataOffset, false)
        case Name(text, _) => text
        case BadName(_) => []
      else []
    else if rtype == TYPE_SOA then SoaText()
    else []
  }

  function EncodeRData(v6: V6, rtype: u16, rdata: Text): seq<byte> {
    if rtype == TYPE_A then
      match ParseIP(v6, rdata)
      case Some(ip) => if |ip| == 16 && To4(ip).Some? then To4(ip).value else []
      case None => []
    else if rtype == TYPE_AAAA then
      match ParseIP(v6, rdata) { case Some(ip) => ip case None => [] }
    else if rtype == TYPE_CNAME then DomainWire(rdata) + [0]
    else []
  }

  // ---------- reading one record, and a section of them ----------

  datatype RRStep = Bad(at: nat) | Read(record: Option<RR>, end: nat)

  function UnpackRR(v6: V6, packet: seq<byte>, offset: nat): (r: RRStep)
    ensures r.Bad? ==> offset <= r.at && (offset <= |packet| ==> r.at <= |packet|)
    ensures r.Read? ==> offset + 11 <= r.end <= |packet|
    ensures r.Read? && r.record.Some? ==> Presentable(r.record.value)
  {
    if offset >= |packet| then Bad(offset)
    else
      match UnpackName(packet, offset, false)
      case BadName(_) => Bad(offset)
      case Name(name, at) =>
        if at + 10 > |packet| then Bad(at)
        else
          var rdLen := U16At(packet, at + 8);
          if at + 10 + rdLen > |packet| then Bad(at + 10)
          else
            var rtype := U16At(packet, at);
            var rdata := ParseRData(v6, packet, rtype, packet[at + 10..at + 10 + rdLen], at + 10);
            var rr := RR(name, rtype, U16At(packet, at + 2), U32At(packet, at + 4), rdata);
            Read(if rdata != [] then Some(rr) else None, at + 10 + rdLen)
  }

  datatype Section = Section(records: seq<RR>, end: nat, ok: bool)

  function UnpackSection(v6: V6, packet: seq<byte>, count: nat, offset: nat): (s: Section)
    ensures s.end >= offset
  {
    if count == 0 then Section([], offset, true)
    else
      match UnpackRR(v6, packet, offset)
      case Bad(at) => Section([], at, false)
      case Read(record, end) =>
        Prepend(Optional(record), UnpackSection(v6, packet, count - 1, end))
  }

  function Prepend(records: seq<RR>, section: Section): Section {
    section.(records := records + section.records)
  }

  lemma PrependTwice(a: seq<RR>, b: seq<RR>, section: Section)
    ensures Prepend(a, Prepend(b, section)) == Prepend(a + b, section)
  {
    ConcatAssoc(a, b, section.records);
  }

  function Optional<T>(t: Option<T>): seq<T> {
    match t { case Some(x) => [x] case None => [] }
  }

  lemma SectionUnroll(v6: V6, packet: seq<byte>, count: nat, offset: nat)
    ensures UnpackSection(v6, packet, 0, offset) == Section([], offset, true)
    ensures count > 0 ==>
              match UnpackRR(v6, packet, offset)
              case Bad(at) => UnpackSection(v6, packet, count, offset) == Section([], at, false)
              case Read(record, end) =>
                UnpackSection(v6, packet, count, offset)
                  == Prepend(Optional(record), UnpackSection(v6, packet, count - 1, end))
  {
  }

  method UnpackRRSection(v6: V6, packet: seq<byte>, count: nat, start: nat) returns (section: Section)
    ensures section == UnpackSection(v6, packet, count, start)
  {
    hide UnpackSection, UnpackName, ParseRData;
    var records: seq<RR> := [];
    var offset: int := start;
    for i := 0 to count
      invariant offset >= 0
      invariant UnpackSection(v6, packet, count, start)
             == Prepend(records, UnpackSection(v6, packet, count - i, offset))
    {
      SectionUnroll(v6, packet, count - i, offset);
      if offset >= |packet| {
        return Section(records, offset, false);
      }
      var named := UnpackNameLoop(packet, offset, false);
      if named.BadName? {
        return Section(records, offset, false);
      }
      ghost var first := offset;
      offset := named.end;
      if offset + 10 > |packet| {
        return Section(records, offset, false);
      }
      var rtype := U16At(packet, offset);
      var rclass := U16At(packet, offset + 2);
      var ttl := U32At(packet, offset + 4);
      var rdLen := U16At(packet, offset + 8);
      offset := offset + 10;
      if offset + rdLen > |packet| {
        return Section(records, offset, false);
      }
      var rdata := ParseRData(v6, packet, rtype, packet[offset..offset + rdLen], offset);
      offset := offset + rdLen;
      ghost var before := records;
      if rdata != [] {
        records := records + [RR(named.text, rtype, rclass, ttl, rdata)];
      }
      ghost var step := UnpackRR(v6, packet, first);
      assert step.Read? && step.end == offset && records == before + Optional(step.record);
      PrependTwice(before, Optional(step.record), UnpackSection(v6, packet, count - i - 1, offset));
    }
    SectionUnroll(v6, packet, 0, offset);
    return Section(records, offset, true);
  }

  // ---------- what any section can yield ----------

  ghost predicate Presentable(rr: RR) {
    rr.rtype in {TYPE_A, TYPE_AAAA, TYPE_CNAME, TYPE_SOA} && rr.rdata != []
  }

  // Every record costs at least eleven bytes of its section, wherever the
  // section stops.
  lemma {:induction false} SectionBound(v6: V6, packet: seq<byte>, count: nat, offset: nat)
    requires offset <= |packet|
    ensures var s := UnpackSection(v6, packet, count, offset);
      && offset + 11 * |s.records| <= s.end <= |packet|
      && (forall rr | rr in s.records :: Presentable(rr))
  {
    hide UnpackRR;
    if count > 0 {
      var step := UnpackRR(v6, packet, offset);
      if step.Read? {
        SectionBound(v6, packet, count - 1, step.end);
      }
    }
  }

  // ---------- answers: records whose owner is a pointer ----------

  const QUESTION_POINTER: seq<byte> := [0xC0, 0x0C]

  function AnswerHead(rr: RR, rdLen: nat): seq<byte> {
    QUESTION_POINTER + EncodeU16(rr.rtype) + EncodeU16(rr.rclass) + EncodeU32(rr.ttl) + EncodeU16(rdLen % 0x1_0000)
  }

  function AnswerWith(rr: RR, data: seq<byte>): seq<byte> {
    AnswerHead(rr, |data|) + data
  }

  function Answer(v6: V6, rr: RR): seq<byte> {
    AnswerWith(rr, EncodeRData(v6, rr.rtype, rr.rdata))
  }

  function Answers(v6: V6, records: seq<RR>): seq<byte> {
    if records == [] then [] else Answer(v6, records[0]) + Answers(v6, records[1..])
  }

  lemma AnswerHeadFields(rr: RR, rdLen: nat)
    ensures var h := AnswerHead(rr, rdLen);
      && |h| == 12 && h[0] == 0xC0 && h[1] == 12
      && U16At(h, 2) == rr.rtype && U16At(h, 4) == rr.rclass
      && U32At(h, 6) == rr.ttl && U16At(h, 10) == rdLen % 0x1_0000
  {
  }

  // The fields of an answer that lies at an offset of a packet.
  lemma AnswerFields(packet: seq<byte>, offset: nat, rr: RR, data: seq<byte>)
    requires offset + 12 + |data| <= |packet|
    requires packet[offset..offset + 12 + |data|] == AnswerWith(rr, data)
    ensures packet[offset] == 0xC0 && packet[offset + 1] == 12
    ensures U16At(packet, offset + 2) == rr.rtype && U16At(packet, offset + 4) == rr.rclass
    ensures U32At(packet, offset + 6) == rr.ttl && U16At(packet, offset + 10) == |data| % 0x1_0000
    ensures packet[offset + 12..offset + 12 + |data|] == data
  {
    var head, size := AnswerHead(rr, |data|), 12 + |data|;
    AnswerHeadFields(rr, |data|);
    hide AnswerHead;
    assert forall k | 0 <= k < 12 :: packet[offset + k] == packet[offset..offset + size][k] == head[k];
    assert packet[offset + 0] == 0xC0 && packet[offset + 1] == 12;
    assert U16At(packet, offset + 2) == U16At(head, 2);
    assert U16At(packet, offset + 4) == U16At(head, 4);
    assert U32At(packet, offset + 6) == U32At(head, 6);
    assert U16At(packet, offset + 10) == U16At(head, 10);
    SliceOfSlice(packet, offset, offset + size, 12, size);
    assert packet[offset + 12..offset + size] == data;
  }

  lemma PointerName(packet: seq<byte>, offset: nat, target: nat)
    requires target < offset && offset + 1 < |packet|
    requires packet[offset] >= 192 && Pointer(packet[offset], packet[offset + 1]) == target
    requires UnpackName(packet, target, false).Name?
    ensures UnpackName(packet, offset, false) == Name(UnpackName(packet, target, false).text, offset + 2)
  {
    assert UnpackName(packet, offset, false) == ScanLabels(packet, offset, offset, [], false);
    var text := UnpackName(packet, target, false).text;
    assert [] + [text] == [text];
  }

  // An answer placed after the question is read with the question's name as its
  // owner, with its own type, class and TTL, and up to its last byte.
  lemma AnswerIsRead(v6: V6, packet: seq<byte>, offset: nat, rr: RR, data: seq<byte>, domain: Text)
    requires 12 < offset && offset + 12 + |data| <= |packet| && |data| < 0x1_0000
    requires packet[offset..offset + 12 + |data|] == AnswerWith(rr, data)
    requires UnpackName(packet, 12, false).Name? && UnpackName(packet, 12, false).text == domain
    ensures var text := ParseRData(v6, packet, rr.rtype, data, offset + 12);
      UnpackRR(v6, packet, offset)
        == Read(if text != [] then Some(rr.(name := domain, rdata := text)) else None, offset + 12 + |data|)
  {
    hide UnpackName, ParseRData, AnswerWith;
    AnswerFields(packet, offset, rr, data);
    PointerName(packet, offset, 12);
    UnpackFields(v6, packet, offset, rr, data, domain);
  }

  // Where the record ends depends on the low 16 bits of the length only.
  lemma AnswerEnds(v6: V6, packet: seq<byte>, offset: nat, rr: RR, data: seq<byte>)
    requires 12 < offset && offset + 12 + |data| <= |packet|
    requires packet[offset..offset + 12 + |data|] == AnswerWith(rr, data)
    requires UnpackName(packet, 12, false).Name?
    ensures var step := UnpackRR(v6, packet, offset);
      step.Read? && step.end == offset + 12 + |data| % 0x1_0000
  {
    hide UnpackRR, UnpackName, AnswerWith, U16At;
    AnswerFields(packet, offset, rr, data);
    PointerName(packet, offset, 12);
    RecordEnds(v6, packet, offset, |data| % 0x1_0000);
  }

  lemma RecordEnds(v6: V6, packet: seq<byte>, offset: nat, rdLen: nat)
    requires offset + 12 + rdLen <= |packet| && U16At(packet, offset + 10) == rdLen
    requires UnpackName(packet, offset, false).Name? && UnpackName(packet, offset, false).end == offset + 2
    ensures var step := UnpackRR(v6, packet, offset);
      step.Read? && step.end == offset + 12 + rdLen
  {
    hide UnpackName, ParseRData, U16At, U32At;
  }

  lemma UnpackFields(v6: V6, packet: seq<byte>, offset: nat, rr: RR, data: seq<byte>, domain: Text)
    requires offset + 12 + |data| <= |packet| && |data| < 0x1_0000
    requires UnpackName(packet, offset, false) == Name(domain, offset + 2)
    requires U16At(packet, offset + 2) == rr.rtype && U16At(packet, offset + 4) == rr.rclass
    requires U32At(packet, offset + 6) == rr.ttl && U16At(packet, offset + 10) == |data|
    requires packet[offset + 12..offset + 12 + |data|] == data
    ensures var text := ParseRData(v6, packet, rr.rtype, data, offset + 12);
      UnpackRR(v6, packet, offset)
        == Read(if text != [] then Some(rr.(name := domain, rdata := text)) else None, offset + 12 + |data|)
  {
    hide UnpackName, ParseRData, U16At, U32At;
  }
}
