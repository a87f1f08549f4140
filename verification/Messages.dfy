// Whole DNS messages: parsing queries and responses, building queries and
// replies (sections 4.1.1 and 4.1.2 of RFC 1035).
module Messages {
  import opened GoText
  import opened DnsTypes
  import opened Names
  import opened IpText
  import opened Records

  datatype ParseError =
    | TooShort
    | NoQuestion
    | BadQuestionName(error: NameError)
    | QuestionTruncated
    | ErrorCode(rcode: int)

  datatype Parsed<+T> = Ok(value: T) | Err(error: ParseError)

  // ---------- queries ----------

  function ParseQuery(packet: seq<byte>): Parsed<Query> {
    if |packet| < 12 then Err(TooShort)
    else if U16At(packet, 4) == 0 then Err(NoQuestion)
    else
      match UnpackName(packet, 12, true)
      case BadName(e) => Err(BadQuestionName(e))
      case Name(domain, offset) =>
        if offset + 4 > |packet| then Err(QuestionTruncated)
        else Ok(Query(U16At(packet, 0), domain, U16At(packet, offset), packet))
  }

  // Where the question of a packet ends; 12 stands for "cannot tell".
  function QuestionEnd(packet: seq<byte>): (end: nat)
    ensures |packet| >= 12 ==> 12 <= end <= |packet|
  {
    if |packet| < 12 then 12
    else
      match UnpackName(packet, 12, true)
      case BadName(_) => 12
      case Name(_, offset) => if offset + 4 > |packet| then offset else offset + 4
  }

  function SkipQuestion(packet: seq<byte>, start: nat): Parsed<nat> {
    match UnpackName(packet, start, true)
    case BadName(e) => Err(BadQuestionName(e))
    case Name(_, offset) => if offset + 4 > |packet| then Err(QuestionTruncated) else Ok(offset + 4)
  }

  // ---------- responses ----------

  function Kept(section: Section): seq<RR> {
    if section.ok then section.records else []
  }

  // A section that fails gives no records, and the next one starts where the
  // failure was found.
  function ReadSections(v6: V6, packet: seq<byte>, counts: seq<nat>, offset: nat): seq<RR>
    decreases |counts|
  {
    if counts == [] then []
    else
      var section := UnpackSection(v6, packet, counts[0], offset);
      Kept(section) + ReadSections(v6, packet, counts[1..], section.end)
  }

  function Counts(packet: seq<byte>): seq<nat>
    requires |packet| >= 12
  {
    [U16At(packet, 6), U16At(packet, 8), U16At(packet, 10)]
  }

  function ParseResponse(v6: V6, packet: seq<byte>): Parsed<Result> {
    if |packet| < 12 then Err(TooShort)
    else
      var rcode := U16At(packet, 2) % 16;
      if rcode != 0 && rcode != RCODE_NXDOMAIN then Err(ErrorCode(rcode))
      else
        match SkipQuestion(packet, 12)
        case Err(e) => Err(e)
        case Ok(start) =>
          var records := ReadSections(v6, packet, Counts(packet), start);
          if rcode == RCODE_NXDOMAIN && records == [] then Ok(Result([], 0, true))
          else Ok(Result(records, MinTTL(records), false))
  }

  lemma SectionsUnroll(v6: V6, packet: seq<byte>, counts: seq<nat>, i: nat, offset: nat)
    requires i < |counts|
    ensures var section := UnpackSection(v6, packet, counts[i], offset);
      ReadSections(v6, packet, counts[i..], offset)
        == Kept(section) + ReadSections(v6, packet, counts[i + 1..], section.end)
  {
    assert counts[i..][1..] == counts[i + 1..];
  }

  method ParseResponseLoop(v6: V6, packet: seq<byte>) returns (r: Parsed<Result>)
    ensures r == ParseResponse(v6, packet)
  {
    hide UnpackSection, UnpackName, MinTTL, ReadSections;
    if |packet| < 12 {
      return Err(TooShort);
    }
    var flags := U16At(packet, 2);
    var rcode := flags % 16;
    if rcode != 0 && rcode != RCODE_NXDOMAIN {
      return Err(ErrorCode(rcode));
    }
    var skipped := SkipQuestion(packet, 12);
    if skipped.Err? {
      return Err(skipped.error);
    }
    var counts := Counts(packet);
    var records := ReadAll(v6, packet, counts, skipped.value);
    if rcode == RCODE_NXDOMAIN && |records| == 0 {
      return Ok(Result([], 0, true));
    }
    var ttl := MinTTLFrom(records);
    return Ok(Result(records, ttl, false));
  }

  // The loop over the answer, authority and additional counts.
  method ReadAll(v6: V6, packet: seq<byte>, counts: seq<nat>, start: nat) returns (records: seq<RR>)
    ensures records == ReadSections(v6, packet, counts, start)
  {
    hide UnpackSection, ReadSections;
    var qEndOffset := start;
    records := [];
    for i := 0 to |counts|
      invariant records + ReadSections(v6, packet, counts[i..], qEndOffset) == ReadSections(v6, packet, counts, start)
    {
      var section := UnpackRRSection(v6, packet, counts[i], qEndOffset);
      SectionsUnroll(v6, packet, counts, i, qEndOffset);
      ConcatAssoc(records, Kept(section), ReadSections(v6, packet, counts[i + 1..], section.end));
      qEndOffset := section.end;
      if section.ok {
        records := records + section.records;
      }
    }
    NoSections(v6, packet, qEndOffset);
    assert counts[|counts|..] == [] && records + [] == records;
  }

  lemma NoSections(v6: V6, packet: seq<byte>, offset: nat)
    ensures ReadSections(v6, packet, [], offset) == []
  {
  }

  lemma {:induction false} SectionsBound(v6: V6, packet: seq<byte>, counts: seq<nat>, offset: nat)
    requires offset <= |packet|
    ensures var records := ReadSections(v6, packet, counts, offset);
      && offset + 11 * |records| <= |packet|
      && (forall rr | rr in records :: Presentable(rr))
    decreases |counts|
  {
    if counts != [] {
      SectionBound(v6, packet, counts[0], offset);
      SectionsBound(v6, packet, counts[1..], UnpackSection(v6, packet, counts[0], offset).end);
    }
  }

  // Whatever the packet claims, a parsed response holds only address, CNAME and
  // SOA records with text, and at least 11 bytes of packet for each, after the
  // 17 that the header and the shortest question take.
  lemma ResponseBound(v6: V6, packet: seq<byte>)
    requires ParseResponse(v6, packet).Ok?
    ensures var r := ParseResponse(v6, packet).value;
      && 11 * |r.records| <= |packet| - 17
      && (forall rr | rr in r.records :: Presentable(rr))
      && (r.nxdomain ==> r.records == [])
  {
    hide UnpackName;
    SectionsBound(v6, packet, Counts(packet), SkipQuestion(packet, 12).value);
  }

  // ---------- building replies ----------

  const FLAG_QR := 0x8000
  const FLAG_RD := 0x0100
  const FLAG_RA := 0x0080

  function Header(id: u16, flags: u16, answers: u16): (h: seq<byte>)
    ensures |h| == 12
  {
    EncodeU16(id) + EncodeU16(flags) + EncodeU16(1) + EncodeU16(answers) + [0, 0, 0, 0]
  }

  function AnswerCount(r: Result): u16 {
    if r.nxdomain then 0 else |r.records| % 0x1_0000
  }

  function Question(q: Query): seq<byte>
    requires |q.packet| >= 12
  {
    q.packet[12..QuestionEnd(q.packet)]
  }

  function ResponseBytes(v6: V6, q: Query, r: Result): seq<byte>
    requires |q.packet| >= 12
  {
    Header(q.id, FLAG_QR + FLAG_RD + FLAG_RA, AnswerCount(r)) + Question(q) + Answers(v6, r.records)
  }

  function ErrorBytes(q: Query, rcode: int): seq<byte>
    requires |q.packet| >= 12
  {
    Header(q.id, FLAG_QR + FLAG_RD + FLAG_RA + rcode % 16, 0) + Question(q)
  }

  // binary.BigEndian.PutUint16 into a slice of a header.
  method PutU16(b: array<byte>, at: nat, v: u16)
    requires at + 2 <= b.Length
    modifies b
    ensures b[..] == old(b[..at]) + EncodeU16(v) + old(b[at + 2..])
  {
    b[at] := v / 0x100;
    b[at + 1] := v % 0x100;
  }

  method PutHeader(id: u16, flags: u16, answers: u16) returns (header: seq<byte>)
    ensures header == Header(id, flags, answers)
  {
    var b := new byte[12](_ => 0);
    assert b[..] == seq(12, _ => 0);
    PutU16(b, 0, id);
    assert b[2..] == seq(10, _ => 0);
    PutU16(b, 2, flags);
    assert b[..4] == EncodeU16(id) + EncodeU16(flags) && b[4..] == seq(8, _ => 0);
    PutU16(b, 4, 1);
    assert b[..6] == EncodeU16(id) + EncodeU16(flags) + EncodeU16(1) && b[6..] == seq(6, _ => 0);
    PutU16(b, 6, answers);
    assert b[8..] == [0, 0, 0, 0];
    header := b[..];
  }

  method BuildResponse(v6: V6, q: Query, r: Result) returns (buf: seq<byte>)
    requires |q.packet| >= 12
    ensures buf == ResponseBytes(v6, q, r)
  {
    hide EncodeRData, Header;
    buf := PutHeader(q.id, FLAG_QR + FLAG_RD + FLAG_RA, AnswerCount(r));
    buf := buf + q.packet[12..QuestionEnd(q.packet)];
    ghost var head := buf;
    ghost var all := Answers(v6, r.records);
    ghost var written: seq<byte> := [];
    for i := 0 to |r.records|
      invariant buf == head + written && written + Answers(v6, r.records[i..]) == all
    {
      var rec := r.records[i];
      assert r.records[i..][1..] == r.records[i + 1..];
      var rDataBytes := EncodeRData(v6, rec.rtype, rec.rdata);
      var entry := QUESTION_POINTER;
      entry := entry + EncodeU16(rec.rtype);
      entry := entry + EncodeU16(rec.rclass);
      entry := entry + EncodeU32(rec.ttl);
      entry := entry + EncodeU16(|rDataBytes| % 0x1_0000);
      entry := entry + rDataBytes;
      assert entry == Answer(v6, rec);
      ConcatAssoc(written, entry, Answers(v6, r.records[i + 1..]));
      ConcatAssoc(head, written, entry);
      buf := buf + entry;
      written := written + entry;
    }
  }

  method BuildErrorResponse(q: Query, rcode: int) returns (buf: seq<byte>)
    requires |q.packet| >= 12
    ensures buf == ErrorBytes(q, rcode)
  {
    hide Header;
    buf := PutHeader(q.id, FLAG_QR + FLAG_RD + FLAG_RA + rcode % 16, 0);
    buf := buf + q.packet[12..QuestionEnd(q.packet)];
  }

  // ---------- building queries ----------

  function QueryBytes(domain: Text, qtype: u16, id: u16): seq<byte> {
    Header(id, FLAG_RD, 0) + (DomainWire(domain) + [0]) + (EncodeU16(qtype) + EncodeU16(CLASS_IN))
  }

  method BuildQuery(domain: Text, qtype: u16) returns (packet: array<byte>)
    ensures fresh(packet) && packet[..] == QueryBytes(domain, qtype, 0)
  {
    hide Header;
    var buf := PutHeader(0, FLAG_RD, 0);
    var name := EncodeDomainName(domain);
    buf := buf + (name + [0]) + (EncodeU16(qtype) + EncodeU16(CLASS_IN));
    packet := new byte[|buf|](i requires 0 <= i < |buf| => buf[i]);
    assert packet[..] == buf;
  }

  method BuildQueryWithID(domain: Text, qtype: u16, id: u16) returns (packet: array<byte>)
    ensures fresh(packet) && packet[..] == QueryBytes(domain, qtype, id)
  {
    hide Header, EncodeU16, DomainWire;
    packet := BuildQuery(domain, qtype);
    ghost var before, rest := packet[..], DomainWire(domain) + [0] + (EncodeU16(qtype) + EncodeU16(CLASS_IN));
    PutU16(packet, 0, id);
    HeaderId(id, rest);
    ConcatAssoc(Header(0, FLAG_RD, 0), DomainWire(domain) + [0], EncodeU16(qtype) + EncodeU16(CLASS_IN));
    ConcatAssoc(Header(id, FLAG_RD, 0), DomainWire(domain) + [0], EncodeU16(qtype) + EncodeU16(CLASS_IN));
    assert before[..0] == [];
    assert [] + EncodeU16(id) == EncodeU16(id);
  }

  lemma HeaderId(id: u16, rest: seq<byte>)
    ensures EncodeU16(id) + (Header(0, FLAG_RD, 0) + rest)[2..] == Header(id, FLAG_RD, 0) + rest
  {
    var zero, h := Header(0, FLAG_RD, 0), Header(id, FLAG_RD, 0);
    assert (zero + rest)[2..] == zero[2..] + rest;
    assert zero[2..] == h[2..] && EncodeU16(id) + h[2..] == h;
  }
}
