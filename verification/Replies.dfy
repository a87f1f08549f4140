// Replies read back: the framing of every reply, and the records that survive.
module Replies {
  import opened GoText
  import opened DnsTypes
  import opened Names
  import opened IpText
  import opened Records
  import opened Messages
  import opened RoundTrips
  import opened SurvivingData

  ghost predicate Accepted(q: Query) {
    ParseQuery(q.packet) == Ok(q)
  }

  lemma AcceptedQuestion(q: Query) returns (labels: seq<Text>)
    requires Accepted(q)
    ensures LabelsWithin(labels, 63) && q.domain == Join(labels)
    ensures |q.packet| >= 12
    ensures var w := Wire(labels) + [0];
      && 12 + |w| + 4 <= |q.packet| && q.packet[12..12 + |w|] == w
      && QuestionEnd(q.packet) == 12 + |w| + 4
  {
    labels := ScanFindsWire(q.packet, 12, 12, []);
    assert [] + labels == labels;
  }

  lemma NameReadsBothWays(packet: seq<byte>, start: nat, labels: seq<Text>)
    requires start + |Wire(labels)| < |packet| && LabelsWithin(labels, 63)
    requires packet[start..start + |Wire(labels)| + 1] == Wire(labels) + [0]
    ensures UnpackName(packet, start, true) == Name(Join(labels), start + |Wire(labels)| + 1)
    ensures UnpackName(packet, start, false) == UnpackName(packet, start, true)
  {
    assert [] + labels == labels;
    ScanReadsWire(packet, start, start, [], labels, true);
    ScanReadsWire(packet, start, start, [], labels, false);
  }

  // The question copied into a reply is read there as it was in the query, by
  // the question rules and by the answer rules.
  lemma QuestionCopied(q: Query, head: seq<byte>, tail: seq<byte>)
    requires Accepted(q) && |head| == 12
    ensures |q.packet| >= 12 && |Question(q)| >= 5
    ensures var reply := head + Question(q) + tail;
      && SkipQuestion(reply, 12) == Ok(12 + |Question(q)|)
      && UnpackName(reply, 12, false).Name? && UnpackName(reply, 12, false).text == q.domain
  {
    var labels := AcceptedQuestion(q);
    hide UnpackName, QuestionEnd, Accepted, Wire;
    var w := Wire(labels) + [0];
    var question := Question(q);
    assert question == q.packet[12..QuestionEnd(q.packet)];
    var reply := head + question + tail;
    SliceOfSlice(q.packet, 12, QuestionEnd(q.packet), 0, |w|);
    ConcatPieces(head, question, tail);
    SliceOfSlice(reply, 12, 12 + |question|, 0, |w|);
    assert reply[12..12 + |w|] == question[0..|w|] == w;
    NameReadsBothWays(reply, 12, labels);
  }

  // ---------- the answer section of a reply ----------

  // The length of each record's data can be told in 16 bits.
  ghost predicate SmallData(v6: V6, records: seq<RR>) {
    forall rr | rr in records :: |EncodeRData(v6, rr.rtype, rr.rdata)| < 0x1_0000
  }

  function Renamed(records: seq<RR>, domain: Text): (r: seq<RR>)
    ensures |r| == |records|
  {
    if records == [] then [] else [records[0].(name := domain)] + Renamed(records[1..], domain)
  }

  ghost predicate AllCanonical(v6: V6, records: seq<RR>) {
    forall rr | rr in records :: Canonical(v6, rr)
  }

  lemma {:induction false} RenamedTTL(records: seq<RR>, domain: Text, least: u32)
    ensures LeastPositive(Renamed(records, domain), least) == LeastPositive(records, least)
    decreases |records|
  {
    if records != [] {
      var ttl := records[0].ttl;
      RenamedTTL(records[1..], domain, if 0 < ttl < least then ttl else least);
      assert Renamed(records, domain)[1..] == Renamed(records[1..], domain);
    }
  }

  // What the first answer of a section is read as.
  function ReadBack(v6: V6, reply: seq<byte>, rr: RR, at: nat, domain: Text): (r: seq<RR>)
    ensures |r| <= 1
  {
    var text := ParseRData(v6, reply, rr.rtype, EncodeRData(v6, rr.rtype, rr.rdata), at);
    if text != [] then [rr.(name := domain, rdata := text)] else []
  }

  lemma AnswerStep(v6: V6, reply: seq<byte>, offset: nat, records: seq<RR>, n: nat, domain: Text)
    requires 12 < offset <= |reply| && reply[offset..] == Answers(v6, records)
    requires SmallData(v6, records) && records != [] && n > 0
    requires UnpackName(reply, 12, false).Name? && UnpackName(reply, 12, false).text == domain
    ensures var rr, rest := records[0], records[1..];
      var data := EncodeRData(v6, rr.rtype, rr.rdata);
      var next := offset + 12 + |data|;
      && next <= |reply| && reply[next..] == Answers(v6, rest) && reply[offset + 12..next] == data
      && UnpackSection(v6, reply, n, offset)
           == Prepend(ReadBack(v6, reply, rr, offset + 12, domain), UnpackSection(v6, reply, n - 1, next))
  {
    hide UnpackSection, UnpackRR, UnpackName, EncodeRData, ParseRData, AnswerHead;
    var rr, rest := records[0], records[1..];
    var data := EncodeRData(v6, rr.rtype, rr.rdata);
    AnswerHeadFields(rr, |data|);
    SplitTail(reply, offset, Answer(v6, rr), Answers(v6, rest));
    SmallRest(v6, records);
    hide Answers, SmallData;
    AnswerFields(reply, offset, rr, data);
    AnswerIsRead(v6, reply, offset, rr, data, domain);
    SectionUnroll(v6, reply, n, offset);
  }

  lemma SmallRest(v6: V6, records: seq<RR>)
    requires SmallData(v6, records) && records != []
    ensures |EncodeRData(v6, records[0].rtype, records[0].rdata)| < 0x1_0000 && SmallData(v6, records[1..])
  {
    hide EncodeRData;
    assert records[0] in records;
  }

  lemma {:induction false} AnswersLength(v6: V6, records: seq<RR>)
    ensures |Answers(v6, records)| >= 12 * |records|
  {
    hide EncodeRData;
    if records != [] {
      AnswersLength(v6, records[1..]);
    }
  }

  // As many answers as are asked for are read, to the exact end of the last of
  // them; all of them come back as they were exactly when all are canonical.
  lemma {:induction false} AnswersWalk(v6: V6, reply: seq<byte>, offset: nat, records: seq<RR>, n: nat, domain: Text)
    requires 12 < offset <= |reply| && reply[offset..] == Answers(v6, records)
    requires SmallData(v6, records) && n <= |records|
    requires UnpackName(reply, 12, false).Name? && UnpackName(reply, 12, false).text == domain
    ensures var s := UnpackSection(v6, reply, n, offset);
      && s.ok && s.end == |reply| - |Answers(v6, records[n..])| && |s.records| <= n
      && (Lawful(v6) && n == |records| ==> (s.records == Renamed(records, domain) <==> AllCanonical(v6, records)))
    decreases n
  {
    hide UnpackSection, UnpackName, EncodeRData, ParseRData, Canonical, Lawful, Answers, SmallData,
         AllCanonical, Renamed, ReadBack;
    if n == 0 {
      assert records[0..] == records;
      NoAnswers(v6, reply, offset, domain);
    } else {
      var rr, rest := records[0], records[1..];
      assert records[n..] == rest[n - 1..];
      SmallRest(v6, records);
      AnswerStep(v6, reply, offset, records, n, domain);
      var next := offset + 12 + |EncodeRData(v6, rr.rtype, rr.rdata)|;
      AnswersWalk(v6, reply, next, rest, n - 1, domain);
      if Lawful(v6) && n == |records| {
        SurvivesExactly(v6, reply, rr, offset + 12);
        FirstAndRest(v6, reply, records, offset + 12, domain, UnpackSection(v6, reply, n - 1, next).records);
      }
    }
  }

  lemma NoAnswers(v6: V6, reply: seq<byte>, offset: nat, domain: Text)
    ensures UnpackSection(v6, reply, 0, offset) == Section([], offset, true)
    ensures Renamed([], domain) == [] && AllCanonical(v6, [])
  {
    hide Canonical;
    SectionUnroll(v6, reply, 0, offset);
  }

  lemma FirstAndRest(v6: V6, reply: seq<byte>, records: seq<RR>, at: nat, domain: Text, later: seq<RR>)
    requires records != [] && |later| < |records|
    requires ParseRData(v6, reply, records[0].rtype, EncodeRData(v6, records[0].rtype, records[0].rdata), at)
               == records[0].rdata != []
         <==> Canonical(v6, records[0])
    requires later == Renamed(records[1..], domain) <==> AllCanonical(v6, records[1..])
    ensures var read := ReadBack(v6, reply, records[0], at, domain);
      read + later == Renamed(records, domain) <==> AllCanonical(v6, records)
  {
    hide Canonical, ParseRData, EncodeRData;
    assert AllCanonical(v6, records) <==> Canonical(v6, records[0]) && AllCanonical(v6, records[1..]);
    var read := ReadBack(v6, reply, records[0], at, domain);
    var back, first := Renamed(records, domain), records[0].(name := domain);
    assert back == [first] + Renamed(records[1..], domain);
    if read + later == back {
      assert |read| == 1;
      assert (read + later)[0] == back[0] == first;
      assert (read + later)[1..] == later && back[1..] == Renamed(records[1..], domain);
    }
  }

  lemma SplitTail<T>(s: seq<T>, offset: nat, a: seq<T>, b: seq<T>)
    requires offset <= |s| && s[offset..] == a + b
    ensures offset + |a| <= |s| && s[offset..offset + |a|] == a && s[offset + |a|..] == b
  {
    assert s[offset..][..|a|] == a && s[offset..][|a|..] == b;
  }

  // ---------- framing ----------

  // The reply has the identity and the question of the query packet, the answer
  // count, and no other section.
  ghost predicate Headed(packet: seq<byte>, reply: seq<byte>, flags: u16, count: u16) {
    && 12 <= |packet| && QuestionEnd(packet) <= |reply|
    && reply[0..2] == packet[0..2]
    && U16At(reply, 2) == flags && U16At(reply, 4) == 1 && U16At(reply, 6) == count
    && U16At(reply, 8) == 0 && U16At(reply, 10) == 0
    && reply[12..QuestionEnd(packet)] == packet[12..QuestionEnd(packet)]
    && SkipQuestion(reply, 12) == Ok(QuestionEnd(packet))
  }

  // The reply belongs to the query packet and is walked to its last byte.
  ghost predicate WellFramed(v6: V6, packet: seq<byte>, reply: seq<byte>) {
    && |reply| >= 12 && reply[2] >= 0x80
    && Headed(packet, reply, U16At(reply, 2), U16At(reply, 6))
    && (var answers := UnpackSection(v6, reply, U16At(reply, 6), QuestionEnd(packet));
        answers.ok && answers.end == |reply|)
  }

  lemma AcceptedFields(q: Query)
    requires Accepted(q)
    ensures |q.packet| >= 12 && U16At(q.packet, 0) == q.id
  {
    hide UnpackName;
  }

  lemma ReplyIsHeaded(q: Query, flags: u16, count: u16, tail: seq<byte>)
    requires Accepted(q)
    ensures |q.packet| >= 12
    ensures var reply, start := Header(q.id, flags, count) + Question(q) + tail, QuestionEnd(q.packet);
      && Headed(q.packet, reply, flags, count)
      && 12 < start == 12 + |Question(q)| <= |reply| && reply[start..] == tail
      && UnpackName(reply, 12, false).Name? && UnpackName(reply, 12, false).text == q.domain
  {
    AcceptedFields(q);
    var h, question := Header(q.id, flags, count), Question(q);
    HeaderFields(q.id, flags, count, question + tail);
    ConcatAssoc(h, question, tail);
    ConcatPieces(h, question, tail);
    QuestionCopied(q, h, tail);
    hide Header, UnpackName, QuestionEnd, SkipQuestion, Accepted;
    var reply := h + question + tail;
    assert reply[0] == q.packet[0] && reply[1] == q.packet[1] by {
      assert U16At(reply, 0) == U16At(q.packet, 0);
    }
  }

  // The answers of a reply, read from the end of its question.
  function AnswersRead(v6: V6, q: Query, r: Result): Section
    requires |q.packet| >= 12
  {
    UnpackSection(v6, ResponseBytes(v6, q, r), AnswerCount(r), QuestionEnd(q.packet))
  }

  lemma CountIsLess(r: Result)
    requires !r.nxdomain
    ensures AnswerCount(r) <= |r.records|
    ensures AnswerCount(r) == |r.records| <==> |r.records| < 0x1_0000
  {
  }

  lemma ResponseWalk(v6: V6, q: Query, r: Result)
    requires Accepted(q) && !r.nxdomain && SmallData(v6, r.records)
    ensures |q.packet| >= 12
    ensures Headed(q.packet, ResponseBytes(v6, q, r), FLAG_QR + FLAG_RD + FLAG_RA, AnswerCount(r))
    ensures var s, n := AnswersRead(v6, q, r), AnswerCount(r);
      && n <= |r.records| && s.ok && |s.records| <= n
      && s.end == |ResponseBytes(v6, q, r)| - |Answers(v6, r.records[n..])|
      && (Lawful(v6) && n == |r.records| ==> (s.records == Renamed(r.records, q.domain) <==> AllCanonical(v6, r.records)))
  {
    hide UnpackSection, UnpackName, EncodeRData, Header, Question, QuestionEnd, Answers, AllCanonical, Lawful,
         SmallData, Headed, Accepted, AnswerCount;
    CountIsLess(r);
    ReplyIsHeaded(q, FLAG_QR + FLAG_RD + FLAG_RA, AnswerCount(r), Answers(v6, r.records));
    AcceptedFields(q);
    AnswersWalk(v6, ResponseBytes(v6, q, r), QuestionEnd(q.packet), r.records, AnswerCount(r), q.domain);
  }

  // A reply with records is framed, with identity, question, and an answer count
  // whose records end exactly where the reply ends, if and only if the number of
  // its records can be told in 16 bits.
  lemma ResponseFraming(v6: V6, q: Query, r: Result)
    requires Accepted(q) && !r.nxdomain && SmallData(v6, r.records)
    ensures |q.packet| >= 12
    ensures WellFramed(v6, q.packet, ResponseBytes(v6, q, r)) <==> |r.records| < 0x1_0000
  {
    hide UnpackSection, Answers, Accepted, SmallData, ResponseBytes, SkipQuestion, QuestionEnd, AllCanonical, Lawful,
         AnswerCount, Headed, Renamed, Question;
    ResponseWalk(v6, q, r);
    CountIsLess(r);
    var n, reply := AnswerCount(r), ResponseBytes(v6, q, r);
    HeadedFields(q.packet, reply, FLAG_QR + FLAG_RD + FLAG_RA, n);
    AnswersLength(v6, r.records[n..]);
    NoMoreAnswers(v6);
    assert n == |r.records| ==> r.records[n..] == [];
  }

  lemma HeadedFields(packet: seq<byte>, reply: seq<byte>, flags: u16, count: u16)
    requires Headed(packet, reply, flags, count)
    ensures |reply| >= 12 && U16At(reply, 2) == flags && U16At(reply, 6) == count
    ensures reply[2] == flags / 0x100
  {
  }

  lemma NoMoreAnswers(v6: V6)
    ensures Answers(v6, []) == []
  {
  }

  // A single record whose data is too long to be told makes a reply that is not
  // framed: its walk ends in the middle of the data.
  lemma LongDataMisframes(v6: V6, q: Query, rr: RR, ttl: u32)
    requires Accepted(q) && |EncodeRData(v6, rr.rtype, rr.rdata)| >= 0x1_0000
    ensures |q.packet| >= 12
    ensures !WellFramed(v6, q.packet, ResponseBytes(v6, q, Result([rr], ttl, false)))
  {
    var r, data := Result([rr], ttl, false), EncodeRData(v6, rr.rtype, rr.rdata);
    assert Answers(v6, r.records) == AnswerWith(rr, data) by {
      assert r.records[1..] == [] && AnswerWith(rr, data) + [] == AnswerWith(rr, data);
    }
    AnswerHeadFields(rr, |data|);
    assert |AnswerWith(rr, data)| == 12 + |data|;
    hide EncodeRData, Header, Question, QuestionEnd, Answers, AnswerHead, AnswerWith, Headed, UnpackRR, UnpackName,
         UnpackSection, Accepted;
    AcceptedFields(q);
    ReplyIsHeaded(q, FLAG_QR + FLAG_RD + FLAG_RA, 1, AnswerWith(rr, data));
    var reply, start := ResponseBytes(v6, q, r), QuestionEnd(q.packet);
    HeadedFields(q.packet, reply, FLAG_QR + FLAG_RD + FLAG_RA, 1);
    assert reply[start..start + 12 + |data|] == reply[start..];
    AnswerEnds(v6, reply, start, rr, data);
    SectionUnroll(v6, reply, 1, start);
    SectionUnroll(v6, reply, 0, start + 12 + |data| % 0x1_0000);
  }

  // Every error reply is framed.
  lemma ErrorFraming(v6: V6, q: Query, rcode: int)
    requires Accepted(q)
    ensures |q.packet| >= 12
    ensures WellFramed(v6, q.packet, ErrorBytes(q, rcode))
  {
    hide UnpackRR, UnpackName, Header, Accepted, SkipQuestion, QuestionEnd, Question, Headed;
    var flags := FLAG_QR + FLAG_RD + FLAG_RA + rcode % 16;
    AcceptedFields(q);
    ReplyIsHeaded(q, flags, 0, []);
    assert ErrorBytes(q, rcode) == Header(q.id, flags, 0) + Question(q) + [];
    HeadedFields(q.packet, ErrorBytes(q, rcode), flags, 0);
  }

  // ---------- round trips ----------

  lemma ParsesAsOneSection(v6: V6, packet: seq<byte>, reply: seq<byte>, flags: u16, count: u16)
    requires Headed(packet, reply, flags, count)
    requires UnpackSection(v6, reply, count, QuestionEnd(packet)).ok
    ensures var rcode, records := flags % 16, UnpackSection(v6, reply, count, QuestionEnd(packet)).records;
      ParseResponse(v6, reply)
        == if rcode == 0 then Ok(Result(records, MinTTL(records), false))
           else if rcode != RCODE_NXDOMAIN then Err(ErrorCode(rcode))
           else if records == [] then Ok(Result([], 0, true))
           else Ok(Result(records, MinTTL(records), false))
  {
    OneSection(v6, reply, count, QuestionEnd(packet));
    hide UnpackSection, ReadSections, SkipQuestion, QuestionEnd, MinTTL;
  }

  lemma OneSection(v6: V6, packet: seq<byte>, count: nat, start: nat)
    requires UnpackSection(v6, packet, count, start).ok
    ensures ReadSections(v6, packet, [count, 0, 0], start) == UnpackSection(v6, packet, count, start).records
  {
    var s := UnpackSection(v6, packet, count, start);
    hide UnpackRR;
    assert [count, 0, 0][1..] == [0, 0] && [0, 0][1..] == [0];
    assert ReadSections(v6, packet, [0], s.end) == [];
    assert ReadSections(v6, packet, [0, 0], s.end) == [];
    assert ReadSections(v6, packet, [count, 0, 0], start) == s.records + [];
  }

  // A reply is parsed back to the same records, each in its place with its type,
  // class, TTL and data, under the question's name and with the TTL of the whole
  // recomputed, exactly when the data of every record is canonical and the number
  // of records can be told in 16 bits.
  lemma ResponseRoundTrip(v6: V6, q: Query, r: Result)
    requires Lawful(v6) && Accepted(q) && !r.nxdomain && SmallData(v6, r.records)
    ensures |q.packet| >= 12
    ensures ParseResponse(v6, ResponseBytes(v6, q, r))
              == Ok(Result(Renamed(r.records, q.domain), MinTTL(r.records), false))
       <==> AllCanonical(v6, r.records) && |r.records| < 0x1_0000
  {
    hide UnpackSection, Answers, Lawful, LeastPositive, AllCanonical, Accepted, SmallData, ResponseBytes,
         ParseResponse, Renamed, Headed, AnswerCount, QuestionEnd, Question;
    ResponseWalk(v6, q, r);
    CountIsLess(r);
    RenamedTTL(r.records, q.domain, NO_TTL);
    ParsesAsOneSection(v6, q.packet, ResponseBytes(v6, q, r), FLAG_QR + FLAG_RD + FLAG_RA, AnswerCount(r));
  }

  // An error reply tells its code: no error, no such domain, or a failure.
  lemma ErrorRoundTrip(v6: V6, q: Query, rcode: int)
    requires Accepted(q)
    ensures |q.packet| >= 12
    ensures ParseResponse(v6, ErrorBytes(q, rcode))
         == if rcode % 16 == 0 then Ok(Result([], MINIMUM_TTL, false))
            else if rcode % 16 == RCODE_NXDOMAIN then Ok(Result([], 0, true))
            else Err(ErrorCode(rcode % 16))
  {
    hide UnpackRR, UnpackName, Header, Accepted, Headed, ParseResponse, QuestionEnd, Question;
    var flags := FLAG_QR + FLAG_RD + FLAG_RA + rcode % 16;
    AcceptedFields(q);
    ReplyIsHeaded(q, flags, 0, []);
    assert ErrorBytes(q, rcode) == Header(q.id, flags, 0) + Question(q) + [];
    ParsesAsOneSection(v6, q.packet, ErrorBytes(q, rcode), flags, 0);
  }
}
