// What a resolver hands back for the bytes it received, and what of it a client
// still sees after the merge and the reply.
module Resolvers {
  import opened GoText
  import opened DnsTypes
  import opened Names
  import opened IpText
  import opened Records
  import opened Messages
  import opened RoundTrips
  import opened SurvivingData
  import opened Replies
  import opened Merge
  import WireFormat

  // ---------- resolvers ----------

  // A UDP resolver takes a reply it cannot parse as an answer without records.
  function UdpResult(v6: V6, packet: seq<byte>): Result {
    match ParseResponse(v6, packet)
    case Err(_) => Result([], 0, false)
    case Ok(r) => if r.nxdomain then Result([], 0, true) else Result(r.records, r.ttl, false)
  }

  // A DoH resolver takes it as a failure.
  function DohReply(v6: V6, packet: seq<byte>, unparsed: Text): Reply {
    match ParseResponse(v6, packet)
    case Err(_) => Failed(unparsed)
    case Ok(r) => Answered(if r.nxdomain then Result([], 0, true) else Result(r.records, r.ttl, false))
  }

  // What both make of a well-formed response: the records that show a text, with
  // their minimum TTL, or a missing domain; with another response code, and
  // without a header, the one an empty answer and the other a failure.
  lemma ResolversExact(v6: V6, packet: seq<byte>, unparsed: Text)
    ensures forall l | WireFormat.ResponseAt(packet, l) ::
              var rcode, records := packet[3] % 16, WireFormat.AllPresented(v6, packet, l);
              && (rcode == 0 || (rcode == 3 && records != []) ==>
                    && UdpResult(v6, packet) == Result(records, MinTTL(records), false)
                    && DohReply(v6, packet, unparsed) == Answered(Result(records, MinTTL(records), false)))
              && (rcode == 3 && records == [] ==>
                    && UdpResult(v6, packet) == Result([], 0, true)
                    && DohReply(v6, packet, unparsed) == Answered(Result([], 0, true)))
    ensures |packet| < 12 || packet[3] % 16 !in {0, 3} ==>
              UdpResult(v6, packet) == Result([], 0, false) && DohReply(v6, packet, unparsed) == Failed(unparsed)
  {
    hide ParseResponse, WireFormat.ResponseAt, WireFormat.AllPresented, MinTTL;
    forall l | WireFormat.ResponseAt(packet, l)
      ensures |packet| >= 12
      ensures var rcode, records := packet[3] % 16, WireFormat.AllPresented(v6, packet, l);
        ParseResponse(v6, packet)
          == if rcode == 0 || (rcode == 3 && records != []) then Ok(Result(records, MinTTL(records), false))
             else if rcode == 3 then Ok(Result([], 0, true))
             else Err(ErrorCode(rcode))
    {
      WireFormat.HasHeader(packet, l);
      WireFormat.ResponseIsRead(v6, packet, l);
    }
    WireFormat.ResponseIsRefused(v6, packet);
  }

  // Every successful answer of a resolver is what UDP makes of some packet.
  ghost predicate FromWire(v6: V6, result: Result) {
    exists packet :: result == UdpResult(v6, packet)
  }

  lemma DohIsFromWire(v6: V6, packet: seq<byte>, unparsed: Text)
    requires DohReply(v6, packet, unparsed).Answered?
    ensures FromWire(v6, DohReply(v6, packet, unparsed).result)
  {
    hide ParseResponse;
    assert DohReply(v6, packet, unparsed).result == UdpResult(v6, packet);
  }

  ghost predicate AllFromWire(v6: V6, replies: seq<Reply>) {
    forall o | o in replies && o.Answered? :: FromWire(v6, o.result)
  }

  // ---------- the data of parsed records ----------

  // What parsing can give as data: canonical, but for aliases that have an
  // empty label once their text is split at dots.
  ghost predicate WireData(v6: V6, rr: RR) {
    rr.rdata != [] && if rr.rtype == TYPE_CNAME then ShortRuns(rr.rdata) else Canonical(v6, rr)
  }

  lemma WireDataIsCanonical(v6: V6, rr: RR)
    requires WireData(v6, rr)
    ensures Canonical(v6, rr) <==> !(rr.rtype == TYPE_CNAME && [] in Split(rr.rdata))
    ensures Presentable(rr)
  {
    if rr.rtype == TYPE_CNAME {
      var labels := Split(rr.rdata);
      assert [] !in labels <==> forall i | 0 <= i < |labels| :: 1 <= |labels[i]|;
    }
  }

  lemma {:induction false} PlainHasShortRuns(data: seq<byte>, offset: nat, parts: seq<Text>)
    requires offset <= |data| && forall i | 0 <= i < |parts| :: ShortRuns(parts[i])
    ensures ShortRuns(ReadPlain(data, offset, parts))
    decreases |data| - offset
  {
    hide ShortRuns;
    JoinedRuns(parts);
    JoinedRuns([]);
    if offset < |data| && 0 < data[offset] < 192 && offset + 1 + data[offset] <= |data| {
      var run := data[offset + 1..offset + 1 + data[offset]];
      LabelIsShort(run);
      PlainHasShortRuns(data, offset + 1 + data[offset], parts + [run]);
    }
  }

  lemma ParsedData(v6: V6, packet: seq<byte>, rr: RR, data: seq<byte>, at: int)
    requires rr.rdata == ParseRData(v6, packet, rr.rtype, data, at) != []
    ensures WireData(v6, rr)
  {
    if rr.rtype == TYPE_CNAME {
      PlainHasShortRuns(data, 0, []);
      NamesHaveShortRuns(packet, at);
    }
  }

  lemma RecordData(v6: V6, packet: seq<byte>, offset: nat)
    ensures var step := UnpackRR(v6, packet, offset);
      step.Read? && step.record.Some? ==> WireData(v6, step.record.value)
  {
    hide ParseRData, WireData, UnpackName;
    if offset < |packet| && UnpackName(packet, offset, false).Name? {
      var at := UnpackName(packet, offset, false).end;
      if at + 10 <= |packet| && at + 10 + U16At(packet, at + 8) <= |packet| {
        var step := UnpackRR(v6, packet, offset);
        if step.record.Some? {
          ParsedData(v6, packet, step.record.value, packet[at + 10..at + 10 + U16At(packet, at + 8)], at + 10);
        }
      }
    }
  }

  lemma {:induction false} SectionData(v6: V6, packet: seq<byte>, count: nat, offset: nat)
    ensures forall rr | rr in UnpackSection(v6, packet, count, offset).records :: WireData(v6, rr)
  {
    hide UnpackRR, WireData;
    if count > 0 {
      RecordData(v6, packet, offset);
      var step := UnpackRR(v6, packet, offset);
      if step.Read? {
        SectionData(v6, packet, count - 1, step.end);
      }
    }
  }

  lemma {:induction false} SectionsData(v6: V6, packet: seq<byte>, counts: seq<nat>, offset: nat)
    ensures forall rr | rr in ReadSections(v6, packet, counts, offset) :: WireData(v6, rr)
    decreases |counts|
  {
    hide WireData;
    if counts != [] {
      SectionData(v6, packet, counts[0], offset);
      SectionsData(v6, packet, counts[1..], UnpackSection(v6, packet, counts[0], offset).end);
    }
  }

  // ---------- results ----------

  lemma ResponseData(v6: V6, packet: seq<byte>)
    requires ParseResponse(v6, packet).Ok?
    ensures forall rr | rr in ParseResponse(v6, packet).value.records :: WireData(v6, rr)
  {
    hide WireData, UnpackName;
    SectionsData(v6, packet, Counts(packet), SkipQuestion(packet, 12).value);
  }

  // A resolver's result has parsed records only, and reports the least positive
  // TTL of them; without records it may report zero instead.
  lemma ResolverResult(v6: V6, result: Result)
    requires FromWire(v6, result)
    ensures forall rr | rr in result.records :: WireData(v6, rr)
    ensures result.ttl == MinTTL(result.records) || (result.records == [] && result.ttl == 0)
  {
    hide WireData;
    var packet :| result == UdpResult(v6, packet);
    if ParseResponse(v6, packet).Ok? {
      ResponseData(v6, packet);
    }
  }

  // A merge of such results has each record once, parsed data only, and reports
  // the least positive TTL of the merged records.
  lemma MergedResult(v6: V6, replies: seq<Reply>)
    requires AllFromWire(v6, replies)
    ensures var r := Reduced(Collected(replies));
      && Distinct(r.records) && !r.nxdomain && r.ttl == MinTTL(r.records)
      && (forall rr | rr in r.records :: WireData(v6, rr))
  {
    hide WireData, From, Collected, Distinct, Deduped, KeyTtl;
    var all := Collected(replies);
    DedupedMeaning(all);
    DedupedComeFrom(all);
    forall rr | rr in Deduped(all) ensures WireData(v6, rr) {
      var j :| 0 <= j < |Deduped(all)| && Deduped(all)[j] == rr;
      CollectedData(v6, replies, rr);
    }
  }

  lemma CollectedData(v6: V6, replies: seq<Reply>, rr: RR)
    requires AllFromWire(v6, replies) && From(rr, Collected(replies))
    ensures WireData(v6, rr)
  {
    hide FromWire, Collected;
    var all := Collected(replies);
    var i :| 0 <= i < |all| && all[i].(ttl := rr.ttl) == rr;
    CollectedFrom(replies, all[i]);
    var o :| o in replies && o.Answered? && all[i] in o.result.records;
    ResolverResult(v6, o.result);
    assert WireData(v6, all[i]);
  }

  // ---------- from the wire to the wire ----------

  // No alias among the records has an empty label.
  ghost predicate FullLabels(records: seq<RR>) {
    forall rr | rr in records && rr.rtype == TYPE_CNAME :: [] !in Split(rr.rdata)
  }

  // Records with parsed data, sent on, are parsed back unchanged under the
  // question's name exactly when no alias among them has an empty label and their
  // number can be told in 16 bits.
  lemma WireRecordsRelayed(v6: V6, q: Query, r: Result)
    requires Lawful(v6) && Accepted(q) && !r.nxdomain && SmallData(v6, r.records)
    requires forall rr | rr in r.records :: WireData(v6, rr)
    ensures |q.packet| >= 12
    ensures ParseResponse(v6, ResponseBytes(v6, q, r))
              == Ok(Result(Renamed(r.records, q.domain), MinTTL(r.records), false))
       <==> FullLabels(r.records) && |r.records| < 0x1_0000
  {
    hide ParseResponse, ResponseBytes, Canonical, WireData, SmallData, Lawful, Accepted, MinTTL;
    ResponseRoundTrip(v6, q, r);
    forall rr | rr in r.records
      ensures Canonical(v6, rr) <==> !(rr.rtype == TYPE_CNAME && [] in Split(rr.rdata))
    {
      WireDataIsCanonical(v6, rr);
    }
  }

  // What clients get of an upstream answer: merged and sent on, the records of
  // the resolvers are parsed back so, with the TTL of the merge as the TTL of the
  // whole, under the same condition.
  lemma RelayRoundTrip(v6: V6, q: Query, replies: seq<Reply>)
    requires Lawful(v6) && Accepted(q) && AllFromWire(v6, replies)
    requires SmallData(v6, Reduced(Collected(replies)).records)
    ensures |q.packet| >= 12
    ensures var r := Reduced(Collected(replies));
      (ParseResponse(v6, ResponseBytes(v6, q, r)) == Ok(Result(Renamed(r.records, q.domain), r.ttl, false)))
      <==> FullLabels(r.records) && |r.records| < 0x1_0000
  {
    hide ParseResponse, ResponseBytes, WireData, Collected, Reduced, SmallData, Lawful, Accepted, FullLabels, MinTTL;
    MergedResult(v6, replies);
    WireRecordsRelayed(v6, q, Reduced(Collected(replies)));
  }

  // Such aliases can be read: a label may hold a dot.
  lemma DottedLabelIsRead()
    ensures UncompressedName([1, DOT, 0]) == [DOT] && [] in Split([DOT])
  {
    var data: seq<byte> := [1, DOT, 0];
    assert data[1..2] == [DOT];
    assert ReadPlain(data, 2, [] + [[DOT]]) == [DOT];
    assert [DOT][1..] == [];
    assert Split([DOT]) == [[], []];
    assert Split([DOT])[0] == [];
  }

  // A packet that answers an accepted query with that alias.
  function DottedPacket(q: Query): seq<byte>
    requires |q.packet| >= 12
  {
    Header(q.id, FLAG_QR, 1) + Question(q) + AnswerWith(DottedAlias(q), [1, DOT, 0])
  }

  function DottedAlias(q: Query): RR {
    RR(q.domain, TYPE_CNAME, CLASS_IN, 60, [DOT])
  }

  lemma DottedAliasArrives(v6: V6, q: Query)
    requires Accepted(q)
    ensures |q.packet| >= 12
    ensures UdpResult(v6, DottedPacket(q)) == Result([DottedAlias(q)], 60, false)
  {
    hide Header, Question, QuestionEnd, Headed, Accepted, UnpackName, AnswerHead, UnpackSection, ParseResponse, MinTTL;
    AcceptedFields(q);
    ReplyIsHeaded(q, FLAG_QR, 1, AnswerWith(DottedAlias(q), [1, DOT, 0]));
    DottedSection(v6, q, DottedPacket(q), QuestionEnd(q.packet));
    ParsesAsOneSection(v6, q.packet, DottedPacket(q), FLAG_QR, 1);
    DottedTTL(q);
  }

  lemma DottedTTL(q: Query)
    ensures MinTTL([DottedAlias(q)]) == 60
  {
    assert LeastPositive([DottedAlias(q)], NO_TTL) == LeastPositive([], 60);
  }

  lemma DottedSection(v6: V6, q: Query, packet: seq<byte>, start: nat)
    requires 12 < start <= |packet| && packet[start..] == AnswerWith(DottedAlias(q), [1, DOT, 0])
    requires UnpackName(packet, 12, false).Name? && UnpackName(packet, 12, false).text == q.domain
    ensures UnpackSection(v6, packet, 1, start).ok && UnpackSection(v6, packet, 1, start).records == [DottedAlias(q)]
  {
    var rr, data: seq<byte> := DottedAlias(q), [1, DOT, 0];
    DottedLabelIsRead();
    AnswerHeadFields(rr, 3);
    hide UnpackName, AnswerHead, UnpackSection, UnpackRR, UncompressedName;
    assert packet[start..start + 12 + |data|] == packet[start..];
    AnswerIsRead(v6, packet, start, rr, data, q.domain);
    SectionUnroll(v6, packet, 1, start);
    SectionUnroll(v6, packet, 0, start + 15);
    assert [rr] + [] == [rr];
  }

  lemma OneReply(result: Result)
    ensures Collected([Answered(result)]) == result.records
  {
    var replies := [Answered(result)];
    assert replies[..0] == [] && Collected([]) == [];
    assert Collected(replies) == [] + result.records;
  }

  // A resolver that sends this packet shows that not every record is relayed: the
  // client does not get the alias back.
  lemma DottedAliasIsLost(v6: V6, q: Query)
    requires Lawful(v6) && Accepted(q)
    ensures |q.packet| >= 12
    ensures var r := Reduced(Collected([Answered(UdpResult(v6, DottedPacket(q)))]));
      && r.records == [DottedAlias(q)]
      && ParseResponse(v6, ResponseBytes(v6, q, r)) != Ok(Result(Renamed(r.records, q.domain), r.ttl, false))
  {
    DottedLabelIsRead();
    hide Accepted, Lawful, UdpResult, ParseResponse, ResponseBytes, DottedPacket, ReadPlain, UncompressedName;
    DottedAliasArrives(v6, q);
    var result := UdpResult(v6, DottedPacket(q));
    var replies := [Answered(result)];
    OneReply(result);
    assert FromWire(v6, result);
    var rr := DottedAlias(q);
    assert Distinct([rr]);
    DedupedOfDistinct([rr]);
    assert |EncodeRData(v6, rr.rtype, rr.rdata)| < 0x1_0000 by {
      WireLength(Split([DOT]));
      JoinSplit([DOT]);
    }
    var r := Reduced(Collected(replies));
    assert SmallData(v6, r.records);
    assert rr in r.records;
    RelayRoundTrip(v6, q, replies);
  }

  // Two records that differ in a zero TTL, as a resolver may send them: merging
  // turns the smallest positive TTL of the reply into the default.
  lemma ZeroTtlArrives(v6: V6, q: Query, address: seq<byte>)
    requires Lawful(v6) && Accepted(q) && |address| == 4
    ensures |q.packet| >= 12
    ensures var r := RR(q.domain, TYPE_A, CLASS_IN, 20, FormatV4(address));
      var result := UdpResult(v6, ResponseBytes(v6, q, Result([r, r.(ttl := 0)], 20, false)));
      && result == Result([r, r.(ttl := 0)], 20, false)
      && Reduced(Collected([Answered(result)])).ttl == MINIMUM_TTL
  {
    hide Lawful, Accepted, FormatV4, ParseResponse, ResponseBytes, Reduced, LeastPositive, EncodeRData, Collected;
    var r := RR(q.domain, TYPE_A, CLASS_IN, 20, FormatV4(address));
    var both := [r, r.(ttl := 0)];
    SmallAddress(v6, address);
    assert r.rdata == FormatIP(v6, address);
    assert Canonical(v6, r) && Canonical(v6, r.(ttl := 0));
    ZeroTtlHidesPositive(r);
    ResponseRoundTrip(v6, q, Result(both, 20, false));
    assert both[1..] == [r.(ttl := 0)] && both[1..][1..] == [];
    assert Renamed(both, q.domain) == both;
    OneReply(Result(both, 20, false));
  }

  lemma SmallAddress(v6: V6, address: seq<byte>)
    requires Lawful(v6) && |address| == 4
    ensures |EncodeRData(v6, TYPE_A, FormatV4(address))| == 4
  {
    V4Reads(v6, address);
    hide FormatV4, ParseIP;
  }

  // ---------- what the pipeline may be told ----------

  ghost predicate IsMerge(v6: V6, result: Result) {
    exists replies: seq<Reply> :: AllFromWire(v6, replies) && result == Reduced(Collected(replies))
  }

  // Of one resolver or of the fan-out, the records have parsed data, and the TTL
  // is the least positive one, if it matters.
  lemma TrustedResult(v6: V6, result: Result)
    requires FromWire(v6, result) || IsMerge(v6, result)
    ensures forall rr | rr in result.records :: WireData(v6, rr)
    ensures result.ttl == MinTTL(result.records) || (result.records == [] && result.ttl == 0)
    ensures IsMerge(v6, result) ==> !result.nxdomain
  {
    hide Reduced, WireData, FromWire, Collected, MinTTL;
    if FromWire(v6, result) {
      ResolverResult(v6, result);
    }
    if replies: seq<Reply> :| AllFromWire(v6, replies) && result == Reduced(Collected(replies)) {
      MergedResult(v6, replies);
    }
  }

  lemma WireDataPresents(v6: V6, records: seq<RR>)
    requires forall rr | rr in records :: WireData(v6, rr)
    ensures forall rr | rr in records :: Presentable(rr)
  {
    forall rr | rr in records ensures Presentable(rr) {
      WireDataIsCanonical(v6, rr);
    }
  }
}
