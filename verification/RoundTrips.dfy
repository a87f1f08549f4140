// What survives the wire: queries, replies, and the framing of every reply.
module RoundTrips {
  import opened GoText
  import opened DnsTypes
  import opened Names
  import opened IpText
  import opened Records
  import opened Messages

  // ---------- text that encodes to a name ----------

  // A name text whose labels the reader with this limit gives back.
  ghost predicate Encodable(domain: Text, limit: nat) {
    LabelsWithin(Split(domain), limit)
  }

  lemma {:induction false} WireLength(labels: seq<Text>)
    ensures |Wire(labels)| == if labels == [] then 0 else |Join(labels)| + 1
  {
    if labels != [] {
      WireLength(labels[1..]);
    }
  }

  lemma LongerFirstLabel(a: seq<Text>, b: seq<Text>)
    requires |a| >= 1 && |b| >= 1 && |a[0]| < |b[0]| && DotFree(b)
    ensures Join(a) != Join(b)
  {
    var i := |a[0]|;
    assert b[0][i] in b[0];
    JoinLength(b);
    assert Join(b)[i] == b[0][i];
    if |a| > 1 {
      assert Join(a)[i] == DOT;
    }
  }

  // Two label lists with the same bytes and the same text are the same list,
  // if one is what splitting at dots gives and the other has short labels.
  lemma {:induction false} SameWireSameText(short: seq<Text>, split: seq<Text>)
    requires |short| >= 1 && |split| >= 1
    requires LabelsWithin(short, 191) && DotFree(split)
    requires Wire(short) == Wire(split) && Join(short) == Join(split)
    ensures short == split
  {
    var a, b := short[0], split[0];
    var text := Join(short);
    assert |a| == |b| % 256 by {
      assert Wire(short)[0] == |a| && Wire(split)[0] == |b| % 256;
    }
    if |b| >= 256 {
      LongerFirstLabel(short, split);
      assert false;
    } else {
      assert Wire(short)[1..1 + |a|] == a && Wire(split)[1..1 + |a|] == b;
      assert Wire(short)[1 + |a|..] == Wire(short[1..]) && Wire(split)[1 + |a|..] == Wire(split[1..]);
      WireLength(short[1..]);
      WireLength(split[1..]);
      if |short| > 1 && |split| > 1 {
        assert text[|a| + 1..] == Join(short[1..]) == Join(split[1..]);
        SameWireSameText(short[1..], split[1..]);
      }
      assert short == [a] + short[1..] && split == [b] + split[1..];
    }
  }

  // The encoding of a text lies at start, ended by a terminator.
  ghost predicate WrittenAt(packet: seq<byte>, start: nat, domain: Text) {
    var w := DomainWire(domain);
    start + |w| < |packet| && packet[start..start + |w| + 1] == w + [0]
  }

  lemma EncodableIsRead(packet: seq<byte>, start: nat, domain: Text)
    requires WrittenAt(packet, start, domain) && Encodable(domain, 63)
    ensures UnpackName(packet, start, true) == Name(domain, start + |DomainWire(domain)| + 1)
  {
    hide UnpackName, Wire, Split, Join, LabelsWithin;
    JoinSplit(domain);
    QuestionNameRead(packet, start, start + |DomainWire(domain)| + 1, Split(domain));
  }

  lemma ReadIsEncodable(packet: seq<byte>, start: nat, domain: Text)
    requires WrittenAt(packet, start, domain)
    requires UnpackName(packet, start, true) == Name(domain, start + |DomainWire(domain)| + 1)
    ensures Encodable(domain, 63)
  {
    hide UnpackName, Wire, Split, Join, LabelsWithin;
    var labels, end := Split(domain), start + |DomainWire(domain)| + 1;
    var found := QuestionNameFound(packet, start);
    JoinSplit(domain);
    SplitIsDotFree(domain);
    WireLength(labels);
    WireLength(found);
    assert packet[start..|packet|] == packet[start..];
    assert |packet[start..end]| == |Wire(labels)| + 1;
    assert Wire(found) + [0] == Wire(labels) + [0];
    SameFront(Wire(found), Wire(labels), [0]);
    WithinMore(found, 63, 191);
    SameWireSameText(found, labels);
  }

  lemma SameFront<T>(a: seq<T>, b: seq<T>, c: seq<T>)
    requires a + c == b + c
    ensures a == b
  {
    assert |a| == |b|;
    assert a == (a + c)[..|a|] == (b + c)[..|b|];
  }

  lemma WithinMore(labels: seq<Text>, limit: nat, more: nat)
    requires LabelsWithin(labels, limit) && limit <= more
    ensures LabelsWithin(labels, more)
  {
  }

  // A name that was encoded and terminated is read back as a question name
  // exactly when each of its labels has 1 to 63 bytes.
  lemma QuestionTextExact(packet: seq<byte>, start: nat, domain: Text)
    requires WrittenAt(packet, start, domain)
    ensures UnpackName(packet, start, true) == Name(domain, start + |DomainWire(domain)| + 1)
       <==> Encodable(domain, 63)
  {
    hide UnpackName, WrittenAt, Encodable, DomainWire;
    if Encodable(domain, 63) {
      EncodableIsRead(packet, start, domain);
    }
    if UnpackName(packet, start, true) == Name(domain, start + |DomainWire(domain)| + 1) {
      ReadIsEncodable(packet, start, domain);
    }
  }

  // ---------- queries ----------

  lemma HeaderFields(id: u16, flags: u16, answers: u16, rest: seq<byte>)
    ensures var p := Header(id, flags, answers) + rest;
      && U16At(p, 0) == id && U16At(p, 2) == flags && U16At(p, 4) == 1
      && U16At(p, 6) == answers && U16At(p, 8) == 0 && U16At(p, 10) == 0
      && p[12..] == rest
  {
  }

  lemma QueryLayout(domain: Text, qtype: u16, id: u16)
    ensures var p, w := QueryBytes(domain, qtype, id), DomainWire(domain);
      && |p| == 12 + |w| + 5
      && U16At(p, 0) == id && U16At(p, 4) == 1
      && p[12..12 + |w| + 1] == w + [0]
      && U16At(p, 12 + |w| + 1) == qtype
  {
    var p, w := QueryBytes(domain, qtype, id), DomainWire(domain);
    var rest := (w + [0]) + (EncodeU16(qtype) + EncodeU16(CLASS_IN));
    ConcatAssoc(Header(id, FLAG_RD, 0), w + [0], EncodeU16(qtype) + EncodeU16(CLASS_IN));
    HeaderFields(id, FLAG_RD, 0, rest);
    hide Header;
    assert rest[|w| + 1] == EncodeU16(qtype)[0] && rest[|w| + 2] == EncodeU16(qtype)[1];
    assert p[12 + |w| + 1] == rest[|w| + 1] && p[12 + |w| + 2] == rest[|w| + 2];
    SliceOfSlice(p, 12, |p|, 0, |w| + 1);
    assert rest[0..|w| + 1] == w + [0];
  }

  // No reading gives the same non-empty text with a different end.
  lemma WrongEnd(p: seq<byte>, domain: Text, end: int)
    requires |p| > 12 && domain != []
    requires UnpackName(p, 12, true) == Name(domain, end)
    requires 12 + |DomainWire(domain)| + 1 < |p|
    ensures end == 12 + |DomainWire(domain)| + 1
  {
    var found := ScanFindsWire(p, 12, 12, []);
    assert [] + found == found;
    WireLength(found);
    JoinSplit(domain);
    WireLength(Split(domain));
    assert p[12..|p|] == p[12..];
  }

  // A query built for a name and a type is parsed back to that id, name and
  // type exactly when every label of the name has 1 to 63 bytes, apart from the
  // empty name asked for type 0.
  lemma QueryRoundTrip(domain: Text, qtype: u16, id: u16)
    ensures var p := QueryBytes(domain, qtype, id);
      && (ParseQuery(p) == Ok(Query(id, domain, qtype, p)) <==> Encodable(domain, 63) || (domain == [] && qtype == 0))
      && (Encodable(domain, 63) ==> QuestionEnd(p) == |p|)
  {
    QueryLayout(domain, qtype, id);
    var p, w := QueryBytes(domain, qtype, id), DomainWire(domain);
    hide QueryBytes;
    QuestionTextExact(p, 12, domain);
    if domain == [] {
      EmptyQuestion(p);
      assert Split(domain)[0] == [];
    } else if UnpackName(p, 12, true).Name? && UnpackName(p, 12, true).text == domain {
      WrongEnd(p, domain, UnpackName(p, 12, true).end);
    }
  }

  // The empty name is written as an empty label and a terminator, and read as
  // the root that the label already is, so its type is read one byte early.
  lemma EmptyQuestion(p: seq<byte>)
    requires |p| >= 17 && p[12..14] == DomainWire([]) + [0]
    ensures UnpackName(p, 12, true) == Name([], 13)
    ensures U16At(p, 13) == U16At(p, 14) <==> U16At(p, 14) == 0
  {
    assert DomainWire([]) == [0];
    assert p[12] == p[12..14][0] && p[13] == p[12..14][1];
    assert UnpackName(p, 12, true) == ScanLabels(p, 12, 12, [], true);
  }
}
