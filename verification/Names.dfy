// Domain names on the wire: the length-prefixed label form of section 3.1 of
// RFC 1035 and the compression pointers of its section 4.1.4.
module Names {
  import opened GoText

  datatype NameError =
    | StartOutOfRange
    | LabelTooLong
    | PointerTruncated
    | PointerOutOfRange
    | ForwardPointer
    | PointerLoop
    | TooManyJumps
    | LabelOverrun

  datatype NameResult = Name(text: Text, end: int) | BadName(error: NameError)

  const MAX_JUMPS := 10

  // ---------- encoding ----------

  // The labels with their length bytes, without the root terminator. A length
  // byte is truncated as Go's byte() conversion truncates it.
  function Wire(labels: seq<Text>): seq<byte> {
    if labels == [] then [] else [|labels[0]| % 256] + labels[0] + Wire(labels[1..])
  }

  function DomainWire(domain: Text): seq<byte> {
    Wire(Split(domain))
  }

  method EncodeDomainName(domain: Text) returns (buf: seq<byte>)
    ensures buf == DomainWire(domain)
  {
    var labels := Split(domain);
    buf := [];
    for i := 0 to |labels|
      invariant buf + Wire(labels[i..]) == Wire(labels)
    {
      var head, rest := [|labels[i]| % 256], Wire(labels[i + 1..]);
      assert labels[i..][1..] == labels[i + 1..];
      assert Wire(labels[i..]) == head + labels[i] + rest;
      hide Wire;
      ConcatAssoc(buf, head + labels[i], rest);
      ConcatAssoc(buf, head, labels[i]);
      buf := buf + head;
      buf := buf + labels[i];
    }
  }

  // Every label is as long as the reader of the section will take.
  ghost predicate LabelsWithin(labels: seq<Text>, limit: nat) {
    forall i | 0 <= i < |labels| :: 1 <= |labels[i]| <= limit
  }

  // ---------- the general reader ----------

  function Pointer(hi: byte, lo: byte): nat {
    (hi % 64) * 256 + lo
  }

  function UnpackName(packet: seq<byte>, start: int, question: bool): (r: NameResult)
    ensures r.Name? ==> start < r.end <= |packet|
    decreases start, |packet| + 1
  {
    if start < 0 || start >= |packet| then BadName(StartOutOfRange)
    else ScanLabels(packet, start, start, [], question)
  }

  function ScanLabels(packet: seq<byte>, start: int, offset: int, parts: seq<Text>, question: bool): (r: NameResult)
    requires 0 <= start <= offset <= |packet|
    ensures r.Name? ==> r.end <= |packet| && (if offset < |packet| then offset < r.end else offset == r.end)
    decreases start, |packet| - offset
  {
    if offset >= |packet| then Name(Join(parts), offset)
    else
      var length := packet[offset];
      if length == 0 then Name(Join(parts), offset + 1)
      else if question && length > 63 then BadName(LabelTooLong)
      else if !question && length >= 192 then
        if offset + 1 >= |packet| then BadName(PointerTruncated)
        else
          var pointer := Pointer(length, packet[offset + 1]);
          if pointer >= |packet| then BadName(PointerOutOfRange)
          else if pointer >= start then BadName(ForwardPointer)
          else Jumped(parts, UnpackName(packet, pointer, false), offset + 2)
      else if offset + 1 + length > |packet| then BadName(LabelOverrun)
      else
        ScanLabels(packet, start, offset + 1 + length, parts + [packet[offset + 1..offset + 1 + length]], question)
  }

  // What a pointer contributes: a bad target is forgiven once a label was read.
  function Jumped(parts: seq<Text>, target: NameResult, end: int): NameResult {
    match target
    case BadName(e) => if |parts| > 0 then Name(Join(parts), end) else BadName(e)
    case Name(text, _) => Name(Join(if text != [] then parts + [text] else parts), end)
  }

  // The loop of the program, with its guards against pointer loops. It refines
  // the function above, which has no such guards: they never fire.
  method UnpackNameLoop(packet: seq<byte>, start: int, question: bool) returns (r: NameResult)
    ensures r == UnpackName(packet, start, question)
    ensures r !in {BadName(PointerLoop), BadName(TooManyJumps)}
    decreases start
  {
    GuardsNeverFire(packet, start, question);
    if start < 0 || start >= |packet| {
      return BadName(StartOutOfRange);
    }
    var offset := start;
    var parts: seq<Text> := [];
    var visited: set<int> := {};
    var jumps := 0;
    while offset < |packet|
      invariant start <= offset <= |packet|
      invariant visited == {} && jumps == 0
      invariant ScanLabels(packet, start, offset, parts, question) == UnpackName(packet, start, question)
    {
      var length := packet[offset];
      offset := offset + 1;
      if length == 0 {
        return Name(Join(parts), offset);
      }
      if question && length > 63 {
        return BadName(LabelTooLong);
      }
      if !question && length >= 192 {
        if offset >= |packet| {
          return BadName(PointerTruncated);
        }
        var pointer := Pointer(length, packet[offset]);
        offset := offset + 1;
        if pointer < 0 || pointer >= |packet| {
          return BadName(PointerOutOfRange);
        }
        if pointer >= start {
          return BadName(ForwardPointer);
        }
        if pointer in visited {
          return BadName(PointerLoop);
        }
        visited := visited + {pointer};
        jumps := jumps + 1;
        if jumps > MAX_JUMPS {
          return BadName(TooManyJumps);
        }
        var jumped := UnpackNameLoop(packet, pointer, false);
        if jumped.BadName? {
          if |parts| > 0 {
            return Name(Join(parts), offset);
          }
          return jumped;
        }
        if jumped.text != [] {
          parts := parts + [jumped.text];
        }
        return Name(Join(parts), offset);
      }
      if offset + length > |packet| {
        return BadName(LabelOverrun);
      }
      parts := parts + [packet[offset..offset + length]];
      offset := offset + length;
    }
    return Name(Join(parts), offset);
  }

  // Neither the visited set nor the jump limit is ever the reason for a failure,
  // on any packet.
  lemma {:induction false} GuardsNeverFire(packet: seq<byte>, start: int, question: bool)
    ensures UnpackName(packet, start, question) !in {BadName(PointerLoop), BadName(TooManyJumps)}
    decreases start, |packet| + 1
  {
    if 0 <= start < |packet| {
      ScanGuardsNeverFire(packet, start, start, [], question);
    }
  }

  lemma {:induction false} ScanGuardsNeverFire(packet: seq<byte>, start: int, offset: int, parts: seq<Text>, question: bool)
    requires 0 <= start <= offset <= |packet|
    ensures ScanLabels(packet, start, offset, parts, question) !in {BadName(PointerLoop), BadName(TooManyJumps)}
    decreases start, |packet| - offset
  {
    if offset < |packet| {
      var length := packet[offset];
      if !question && length >= 192 {
        if offset + 1 < |packet| && Pointer(length, packet[offset + 1]) < start {
          GuardsNeverFire(packet, Pointer(length, packet[offset + 1]), false);
        }
      } else if length != 0 && offset + 1 + length <= |packet| {
        ScanGuardsNeverFire(packet, start, offset + 1 + length,
                            parts + [packet[offset + 1..offset + 1 + length]], question);
      }
    }
  }

  // ---------- decompression, against section 4.1.4 of RFC 1035 ----------

  // The bytes at offset are a compressed name with these labels ending at end:
  // labels of 1 to 63 bytes, then the root, or a pointer to an earlier name.
  // start is where the current segment began; a pointer must go before it.
  // Both are told by the bytes: a pointer has its two high bits set and its
  // target in the other fourteen.
  ghost predicate WellFormed(packet: seq<byte>, start: int, offset: int, labels: seq<Text>, end: int)
    requires 0 <= start <= offset
    decreases start, |packet| - offset
  {
    && offset < |packet|
    && var length := packet[offset];
       if length == 0 then labels == [] && end == offset + 1
       else if length < 64 then
         && labels != []
         && offset + 1 + length <= |packet|
         && labels[0] == packet[offset + 1..offset + 1 + length]
         && WellFormed(packet, start, offset + 1 + length, labels[1..], end)
       else
         && end == offset + 2
         && exists target: nat | target < start :: PointsTo(packet, offset, target) && WellFormedFrom(packet, target, labels)
  }

  predicate PointsTo(packet: seq<byte>, offset: nat, target: nat) {
    && offset + 1 < |packet| && target < 0x4000
    && packet[offset] == 192 + target / 256 && packet[offset + 1] == target % 256
  }

  lemma PointerIsTarget(packet: seq<byte>, offset: nat, target: nat)
    requires PointsTo(packet, offset, target)
    ensures packet[offset] >= 192 && Pointer(packet[offset], packet[offset + 1]) == target
  {
  }

  ghost predicate WellFormedFrom(packet: seq<byte>, start: nat, labels: seq<Text>)
    decreases start, |packet| + 1
  {
    exists end :: WellFormed(packet, start, start, labels, end)
  }

  lemma EndOf(packet: seq<byte>, start: nat, labels: seq<Text>) returns (end: int)
    requires WellFormedFrom(packet, start, labels)
    ensures WellFormed(packet, start, start, labels, end)
  {
    end :| WellFormed(packet, start, start, labels, end);
  }

  lemma {:induction false} WellFormedLabels(packet: seq<byte>, start: int, offset: int, labels: seq<Text>, end: int)
    requires 0 <= start <= offset
    requires WellFormed(packet, start, offset, labels, end)
    ensures LabelsWithin(labels, 63)
    decreases start, |packet| - offset
  {
    var length := packet[offset];
    if 0 < length < 64 {
      WellFormedLabels(packet, start, offset + 1 + length, labels[1..], end);
      assert forall i | 1 <= i < |labels| :: labels[i] == labels[1..][i - 1];
    } else if length != 0 {
      var pointer: nat :| pointer < start && PointsTo(packet, offset, pointer) && WellFormedFrom(packet, pointer, labels);
      var e := EndOf(packet, pointer, labels);
      WellFormedLabels(packet, pointer, pointer, labels, e);
    }
  }

  // Every well-formed compressed name is read, and read right: exactly its
  // labels joined by dots, and the offset just past it.
  lemma {:induction false} Decompression(packet: seq<byte>, start: int, labels: seq<Text>, end: int)
    requires 0 <= start
    requires WellFormed(packet, start, start, labels, end)
    ensures UnpackName(packet, start, false) == Name(Join(labels), end)
    decreases start, |packet| + 1
  {
    ScanDecompresses(packet, start, start, [], labels, end);
    assert [] + labels == labels;
  }

  lemma {:induction false} ScanDecompresses(packet: seq<byte>, start: int, offset: int, parts: seq<Text>,
                                            labels: seq<Text>, end: int)
    requires 0 <= start <= offset
    requires WellFormed(packet, start, offset, labels, end)
    ensures offset < |packet|
    ensures ScanLabels(packet, start, offset, parts, false) == Name(Join(parts + labels), end)
    decreases start, |packet| - offset
  {
    var length := packet[offset];
    if length == 0 {
      assert parts + labels == parts;
    } else if length < 64 {
      var next := offset + 1 + length;
      ScanDecompresses(packet, start, next, parts + [labels[0]], labels[1..], end);
      assert parts + [labels[0]] + labels[1..] == parts + labels;
    } else {
      var pointer: nat :| pointer < start && PointsTo(packet, offset, pointer) && WellFormedFrom(packet, pointer, labels);
      PointerIsTarget(packet, offset, pointer);
      var e := EndOf(packet, pointer, labels);
      Decompression(packet, pointer, labels, e);
      if labels == [] {
        assert parts + labels == parts;
      } else {
        WellFormedLabels(packet, pointer, pointer, labels, e);
        JoinLength(labels);
        JoinNested(parts, labels);
      }
    }
  }

  // ---------- names without pointers ----------

  // The pieces of an encoded name at an offset.
  lemma WireHead(packet: seq<byte>, offset: int, labels: seq<Text>, tail: seq<byte>)
    requires 0 <= offset <= offset + |Wire(labels)| + |tail| <= |packet|
    requires packet[offset..offset + |Wire(labels)| + |tail|] == Wire(labels) + tail
    requires labels != [] && |labels[0]| < 256
    ensures var next := offset + 1 + |labels[0]|;
      && next + |Wire(labels[1..])| + |tail| == offset + |Wire(labels)| + |tail|
      && packet[offset] == |labels[0]|
      && packet[offset + 1..next] == labels[0]
      && packet[next..next + |Wire(labels[1..])| + |tail|] == Wire(labels[1..]) + tail
  {
    var first, rest := labels[0], Wire(labels[1..]);
    assert Wire(labels) == [|first|] + first + rest;
    hide Wire;
    ConcatAssoc([|first|] + first, rest, tail);
    ConsSlice(packet, offset, |first|, first, rest + tail);
  }

  // One short label that lies in the packet is one step of the scan.
  lemma ScanStep(packet: seq<byte>, start: int, offset: int, parts: seq<Text>, first: Text, question: bool)
    requires 0 <= start <= offset && offset + 1 + |first| <= |packet|
    requires packet[offset] == |first| && packet[offset + 1..offset + 1 + |first|] == first
    requires 1 <= |first| <= if question then 63 else 191
    ensures ScanLabels(packet, start, offset, parts, question)
         == ScanLabels(packet, start, offset + 1 + |first|, parts + [first], question)
  {
  }

  lemma ScanStops(packet: seq<byte>, start: int, offset: int, parts: seq<Text>, question: bool)
    requires 0 <= start <= offset < |packet| && packet[offset..offset + |Wire([])| + 1] == Wire([]) + [0]
    ensures ScanLabels(packet, start, offset, parts, question) == Name(Join(parts), offset + |Wire([])| + 1)
  {
    assert packet[offset] == packet[offset..offset + 1][0];
  }

  lemma ScanEnds(packet: seq<byte>, start: int, parts: seq<Text>)
    requires 0 <= start <= |packet|
    ensures ScanLabels(packet, start, |packet|, parts, true) == Name(Join(parts), |packet|)
  {
  }

  lemma EmptyWire()
    ensures Wire([]) == []
  {
  }

  lemma LabelsTail(labels: seq<Text>, limit: nat)
    requires LabelsWithin(labels, limit) && labels != []
    ensures 1 <= |labels[0]| <= limit && LabelsWithin(labels[1..], limit)
  {
  }

  // Reading back what was encoded: the labels of a slice that ends in the root
  // terminator, whatever surrounds it.
  lemma {:induction false} ScanReadsWire(packet: seq<byte>, start: int, offset: int, parts: seq<Text>,
                                         labels: seq<Text>, question: bool)
    requires 0 <= start <= offset <= offset + |Wire(labels)| < |packet|
    requires packet[offset..offset + |Wire(labels)| + 1] == Wire(labels) + [0]
    requires LabelsWithin(labels, if question then 63 else 191)
    ensures ScanLabels(packet, start, offset, parts, question)
         == Name(Join(parts + labels), offset + |Wire(labels)| + 1)
    decreases |labels|
  {
    hide Wire, Join, ScanLabels, LabelsWithin;
    if labels == [] {
      ScanStops(packet, start, offset, parts, question);
      assert parts + labels == parts;
    } else {
      var first, rest := labels[0], labels[1..];
      LabelsTail(labels, if question then 63 else 191);
      WireHead(packet, offset, labels, [0]);
      ScanStep(packet, start, offset, parts, first, question);
      ScanReadsWire(packet, start, offset + 1 + |first|, parts + [first], rest, question);
      assert parts + [first] + rest == parts + labels;
    }
  }

  // The scan of labels that lie in the packet, whatever comes behind them.
  lemma {:induction false} ScanPasses(packet: seq<byte>, start: int, offset: int, parts: seq<Text>,
                                      labels: seq<Text>, question: bool)
    requires 0 <= start <= offset <= offset + |Wire(labels)| <= |packet|
    requires packet[offset..offset + |Wire(labels)|] == Wire(labels)
    requires LabelsWithin(labels, if question then 63 else 191)
    ensures ScanLabels(packet, start, offset, parts, question)
         == ScanLabels(packet, start, offset + |Wire(labels)|, parts + labels, question)
    decreases |labels|
  {
    hide Wire, Join, ScanLabels, LabelsWithin;
    EmptyWire();
    if labels == [] {
      assert parts + labels == parts;
    } else {
      var first, rest := labels[0], labels[1..];
      LabelsTail(labels, if question then 63 else 191);
      assert packet[offset..offset + |Wire(labels)| + 0] == Wire(labels) + [];
      WireHead(packet, offset, labels, []);
      var next := offset + 1 + |first|;
      assert packet[next..next + |Wire(rest)|] == Wire(rest) + [] == Wire(rest);
      ScanStep(packet, start, offset, parts, first, question);
      ScanPasses(packet, start, next, parts + [first], rest, question);
      assert parts + [first] + rest == parts + labels;
    }
  }

  // Behind any labels, what the general reader makes of the place where they end.
  // A name may end where the packet ends. A label must lie in the packet, and a
  // pointer must have two bytes and go before the start of the name. What cannot
  // be read there is forgiven if there were labels, and what can is appended.
  lemma BehindLabels(packet: seq<byte>, start: nat, labels: seq<Text>)
    requires start < |packet| && start + |Wire(labels)| <= |packet| && LabelsWithin(labels, 191)
    requires packet[start..start + |Wire(labels)|] == Wire(labels)
    ensures var at, r := start + |Wire(labels)|, UnpackName(packet, start, false);
      && (at == |packet| ==> r == Name(Join(labels), at))
      && (at < |packet| && packet[at] == 0 ==> r == Name(Join(labels), at + 1))
      && (at < |packet| && 0 < packet[at] < 192 && at + 1 + packet[at] > |packet| ==> r == BadName(LabelOverrun))
      && (at + 1 == |packet| && packet[at] >= 192 ==> r == BadName(PointerTruncated))
      && (forall target: nat | PointsTo(packet, at, target) ::
            && (target >= |packet| ==> r == BadName(PointerOutOfRange))
            && (start <= target < |packet| ==> r == BadName(ForwardPointer))
            && (target < start ==>
                  match UnpackName(packet, target, false)
                  case BadName(e) => r == if labels == [] then BadName(e) else Name(Join(labels), at + 2)
                  case Name(text, _) => r == Name(Join(if text == [] then labels else labels + [text]), at + 2)))
  {
    ScanPasses(packet, start, start, [], labels, false);
    assert [] + labels == labels;
    hide Wire, Join, LabelsWithin;
    var at := start + |Wire(labels)|;
    forall target: nat | PointsTo(packet, at, target)
      ensures at + 1 < |packet| && packet[at] >= 192 && Pointer(packet[at], packet[at + 1]) == target
    {
      PointerIsTarget(packet, at, target);
    }
  }

  lemma WireCons(packet: seq<byte>, offset: nat, next: nat, rest: seq<Text>, end: nat)
    requires offset < next <= end <= |packet| && next == offset + 1 + packet[offset]
    ensures var labels := [packet[offset + 1..next]] + rest;
      && (packet[next..end] == Wire(rest) + [0] ==> packet[offset..end] == Wire(labels) + [0])
      && (end == |packet| && packet[next..] == Wire(rest) ==> packet[offset..] == Wire(labels))
  {
    var labels := [packet[offset + 1..next]] + rest;
    assert labels[1..] == rest;
    SliceAt(packet, offset, next, end);
    SliceAt(packet, offset, next, |packet|);
    assert packet[offset..|packet|] == packet[offset..] && packet[next..|packet|] == packet[next..];
  }

  // Conversely, a name read under the question rules is the join of the labels
  // that lie there, up to a terminator or up to the very end of the packet.
  lemma {:induction false} ScanFindsWire(packet: seq<byte>, start: int, offset: int, parts: seq<Text>)
      returns (labels: seq<Text>)
    requires 0 <= start <= offset <= |packet|
    requires ScanLabels(packet, start, offset, parts, true).Name?
    ensures var r := ScanLabels(packet, start, offset, parts, true);
      && r.text == Join(parts + labels)
      && LabelsWithin(labels, 63)
      && offset <= r.end
      && (packet[offset..r.end] == Wire(labels) + [0] || (r.end == |packet| && packet[offset..] == Wire(labels)))
    decreases |packet| - offset
  {
    if offset == |packet| || packet[offset] == 0 {
      labels := [];
      assert parts + labels == parts;
    } else {
      var next := offset + 1 + packet[offset];
      var first := packet[offset + 1..next];
      hide Join, Wire;
      var rest := ScanFindsWire(packet, start, next, parts + [first]);
      labels := [first] + rest;
      WireCons(packet, offset, next, rest, ScanLabels(packet, start, offset, parts, true).end);
      assert parts + [first] + rest == parts + labels;
    }
  }

  // These labels, of 1 to 63 bytes, lie at start and end in a terminator, or end
  // where the packet ends.
  ghost predicate QuestionNameAt(packet: seq<byte>, start: int, end: int, labels: seq<Text>) {
    && LabelsWithin(labels, 63)
    && 0 <= start < end <= |packet|
    && (packet[start..end] == Wire(labels) + [0] || (end == |packet| && packet[start..] == Wire(labels)))
  }

  lemma QuestionNameFound(packet: seq<byte>, start: int) returns (labels: seq<Text>)
    requires UnpackName(packet, start, true).Name?
    ensures var r := UnpackName(packet, start, true);
      r.text == Join(labels) && QuestionNameAt(packet, start, r.end, labels)
  {
    var r := UnpackName(packet, start, true);
    hide Wire, Join, LabelsWithin;
    labels := ScanFindsWire(packet, start, start, []);
    assert [] + labels == labels;
  }

  lemma QuestionNameRead(packet: seq<byte>, start: int, end: int, labels: seq<Text>)
    requires QuestionNameAt(packet, start, end, labels)
    ensures UnpackName(packet, start, true) == Name(Join(labels), end)
  {
    assert UnpackName(packet, start, true) == ScanLabels(packet, start, start, [], true);
    hide Wire, Join, LabelsWithin, ScanLabels, UnpackName;
    assert [] + labels == labels;
    if packet[start..end] == Wire(labels) + [0] {
      assert |packet[start..end]| == end - start == |Wire(labels)| + 1;
      ScanReadsWire(packet, start, start, [], labels, true);
    } else {
      ScanRunsOut(packet, start, start, [], labels);
    }
  }

  // The exact set of names accepted in a question.
  lemma QuestionNameExact(packet: seq<byte>, start: int, text: Text, end: int)
    ensures UnpackName(packet, start, true) == Name(text, end)
       <==> exists labels: seq<Text> :: text == Join(labels) && QuestionNameAt(packet, start, end, labels)
  {
    hide UnpackName, QuestionNameAt, Join;
    if UnpackName(packet, start, true) == Name(text, end) {
      var labels := QuestionNameFound(packet, start);
    }
    forall labels: seq<Text> | text == Join(labels) && QuestionNameAt(packet, start, end, labels)
      ensures UnpackName(packet, start, true) == Name(text, end)
    {
      QuestionNameRead(packet, start, end, labels);
    }
  }

  lemma {:induction false} ScanRunsOut(packet: seq<byte>, start: int, offset: int, parts: seq<Text>, labels: seq<Text>)
    requires 0 <= start <= offset <= |packet| && packet[offset..] == Wire(labels) && LabelsWithin(labels, 63)
    ensures ScanLabels(packet, start, offset, parts, true) == Name(Join(parts + labels), |packet|)
    decreases |labels|
  {
    hide Wire, Join, ScanLabels, LabelsWithin;
    EmptyWire();
    if labels == [] {
      assert |packet[offset..]| == 0;
      ScanEnds(packet, start, parts);
      assert parts + labels == parts;
    } else {
      var first, rest := labels[0], labels[1..];
      LabelsTail(labels, 63);
      assert packet[offset..|packet|] == packet[offset..] == Wire(labels) + [];
      WireHead(packet, offset, labels, []);
      var next := offset + 1 + |first|;
      assert packet[next..] == packet[next..|packet|] == Wire(rest) + [] == Wire(rest);
      ScanStep(packet, start, offset, parts, first, true);
      ScanRunsOut(packet, start, next, parts + [first], rest);
      assert parts + [first] + rest == parts + labels;
    }
  }

  // ---------- the simple reader, for RDATA without pointers ----------

  function ReadPlain(data: seq<byte>, offset: nat, parts: seq<Text>): Text
    requires offset <= |data|
    decreases |data| - offset
  {
    if offset == |data| || data[offset] == 0 then Join(parts)
    else
      var length := data[offset];
      if length >= 192 || offset + 1 + length > |data| then []
      else ReadPlain(data, offset + 1 + length, parts + [data[offset + 1..offset + 1 + length]])
  }

  function UncompressedName(data: seq<byte>): Text {
    ReadPlain(data, 0, [])
  }

  method ParseUncompressedName(data: seq<byte>) returns (name: Text)
    ensures name == UncompressedName(data)
  {
    var parts: seq<Text> := [];
    var offset := 0;
    while offset < |data|
      invariant 0 <= offset <= |data|
      invariant ReadPlain(data, offset, parts) == UncompressedName(data)
    {
      var length := data[offset];
      offset := offset + 1;
      if length == 0 {
        break;
      }
      if length >= 192 {
        return [];
      }
      if offset + length > |data| {
        return [];
      }
      parts := parts + [data[offset..offset + length]];
      offset := offset + length;
    }
    if |parts| == 0 {
      return [];
    }
    return Join(parts);
  }

  // The data reaches a zero terminator, and no byte at a length position before
  // it is a pointer byte.
  predicate TerminatesPlainly(data: seq<byte>, offset: nat)
    decreases |data| - offset
  {
    && offset < |data|
    && (data[offset] == 0 || (data[offset] < 192 && TerminatesPlainly(data, offset + 1 + data[offset])))
  }

  lemma {:induction false} ReadersScanAlike(packet: seq<byte>, at: nat, size: nat, offset: nat, parts: seq<Text>)
    requires at + size <= |packet| && offset <= size
    requires TerminatesPlainly(packet[at..at + size], offset)
    ensures var r := ScanLabels(packet, at, at + offset, parts, false);
      && r.Name? && r.text == ReadPlain(packet[at..at + size], offset, parts) && r.end <= at + size
    decreases size - offset
  {
    var data := packet[at..at + size];
    var length := data[offset];
    if length != 0 {
      var next := offset + 1 + length;
      SliceOfSlice(packet, at, at + size, offset + 1, next);
      ReadersScanAlike(packet, at, size, next, parts + [data[offset + 1..next]]);
    }
  }

  // On such data both readers see the same name.
  lemma ReadersAgree(packet: seq<byte>, at: nat, size: nat)
    requires at + size <= |packet|
    requires TerminatesPlainly(packet[at..at + size], 0)
    ensures var r := UnpackName(packet, at, false);
      && r.Name? && r.text == UncompressedName(packet[at..at + size]) && r.end <= at + size
  {
    ReadersScanAlike(packet, at, size, 0, []);
  }

  // On a well-formed name, compressed or not, the simple reader gives that name
  // or gives up.
  lemma {:induction false} PlainOnWellFormed(packet: seq<byte>, at: nat, size: nat, offset: nat, parts: seq<Text>,
                                             labels: seq<Text>)
    requires at + size <= |packet| && offset <= size
    requires WellFormed(packet, at, at + offset, labels, at + size)
    ensures ReadPlain(packet[at..at + size], offset, parts) in {[], Join(parts + labels)}
    decreases size - offset
  {
    var data := packet[at..at + size];
    if offset < size {
      assert data[offset] == packet[at + offset];
      var length := data[offset];
      if length == 0 {
        assert parts + labels == parts;
      } else if length < 64 {
        var next := offset + 1 + length;
        WellFormedEnds(packet, at, at + next, labels[1..], at + size);
        SliceOfSlice(packet, at, at + size, offset + 1, next);
        PlainOnWellFormed(packet, at, size, next, parts + [labels[0]], labels[1..]);
        assert parts + [labels[0]] + labels[1..] == parts + labels;
      }
    } else {
      WellFormedEnds(packet, at, at + offset, labels, at + size);
    }
  }

  lemma {:induction false} WellFormedEnds(packet: seq<byte>, start: int, offset: int, labels: seq<Text>, end: int)
    requires 0 <= start <= offset && WellFormed(packet, start, offset, labels, end)
    ensures offset < end <= |packet|
    decreases |packet| - offset
  {
    var length := packet[offset];
    if 0 < length < 64 {
      WellFormedEnds(packet, start, offset + 1 + length, labels[1..], end);
    }
  }
}
