// Presentation text of addresses, as net.ParseIP and net.IP.String give it.
// Dotted quads are written out; the text of a proper IPv6 address is a pair of
// functions supplied from outside, with the law that they are inverse.
module IpText {
  import opened GoText

  const COLON: byte := 58
  const PERCENT: byte := 37

  datatype V6 = V6(format: seq<byte> -> Text, parse: Text -> Option<seq<byte>>)

  const V4_PREFIX: seq<byte> := [0, 0, 0, 0, 0, 0, 0, 0, 0, 0, 255, 255]

  // To4 of a 16-byte address.
  function To4(ip: seq<byte>): Option<seq<byte>>
    requires |ip| == 16
  {
    if ip[..12] == V4_PREFIX then Some(ip[12..]) else None
  }

  // The first of '.', ':' and '%' decides how an address text is read.
  function FirstMark(t: Text): Option<byte> {
    if t == [] then None
    else if t[0] in {DOT, COLON, PERCENT} then Some(t[0])
    else FirstMark(t[1..])
  }

  ghost predicate Lawful(v6: V6) {
    && (forall t :: v6.parse(t).Some? ==> |v6.parse(t).value| == 16)
    && (forall b: seq<byte> :: |b| == 16 && To4(b).None? ==>
          v6.parse(v6.format(b)) == Some(b) && FirstMark(v6.format(b)) == Some(COLON))
  }

  // ---------- dotted quads ----------

  function FormatOctets(b: seq<byte>): seq<Text> {
    if b == [] then [] else [Decimal(b[0])] + FormatOctets(b[1..])
  }

  function FormatV4(b: seq<byte>): Text {
    Join(FormatOctets(b))
  }

  // One field: digits, no leading zero, at most 255.
  function ParseOctet(t: Text): Option<byte> {
    if t == [] || !AllDigits(t) || (|t| > 1 && t[0] == ZERO_DIGIT) || DecimalValue(t) > 255 then None
    else Some(DecimalValue(t))
  }

  function ParseOctets(parts: seq<Text>): Option<seq<byte>> {
    if parts == [] then Some([])
    else
      match (ParseOctet(parts[0]), ParseOctets(parts[1..]))
      case (Some(n), Some(rest)) => Some([n] + rest)
      case _ => None
  }

  function ParseV4(t: Text): Option<seq<byte>> {
    var parts := Split(t);
    if |parts| == 4 then ParseOctets(parts) else None
  }

  function ParseIP(v6: V6, t: Text): Option<seq<byte>> {
    match FirstMark(t)
    case None => None
    case Some(c) =>
      if c == DOT then
        match ParseV4(t) { case Some(b) => Some(V4_PREFIX + b) case None => None }
      else if c == COLON then v6.parse(t)
      else None
  }

  // String of a 4-byte or 16-byte address.
  function FormatIP(v6: V6, b: seq<byte>): Text {
    if |b| == 16 then
      match To4(b) { case Some(quad) => FormatV4(quad) case None => v6.format(b) }
    else FormatV4(b)
  }

  lemma {:induction false} OctetsRead(b: seq<byte>)
    ensures |FormatOctets(b)| == |b| && ParseOctets(FormatOctets(b)) == Some(b) && DotFree(FormatOctets(b))
  {
    if b != [] {
      OctetsRead(b[1..]);
      DecimalReads(b[0]);
      assert FormatOctets(b)[1..] == FormatOctets(b[1..]);
      assert forall i | 1 <= i < |FormatOctets(b)| :: FormatOctets(b)[i] == FormatOctets(b[1..])[i - 1];
      assert b == [b[0]] + b[1..];
    }
  }

  lemma {:induction false} FirstMarkAfterDigits(digits: Text, rest: Text)
    requires AllDigits(digits) && rest != [] && rest[0] == DOT
    ensures FirstMark(digits + rest) == Some(DOT)
  {
    if digits == [] {
      assert digits + rest == rest;
    } else {
      assert (digits + rest)[1..] == digits[1..] + rest;
      FirstMarkAfterDigits(digits[1..], rest);
    }
  }

  lemma V4Reads(v6: V6, b: seq<byte>)
    requires |b| == 4
    ensures ParseIP(v6, FormatV4(b)) == Some(V4_PREFIX + b) && FormatV4(b) != []
  {
    OctetsRead(b);
    var parts := FormatOctets(b);
    SplitJoin(parts);
    assert FormatV4(b) == Decimal(b[0]) + ([DOT] + Join(parts[1..]));
    FirstMarkAfterDigits(Decimal(b[0]), [DOT] + Join(parts[1..]));
  }

  // Formatting an address and parsing the text gives the address back: a quad
  // as its 16-byte form, whatever the textual form chosen for 16 bytes.
  lemma AddressReads(v6: V6, b: seq<byte>)
    requires Lawful(v6) && |b| in {4, 16}
    ensures ParseIP(v6, FormatIP(v6, b)) == Some(if |b| == 4 then V4_PREFIX + b else b)
    ensures FormatIP(v6, b) != []
  {
    if |b| == 4 {
      V4Reads(v6, b);
    } else if b[..12] == V4_PREFIX {
      V4Reads(v6, b[12..]);
      assert b == b[..12] + b[12..];
    }
  }

  function SixteenAfterColon(t: Text): Option<seq<byte>> {
    if |t| == 17 && t[0] == COLON then Some(t[1..]) else None
  }

  // The law can be met.
  lemma LawfulIsSatisfiable()
    ensures exists v6 :: Lawful(v6)
  {
    var v6 := V6(b => [COLON] + b, SixteenAfterColon);
    forall b: seq<byte> | |b| == 16
      ensures v6.parse(v6.format(b)) == Some(b) && FirstMark(v6.format(b)) == Some(COLON)
    {
      assert ([COLON] + b)[1..] == b;
    }
    assert Lawful(v6);
  }

  // ---------- address texts, spelled out ----------

  function OctetText(n: byte): Text {
    if n < 10 then [48 + n]
    else if n < 100 then [48 + n / 10, 48 + n % 10]
    else [48 + n / 100, 48 + n / 10 % 10, 48 + n % 10]
  }

  function QuadText(b: seq<byte>): Text
    requires |b| == 4
  {
    OctetText(b[0]) + [46] + OctetText(b[1]) + [46] + OctetText(b[2]) + [46] + OctetText(b[3])
  }

  lemma DecimalOfOctet(n: byte)
    ensures Decimal(n) == OctetText(n)
  {
    if 10 <= n {
      assert Decimal(n) == Decimal(n / 10) + [48 + n % 10];
      if 100 <= n {
        assert Decimal(n / 10) == Decimal(n / 100) + [48 + n / 10 % 10];
        assert n / 10 / 10 == n / 100;
      }
    }
  }

  // Four bytes are printed as four decimal numbers, first byte first.
  lemma QuadIsPrinted(v6: V6, b: seq<byte>)
    requires |b| == 4
    ensures FormatIP(v6, b) == FormatV4(b) == QuadText(b)
  {
    DecimalOfOctet(b[0]);
    DecimalOfOctet(b[1]);
    DecimalOfOctet(b[2]);
    DecimalOfOctet(b[3]);
    hide Decimal, OctetText;
    QuadOctets(b);
    QuadJoin(FormatOctets(b));
  }

  lemma QuadOctets(b: seq<byte>)
    requires |b| == 4
    ensures FormatOctets(b) == [Decimal(b[0]), Decimal(b[1]), Decimal(b[2]), Decimal(b[3])]
  {
    hide Decimal;
    assert b[1..][1..] == b[2..] && b[2..][1..] == b[3..] && b[3..][1..] == [];
    assert FormatOctets(b[3..]) == [Decimal(b[3])];
    assert FormatOctets(b[2..]) == [Decimal(b[2]), Decimal(b[3])];
    assert FormatOctets(b[1..]) == [Decimal(b[1]), Decimal(b[2]), Decimal(b[3])];
  }

  lemma QuadJoin(p: seq<Text>)
    requires |p| == 4
    ensures Join(p) == p[0] + [46] + p[1] + [46] + p[2] + [46] + p[3]
  {
    assert p[1..][1..] == p[2..] && p[2..][1..] == p[3..];
    assert Join(p[3..]) == p[3];
    assert Join(p[2..]) == p[2] + [46] + p[3];
    assert Join(p[1..]) == p[1] + [46] + (p[2] + [46] + p[3]);
  }

  lemma {:induction false} OctetsPrinted(parts: seq<Text>)
    requires ParseOctets(parts).Some?
    ensures FormatOctets(ParseOctets(parts).value) == parts
  {
    if parts != [] {
      OctetsPrinted(parts[1..]);
      DecimalOfValue(parts[0]);
      assert parts == [parts[0]] + parts[1..];
      var b := ParseOctets(parts).value;
      assert b[1..] == ParseOctets(parts[1..]).value;
    }
  }

  // The texts read as a quad are exactly the printed quads.
  lemma QuadExact(t: Text, b: seq<byte>)
    ensures ParseV4(t) == Some(b) <==> |b| == 4 && t == FormatV4(b)
  {
    if ParseV4(t) == Some(b) {
      OctetsPrinted(Split(t));
      JoinSplit(t);
      OctetsRead(b);
    }
    if |b| == 4 && t == FormatV4(b) {
      OctetsRead(b);
      SplitJoin(FormatOctets(b));
    }
  }

  // The first of the bytes '.', ':' and '%' in the text is this one.
  ghost predicate FirstOf(t: Text, c: byte) {
    c in {46, 58, 37} && exists i | 0 <= i < |t| :: t[i] == c && forall j | 0 <= j < i :: t[j] !in {46, 58, 37}
  }

  lemma {:induction false} FirstMarkExact(t: Text, c: byte)
    ensures FirstMark(t) == Some(c) <==> FirstOf(t, c)
  {
    if t != [] {
      FirstMarkExact(t[1..], c);
      if t[0] !in {46, 58, 37} {
        if FirstOf(t[1..], c) {
          var i :| 0 <= i < |t[1..]| && t[1..][i] == c && forall j | 0 <= j < i :: t[1..][j] !in {46, 58, 37};
          assert t[i + 1] == c && forall j | 0 <= j < i + 1 :: t[j] !in {46, 58, 37};
        }
        if FirstOf(t, c) {
          var i :| 0 <= i < |t| && t[i] == c && forall j | 0 <= j < i :: t[j] !in {46, 58, 37};
          assert t[1..][i - 1] == c && forall j | 0 <= j < i - 1 :: t[1..][j] == t[j + 1];
        }
      } else {
        assert t[0] == c ==> FirstOf(t, c);
      }
    }
  }

  // What an address text stands for, as 16 bytes: a printed quad behind the
  // prefix of ten zeros and two 255s, or what the IPv6 reader makes of a text in
  // which a colon comes first; nothing else is an address.
  lemma AddressExact(v6: V6, t: Text)
    ensures forall b: seq<byte> | |b| == 4 && t == QuadText(b) ::
              ParseIP(v6, t) == Some([0, 0, 0, 0, 0, 0, 0, 0, 0, 0, 255, 255] + b)
    ensures FirstOf(t, 58) ==> ParseIP(v6, t) == v6.parse(t)
    ensures !FirstOf(t, 58) && (forall b: seq<byte> | |b| == 4 :: t != QuadText(b)) ==> ParseIP(v6, t) == None
  {
    hide QuadText, FormatV4, ParseV4, FirstOf, FirstMark;
    forall b: seq<byte> | |b| == 4 ensures FormatV4(b) == QuadText(b) {
      QuadIsPrinted(v6, b);
    }
    forall b: seq<byte> | |b| == 4 && t == QuadText(b)
      ensures ParseIP(v6, t) == Some([0, 0, 0, 0, 0, 0, 0, 0, 0, 0, 255, 255] + b)
    {
      V4Reads(v6, b);
    }
    FirstMarkExact(t, 58);
    FirstMarkExact(t, 46);
    MarkedByThree(t);
    forall b ensures ParseV4(t) == Some(b) <==> |b| == 4 && t == FormatV4(b) {
      QuadExact(t, b);
    }
  }

  lemma {:induction false} MarkedByThree(t: Text)
    ensures FirstMark(t).Some? ==> FirstMark(t).value in {46, 58, 37}
  {
    if t != [] {
      MarkedByThree(t[1..]);
    }
  }
}
