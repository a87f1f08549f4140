// Go strings and byte slices as sequences of bytes, with the string operations
// the program takes from Go's standard library: joining and splitting at a dot,
// and decimal text.
module GoText {
  type byte = x: int | 0 <= x < 256
  type u16 = x: int | 0 <= x < 0x1_0000
  type u32 = x: int | 0 <= x < 0x1_0000_0000
  type Text = seq<byte>

  datatype Option<+T> = None | Some(value: T)

  const DOT: byte := 46
  const PIPE: byte := 124
  const ZERO_DIGIT: byte := 48

  predicate HasPrefix(t: Text, prefix: Text) {
    |prefix| <= |t| && t[..|prefix|] == prefix
  }

  predicate HasSuffix(t: Text, suffix: Text) {
    |suffix| <= |t| && t[|t| - |suffix|..] == suffix
  }

  // ---------- strings.Join(parts, ".") and strings.Split(t, ".") ----------

  function Join(parts: seq<Text>): Text {
    if |parts| == 0 then []
    else if |parts| == 1 then parts[0]
    else parts[0] + [DOT] + Join(parts[1..])
  }

  function Split(t: Text): (parts: seq<Text>)
    ensures |parts| >= 1
  {
    if t == [] then [[]]
    else
      var rest := Split(t[1..]);
      if t[0] == DOT then [[]] + rest else [[t[0]] + rest[0]] + rest[1..]
  }

  ghost predicate DotFree(parts: seq<Text>) {
    forall i | 0 <= i < |parts| :: DOT !in parts[i]
  }

  lemma {:induction false} SplitIsDotFree(t: Text)
    ensures DotFree(Split(t))
  {
    if t != [] {
      SplitIsDotFree(t[1..]);
    }
  }

  // Splitting loses nothing.
  lemma {:induction false} JoinSplit(t: Text)
    ensures Join(Split(t)) == t
  {
    if t != [] {
      JoinSplit(t[1..]);
      var rest := Split(t[1..]);
      if t[0] == DOT {
        assert ([[]] + rest)[1..] == rest;
        assert Join(Split(t)) == [] + [DOT] + t[1..];
      } else if |rest| == 1 {
        assert rest[1..] == [];
        assert Join(Split(t)) == [t[0]] + rest[0];
      } else {
        assert Split(t)[1..] == rest[1..];
        assert Join(Split(t)) == [t[0]] + Join(rest);
      }
    }
  }

  // Joining dot-free parts loses nothing either.
  lemma {:induction false} SplitJoin(parts: seq<Text>)
    requires |parts| >= 1 && DotFree(parts)
    ensures Split(Join(parts)) == parts
    decreases |parts|, if |parts| == 0 then 0 else |parts[0]|
  {
    var t := Join(parts);
    if |parts[0]| > 0 {
      var shorter := [parts[0][1..]] + parts[1..];
      assert shorter[1..] == parts[1..];
      assert t[1..] == Join(shorter);
      assert forall i | 0 <= i < |shorter| :: DOT !in shorter[i];
      SplitJoin(shorter);
      assert t[0] == parts[0][0] && parts[0][0] in parts[0];
      assert parts[0] == [t[0]] + shorter[0];
      assert parts == [[t[0]] + shorter[0]] + shorter[1..];
    } else if |parts| > 1 {
      SplitJoin(parts[1..]);
      assert t == [DOT] + Join(parts[1..]);
      assert t[1..] == Join(parts[1..]);
      assert parts == [[]] + parts[1..];
    } else {
      assert parts == [[]];
    }
  }

  // A name spliced in as one part reads the same as its labels spliced in.
  lemma {:induction false} JoinNested(parts: seq<Text>, tail: seq<Text>)
    requires |tail| >= 1
    ensures Join(parts + [Join(tail)]) == Join(parts + tail)
  {
    if |parts| == 0 {
      assert parts + [Join(tail)] == [Join(tail)] && parts + tail == tail;
    } else {
      JoinNested(parts[1..], tail);
      assert (parts + [Join(tail)])[1..] == parts[1..] + [Join(tail)];
      assert (parts + tail)[1..] == parts[1..] + tail;
    }
  }

  lemma {:induction false} JoinLength(parts: seq<Text>)
    requires |parts| >= 1
    ensures |Join(parts)| >= |parts[0]|
    ensures |parts| >= 2 ==> |Join(parts)| >= 1
  {
  }

  // ---------- decimal text ----------

  predicate AllDigits(t: Text) {
    forall i | 0 <= i < |t| :: 48 <= t[i] <= 57
  }

  // fmt's %d for a non-negative number.
  function Decimal(n: nat): (t: Text)
    ensures |t| >= 1 && AllDigits(t)
  {
    if n < 10 then [48 + n] else Decimal(n / 10) + [48 + n % 10]
  }

  function DecimalValue(t: Text): nat
    requires AllDigits(t)
  {
    if t == [] then 0 else 10 * DecimalValue(t[..|t| - 1]) + (t[|t| - 1] - 48)
  }

  lemma {:induction false} DecimalReads(n: nat)
    ensures DecimalValue(Decimal(n)) == n
    ensures |Decimal(n)| == 1 || Decimal(n)[0] != ZERO_DIGIT
  {
    if n >= 10 {
      DecimalReads(n / 10);
      assert Decimal(n)[..|Decimal(n)| - 1] == Decimal(n / 10);
      if n / 10 < 10 {
        assert Decimal(n / 10) == [48 + n / 10];
      }
    }
  }

  lemma {:induction false} PositiveValue(t: Text)
    requires AllDigits(t) && t != [] && t[0] != ZERO_DIGIT
    ensures DecimalValue(t) > 0
  {
    if |t| > 1 {
      PositiveValue(t[..|t| - 1]);
    }
  }

  // Digits without a leading zero are the decimal text of their value.
  lemma {:induction false} DecimalOfValue(t: Text)
    requires AllDigits(t) && t != [] && (|t| == 1 || t[0] != ZERO_DIGIT)
    ensures Decimal(DecimalValue(t)) == t
  {
    var front, last := t[..|t| - 1], t[|t| - 1];
    if |t| > 1 {
      PositiveValue(front);
      DecimalOfValue(front);
      assert t == front + [last];
    } else {
      assert front == [] && t == [last];
    }
  }

  // ---------- slices of slices ----------

  lemma SliceOfSlice<T>(s: seq<T>, lo: nat, hi: nat, i: nat, j: nat)
    requires lo <= hi <= |s| && i <= j <= hi - lo
    ensures s[lo..hi][i..j] == s[lo + i..lo + j]
  {
    var a, b := s[lo..hi][i..j], s[lo + i..lo + j];
    assert |a| == |b|;
    forall k | 0 <= k < |a| ensures a[k] == b[k] {
      assert s[lo..hi][i + k] == s[lo + i + k];
    }
  }

  lemma ConcatAssoc<T>(a: seq<T>, b: seq<T>, c: seq<T>)
    ensures a + b + c == a + (b + c)
  {
  }

  lemma ConcatPieces<T>(a: seq<T>, b: seq<T>, c: seq<T>)
    ensures (a + b + c)[..|a|] == a
    ensures (a + b + c)[|a|..|a| + |b|] == b
    ensures (a + b + c)[|a| + |b|..|a| + |b| + |c|] == c
  {
  }

  lemma ConsSlice(packet: seq<byte>, offset: nat, head: byte, body: seq<byte>, tail: seq<byte>)
    requires offset + 1 + |body| + |tail| <= |packet|
    requires packet[offset..offset + 1 + |body| + |tail|] == [head] + body + tail
    ensures packet[offset] == head
    ensures packet[offset + 1..offset + 1 + |body|] == body
    ensures packet[offset + 1 + |body|..offset + 1 + |body| + |tail|] == tail
  {
    var hi := offset + 1 + |body| + |tail|;
    ConcatPieces([head], body, tail);
    assert packet[offset] == packet[offset..hi][0];
    SliceOfSlice(packet, offset, hi, 1, 1 + |body|);
    SliceOfSlice(packet, offset, hi, 1 + |body|, 1 + |body| + |tail|);
  }

  lemma SliceAt(packet: seq<byte>, offset: nat, next: nat, end: nat)
    requires offset < next <= end <= |packet|
    ensures packet[offset..end] == [packet[offset]] + packet[offset + 1..next] + packet[next..end]
  {
  }
}
