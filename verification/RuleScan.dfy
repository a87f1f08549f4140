// Finding domain names in a line of a rule file: dotted runs of letters, digits,
// underscores and hyphens, as the rule pattern captures them.
module RuleScan {
  import opened GoText

  predicate IsLabelByte(b: byte) {
    48 <= b <= 57 || 65 <= b <= 90 || 97 <= b <= 122 || b == 95 || b == 45
  }

  predicate LabelAt(t: Text, i: int) {
    0 <= i < |t| && IsLabelByte(t[i])
  }

  predicate DotAt(t: Text, i: int) {
    0 <= i < |t| && t[i] == DOT
  }

  // A label byte, or a single dot between two labels.
  predicate InName(t: Text, x: int) {
    LabelAt(t, x) || (DotAt(t, x) && LabelAt(t, x - 1) && LabelAt(t, x + 1))
  }

  // ---------- the scanner ----------

  // The end of the run of label bytes at i.
  function LabelEnd(t: Text, i: nat): (j: nat)
    requires i <= |t|
    ensures i <= j <= |t| && !LabelAt(t, j)
    ensures forall x | i <= x < j :: LabelAt(t, x)
    ensures LabelAt(t, i) ==> i < j
    decreases |t| - i
  {
    if LabelAt(t, i) then LabelEnd(t, i + 1) else i
  }

  // The end of the dotted name whose current label ends at j.
  function NameEnd(t: Text, j: nat): (k: nat)
    requires j <= |t| && !LabelAt(t, j) && LabelAt(t, j - 1)
    ensures j <= k <= |t| && !LabelAt(t, k) && LabelAt(t, k - 1) && !(DotAt(t, k) && LabelAt(t, k + 1))
    ensures forall x | j <= x < k :: InName(t, x)
    ensures k == j || DotAt(t, j)
    decreases |t| - j
  {
    if DotAt(t, j) && LabelAt(t, j + 1) then NameEnd(t, LabelEnd(t, j + 1)) else j
  }

  // The names from position i on, left to right; one label alone is no name.
  function Captures(t: Text, i: nat): seq<Text>
    requires i <= |t|
    decreases |t| - i
  {
    if i == |t| then []
    else if !LabelAt(t, i) then Captures(t, i + 1)
    else
      var j := LabelEnd(t, i);
      var k := NameEnd(t, j);
      if k > j then [t[i..k]] + Captures(t, k) else Captures(t, j)
  }

  method FindNames(t: Text) returns (names: seq<Text>)
    ensures names == Captures(t, 0)
  {
    names := [];
    var i := 0;
    while i < |t|
      invariant 0 <= i <= |t|
      invariant names + Captures(t, i) == Captures(t, 0)
      decreases |t| - i
    {
      if LabelAt(t, i) {
        var j := LabelEnd(t, i);
        var k := NameEnd(t, j);
        if k > j {
          ConcatAssoc(names, [t[i..k]], Captures(t, k));
          names := names + [t[i..k]];
        }
        i := k;
      } else {
        i := i + 1;
      }
    }
  }

  // ---------- what a name in a line is ----------

  // Between i and k lie only bytes of a name, at least one of them a dot, and
  // the name can be extended on neither side.
  ghost predicate MaximalName(t: Text, i: int, k: int) {
    && 0 <= i < k <= |t|
    && LabelAt(t, i) && LabelAt(t, k - 1)
    && (forall x | i <= x < k :: InName(t, x))
    && (exists x | i <= x < k :: DotAt(t, x))
    && StartsHere(t, i)
    && !LabelAt(t, k) && !(DotAt(t, k) && LabelAt(t, k + 1))
  }

  // No name runs up to position i from the left.
  predicate StartsHere(t: Text, i: int) {
    !LabelAt(t, i - 1) && !(DotAt(t, i - 1) && LabelAt(t, i - 2))
  }

  // Where the scanner stands: no name runs across this position.
  ghost predicate Stands(t: Text, i: int) {
    if LabelAt(t, i) then StartsHere(t, i) else !(DotAt(t, i) && LabelAt(t, i - 1) && LabelAt(t, i + 1))
  }

  lemma NotBoth(t: Text)
    ensures forall x | LabelAt(t, x) :: !DotAt(t, x)
  {
  }

  // Every byte from i up to k belongs to a name, and nothing continues it at k.
  ghost predicate Stretch(t: Text, i: int, k: int) {
    && (forall x | i <= x < k :: InName(t, x))
    && !LabelAt(t, k) && !(DotAt(t, k) && LabelAt(t, k + 1))
  }

  lemma OneEnd(t: Text, i: int, b: int, k: int)
    requires i <= b && i <= k && Stretch(t, i, b) && Stretch(t, i, k)
    ensures b == k
  {
    hide LabelAt, DotAt;
    assert b < k ==> InName(t, b);
    assert k < b ==> InName(t, k);
  }

  lemma NoStartInside(t: Text, i: int, k: int, a: int)
    requires Stretch(t, i, k) && i < a && StartsHere(t, a)
    ensures k <= a
  {
    hide LabelAt, DotAt;
    assert a < k ==> InName(t, a - 1);
  }

  // A run whose first label ends at j and which ends at k.
  ghost predicate Run(t: Text, i: int, j: int, k: int) {
    && 0 <= i < j <= k <= |t|
    && (forall x | i <= x < j :: LabelAt(t, x))
    && Stretch(t, i, k) && LabelAt(t, k - 1)
    && (k == j || DotAt(t, j))
  }

  lemma ScannedRun(t: Text, i: nat)
    requires LabelAt(t, i)
    ensures Run(t, i, LabelEnd(t, i), NameEnd(t, LabelEnd(t, i)))
  {
  }

  lemma RunIsMaximal(t: Text, i: int, j: int, k: int)
    requires Run(t, i, j, k) && StartsHere(t, i) && k > j
    ensures MaximalName(t, i, k)
  {
    hide StartsHere, LabelAt, DotAt;
    assert LabelAt(t, i);
  }

  lemma NoDotNoName(t: Text, i: int, j: int)
    requires Run(t, i, j, j)
    ensures !MaximalName(t, i, j)
  {
    hide StartsHere, LabelAt, DotAt, Stretch;
    NotBoth(t);
  }

  // From a label that begins a run, exactly the scanned name is maximal, if it
  // has a dot, and no name begins inside the run.
  lemma NameFrom(t: Text, i: nat, b: int)
    requires LabelAt(t, i) && StartsHere(t, i)
    ensures var j := LabelEnd(t, i);
      var k := NameEnd(t, j);
      && (MaximalName(t, i, b) <==> b == k && k > j)
      && (forall a, c :: MaximalName(t, a, c) && i < a ==> k <= a)
  {
    var j := LabelEnd(t, i);
    var k := NameEnd(t, j);
    hide StartsHere, DotAt, LabelAt, MaximalName;
    ScannedRun(t, i);
    if MaximalName(t, i, b) {
      MaximalStretch(t, i, b);
      OneEnd(t, i, b, k);
    }
    if k > j {
      RunIsMaximal(t, i, j, k);
    } else {
      NoDotNoName(t, i, j);
    }
    forall a, c | MaximalName(t, a, c) && i < a ensures k <= a {
      MaximalStretch(t, a, c);
      NoStartInside(t, i, k, a);
    }
  }

  lemma MaximalStretch(t: Text, i: int, k: int)
    requires MaximalName(t, i, k)
    ensures i < k && Stretch(t, i, k) && StartsHere(t, i)
  {
    hide StartsHere, LabelAt, DotAt;
  }

  ghost predicate Found(t: Text, i: int, name: Text) {
    exists a, b | i <= a :: MaximalName(t, a, b) && name == t[a..b]
  }

  lemma FoundLater(t: Text, i: nat, name: Text)
    requires i < |t| && !LabelAt(t, i)
    ensures Found(t, i, name) <==> Found(t, i + 1, name)
  {
    if Found(t, i, name) {
      var a, b :| i <= a && MaximalName(t, a, b) && name == t[a..b];
      assert a != i;
    }
  }

  lemma FoundHere(t: Text, i: nat, name: Text)
    requires LabelAt(t, i) && StartsHere(t, i)
    ensures var j := LabelEnd(t, i);
      var k := NameEnd(t, j);
      Found(t, i, name) <==> (k > j && name == t[i..k]) || Found(t, k, name)
  {
    var j := LabelEnd(t, i);
    var k := NameEnd(t, j);
    hide MaximalName, StartsHere, LabelAt, DotAt;
    NameFrom(t, i, k);
    if Found(t, i, name) {
      var a, b :| i <= a && MaximalName(t, a, b) && name == t[a..b];
      NameFrom(t, i, b);
      assert a == i ==> b == k;
      assert a != i ==> Found(t, k, name);
    }
    if Found(t, k, name) {
      var a, b :| k <= a && MaximalName(t, a, b) && name == t[a..b];
      assert i <= a;
    }
  }

  // From where it stands the scanner finds the maximal names that begin there or
  // later, and nothing else.
  lemma {:induction false} CapturesFrom(t: Text, i: nat, name: Text)
    requires i <= |t| && Stands(t, i)
    ensures name in Captures(t, i) <==> Found(t, i, name)
    decreases |t| - i
  {
    if i == |t| {
    } else if !LabelAt(t, i) {
      CapturesFrom(t, i + 1, name);
      FoundLater(t, i, name);
    } else {
      CapturesFrom(t, NameEnd(t, LabelEnd(t, i)), name);
      FoundHere(t, i, name);
      hide Found;
    }
  }

  // The scanner captures the maximal dotted names of a line, all of them and
  // only those.
  lemma CapturesExact(t: Text, name: Text)
    ensures name in Captures(t, 0) <==> exists a, b :: MaximalName(t, a, b) && name == t[a..b]
  {
    CapturesFrom(t, 0, name);
    hide MaximalName;
  }
}
