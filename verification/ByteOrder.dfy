// Keys in byte order, as a bbolt bucket and its cursors present them.
module ByteOrder {
  import opened GoText

  predicate Less(a: Text, b: Text) {
    b != [] && (a == [] || a[0] < b[0] || (a[0] == b[0] && Less(a[1..], b[1..])))
  }

  // The texts agree up to i, and there the first ends or has the smaller byte.
  ghost predicate DifferAt(a: Text, b: Text, i: nat) {
    i <= |a| && i < |b| && a[..i] == b[..i] && (i < |a| ==> a[i] < b[i])
  }

  lemma FirstAgrees(a: Text, b: Text, i: nat)
    requires DifferAt(a, b, i) && i > 0
    ensures a[0] == b[0]
  {
    assert a[..i][0] == a[0] && b[..i][0] == b[0];
  }

  // The order of the keys: by the first byte that differs, a prefix first.
  lemma {:induction false} LessExact(a: Text, b: Text)
    ensures Less(a, b) <==> exists i: nat :: DifferAt(a, b, i)
    decreases |a|
  {
    if a == [] || b == [] {
      assert b != [] ==> DifferAt(a, b, 0);
    } else if a[0] != b[0] {
      assert a[0] < b[0] ==> DifferAt(a, b, 0);
      forall i: nat | DifferAt(a, b, i) ensures a[0] < b[0] {
        if i > 0 {
          FirstAgrees(a, b, i);
        }
      }
    } else {
      LessExact(a[1..], b[1..]);
      forall i: nat | DifferAt(a[1..], b[1..], i) ensures DifferAt(a, b, i + 1) {
        assert a[..i + 1] == [a[0]] + a[1..][..i] && b[..i + 1] == [b[0]] + b[1..][..i];
      }
      forall i: nat | DifferAt(a, b, i) ensures i > 0 && DifferAt(a[1..], b[1..], i - 1) {
        assert a[..i][1..] == a[1..][..i - 1] && b[..i][1..] == b[1..][..i - 1];
      }
    }
  }

  lemma {:induction false} LessTotal(a: Text, b: Text)
    ensures Less(a, b) || a == b || Less(b, a)
    ensures !(Less(a, b) && Less(b, a))
    decreases |a|
  {
    if a != [] && b != [] {
      LessTotal(a[1..], b[1..]);
      assert a == [a[0]] + a[1..] && b == [b[0]] + b[1..];
    }
  }

  lemma {:induction false} LessTransitive(a: Text, b: Text, c: Text)
    requires Less(a, b) && Less(b, c)
    ensures Less(a, c)
  {
    if a != [] && a[0] == b[0] == c[0] {
      LessTransitive(a[1..], b[1..], c[1..]);
    }
  }

  // A text with a prefix is not before the prefix.
  lemma {:induction false} PrefixNotAfter(prefix: Text, t: Text)
    requires HasPrefix(t, prefix)
    ensures !Less(t, prefix)
  {
    if prefix != [] {
      assert t[0] == t[..|prefix|][0];
      assert t[1..][..|prefix| - 1] == t[..|prefix|][1..];
      PrefixNotAfter(prefix[1..], t[1..]);
    }
  }

  // The texts with a prefix lie together: what is between the prefix and one of
  // them has the prefix too.
  lemma {:induction false} PrefixContiguous(prefix: Text, mid: Text, t: Text)
    requires HasPrefix(t, prefix) && !Less(mid, prefix) && (Less(mid, t) || mid == t)
    ensures HasPrefix(mid, prefix)
  {
    if prefix != [] && mid != t {
      assert t[0] == prefix[0];
      assert t[1..][..|prefix| - 1] == prefix[1..];
      assert mid != [] && mid[0] == prefix[0];
      PrefixContiguous(prefix[1..], mid[1..], t[1..]);
      assert mid[..|prefix|] == [mid[0]] + mid[1..][..|prefix| - 1];
    }
  }

  // ---------- the least key ----------

  ghost predicate IsLeast(k: Text, keys: set<Text>) {
    k in keys && forall j | j in keys :: j == k || Less(k, j)
  }

  method Least(keys: set<Text>) returns (k: Text)
    requires keys != {}
    ensures IsLeast(k, keys)
  {
    k :| k in keys;
    var rest := keys - {k};
    while rest != {}
      invariant rest <= keys && k in keys
      invariant forall j | j in keys - rest :: j == k || Less(k, j)
      decreases |rest|
    {
      var j :| j in rest;
      LessTotal(j, k);
      if Less(j, k) {
        forall i | i in keys - rest ensures i == j || Less(j, i) {
          if i != k {
            LessTransitive(j, k, i);
          }
        }
        k := j;
      }
      rest := rest - {j};
    }
  }

  // Cursor.Seek: the least key that is not before the given one.
  method Seek(keys: set<Text>, from: Text) returns (k: Option<Text>)
    ensures k.None? ==> forall j | j in keys :: Less(j, from)
    ensures k.Some? ==> IsLeast(k.value, set j | j in keys && !Less(j, from))
  {
    var rest := set j | j in keys && !Less(j, from);
    if rest == {} {
      assert forall j | j in keys :: Less(j, from) || j in rest;
      return None;
    }
    var least := Least(rest);
    return Some(least);
  }

  // Cursor.Next: the least key after the given one.
  method Next(keys: set<Text>, after: Text) returns (k: Option<Text>)
    ensures k.None? ==> forall j | j in keys :: !Less(after, j)
    ensures k.Some? ==> IsLeast(k.value, set j | j in keys && Less(after, j))
  {
    var rest := set j | j in keys && Less(after, j);
    if rest == {} {
      assert forall j | j in keys :: !Less(after, j) || j in rest;
      return None;
    }
    var least := Least(rest);
    return Some(least);
  }
}
