// Normal forms, matching and rule files told byte by byte.
module NormalForms {
  import opened GoText
  import opened RuleScan
  import opened Routing

  // ---------- ASCII ----------

  function Ascii(s: string): Text
    requires forall i | 0 <= i < |s| :: s[i] as int < 128
  {
    seq(|s|, i requires 0 <= i < |s| => s[i] as int)
  }

  predicate Capital(b: byte) {
    65 <= b <= 90
  }

  // The same byte, or the two cases of one letter.
  predicate SameLetter(a: byte, b: byte) {
    a == b || (Capital(a) && b == a + 32) || (Capital(b) && a == b + 32)
  }

  predicate Blank(b: byte) {
    b in {9, 10, 11, 12, 13, 32}
  }

  ghost predicate AllBlank(t: Text) {
    forall i | 0 <= i < |t| :: Blank(t[i])
  }

  lemma Spelled()
    ensures HTTP == Ascii("http://") && HTTPS == Ascii("https://")
    ensures WHITELIST == Ascii("Whitelist") && COMMENT == Ascii("!") && SECTION == Ascii("[")
  {
  }

  // The bytes of a label.
  lemma LabelAlphabet(b: byte)
    ensures IsLabelByte(b) <==>
              || Ascii("a")[0] <= b <= Ascii("z")[0] || Ascii("A")[0] <= b <= Ascii("Z")[0]
              || Ascii("0")[0] <= b <= Ascii("9")[0] || b == Ascii("_")[0] || b == Ascii("-")[0]
  {
  }

  // ---------- case ----------

  // A normal form has no capital letters.
  lemma NoCapitals(domain: Text)
    ensures forall i | 0 <= i < |Normalize(domain)| :: !Capital(Normalize(domain)[i])
  {
    NormalizedShape(domain);
    hide Normalize;
  }

  ghost predicate SameLetters(a: Text, b: Text) {
    |a| == |b| && forall i | 0 <= i < |a| :: SameLetter(a[i], b[i])
  }

  lemma {:induction false} TrimLeftAlike(a: Text, b: Text)
    requires SameLetters(a, b)
    ensures SameLetters(TrimLeft(a), TrimLeft(b))
  {
    if a != [] && IsSpace(a[0]) {
      TrimLeftAlike(a[1..], b[1..]);
    }
  }

  lemma {:induction false} TrimRightAlike(a: Text, b: Text)
    requires SameLetters(a, b)
    ensures SameLetters(TrimRight(a), TrimRight(b))
  {
    if a != [] && IsSpace(a[|a| - 1]) {
      TrimRightAlike(a[..|a| - 1], b[..|b| - 1]);
    }
  }

  lemma LoweredAlike(a: Text, b: Text)
    requires SameLetters(a, b)
    ensures ToLower(a) == ToLower(b)
  {
    hide ToLower;
  }

  // Names that differ only in the case of their letters have one normal form.
  lemma CaseIsIgnored(a: Text, b: Text)
    requires SameLetters(a, b)
    ensures Normalize(a) == Normalize(b)
  {
    TrimLeftAlike(a, b);
    TrimRightAlike(TrimLeft(a), TrimLeft(b));
    LoweredAlike(TrimSpace(a), TrimSpace(b));
  }

  // So they are routed alike.
  lemma RoutedAlike(rules: set<Text>, a: Text, b: Text, forA: Route, forB: Route)
    requires SameLetters(a, b)
    requires Decides(rules, Normalize(a), forA) && Decides(rules, Normalize(b), forB)
    ensures forA == forB
  {
    CaseIsIgnored(a, b);
    hide Normalize, SameLetters;
    DecisionUnique(rules, Normalize(a), forA, forB);
  }

  // ---------- blanks and schemes ----------

  lemma {:induction false} BlanksTrimmedLeft(before: Text, t: Text)
    requires AllBlank(before)
    ensures TrimLeft(before + t) == TrimLeft(t)
  {
    if before == [] {
      assert before + t == t;
    } else {
      assert (before + t)[1..] == before[1..] + t;
      BlanksTrimmedLeft(before[1..], t);
    }
  }

  lemma {:induction false} BlanksTrimmedRight(t: Text, after: Text)
    requires AllBlank(after)
    ensures TrimRight(t + after) == TrimRight(t)
  {
    if after == [] {
      assert t + after == t;
    } else {
      var u := t + after;
      assert u[..|u| - 1] == t + after[..|after| - 1] && u[|u| - 1] == after[|after| - 1];
      BlanksTrimmedRight(t, after[..|after| - 1]);
    }
  }

  ghost predicate Bare(t: Text) {
    t == [] || (!Blank(t[0]) && !Blank(t[|t| - 1]))
  }

  lemma BlanksTrimmed(before: Text, t: Text, after: Text)
    requires AllBlank(before) && AllBlank(after) && Bare(t)
    ensures TrimSpace(before + t + after) == t
  {
    ConcatAssoc(before, t, after);
    BlanksTrimmedLeft(before, t + after);
    if t == [] {
      assert t + after == after + [];
      BlanksTrimmedLeft(after, []);
    } else {
      assert TrimLeft(t + after) == t + after;
      BlanksTrimmedRight(t, after);
    }
  }

  // A name without capitals, blanks around it, or a scheme.
  ghost predicate Core(t: Text) {
    && Bare(t) && (forall i | 0 <= i < |t| :: !Capital(t[i]))
    && !HasPrefix(t, Ascii("http://")) && !HasPrefix(t, Ascii("https://"))
  }

  // The schemes that are removed: one, or both in this order.
  ghost predicate IsScheme(t: Text) {
    t in {[], Ascii("http://"), Ascii("https://"), Ascii("http://") + Ascii("https://")}
  }

  lemma SchemeIsLow(scheme: Text, core: Text)
    requires IsScheme(scheme) && Core(core)
    ensures Bare(scheme + core) && ToLower(scheme + core) == scheme + core
  {
    SchemeBytes(scheme);
    hide IsScheme, HasPrefix, Ascii;
    var t := scheme + core;
    assert forall i | 0 <= i < |scheme| :: t[i] == scheme[i];
    assert forall i | |scheme| <= i < |t| :: t[i] == core[i - |scheme|];
    LowerOfLower(t);
  }

  lemma SchemeBytes(scheme: Text)
    requires IsScheme(scheme)
    ensures forall i | 0 <= i < |scheme| :: !Capital(scheme[i]) && !Blank(scheme[i])
  {
    var h, s := Ascii("http://"), Ascii("https://");
    assert forall i | 0 <= i < |h| :: !Capital(h[i]) && !Blank(h[i]);
    assert forall i | 0 <= i < |s| :: !Capital(s[i]) && !Blank(s[i]);
    assert forall i | |h| <= i < |h + s| :: (h + s)[i] == s[i - |h|];
  }

  lemma CutAfter(prefix: Text, t: Text)
    ensures HasPrefix(prefix + t, prefix) && TrimPrefix(prefix + t, prefix) == t
  {
  }

  lemma HttpIsNotHttps(t: Text)
    ensures !HasPrefix(Ascii("https://") + t, Ascii("http://"))
  {
    var u := Ascii("https://") + t;
    assert u[..7][4] == u[4] == 115;
  }

  lemma SchemeIsCut(scheme: Text, core: Text)
    requires IsScheme(scheme) && Core(core)
    ensures TrimPrefix(TrimPrefix(scheme + core, HTTP), HTTPS) == core
  {
    Spelled();
    hide HasPrefix, Ascii, HTTP, HTTPS, TrimPrefix;
    CutAfter(HTTP, core);
    CutAfter(HTTPS, core);
    CutAfter(HTTP, HTTPS + core);
    ConcatAssoc(HTTP, HTTPS, core);
    HttpIsNotHttps(core);
    NoCut(core, HTTP);
    NoCut(core, HTTPS);
    NoCut(HTTPS + core, HTTP);
    assert [] + core == core;
  }

  lemma NoCut(t: Text, prefix: Text)
    ensures !HasPrefix(t, prefix) ==> TrimPrefix(t, prefix) == t
  {
  }

  // Blanks around a name and a scheme in front of it are removed, and a name
  // without them is left alone.
  lemma CoreIsNormalForm(before: Text, scheme: Text, core: Text, after: Text)
    requires AllBlank(before) && AllBlank(after) && IsScheme(scheme) && Core(core)
    ensures Normalize(before + (scheme + core) + after) == core
  {
    SchemeIsLow(scheme, core);
    BlanksTrimmed(before, scheme + core, after);
    SchemeIsCut(scheme, core);
    hide IsScheme, Core, TrimPrefix, TrimSpace, ToLower, HTTP, HTTPS, Bare, AllBlank;
  }

  // ---------- rule files ----------

  // The marker of the whitelist lies somewhere in the line.
  ghost predicate MarksWhitelist(line: Text) {
    exists k :: OccursAt(line, k, Ascii("Whitelist"))
  }

  predicate OccursAt(t: Text, k: int, part: Text) {
    0 <= k && k + |part| <= |t| && t[k..k + |part|] == part
  }

  lemma {:induction false} ContainsExact(t: Text, part: Text)
    ensures Contains(t, part) <==> exists k :: OccursAt(t, k, part)
  {
    if HasPrefix(t, part) {
      assert OccursAt(t, 0, part);
    } else if t != [] {
      ContainsExact(t[1..], part);
      if k :| OccursAt(t[1..], k, part) {
        assert OccursAt(t, k + 1, part);
      }
      if k :| OccursAt(t, k, part) {
        assert k != 0;
        assert OccursAt(t[1..], k - 1, part);
      }
    }
  }

  // A line that may hold rules: not empty, no comment and no header.
  ghost predicate HoldsRules(line: Text) {
    line != [] && line[0] != Ascii("!")[0] && line[0] != Ascii("[")[0]
  }

  // The line has this name, in any case of its letters, as a maximal dotted name.
  ghost predicate NamesRule(line: Text, rule: Text) {
    exists a, b :: MaximalName(line, a, b) && SameLetters(line[a..b], rule)
  }

  lemma NamesOfExact(line: Text, rule: Text)
    ensures rule in NamesOf(line) <==> NamesRule(line, rule) && forall i | 0 <= i < |rule| :: !Capital(rule[i])
  {
    hide MaximalName, Captures, ToLower, Normalize, NamesRule;
    if rule in NamesOf(line) {
      var name :| name in Captures(line, 0) && rule == Normalize(name);
      CapturedIsNamed(line, name);
    }
    if NamesRule(line, rule) && forall i | 0 <= i < |rule| :: !Capital(rule[i]) {
      var name := NamedIsCaptured(line, rule);
    }
  }

  lemma CapturedIsNamed(line: Text, name: Text)
    requires name in Captures(line, 0)
    ensures NamesRule(line, Normalize(name)) && forall i | 0 <= i < |Normalize(name)| :: !Capital(Normalize(name)[i])
  {
    CapturesExact(line, name);
    var a, b :| MaximalName(line, a, b) && name == line[a..b];
    hide MaximalName, Captures, ToLower, Normalize;
    NameBytes(line, a, b);
    NormalizeName(name);
    NoCapitals(name);
    LowerIsSameLetters(name);
  }

  lemma NamedIsCaptured(line: Text, rule: Text) returns (name: Text)
    requires NamesRule(line, rule) && forall i | 0 <= i < |rule| :: !Capital(rule[i])
    ensures name in Captures(line, 0) && rule == Normalize(name)
  {
    var a, b :| MaximalName(line, a, b) && SameLetters(line[a..b], rule);
    name := line[a..b];
    CapturesExact(line, name);
    NameBytes(line, a, b);
    hide MaximalName, Captures, ToLower, Normalize;
    NormalizeName(name);
    LoweredAlike(name, rule);
    LowerOfLower(rule);
  }

  lemma LowerIsSameLetters(t: Text)
    ensures SameLetters(t, ToLower(t))
  {
    hide ToLower;
  }

  // The line at i is read for rules: no line up to it marks the whitelist.
  ghost predicate ReadForRules(lines: seq<Text>, i: int) {
    && 0 <= i < |lines|
    && (forall j | 0 <= j <= i :: !MarksWhitelist(TrimSpace(lines[j])))
    && HoldsRules(TrimSpace(lines[i]))
  }

  // The rules of a file are exactly the lower-case texts of the names in the lines
  // that are read for rules.
  lemma {:induction false} RulesExact(lines: seq<Text>, rule: Text)
    ensures rule in Rules(lines) <==>
              && (exists i :: ReadForRules(lines, i) && NamesRule(TrimSpace(lines[i]), rule))
              && (forall i | 0 <= i < |rule| :: !Capital(rule[i]))
  {
    hide MarksWhitelist, NamesRule, NamesOf, TrimSpace, HoldsRules, Contains;
    if lines != [] {
      var line, rest := TrimSpace(lines[0]), lines[1..];
      RulesExact(rest, rule);
      NamesOfExact(line, rule);
      LineExact(line);
      if i :| ReadForRules(lines, i) && NamesRule(TrimSpace(lines[i]), rule) {
        assert !MarksWhitelist(TrimSpace(lines[0]));
        if i > 0 {
          assert rest[i - 1] == lines[i];
          assert forall j | 0 <= j <= i - 1 :: rest[j] == lines[j + 1];
          assert ReadForRules(rest, i - 1);
        }
      }
      if !MarksWhitelist(line) {
        if i :| ReadForRules(rest, i) && NamesRule(TrimSpace(rest[i]), rule) {
          assert forall j | 1 <= j <= i + 1 :: lines[j] == rest[j - 1];
          assert ReadForRules(lines, i + 1);
        }
        assert HoldsRules(line) ==> ReadForRules(lines, 0);
      }
    }
  }

  lemma LineExact(line: Text)
    ensures Contains(line, WHITELIST) <==> MarksWhitelist(line)
    ensures (line == [] || HasPrefix(line, COMMENT) || HasPrefix(line, SECTION)) <==> !HoldsRules(line)
  {
    Spelled();
    ContainsExact(line, WHITELIST);
    assert |WHITELIST| == 9;
    if line != [] {
      assert line[..1] == [line[0]];
    }
    hide Contains;
  }
}
