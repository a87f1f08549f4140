// Routing by rule domains: a name goes through the proxy when it, or a parent
// domain of it, is a rule.
module Routing {
  import opened GoText
  import opened RuleScan

  // ---------- normalization, on ASCII text ----------

  predicate IsSpace(b: byte) {
    b == 32 || 9 <= b <= 13
  }

  function Lower(b: byte): byte {
    if 65 <= b <= 90 then b + 32 else b
  }

  function ToLower(t: Text): (r: Text)
    ensures |r| == |t| && forall i | 0 <= i < |t| :: r[i] == Lower(t[i])
  {
    if t == [] then [] else [Lower(t[0])] + ToLower(t[1..])
  }

  function TrimLeft(t: Text): Text {
    if t != [] && IsSpace(t[0]) then TrimLeft(t[1..]) else t
  }

  function TrimRight(t: Text): Text {
    if t != [] && IsSpace(t[|t| - 1]) then TrimRight(t[..|t| - 1]) else t
  }

  function TrimSpace(t: Text): Text {
    TrimRight(TrimLeft(t))
  }

  function TrimPrefix(t: Text, prefix: Text): Text {
    if HasPrefix(t, prefix) then t[|prefix|..] else t
  }

  const HTTP: Text := [104, 116, 116, 112, 58, 47, 47]
  const HTTPS: Text := [104, 116, 116, 112, 115, 58, 47, 47]

  function Normalize(domain: Text): Text {
    TrimPrefix(TrimPrefix(ToLower(TrimSpace(domain)), HTTP), HTTPS)
  }

  // ---------- the rules of a file ----------

  const WHITELIST: Text := [87, 104, 105, 116, 101, 108, 105, 115, 116]
  const COMMENT: Text := [33]
  const SECTION: Text := [91]

  predicate Contains(t: Text, part: Text) {
    HasPrefix(t, part) || (t != [] && Contains(t[1..], part))
  }

  function NamesOf(line: Text): set<Text> {
    set name | name in Captures(line, 0) :: Normalize(name)
  }

  // The rules of the lines before the whitelist, comments and headers apart.
  function Rules(lines: seq<Text>): set<Text> {
    if lines == [] || Contains(TrimSpace(lines[0]), WHITELIST) then {}
    else
      var line := TrimSpace(lines[0]);
      var skip := line == [] || HasPrefix(line, COMMENT) || HasPrefix(line, SECTION);
      (if skip then {} else NamesOf(line)) + Rules(lines[1..])
  }

  // Lower-case label bytes and dots only: what a captured name looks like once
  // normalized, and what normalization leaves alone.
  predicate RuleText(t: Text) {
    forall i | 0 <= i < |t| :: (IsLabelByte(t[i]) && Lower(t[i]) == t[i]) || t[i] == DOT
  }

  lemma {:induction false} LowerOfLower(t: Text)
    requires forall i | 0 <= i < |t| :: Lower(t[i]) == t[i]
    ensures ToLower(t) == t
  {
  }

  ghost predicate NameText(t: Text) {
    forall i | 0 <= i < |t| :: IsLabelByte(t[i]) || t[i] == DOT
  }

  lemma LoweredName(name: Text)
    requires NameText(name)
    ensures NameText(ToLower(name)) && RuleText(ToLower(name))
  {
    hide ToLower;
  }

  lemma RuleIsLow(t: Text)
    requires RuleText(t)
    ensures NameText(t) && ToLower(t) == t
  {
    LowerOfLower(t);
    hide ToLower;
  }

  // A text of label bytes and dots is only lowered, and stays as it is when
  // normalized again.
  lemma NormalizeName(name: Text)
    requires NameText(name)
    ensures Normalize(name) == ToLower(name) && RuleText(Normalize(name))
    ensures Normalize(Normalize(name)) == Normalize(name)
  {
    hide *;
    NoPrefixCut(name);
    LoweredName(name);
    RuleIsLow(ToLower(name));
    NoPrefixCut(ToLower(name));
  }

  lemma NoPrefixCut(name: Text)
    requires NameText(name)
    ensures Normalize(name) == ToLower(name)
  {
    NothingToTrim(name);
    LoweredName(name);
    hide ToLower, TrimSpace, HTTP, HTTPS, HasPrefix;
    NoColonNoScheme(ToLower(name));
  }

  lemma NothingToTrim(name: Text)
    requires NameText(name)
    ensures TrimSpace(name) == name
  {
  }

  lemma NoColonNoScheme(t: Text)
    requires NameText(t)
    ensures !HasPrefix(t, HTTP) && !HasPrefix(t, HTTPS)
  {
    assert |t| >= 7 ==> t[..7][4] == t[4] && HTTP[4] == 58;
    assert |t| >= 8 ==> t[..8][5] == t[5] && HTTPS[5] == 58;
  }

  // Every loaded rule is a rule text, so it is found as it is written.
  lemma {:induction false} RulesAreNormal(lines: seq<Text>)
    ensures forall r | r in Rules(lines) :: RuleText(r) && Normalize(r) == r && DOT in r
  {
    if lines != [] {
      RulesAreNormal(lines[1..]);
      var line := TrimSpace(lines[0]);
      forall r | r in NamesOf(line) ensures RuleText(r) && Normalize(r) == r && DOT in r {
        var name :| name in Captures(line, 0) && r == Normalize(name);
        CapturesExact(line, name);
        var a, b :| MaximalName(line, a, b) && name == line[a..b];
        NameBytes(line, a, b);
        NormalizeName(name);
        var x :| 0 <= x < |name| && name[x] == DOT;
        assert r[x] == DOT;
      }
    }
  }

  lemma NameBytes(line: Text, a: int, b: int)
    requires MaximalName(line, a, b)
    ensures NameText(line[a..b])
    ensures exists x | 0 <= x < b - a :: line[a..b][x] == DOT
  {
    var x :| a <= x < b && DotAt(line, x);
    assert line[a..b][x - a] == DOT;
    forall i | 0 <= i < b - a ensures IsLabelByte(line[a..b][i]) || line[a..b][i] == DOT {
      assert InName(line, a + i);
    }
  }

  // Lines from the whitelist marker on have no effect.
  lemma {:induction false} WhitelistStops(lines: seq<Text>, after: seq<Text>)
    requires exists i | 0 <= i < |lines| :: Contains(TrimSpace(lines[i]), WHITELIST)
    ensures Rules(lines + after) == Rules(lines)
  {
    hide Contains, TrimSpace, NamesOf;
    assert (lines + after)[0] == lines[0] && (lines + after)[1..] == lines[1..] + after;
    if !Contains(TrimSpace(lines[0]), WHITELIST) {
      var i :| 0 <= i < |lines| && Contains(TrimSpace(lines[i]), WHITELIST);
      assert lines[1..][i - 1] == lines[i];
      WhitelistStops(lines[1..], after);
    }
  }

  // ---------- what it means to match ----------

  // The rule is the name itself or a parent domain of it.
  predicate Matches(rule: Text, name: Text) {
    name == rule || HasSuffix(name, [DOT] + rule)
  }

  ghost predicate IsParent(parts: seq<Text>, rule: Text) {
    exists i | 1 <= i < |parts| :: Join(parts[i..]) == rule
  }

  lemma SuffixOfTail(c: byte, tail: Text, rule: Text)
    ensures HasSuffix([c] + tail, [DOT] + rule)
       <==> (c == DOT && tail == rule) || HasSuffix(tail, [DOT] + rule)
  {
    var name, n := [c] + tail, |tail| - (|rule| + 1);
    assert n >= 0 ==> name[|name| - (|rule| + 1)..] == tail[n..];
    assert n == -1 ==> (name == [DOT] + rule <==> c == DOT && tail == rule) by {
      assert name[1..] == tail && ([DOT] + rule)[1..] == rule;
    }
  }

  lemma ParentOfLonger(parts: seq<Text>, rest: seq<Text>, rule: Text)
    requires rest != [] && parts == [[]] + rest
    ensures IsParent(parts, rule) <==> Join(rest) == rule || IsParent(rest, rule)
  {
    hide Join;
    assert forall i | 1 <= i < |parts| :: parts[i..] == rest[i - 1..];
    assert rest[0..] == rest;
    if i :| 1 <= i < |rest| && Join(rest[i..]) == rule {
      assert Join(parts[i + 1..]) == rule;
    }
    assert parts[1..] == rest;
  }

  lemma ParentOfSame(parts: seq<Text>, rest: seq<Text>, rule: Text)
    requires rest != [] && parts != [] && parts[1..] == rest[1..]
    ensures IsParent(parts, rule) <==> IsParent(rest, rule)
  {
    hide Join;
    assert |parts| == |rest|;
    assert forall i | 1 <= i < |parts| :: parts[i..] == parts[1..][i - 1..] == rest[i..];
  }

  // The parents that the split and join visit are exactly the matching suffixes.
  lemma {:induction false} ParentsExact(name: Text, rule: Text)
    ensures HasSuffix(name, [DOT] + rule) <==> IsParent(Split(name), rule)
  {
    if name == [] {
      NoParentOfEmpty(rule);
    } else {
      hide IsParent, HasSuffix, Join;
      var tail := name[1..];
      var parts, rest := Split(name), Split(tail);
      SplitHead(name, parts, rest);
      hide Split;
      ParentsExact(tail, rule);
      JoinSplit(tail);
      SuffixOfTail(name[0], tail, rule);
      if name[0] == DOT {
        ParentOfLonger(parts, rest, rule);
      } else {
        ParentOfSame(parts, rest, rule);
      }
    }
  }

  lemma NoParentOfEmpty(rule: Text)
    ensures !HasSuffix([], [DOT] + rule) && !IsParent(Split([]), rule)
  {
  }

  lemma SplitHead(name: Text, parts: seq<Text>, rest: seq<Text>)
    requires name != [] && parts == Split(name) && rest == Split(name[1..])
    ensures name == [name[0]] + name[1..]
    ensures if name[0] == DOT then parts == [[]] + rest else parts[1..] == rest[1..]
  {
  }

  // Later parents are shorter.
  lemma {:induction false} LaterIsShorter(parts: seq<Text>, i: nat, j: nat)
    requires i < j < |parts|
    ensures |Join(parts[j..])| < |Join(parts[i..])|
    decreases j - i
  {
    assert parts[i..][1..] == parts[i + 1..];
    if i + 1 < j {
      LaterIsShorter(parts, i + 1, j);
    }
  }

  datatype Route = Direct | Proxy(rule: Text)

  // The decision that the rules prescribe, with the longest matching rule.
  ghost predicate Decides(rules: set<Text>, name: Text, route: Route) {
    match route
    case Direct => forall r | r in rules :: !Matches(r, name)
    case Proxy(rule) =>
      && rule in rules && Matches(rule, name)
      && (forall r | r in rules && Matches(r, name) :: r == rule || |r| < |rule|)
  }

  // The first parent found among the rules is the longest match.
  lemma FirstParentDecides(rules: set<Text>, name: Text, i: nat)
    requires name !in rules && 1 <= i < |Split(name)|
    requires Join(Split(name)[i..]) in rules
    requires forall j | 1 <= j < i :: Join(Split(name)[j..]) !in rules
    ensures Decides(rules, name, Proxy(Join(Split(name)[i..])))
  {
    hide Split, Join, HasSuffix, IsParent;
    var parts := Split(name);
    var parent := Join(parts[i..]);
    ParentsExact(name, parent);
    PositionIsParent(parts, i);
    forall r | r in rules && Matches(r, name) ensures r == parent || |r| < |parent| {
      ParentsExact(name, r);
      var j := PositionOf(parts, r);
      if i < j {
        LaterIsShorter(parts, i, j);
      }
    }
  }

  lemma PositionIsParent(parts: seq<Text>, i: nat)
    requires 1 <= i < |parts|
    ensures IsParent(parts, Join(parts[i..]))
  {
    hide Join;
  }

  lemma PositionOf(parts: seq<Text>, rule: Text) returns (i: nat)
    requires IsParent(parts, rule)
    ensures 1 <= i < |parts| && Join(parts[i..]) == rule
  {
    hide Join;
    i :| 1 <= i < |parts| && Join(parts[i..]) == rule;
  }

  lemma NoParentDecides(rules: set<Text>, name: Text)
    requires name !in rules
    requires forall j | 1 <= j < |Split(name)| :: Join(Split(name)[j..]) !in rules
    ensures Decides(rules, name, Direct)
  {
    hide Split, Join, HasSuffix;
    forall r | r in rules ensures !Matches(r, name) {
      ParentsExact(name, r);
    }
  }

  class Router {
    var domains: set<Text>
    var size: nat

    constructor ()
      ensures domains == {} && size == 0
    {
      domains, size := {}, 0;
    }

    method ParseRules(lines: seq<Text>)
      modifies this`domains
      ensures domains == old(domains) + Rules(lines)
    {
      hide Contains, TrimSpace, Normalize;
      var i := 0;
      while i < |lines|
        invariant 0 <= i <= |lines|
        invariant domains + Rules(lines[i..]) == old(domains) + Rules(lines)
      {
        var line := TrimSpace(lines[i]);
        assert lines[i..][0] == lines[i] && lines[i..][1..] == lines[i + 1..];
        if Contains(line, WHITELIST) {
          assert Rules(lines[i..]) == {};
          return;
        }
        i := i + 1;
        if line == [] || HasPrefix(line, COMMENT) || HasPrefix(line, SECTION) {
          continue;
        }
        var names := FindNames(line);
        ghost var before := domains;
        for n := 0 to |names|
          invariant domains == before + (set x | x in names[..n] :: Normalize(x))
        {
          assert names[..n + 1] == names[..n] + [names[n]];
          domains := domains + {Normalize(names[n])};
        }
        assert names[..|names|] == names;
      }
      assert lines[|lines|..] == [];
    }

    // Reload: forget all rules, then read the file again.
    method Reload(lines: seq<Text>)
      modifies this
      ensures domains == Rules(lines) && size == |Rules(lines)|
    {
      domains := {};
      ParseRules(lines);
      size := |domains|;
    }

    method Route(domain: Text) returns (route: Route)
      ensures Decides(domains, Normalize(domain), route)
    {
      var name := Normalize(domain);
      if name in domains {
        MatchesAreShorter(name);
        return Proxy(name);
      }
      hide Split, Join, Decides, Normalize;
      var parts := Split(name);
      for i := 1 to |parts|
        invariant forall j | 1 <= j < i :: Join(parts[j..]) !in domains
      {
        var parent := Join(parts[i..]);
        if parent in domains {
          FirstParentDecides(domains, name, i);
          return Proxy(parent);
        }
      }
      NoParentDecides(domains, name);
      return Direct;
    }
  }

  lemma MatchesAreShorter(name: Text)
    ensures forall r | Matches(r, name) :: r == name || |r| < |name|
  {
  }

  // There is one decision for a set of rules and a name.
  lemma DecisionUnique(rules: set<Text>, name: Text, a: Route, b: Route)
    requires Decides(rules, name, a) && Decides(rules, name, b)
    ensures a == b
  {
  }

  // More rules never send a proxied name direct, and a new decision for it is by
  // a rule at least as long.
  lemma RoutingIsMonotone(rules: set<Text>, more: set<Text>, name: Text, a: Route, b: Route)
    requires rules <= more && Decides(rules, name, a) && Decides(more, name, b)
    ensures a.Proxy? ==> b.Proxy? && |b.rule| >= |a.rule|
    ensures b.Direct? ==> a.Direct?
  {
  }

  // Every subdomain of a rule is proxied.
  lemma SubdomainsAreProxied(rules: set<Text>, rule: Text, sub: Text, route: Route)
    requires rule in rules && Decides(rules, sub + [DOT] + rule, route)
    ensures route.Proxy? && |route.rule| >= |rule|
  {
    var name := sub + [DOT] + rule;
    assert name[|sub|..] == [DOT] + rule;
    assert Matches(rule, name);
  }

  // Every rule of a loaded file sends its own domain through the proxy, by that
  // very rule.
  lemma LoadedRuleRoutes(lines: seq<Text>, rule: Text, route: Route)
    requires rule in Rules(lines) && Decides(Rules(lines), Normalize(rule), route)
    ensures route == Proxy(rule)
  {
    RulesAreNormal(lines);
    MatchesAreShorter(rule);
  }

  lemma LeftTrimmed(t: Text)
    ensures |TrimLeft(t)| < |t| || TrimLeft(t) == t
    ensures TrimLeft(t) == t <==> t == [] || !IsSpace(t[0])
    ensures TrimLeft(t) == [] || !IsSpace(TrimLeft(t)[0])
    ensures TrimLeft(t) != [] ==> TrimLeft(t)[|TrimLeft(t)| - 1] == t[|t| - 1]
  {
  }

  lemma RightTrimmed(t: Text)
    ensures |TrimRight(t)| < |t| || TrimRight(t) == t
    ensures TrimRight(t) == t <==> t == [] || !IsSpace(t[|t| - 1])
    ensures TrimRight(t) == [] || (TrimRight(t)[0] == t[0] && !IsSpace(TrimRight(t)[|TrimRight(t)| - 1]))
  {
  }

  ghost predicate Trimmed(t: Text) {
    t == [] || (!IsSpace(t[0]) && !IsSpace(t[|t| - 1]))
  }

  // Trimming leaves a text alone exactly if no white space begins or ends it.
  lemma TrimExact(t: Text)
    ensures |TrimSpace(t)| < |t| || TrimSpace(t) == t
    ensures TrimSpace(t) == t <==> Trimmed(t)
    ensures Trimmed(TrimSpace(t))
  {
    LeftTrimmed(t);
    RightTrimmed(TrimLeft(t));
    hide TrimLeft, TrimRight;
  }

  // Lower case, and not ended by white space.
  ghost predicate Tidy(t: Text) {
    (forall i | 0 <= i < |t| :: Lower(t[i]) == t[i]) && (t == [] || !IsSpace(t[|t| - 1]))
  }

  lemma TidyCut(t: Text, prefix: Text)
    requires Tidy(t)
    ensures Tidy(TrimPrefix(t, prefix)) && |TrimPrefix(t, prefix)| <= |t|
  {
    hide Lower;
  }

  lemma TidyLower(t: Text)
    requires Trimmed(t)
    ensures Tidy(ToLower(t)) && Trimmed(ToLower(t))
  {
    hide ToLower;
  }

  lemma NormalizedShape(domain: Text)
    ensures Tidy(Normalize(domain))
  {
    TrimExact(domain);
    hide TrimSpace, ToLower, TrimPrefix, HTTP, HTTPS, Tidy, Trimmed;
    var low := ToLower(TrimSpace(domain));
    TidyLower(TrimSpace(domain));
    TidyCut(low, HTTP);
    TidyCut(TrimPrefix(low, HTTP), HTTPS);
  }

  // White space or a scheme prefix begins the text.
  predicate Unsettled(t: Text) {
    t != [] && (IsSpace(t[0]) || HasPrefix(t, HTTP) || HasPrefix(t, HTTPS))
  }

  lemma NormalizeTidy(t: Text)
    requires Tidy(t)
    ensures Normalize(t) == t <==> !Unsettled(t)
  {
    TrimExact(t);
    LowerOfLower(t);
    NormalizeShrinks(t);
    hide Normalize, TrimSpace, ToLower, HTTP, HTTPS;
    if TrimSpace(t) == t {
      CutExact(t);
    }
  }

  // Once trimmed and lowered, the name has a scheme prefix, and behind it white
  // space or one scheme too many.
  predicate Restarts(domain: Text) {
    var u := ToLower(TrimSpace(domain));
    || (HasPrefix(u, HTTP) &&
        var v := u[7..];
        || (v != [] && IsSpace(v[0]))
        || HasPrefix(v, HTTP)
        || (HasPrefix(v, HTTPS) && Unsettled(v[8..])))
    || (HasPrefix(u, HTTPS) && Unsettled(u[8..]))
  }

  lemma OneScheme(t: Text)
    ensures !(HasPrefix(t, HTTP) && HasPrefix(t, HTTPS))
    ensures HasPrefix(t, HTTP) || HasPrefix(t, HTTPS) ==> |t| >= 7 && !IsSpace(t[0])
  {
    assert HasPrefix(t, HTTP) ==> t[..7][4] == t[4] == HTTP[4] && t[..7][0] == t[0] == HTTP[0];
    assert HasPrefix(t, HTTPS) ==> t[..8][4] == t[4] == HTTPS[4] && t[..8][0] == t[0] == HTTPS[0];
  }

  lemma RestartsUnsettled(domain: Text)
    ensures Restarts(domain) <==> Unsettled(Normalize(domain))
  {
    TrimExact(domain);
    hide TrimSpace, ToLower, HasPrefix;
    var u := ToLower(TrimSpace(domain));
    TidyLower(TrimSpace(domain));
    OneScheme(u);
    if HasPrefix(u, HTTP) {
      OneScheme(u[7..]);
    }
  }

  // Normalizing again changes a normalized name exactly for such names.
  lemma NormalizeTwiceExact(domain: Text)
    ensures Normalize(Normalize(domain)) != Normalize(domain) <==> Restarts(domain)
  {
    hide *;
    NormalizedShape(domain);
    NormalizeTidy(Normalize(domain));
    RestartsUnsettled(domain);
  }

  lemma NormalizeShrinks(t: Text)
    ensures |Normalize(t)| <= |TrimSpace(t)|
  {
    hide TrimSpace, ToLower, HTTP, HTTPS;
  }

  lemma CutExact(t: Text)
    requires TrimSpace(t) == t && ToLower(t) == t
    ensures Normalize(t) == t <==> !HasPrefix(t, HTTP) && !HasPrefix(t, HTTPS)
  {
    hide TrimSpace, ToLower;
    assert HasPrefix(t, HTTP) ==> |TrimPrefix(t, HTTP)| < |t|;
    assert HasPrefix(t, HTTPS) ==> |TrimPrefix(t, HTTPS)| < |t|;
  }

  // A doubled scheme prefix shows that normalization is not idempotent.
  lemma NormalizeTwiceDiffers()
    ensures Normalize(Normalize(HTTP + HTTP)) != Normalize(HTTP + HTTP)
  {
    hide Normalize;
    NormalizeScheme([]);
    NormalizeScheme(HTTP);
    assert HTTP + [] == HTTP;
  }

  // In front of a text that stays as it is, one scheme prefix is removed.
  lemma NormalizeScheme(t: Text)
    requires t == [] || t == HTTP
    ensures Normalize(HTTP + t) == t
  {
    var u := HTTP + t;
    LowerOfLower(u);
    hide ToLower;
    assert TrimSpace(u) == u by {
      hide HasPrefix;
    }
    assert u[..7] == HTTP && u[7..] == t;
  }
}
