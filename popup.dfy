/** The toolbar popups (xpi.src/popup.js and popup.js): the lookup of the rule that governs
    the active tab, and the rule suggestion built from the tab's URL and title. */
module Popup {
  import opened Wrappers
  import opened Seqs
  import opened Config
  import opened Host
  import opened Matching
  import opened Validation

  // ---------------------------------------------------------------- rule lookup

  /** `currentTab?.url || ''` for the answer of the active-tab query. */
  function ActiveUrl(activeTabs: seq<Tab>): string {
    if activeTabs == [] then "" else activeTabs[0].url
  }

  /** The resolved rule of a lookup, without its match class. */
  function RuleOf(m: Option<RuleMatch>): Option<Rule> {
    if m.None? then None else Some(m.value.rule)
  }

  /** The `for (const rule of rules)` loop of `init()`: test a rule's match patterns, then
      its sticky patterns, and stop at the first hit. */
  method FirstHittingRule(re: RegexEngine, currentUrl: string, rules: seq<Rule>) returns (matchingRule: Option<Rule>)
    ensures matchingRule == RuleOf(FindMatchingRule(re, currentUrl, rules))
  {
    FindMatchingRuleIsFirst(re, currentUrl, rules);
    var i := 0;
    while i < |rules|
      invariant 0 <= i <= |rules|
      invariant i <= FirstHitIndex(re, currentUrl, rules)
    {
      var rule := rules[i];
      if MatchesPatterns(re, currentUrl, rule.matchPatterns) || MatchesPatterns(re, currentUrl, rule.stickyPatterns) {
        return Some(rule);
      }
      i := i + 1;
    }
    return None;
  }

  /** `init()` up to the lookup: the active tab's URL, the enabled rules of the local
      `rules` entry (`None` when absent), and the first of them that hits the URL. */
  method LookupRule(re: RegexEngine, stored: Option<seq<Rule>>, activeTabs: seq<Tab>) returns (matchingRule: Option<Rule>)
    ensures matchingRule == RuleOf(FindMatchingRule(re, ActiveUrl(activeTabs), EnabledRules(stored.GetOr([]))))
  {
    var currentUrl := if |activeTabs| > 0 then activeTabs[0].url else "";
    var rules := EnabledRules(stored.GetOr([]));
    matchingRule := FirstHittingRule(re, currentUrl, rules);
  }

  /** The position of the first enabled rule of the stored list that hits, or |stored|. */
  function FirstEnabledHitIndex(re: RegexEngine, url: string, stored: seq<Rule>): (k: nat)
    ensures k <= |stored|
    ensures forall j :: 0 <= j < k ==> !(stored[j].enabled && RuleHits(re, url, stored[j]))
    ensures k < |stored| ==> stored[k].enabled && RuleHits(re, url, stored[k])
  {
    if stored == [] || (stored[0].enabled && RuleHits(re, url, stored[0])) then 0
    else 1 + FirstEnabledHitIndex(re, url, stored[1..])
  }

  lemma EnabledCons(stored: seq<Rule>)
    requires stored != []
    ensures EnabledRules(stored) == (if stored[0].enabled then [stored[0]] else []) + EnabledRules(stored[1..])
  {
  }

  lemma FindCons(re: RegexEngine, url: string, x: Rule, rest: seq<Rule>)
    ensures FindMatchingRule(re, url, [x] + rest) ==
      if RuleHits(re, url, x) then Some(RuleMatch(x, MatchTypeOf(re, url, x))) else FindMatchingRule(re, url, rest)
  {
    assert ([x] + rest)[0] == x;
    assert ([x] + rest)[1..] == rest;
  }

  /** Over the stored list itself: the lookup resolves the first enabled rule that hits,
      in stored order, and nothing when no enabled rule hits; so a disabled rule is never
      selected, however early it stands. */
  lemma {:induction false} LookupIsFirstEnabled(re: RegexEngine, url: string, stored: seq<Rule>)
    ensures var k := FirstEnabledHitIndex(re, url, stored);
      FindMatchingRule(re, url, EnabledRules(stored)) ==
        if k == |stored| then None else Some(RuleMatch(stored[k], MatchTypeOf(re, url, stored[k])))
  {
    if stored != [] {
      var x, rest := stored[0], stored[1..];
      var k := FirstEnabledHitIndex(re, url, stored);
      EnabledCons(stored);
      if x.enabled {
        FindCons(re, url, x, EnabledRules(rest));
      }
      if x.enabled && RuleHits(re, url, x) {
        assert k == 0;
      } else {
        var k' := FirstEnabledHitIndex(re, url, rest);
        assert k == 1 + k';
        if x.enabled {
          assert EnabledRules(stored) == [x] + EnabledRules(rest);
          assert !RuleHits(re, url, x);
        } else {
          assert EnabledRules(stored) == EnabledRules(rest) by {
            assert [] + EnabledRules(rest) == EnabledRules(rest);
          }
        }
        assert FindMatchingRule(re, url, EnabledRules(stored)) == FindMatchingRule(re, url, EnabledRules(rest));
        LookupIsFirstEnabled(re, url, rest);
        if k' < |rest| {
          assert stored[k] == rest[k'];
        }
      }
    }
  }

  // ---------------------------------------------------------------- escaping

  /** The characters of the class `[.*+?^${}()|[\]\\]`. */
  predicate IsMeta(c: char) {
    c in {'.', '*', '+', '?', '^', '$', '{', '}', '(', ')', '|', '[', ']', '\\'}
  }

  /** `s.replace(/[.*+?^${}()|[\]\\]/g, '\\$&')`: a backslash before each metacharacter. */
  function Escape(s: string): (r: string)
    ensures |r| >= |s|
  {
    if s == [] then []
    else (if IsMeta(s[0]) then ['\\', s[0]] else [s[0]]) + Escape(s[1..])
  }

  /** Drop the backslash of each escape pair. */
  function Unescape(s: string): string {
    if s == [] then []
    else if s[0] == '\\' && |s| >= 2 then [s[1]] + Unescape(s[2..])
    else [s[0]] + Unescape(s[1..])
  }

  /** A regular expression made of literal characters only: every metacharacter is the
      second half of a backslash pair. */
  predicate IsLiteralPattern(s: string) {
    if s == [] then true
    else if s[0] == '\\' then |s| >= 2 && IsMeta(s[1]) && IsLiteralPattern(s[2..])
    else !IsMeta(s[0]) && IsLiteralPattern(s[1..])
  }

  /** Escaping works character by character. */
  lemma {:induction false} EscapeConcat(a: string, b: string)
    ensures Escape(a + b) == Escape(a) + Escape(b)
  {
    if a != [] {
      assert (a + b)[0] == a[0];
      assert (a + b)[1..] == a[1..] + b;
      EscapeConcat(a[1..], b);
    } else {
      assert a + b == b;
    }
  }

  /** Removing the inserted backslashes gives back the escaped prefix, whatever follows. */
  lemma {:induction false} UnescapeEscapePrefix(a: string, t: string)
    ensures Unescape(Escape(a) + t) == a + Unescape(t)
  {
    if a != [] {
      UnescapeEscapePrefix(a[1..], t);
      var e := if IsMeta(a[0]) then ['\\', a[0]] else [a[0]];
      assert Escape(a) + t == e + (Escape(a[1..]) + t);
      var x := e + (Escape(a[1..]) + t);
      assert a == [a[0]] + a[1..];
      if IsMeta(a[0]) {
        assert x[0] == '\\' && x[1] == a[0] && x[2..] == Escape(a[1..]) + t;
        assert Unescape(x) == [a[0]] + Unescape(Escape(a[1..]) + t);
      } else {
        assert x[0] == a[0] && a[0] != '\\' && x[1..] == Escape(a[1..]) + t;
        assert Unescape(x) == [a[0]] + Unescape(Escape(a[1..]) + t);
      }
    } else {
      assert Escape(a) + t == t;
    }
  }

  /** A character other than the backslash is kept as it is. */
  lemma UnescapePlain(c: char, t: string)
    requires c != '\\'
    ensures Unescape([c] + t) == [c] + Unescape(t)
  {
    assert ([c] + t)[1..] == t;
  }

  /** The round trip: unescaping an escaped string restores it. */
  lemma UnescapeEscape(s: string)
    ensures Unescape(Escape(s)) == s
  {
    UnescapeEscapePrefix(s, []);
    assert Escape(s) + [] == Escape(s);
  }

  /** An escaped string, read as a regular expression, has no active metacharacter. */
  lemma {:induction false} EscapeIsLiteral(s: string)
    ensures IsLiteralPattern(Escape(s))
  {
    if s != [] {
      EscapeIsLiteral(s[1..]);
      var e := if IsMeta(s[0]) then ['\\', s[0]] else [s[0]];
      assert Escape(s) == e + Escape(s[1..]);
      if IsMeta(s[0]) {
        assert (e + Escape(s[1..]))[2..] == Escape(s[1..]);
      } else {
        assert (e + Escape(s[1..]))[1..] == Escape(s[1..]);
      }
    }
  }

  /** Literal patterns are closed under concatenation. */
  lemma {:induction false} LiteralConcat(a: string, b: string)
    requires IsLiteralPattern(a) && IsLiteralPattern(b)
    ensures IsLiteralPattern(a + b)
  {
    if a != [] {
      assert (a + b)[0] == a[0];
      if a[0] == '\\' {
        assert (a + b)[1] == a[1];
        assert (a + b)[2..] == a[2..] + b;
        LiteralConcat(a[2..], b);
      } else {
        assert (a + b)[1..] == a[1..] + b;
        LiteralConcat(a[1..], b);
      }
    } else {
      assert a + b == b;
    }
  }

  // ---------------------------------------------------------------- rule suggestion

  /** The components `new URL(url)` yields that the suggestion uses. */
  datatype UrlParts = UrlParts(protocol: string, hostname: string, pathname: string)

  /** `^` + escaped protocol + `//` + escaped hostname + escaped pathname. */
  function StickyPatternFor(u: UrlParts): string {
    "^" + Escape(u.protocol) + "//" + Escape(u.hostname) + Escape(u.pathname)
  }

  /** `replace(/^www\./, '')`. */
  function StripWww(h: string): string {
    if |h| >= 4 && h[..4] == "www." then h[4..] else h
  }

  /** `replace(/\./g, '-')`. */
  function DotsToDashes(h: string): (r: string)
    ensures |r| == |h|
    ensures forall i :: 0 <= i < |h| ==> r[i] == if h[i] == '.' then '-' else h[i]
  {
    if h == [] then [] else [if h[0] == '.' then '-' else h[0]] + DotsToDashes(h[1..])
  }

  /** `replace(/[^a-zA-Z0-9_-]/g, '')`. */
  function KeepNameChars(h: string): string {
    Filter(h, (c: char) => NameChar(c))
  }

  /** The rule name suggested for a hostname. */
  function RuleName(hostname: string): string {
    KeepNameChars(DotsToDashes(StripWww(hostname)))
  }

  /** `generateRuleData(url, title)`; `parsed` is what `new URL(url)` yields, `None` when it throws. */
  function GenerateRuleData(url: string, title: string, parsed: Option<UrlParts>): RuleData {
    var hostname := if parsed.Some? then parsed.value.hostname else "new-rule";
    var stickyPattern := if parsed.Some? then StickyPatternFor(parsed.value) else Escape(url);
    RuleData(RuleName(hostname), title, stickyPattern)
  }

  /** A suggested name is empty or passes the rule-name check of the options page, and a
      name that already passes it is suggested unchanged. */
  lemma RuleNameSpec(hostname: string)
    ensures RuleName(hostname) == "" || NameOk(RuleName(hostname))
    ensures forall i :: 0 <= i < |RuleName(hostname)| ==> NameChar(RuleName(hostname)[i])
    ensures NameOk(hostname) ==> RuleName(hostname) == hostname
  {
    var r := RuleName(hostname);
    assert forall i :: 0 <= i < |r| ==> NameChar(r[i]);
    if NameOk(hostname) {
      assert !NameChar('.');
      if |hostname| >= 4 {
        assert hostname[..4][3] == hostname[3];
      }
      assert StripWww(hostname) == hostname;
      assert DotsToDashes(hostname) == hostname;
      FilterKeepsAll(hostname, (c: char) => NameChar(c));
    }
  }

  /** Suggesting a name for a suggested name changes nothing. */
  lemma RuleNameIdempotent(hostname: string)
    ensures RuleName(RuleName(hostname)) == RuleName(hostname)
  {
    var r := RuleName(hostname);
    RuleNameSpec(hostname);
    if r != "" {
      RuleNameSpec(r);
    }
  }

  /** The text after the `^` of a pattern built from a parsed URL. */
  function PatternBody(u: UrlParts): string {
    Escape(u.protocol) + ("//" + (Escape(u.hostname) + Escape(u.pathname)))
  }

  /** Unescaping the body gives protocol + `//` + hostname + pathname. */
  lemma PatternBodyUnescapes(u: UrlParts)
    ensures Unescape(PatternBody(u)) == u.protocol + "//" + u.hostname + u.pathname
  {
    var eh, epath := Escape(u.hostname), Escape(u.pathname);
    var tail := "//" + (eh + epath);
    UnescapeEscapePrefix(u.protocol, tail);
    UnescapePlain('/', "/" + (eh + epath));
    UnescapePlain('/', eh + epath);
    assert tail == ['/'] + (['/'] + (eh + epath));
    UnescapeEscapePrefix(u.hostname, epath);
    UnescapeEscape(u.pathname);
  }

  /** The body has no active metacharacter. */
  lemma PatternBodyLiteral(u: UrlParts)
    ensures IsLiteralPattern(PatternBody(u))
  {
    var eh, epath := Escape(u.hostname), Escape(u.pathname);
    EscapeIsLiteral(u.protocol);
    EscapeIsLiteral(u.hostname);
    EscapeIsLiteral(u.pathname);
    assert IsLiteralPattern("//");
    LiteralConcat(eh, epath);
    LiteralConcat("//", eh + epath);
    LiteralConcat(Escape(u.protocol), "//" + (eh + epath));
  }

  /** The pattern built from a parsed URL is `^` followed by a literal whose unescaped
      text is protocol + `//` + hostname + pathname. */
  lemma StickyPatternForSpec(u: UrlParts)
    ensures var p := StickyPatternFor(u);
      && p[0] == '^'
      && IsLiteralPattern(p[1..])
      && Unescape(p[1..]) == u.protocol + "//" + u.hostname + u.pathname
  {
    assert StickyPatternFor(u) == "^" + PatternBody(u);
    assert StickyPatternFor(u)[1..] == PatternBody(u);
    PatternBodyUnescapes(u);
    PatternBodyLiteral(u);
  }

  /** The name used when the URL does not parse is kept as it is. */
  lemma FallbackName()
    ensures RuleName("new-rule") == "new-rule"
  {
    var h := "new-rule";
    assert forall i :: 0 <= i < |h| ==> NameChar(h[i]);
    RuleNameSpec(h);
  }

  /** What the suggestion holds:
      - the description is the title, unchanged, and the name is empty or well formed;
      - after a successful parse the name comes from the hostname and the pattern is
        `^` followed by a literal whose unescaped text is protocol + `//` + hostname + pathname;
      - after a failed parse the name is `new-rule` and the pattern is the whole URL as a literal. */
  lemma GenerateRuleDataSpec(url: string, title: string, parsed: Option<UrlParts>)
    ensures var d := GenerateRuleData(url, title, parsed);
      && d.description == title
      && (d.name == "" || NameOk(d.name))
      && (parsed.Some? ==>
            var u := parsed.value;
            && d.name == RuleName(u.hostname)
            && d.stickyPattern[0] == '^'
            && IsLiteralPattern(d.stickyPattern[1..])
            && Unescape(d.stickyPattern[1..]) == u.protocol + "//" + u.hostname + u.pathname)
      && (parsed.None? ==>
            && d.name == "new-rule"
            && IsLiteralPattern(d.stickyPattern)
            && Unescape(d.stickyPattern) == url)
  {
    if parsed.Some? {
      RuleNameSpec(parsed.value.hostname);
      StickyPatternForSpec(parsed.value);
    } else {
      FallbackName();
      RuleNameSpec("new-rule");
      UnescapeEscape(url);
      EscapeIsLiteral(url);
    }
  }
}
