/** Rule-list bookkeeping shared by both options pages: blank-pattern filtering, the id
    counter, deletion by id and the local/sync merge. */
module RuleEditing {
  import opened Seqs
  import opened Config

  /** The characters `String.prototype.trim` removes: the ECMAScript WhiteSpace and
      LineTerminator code points. */
  predicate IsJsWhitespace(c: char) {
    || c == '\t' || c == '\n' || c == '\U{B}' || c == '\U{C}' || c == '\r' || c == ' '
    || c == '\U{A0}' || c == '\U{1680}' || ('\U{2000}' <= c <= '\U{200A}')
    || c == '\U{2028}' || c == '\U{2029}' || c == '\U{202F}' || c == '\U{205F}'
    || c == '\U{3000}' || c == '\U{FEFF}'
  }

  function TrimStart(s: string): (r: string)
    ensures |r| <= |s| && r == s[|s| - |r|..]
    ensures forall i :: 0 <= i < |s| - |r| ==> IsJsWhitespace(s[i])
    ensures r != [] ==> !IsJsWhitespace(r[0])
  {
    if s != [] && IsJsWhitespace(s[0]) then TrimStart(s[1..]) else s
  }

  function TrimEnd(s: string): (r: string)
    ensures |r| <= |s| && r == s[..|r|]
    ensures forall i :: |r| <= i < |s| ==> IsJsWhitespace(s[i])
    ensures r != [] ==> !IsJsWhitespace(r[|r| - 1])
  {
    if s != [] && IsJsWhitespace(s[|s| - 1]) then TrimEnd(s[..|s| - 1]) else s
  }

  /** `r` is the slice of `s` from `i` on, with only whitespace before and after it. */
  predicate InnerSlice(r: string, s: string, i: int) {
    && 0 <= i <= |s| - |r| && r == s[i..i + |r|]
    && (forall j :: 0 <= j < i ==> IsJsWhitespace(s[j]))
    && (forall j :: i + |r| <= j < |s| ==> IsJsWhitespace(s[j]))
  }

  /** Trimming the end after the start leaves a slice with only whitespace around it. */
  lemma {:induction false} TrimSlice(s: string)
    ensures InnerSlice(TrimEnd(TrimStart(s)), s, |s| - |TrimStart(s)|)
  {
    var t := TrimStart(s);
    var r := TrimEnd(t);
    var i := |s| - |t|;
    assert r == s[i..i + |r|] by {
      assert t == s[i..] && r == t[..|r|];
    }
    forall j | i + |r| <= j < |s|
      ensures IsJsWhitespace(s[j])
    {
      assert s[j] == t[j - i];
    }
  }

  /** `s.trim()`: the slice of `s` left after dropping leading and trailing whitespace. */
  function Trim(s: string): (r: string)
    ensures |r| <= |s|
    ensures r != [] ==> !IsJsWhitespace(r[0]) && !IsJsWhitespace(r[|r| - 1])
    ensures exists i :: InnerSlice(r, s, i)
  {
    var t := TrimStart(s);
    var r := TrimEnd(t);
    TrimSlice(s);
    assert r != [] ==> r[0] == t[0];
    r
  }

  /** A value trims to the empty string exactly when it consists of whitespace only. */
  lemma TrimEmptyIffBlank(s: string)
    ensures Trim(s) == "" <==> forall i :: 0 <= i < |s| ==> IsJsWhitespace(s[i])
  {
    if Trim(s) != "" {
      var i :| InnerSlice(Trim(s), s, i);
      assert Trim(s)[0] == s[i];
    }
  }

  /** The `map(input => input.value).filter(v => v.trim() !== '')` step of `updatePatternsFromDOM`. */
  function NonBlank(values: seq<string>): (r: seq<string>)
    ensures forall i :: 0 <= i < |r| ==> Trim(r[i]) != "" && r[i] in values
    ensures forall v :: v in values && Trim(v) != "" ==> v in r
    ensures SubseqOf(r, values)
  {
    Filter(values, (v: string) => Trim(v) != "")
  }

  /** The kept values keep their input order: filtering the inputs of two groups is
      filtering each group and concatenating. */
  lemma NonBlankConcat(a: seq<string>, b: seq<string>)
    ensures NonBlank(a + b) == NonBlank(a) + NonBlank(b)
  {
    FilterConcat(a, b, (v: string) => Trim(v) != "");
  }

  /** Inputs none of which is blank are kept exactly; filtering again changes nothing. */
  lemma NonBlankKeepsFilled(values: seq<string>)
    ensures (forall i :: 0 <= i < |values| ==> Trim(values[i]) != "") ==> NonBlank(values) == values
    ensures NonBlank(NonBlank(values)) == NonBlank(values)
  {
    if forall i :: 0 <= i < |values| ==> Trim(values[i]) != "" {
      FilterKeepsAll(values, (v: string) => Trim(v) != "");
    }
    FilterIdempotent(values, (v: string) => Trim(v) != "");
  }

  /** `Math.max(...rules.map(r => r.id))`. */
  function MaxId(rules: seq<Rule>): (m: RuleId)
    requires rules != []
    ensures forall i :: 0 <= i < |rules| ==> rules[i].id <= m
    ensures exists i :: 0 <= i < |rules| && rules[i].id == m
  {
    if |rules| == 1 then rules[0].id
    else
      var t := MaxId(rules[1..]);
      assert forall i :: 1 <= i < |rules| ==> rules[i] == rules[1..][i - 1];
      if rules[0].id >= t then rules[0].id else t
  }

  /** `rules.length > 0 ? Math.max(...rules.map(r => r.id)) + 1 : 0`: larger than every id,
      and the smallest such value when there are rules. */
  function NextRuleId(rules: seq<Rule>): (n: RuleId)
    ensures forall i :: 0 <= i < |rules| ==> rules[i].id < n
    ensures rules == [] ==> n == 0
    ensures rules != [] ==> exists i :: 0 <= i < |rules| && rules[i].id == n - 1
  {
    if rules == [] then 0 else MaxId(rules) + 1
  }

  /** Every id in the list is below the counter, so the counter is a fresh id. */
  predicate IdsBelow(rules: seq<Rule>, counter: RuleId) {
    forall i :: 0 <= i < |rules| ==> rules[i].id < counter
  }

  /** Appending a rule with the counter's id and then incrementing the counter keeps every
      id below the counter, and the new id differs from every existing one. */
  lemma AppendWithCounterFresh(rules: seq<Rule>, counter: RuleId, r: Rule)
    requires IdsBelow(rules, counter) && r.id == counter
    ensures IdsBelow(rules + [r], counter + 1)
    ensures forall i :: 0 <= i < |rules| ==> rules[i].id != r.id
  {
  }

  /** `rules.filter(r => r.id !== ruleId)`. */
  function WithoutRule(rules: seq<Rule>, ruleId: RuleId): (r: seq<Rule>)
    ensures forall i :: 0 <= i < |r| ==> r[i].id != ruleId && r[i] in rules
    ensures forall x :: x in rules && x.id != ruleId ==> x in r
    ensures SubseqOf(r, rules)
  {
    Filter(rules, (x: Rule) => x.id != ruleId)
  }

  /** Deletion keeps the remaining rules in order, and deleting an id no rule has changes nothing. */
  lemma WithoutRuleOrder(a: seq<Rule>, b: seq<Rule>, ruleId: RuleId)
    ensures WithoutRule(a + b, ruleId) == WithoutRule(a, ruleId) + WithoutRule(b, ruleId)
    ensures (forall i :: 0 <= i < |a| ==> a[i].id != ruleId) ==> WithoutRule(a, ruleId) == a
  {
    FilterConcat(a, b, (x: Rule) => x.id != ruleId);
    if forall i :: 0 <= i < |a| ==> a[i].id != ruleId {
      FilterKeepsAll(a, (x: Rule) => x.id != ruleId);
    }
  }

  /** The names of a rule list, `new Set(rules.map(r => r.name))`. */
  function Names(rules: seq<Rule>): set<string> {
    set i | 0 <= i < |rules| :: rules[i].name
  }

  /** The merge branch of the sync toggle: the rules of the new storage area, then the
      current rules whose name the new area does not already use. */
  function MergeRules(newStorageRules: seq<Rule>, currentRules: seq<Rule>): (r: seq<Rule>)
    ensures |newStorageRules| <= |r| <= |newStorageRules| + |currentRules|
    ensures r[..|newStorageRules|] == newStorageRules
    ensures forall j :: |newStorageRules| <= j < |r| ==> r[j] in currentRules && r[j].name !in Names(newStorageRules)
    ensures forall x :: x in currentRules && x.name !in Names(newStorageRules) ==> x in r
    ensures SubseqOf(r[|newStorageRules|..], currentRules)
  {
    var existingNames := Names(newStorageRules);
    var added := Filter(currentRules, (x: Rule) => x.name !in existingNames);
    assert (newStorageRules + added)[|newStorageRules|..] == added;
    newStorageRules + added
  }

  /** No rule the merge adds shares its name with a rule of the new storage area. */
  lemma MergeAddsNoDuplicateName(newStorageRules: seq<Rule>, currentRules: seq<Rule>)
    ensures var r := MergeRules(newStorageRules, currentRules);
      forall i, j :: 0 <= i < |newStorageRules| <= j < |r| ==> r[j].name != newStorageRules[i].name
  {
    var r := MergeRules(newStorageRules, currentRules);
    forall i, j | 0 <= i < |newStorageRules| <= j < |r|
      ensures r[j].name != newStorageRules[i].name
    {
      assert newStorageRules[i].name in Names(newStorageRules);
    }
  }
}
