/** The violation scan over the text of an inspection report, and the record
    built for each document of the violations table.

    A scan finds citations of four families, in this order: "Rule Code"
    sections, "APPLICABLE RULE" sections of SIRs, "R 400.x" references and
    "MCL x.y" references. Each citation is judged by the phrases in a window
    of text around it. A rule-code entry is kept for every citation judged
    violated, repeats included; an entry of the other three families is
    appended only when the list does not already hold it. */
module Violations {
  import opened Strings
  import opened Wrappers
  import opened Regex
  import DocumentInfo

  const RULE_CODE_PATTERN := "Rule Code & (?:CPA|CCI) Rule\\s+(\\d+\\.\\d+[^\\n]*)"
  const APPLICABLE_RULE_PATTERN := "APPLICABLE RULE\\s+R\\s+(400\\.\\d+[a-z]?(?:\\([^\\)]+\\))?)"
  const R400_PATTERN := "R\\s+400\\.\\d+[a-z]?(?:\\([^\\)]+\\))?"
  const MCL_PATTERN := "MCL\\s+\\d+\\.\\d+[a-z]?"

  /** The window of the last rule-code citation extends this far. */
  const RULE_LOOKAHEAD: nat := 50000
  /** The window of an APPLICABLE RULE citation extends this far. */
  const APPLICABLE_LOOKAHEAD: nat := 3000
  /** R 400 and MCL windows reach this far on each side of the reference. */
  const REFERENCE_RADIUS: nat := 500

  // ---------------------------------------------------------------------------
  // Phrases
  // ---------------------------------------------------------------------------

  /** `Conclusion\s+(?:Repeat\s+)?Violation Established` (any case) matches at offset i. */
  predicate ConclusionAt(w: string, i: nat) {
    && StartsAtCI(w, i, "Conclusion")
    && var k := SkipSpaces(w, i + 10);
    && k > i + 10
    && (|| StartsAtCI(w, k, "Violation Established")
        || (&& StartsAtCI(w, k, "Repeat")
            && var k2 := SkipSpaces(w, k + 6);
            && k2 > k + 6
            && StartsAtCI(w, k2, "Violation Established")))
  }

  /** The first "Conclusion" at or after offset i that starts the phrase. */
  predicate ConclusionFrom(w: string, i: nat)
    decreases |w| - i
  {
    var a := IndexOfCI(w, "Conclusion", i);
    a >= 0 && (ConclusionAt(w, a) || ConclusionFrom(w, a + 1))
  }

  /** The section states "Conclusion (Repeat) Violation Established". */
  predicate ConclusionEstablished(w: string) {
    ConclusionFrom(w, 0)
  }

  /** `Analysis.*?violation` across lines, any case: some "violation" follows
      the first "Analysis". */
  predicate AnalysisMentionsViolation(w: string) {
    var a := IndexOfCI(w, "Analysis", 0);
    a >= 0 && IndexOfCI(w, "violation", a + 8) >= 0
  }

  /** `is not violated|not in violation|no violation`, any case. */
  predicate DeniesViolation(w: string) {
    || ContainsCI(w, "is not violated")
    || ContainsCI(w, "not in violation")
    || ContainsCI(w, "no violation")
  }

  /** `not.*compliance` on one line, any case, for a "not" at or after offset i:
      the first "compliance" after that "not" lies on the same line. */
  predicate NotCompliantFrom(w: string, i: nat)
    decreases |w| - i
  {
    var a := IndexOfCI(w, "not", i);
    && a >= 0
    && var c := IndexOfCI(w, "compliance", a + 3);
    || (c >= 0 && '\n' !in w[a + 3..c])
    || NotCompliantFrom(w, a + 1)
  }

  /** `violation|violated|non-compliance|not.*compliance`, any case. */
  predicate MentionsViolation(w: string) {
    || ContainsCI(w, "violation")
    || ContainsCI(w, "violated")
    || ContainsCI(w, "non-compliance")
    || NotCompliantFrom(w, 0)
  }

  /** `CONCLUSION:\s*VIOLATION ESTABLISHED` at offset i, any case. */
  predicate ConclusionColonAt(w: string, i: nat) {
    StartsAtCI(w, i, "CONCLUSION:") && StartsAtCI(w, SkipSpaces(w, i + 11), "VIOLATION ESTABLISHED")
  }

  predicate ConclusionColonFrom(w: string, i: nat)
    decreases |w| - i
  {
    var a := IndexOfCI(w, "CONCLUSION:", i);
    a >= 0 && (ConclusionColonAt(w, a) || ConclusionColonFrom(w, a + 1))
  }

  /** The SIR section states "CONCLUSION: VIOLATION ESTABLISHED". */
  predicate ConclusionColonEstablished(w: string) {
    ConclusionColonFrom(w, 0)
  }

  /** Each phrase that denies a violation also mentions one, so a denial is
      only ever looked for in a window that mentions a violation. */
  lemma DenialMentionsViolation(w: string)
    requires DeniesViolation(w)
    ensures MentionsViolation(w)
  {
    if ContainsCI(w, "is not violated") {
      assert "is not violated" == "is not " + "violated";
      ContainsTail(w, "is not ", "violated");
    } else if ContainsCI(w, "not in violation") {
      assert "not in violation" == "not in " + "violation";
      ContainsTail(w, "not in ", "violation");
    } else {
      assert "no violation" == "no " + "violation";
      ContainsTail(w, "no ", "violation");
    }
  }

  /** A found phrase's tail is found too. */
  lemma ContainsTail(w: string, head: string, q: string)
    requires ContainsCI(w, head + q)
    ensures ContainsCI(w, q)
  {
    assert (head + q)[|head|..|head| + |q|] == q;
    ContainsPart(w, head + q, |head|, q);
  }

  /** A phrase found inside a found phrase is found too. */
  lemma ContainsPart(w: string, p: string, k: nat, q: string)
    requires ContainsCI(w, p)
    requires k + |q| <= |p| && p[k..k + |q|] == q
    ensures ContainsCI(w, q)
  {
    ContainsCIMeans(w, p);
    ContainsCIMeans(w, q);
    var i :| StartsAtCI(w, i, p);
    var outer := w[i..i + |p|];
    var inner := w[i + k..i + k + |q|];
    forall t | 0 <= t < |q| ensures LowerStr(inner)[t] == LowerStr(q)[t] {
      assert inner[t] == outer[k + t];
      assert LowerStr(outer)[k + t] == LowerStr(p)[k + t];
    }
    assert StartsAtCI(w, i + k, q);
  }

  // ---------------------------------------------------------------------------
  // Citations and their windows
  // ---------------------------------------------------------------------------

  /** A citation found by a scan: where it is and the rule it names. */
  datatype Citation = Citation(start: nat, end: nat, ref: string)

  /** The citations of a scan, naming the stripped text of the given group. */
  function Citations(ms: seq<Match>, group: nat): (cs: seq<Citation>)
    ensures |cs| == |ms|
    ensures forall i :: 0 <= i < |ms| ==>
      cs[i].start == ms[i].start && cs[i].end == ms[i].end && cs[i].ref == Strip(ms[i].Group(group))
  {
    seq(|ms|, i requires 0 <= i < |ms| => Citation(ms[i].start, ms[i].end, Strip(ms[i].Group(group))))
  }

  /** A rule-code section ends where the next one starts; the last one runs
      50000 characters or to the end of the text. */
  function RuleWindowEnd(text: string, rules: seq<Citation>, i: nat): nat
    requires i < |rules|
  {
    if i + 1 < |rules| then rules[i + 1].start else Min(rules[i].start + RULE_LOOKAHEAD, |text|)
  }

  function RuleWindow(text: string, rules: seq<Citation>, i: nat): (w: string)
    requires i < |rules|
    ensures w == [] || (rules[i].start + |w| <= |text| && w == text[rules[i].start..rules[i].start + |w|])
    ensures i + 1 < |rules| ==> rules[i].start + |w| <= Max(rules[i].start, rules[i + 1].start)
    ensures i + 1 == |rules| ==> |w| <= RULE_LOOKAHEAD
    ensures i + 1 < |rules| && rules[i].start <= rules[i + 1].start <= |text| ==>
              w == text[rules[i].start..rules[i + 1].start]
    ensures i + 1 == |rules| && rules[i].start <= |text| ==>
              w == text[rules[i].start..Min(rules[i].start + RULE_LOOKAHEAD, |text|)]
    ensures rules[i].start >= |text| ==> w == []
  {
    Slice(text, rules[i].start, RuleWindowEnd(text, rules, i))
  }

  /** An APPLICABLE RULE window: the 3000 characters from the citation on. */
  function ApplicableWindow(text: string, c: Citation): (w: string)
    ensures w == [] || (c.start + |w| <= |text| && w == text[c.start..c.start + |w|])
    ensures |w| <= APPLICABLE_LOOKAHEAD
    ensures c.start <= |text| ==> w == text[c.start..Min(c.start + APPLICABLE_LOOKAHEAD, |text|)]
  {
    Slice(text, c.start, Min(c.start + APPLICABLE_LOOKAHEAD, |text|))
  }

  /** An R 400 or MCL window: 500 characters on each side of the reference. */
  function ReferenceWindow(text: string, c: Citation): (w: string)
    ensures |w| <= c.end - c.start + 2 * REFERENCE_RADIUS || c.end < c.start
    ensures c.start <= c.end <= |text| ==>
              w == text[Max(0, c.start - REFERENCE_RADIUS)..Min(c.end + REFERENCE_RADIUS, |text|)]
  {
    var from := if c.start >= REFERENCE_RADIUS then c.start - REFERENCE_RADIUS else 0;
    Slice(text, from, Min(c.end + REFERENCE_RADIUS, |text|))
  }

  /** A rule-code section counts as violated when its conclusion says so, or
      when its analysis mentions a violation and nothing denies one. */
  predicate RuleViolated(w: string) {
    ConclusionEstablished(w) || (AnalysisMentionsViolation(w) && !DeniesViolation(w))
  }

  /** A reference counts when a violation is mentioned near it and not denied. */
  predicate ReferenceViolated(w: string) {
    MentionsViolation(w) && !DeniesViolation(w)
  }

  datatype Family = RuleCode | ApplicableRule | Reference

  /** Citation i of its family is judged violated. */
  predicate Listed(text: string, cs: seq<Citation>, family: Family, i: nat)
    requires i < |cs|
  {
    match family
    case RuleCode => RuleViolated(RuleWindow(text, cs, i))
    case ApplicableRule => ConclusionColonEstablished(ApplicableWindow(text, cs[i]))
    case Reference => ReferenceViolated(ReferenceWindow(text, cs[i]))
  }

  /** The entry a violated citation contributes. */
  function Entry(family: Family, c: Citation): string {
    match family
    case RuleCode => "Rule " + c.ref
    case ApplicableRule => "R " + c.ref
    case Reference => c.ref
  }

  /** The judgement on each citation of a family, in scan order. */
  function Verdicts(text: string, cs: seq<Citation>, family: Family): (vs: seq<bool>)
    ensures |vs| == |cs|
    ensures forall i: nat :: i < |cs| ==> vs[i] == Listed(text, cs, family, i)
  {
    seq(|cs|, i requires 0 <= i < |cs| => Listed(text, cs, family, i))
  }

  /** The entries of the first n citations whose verdict is positive, in order. */
  function Kept(cs: seq<Citation>, verdicts: seq<bool>, family: Family, n: nat): (es: seq<string>)
    requires |verdicts| == |cs| && n <= |cs|
    ensures |es| <= n
  {
    if n == 0 then []
    else Kept(cs, verdicts, family, n - 1)
         + (if verdicts[n - 1] then [Entry(family, cs[n - 1])] else [])
  }

  /** The entries a family contributes, before duplicates are dropped. */
  function Entries(text: string, cs: seq<Citation>, family: Family): seq<string> {
    Kept(cs, Verdicts(text, cs, family), family, |cs|)
  }

  /** The positions, among the first n, with a positive verdict. */
  function PositiveSet(verdicts: seq<bool>, n: nat): set<nat>
    requires n <= |verdicts|
  {
    set i: nat | i < n && verdicts[i]
  }

  /** The list `acc` followed by every candidate not already present, in order. */
  function AppendNew(acc: seq<string>, candidates: seq<string>): seq<string>
    decreases |candidates|
  {
    if candidates == [] then acc
    else
      var prefix := AppendNew(acc, candidates[..|candidates| - 1]);
      var x := candidates[|candidates| - 1];
      if x in prefix then prefix else prefix + [x]
  }

  /** The violations of a text: rule-code entries, then new APPLICABLE RULE,
      R 400 and MCL entries in that order. */
  function ViolationList(text: string, rules: seq<Citation>, applicable: seq<Citation>,
                         r400: seq<Citation>, mcl: seq<Citation>): seq<string>
  {
    var first := Entries(text, rules, RuleCode);
    var second := AppendNew(first, Entries(text, applicable, ApplicableRule));
    var third := AppendNew(second, Entries(text, r400, Reference));
    AppendNew(third, Entries(text, mcl, Reference))
  }

  // ---------------------------------------------------------------------------
  // The scan
  // ---------------------------------------------------------------------------

  /** [v for v in vs if x in v] */
  function Containing(vs: seq<string>, x: string): (r: seq<string>)
    ensures forall v :: v in r <==> v in vs && Contains(v, x)
  {
    if vs == [] then []
    else (if Contains(vs[0], x) then [vs[0]] else []) + Containing(vs[1..], x)
  }

  /** The duplicate test of the scan is plain membership: x is among the
      entries that contain x exactly when x is an entry. */
  lemma ContainingMember(vs: seq<string>, x: string)
    ensures x in Containing(vs, x) <==> x in vs
  {
    assert StartsAt(x, 0, x);
  }

  lemma AppendNewSnoc(acc: seq<string>, cs: seq<string>, x: string)
    ensures AppendNew(acc, cs + [x]) ==
      if x in AppendNew(acc, cs) then AppendNew(acc, cs) else AppendNew(acc, cs) + [x]
  {
    assert (cs + [x])[..|cs + [x]| - 1] == cs;
  }

  /** Appends the entry of citation j of a family when it is judged violated
      and not yet present. */
  method AppendIfNew(violations: seq<string>, entry: string, violated: bool) returns (r: seq<string>)
    ensures r == if violated && entry !in violations then violations + [entry] else violations
  {
    r := violations;
    if violated {
      ContainingMember(violations, entry);
      if entry !in Containing(violations, entry) {
        r := violations + [entry];
      }
    }
  }

  /** The judgement on one rule-code section: a conclusion settles it;
      otherwise a violation discussed in the analysis counts unless denied. */
  method JudgeRuleSection(context: string) returns (violated: bool)
    ensures violated == RuleViolated(context)
  {
    if ConclusionEstablished(context) {
      violated := true;
    } else if AnalysisMentionsViolation(context) {
      violated := !DeniesViolation(context);
    } else {
      violated := false;
    }
  }

  /** Kept grows by the entry of citation i exactly when its verdict is positive. */
  lemma KeptStep(cs: seq<Citation>, verdicts: seq<bool>, family: Family, i: nat)
    requires |verdicts| == |cs| && i < |cs|
    ensures Kept(cs, verdicts, family, i + 1)
            == Kept(cs, verdicts, family, i) + (if verdicts[i] then [Entry(family, cs[i])] else [])
  {
  }

  /** One pass of the rule-code loop: section i's entry kept when violated. */
  method RuleCodeStep(text: string, rules: seq<Citation>, violations: seq<string>, i: nat)
    returns (next: seq<string>)
    requires i < |rules|
    requires violations == Kept(rules, Verdicts(text, rules, RuleCode), RuleCode, i)
    ensures next == Kept(rules, Verdicts(text, rules, RuleCode), RuleCode, i + 1)
  {
    ghost var verdicts := Verdicts(text, rules, RuleCode);
    var start := rules[i].start;
    var end := if i + 1 < |rules| then rules[i + 1].start else Min(start + RULE_LOOKAHEAD, |text|);
    var context := Slice(text, start, end);
    assert context == RuleWindow(text, rules, i);
    var violated := JudgeRuleSection(context);
    assert violated == verdicts[i];
    KeptStep(rules, verdicts, RuleCode, i);
    next := violations;
    if violated {
      next := next + ["Rule " + rules[i].ref];
    }
  }

  /** The rule-code sections, each judged on its own window, in text order. */
  method ScanRuleCodes(text: string, rules: seq<Citation>) returns (violations: seq<string>)
    ensures violations == Entries(text, rules, RuleCode)
  {
    violations := [];
    for i := 0 to |rules|
      invariant violations == Kept(rules, Verdicts(text, rules, RuleCode), RuleCode, i)
    {
      violations := RuleCodeStep(text, rules, violations, i);
    }
  }

  /** One pass of the APPLICABLE RULE loop: citation i appended when violated and new. */
  method ApplicableStep(acc: seq<string>, text: string, applicable: seq<Citation>,
                        violations: seq<string>, i: nat)
    returns (next: seq<string>)
    requires i < |applicable|
    requires violations == AppendNew(acc, Kept(applicable, Verdicts(text, applicable, ApplicableRule), ApplicableRule, i))
    ensures next == AppendNew(acc, Kept(applicable, Verdicts(text, applicable, ApplicableRule), ApplicableRule, i + 1))
  {
    ghost var verdicts := Verdicts(text, applicable, ApplicableRule);
    var ref := "R " + applicable[i].ref;
    var start := applicable[i].start;
    var context := Slice(text, start, Min(start + APPLICABLE_LOOKAHEAD, |text|));
    assert context == ApplicableWindow(text, applicable[i]);
    var violated := ConclusionColonEstablished(context);
    assert violated == verdicts[i];
    ghost var kept := Kept(applicable, verdicts, ApplicableRule, i);
    KeptStep(applicable, verdicts, ApplicableRule, i);
    AppendNewSnoc(acc, kept, ref);
    next := AppendIfNew(violations, ref, violated);
    assert Kept(applicable, verdicts, ApplicableRule, i + 1) == if violated then kept + [ref] else kept;
  }

  /** The APPLICABLE RULE citations, appended to `acc` when violated and new. */
  method ScanApplicableRules(acc: seq<string>, text: string, applicable: seq<Citation>)
    returns (violations: seq<string>)
    ensures violations == AppendNew(acc, Entries(text, applicable, ApplicableRule))
  {
    violations := acc;
    for i := 0 to |applicable|
      invariant violations == AppendNew(acc, Kept(applicable, Verdicts(text, applicable, ApplicableRule), ApplicableRule, i))
    {
      violations := ApplicableStep(acc, text, applicable, violations, i);
    }
  }

  /** One pass of a reference loop: reference i appended when violated and new. */
  method ReferenceStep(acc: seq<string>, text: string, refs: seq<Citation>,
                       violations: seq<string>, i: nat)
    returns (next: seq<string>)
    requires i < |refs|
    requires violations == AppendNew(acc, Kept(refs, Verdicts(text, refs, Reference), Reference, i))
    ensures next == AppendNew(acc, Kept(refs, Verdicts(text, refs, Reference), Reference, i + 1))
  {
    ghost var verdicts := Verdicts(text, refs, Reference);
    var ref := refs[i].ref;
    var context := ReferenceWindow(text, refs[i]);
    var violated := MentionsViolation(context) && !DeniesViolation(context);
    assert violated == verdicts[i];
    ghost var kept := Kept(refs, verdicts, Reference, i);
    KeptStep(refs, verdicts, Reference, i);
    AppendNewSnoc(acc, kept, ref);
    next := AppendIfNew(violations, ref, violated);
    assert Kept(refs, verdicts, Reference, i + 1) == if violated then kept + [ref] else kept;
  }

  /** The R 400 or MCL references, appended to `acc` when violated and new. */
  method ScanReferences(acc: seq<string>, text: string, refs: seq<Citation>)
    returns (violations: seq<string>)
    ensures violations == AppendNew(acc, Entries(text, refs, Reference))
  {
    violations := acc;
    for i := 0 to |refs|
      invariant violations == AppendNew(acc, Kept(refs, Verdicts(text, refs, Reference), Reference, i))
    {
      violations := ReferenceStep(acc, text, refs, violations, i);
    }
  }

  /** The scan over a text, given the four families of citations in text order. */
  method ExtractViolations(text: string, rules: seq<Citation>, applicable: seq<Citation>,
                           r400: seq<Citation>, mcl: seq<Citation>)
    returns (violations: seq<string>)
    ensures violations == ViolationList(text, rules, applicable, r400, mcl)
  {
    violations := ScanRuleCodes(text, rules);
    violations := ScanApplicableRules(violations, text, applicable);
    violations := ScanReferences(violations, text, r400);
    violations := ScanReferences(violations, text, mcl);
  }

  // ---------------------------------------------------------------------------
  // Properties
  // ---------------------------------------------------------------------------

  /** AppendNew keeps the list it extends as a prefix, adds each candidate not
      already present exactly once, and adds nothing else. */
  lemma {:induction false} AppendNewSpec(acc: seq<string>, candidates: seq<string>)
    ensures acc <= AppendNew(acc, candidates)
    ensures forall x :: x in AppendNew(acc, candidates) <==> x in acc || x in candidates
    ensures forall i, j :: |acc| <= i < j < |AppendNew(acc, candidates)| ==>
              AppendNew(acc, candidates)[i] != AppendNew(acc, candidates)[j]
    ensures forall i :: |acc| <= i < |AppendNew(acc, candidates)| ==> AppendNew(acc, candidates)[i] !in acc
    decreases |candidates|
  {
    if candidates != [] {
      var init := candidates[..|candidates| - 1];
      assert candidates == init + [candidates[|candidates| - 1]];
      AppendNewSpec(acc, init);
    }
  }

  /** One entry for every positive verdict: a rule cited in several
      violated sections appears several times. */
  lemma {:induction false} KeptCount(cs: seq<Citation>, verdicts: seq<bool>, family: Family, n: nat)
    requires |verdicts| == |cs| && n <= |cs|
    ensures |Kept(cs, verdicts, family, n)| == |PositiveSet(verdicts, n)|
  {
    if n > 0 {
      KeptCount(cs, verdicts, family, n - 1);
      var before := PositiveSet(verdicts, n - 1);
      if verdicts[n - 1] {
        assert |PositiveSet(verdicts, n)| == |before| + 1 by {
          assert PositiveSet(verdicts, n) == before + {n - 1};
          assert n - 1 !in before;
        }
      } else {
        assert PositiveSet(verdicts, n) == before;
      }
    }
  }

  /** The k-th kept entry belongs to the k-th citation with a positive verdict. */
  lemma {:induction false} KeptMember(cs: seq<Citation>, verdicts: seq<bool>, family: Family, n: nat, x: string)
    requires |verdicts| == |cs| && n <= |cs|
    ensures x in Kept(cs, verdicts, family, n) <==>
              exists i: nat :: i < n && verdicts[i] && x == Entry(family, cs[i])
  {
    if n > 0 {
      KeptMember(cs, verdicts, family, n - 1, x);
    }
  }

  /** A family's entry is present exactly when some citation naming it is
      judged violated, and there is one entry per violated citation. */
  lemma EntriesSpec(text: string, cs: seq<Citation>, family: Family)
    ensures forall x :: x in Entries(text, cs, family) <==>
              exists i: nat :: i < |cs| && Listed(text, cs, family, i) && x == Entry(family, cs[i])
    ensures |Entries(text, cs, family)| == |set i: nat | i < |cs| && Listed(text, cs, family, i)|
  {
    var vs := Verdicts(text, cs, family);
    forall x ensures x in Entries(text, cs, family) <==>
                     exists i: nat :: i < |cs| && Listed(text, cs, family, i) && x == Entry(family, cs[i]) {
      KeptMember(cs, vs, family, |cs|, x);
    }
    KeptCount(cs, vs, family, |cs|);
    assert PositiveSet(vs, |cs|) == set i: nat | i < |cs| && Listed(text, cs, family, i);
  }

  /** The shape of the violation list: the rule-code entries come first and
      intact; after them the APPLICABLE RULE, R 400 and MCL contributions
      follow in that order, each extending the list before it; no later entry
      repeats an earlier one; and every entry comes from some family. */
  lemma ViolationListShape(text: string, rules: seq<Citation>, applicable: seq<Citation>,
                           r400: seq<Citation>, mcl: seq<Citation>)
    ensures
      var first := Entries(text, rules, RuleCode);
      var second := AppendNew(first, Entries(text, applicable, ApplicableRule));
      var third := AppendNew(second, Entries(text, r400, Reference));
      var all := ViolationList(text, rules, applicable, r400, mcl);
      && first <= second <= third <= all
      && (forall i, j :: |first| <= i < j < |all| ==> all[i] != all[j])
      && (forall i :: |first| <= i < |all| ==> all[i] !in first)
      && (forall x :: x in all <==>
            || x in first
            || x in Entries(text, applicable, ApplicableRule)
            || x in Entries(text, r400, Reference)
            || x in Entries(text, mcl, Reference))
  {
    var first := Entries(text, rules, RuleCode);
    var es2 := Entries(text, applicable, ApplicableRule);
    var es3 := Entries(text, r400, Reference);
    var es4 := Entries(text, mcl, Reference);
    var second := AppendNew(first, es2);
    var third := AppendNew(second, es3);
    var all := AppendNew(third, es4);
    AppendNewSpec(first, es2);
    AppendNewSpec(second, es3);
    AppendNewSpec(third, es4);
    forall i, j | |first| <= i < j < |all| ensures all[i] != all[j] {
      if j >= |third| {
        if i >= |third| { } else { assert all[i] == third[i]; assert all[i] in third; }
      } else if j >= |second| {
        assert all[i] == third[i] && all[j] == third[j];
        if i < |second| { assert third[i] == second[i]; assert third[i] in second; }
      } else {
        assert all[i] == second[i] && all[j] == second[j];
      }
    }
    forall i | |first| <= i < |all| ensures all[i] !in first {
      if i >= |third| {
        assert forall y :: y in first ==> y in third;
      } else if i >= |second| {
        assert all[i] == third[i];
        assert forall y :: y in first ==> y in second;
      } else {
        assert all[i] == second[i];
      }
    }
  }

  /** A rule-code section is judged on its own window only: a text that
      agrees with it on that window gives the same judgement, whatever lies
      in later sections or beyond the 50000-character limit. */
  lemma RuleJudgedLocally(text1: string, text2: string, rules: seq<Citation>, i: nat)
    requires i < |rules|
    requires var s := rules[i].start; var e := RuleWindowEnd(text1, rules, i);
             && RuleWindowEnd(text2, rules, i) == e
             && s <= e <= |text1| && e <= |text2|
             && text1[s..e] == text2[s..e]
    ensures Listed(text1, rules, RuleCode, i) == Listed(text2, rules, RuleCode, i)
  {
  }

  /** With no citation found there is nothing to report. */
  lemma NoCitationsNoViolations(text: string)
    ensures ViolationList(text, [], [], [], []) == []
  {
  }

  // ---------------------------------------------------------------------------
  // Inspection date of this table, and the document record
  // ---------------------------------------------------------------------------

  /** The date text of a match of `pattern`, chosen by the number of '(' in
      the pattern's source: group 1 when there are more than one, else the
      whole match. */
  function DateGroupByParens(pattern: string, m: Match): (g: string)
    ensures CountChar(pattern, '(') > 1 ==> g == m.Group(1)
    ensures CountChar(pattern, '(') <= 1 ==> g == m.Group(0)
  {
    if CountChar(pattern, '(') > 1 then m.Group(1) else m.Group(0)
  }

  /** The inspection date of the violations table: the first date pattern
      that matches, with the group chosen by DateGroupByParens. */
  function InspectionDate(search: Searcher, text: string): (r: Option<string>)
    ensures r.None? <==> DocumentInfo.NoHit(search, DocumentInfo.DATE_PATTERNS, text)
    ensures r.Some? ==> exists k: nat ::
              && DocumentInfo.IsFirstHit(search, DocumentInfo.DATE_PATTERNS, text, k)
              && r.value == NormalizeSpace(DateGroupByParens(DocumentInfo.DATE_PATTERNS[k],
                                                             search(DocumentInfo.DATE_PATTERNS[k], text).value))
  {
    match DocumentInfo.FirstMatch(search, DocumentInfo.DATE_PATTERNS, text)
    case None => None
    case Some((k, m)) => Some(DocumentInfo.CleanValue(DateGroupByParens(DocumentInfo.DATE_PATTERNS[k], m)))
  }

  lemma CaptureParens()
    ensures CountChar(DocumentInfo.CAPTURE_REST_OF_LINE, '(') == 1
  {
    var p := DocumentInfo.CAPTURE_REST_OF_LINE;
    assert p[3] == '(' && '(' !in p[..3] && '(' !in p[4..];
    CountCharOnce(p, '(', 3);
  }

  lemma IntakeDateLabelParens()
    ensures CountChar(DocumentInfo.INTAKE_DATE_LABEL + DocumentInfo.CAPTURE_REST_OF_LINE, '(') == 1
  {
    assert '(' !in DocumentInfo.INTAKE_DATE_LABEL;
    CaptureParens();
    CountCharAbsentPrefix(DocumentInfo.INTAKE_DATE_LABEL, DocumentInfo.CAPTURE_REST_OF_LINE, '(');
  }

  /** The on-site patterns hold two '(' (one escaped, one opening the
      capture); the intake pattern holds only the capture's. */
  lemma DatePatternParens()
    ensures CountChar(DocumentInfo.DATE_PATTERNS[0], '(') > 1
    ensures CountChar(DocumentInfo.DATE_PATTERNS[1], '(') > 1
    ensures CountChar(DocumentInfo.DATE_PATTERNS[2], '(') == 1
  {
    var onsites := DocumentInfo.DATE_PATTERNS[0];
    assert onsites[5] == '(' && onsites[35] == '(';
    CountCharTwice(onsites, '(', 5, 35);
    var onsite := DocumentInfo.DATE_PATTERNS[1];
    assert onsite[27] == '(' && onsite[35] == '(';
    CountCharTwice(onsite, '(', 27, 35);
    IntakeDateLabelParens();
    assert DocumentInfo.DATE_PATTERNS[2] == DocumentInfo.INTAKE_DATE_LABEL + DocumentInfo.CAPTURE_REST_OF_LINE;
  }

  /** For the two on-site inspection labels both date extractors return the
      captured date. */
  lemma OnSiteDatesAgree(search: Searcher, text: string, m: Match)
    requires DocumentInfo.FirstMatch(search, DocumentInfo.DATE_PATTERNS, text).Some?
    requires DocumentInfo.FirstMatch(search, DocumentInfo.DATE_PATTERNS, text).value.0 < 2
    requires m == DocumentInfo.FirstMatch(search, DocumentInfo.DATE_PATTERNS, text).value.1
    requires m.HasCapture()
    ensures InspectionDate(search, text) == DocumentInfo.InspectionDate(search, text) == Some(NormalizeSpace(m.groups[1]))
  {
    DatePatternParens();
  }

  /** For the "Special Investigation Intake Date:" label the two extractors
      differ: the document-information table takes the captured date, while
      the violations table, whose pattern has a single '(', takes the whole
      match, label included. */
  lemma IntakeDatesDiffer(search: Searcher, text: string, m: Match)
    requires DocumentInfo.FirstMatch(search, DocumentInfo.DATE_PATTERNS, text) == Some((2, m))
    requires m.HasCapture()
    ensures InspectionDate(search, text) == Some(NormalizeSpace(m.groups[0]))
    ensures DocumentInfo.InspectionDate(search, text) == Some(NormalizeSpace(m.groups[1]))
  {
    DatePatternParens();
    var whole := DateGroupByParens(DocumentInfo.DATE_PATTERNS[2], m);
    assert whole == m.groups[0];
    assert InspectionDate(search, text) == Some(DocumentInfo.CleanValue(whole));
    assert DocumentInfo.DateGroup(m) == m.groups[1];
  }

  datatype ViolationRecord = ViolationRecord(
    agencyId: Option<string>,
    date: Option<string>,
    agencyName: Option<string>,
    title: Option<string>,
    violations: seq<string>,
    numViolations: nat,
    isSpecialInvestigation: bool)

  /** The violation list of a text, with the citations found by the four scans. */
  function TextViolations(scan: Scanner, text: string): seq<string> {
    ViolationList(text,
      Citations(scan(RULE_CODE_PATTERN, text), 1),
      Citations(scan(APPLICABLE_RULE_PATTERN, text), 1),
      Citations(scan(R400_PATTERN, text), 0),
      Citations(scan(MCL_PATTERN, text), 0))
  }

  /** One row of the violations table: the pages are joined with newlines, the
      document facts are read as for the document-information table (except
      the date, see InspectionDate), and the count is the length of the list. */
  function ParseDocument(search: Searcher, scan: Scanner, pages: seq<string>): (d: ViolationRecord)
    ensures d.violations == TextViolations(scan, Join("\n", pages))
    ensures d.numViolations == |d.violations|
    ensures d.date == InspectionDate(search, Join("\n", pages))
    ensures d.isSpecialInvestigation == DocumentInfo.IsSpecialInvestigation(search, Join("\n", pages))
    ensures d.agencyId == DocumentInfo.LicenseNumber(search, Join("\n", pages))
    ensures d.agencyName == DocumentInfo.AgencyName(search, Join("\n", pages))
    ensures d.title.None? <==> DocumentInfo.DocumentTitle(search, Join("\n", pages)).None?
    ensures d.title.Some? ==> d.title.value == DocumentInfo.DocumentTitle(search, Join("\n", pages)).value.text
  {
    var text := Join("\n", pages);
    var violations := TextViolations(scan, text);
    var title := DocumentInfo.DocumentTitle(search, text);
    ViolationRecord(
      DocumentInfo.LicenseNumber(search, text),
      InspectionDate(search, text),
      DocumentInfo.AgencyName(search, text),
      if title.Some? then Some(title.value.text) else None,
      violations,
      |violations|,
      DocumentInfo.IsSpecialInvestigation(search, text))
  }
}
