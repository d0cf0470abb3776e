/**
 * The translation of catalog rules into the steps of the standalone
 * analyzer scripts: for Bash, a grep extended regular expression and an
 * optional negative filter; for PowerShell, the rule text with its single
 * quotes doubled. Regular expressions are handled as text only.
 */
module ScriptGenerator {
  import opened Wrappers
  import opened Records
  import Seqs
  import JsText

  const SpaceEscape := "\\s"
  const SpaceClass := "[[:space:]]"
  const LookaheadOpen := "(?!"

  // ---- `\s` to `[[:space:]]`

  /** `replace(/\\s/g, '[[:space:]]')`: every `\s`, left to right, becomes the POSIX class. */
  function ReplaceSpaceEscapes(s: string): string
    decreases |s|
  {
    if s == [] then []
    else if |s| >= 2 && s[0] == '\\' && s[1] == 's' then SpaceClass + ReplaceSpaceEscapes(s[2..])
    else [s[0]] + ReplaceSpaceEscapes(s[1..])
  }

  /** `s` contains `sub` exactly when it starts with it or its tail contains it. */
  lemma ContainsCons(s: string, sub: string)
    requires s != [] && sub != []
    ensures JsText.Contains(s, sub) <==> JsText.StartsWith(s, sub) || JsText.Contains(s[1..], sub)
  {
  }

  /** A prefix without the first character of `sub` adds no occurrence of it. */
  lemma {:induction false} ContainsAfterPlain(a: string, t: string, sub: string)
    requires sub != [] && sub[0] !in a
    ensures JsText.Contains(a + t, sub) <==> JsText.Contains(t, sub)
  {
    if a != [] {
      assert (a + t)[1..] == a[1..] + t;
      assert (a + t)[0] == a[0];
      ContainsCons(a + t, sub);
      ContainsAfterPlain(a[1..], t, sub);
    } else {
      assert a + t == t;
    }
  }

  /** The first character of the replacement of a non-empty text. */
  lemma ReplaceHead(s: string)
    requires s != []
    ensures ReplaceSpaceEscapes(s) != []
    ensures ReplaceSpaceEscapes(s)[0] == if |s| >= 2 && s[0] == '\\' && s[1] == 's' then '[' else s[0]
  {
  }

  /** After the replacement no `\s` is left. */
  lemma {:induction false} NoSpaceEscapeLeft(s: string)
    ensures !JsText.Contains(ReplaceSpaceEscapes(s), SpaceEscape)
    decreases |s|
  {
    var r := ReplaceSpaceEscapes(s);
    if s == [] {
    } else if |s| >= 2 && s[0] == '\\' && s[1] == 's' {
      NoSpaceEscapeLeft(s[2..]);
      ContainsAfterPlain(SpaceClass, ReplaceSpaceEscapes(s[2..]), SpaceEscape);
    } else {
      var rest := ReplaceSpaceEscapes(s[1..]);
      NoSpaceEscapeLeft(s[1..]);
      assert r[0] == s[0] && r[1..] == rest;
      if |s| >= 2 {
        ReplaceHead(s[1..]);
        assert r[0] != '\\' || r[1] != 's';
      }
      assert SpaceEscape[0] == '\\' && SpaceEscape[1] == 's';
      ContainsCons(r, SpaceEscape);
    }
  }

  /** Text without `\s` is left as it is. */
  lemma {:induction false} ReplaceWithoutEscape(s: string)
    requires !JsText.Contains(s, SpaceEscape)
    ensures ReplaceSpaceEscapes(s) == s
    decreases |s|
  {
    if s != [] {
      ContainsCons(s, SpaceEscape);
      ReplaceWithoutEscape(s[1..]);
    }
  }

  /** Text without a backslash passes through unchanged ahead of the rest. */
  lemma {:induction false} ReplaceAfterPlain(a: string, t: string)
    requires '\\' !in a
    ensures ReplaceSpaceEscapes(a + t) == a + ReplaceSpaceEscapes(t)
  {
    if a == [] {
      assert a + t == t;
    } else {
      assert (a + t)[0] == a[0] && (a + t)[1..] == a[1..] + t;
      ReplaceAfterPlain(a[1..], t);
    }
  }

  // ---- removal of `(?!…)`

  /**
   * Where the lazy `.*?\)` that starts at `k` ends: the first `)` at or
   * after `k`, unless a line terminator (which `.` does not match) comes
   * first.
   */
  function LazyClose(s: string, k: nat): (r: Option<nat>)
    ensures r.Some? ==> k <= r.value < |s| && s[r.value] == ')'
    decreases |s| - k
  {
    if k >= |s| then None
    else if s[k] == ')' then Some(k)
    else if JsText.IsLineTerminator(s[k]) then None
    else LazyClose(s, k + 1)
  }

  /**
   * `replace(/\(\?!.*?\)/g, '')`: scanning left to right, each `(?!`
   * that has a reachable `)` is deleted together with everything up to
   * and including that `)`; the scan resumes after it.
   */
  function RemoveLookaheads(s: string): (r: string)
    ensures |r| <= |s|
    decreases |s|
  {
    if s == [] then []
    else if JsText.StartsWith(s, LookaheadOpen) && LazyClose(s, 3).Some? then RemoveLookaheads(s[LazyClose(s, 3).value + 1..])
    else [s[0]] + RemoveLookaheads(s[1..])
  }

  /** `a` arises from `b` by deleting characters. */
  predicate Deletion(a: string, b: string)
    decreases |b|
  {
    if b == [] then a == []
    else (a != [] && a[0] == b[0] && Deletion(a[1..], b[1..])) || Deletion(a, b[1..])
  }

  lemma {:induction false} DeletionDrop(a: string, b: string, n: nat)
    requires n <= |b| && Deletion(a, b[n..])
    ensures Deletion(a, b)
    decreases n
  {
    if n > 0 {
      assert b[1..][n - 1..] == b[n..];
      DeletionDrop(a, b[1..], n - 1);
    }
  }

  /** The removal only deletes characters. */
  lemma {:induction false} RemoveOnlyDeletes(s: string)
    ensures Deletion(RemoveLookaheads(s), s)
    decreases |s|
  {
    var r := RemoveLookaheads(s);
    if s == [] {
    } else if JsText.StartsWith(s, LookaheadOpen) && LazyClose(s, 3).Some? {
      var n := LazyClose(s, 3).value + 1;
      RemoveOnlyDeletes(s[n..]);
      DeletionDrop(r, s, n);
    } else {
      RemoveOnlyDeletes(s[1..]);
      assert r[0] == s[0] && r[1..] == RemoveLookaheads(s[1..]);
    }
  }

  /** Text without `(?!` is left as it is. */
  lemma {:induction false} RemoveWithoutLookahead(s: string)
    requires !JsText.Contains(s, LookaheadOpen)
    ensures RemoveLookaheads(s) == s
    decreases |s|
  {
    if s != [] {
      ContainsCons(s, LookaheadOpen);
      RemoveWithoutLookahead(s[1..]);
    }
  }

  /** The lazy close of a body free of `)` and line terminators is the `)` right after it. */
  lemma {:induction false} LazyCloseAfter(s: string, k: nat, body: string)
    requires k + |body| < |s| && s[k..k + |body|] == body && s[k + |body|] == ')'
    requires ')' !in body && forall i :: 0 <= i < |body| ==> !JsText.IsLineTerminator(body[i])
    ensures LazyClose(s, k) == Some(k + |body|)
    decreases |body|
  {
    if body != [] {
      assert s[k] == body[0];
      assert s[k + 1..k + 1 + |body[1..]|] == body[1..];
      LazyCloseAfter(s, k + 1, body[1..]);
    }
  }

  /** A complete group `(?!body)` at the start is deleted and the scan goes on after it. */
  lemma RemoveGroup(body: string, rest: string)
    requires ')' !in body && forall i :: 0 <= i < |body| ==> !JsText.IsLineTerminator(body[i])
    ensures RemoveLookaheads(LookaheadOpen + body + ")" + rest) == RemoveLookaheads(rest)
  {
    var s := LookaheadOpen + body + ")" + rest;
    assert s[..3] == LookaheadOpen;
    assert s[3..3 + |body|] == body;
    assert s[3 + |body|] == ')';
    LazyCloseAfter(s, 3, body);
    assert s[3 + |body| + 1..] == rest;
  }

  /** Text without an opening parenthesis passes through unchanged ahead of the rest. */
  lemma {:induction false} RemoveAfterPlain(a: string, t: string)
    requires '(' !in a
    ensures RemoveLookaheads(a + t) == a + RemoveLookaheads(t)
  {
    if a == [] {
      assert a + t == t;
    } else {
      var s := a + t;
      assert s[1..] == a[1..] + t;
      assert !JsText.StartsWith(s, LookaheadOpen) by {
        assert s[0] == a[0] && a[0] in a;
        assert LookaheadOpen[0] == '(';
      }
      assert '(' !in a[1..] by {
        Seqs.InConcat([a[0]], a[1..], '(');
        assert [a[0]] + a[1..] == a;
      }
      RemoveAfterPlain(a[1..], t);
    }
  }

  // ---- the grep expression

  /** `convertToGrepRegex`: `\s` is replaced first, then the lookahead groups are removed. */
  function ConvertToGrepRegex(regex: string): string {
    RemoveLookaheads(ReplaceSpaceEscapes(regex))
  }

  /** A rule without `\s` and without `(?!` is used by grep as it is. */
  lemma ConvertPlain(regex: string)
    requires !JsText.Contains(regex, SpaceEscape) && !JsText.Contains(regex, LookaheadOpen)
    ensures ConvertToGrepRegex(regex) == regex
  {
    ReplaceWithoutEscape(regex);
    RemoveWithoutLookahead(regex);
  }

  /** The grep expression arises from the rule with `\s` replaced by deleting characters. */
  lemma ConvertDeletes(regex: string)
    ensures Deletion(ConvertToGrepRegex(regex), ReplaceSpaceEscapes(regex))
  {
    RemoveOnlyDeletes(ReplaceSpaceEscapes(regex));
  }

  /** The rule the code's own comment uses as its example: a static field that is not read-only. */
  const DocumentedRule := "public" + SpaceEscape + "+static" + DocumentedGroup
  /** Its lookahead group and what follows it. */
  const DocumentedGroup := LookaheadOpen + ".*" + "readonly" + ")" + ".*="

  lemma ReplaceInDocumentedRule()
    ensures ReplaceSpaceEscapes(DocumentedRule) == "public" + SpaceClass + "+static" + DocumentedGroup
  {
    var tail := "+static" + DocumentedGroup;
    Seqs.Assoc3("public" + SpaceEscape, "+static", DocumentedGroup);
    Seqs.Assoc3("public", SpaceEscape, tail);
    ReplaceAfterPlain("public", SpaceEscape + tail);
    assert (SpaceEscape + tail)[2..] == tail;
    ReplaceAfterPlain("+static", DocumentedGroup);
    ReplaceAfterPlain(DocumentedGroup, []);
    assert DocumentedGroup + [] == DocumentedGroup;
    Seqs.Assoc3("public", SpaceClass, tail);
    Seqs.Assoc3("public" + SpaceClass, "+static", DocumentedGroup);
  }

  lemma RemoveInDocumentedGroup()
    ensures RemoveLookaheads(DocumentedGroup) == ".*="
  {
    var body := ".*" + "readonly";
    Seqs.Assoc(LookaheadOpen, ".*", "readonly", ")");
    Seqs.Assoc3(LookaheadOpen, ".*", "readonly");
    RemoveGroup(body, ".*=");
    RemoveAfterPlain(".*=", []);
    assert ".*=" + [] == ".*=";
  }

  /** On that rule the grep expression keeps everything but the lookahead. */
  lemma ConvertDocumentedRule()
    ensures ConvertToGrepRegex(DocumentedRule) == "public" + SpaceClass + "+static" + ".*="
  {
    ReplaceInDocumentedRule();
    RemoveAfterPlain("public" + SpaceClass + "+static", DocumentedGroup);
    RemoveInDocumentedGroup();
  }

  // ---- the negative filter

  /** The first `)` at or after `k`. */
  function NextClose(s: string, k: nat): (r: Option<nat>)
    ensures r.Some? ==> k <= r.value < |s| && s[r.value] == ')' && forall m :: k <= m < r.value ==> s[m] != ')'
    ensures r.None? ==> forall m :: k <= m < |s| ==> s[m] != ')'
    decreases |s| - k
  {
    if k >= |s| then None
    else if s[k] == ')' then Some(k)
    else NextClose(s, k + 1)
  }

  /**
   * The first group of `s.match(/<prefix>([^)]+)\)/)`: at the leftmost
   * position where `prefix` occurs followed by at least one character
   * other than `)` and then a `)`, the characters in between.
   */
  function CaptureAfter(s: string, prefix: string): (r: Option<string>)
    requires prefix != []
    ensures r.Some? ==> r.value != [] && ')' !in r.value
    decreases |s|
  {
    if s == [] then None
    else if JsText.StartsWith(s, prefix) && NextClose(s, |prefix|).Some? && NextClose(s, |prefix|).value > |prefix|
    then Some(s[|prefix|..NextClose(s, |prefix|).value])
    else CaptureAfter(s[1..], prefix)
  }

  /** A capture comes from an occurrence of the prefix, the capture and a `)`. */
  lemma {:induction false} CaptureSound(s: string, prefix: string)
    requires prefix != [] && CaptureAfter(s, prefix).Some?
    ensures JsText.Contains(s, prefix + CaptureAfter(s, prefix).value + ")")
    decreases |s|
  {
    var x := CaptureAfter(s, prefix).value;
    var w := prefix + x + ")";
    if JsText.StartsWith(s, prefix) && NextClose(s, |prefix|).Some? && NextClose(s, |prefix|).value > |prefix| {
      var j := NextClose(s, |prefix|).value;
      assert s[..|w|] == s[..|prefix|] + s[|prefix|..j] + [s[j]];
    } else {
      CaptureSound(s[1..], prefix);
      ContainsCons(s, w);
    }
  }

  /** No occurrence of the prefix, no capture. */
  lemma {:induction false} CaptureAbsent(s: string, prefix: string)
    requires prefix != [] && !JsText.Contains(s, prefix)
    ensures CaptureAfter(s, prefix).None?
    decreases |s|
  {
    if s != [] {
      ContainsCons(s, prefix);
      CaptureAbsent(s[1..], prefix);
    }
  }

  /** An occurrence of the prefix, a non-empty text without `)` and a `)` is always caught. */
  lemma {:induction false} CaptureComplete(s: string, prefix: string, x: string)
    requires prefix != [] && x != [] && ')' !in x && JsText.Contains(s, prefix + x + ")")
    ensures CaptureAfter(s, prefix).Some?
    decreases |s|
  {
    var w := prefix + x + ")";
    ContainsCons(s, w);
    if JsText.StartsWith(s, w) {
      StartsWithParts(s, prefix, x, ")");
      NextCloseAfter(s, |prefix|, x);
    } else {
      CaptureComplete(s[1..], prefix, x);
    }
  }

  lemma StartsWithParts(s: string, a: string, b: string, c: string)
    requires JsText.StartsWith(s, a + b + c)
    ensures s[..|a|] == a && s[|a|..|a| + |b|] == b && s[|a| + |b|..|a| + |b| + |c|] == c
  {
    var w := a + b + c;
    assert s[..|w|] == w;
    assert s[..|a|] == w[..|a|];
    assert s[|a|..|a| + |b|] == w[|a|..|a| + |b|];
    assert s[|a| + |b|..|w|] == w[|a| + |b|..];
  }

  /** The first `)` after a text without one is the `)` right after it. */
  lemma {:induction false} NextCloseAfter(s: string, k: nat, x: string)
    requires k + |x| < |s| && s[k..k + |x|] == x && s[k + |x|] == ')' && ')' !in x
    ensures NextClose(s, k) == Some(k + |x|)
    decreases |x|
  {
    if x != [] {
      assert s[k] == x[0];
      assert s[k + 1..k + 1 + |x[1..]|] == x[1..];
      NextCloseAfter(s, k + 1, x[1..]);
    }
  }

  /** A text without `(` ahead of the rest changes nothing about the capture of a prefix that starts with `(`. */
  lemma {:induction false} CaptureAfterPlain(a: string, t: string, prefix: string)
    requires prefix != [] && prefix[0] == '(' && '(' !in a
    ensures CaptureAfter(a + t, prefix) == CaptureAfter(t, prefix)
  {
    if a == [] {
      assert a + t == t;
    } else {
      var s := a + t;
      assert s[0] == a[0] && s[1..] == a[1..] + t;
      assert !JsText.StartsWith(s, prefix);
      CaptureAfterPlain(a[1..], t, prefix);
    }
  }

  /** The lookahead form `needsNegativeFilter` looks for, as written: `(?!` followed by a literal `..*`. */
  const FilterOpenAsWritten := LookaheadOpen + "..*"
  /** The form the rules use, as in the documented example: `(?!` followed by `.*`. */
  const FilterOpen := LookaheadOpen + ".*"

  /** `needsNegativeFilter` as written: `null` becomes `None`. */
  function NeedsNegativeFilterAsWritten(regex: string): Option<string> {
    CaptureAfter(regex, FilterOpenAsWritten)
  }

  /** The negative filter as evidently intended: the text after `(?!.*` up to the next `)`. */
  function NeedsNegativeFilter(regex: string): Option<string> {
    CaptureAfter(regex, FilterOpen)
  }

  /** The filter is present exactly when the rule has a non-empty lookahead body, and is free of `)`. */
  lemma NegativeFilterSpec(regex: string)
    ensures NeedsNegativeFilter(regex).Some? ==>
      var x := NeedsNegativeFilter(regex).value;
      x != [] && ')' !in x && JsText.Contains(regex, FilterOpen + x + ")")
    ensures !JsText.Contains(regex, FilterOpen) ==> NeedsNegativeFilter(regex).None?
    ensures forall x :: x != [] && ')' !in x && JsText.Contains(regex, FilterOpen + x + ")") ==> NeedsNegativeFilter(regex).Some?
  {
    if NeedsNegativeFilter(regex).Some? {
      CaptureSound(regex, FilterOpen);
    }
    if !JsText.Contains(regex, FilterOpen) {
      CaptureAbsent(regex, FilterOpen);
    }
    forall x | x != [] && ')' !in x && JsText.Contains(regex, FilterOpen + x + ")")
      ensures NeedsNegativeFilter(regex).Some?
    {
      CaptureComplete(regex, FilterOpen, x);
    }
  }

  /**
   * As written, the filter is present exactly when a non-empty `)`-free body
   * follows a literal `(?!..*` and is closed, and it is then such a body.
   */
  lemma NegativeFilterAsWrittenSpec(regex: string)
    ensures NeedsNegativeFilterAsWritten(regex).Some? ==>
      var x := NeedsNegativeFilterAsWritten(regex).value;
      x != [] && ')' !in x && JsText.Contains(regex, FilterOpenAsWritten + x + ")")
    ensures !JsText.Contains(regex, FilterOpenAsWritten) ==> NeedsNegativeFilterAsWritten(regex).None?
    ensures forall x :: x != [] && ')' !in x && JsText.Contains(regex, FilterOpenAsWritten + x + ")") ==>
      NeedsNegativeFilterAsWritten(regex).Some?
  {
    if NeedsNegativeFilterAsWritten(regex).Some? {
      CaptureSound(regex, FilterOpenAsWritten);
    }
    if !JsText.Contains(regex, FilterOpenAsWritten) {
      CaptureAbsent(regex, FilterOpenAsWritten);
    }
    forall x | x != [] && ')' !in x && JsText.Contains(regex, FilterOpenAsWritten + x + ")")
      ensures NeedsNegativeFilterAsWritten(regex).Some?
    {
      CaptureComplete(regex, FilterOpenAsWritten, x);
    }
  }

  /** As written, the documented rule gets no negative filter: the literal `..*` never occurs in it. */
  lemma AsWrittenMissesDocumentedRule()
    ensures NeedsNegativeFilterAsWritten(DocumentedRule).None?
  {
    var group := LookaheadOpen + ".*" + "readonly" + ")" + ".*=";
    var lead := "public" + SpaceEscape + "+static";
    var after := "?!" + ".*" + "readonly" + ")" + ".*=";
    assert CaptureAfter(DocumentedRule, FilterOpenAsWritten) == CaptureAfter(group, FilterOpenAsWritten) by {
      assert DocumentedRule == lead + group;
      CaptureAfterPlain(lead, group, FilterOpenAsWritten);
    }
    assert CaptureAfter(group, FilterOpenAsWritten) == CaptureAfter(after, FilterOpenAsWritten) by {
      assert group[4] == '*' && FilterOpenAsWritten[4] == '.';
      assert !JsText.StartsWith(group, FilterOpenAsWritten);
      assert group[1..] == after;
    }
    assert CaptureAfter(after, FilterOpenAsWritten) == None by {
      CaptureAfterPlain(after, [], FilterOpenAsWritten);
      assert after + [] == after;
    }
  }

  /** As intended, the documented rule's filter is the read-only keyword. */
  lemma IntendedCatchesDocumentedRule()
    ensures NeedsNegativeFilter(DocumentedRule) == Some("readonly")
  {
    var group := FilterOpen + "readonly" + ")" + ".*=";
    var lead := "public" + SpaceEscape + "+static";
    assert DocumentedRule == lead + group;
    CaptureAfterPlain(lead, group, FilterOpen);
    assert group[..5] == FilterOpen;
    assert group[5..5 + 8] == "readonly" && group[13] == ')';
    NextCloseAfter(group, 5, "readonly");
    assert group[5..13] == "readonly";
  }

  // ---- the script steps

  /** What one Bash step is built from: the grep expression and, if any, the text to filter out. */
  datatype GrepStep = GrepStep(category: string, grepRegex: string, negativeFilter: Option<string>, severity: string, remediation: string)

  /** What one PowerShell step is built from: the rule text with its single quotes doubled. */
  datatype MatchStep = MatchStep(category: string, psRegex: string, severity: string, remediation: string)

  /** One Bash step as the generator builds it: the negative filter is the one `needsNegativeFilter` computes as written. */
  function GrepStepOf(p: Rule): GrepStep {
    GrepStep(p.category, ConvertToGrepRegex(p.regex), NeedsNegativeFilterAsWritten(p.regex), p.severity, p.remediation)
  }

  /** The step as evidently intended: the same step with the corrected negative filter. */
  function IntendedGrepStepOf(p: Rule): GrepStep {
    GrepStepOf(p).(negativeFilter := NeedsNegativeFilter(p.regex))
  }

  /**
   * For the documented rule both steps grep for the same expression, but the
   * generated step filters nothing out, while the intended one drops the
   * lines that mention `readonly`.
   */
  lemma DocumentedRuleStep(p: Rule)
    requires p.regex == DocumentedRule
    ensures GrepStepOf(p).negativeFilter.None?
    ensures IntendedGrepStepOf(p).negativeFilter == Some("readonly")
    ensures IntendedGrepStepOf(p).grepRegex == GrepStepOf(p).grepRegex == "public" + SpaceClass + "+static" + ".*="
  {
    AsWrittenMissesDocumentedRule();
    IntendedCatchesDocumentedRule();
    ConvertDocumentedRule();
  }

  /** `pattern.regex.replace(/'/g, "''")`. */
  function PowerShellEscape(regex: string): (r: string)
    ensures |r| == |regex| + Seqs.Count(regex, '\'')
  {
    JsText.Double(regex, '\'')
  }

  /** The escape can be undone: un-doubling gives back the rule text. */
  lemma PowerShellEscapeRoundTrip(regex: string)
    ensures JsText.Undouble(PowerShellEscape(regex), '\'') == regex
  {
    JsText.UndoubleDouble(regex, '\'');
  }

  function MatchStepOf(p: Rule): MatchStep {
    MatchStep(p.category, PowerShellEscape(p.regex), p.severity, p.remediation)
  }

  /** The Bash steps for one language: its rules, in catalog order. */
  function BashSteps(catalog: seq<Rule>, language: string): (r: seq<GrepStep>)
    ensures |r| == |RulesFor(catalog, language)|
    ensures forall k :: 0 <= k < |r| ==> r[k] == GrepStepOf(RulesFor(catalog, language)[k])
  {
    var rules := RulesFor(catalog, language);
    seq(|rules|, k requires 0 <= k < |rules| => GrepStepOf(rules[k]))
  }

  /** The PowerShell steps for one language: its rules, in catalog order. */
  function PowerShellSteps(catalog: seq<Rule>, language: string): (r: seq<MatchStep>)
    ensures |r| == |RulesFor(catalog, language)|
    ensures forall k :: 0 <= k < |r| ==> r[k] == MatchStepOf(RulesFor(catalog, language)[k])
  {
    var rules := RulesFor(catalog, language);
    seq(|rules|, k requires 0 <= k < |rules| => MatchStepOf(rules[k]))
  }

  /** Every PowerShell step matches with its rule's own text once the quoting is undone. */
  lemma PowerShellStepsRecover(catalog: seq<Rule>, language: string)
    ensures forall k :: 0 <= k < |PowerShellSteps(catalog, language)| ==>
      JsText.Undouble(PowerShellSteps(catalog, language)[k].psRegex, '\'') == RulesFor(catalog, language)[k].regex
  {
    var rules := RulesFor(catalog, language);
    forall k | 0 <= k < |rules|
      ensures JsText.Undouble(PowerShellSteps(catalog, language)[k].psRegex, '\'') == rules[k].regex
    {
      PowerShellEscapeRoundTrip(rules[k].regex);
    }
  }

  /** Appending to the catalog appends steps for the new rules after the old ones. */
  lemma BashStepsConcat(a: seq<Rule>, b: seq<Rule>, language: string)
    ensures BashSteps(a + b, language) == BashSteps(a, language) + BashSteps(b, language)
  {
    RulesForConcat(a, b, language);
    var ra, rb := RulesFor(a, language), RulesFor(b, language);
    var whole, parts := BashSteps(a + b, language), BashSteps(a, language) + BashSteps(b, language);
    assert |whole| == |parts|;
    forall k | 0 <= k < |whole| ensures whole[k] == parts[k] {
      Seqs.ConcatIndex(ra, rb, k);
      Seqs.ConcatIndex(BashSteps(a, language), BashSteps(b, language), k);
    }
  }

  /** A rule for any other language gets a step in neither the dotnet nor the java list. */
  lemma OtherLanguagesDropped(catalog: seq<Rule>, p: Rule)
    requires p.language != "dotnet" && p.language != "java"
    ensures p !in RulesFor(catalog, "dotnet") && p !in RulesFor(catalog, "java")
  {
  }
}
