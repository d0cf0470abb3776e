/**
 * The aggregation and scoring half of the engine (`AnalysisEngine` in
 * utils/analysis-engine.js): finding statistics, the complexity factor, the
 * category and effort lookup tables, the summary/detail report and the
 * action plan.
 *
 * Every fractional quantity is kept in integer tenths: a complexity factor of
 * 1.3 is `13`, an action weight of 2.5 is `25`, an effort score of 32.5 is
 * `325`. Base efforts are whole numbers, so `base * factor` is already in
 * tenths.
 */
module AnalysisEngine {
  import opened Records
  import Grouping
  import Seqs

  // ---------------------------------------------------------------- statistics

  /** `new Set(findings.map(f => f.filename))`. */
  function Filenames(fs: seq<Finding>): (r: set<string>)
    ensures forall i :: 0 <= i < |fs| ==> fs[i].filename in r
    ensures forall x :: x in r ==> exists i :: 0 <= i < |fs| && fs[i].filename == x
  {
    if fs == [] then {}
    else
      var pre := fs[..|fs| - 1];
      assert forall i :: 0 <= i < |pre| ==> pre[i] == fs[i];
      Filenames(pre) + {fs[|fs| - 1].filename}
  }

  /** There are never more distinct file names than findings, and none only when there are no findings. */
  lemma {:induction false} FilenamesCount(fs: seq<Finding>)
    ensures |Filenames(fs)| <= |fs|
    ensures (|Filenames(fs)| == 0) == (|fs| == 0)
  {
    if fs != [] {
      var pre := fs[..|fs| - 1];
      var x := fs[|fs| - 1].filename;
      FilenamesCount(pre);
      if x in Filenames(pre) {
        assert Filenames(fs) == Filenames(pre);
      } else {
        assert |Filenames(fs)| == |Filenames(pre)| + 1;
      }
    }
  }

  /** `findings.filter(f => f.severity === sev).length`. */
  function CountSeverity(fs: seq<Finding>, sev: string): (n: nat)
    ensures n <= |fs|
    ensures n == 0 <==> forall i :: 0 <= i < |fs| ==> fs[i].severity != sev
  {
    if fs == [] then 0
    else
      var pre := fs[..|fs| - 1];
      assert forall i :: 0 <= i < |pre| ==> pre[i] == fs[i];
      CountSeverity(pre, sev) + (if fs[|fs| - 1].severity == sev then 1 else 0)
  }

  /** Findings of three different severities never add up to more than all findings. */
  lemma {:induction false} SeverityCountsBound(fs: seq<Finding>)
    ensures CountSeverity(fs, "high") + CountSeverity(fs, "medium") + CountSeverity(fs, "low") <= |fs|
  {
    if fs != [] {
      SeverityCountsBound(fs[..|fs| - 1]);
    }
  }

  // --------------------------------------------------------- complexity factor

  /** `Math.max(n, 1)`. */
  function AtLeastOne(n: nat): (d: nat)
    ensures d >= 1 && d >= n && (n >= 1 ==> d == n)
  {
    if n > 1 then n else 1
  }

  /** The file-count step: one bucket only, every threshold strict. */
  function FileBonus(totalFiles: nat): (b: nat)
    ensures b == 5 <==> totalFiles > 100
    ensures b == 3 <==> 50 < totalFiles <= 100
    ensures b == 1 <==> 20 < totalFiles <= 50
    ensures b == 0 <==> totalFiles <= 20
  {
    if totalFiles > 100 then 5
    else if totalFiles > 50 then 3
    else if totalFiles > 20 then 1
    else 0
  }

  /**
   * The issue-density step. `issues / max(files, 1) > 10` is decided without
   * division, as `issues > 10 * max(files, 1)`, which is the same test for
   * whole numbers.
   */
  function DensityBonus(totalIssues: nat, totalFiles: nat): (b: nat)
    ensures b == 4 <==> totalIssues > 10 * AtLeastOne(totalFiles)
    ensures b == 2 <==> 5 * AtLeastOne(totalFiles) < totalIssues <= 10 * AtLeastOne(totalFiles)
    ensures b == 0 <==> totalIssues <= 5 * AtLeastOne(totalFiles)
  {
    var d := AtLeastOne(totalFiles);
    if totalIssues > 10 * d then 4
    else if totalIssues > 5 * d then 2
    else 0
  }

  /** The high-severity step: `high / max(issues, 1) > 0.5`, i.e. `2 * high > max(issues, 1)`. */
  function SeverityBonus(high: nat, totalIssues: nat): (b: nat)
    ensures b == 3 <==> 2 * high > AtLeastOne(totalIssues)
    ensures b == 0 <==> 2 * high <= AtLeastOne(totalIssues)
  {
    if 2 * high > AtLeastOne(totalIssues) then 3 else 0
  }

  /** The complexity factor, in tenths, from the statistics it is built from. */
  function FactorFromStats(totalFiles: nat, totalIssues: nat, high: nat, projectType: string): (r: nat)
    ensures 10 <= r <= 23
  {
    10 + FileBonus(totalFiles) + DensityBonus(totalIssues, totalFiles) + SeverityBonus(high, totalIssues)
      + (if projectType == "java" then 1 else 0)
  }

  /** `calculateComplexityFactor(findings, projectType)`, in tenths. */
  function ComplexityFactor(fs: seq<Finding>, projectType: string): (r: nat)
    ensures 10 <= r <= 23
  {
    FactorFromStats(|Filenames(fs)|, |fs|, CountSeverity(fs, "high"), projectType)
  }

  /**
   * The accumulator of the source, step by step; the distinct file names
   * and the high-severity findings are the set and the filter of the
   * source. The rounding `Math.round(x * 10) / 10` at the end is the
   * identity on whole tenths.
   */
  method CalculateComplexityFactor(findings: seq<Finding>, projectType: string) returns (factor: nat)
    ensures factor == ComplexityFactor(findings, projectType)
    ensures 10 <= factor <= 23
  {
    var totalFiles := |Filenames(findings)|;
    var totalIssues := |findings|;

    factor := 10;
    if totalFiles > 100 {
      factor := factor + 5;
    } else if totalFiles > 50 {
      factor := factor + 3;
    } else if totalFiles > 20 {
      factor := factor + 1;
    }
    assert factor == 10 + FileBonus(totalFiles);

    var filesDenominator := if totalFiles > 1 then totalFiles else 1;
    if totalIssues > 10 * filesDenominator {
      factor := factor + 4;
    } else if totalIssues > 5 * filesDenominator {
      factor := factor + 2;
    }
    assert factor == 10 + FileBonus(totalFiles) + DensityBonus(totalIssues, totalFiles);

    var high := CountSeverity(findings, "high");
    var issuesDenominator := if totalIssues > 1 then totalIssues else 1;
    if 2 * high > issuesDenominator {
      factor := factor + 3;
    }

    if projectType == "java" {
      factor := factor + 1;
    }
  }

  /** With no findings the factor is 1.0, or 1.1 for a Java project. */
  lemma FactorOfNoFindings(projectType: string)
    ensures ComplexityFactor([], projectType) == if projectType == "java" then 11 else 10
  {
    assert |Filenames([])| == 0;
  }

  /**
   * Only the project type distinguishes two finding lists with the same
   * statistics: one more Java point, never anything else.
   */
  lemma FactorJavaPoint(fs: seq<Finding>, projectType: string)
    requires projectType != "java"
    ensures ComplexityFactor(fs, "java") == ComplexityFactor(fs, projectType) + 1
  {
  }

  // ------------------------------------------------------------- lookup tables

  /** The categories the engine knows, with their pattern ids. */
  const CategoryPatternIds: map<string, string> := map[
    "Session State" := "1",
    "Static Mutable Field" := "7",
    "In-Process Cache" := "9",
    "Application State" := "3",
    "Thread-Local Storage" := "25",
    "Database Connection State" := "14",
    "Configuration State" := "17"]

  /** The pattern ids that have a base effort of their own. */
  const PatternBaseEfforts: map<string, nat> := map[
    "1" := 25, "2" := 19, "7" := 10, "9" := 18, "19" := 30, "23" := 7, "25" := 12, "28" := 20]

  /** `getPatternIdByCategory`: the table entry, or `'1'` for an unknown category. */
  function PatternIdByCategory(category: string): (id: string)
    ensures id in {"1", "7", "9", "3", "25", "14", "17"}
    ensures category !in CategoryPatternIds ==> id == "1"
    ensures category in CategoryPatternIds ==> id == CategoryPatternIds[category]
  {
    if category in CategoryPatternIds then CategoryPatternIds[category] else "1"
  }

  /** `getBaseEffortForPattern`: the table entry, or 15 for an unknown id. */
  function BaseEffortForPattern(patternId: string): (effort: nat)
    ensures 7 <= effort <= 30
    ensures patternId !in PatternBaseEfforts ==> effort == 15
    ensures patternId in PatternBaseEfforts ==> effort == PatternBaseEfforts[patternId]
  {
    if patternId in PatternBaseEfforts then PatternBaseEfforts[patternId] else 15
  }

  /** The base effort a finding of `category` is scored with. */
  function CategoryBaseEffort(category: string): (effort: nat)
    ensures effort in {25, 10, 18, 15, 12}
    ensures category !in CategoryPatternIds ==> effort == 25
  {
    BaseEffortForPattern(PatternIdByCategory(category))
  }

  /**
   * Three of the ids the category table hands out have no effort entry and
   * fall to the default of 15.
   */
  lemma UnscoredCategories()
    ensures CategoryBaseEffort("Application State") == 15
    ensures CategoryBaseEffort("Database Connection State") == 15
    ensures CategoryBaseEffort("Configuration State") == 15
    ensures forall c :: c in CategoryPatternIds && CategoryPatternIds[c] in PatternBaseEfforts ==>
      CategoryBaseEffort(c) != 15
  {
  }

  /** `Math.round(amount * factor * 10) / 10` in tenths: half-way cases round up. */
  function ScaleByFactor(amount: int, factor: nat): (r: int)
    ensures amount * factor - 5 < 10 * r <= amount * factor + 5
  {
    (amount * factor + 5) / 10
  }

  // ------------------------------------------------------------ summary report

  /** The summary key: `${category}-${severity}-${remediation}`. */
  function Key(f: Finding): string {
    f.category + "-" + f.severity + "-" + f.remediation
  }

  function Keys(fs: seq<Finding>): (r: seq<string>)
    ensures |r| == |fs|
    ensures forall i :: 0 <= i < |fs| ==> r[i] == Key(fs[i])
  {
    if fs == [] then [] else Keys(fs[..|fs| - 1]) + [Key(fs[|fs| - 1])]
  }

  lemma KeysSnoc(pre: seq<Finding>, f: Finding)
    ensures Keys(pre + [f]) == Keys(pre) + [Key(f)]
  {
    Seqs.SnocParts(pre, f);
  }

  /** One summary row; `effortScore` is in tenths. */
  datatype SummaryEntry = SummaryEntry(
    id: nat,
    category: string,
    severity: string,
    remediation: string,
    occurrences: nat,
    baseEffort: nat,
    effortScore: nat,
    detailIds: seq<nat>)

  /** The key the row was grouped under, rebuilt from the row's own fields. */
  function EntryKey(e: SummaryEntry): string {
    e.category + "-" + e.severity + "-" + e.remediation
  }

  /** The summary `Map` of the source: its keys in insertion order and its rows. */
  datatype SummaryTable = SummaryTable(order: seq<string>, entries: map<string, SummaryEntry>)

  /** A new row, before the finding that opened it is counted. */
  function Fresh(f: Finding, id: nat): SummaryEntry {
    var base := CategoryBaseEffort(f.category);
    SummaryEntry(id, f.category, f.severity, f.remediation, 0, base, 0, [])
  }

  /** Counting finding number `p` into row `e`. */
  function Bump(e: SummaryEntry, p: nat, factor: nat): SummaryEntry {
    e.(occurrences := e.occurrences + 1, detailIds := e.detailIds + [p], effortScore := e.baseEffort * factor)
  }

  /** Counting finding number `p` (1-based) into the table, as one `forEach` step does. */
  function Tally(t: SummaryTable, f: Finding, p: nat, factor: nat): SummaryTable {
    var key := Key(f);
    var withKey := if key in t.entries then t
      else SummaryTable(t.order + [key], t.entries[key := Fresh(f, |t.entries| + 1)]);
    SummaryTable(withKey.order, withKey.entries[key := Bump(withKey.entries[key], p, factor)])
  }

  /** The table after counting `fs` from the first finding on. */
  function TableOf(fs: seq<Finding>, factor: nat): SummaryTable {
    if fs == [] then SummaryTable([], map[])
    else Tally(TableOf(fs[..|fs| - 1], factor), fs[|fs| - 1], |fs|, factor)
  }

  /** `Array.from(map.values())`: the values in insertion order. */
  function ValuesInOrder<V>(order: seq<string>, entries: map<string, V>): (vs: seq<V>)
    requires forall k :: k in order ==> k in entries
    ensures |vs| == |order|
    ensures forall j :: 0 <= j < |order| ==> vs[j] == entries[order[j]]
  {
    seq(|order|, j requires 0 <= j < |order| => entries[order[j]])
  }

  /**
   * A well-formed table: the map holds exactly the keys of `order`, once
   * each, and the row under the key in place `j` is numbered `j + 1`.
   */
  ghost predicate WellFormed(t: SummaryTable) {
    && (forall k :: k in t.entries <==> k in t.order)
    && |t.entries| == |t.order|
    && (forall j :: 0 <= j < |t.order| ==> t.entries[t.order[j]].id == j + 1)
  }

  /** One step keeps the table well formed; only the finding's own key changes. */
  lemma TallyStep(t: SummaryTable, f: Finding, p: nat, factor: nat)
    requires WellFormed(t)
    ensures WellFormed(Tally(t, f, p, factor))
    ensures Tally(t, f, p, factor).order == if Key(f) in t.order then t.order else t.order + [Key(f)]
  {
    var key := Key(f);
    var t' := Tally(t, f, p, factor);
    if key !in t.entries {
      assert key !in t.order;
      forall j | 0 <= j < |t'.order| ensures t'.entries[t'.order[j]].id == j + 1 {
        if j < |t.order| {
          assert t'.order[j] == t.order[j];
        }
      }
    }
  }

  /** A step leaves every other row as it was. */
  lemma TallyOther(t: SummaryTable, f: Finding, p: nat, factor: nat, k: string)
    requires k != Key(f) && k in t.entries
    ensures k in Tally(t, f, p, factor).entries && Tally(t, f, p, factor).entries[k] == t.entries[k]
  {
  }

  /** The table's keys are the distinct keys of the findings, in first-occurrence order. */
  lemma {:induction false} TableShape(fs: seq<Finding>, factor: nat)
    ensures WellFormed(TableOf(fs, factor))
    ensures TableOf(fs, factor).order == Grouping.Order(Keys(fs))
  {
    if fs != [] {
      var pre, f := fs[..|fs| - 1], fs[|fs| - 1];
      TableShape(pre, factor);
      Seqs.LastSplit(fs);
      KeysSnoc(pre, f);
      Grouping.OrderSnoc(Keys(pre), Key(f));
      TallyStep(TableOf(pre, factor), f, |fs|, factor);
    }
  }

  /**
   * The row under key `k` lists the 1-based positions of the findings with
   * that key, and counts them.
   */
  lemma {:induction false} TableRowIds(fs: seq<Finding>, factor: nat, k: string)
    requires k in Keys(fs)
    ensures k in TableOf(fs, factor).entries
    ensures TableOf(fs, factor).entries[k].detailIds == Grouping.Positions(Keys(fs), k)
    ensures TableOf(fs, factor).entries[k].occurrences == |Grouping.Positions(Keys(fs), k)|
  {
    var pre, f := fs[..|fs| - 1], fs[|fs| - 1];
    Seqs.LastSplit(fs);
    KeysSnoc(pre, f);
    TableKeys(pre, factor, k);
    TableKeys(fs, factor, k);
    Grouping.PositionsSnoc(Keys(pre), Key(f), k);
    var t := TableOf(pre, factor);
    if k in Keys(pre) {
      TableRowIds(pre, factor, k);
      if k == Key(f) {
        TallySeen(t, f, |fs|, factor);
      } else {
        TallyOther(t, f, |fs|, factor, k);
      }
    } else {
      TallyNew(t, f, |fs|, factor);
    }
  }

  /**
   * The row under key `k` carries the category, severity and remediation of
   * the first finding with that key, and scores the category's base effort
   * by the factor.
   */
  lemma {:induction false} TableRowFirst(fs: seq<Finding>, factor: nat, k: string)
    requires k in Keys(fs)
    ensures k in TableOf(fs, factor).entries
    ensures RowFrom(TableOf(fs, factor).entries[k], FirstWith(fs, k), factor)
  {
    var pre, f := fs[..|fs| - 1], fs[|fs| - 1];
    Seqs.LastSplit(fs);
    KeysSnoc(pre, f);
    TableKeys(pre, factor, k);
    TableKeys(fs, factor, k);
    var t := TableOf(pre, factor);
    if k in Keys(pre) {
      TableRowFirst(pre, factor, k);
      FirstWithSnoc(pre, f, k);
      if k == Key(f) {
        TallySeen(t, f, |fs|, factor);
        RowFromBump(t.entries[k], FirstWith(pre, k), |fs|, factor);
      } else {
        TallyOther(t, f, |fs|, factor, k);
      }
    } else {
      FirstWithNew(pre, f);
      TallyNew(t, f, |fs|, factor);
      RowFromFresh(f, |t.entries| + 1, |fs|, factor);
    }
  }

  /** The first finding whose key is `k`: the one that opened its row. */
  function FirstWith(fs: seq<Finding>, k: string): Finding
    requires k in Keys(fs)
    decreases |fs|
  {
    var pre := fs[..|fs| - 1];
    if k in Keys(pre) then FirstWith(pre, k) else fs[|fs| - 1]
  }

  lemma FirstWithSnoc(pre: seq<Finding>, f: Finding, k: string)
    requires k in Keys(pre)
    ensures k in Keys(pre + [f]) && FirstWith(pre + [f], k) == FirstWith(pre, k)
  {
    KeysSnoc(pre, f);
    Seqs.SnocParts(pre, f);
  }

  /** The first finding with key `k` has that key. */
  lemma {:induction false} FirstWithKey(fs: seq<Finding>, k: string)
    requires k in Keys(fs)
    ensures Key(FirstWith(fs, k)) == k
    decreases |fs|
  {
    var pre := fs[..|fs| - 1];
    if k in Keys(pre) {
      FirstWithKey(pre, k);
    } else {
      var f := fs[|fs| - 1];
      Seqs.LastSplit(fs);
      KeysSnoc(pre, f);
      Seqs.InConcat(Keys(pre), [Key(f)], k);
    }
  }

  lemma FirstWithNew(pre: seq<Finding>, f: Finding)
    requires Key(f) !in Keys(pre)
    ensures Key(f) in Keys(pre + [f]) && FirstWith(pre + [f], Key(f)) == f
  {
    KeysSnoc(pre, f);
    Seqs.SnocParts(pre, f);
  }

  /** The table's map holds exactly the keys of the findings. */
  lemma TableKeys(fs: seq<Finding>, factor: nat, k: string)
    ensures k in TableOf(fs, factor).entries <==> k in Keys(fs)
  {
    TableShape(fs, factor);
  }

  lemma TallySeen(t: SummaryTable, f: Finding, p: nat, factor: nat)
    requires Key(f) in t.entries
    ensures Key(f) in Tally(t, f, p, factor).entries
    ensures Tally(t, f, p, factor).entries[Key(f)] == Bump(t.entries[Key(f)], p, factor)
  {
  }

  lemma TallyNew(t: SummaryTable, f: Finding, p: nat, factor: nat)
    requires Key(f) !in t.entries
    ensures Key(f) in Tally(t, f, p, factor).entries
    ensures Tally(t, f, p, factor).entries[Key(f)] == Bump(Fresh(f, |t.entries| + 1), p, factor)
  {
  }

  lemma RowFromBump(e: SummaryEntry, first: Finding, p: nat, factor: nat)
    requires RowFrom(e, first, factor)
    ensures RowFrom(Bump(e, p, factor), first, factor)
  {
  }

  lemma RowFromFresh(f: Finding, id: nat, p: nat, factor: nat)
    ensures RowFrom(Bump(Fresh(f, id), p, factor), f, factor)
  {
  }

  /** Row `e` was opened by finding `first` and scored with `factor`. */
  predicate RowFrom(e: SummaryEntry, first: Finding, factor: nat) {
    && e.category == first.category
    && e.severity == first.severity
    && e.remediation == first.remediation
    && e.baseEffort == CategoryBaseEffort(first.category)
    && e.effortScore == e.baseEffort * factor
  }

  /** The summary: the rows of the table in insertion order. */
  function SummaryOf(fs: seq<Finding>, factor: nat): (s: seq<SummaryEntry>)
    ensures |s| == |Grouping.Order(Keys(fs))| <= |fs|
  {
    TableShape(fs, factor);
    OrderNoLonger(Keys(fs));
    ValuesInOrder(TableOf(fs, factor).order, TableOf(fs, factor).entries)
  }

  lemma OrderNoLonger(keys: seq<string>)
    ensures |Grouping.Order(keys)| <= |keys|
  {
    Grouping.GroupSizesSum(keys);
    SumCountsAtLeast(keys, Grouping.Order(keys));
  }

  /** Every key of `ks` that occurs adds at least one to the count sum. */
  lemma {:induction false} SumCountsAtLeast(keys: seq<string>, ks: seq<string>)
    requires forall k :: k in ks ==> k in keys
    ensures Grouping.SumCounts(keys, ks) >= |ks|
  {
    if ks != [] {
      SumCountsAtLeast(keys, ks[..|ks| - 1]);
    }
  }

  /**
   * Row `j` of the summary: numbered `j + 1`, it belongs to the `j`-th
   * distinct key in first-occurrence order, lists the findings with that
   * key in ascending order and counts them, and was opened by the first of
   * them.
   */
  lemma SummaryRow(fs: seq<Finding>, factor: nat, j: nat)
    requires j < |SummaryOf(fs, factor)|
    ensures Grouping.Order(Keys(fs))[j] in Keys(fs)
    ensures var e, k := SummaryOf(fs, factor)[j], Grouping.Order(Keys(fs))[j];
      && e.id == j + 1
      && EntryKey(e) == k
      && e.detailIds == Grouping.Positions(Keys(fs), k)
      && Grouping.Increasing(e.detailIds)
      && e.occurrences == |e.detailIds|
      && RowFrom(e, FirstWith(fs, k), factor)
  {
    var keys := Keys(fs);
    var k := Grouping.Order(keys)[j];
    var e := SummaryOf(fs, factor)[j];
    assert k in keys && e == TableOf(fs, factor).entries[k] && e.id == j + 1 by {
      TableShape(fs, factor);
    }
    TableRowIds(fs, factor, k);
    TableRowFirst(fs, factor, k);
    FirstWithKey(fs, k);
    Grouping.PositionsIncreasing(keys, k);
  }

  /** Every finding is listed in exactly one row: the row of its own key. */
  lemma SummaryPartition(fs: seq<Finding>, factor: nat, i: nat, j: nat)
    requires i < |fs| && j < |SummaryOf(fs, factor)|
    ensures i + 1 in SummaryOf(fs, factor)[j].detailIds <==> Key(fs[i]) == EntryKey(SummaryOf(fs, factor)[j])
  {
    SummaryRow(fs, factor, j);
    Grouping.PositionsMember(Keys(fs), Grouping.Order(Keys(fs))[j], i);
  }

  /** No two rows share a key. */
  lemma SummaryKeysDistinct(fs: seq<Finding>, factor: nat, j1: nat, j2: nat)
    requires j1 < j2 < |SummaryOf(fs, factor)|
    ensures EntryKey(SummaryOf(fs, factor)[j1]) != EntryKey(SummaryOf(fs, factor)[j2])
  {
    SummaryRow(fs, factor, j1);
    SummaryRow(fs, factor, j2);
  }

  /** Rows come in the order in which their first findings appear. */
  lemma SummaryFirstOccurrence(fs: seq<Finding>, factor: nat, j1: nat, j2: nat)
    requires j1 < j2 < |SummaryOf(fs, factor)|
    ensures |SummaryOf(fs, factor)[j1].detailIds| > 0 && |SummaryOf(fs, factor)[j2].detailIds| > 0
    ensures SummaryOf(fs, factor)[j1].detailIds[0] < SummaryOf(fs, factor)[j2].detailIds[0]
  {
    SummaryRow(fs, factor, j1);
    SummaryRow(fs, factor, j2);
    Grouping.FirstOccurrenceOrder(Keys(fs));
  }

  /** The row counts add up to the number of findings. */
  lemma SummaryCountsEveryFinding(fs: seq<Finding>, factor: nat)
    ensures SumOccurrences(SummaryOf(fs, factor)) == |fs|
  {
    var s := SummaryOf(fs, factor);
    OccurrencesPrefix(fs, factor, |s|);
    Seqs.TakeAll(s);
    Seqs.TakeAll(Grouping.Order(Keys(fs)));
    Grouping.GroupSizesSum(Keys(fs));
  }

  lemma OccurrencesPrefix(fs: seq<Finding>, factor: nat, n: nat)
    requires n <= |SummaryOf(fs, factor)|
    ensures SumOccurrences(SummaryOf(fs, factor)[..n]) == Grouping.SumCounts(Keys(fs), Grouping.Order(Keys(fs))[..n])
  {
    var s, keys := SummaryOf(fs, factor), Keys(fs);
    var o := Grouping.Order(keys);
    forall j | 0 <= j < |s| ensures s[j].occurrences == |Grouping.Positions(keys, o[j])| {
      SummaryRow(fs, factor, j);
    }
    SumsAgree(s, keys, o, n);
  }

  /** Rows whose occurrence counts are the group sizes add up like the groups do. */
  lemma {:induction false} SumsAgree(s: seq<SummaryEntry>, keys: seq<string>, o: seq<string>, n: nat)
    requires |s| == |o| && n <= |s|
    requires forall j :: 0 <= j < |s| ==> s[j].occurrences == |Grouping.Positions(keys, o[j])|
    ensures SumOccurrences(s[..n]) == Grouping.SumCounts(keys, o[..n])
  {
    if n > 0 {
      SumsAgree(s, keys, o, n - 1);
      Seqs.PrefixOfPrefix(s, n);
      Seqs.PrefixOfPrefix(o, n);
    }
  }

  /**
   * Two findings whose keys are equal share one row, opened by the first of
   * them, whatever else they differ in.
   */
  lemma SameKeyOneRow(a: Finding, b: Finding, factor: nat)
    requires Key(a) == Key(b)
    ensures |SummaryOf([a, b], factor)| == 1
    ensures SummaryOf([a, b], factor)[0].detailIds == [1, 2]
    ensures SummaryOf([a, b], factor)[0].category == a.category
  {
    KeysPair(a, b);
    Grouping.Twice(Key(a));
    SummaryRow([a, b], factor, 0);
    FirstOfPair(a, b);
  }

  lemma KeysPair(a: Finding, b: Finding)
    ensures Keys([a, b]) == [Key(a), Key(b)]
  {
    assert [a, b][..1] == [a];
  }

  lemma FirstOfPair(a: Finding, b: Finding)
    requires Key(a) == Key(b)
    ensures Key(a) in Keys([a, b]) && FirstWith([a, b], Key(a)) == a
  {
    assert Keys([]) == [];
    assert [] + [a] == [a] && [a] + [b] == [a, b];
    FirstWithNew([], a);
    FirstWithSnoc([a], b, Key(a));
  }

  /**
   * The key is plain concatenation, so a category or severity that itself
   * contains `-` can make two different findings collide.
   */
  lemma KeyCollision()
    ensures Key(Finding("A.cs", "Run", 1, "x", "a-b", "c", "d")) == Key(Finding("B.cs", "Stop", 2, "y", "a", "b-c", "d"))
  {
  }

  /** One row of the per-finding list `detailed`. */
  datatype DetailedFinding = DetailedFinding(
    id: nat,
    filename: string,
    functionName: string,
    lineNum: nat,
    code: string,
    category: string,
    severity: string,
    remediation: string)

  function Detailed(fs: seq<Finding>): (d: seq<DetailedFinding>)
    ensures |d| == |fs|
  {
    seq(|fs|, i requires 0 <= i < |fs| =>
      DetailedFinding(i + 1, fs[i].filename, fs[i].functionName, fs[i].lineNum, fs[i].code,
        fs[i].category, fs[i].severity, fs[i].remediation))
  }

  /** Dropping the id from a detailed row. */
  function Undetailed(d: DetailedFinding): Finding {
    Finding(d.filename, d.functionName, d.lineNum, d.code, d.category, d.severity, d.remediation)
  }

  /** `detailed` numbers the findings from 1 and copies each one unchanged. */
  lemma DetailedCopies(fs: seq<Finding>)
    ensures forall i :: 0 <= i < |fs| ==> Detailed(fs)[i].id == i + 1 && Undetailed(Detailed(fs)[i]) == fs[i]
  {
  }

  /** Scores are in tenths; `complexityFactor` as passed in. */
  datatype Stats = Stats(
    totalFiles: nat,
    totalIssues: nat,
    highSeverity: nat,
    mediumSeverity: nat,
    lowSeverity: nat,
    complexityFactor: nat,
    totalEffortScore: nat)

  function TotalEffortScore(s: seq<SummaryEntry>): nat {
    if s == [] then 0 else TotalEffortScore(s[..|s| - 1]) + s[|s| - 1].effortScore
  }

  function SumOccurrences(s: seq<SummaryEntry>): nat {
    if s == [] then 0 else SumOccurrences(s[..|s| - 1]) + s[|s| - 1].occurrences
  }

  function StatsOf(fs: seq<Finding>, factor: nat): (st: Stats)
    ensures st.totalIssues == |fs|
    ensures st.totalFiles <= st.totalIssues && (st.totalFiles == 0 <==> st.totalIssues == 0)
    ensures st.highSeverity + st.mediumSeverity + st.lowSeverity <= st.totalIssues
  {
    SeverityCountsBound(fs);
    FilenamesCount(fs);
    Stats(|Filenames(fs)|, |fs|, CountSeverity(fs, "high"), CountSeverity(fs, "medium"),
      CountSeverity(fs, "low"), factor, TotalEffortScore(SummaryOf(fs, factor)))
  }

  /**
   * `generateSummaryAndDetails`: the summary map is filled finding by
   * finding; `detailed` and `stats` are plain reductions of the list.
   */
  method GenerateSummaryAndDetails(findings: seq<Finding>, factor: nat)
    returns (summary: seq<SummaryEntry>, detailed: seq<DetailedFinding>, stats: Stats)
    ensures summary == SummaryOf(findings, factor)
    ensures detailed == Detailed(findings)
    ensures stats == StatsOf(findings, factor)
  {
    var order: seq<string> := [];
    var entries: map<string, SummaryEntry> := map[];
    var i := 0;
    while i < |findings|
      invariant 0 <= i <= |findings|
      invariant SummaryTable(order, entries) == TableOf(findings[..i], factor)
    {
      var f := findings[i];
      var key := Key(f);
      ghost var before := SummaryTable(order, entries);
      if key !in entries {
        entries := entries[key := Fresh(f, |entries| + 1)];
        order := order + [key];
      }
      entries := entries[key := Bump(entries[key], i + 1, factor)];
      assert SummaryTable(order, entries) == Tally(before, f, i + 1, factor);
      assert TableOf(findings[..i + 1], factor) == Tally(TableOf(findings[..i], factor), f, i + 1, factor) by {
        Seqs.TakeSnoc(findings, i);
      }
      i := i + 1;
    }
    Seqs.TakeAll(findings);
    TableShape(findings, factor);
    summary := ValuesInOrder(order, entries);
    detailed := Detailed(findings);
    stats := StatsOf(findings, factor);
  }
}
