/**
 * The action plan of `generateActionReport` (utils/analysis-engine.js): every
 * finding is mapped to a pattern id, the catalog entry for that id lists
 * remediation actions, and one record per action id accumulates the findings
 * that called for it. The catalog is passed in as data.
 *
 * Weights and efforts are integer tenths, like the complexity factor.
 */
module ActionPlan {
  import opened Wrappers
  import opened Records
  import Grouping
  import Seqs
  import AnalysisEngine

  /** One remediation action of the catalog; `weight` in tenths. */
  datatype Action = Action(
    id: string,
    description: string,
    actionCategory: string,
    impactType: string,
    impactSeverity: string,
    weight: int,
    subActions: Option<seq<string>>)

  /** The catalog: pattern id to the actions of its entry. */
  type Catalog = map<string, seq<Action>>

  /** Where a finding that called for an action was found. */
  datatype AffectedFinding = AffectedFinding(filename: string, functionName: string, lineNum: nat)

  /** The accumulated record of one action id; weights in tenths. */
  datatype ActionRecord = ActionRecord(
    id: string,
    description: string,
    category: string,
    impactType: string,
    impactSeverity: string,
    baseWeight: int,
    adjustedWeight: int,
    occurrences: nat,
    subActions: seq<string>,
    affectedFindings: seq<AffectedFinding>)

  /** A record of the report: the accumulated record with its final effort. */
  datatype ReportEntry = ReportEntry(record: ActionRecord, finalEffort: int, totalOccurrences: nat)

  /** The `actionMap` of the source: its keys in insertion order and its records. */
  datatype ActionTable = ActionTable(order: seq<string>, records: map<string, ActionRecord>)

  /** One action called for by one finding: the unit the inner loop handles. */
  datatype Visit = Visit(action: Action, finding: Finding)

  const OneTime := "One-time"

  function Affected(f: Finding): AffectedFinding {
    AffectedFinding(f.filename, f.functionName, f.lineNum)
  }

  /** The actions a finding calls for: its category's catalog entry, or none. */
  function ActionsFor(f: Finding, catalog: Catalog): (r: seq<Action>)
    ensures AnalysisEngine.PatternIdByCategory(f.category) !in catalog ==> r == []
  {
    var patternId := AnalysisEngine.PatternIdByCategory(f.category);
    if patternId in catalog then catalog[patternId] else []
  }

  function VisitsOf(f: Finding, catalog: Catalog): (r: seq<Visit>)
    ensures |r| == |ActionsFor(f, catalog)|
    ensures forall j :: 0 <= j < |r| ==> r[j] == Visit(ActionsFor(f, catalog)[j], f)
  {
    var actions := ActionsFor(f, catalog);
    seq(|actions|, j requires 0 <= j < |actions| => Visit(actions[j], f))
  }

  /** Every visit the two nested loops make, in order. */
  function Visits(fs: seq<Finding>, catalog: Catalog): seq<Visit> {
    if fs == [] then [] else Visits(fs[..|fs| - 1], catalog) + VisitsOf(fs[|fs| - 1], catalog)
  }

  /** The record an action id gets when it is first seen: no occurrence, no finding yet. */
  function Opened(a: Action, factor: nat): ActionRecord {
    ActionRecord(a.id, a.description, a.actionCategory, a.impactType, a.impactSeverity, a.weight,
      AnalysisEngine.ScaleByFactor(a.weight, factor), 0,
      if a.subActions.Some? then a.subActions.value else [], [])
  }

  /**
   * Counting one visit into a record: the occurrence count grows unless the
   * visited action is one-time, the finding is always listed.
   */
  function Count(r: ActionRecord, v: Visit): ActionRecord {
    r.(occurrences := if v.action.impactType == OneTime then r.occurrences else r.occurrences + 1,
      affectedFindings := r.affectedFindings + [Affected(v.finding)])
  }

  /** One step of the inner loop. */
  function Step(t: ActionTable, v: Visit, factor: nat): ActionTable {
    var id := v.action.id;
    var withId := if id in t.records then t
      else ActionTable(t.order + [id], t.records[id := Opened(v.action, factor)]);
    ActionTable(withId.order, withId.records[id := Count(withId.records[id], v)])
  }

  /** The table after the visits `vs`, from the first on. */
  function Fold(vs: seq<Visit>, factor: nat): ActionTable {
    if vs == [] then ActionTable([], map[])
    else Step(Fold(vs[..|vs| - 1], factor), vs[|vs| - 1], factor)
  }

  ghost predicate WellFormed(t: ActionTable) {
    && (forall a :: a in t.records <==> a in t.order)
    && |t.records| == |t.order|
  }

  /** The final effort: one-time records count once, the others once per occurrence. */
  function Finalize(r: ActionRecord): (e: ReportEntry)
    ensures e.record == r
    ensures r.impactType == OneTime ==> e.finalEffort == r.adjustedWeight && e.totalOccurrences == 1
    ensures r.impactType != OneTime ==>
      e.finalEffort == r.adjustedWeight * r.occurrences && e.totalOccurrences == r.occurrences
  {
    if r.impactType == OneTime then ReportEntry(r, r.adjustedWeight, 1)
    else ReportEntry(r, r.adjustedWeight * r.occurrences, r.occurrences)
  }

  /** The report: the records in insertion order, each with its final effort. */
  function ReportOf(fs: seq<Finding>, catalog: Catalog, factor: nat): (report: seq<ReportEntry>)
    ensures |report| == |Fold(Visits(fs, catalog), factor).order| == |Grouping.Order(Ids(Visits(fs, catalog)))|
  {
    var t := Fold(Visits(fs, catalog), factor);
    FoldShape(Visits(fs, catalog), factor);
    Finalized(AnalysisEngine.ValuesInOrder(t.order, t.records))
  }

  /** Each record with its final effort, in the same order. */
  function Finalized(records: seq<ActionRecord>): (report: seq<ReportEntry>)
    ensures |report| == |records| && forall j :: 0 <= j < |records| ==> report[j] == Finalize(records[j])
  {
    seq(|records|, j requires 0 <= j < |records| => Finalize(records[j]))
  }

  /** The sum of the final efforts, the `totalEffort` of the saved report. */
  function TotalEffort(report: seq<ReportEntry>): int {
    if report == [] then 0 else TotalEffort(report[..|report| - 1]) + report[|report| - 1].finalEffort
  }

  // ------------------------------------------------ what the spec functions say

  /** The action ids of the visits. */
  function Ids(vs: seq<Visit>): (r: seq<string>)
    ensures |r| == |vs|
    ensures forall i :: 0 <= i < |vs| ==> r[i] == vs[i].action.id
  {
    if vs == [] then [] else Ids(vs[..|vs| - 1]) + [vs[|vs| - 1].action.id]
  }

  /** The findings of the visits to action id `a`, in visiting order. */
  function AffectedBy(vs: seq<Visit>, a: string): seq<AffectedFinding> {
    if vs == [] then []
    else AffectedBy(vs[..|vs| - 1], a) + (if vs[|vs| - 1].action.id == a then [Affected(vs[|vs| - 1].finding)] else [])
  }

  /** How many visits to action id `a` were of an action that is not one-time. */
  function Recurring(vs: seq<Visit>, a: string): (n: nat)
    ensures n <= |AffectedBy(vs, a)|
  {
    if vs == [] then 0
    else
      var v := vs[|vs| - 1];
      Recurring(vs[..|vs| - 1], a) + (if v.action.id == a && v.action.impactType != OneTime then 1 else 0)
  }

  /** The action of the first visit to action id `a`. */
  function FirstAction(vs: seq<Visit>, a: string): (act: Action)
    requires a in Ids(vs)
    ensures act in ActionsOfVisits(vs) && act.id == a
  {
    var pre := vs[..|vs| - 1];
    if a in Ids(pre) then FirstAction(pre, a) else vs[|vs| - 1].action
  }

  function ActionsOfVisits(vs: seq<Visit>): set<Action> {
    set i | 0 <= i < |vs| :: vs[i].action
  }

  /** The final effort action id `a` earns: its first action's scaled weight, once for a one-time
      action and once per recurring visit otherwise. */
  function EffortOf(vs: seq<Visit>, a: string, factor: nat): int
    requires a in Ids(vs)
  {
    var act := FirstAction(vs, a);
    var w := AnalysisEngine.ScaleByFactor(act.weight, factor);
    if act.impactType == OneTime then w else w * Recurring(vs, a)
  }

  /** The final efforts of the action ids `ids`, summed. */
  function SumEfforts(vs: seq<Visit>, ids: seq<string>, factor: nat): int
    requires forall a :: a in ids ==> a in Ids(vs)
  {
    if ids == [] then 0 else SumEfforts(vs, ids[..|ids| - 1], factor) + EffortOf(vs, ids[|ids| - 1], factor)
  }

  lemma FoldSnoc(vs: seq<Visit>, v: Visit, factor: nat)
    ensures Fold(vs + [v], factor) == Step(Fold(vs, factor), v, factor)
  {
    Seqs.SnocParts(vs, v);
  }

  lemma IdsSnoc(vs: seq<Visit>, v: Visit)
    ensures Ids(vs + [v]) == Ids(vs) + [v.action.id]
  {
    Seqs.SnocParts(vs, v);
  }

  /** A step keeps the table well formed and appends a new id to the order. */
  lemma StepShape(t: ActionTable, v: Visit, factor: nat)
    requires WellFormed(t)
    ensures WellFormed(Step(t, v, factor))
    ensures Step(t, v, factor).order == if v.action.id in t.order then t.order else t.order + [v.action.id]
  {
    if v.action.id !in t.records {
      assert v.action.id !in t.order;
    }
  }

  /** The ids of the table are the distinct ids of the visits, in first-visit order. */
  lemma {:induction false} FoldShape(vs: seq<Visit>, factor: nat)
    ensures WellFormed(Fold(vs, factor))
    ensures Fold(vs, factor).order == Grouping.Order(Ids(vs))
  {
    if vs != [] {
      var pre, v := vs[..|vs| - 1], vs[|vs| - 1];
      FoldShape(pre, factor);
      Seqs.LastSplit(vs);
      IdsSnoc(pre, v);
      Grouping.OrderSnoc(Ids(pre), v.action.id);
      StepShape(Fold(pre, factor), v, factor);
    }
  }

  lemma FoldIds(vs: seq<Visit>, factor: nat, a: string)
    ensures a in Fold(vs, factor).records <==> a in Ids(vs)
  {
    FoldShape(vs, factor);
  }

  lemma StepSeen(t: ActionTable, v: Visit, factor: nat)
    requires v.action.id in t.records
    ensures v.action.id in Step(t, v, factor).records
    ensures Step(t, v, factor).records[v.action.id] == Count(t.records[v.action.id], v)
  {
  }

  lemma StepNew(t: ActionTable, v: Visit, factor: nat)
    requires v.action.id !in t.records
    ensures v.action.id in Step(t, v, factor).records
    ensures Step(t, v, factor).records[v.action.id] == Count(Opened(v.action, factor), v)
  {
  }

  lemma StepOther(t: ActionTable, v: Visit, factor: nat, a: string)
    requires a != v.action.id && a in t.records
    ensures a in Step(t, v, factor).records && Step(t, v, factor).records[a] == t.records[a]
  {
  }

  /**
   * The record of action id `a` lists every finding that visited it, and
   * counts the visits of actions that are not one-time.
   */
  lemma {:induction false} RecordCounts(vs: seq<Visit>, factor: nat, a: string)
    requires a in Ids(vs)
    ensures a in Fold(vs, factor).records
    ensures Fold(vs, factor).records[a].affectedFindings == AffectedBy(vs, a)
    ensures Fold(vs, factor).records[a].occurrences == Recurring(vs, a)
  {
    var pre, v := vs[..|vs| - 1], vs[|vs| - 1];
    Seqs.LastSplit(vs);
    IdsSnoc(pre, v);
    FoldIds(pre, factor, a);
    FoldIds(vs, factor, a);
    var t := Fold(pre, factor);
    if a in Ids(pre) {
      RecordCounts(pre, factor, a);
      if a == v.action.id {
        StepSeen(t, v, factor);
      } else {
        StepOther(t, v, factor, a);
      }
    } else {
      StepNew(t, v, factor);
      NoneBefore(pre, a);
    }
  }

  /** An id that was never visited has no findings and no occurrences. */
  lemma {:induction false} NoneBefore(vs: seq<Visit>, a: string)
    requires a !in Ids(vs)
    ensures AffectedBy(vs, a) == [] && Recurring(vs, a) == 0
  {
    if vs != [] {
      var pre, v := vs[..|vs| - 1], vs[|vs| - 1];
      Seqs.LastSplit(vs);
      IdsSnoc(pre, v);
      NoneBefore(pre, a);
    }
  }

  /** Record `r` was opened from action `act`, with its weight scaled by `factor`. */
  predicate OpenedFrom(r: ActionRecord, act: Action, factor: nat) {
    && r.id == act.id
    && r.description == act.description
    && r.category == act.actionCategory
    && r.impactType == act.impactType
    && r.impactSeverity == act.impactSeverity
    && r.baseWeight == act.weight
    && r.adjustedWeight == AnalysisEngine.ScaleByFactor(act.weight, factor)
    && r.subActions == (if act.subActions.Some? then act.subActions.value else [])
  }

  /** The record of action id `a` keeps the fields of the first action visited under that id. */
  lemma {:induction false} RecordFirst(vs: seq<Visit>, factor: nat, a: string)
    requires a in Ids(vs)
    ensures a in Fold(vs, factor).records
    ensures OpenedFrom(Fold(vs, factor).records[a], FirstAction(vs, a), factor)
  {
    var pre, v := vs[..|vs| - 1], vs[|vs| - 1];
    Seqs.LastSplit(vs);
    IdsSnoc(pre, v);
    FoldIds(pre, factor, a);
    FoldIds(vs, factor, a);
    var t := Fold(pre, factor);
    if a in Ids(pre) {
      RecordFirst(pre, factor, a);
      if a == v.action.id {
        StepSeen(t, v, factor);
      } else {
        StepOther(t, v, factor, a);
      }
    } else {
      StepNew(t, v, factor);
    }
  }

  /**
   * Record `j` of the report: it belongs to the `j`-th distinct action id in
   * first-visit order, carries the first visited action's fields, lists every
   * finding that called for it, and its final effort is the adjusted weight
   * once for a one-time action and once per counted occurrence otherwise.
   */
  lemma ReportRow(fs: seq<Finding>, catalog: Catalog, factor: nat, j: nat)
    requires j < |ReportOf(fs, catalog, factor)|
    ensures Grouping.Order(Ids(Visits(fs, catalog)))[j] in Ids(Visits(fs, catalog))
    ensures var vs := Visits(fs, catalog);
      var a := Grouping.Order(Ids(vs))[j];
      var e := ReportOf(fs, catalog, factor)[j];
      && OpenedFrom(e.record, FirstAction(vs, a), factor)
      && e.record.affectedFindings == AffectedBy(vs, a)
      && e.record.occurrences == Recurring(vs, a)
      && (e.record.impactType == OneTime ==> e.finalEffort == e.record.adjustedWeight && e.totalOccurrences == 1)
      && (e.record.impactType != OneTime ==>
            e.finalEffort == e.record.adjustedWeight * Recurring(vs, a) && e.totalOccurrences == Recurring(vs, a))
  {
    var vs := Visits(fs, catalog);
    var a := Grouping.Order(Ids(vs))[j];
    ReportEntryAt(fs, catalog, factor, j);
    RecordCounts(vs, factor, a);
    RecordFirst(vs, factor, a);
  }

  /** Row `j` of the report is the finalized record of the `j`-th action id. */
  /** The report's `totalEffort` is the sum, over the distinct action ids in first-visit order,
      of the effort each id earns from its first action and its recurring visits. */
  lemma ReportTotalEffort(fs: seq<Finding>, catalog: Catalog, factor: nat)
    ensures var vs := Visits(fs, catalog);
      TotalEffort(ReportOf(fs, catalog, factor)) == SumEfforts(vs, Grouping.Order(Ids(vs)), factor)
  {
    var vs := Visits(fs, catalog);
    var report := ReportOf(fs, catalog, factor);
    var o := Grouping.Order(Ids(vs));
    forall j | 0 <= j < |report| ensures report[j].finalEffort == EffortOf(vs, o[j], factor) {
      EntryEffort(fs, catalog, factor, j);
    }
    TotalEffortPrefix(vs, report, o, factor, |report|);
    assert report[..|report|] == report;
    assert o[..|o|] == o;
  }

  /** Summing entry by entry: a report whose entries earn what their ids earn totals their sum. */
  lemma {:induction false} TotalEffortPrefix(vs: seq<Visit>, report: seq<ReportEntry>, o: seq<string>, factor: nat, n: nat)
    requires |report| == |o| && n <= |o|
    requires forall a :: a in o ==> a in Ids(vs)
    requires forall j :: 0 <= j < |o| ==> report[j].finalEffort == EffortOf(vs, o[j], factor)
    ensures TotalEffort(report[..n]) == SumEfforts(vs, o[..n], factor)
  {
    if n > 0 {
      TotalEffortPrefix(vs, report, o, factor, n - 1);
      assert report[..n][..n - 1] == report[..n - 1];
      assert o[..n][..n - 1] == o[..n - 1];
    }
  }

  /** The final effort of report entry j is what its action id earns. */
  lemma EntryEffort(fs: seq<Finding>, catalog: Catalog, factor: nat, j: nat)
    requires j < |ReportOf(fs, catalog, factor)|
    ensures var vs := Visits(fs, catalog);
      var o := Grouping.Order(Ids(vs));
      o[j] in Ids(vs) && ReportOf(fs, catalog, factor)[j].finalEffort == EffortOf(vs, o[j], factor)
  {
    ReportRow(fs, catalog, factor, j);
  }

  lemma ReportEntryAt(fs: seq<Finding>, catalog: Catalog, factor: nat, j: nat)
    requires j < |ReportOf(fs, catalog, factor)|
    ensures var vs := Visits(fs, catalog);
      var a := Grouping.Order(Ids(vs))[j];
      && a in Ids(vs) && a in Fold(vs, factor).records
      && ReportOf(fs, catalog, factor)[j] == Finalize(Fold(vs, factor).records[a])
  {
    FoldShape(Visits(fs, catalog), factor);
  }

  /** All visits to `a` are of one-time actions: the record never counts an occurrence. */
  lemma {:induction false} OneTimeNeverCounted(vs: seq<Visit>, a: string)
    requires forall i :: 0 <= i < |vs| && vs[i].action.id == a ==> vs[i].action.impactType == OneTime
    ensures Recurring(vs, a) == 0
  {
    if vs != [] {
      Seqs.LastSplit(vs);
      OneTimeNeverCounted(vs[..|vs| - 1], a);
    }
  }

  /** No visit to `a` is of a one-time action: every visit is an occurrence. */
  lemma {:induction false} RecurringCountsAll(vs: seq<Visit>, a: string)
    requires forall i :: 0 <= i < |vs| && vs[i].action.id == a ==> vs[i].action.impactType != OneTime
    ensures Recurring(vs, a) == |AffectedBy(vs, a)|
  {
    if vs != [] {
      Seqs.LastSplit(vs);
      RecurringCountsAll(vs[..|vs| - 1], a);
    }
  }

  /** Each visit to `a` lists its finding once: as many findings as visits. */
  lemma {:induction false} AffectedPerVisit(vs: seq<Visit>, a: string)
    ensures |AffectedBy(vs, a)| == Seqs.Count(Ids(vs), a)
  {
    if vs != [] {
      var pre, v := vs[..|vs| - 1], vs[|vs| - 1];
      Seqs.LastSplit(vs);
      IdsSnoc(pre, v);
      AffectedPerVisit(pre, a);
      Seqs.CountConcat(Ids(pre), [v.action.id], a);
    }
  }

  /** A finding whose pattern id has no catalog entry leaves the report as it was. */
  lemma UnmappedFindingAddsNothing(fs: seq<Finding>, f: Finding, catalog: Catalog, factor: nat)
    requires AnalysisEngine.PatternIdByCategory(f.category) !in catalog
    ensures ReportOf(fs + [f], catalog, factor) == ReportOf(fs, catalog, factor)
  {
    Seqs.SnocParts(fs, f);
    assert Visits(fs + [f], catalog) == Visits(fs, catalog) + [];
    assert Visits(fs, catalog) + [] == Visits(fs, catalog);
  }

  lemma VisitsSnoc(fs: seq<Finding>, i: nat, catalog: Catalog)
    requires i < |fs|
    ensures Visits(fs[..i + 1], catalog) == Visits(fs[..i], catalog) + VisitsOf(fs[i], catalog)
  {
    assert fs[..i + 1][..i] == fs[..i];
  }

  /** One more visit of the inner loop is one more `Step` of the fold. */
  lemma StepAt(done: seq<Visit>, vs: seq<Visit>, j: nat, t: ActionTable, factor: nat)
    requires j < |vs| && t == Fold(done + vs[..j], factor)
    ensures Fold(done + vs[..j + 1], factor) == Step(t, vs[j], factor)
  {
    assert done + vs[..j + 1] == (done + vs[..j]) + [vs[j]] by {
      assert vs[..j + 1] == vs[..j] + [vs[j]];
    }
    FoldSnoc(done + vs[..j], vs[j], factor);
  }

  /**
   * `generateActionReport` without the file write: every finding is counted
   * into the action map, then each record gets its final effort.
   */
  method GenerateActionReport(findings: seq<Finding>, catalog: Catalog, factor: nat)
    returns (report: seq<ReportEntry>)
    ensures report == ReportOf(findings, catalog, factor)
  {
    var order: seq<string> := [];
    var records: map<string, ActionRecord> := map[];
    var oneTimeActions: set<string> := {};
    var i := 0;
    while i < |findings|
      invariant 0 <= i <= |findings|
      invariant ActionTable(order, records) == Fold(Visits(findings[..i], catalog), factor)
    {
      order, records, oneTimeActions :=
        CountFinding(order, records, oneTimeActions, findings[i], catalog, factor, Visits(findings[..i], catalog));
      VisitsSnoc(findings, i, catalog);
      i := i + 1;
    }
    Seqs.TakeAll(findings);
    FoldShape(Visits(findings, catalog), factor);
    report := Finalized(AnalysisEngine.ValuesInOrder(order, records));
  }

  /**
   * The `forEach` callback for one finding: each action of its catalog
   * entry is counted in turn; `done` are the visits made before.
   */
  method CountFinding(order: seq<string>, records: map<string, ActionRecord>, oneTimeActions: set<string>,
                      finding: Finding, catalog: Catalog, factor: nat, ghost done: seq<Visit>)
    returns (order': seq<string>, records': map<string, ActionRecord>, oneTimeActions': set<string>)
    requires ActionTable(order, records) == Fold(done, factor)
    ensures ActionTable(order', records') == Fold(done + VisitsOf(finding, catalog), factor)
  {
    order', records', oneTimeActions' := order, records, oneTimeActions;
    var visits := VisitsOf(finding, catalog);
    var patternId := AnalysisEngine.PatternIdByCategory(finding.category);
    if patternId in catalog {
      var actions := catalog[patternId];
      var j := 0;
      assert done + visits[..0] == done by {
        assert visits[..0] == [];
      }
      while j < |actions|
        invariant 0 <= j <= |actions|
        invariant ActionTable(order', records') == Fold(done + visits[..j], factor)
      {
        ghost var before := ActionTable(order', records');
        order', records', oneTimeActions' := CountAction(order', records', oneTimeActions', actions[j], finding, factor);
        assert ActionTable(order', records') == Fold(done + visits[..j + 1], factor) by {
          assert visits[j] == Visit(actions[j], finding);
          StepAt(done, visits, j, before, factor);
        }
        j := j + 1;
      }
      Seqs.TakeAll(visits);
    } else {
      assert done + [] == done;
    }
  }

  /** The inner `forEach` callback: one action of the finding's catalog entry. */
  method CountAction(order: seq<string>, records: map<string, ActionRecord>, oneTimeActions: set<string>,
                     action: Action, finding: Finding, factor: nat)
    returns (order': seq<string>, records': map<string, ActionRecord>, oneTimeActions': set<string>)
    ensures ActionTable(order', records') == Step(ActionTable(order, records), Visit(action, finding), factor)
    ensures oneTimeActions' == if action.impactType == OneTime then oneTimeActions + {action.id} else oneTimeActions
  {
    order', records', oneTimeActions' := order, records, oneTimeActions;
    var key := action.id;
    if key !in records' {
      records' := records'[key := Opened(action, factor)];
      order' := order' + [key];
    }
    var actionData := records'[key];
    if action.impactType == OneTime {
      oneTimeActions' := oneTimeActions' + {key};
    } else {
      actionData := actionData.(occurrences := actionData.occurrences + 1);
    }
    actionData := actionData.(affectedFindings := actionData.affectedFindings + [Affected(finding)]);
    records' := records'[key := actionData];
  }
}
