/**
 * What the .NET and the Java analyzers share: the backward search for the
 * unit that encloses a line, the findings of a file's line-by-pattern scan,
 * the recursive search for source files in a directory tree and the
 * per-language pattern cache.
 *
 * Regular expressions are not interpreted. Whether a rule's regex matches a
 * line is a given predicate `matches(regex, line)`; a declaration pattern is
 * a given `Extractor` returning the name it captures on a line, if it
 * matches there. Both are pure because `String.prototype.match` with a
 * global regex resets `lastIndex` before it searches.
 */
module Scanner {
  import opened Wrappers
  import opened Records
  import Seqs
  import JsText

  type Extractor = string -> Option<string>
  type Matcher = (string, string) -> bool

  // ---- the enclosing-unit resolver

  /** Lowest index of the first phase: the match line and the 49 before it, never below 0. */
  function WindowStart(cur: nat): (lo: nat)
    ensures lo <= cur && cur - lo < 50
    ensures cur >= 49 ==> lo == cur - 49
  {
    if cur >= 49 then cur - 49 else 0
  }

  /** The index nearest to `hi`, going down to `lo`, of a line on which `decl` fires. */
  function Nearest(lines: seq<string>, hi: int, lo: nat, decl: Extractor): (r: Option<nat>)
    requires hi < |lines|
    ensures r.Some? ==> lo <= r.value <= hi && decl(lines[r.value]).Some?
    ensures r.Some? ==> forall j :: r.value < j <= hi ==> decl(lines[j]).None?
    ensures r.None? ==> forall j :: lo <= j <= hi ==> decl(lines[j]).None?
    decreases hi - lo + 1
  {
    if hi < lo then None
    else if decl(lines[hi]).Some? then Some(hi)
    else Nearest(lines, hi - 1, lo, decl)
  }

  /**
   * The name `extractFunctionName` gives line `cur`: what `window` reads on
   * the nearest line of the 50-line window; failing that `"ClassLevel: "`
   * and what `cls` reads on the nearest line at or above `cur`; failing
   * that `"Unknown"`.
   */
  function Resolve(lines: seq<string>, cur: nat, window: Extractor, cls: Extractor): string
    requires cur < |lines|
  {
    match Nearest(lines, cur, WindowStart(cur), window)
    case Some(i) => window(lines[i]).value
    case None =>
      match Nearest(lines, cur, 0, cls)
      case Some(i) => ClassLevel + cls(lines[i]).value
      case None => Unknown
  }

  const ClassLevel := "ClassLevel: "
  const Unknown := "Unknown"

  /** When a line of the window declares a unit, the nearest such line names it. */
  lemma ResolveWindow(lines: seq<string>, cur: nat, window: Extractor, cls: Extractor, i: nat)
    requires WindowStart(cur) <= i <= cur < |lines|
    requires window(lines[i]).Some?
    requires forall j :: i < j <= cur ==> window(lines[j]).None?
    ensures Resolve(lines, cur, window, cls) == window(lines[i]).value
  {
    NearestIs(lines, cur, WindowStart(cur), window, i);
  }

  /**
   * When the window declares nothing, the nearest class line at or above
   * `cur`, however far up, names the unit.
   */
  lemma ResolveClass(lines: seq<string>, cur: nat, window: Extractor, cls: Extractor, i: nat)
    requires i <= cur < |lines|
    requires forall j :: WindowStart(cur) <= j <= cur ==> window(lines[j]).None?
    requires cls(lines[i]).Some?
    requires forall j :: i < j <= cur ==> cls(lines[j]).None?
    ensures Resolve(lines, cur, window, cls) == ClassLevel + cls(lines[i]).value
  {
    NearestNone(lines, cur, WindowStart(cur), window);
    NearestIs(lines, cur, 0, cls, i);
  }

  /** With no declaration in the window and no class line above, the name is `"Unknown"`. */
  lemma ResolveUnknown(lines: seq<string>, cur: nat, window: Extractor, cls: Extractor)
    requires cur < |lines|
    requires forall j :: WindowStart(cur) <= j <= cur ==> window(lines[j]).None?
    requires forall j :: 0 <= j <= cur ==> cls(lines[j]).None?
    ensures Resolve(lines, cur, window, cls) == Unknown
  {
    NearestNone(lines, cur, WindowStart(cur), window);
    NearestNone(lines, cur, 0, cls);
  }

  lemma NearestIs(lines: seq<string>, hi: nat, lo: nat, decl: Extractor, i: nat)
    requires lo <= i <= hi < |lines|
    requires decl(lines[i]).Some?
    requires forall j :: i < j <= hi ==> decl(lines[j]).None?
    ensures Nearest(lines, hi, lo, decl) == Some(i)
  {
  }

  lemma NearestNone(lines: seq<string>, hi: nat, lo: nat, decl: Extractor)
    requires hi < |lines|
    requires forall j :: lo <= j <= hi ==> decl(lines[j]).None?
    ensures Nearest(lines, hi, lo, decl) == None
  {
  }

  /** The search looks only at lines `lo` to `hi`. */
  lemma {:induction false} NearestLocal(a: seq<string>, b: seq<string>, hi: int, lo: nat, decl: Extractor)
    requires hi < |a| && hi < |b|
    requires forall j :: lo <= j <= hi ==> a[j] == b[j]
    ensures Nearest(a, hi, lo, decl) == Nearest(b, hi, lo, decl)
    decreases hi - lo + 1
  {
    if lo <= hi {
      assert a[hi] == b[hi];
      NearestLocal(a, b, hi - 1, lo, decl);
    }
  }

  /** Lines below the match line never affect the name it gets. */
  lemma ResolveIgnoresLater(a: seq<string>, b: seq<string>, cur: nat, window: Extractor, cls: Extractor)
    requires cur < |a| && cur < |b|
    requires a[..cur + 1] == b[..cur + 1]
    ensures Resolve(a, cur, window, cls) == Resolve(b, cur, window, cls)
  {
    forall j | 0 <= j <= cur ensures a[j] == b[j] {
      assert a[j] == a[..cur + 1][j];
    }
    NearestLocal(a, b, cur, WindowStart(cur), window);
    NearestLocal(a, b, cur, 0, cls);
  }

  /**
   * When the window declares a unit, only the 50 lines of the window decide
   * the name: the text above them does not matter.
   */
  lemma ResolveWindowOnly(a: seq<string>, b: seq<string>, cur: nat, window: Extractor, cls: Extractor)
    requires cur < |a| && cur < |b|
    requires forall j :: WindowStart(cur) <= j <= cur ==> a[j] == b[j]
    requires Nearest(a, cur, WindowStart(cur), window).Some?
    ensures Resolve(a, cur, window, cls) == Resolve(b, cur, window, cls)
  {
    NearestLocal(a, b, cur, WindowStart(cur), window);
  }

  // ---- the line-by-pattern scan of one file

  /** `content.split('\n')`. */
  function Lines(content: string): (r: seq<string>)
    ensures |r| >= 1
  {
    JsText.Split(content, '\n')
  }

  /** The finding for rule `x` matching line `i`. */
  function Emit(file: string, lines: seq<string>, i: nat, x: Rule, window: Extractor, cls: Extractor): Finding
    requires i < |lines|
  {
    Finding(file, Resolve(lines, i, window, cls), i + 1, JsText.Trim(lines[i]), x.category, x.severity, x.remediation)
  }

  /** How many of `rules` match `line`. */
  function MatchCount(rules: seq<Rule>, line: string, matches: Matcher): (n: nat)
    ensures n <= |rules|
  {
    if rules == [] then 0
    else MatchCount(rules[..|rules| - 1], line, matches) + (if matches(rules[|rules| - 1].regex, line) then 1 else 0)
  }

  /** The findings of line `i`: one for each rule that matches it, in rule order. */
  function LineFindings(file: string, lines: seq<string>, i: nat, rules: seq<Rule>, matches: Matcher,
                        window: Extractor, cls: Extractor): (r: seq<Finding>)
    requires i < |lines|
    ensures |r| == MatchCount(rules, lines[i], matches)
    ensures forall k :: 0 <= k < |r| ==> r[k].lineNum == i + 1
  {
    if rules == [] then []
    else
      var x := rules[|rules| - 1];
      LineFindings(file, lines, i, rules[..|rules| - 1], matches, window, cls)
        + (if matches(x.regex, lines[i]) then [Emit(file, lines, i, x, window, cls)] else [])
  }

  lemma LineFindingsSnoc(file: string, lines: seq<string>, i: nat, rules: seq<Rule>, matches: Matcher,
                         window: Extractor, cls: Extractor, k: nat)
    requires i < |lines| && k < |rules|
    ensures LineFindings(file, lines, i, rules[..k + 1], matches, window, cls)
      == LineFindings(file, lines, i, rules[..k], matches, window, cls)
        + (if matches(rules[k].regex, lines[i]) then [Emit(file, lines, i, rules[k], window, cls)] else [])
  {
    Seqs.PrefixOfPrefix(rules, k + 1);
  }

  /** The findings of the first `n` lines, line after line. */
  function FileFindings(file: string, lines: seq<string>, n: nat, rules: seq<Rule>, matches: Matcher,
                        window: Extractor, cls: Extractor): (r: seq<Finding>)
    requires n <= |lines|
    ensures forall k :: 0 <= k < |r| ==> 1 <= r[k].lineNum <= n
  {
    if n == 0 then []
    else
      FileFindings(file, lines, n - 1, rules, matches, window, cls)
        + LineFindings(file, lines, n - 1, rules, matches, window, cls)
  }

  lemma FileFindingsSnoc(file: string, lines: seq<string>, n: nat, rules: seq<Rule>, matches: Matcher,
                         window: Extractor, cls: Extractor)
    requires n < |lines|
    ensures FileFindings(file, lines, n + 1, rules, matches, window, cls)
      == FileFindings(file, lines, n, rules, matches, window, cls) + LineFindings(file, lines, n, rules, matches, window, cls)
  {
  }

  /** Number of (line, rule) pairs among the first `n` lines that match. */
  function PairCount(lines: seq<string>, n: nat, rules: seq<Rule>, matches: Matcher): nat
    requires n <= |lines|
  {
    if n == 0 then 0 else PairCount(lines, n - 1, rules, matches) + MatchCount(rules, lines[n - 1], matches)
  }

  /** Exactly one finding per matching (line, rule) pair. */
  lemma {:induction false} FileFindingsCount(file: string, lines: seq<string>, n: nat, rules: seq<Rule>,
                                             matches: Matcher, window: Extractor, cls: Extractor)
    requires n <= |lines|
    ensures |FileFindings(file, lines, n, rules, matches, window, cls)| == PairCount(lines, n, rules, matches)
  {
    if n > 0 {
      FileFindingsCount(file, lines, n - 1, rules, matches, window, cls);
    }
  }

  /** At most one finding per line and rule. */
  lemma {:induction false} PairCountBound(lines: seq<string>, n: nat, rules: seq<Rule>, matches: Matcher)
    requires n <= |lines|
    ensures PairCount(lines, n, rules, matches) <= n * |rules|
  {
    if n > 0 {
      PairCountBound(lines, n - 1, rules, matches);
      assert n * |rules| == (n - 1) * |rules| + |rules|;
    }
  }

  /** `f` is the finding that a rule of `rules` which matches line `i` gives there. */
  predicate EmittedBy(file: string, lines: seq<string>, i: nat, rules: seq<Rule>,
                      matches: Matcher, window: Extractor, cls: Extractor, f: Finding)
    requires i < |lines|
  {
    exists x ::
      && x in rules && matches(x.regex, lines[i])
      && f == Emit(file, lines, i, x, window, cls)
  }

  /** Every finding of a line comes from a rule that matches it. */
  lemma {:induction false} LineFindingSound(file: string, lines: seq<string>, i: nat, rules: seq<Rule>,
                                            matches: Matcher, window: Extractor, cls: Extractor, k: nat)
    requires i < |lines|
    requires k < |LineFindings(file, lines, i, rules, matches, window, cls)|
    ensures EmittedBy(file, lines, i, rules, matches, window, cls, LineFindings(file, lines, i, rules, matches, window, cls)[k])
  {
    var pre := rules[..|rules| - 1];
    var x := rules[|rules| - 1];
    var p := LineFindings(file, lines, i, pre, matches, window, cls);
    var q := if matches(x.regex, lines[i]) then [Emit(file, lines, i, x, window, cls)] else [];
    Seqs.ConcatIndex(p, q, k);
    if k < |p| {
      LineFindingSound(file, lines, i, pre, matches, window, cls, k);
      var y :| y in pre && matches(y.regex, lines[i]) && p[k] == Emit(file, lines, i, y, window, cls);
      assert y in rules;
    } else {
      assert x in rules;
    }
  }

  /** Every rule that matches a line gives a finding for it. */
  lemma {:induction false} LineFindingComplete(file: string, lines: seq<string>, i: nat, rules: seq<Rule>,
                                               matches: Matcher, window: Extractor, cls: Extractor, j: nat)
    requires i < |lines| && j < |rules|
    requires matches(rules[j].regex, lines[i])
    ensures Emit(file, lines, i, rules[j], window, cls) in LineFindings(file, lines, i, rules, matches, window, cls)
  {
    var pre := rules[..|rules| - 1];
    if j < |pre| {
      LineFindingComplete(file, lines, i, pre, matches, window, cls, j);
      assert rules[j] == pre[j];
    }
  }

  /** Findings of different rules on one line keep the rule order. */
  lemma {:induction false} LineFindingsConcat(file: string, lines: seq<string>, i: nat, a: seq<Rule>, b: seq<Rule>,
                                              matches: Matcher, window: Extractor, cls: Extractor)
    requires i < |lines|
    ensures LineFindings(file, lines, i, a + b, matches, window, cls)
      == LineFindings(file, lines, i, a, matches, window, cls) + LineFindings(file, lines, i, b, matches, window, cls)
    decreases |b|
  {
    if b != [] {
      var bs := b[..|b| - 1];
      LineFindingsConcat(file, lines, i, a, bs, matches, window, cls);
      assert (a + b)[..|a + b| - 1] == a + bs;
      assert (a + b)[|a + b| - 1] == b[|b| - 1];
    } else {
      assert a + b == a;
    }
  }

  /** Every finding of the file comes from a matching rule on the line it names. */
  lemma {:induction false} FileFindingSound(file: string, lines: seq<string>, n: nat, rules: seq<Rule>,
                                            matches: Matcher, window: Extractor, cls: Extractor, k: nat)
    requires n <= |lines|
    requires k < |FileFindings(file, lines, n, rules, matches, window, cls)|
    ensures var f := FileFindings(file, lines, n, rules, matches, window, cls)[k];
      EmittedBy(file, lines, f.lineNum - 1, rules, matches, window, cls, f)
  {
    var r := FileFindings(file, lines, n, rules, matches, window, cls);
    var p := FileFindings(file, lines, n - 1, rules, matches, window, cls);
    var q := LineFindings(file, lines, n - 1, rules, matches, window, cls);
    assert r == p + q;
    if k < |p| {
      assert r[k] == p[k] by {
        Seqs.ConcatIndex(p, q, k);
      }
      FileFindingSound(file, lines, n - 1, rules, matches, window, cls, k);
    } else {
      assert r[k] == q[k - |p|] by {
        Seqs.ConcatIndex(p, q, k);
      }
      LineFindingSound(file, lines, n - 1, rules, matches, window, cls, k - |p|);
    }
  }

  /** Every matching (line, rule) pair gives a finding. */
  lemma {:induction false} FileFindingComplete(file: string, lines: seq<string>, n: nat, rules: seq<Rule>,
                                               matches: Matcher, window: Extractor, cls: Extractor, i: nat, j: nat)
    requires i < n <= |lines| && j < |rules|
    requires matches(rules[j].regex, lines[i])
    ensures Emit(file, lines, i, rules[j], window, cls) in FileFindings(file, lines, n, rules, matches, window, cls)
  {
    if i < n - 1 {
      var f := Emit(file, lines, i, rules[j], window, cls);
      assert f in FileFindings(file, lines, n - 1, rules, matches, window, cls) by {
        FileFindingComplete(file, lines, n - 1, rules, matches, window, cls, i, j);
      }
      AppendKeeps(file, lines, n, rules, matches, window, cls, f);
    } else {
      LastLineComplete(file, lines, n, rules, matches, window, cls, j);
    }
  }

  lemma AppendKeeps(file: string, lines: seq<string>, n: nat, rules: seq<Rule>,
                    matches: Matcher, window: Extractor, cls: Extractor, f: Finding)
    requires 0 < n <= |lines|
    requires f in FileFindings(file, lines, n - 1, rules, matches, window, cls)
    ensures f in FileFindings(file, lines, n, rules, matches, window, cls)
  {
    Seqs.InConcat(FileFindings(file, lines, n - 1, rules, matches, window, cls),
      LineFindings(file, lines, n - 1, rules, matches, window, cls), f);
  }

  lemma LastLineComplete(file: string, lines: seq<string>, n: nat, rules: seq<Rule>,
                         matches: Matcher, window: Extractor, cls: Extractor, j: nat)
    requires 0 < n <= |lines| && j < |rules|
    requires matches(rules[j].regex, lines[n - 1])
    ensures Emit(file, lines, n - 1, rules[j], window, cls) in FileFindings(file, lines, n, rules, matches, window, cls)
  {
    var f := Emit(file, lines, n - 1, rules[j], window, cls);
    LineFindingComplete(file, lines, n - 1, rules, matches, window, cls, j);
    Seqs.InConcat(FileFindings(file, lines, n - 1, rules, matches, window, cls),
      LineFindings(file, lines, n - 1, rules, matches, window, cls), f);
  }

  predicate ByLine(fs: seq<Finding>) {
    forall a, b :: 0 <= a < b < |fs| ==> fs[a].lineNum <= fs[b].lineNum
  }

  /** The findings are ordered by line. */
  lemma {:induction false} FileFindingsOrdered(file: string, lines: seq<string>, n: nat, rules: seq<Rule>,
                                               matches: Matcher, window: Extractor, cls: Extractor)
    requires n <= |lines|
    ensures ByLine(FileFindings(file, lines, n, rules, matches, window, cls))
  {
    if n > 0 {
      FileFindingsOrdered(file, lines, n - 1, rules, matches, window, cls);
      var p := FileFindings(file, lines, n - 1, rules, matches, window, cls);
      var q := LineFindings(file, lines, n - 1, rules, matches, window, cls);
      var r := p + q;
      forall a, b | 0 <= a < b < |r| ensures r[a].lineNum <= r[b].lineNum {
        Seqs.ConcatIndex(p, q, a);
        Seqs.ConcatIndex(p, q, b);
      }
    }
  }

  // ---- the recursive file search

  /**
   * A directory entry. `Unreadable` is a directory whose listing cannot be
   * read: `findFiles` logs the error and yields nothing for it.
   */
  datatype Entry = File(name: string) | Dir(name: string, entries: seq<Entry>) | Unreadable(name: string)

  /**
   * What `findFiles` yields for the directory `d` at `path`: the files of its
   * listing, or nothing when it cannot be listed.
   */
  function FilesUnder(d: Entry, path: seq<string>, ext: string, skip: set<string>): seq<seq<string>>
    decreases d, 0
  {
    if d.Dir? then FilesIn(d.entries, path, ext, skip) else []
  }

  /** The files one entry of the directory `dir` contributes, depth first. */
  function FilesOf(e: Entry, dir: seq<string>, ext: string, skip: set<string>): seq<seq<string>>
    decreases e, 1
  {
    if e.File? then (if JsText.EndsWith(e.name, ext) then [dir + [e.name]] else [])
    else if e.name in skip then []
    else FilesUnder(e, dir + [e.name], ext, skip)
  }

  /** The files below the entries `es` of the directory `dir`, in listing order. */
  function FilesIn(es: seq<Entry>, dir: seq<string>, ext: string, skip: set<string>): seq<seq<string>>
    decreases es, 2
  {
    if es == [] then []
    else FilesIn(es[..|es| - 1], dir, ext, skip) + FilesOf(es[|es| - 1], dir, ext, skip)
  }

  /**
   * What the search finds lies below `dir`, has the extension, and no
   * directory on the way to it is skipped.
   */
  predicate Found(p: seq<string>, dir: seq<string>, ext: string, skip: set<string>) {
    && |p| > |dir| && p[..|dir|] == dir
    && JsText.EndsWith(p[|p| - 1], ext)
    && forall k :: |dir| <= k < |p| - 1 ==> p[k] !in skip
  }

  lemma {:induction false} FilesOfSound(e: Entry, dir: seq<string>, ext: string, skip: set<string>)
    ensures forall p :: p in FilesOf(e, dir, ext, skip) ==> Found(p, dir, ext, skip)
    decreases e, 1
  {
    if e.Dir? && e.name !in skip {
      var sub := dir + [e.name];
      FilesInSound(e.entries, sub, ext, skip);
      forall p | p in FilesIn(e.entries, sub, ext, skip) ensures Found(p, dir, ext, skip) {
        assert Found(p, sub, ext, skip);
        assert p[..|dir|] == p[..|sub|][..|dir|];
        assert p[|dir|] == p[..|sub|][|dir|] == e.name;
      }
    }
  }

  /** Every path the search returns is a file with the extension reached through no skipped directory. */
  lemma {:induction false} FilesInSound(es: seq<Entry>, dir: seq<string>, ext: string, skip: set<string>)
    ensures forall p :: p in FilesIn(es, dir, ext, skip) ==> Found(p, dir, ext, skip)
    decreases es, 2
  {
    if es != [] {
      FilesInSound(es[..|es| - 1], dir, ext, skip);
      FilesOfSound(es[|es| - 1], dir, ext, skip);
    }
  }

  /** Every path found below a directory is a file with the extension reached through no skipped directory. */
  lemma FilesUnderSound(d: Entry, path: seq<string>, ext: string, skip: set<string>)
    ensures forall p :: p in FilesUnder(d, path, ext, skip) ==> Found(p, path, ext, skip)
  {
    if d.Dir? {
      FilesInSound(d.entries, path, ext, skip);
    }
  }

  /** The listing order is kept: the files of `a + b` are those of `a`, then those of `b`. */
  lemma {:induction false} FilesInConcat(a: seq<Entry>, b: seq<Entry>, dir: seq<string>, ext: string, skip: set<string>)
    ensures FilesIn(a + b, dir, ext, skip) == FilesIn(a, dir, ext, skip) + FilesIn(b, dir, ext, skip)
    decreases |b|
  {
    if b == [] {
      assert a + b == a;
    } else {
      var bs := b[..|b| - 1];
      FilesInConcat(a, bs, dir, ext, skip);
      assert (a + b)[..|a + b| - 1] == a + bs;
      assert (a + b)[|a + b| - 1] == b[|b| - 1];
    }
  }

  /** Whatever one entry of a listing contributes is among the files of the whole listing. */
  lemma FilesInMember(es: seq<Entry>, dir: seq<string>, ext: string, skip: set<string>, i: nat, p: seq<string>)
    requires i < |es| && p in FilesOf(es[i], dir, ext, skip)
    ensures p in FilesIn(es, dir, ext, skip)
  {
    Seqs.TakeAll(es);
    assert es == es[..i] + [es[i]] + es[i + 1..];
    FilesInConcat(es[..i] + [es[i]], es[i + 1..], dir, ext, skip);
    FilesInConcat(es[..i], [es[i]], dir, ext, skip);
    assert FilesIn([es[i]], dir, ext, skip) == FilesOf(es[i], dir, ext, skip) by {
      assert [es[i]][..0] == [];
    }
  }

  /** A file with the extension listed directly in the directory is found. */
  lemma FilesInListed(es: seq<Entry>, dir: seq<string>, ext: string, skip: set<string>, i: nat)
    requires i < |es| && es[i].File? && JsText.EndsWith(es[i].name, ext)
    ensures dir + [es[i].name] in FilesIn(es, dir, ext, skip)
  {
    FilesInMember(es, dir, ext, skip, i, dir + [es[i].name]);
  }

  /**
   * The names `rel`, starting with the entry's own name, lead from `e` to a
   * file whose name ends in the extension, through directories that can be
   * listed and are not on the skip list.
   */
  predicate Reaches(e: Entry, rel: seq<string>, ext: string, skip: set<string>)
    decreases e
  {
    && rel != [] && rel[0] == e.name
    && match e
       case File(name) => |rel| == 1 && JsText.EndsWith(name, ext)
       case Dir(name, entries) => name !in skip && exists c :: c in entries && Reaches(c, rel[1..], ext, skip)
       case Unreadable(_) => false
  }

  /** Every file an entry reaches is found, at any depth. */
  lemma {:induction false} FilesOfReached(e: Entry, dir: seq<string>, ext: string, skip: set<string>, rel: seq<string>)
    requires Reaches(e, rel, ext, skip)
    ensures dir + rel in FilesOf(e, dir, ext, skip)
    decreases e
  {
    if e.File? {
      assert rel == [e.name];
    } else {
      var c :| c in e.entries && Reaches(c, rel[1..], ext, skip);
      var i :| 0 <= i < |e.entries| && e.entries[i] == c;
      var sub := dir + [e.name];
      FilesOfReached(c, sub, ext, skip, rel[1..]);
      assert sub + rel[1..] == dir + rel by {
        assert rel == [e.name] + rel[1..];
      }
      FilesInMember(e.entries, sub, ext, skip, i, dir + rel);
    }
  }

  /**
   * The converse of `FilesUnderSound`: every file reached from an entry of
   * the directory is found, under its path of names below the directory.
   */
  lemma FilesUnderComplete(d: Entry, path: seq<string>, ext: string, skip: set<string>, c: Entry, rel: seq<string>)
    requires d.Dir? && c in d.entries && Reaches(c, rel, ext, skip)
    ensures path + rel in FilesUnder(d, path, ext, skip)
  {
    var i :| 0 <= i < |d.entries| && d.entries[i] == c;
    FilesOfReached(c, path, ext, skip, rel);
    FilesInMember(d.entries, path, ext, skip, i, path + rel);
  }

  /** A skipped directory contributes nothing, whatever it holds. */
  lemma SkippedDirEmpty(d: Entry, dir: seq<string>, ext: string, skip: set<string>)
    requires !d.File? && d.name in skip
    ensures FilesOf(d, dir, ext, skip) == []
  {
  }

  /**
   * `findFiles(dir, extension)`: the entries of the directory `d` at `path`
   * in listing order; a directory not skipped is searched recursively, any
   * other entry is kept when its name ends in the extension. A directory
   * that cannot be listed, or a path that is not a directory, gives nothing.
   */
  method FindFiles(d: Entry, path: seq<string>, ext: string, skip: set<string>)
    returns (files: seq<seq<string>>)
    ensures files == FilesUnder(d, path, ext, skip)
    decreases d
  {
    files := [];
    if !d.Dir? {
      return;
    }
    var entries := d.entries;
    var i := 0;
    while i < |entries|
      invariant 0 <= i <= |entries|
      invariant files == FilesIn(entries[..i], path, ext, skip)
    {
      var entry := entries[i];
      Seqs.PrefixOfPrefix(entries, i + 1);
      if !entry.File? {
        if entry.name !in skip {
          var subFiles := FindFiles(entry, path + [entry.name], ext, skip);
          files := files + subFiles;
        }
      } else if JsText.EndsWith(entry.name, ext) {
        files := files + [path + [entry.name]];
      }
      i := i + 1;
    }
    Seqs.TakeAll(entries);
  }

  // ---- the pattern cache

  /**
   * The module-level pattern list of one analyzer (`DOTNET_PATTERNS`,
   * `JAVA_PATTERNS`): empty until the rule catalog is first loaded.
   */
  class PatternCache {
    const language: string
    var patterns: seq<Rule>

    constructor(language: string)
      ensures this.language == language && patterns == []
    {
      this.language := language;
      patterns := [];
    }

    /**
     * `loadPatterns`: while the cache is empty, fill it with the rules of
     * the catalog for this language, in catalog order.
     */
    method LoadPatterns(catalog: seq<Rule>)
      modifies this
      ensures old(patterns) == [] ==> patterns == RulesFor(catalog, language)
      ensures old(patterns) != [] ==> patterns == old(patterns)
    {
      if |patterns| == 0 {
        patterns := RulesFor(catalog, language);
      }
    }
  }
}
