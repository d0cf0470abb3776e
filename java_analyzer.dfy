/**
 * The Java analyzer: the `.java` files below the project are scanned line by
 * line against the `java` rules, and every finding is attributed to the
 * method or class that encloses its line. It has no property phase, and it
 * ignores a method declaration on a line that mentions `class` or
 * `interface`.
 */
module JavaAnalyzer {
  import opened Wrappers
  import opened Records
  import Seqs
  import JsText
  import Scanner

  const Language := "java"
  const Extension := ".java"
  /** Directories the file search never enters. */
  const SkippedDirs: set<string> := {"node_modules", "target", "build", ".git", ".idea", "out"}

  /** The resolver's two declaration patterns, each giving the name it captures. */
  datatype Declarations = Declarations(
    methodName: Scanner.Extractor,
    className: Scanner.Extractor)

  /** A line that mentions `class` or `interface`. */
  predicate TypeLine(line: string) {
    JsText.Contains(line, "class") || JsText.Contains(line, "interface")
  }

  /** What a line of the 50-line window declares: a method, unless the line is a type line. */
  function WindowDecl(d: Declarations, line: string): (r: Option<string>)
    ensures r.Some? <==> d.methodName(line).Some? && !TypeLine(line)
    ensures r.Some? ==> r == d.methodName(line)
  {
    if d.methodName(line).Some? && !TypeLine(line) then d.methodName(line) else None
  }

  function Window(d: Declarations): Scanner.Extractor {
    line => WindowDecl(d, line)
  }

  /** The name `extractFunctionName(lines, cur)` returns. */
  function FunctionName(d: Declarations, lines: seq<string>, cur: nat): string
    requires cur < |lines|
  {
    Scanner.Resolve(lines, cur, Window(d), d.className)
  }

  /**
   * The nearest method declaration of the window that is not on a type line
   * names the unit.
   */
  lemma NearestMethod(d: Declarations, lines: seq<string>, cur: nat, i: nat)
    requires Scanner.WindowStart(cur) <= i <= cur < |lines|
    requires d.methodName(lines[i]).Some? && !TypeLine(lines[i])
    requires forall j :: i < j <= cur ==> d.methodName(lines[j]).None? || TypeLine(lines[j])
    ensures FunctionName(d, lines, cur) == d.methodName(lines[i]).value
  {
    Scanner.ResolveWindow(lines, cur, Window(d), d.className, i);
  }

  /**
   * A method declaration on a line mentioning `class` or `interface` is
   * passed over: the declaration on the line above wins.
   */
  lemma TypeLineSkipped(d: Declarations, lines: seq<string>, cur: nat)
    requires 1 <= cur < |lines|
    requires d.methodName(lines[cur]).Some? && TypeLine(lines[cur])
    requires d.methodName(lines[cur - 1]).Some? && !TypeLine(lines[cur - 1])
    ensures FunctionName(d, lines, cur) == d.methodName(lines[cur - 1]).value
  {
    NearestMethod(d, lines, cur, cur - 1);
  }

  /**
   * With no usable method declaration in the window, the nearest class line
   * at or above the match, however far up, names the unit.
   */
  lemma NearestClass(d: Declarations, lines: seq<string>, cur: nat, i: nat)
    requires i <= cur < |lines|
    requires forall j :: Scanner.WindowStart(cur) <= j <= cur ==> d.methodName(lines[j]).None? || TypeLine(lines[j])
    requires d.className(lines[i]).Some?
    requires forall j :: i < j <= cur ==> d.className(lines[j]).None?
    ensures FunctionName(d, lines, cur) == Scanner.ClassLevel + d.className(lines[i]).value
  {
    Scanner.ResolveClass(lines, cur, Window(d), d.className, i);
  }

  /** With no declaration of either kind in reach the name is `"Unknown"`. */
  lemma NoDeclaration(d: Declarations, lines: seq<string>, cur: nat)
    requires cur < |lines|
    requires forall j :: Scanner.WindowStart(cur) <= j <= cur ==> d.methodName(lines[j]).None? || TypeLine(lines[j])
    requires forall j :: 0 <= j <= cur ==> d.className(lines[j]).None?
    ensures FunctionName(d, lines, cur) == Scanner.Unknown
  {
    Scanner.ResolveUnknown(lines, cur, Window(d), d.className);
  }

  /**
   * There is no property phase: the name is a method name read in the
   * window, `"ClassLevel: "` and a class name, or `"Unknown"`.
   */
  lemma NameKinds(d: Declarations, lines: seq<string>, cur: nat)
    requires cur < |lines|
    ensures var name := FunctionName(d, lines, cur);
      || (exists i :: Scanner.WindowStart(cur) <= i <= cur && d.methodName(lines[i]) == Some(name))
      || (exists i :: 0 <= i <= cur && d.className(lines[i]).Some? && name == Scanner.ClassLevel + d.className(lines[i]).value)
      || name == Scanner.Unknown
  {
    match Scanner.Nearest(lines, cur, Scanner.WindowStart(cur), Window(d))
    case Some(i) =>
      assert d.methodName(lines[i]) == Some(FunctionName(d, lines, cur));
    case None =>
      match Scanner.Nearest(lines, cur, 0, d.className)
      case Some(i) =>
      case None =>
  }

  /**
   * `extractFunctionName`: up to 50 lines back from the match line for a
   * method declared on a line that is not a type line, then all the way
   * back for a class.
   */
  method ExtractFunctionName(d: Declarations, lines: seq<string>, currentLine: nat) returns (name: string)
    requires currentLine < |lines|
    ensures name == FunctionName(d, lines, currentLine)
  {
    var i: int := currentLine;
    while i >= 0 && i > currentLine - 50
      invariant Scanner.WindowStart(currentLine) - 1 <= i <= currentLine
      invariant forall j :: i < j <= currentLine ==> Window(d)(lines[j]).None?
    {
      var line := lines[i];
      var methodMatch := d.methodName(line);
      if methodMatch.Some? && !JsText.Contains(line, "class") && !JsText.Contains(line, "interface") {
        Scanner.ResolveWindow(lines, currentLine, Window(d), d.className, i);
        return methodMatch.value;
      }
      i := i - 1;
    }
    i := currentLine;
    while i >= 0
      invariant -1 <= i <= currentLine
      invariant forall j :: i < j <= currentLine ==> d.className(lines[j]).None?
    {
      var classMatch := d.className(lines[i]);
      if classMatch.Some? {
        Scanner.ResolveClass(lines, currentLine, Window(d), d.className, i);
        return Scanner.ClassLevel + classMatch.value;
      }
      i := i - 1;
    }
    Scanner.ResolveUnknown(lines, currentLine, Window(d), d.className);
    return Scanner.Unknown;
  }

  /** The findings of one file's text against `patterns`. */
  function FileFindings(d: Declarations, matches: Scanner.Matcher, patterns: seq<Rule>, file: string, content: string): seq<Finding> {
    var lines := Scanner.Lines(content);
    Scanner.FileFindings(file, lines, |lines|, patterns, matches, Window(d), d.className)
  }

  /**
   * At most one finding per line and pattern, and every finding names a line
   * of the file.
   */
  lemma FileFindingsBounds(d: Declarations, matches: Scanner.Matcher, patterns: seq<Rule>, file: string, content: string)
    ensures var fs := FileFindings(d, matches, patterns, file, content);
      && |fs| <= |Scanner.Lines(content)| * |patterns|
      && forall k :: 0 <= k < |fs| ==> 1 <= fs[k].lineNum <= |Scanner.Lines(content)|
  {
    var lines := Scanner.Lines(content);
    Scanner.FileFindingsCount(file, lines, |lines|, patterns, matches, Window(d), d.className);
    Scanner.PairCountBound(lines, |lines|, patterns, matches);
  }

  /**
   * `analyzeFile`: every line against every pattern, in that order; a
   * matching pair gives one finding. `None` is a file that cannot be read,
   * which is logged and gives no findings.
   */
  method AnalyzeFile(d: Declarations, matches: Scanner.Matcher, patterns: seq<Rule>, file: string, content: Option<string>)
    returns (findings: seq<Finding>)
    ensures content.None? ==> findings == []
    ensures content.Some? ==> findings == FileFindings(d, matches, patterns, file, content.value)
  {
    findings := [];
    if content.None? {
      return;
    }
    var lines := JsText.Split(content.value, '\n');
    var index := 0;
    while index < |lines|
      invariant 0 <= index <= |lines|
      invariant findings == Scanner.FileFindings(file, lines, index, patterns, matches, Window(d), d.className)
    {
      var lineFindings := AnalyzeLine(d, matches, patterns, file, lines, index);
      Scanner.FileFindingsSnoc(file, lines, index, patterns, matches, Window(d), d.className);
      findings := findings + lineFindings;
      index := index + 1;
    }
  }

  /** The callback for line `index`: each pattern in turn, one finding per match. */
  method AnalyzeLine(d: Declarations, matches: Scanner.Matcher, patterns: seq<Rule>, file: string,
                     lines: seq<string>, index: nat)
    returns (findings: seq<Finding>)
    requires index < |lines|
    ensures findings == Scanner.LineFindings(file, lines, index, patterns, matches, Window(d), d.className)
  {
    findings := [];
    var line := lines[index];
    var k := 0;
    while k < |patterns|
      invariant 0 <= k <= |patterns|
      invariant findings == Scanner.LineFindings(file, lines, index, patterns[..k], matches, Window(d), d.className)
    {
      var pattern := patterns[k];
      if matches(pattern.regex, line) {
        var functionName := ExtractFunctionName(d, lines, index);
        findings := findings + [Finding(file, functionName, index + 1, JsText.Trim(line),
                                        pattern.category, pattern.severity, pattern.remediation)];
      }
      Scanner.LineFindingsSnoc(file, lines, index, patterns, matches, Window(d), d.className, k);
      k := k + 1;
    }
    Seqs.TakeAll(patterns);
  }

  /** The findings of the files `files`, read through `read`, in order. */
  function ProjectFindings(d: Declarations, matches: Scanner.Matcher, patterns: seq<Rule>,
                           files: seq<seq<string>>, read: seq<string> -> Option<string>): seq<Finding>
  {
    if files == [] then []
    else
      var file := files[|files| - 1];
      var content := read(file);
      ProjectFindings(d, matches, patterns, files[..|files| - 1], read)
        + (if content.None? then [] else FileFindings(d, matches, patterns, JsText.Join(file, '/'), content.value))
  }

  /**
   * `analyzeJavaCode`: load the `java` patterns once, find the `.java`
   * files below the project root and concatenate their findings, each file
   * named by its path relative to the root. `read` gives a file's text, or
   * `None` when it cannot be read.
   */
  method AnalyzeJavaCode(cache: Scanner.PatternCache, catalog: seq<Rule>, root: Scanner.Entry,
                           read: seq<string> -> Option<string>, d: Declarations, matches: Scanner.Matcher)
    returns (findings: seq<Finding>)
    requires cache.language == Language
    modifies cache
    ensures cache.patterns == if old(cache.patterns) == [] then RulesFor(catalog, Language) else old(cache.patterns)
    ensures findings == ProjectFindings(d, matches, cache.patterns,
                                        Scanner.FilesUnder(root, [], Extension, SkippedDirs), read)
  {
    cache.LoadPatterns(catalog);
    var patterns := cache.patterns;
    var javaFiles := Scanner.FindFiles(root, [], Extension, SkippedDirs);
    findings := [];
    var i := 0;
    while i < |javaFiles|
      invariant 0 <= i <= |javaFiles|
      invariant cache.patterns == patterns
      invariant findings == ProjectFindings(d, matches, patterns, javaFiles[..i], read)
    {
      var relativeFile := JsText.Join(javaFiles[i], '/');
      var fileFindings := AnalyzeFile(d, matches, patterns, relativeFile, read(javaFiles[i]));
      Seqs.PrefixOfPrefix(javaFiles, i + 1);
      findings := findings + fileFindings;
      i := i + 1;
    }
    Seqs.TakeAll(javaFiles);
  }

  /**
   * The search never enters `node_modules`, `target`, `build`, `.git`,
   * `.idea` or `out`, and keeps only names ending in `.java`; every such file
   * reached through readable directories off that list is found.
   */
  lemma FoundFiles(root: Scanner.Entry)
    ensures forall p :: p in Scanner.FilesUnder(root, [], Extension, SkippedDirs) ==>
      && p != []
      && JsText.EndsWith(p[|p| - 1], Extension)
      && forall k :: 0 <= k < |p| - 1 ==> p[k] !in SkippedDirs
    ensures forall c, rel :: root.Dir? && c in root.entries && Scanner.Reaches(c, rel, Extension, SkippedDirs) ==>
      rel in Scanner.FilesUnder(root, [], Extension, SkippedDirs)
  {
    Scanner.FilesUnderSound(root, [], Extension, SkippedDirs);
    forall c, rel | root.Dir? && c in root.entries && Scanner.Reaches(c, rel, Extension, SkippedDirs)
      ensures rel in Scanner.FilesUnder(root, [], Extension, SkippedDirs)
    {
      Scanner.FilesUnderComplete(root, [], Extension, SkippedDirs, c, rel);
      assert [] + rel == rel;
    }
  }
}
