/**
 * The .NET analyzer: the C# files below the project are scanned line by line
 * against the `dotnet` rules, and every finding is attributed to the method,
 * property or class that encloses its line.
 */
module DotnetAnalyzer {
  import opened Wrappers
  import opened Records
  import Seqs
  import JsText
  import Scanner

  const Language := "dotnet"
  const Extension := ".cs"
  /** Directories the file search never enters. */
  const SkippedDirs: set<string> := {"node_modules", "bin", "obj", ".git", ".vs", "packages"}
  const PropertyPrefix := "Property: "

  /**
   * The resolver's three declaration patterns: a method declaration, a
   * property declaration and a class declaration, each giving the name it
   * captures.
   */
  datatype Declarations = Declarations(
    methodName: Scanner.Extractor,
    propertyName: Scanner.Extractor,
    className: Scanner.Extractor)

  /** What a line of the 50-line window declares: a method, else a property. */
  function WindowDecl(d: Declarations, line: string): (r: Option<string>)
    ensures d.methodName(line).Some? ==> r == d.methodName(line)
    ensures d.methodName(line).None? && d.propertyName(line).Some? ==> r == Some(PropertyPrefix + d.propertyName(line).value)
    ensures d.methodName(line).None? && d.propertyName(line).None? ==> r.None?
  {
    match d.methodName(line)
    case Some(name) => Some(name)
    case None =>
      match d.propertyName(line)
      case Some(name) => Some(PropertyPrefix + name)
      case None => None
  }

  function Window(d: Declarations): Scanner.Extractor {
    line => WindowDecl(d, line)
  }

  /** The name `extractFunctionName(lines, cur)` returns. */
  function FunctionName(d: Declarations, lines: seq<string>, cur: nat): string
    requires cur < |lines|
  {
    Scanner.Resolve(lines, cur, Window(d), d.className)
  }

  /**
   * The nearest method declaration in the window names the unit, when no
   * line between it and the match declares a method or a property.
   */
  lemma NearestMethod(d: Declarations, lines: seq<string>, cur: nat, i: nat)
    requires Scanner.WindowStart(cur) <= i <= cur < |lines|
    requires d.methodName(lines[i]).Some?
    requires forall j :: i < j <= cur ==> d.methodName(lines[j]).None? && d.propertyName(lines[j]).None?
    ensures FunctionName(d, lines, cur) == d.methodName(lines[i]).value
  {
    Scanner.ResolveWindow(lines, cur, Window(d), d.className, i);
  }

  /**
   * A property declaration names the unit, prefixed `"Property: "`, when its
   * line declares no method and is the nearest declaring line of the window.
   */
  lemma NearestProperty(d: Declarations, lines: seq<string>, cur: nat, i: nat)
    requires Scanner.WindowStart(cur) <= i <= cur < |lines|
    requires d.methodName(lines[i]).None? && d.propertyName(lines[i]).Some?
    requires forall j :: i < j <= cur ==> d.methodName(lines[j]).None? && d.propertyName(lines[j]).None?
    ensures FunctionName(d, lines, cur) == PropertyPrefix + d.propertyName(lines[i]).value
  {
    Scanner.ResolveWindow(lines, cur, Window(d), d.className, i);
  }

  /**
   * With no method or property in the window, the nearest class line at or
   * above the match, however far up, names the unit.
   */
  lemma NearestClass(d: Declarations, lines: seq<string>, cur: nat, i: nat)
    requires i <= cur < |lines|
    requires forall j :: Scanner.WindowStart(cur) <= j <= cur ==> d.methodName(lines[j]).None? && d.propertyName(lines[j]).None?
    requires d.className(lines[i]).Some?
    requires forall j :: i < j <= cur ==> d.className(lines[j]).None?
    ensures FunctionName(d, lines, cur) == Scanner.ClassLevel + d.className(lines[i]).value
  {
    Scanner.ResolveClass(lines, cur, Window(d), d.className, i);
  }

  /** With no declaration of any kind in reach the name is `"Unknown"`. */
  lemma NoDeclaration(d: Declarations, lines: seq<string>, cur: nat)
    requires cur < |lines|
    requires forall j :: Scanner.WindowStart(cur) <= j <= cur ==> d.methodName(lines[j]).None? && d.propertyName(lines[j]).None?
    requires forall j :: 0 <= j <= cur ==> d.className(lines[j]).None?
    ensures FunctionName(d, lines, cur) == Scanner.Unknown
  {
    Scanner.ResolveUnknown(lines, cur, Window(d), d.className);
  }

  /**
   * The name is a method name or `"Property: "` and a property name read in
   * the window, `"ClassLevel: "` and a class name, or `"Unknown"`.
   */
  lemma NameKinds(d: Declarations, lines: seq<string>, cur: nat)
    requires cur < |lines|
    ensures var name := FunctionName(d, lines, cur);
      || (exists i :: Scanner.WindowStart(cur) <= i <= cur && d.methodName(lines[i]) == Some(name))
      || (exists i :: Scanner.WindowStart(cur) <= i <= cur && d.propertyName(lines[i]).Some?
                      && name == PropertyPrefix + d.propertyName(lines[i]).value)
      || (exists i :: 0 <= i <= cur && d.className(lines[i]).Some? && name == Scanner.ClassLevel + d.className(lines[i]).value)
      || name == Scanner.Unknown
  {
    match Scanner.Nearest(lines, cur, Scanner.WindowStart(cur), Window(d))
    case Some(i) =>
      if d.methodName(lines[i]).None? {
        assert d.propertyName(lines[i]).Some?;
      }
    case None =>
      match Scanner.Nearest(lines, cur, 0, d.className)
      case Some(i) =>
      case None =>
  }

  /**
   * `extractFunctionName`: up to 50 lines back from the match line for a
   * method or a property, then all the way back for a class.
   */
  method ExtractFunctionName(d: Declarations, lines: seq<string>, currentLine: nat) returns (name: string)
    requires currentLine < |lines|
    ensures name == FunctionName(d, lines, currentLine)
  {
    var i: int := currentLine;
    while i >= 0 && i > currentLine - 50
      invariant Scanner.WindowStart(currentLine) - 1 <= i <= currentLine
      invariant forall j :: i < j <= currentLine ==> Window(d)(lines[j]).None?
    {
      var line := lines[i];
      var methodMatch := d.methodName(line);
      if methodMatch.Some? {
        Scanner.ResolveWindow(lines, currentLine, Window(d), d.className, i);
        return methodMatch.value;
      }
      var propertyMatch := d.propertyName(line);
      if propertyMatch.Some? {
        Scanner.ResolveWindow(lines, currentLine, Window(d), d.className, i);
        return PropertyPrefix + propertyMatch.value;
      }
      i := i - 1;
    }
    i := currentLine;
    while i >= 0
      invariant -1 <= i <= currentLine
      invariant forall j :: i < j <= currentLine ==> d.className(lines[j]).None?
    {
      var classMatch := d.className(lines[i]);
      if classMatch.Some? {
        Scanner.ResolveClass(lines, currentLine, Window(d), d.className, i);
        return Scanner.ClassLevel + classMatch.value;
      }
      i := i - 1;
    }
    Scanner.ResolveUnknown(lines, currentLine, Window(d), d.className);
    return Scanner.Unknown;
  }

  /** The findings of one file's text against `patterns`. */
  function FileFindings(d: Declarations, matches: Scanner.Matcher, patterns: seq<Rule>, file: string, content: string): seq<Finding> {
    var lines := Scanner.Lines(content);
    Scanner.FileFindings(file, lines, |lines|, patterns, matches, Window(d), d.className)
  }

  /**
   * At most one finding per line and pattern, and every finding names a line
   * of the file.
   */
  lemma FileFindingsBounds(d: Declarations, matches: Scanner.Matcher, patterns: seq<Rule>, file: string, content: string)
    ensures var fs := FileFindings(d, matches, patterns, file, content);
      && |fs| <= |Scanner.Lines(content)| * |patterns|
      && forall k :: 0 <= k < |fs| ==> 1 <= fs[k].lineNum <= |Scanner.Lines(content)|
  {
    var lines := Scanner.Lines(content);
    Scanner.FileFindingsCount(file, lines, |lines|, patterns, matches, Window(d), d.className);
    Scanner.PairCountBound(lines, |lines|, patterns, matches);
  }

  /**
   * `analyzeFile`: every line against every pattern, in that order; a
   * matching pair gives one finding. `None` is a file that cannot be read,
   * which is logged and gives no findings.
   */
  method AnalyzeFile(d: Declarations, matches: Scanner.Matcher, patterns: seq<Rule>, file: string, content: Option<string>)
    returns (findings: seq<Finding>)
    ensures content.None? ==> findings == []
    ensures content.Some? ==> findings == FileFindings(d, matches, patterns, file, content.value)
  {
    findings := [];
    if content.None? {
      return;
    }
    var lines := JsText.Split(content.value, '\n');
    var index := 0;
    while index < |lines|
      invariant 0 <= index <= |lines|
      invariant findings == Scanner.FileFindings(file, lines, index, patterns, matches, Window(d), d.className)
    {
      var lineFindings := AnalyzeLine(d, matches, patterns, file, lines, index);
      Scanner.FileFindingsSnoc(file, lines, index, patterns, matches, Window(d), d.className);
      findings := findings + lineFindings;
      index := index + 1;
    }
  }

  /** The callback for line `index`: each pattern in turn, one finding per match. */
  method AnalyzeLine(d: Declarations, matches: Scanner.Matcher, patterns: seq<Rule>, file: string,
                     lines: seq<string>, index: nat)
    returns (findings: seq<Finding>)
    requires index < |lines|
    ensures findings == Scanner.LineFindings(file, lines, index, patterns, matches, Window(d), d.className)
  {
    findings := [];
    var line := lines[index];
    var k := 0;
    while k < |patterns|
      invariant 0 <= k <= |patterns|
      invariant findings == Scanner.LineFindings(file, lines, index, patterns[..k], matches, Window(d), d.className)
    {
      var pattern := patterns[k];
      if matches(pattern.regex, line) {
        var functionName := ExtractFunctionName(d, lines, index);
        findings := findings + [Finding(file, functionName, index + 1, JsText.Trim(line),
                                        pattern.category, pattern.severity, pattern.remediation)];
      }
      Scanner.LineFindingsSnoc(file, lines, index, patterns, matches, Window(d), d.className, k);
      k := k + 1;
    }
    Seqs.TakeAll(patterns);
  }

  /** The findings of the files `files`, read through `read`, in order. */
  function ProjectFindings(d: Declarations, matches: Scanner.Matcher, patterns: seq<Rule>,
                           files: seq<seq<string>>, read: seq<string> -> Option<string>): seq<Finding>
  {
    if files == [] then []
    else
      var file := files[|files| - 1];
      var content := read(file);
      ProjectFindings(d, matches, patterns, files[..|files| - 1], read)
        + (if content.None? then [] else FileFindings(d, matches, patterns, JsText.Join(file, '/'), content.value))
  }

  /**
   * `analyzeDotNetCode`: load the `dotnet` patterns once, find the `.cs`
   * files below the project root and concatenate their findings, each file
   * named by its path relative to the root. `read` gives a file's text, or
   * `None` when it cannot be read.
   */
  method AnalyzeDotNetCode(cache: Scanner.PatternCache, catalog: seq<Rule>, root: Scanner.Entry,
                           read: seq<string> -> Option<string>, d: Declarations, matches: Scanner.Matcher)
    returns (findings: seq<Finding>)
    requires cache.language == Language
    modifies cache
    ensures cache.patterns == if old(cache.patterns) == [] then RulesFor(catalog, Language) else old(cache.patterns)
    ensures findings == ProjectFindings(d, matches, cache.patterns,
                                        Scanner.FilesUnder(root, [], Extension, SkippedDirs), read)
  {
    cache.LoadPatterns(catalog);
    var patterns := cache.patterns;
    var csFiles := Scanner.FindFiles(root, [], Extension, SkippedDirs);
    findings := [];
    var i := 0;
    while i < |csFiles|
      invariant 0 <= i <= |csFiles|
      invariant cache.patterns == patterns
      invariant findings == ProjectFindings(d, matches, patterns, csFiles[..i], read)
    {
      var relativeFile := JsText.Join(csFiles[i], '/');
      var fileFindings := AnalyzeFile(d, matches, patterns, relativeFile, read(csFiles[i]));
      Seqs.PrefixOfPrefix(csFiles, i + 1);
      findings := findings + fileFindings;
      i := i + 1;
    }
    Seqs.TakeAll(csFiles);
  }

  /**
   * The search never enters `node_modules`, `bin`, `obj`, `.git`, `.vs` or
   * `packages`, and keeps only names ending in `.cs`; every such file reached
   * through readable directories off that list is found.
   */
  lemma FoundFiles(root: Scanner.Entry)
    ensures forall p :: p in Scanner.FilesUnder(root, [], Extension, SkippedDirs) ==>
      && p != []
      && JsText.EndsWith(p[|p| - 1], Extension)
      && forall k :: 0 <= k < |p| - 1 ==> p[k] !in SkippedDirs
    ensures forall c, rel :: root.Dir? && c in root.entries && Scanner.Reaches(c, rel, Extension, SkippedDirs) ==>
      rel in Scanner.FilesUnder(root, [], Extension, SkippedDirs)
  {
    Scanner.FilesUnderSound(root, [], Extension, SkippedDirs);
    forall c, rel | root.Dir? && c in root.entries && Scanner.Reaches(c, rel, Extension, SkippedDirs)
      ensures rel in Scanner.FilesUnder(root, [], Extension, SkippedDirs)
    {
      Scanner.FilesUnderComplete(root, [], Extension, SkippedDirs, c, rel);
      assert [] + rel == rel;
    }
  }
}
