# statelessor-api core, modelled in Dafny

statelessor-api looks for server-side state in C# and Java projects. This model covers its core:

- **Analyzers.** The .NET and Java analyzers walk a project tree and read each source file. They split each file into lines and test every line against every rule of the pattern catalog for their language. Each match becomes a finding. The finding records the file, the line number, the trimmed line and the rule's category, severity and remediation. It also names the enclosing unit. That unit is the nearest method (or, for .NET, property) declaration within 50 lines above the match. Failing that, it is the nearest class declaration anywhere above. Failing both, it is `Unknown`.
- **Analysis engine.** It turns a finding list into three things:
  - a complexity factor: 1.0 plus bonuses for file count, issue density, a high-severity majority and Java;
  - a summary that groups findings by the string key `category-severity-remediation`;
  - an action report that accumulates the remediation actions the catalog attaches to each finding's pattern.
- **CSV tracker.** It appends findings to a per-project CSV file and reads them back with a quote-aware field splitter.
- **Script generator.** It translates the catalog rules into the steps of standalone Bash and PowerShell analyzer scripts.

Modules:

- **Wrappers**: `Option`.
- **Seqs**: generic sequence lemmas.
- **JsText**: the JavaScript string built-ins the code relies on: `split`, `join`, `trim`, `includes`, `endsWith`, `parseInt`, number-to-text, and character doubling by `replace`.
- **Records**: `Finding`, `Rule` and the language filter.
- **Grouping**: first-occurrence order of keys and 1-based positions.
- **AnalysisEngine**: complexity factor, lookup tables, summary, details and stats.
- **ActionPlan**: the in-memory part of `generateActionReport`.
- **Scanner**:
  - the declaration search shared by both analyzers;
  - the line × rule finding specification;
  - `findFiles` over an abstract directory tree;
  - the pattern cache.
- **DotnetAnalyzer**, **JavaAnalyzer**: the language-specific resolvers and the loops of `analyzeFile`, `analyzeDotNetCode` and `analyzeJavaCode`.
- **CsvTracker**: the row format, `parseCSVLine`, `getFindings`, and a `Tracker` class whose `file` field is the CSV file.
- **ScriptGenerator**: `convertToGrepRegex`, `needsNegativeFilter`, PowerShell quoting and the per-language step lists.

Numbers:

- The complexity factor, action weights and effort scores are integers counting tenths.
- Base efforts and all the factor's bonuses are whole tenths. So `Math.round(base * factor * 10) / 10` is exactly `base * factor` in tenths.
- `Math.round(weight * factor * 10) / 10` for an action weight is `ScaleByFactor`, which rounds half up.

Regular expressions are not interpreted:

- A rule's test of a line is a parameter `matches(regexText, line)`.
- The declaration patterns are extractor functions from a line to an optional name.
- The script generator handles rule regexes as text, which is what the source does.

## Model

| member | source | states |
|---|---|---|
| AnalysisEngine.Filenames | utils/analysis-engine.js:41 | the set of file names holds exactly the file names that occur among the findings |
| AnalysisEngine.FilenamesCount | utils/analysis-engine.js:208-209 | there are no more distinct files than findings, and there are none exactly when there are no findings |
| AnalysisEngine.CountSeverity | utils/analysis-engine.js:58 | the count of a severity is at most the number of findings, and zero exactly when no finding has that severity |
| AnalysisEngine.SeverityCountsBound | utils/analysis-engine.js:210-212 | the high, medium and low counts together never exceed the number of findings |
| AnalysisEngine.AtLeastOne | utils/analysis-engine.js:53 | `Math.max(n, 1)` is at least 1 and at least n, and equals n when n is positive |
| AnalysisEngine.FileBonus | utils/analysis-engine.js:48-50 | exactly one bucket applies, with strict thresholds: over 100 files +0.5, 51..100 +0.3, 21..50 +0.1, 20 or fewer nothing |
| AnalysisEngine.DensityBonus | utils/analysis-engine.js:53-55 | +0.4 exactly when issues exceed 10 per file, +0.2 exactly when they exceed 5 but not 10, and nothing otherwise; files are counted as at least 1 |
| AnalysisEngine.SeverityBonus | utils/analysis-engine.js:58-60 | +0.3 exactly when high-severity findings are strictly more than half of max(issues, 1) |
| AnalysisEngine.FactorFromStats | utils/analysis-engine.js:45-65 | whatever the statistics, the factor lies between 1.0 and 2.3 |
| AnalysisEngine.ComplexityFactor | utils/analysis-engine.js:40-66 | the factor of any finding list and project type lies between 1.0 and 2.3 |
| AnalysisEngine.CalculateComplexityFactor | utils/analysis-engine.js:40-66 | the method's accumulator ends at the factor of the findings, so it lies between 1.0 and 2.3 |
| AnalysisEngine.FactorOfNoFindings | utils/analysis-engine.js:40-66 | an empty list scores 1.1 for a Java project and 1.0 for any other project type |
| AnalysisEngine.FactorJavaPoint | utils/analysis-engine.js:63 | for the same findings, a Java project scores exactly 0.1 more than any other project type |
| AnalysisEngine.PatternIdByCategory | utils/analysis-engine.js:146-158 | a listed category maps to its table entry; any other category maps to pattern id `1` |
| AnalysisEngine.BaseEffortForPattern | utils/analysis-engine.js:219-225 | a listed pattern id gets its table effort; any other id gets 15; every effort lies in 7..30 |
| AnalysisEngine.CategoryBaseEffort | utils/analysis-engine.js:168-169 | a category's base effort is one of 25, 10, 18, 15, 12; an unlisted category falls back to pattern `1` and so gets 25 |
| AnalysisEngine.UnscoredCategories | utils/analysis-engine.js:148-156 | Application, Database Connection and Configuration State map to pattern ids missing from the effort table and so get the default 15; a category whose pattern id is in the table never gets 15 |
| AnalysisEngine.ScaleByFactor | utils/analysis-engine.js:101 | the scaled weight is the product weight × factor rounded to the nearest tenth, half up |
| AnalysisEngine.KeyCollision | utils/analysis-engine.js:164 | two findings with different categories and severities can share a summary key, because the key is a hyphen-joined string |
| AnalysisEngine.SummaryOf | utils/analysis-engine.js:191 | the summary has one row per distinct key, so never more rows than findings |
| AnalysisEngine.SummaryRow | utils/analysis-engine.js:164-188 | row j has id j+1 and is the row of the j-th distinct key in first-occurrence order. Its detailIds are exactly the 1-based positions of the findings with that key, strictly increasing, and occurrences is their number. Category, severity, remediation and base effort come from the first such finding. effortScore is base effort × factor, whatever the count |
| AnalysisEngine.SummaryPartition | utils/analysis-engine.js:183-185 | finding i is listed in row j exactly when the finding's key is the row's key, so the detailIds partition 1..n |
| AnalysisEngine.SummaryKeysDistinct | utils/analysis-engine.js:164-166 | no two summary rows share a key |
| AnalysisEngine.SummaryFirstOccurrence | utils/analysis-engine.js:166-172 | rows are ordered by the position of their key's first finding |
| AnalysisEngine.SummaryCountsEveryFinding | utils/analysis-engine.js:183-184 | the occurrences of all rows sum to the number of findings |
| AnalysisEngine.SameKeyOneRow | utils/analysis-engine.js:164-185 | two findings with one key make a single row listing both, whose category is the first one's |
| AnalysisEngine.Detailed | utils/analysis-engine.js:193-202 | there is one detailed finding per finding |
| AnalysisEngine.DetailedCopies | utils/analysis-engine.js:193-202 | detailed finding i has id i+1 and carries exactly the fields of finding i |
| AnalysisEngine.StatsOf | utils/analysis-engine.js:207-215 | totalIssues is the number of findings; totalFiles is at most that and zero exactly when there are no findings; the severity counts do not exceed it |
| AnalysisEngine.GenerateSummaryAndDetails | utils/analysis-engine.js:160-217 | the loop over findings, which updates a keyed table in place, yields the summary, the details and the stats that the lemmas above characterise |
| ActionPlan.ActionsFor | utils/analysis-engine.js:86-89 | a finding whose category's pattern id has no catalog entry calls for no action |
| ActionPlan.Finalize | utils/analysis-engine.js:124-130 | a one-time record's final effort is its adjusted weight, with one total occurrence; any other record's final effort is adjusted weight × occurrences, with that many total occurrences |
| ActionPlan.ReportOf | utils/analysis-engine.js:78-130 | the report has one entry per distinct action id visited |
| ActionPlan.FoldShape | utils/analysis-engine.js:90-106 | the accumulated action map lists each visited action id once, in first-visit order |
| ActionPlan.RecordCounts | utils/analysis-engine.js:107-118 | an action's record lists one affected finding per visit, in visit order. Its occurrence count is the number of visits by a non-one-time action |
| ActionPlan.RecordFirst | utils/analysis-engine.js:92-106 | an action's record keeps the description, category, impact, base weight and sub-actions of the first action visited under its id. The weight is scaled by the factor |
| ActionPlan.ReportRow | utils/analysis-engine.js:78-130 | report entry j belongs to the j-th distinct action id. It was opened from that id's first action and lists every visit's finding. If it is one-time, its final effort is the adjusted weight with one occurrence. Otherwise it is adjusted weight × the number of recurring visits |
| ActionPlan.OneTimeNeverCounted | utils/analysis-engine.js:109-113 | an action id visited only by one-time actions keeps zero occurrences |
| ActionPlan.RecurringCountsAll | utils/analysis-engine.js:109-118 | an action id visited only by other actions counts one occurrence per affected finding |
| ActionPlan.AffectedPerVisit | utils/analysis-engine.js:114-118 | an action's affected findings grow by exactly one per visit, one-time or not |
| ActionPlan.UnmappedFindingAddsNothing | utils/analysis-engine.js:86-89 | appending a finding whose pattern id is missing from the catalog leaves the report unchanged |
| ActionPlan.ReportTotalEffort | utils/analysis-engine.js:139 | the report's `totalEffort` is the sum, over the distinct action ids in first-visit order, of each id's first action's weight scaled by the factor, taken once for a one-time action and once per recurring visit otherwise |
| ActionPlan.EntryEffort | utils/analysis-engine.js:124-127 | report entry j's final effort is what the j-th distinct action id earns from its first action and its recurring visits |
| ActionPlan.TotalEffortPrefix | utils/analysis-engine.js:139 | summing a report entry by entry gives the sum of what the entries' action ids earn |
| ActionPlan.GenerateActionReport | utils/analysis-engine.js:78-130 | the nested loops over findings and their actions build exactly the report the lemmas above characterise |
| ActionPlan.CountFinding | utils/analysis-engine.js:86-120 | handling one finding advances the action map by that finding's visits |
| ActionPlan.CountAction | utils/analysis-engine.js:91-118 | handling one action opens its record if new, counts the visit, and adds the id to the one-time set exactly when the action is one-time |
| Records.RulesFor | analyzers/dotnet-analyzer.js:19-21 | the filter keeps exactly the catalog rules of the language, drawn from the catalog |
| Records.RulesForConcat | analyzers/dotnet-analyzer.js:19-21 | the filter preserves catalog order: filtering a concatenation concatenates the filtered parts |
| Records.RulesForDisjoint | utils/script-generator.js:41-42 | no rule is in the lists of two different languages |
| Scanner.PatternCache.LoadPatterns | analyzers/dotnet-analyzer.js:14-23 | an empty cache is filled with the catalog's rules for its language; a non-empty cache is kept |
| Scanner.WindowStart | analyzers/dotnet-analyzer.js:117 | the declaration window covers at most 50 lines ending at the match line: down to line−49, never below 0 |
| Scanner.Nearest | analyzers/dotnet-analyzer.js:117-131 | a hit is the highest line in range with a declaration, with none between it and the top; no hit means no line in range has one |
| Scanner.ResolveWindow | analyzers/dotnet-analyzer.js:117-131 | the nearest window declaration above the match wins |
| Scanner.ResolveClass | analyzers/dotnet-analyzer.js:134-140 | with an empty window, the result is `ClassLevel: ` and the nearest class declaration anywhere above |
| Scanner.ResolveUnknown | analyzers/dotnet-analyzer.js:142 | with no declaration in the window and no class above, the result is exactly `Unknown` |
| Scanner.ResolveIgnoresLater | analyzers/dotnet-analyzer.js:115-143 | the resolver reads only lines at or above the match line |
| Scanner.ResolveWindowOnly | analyzers/dotnet-analyzer.js:117-131 | when the window holds a declaration, lines above the window do not matter |
| Scanner.LineFindings | analyzers/dotnet-analyzer.js:86-104 | one line yields one finding per matching rule, each with line number index+1 |
| Scanner.FileFindings | analyzers/dotnet-analyzer.js:83-106 | every finding of the first n lines has a line number in 1..n |
| Scanner.FileFindingsCount | analyzers/dotnet-analyzer.js:86-106 | a file yields exactly one finding per matching (line, rule) pair |
| Scanner.PairCountBound | analyzers/dotnet-analyzer.js:86-87 | there are at most lines × rules matching pairs |
| Scanner.FileFindingSound | analyzers/dotnet-analyzer.js:95-103 | every finding is emitted by a rule of the list that matches its line. It carries the trimmed line, the resolved unit and the rule's category, severity and remediation |
| Scanner.FileFindingComplete | analyzers/dotnet-analyzer.js:90-104 | every matching (line, rule) pair yields its finding |
| Scanner.FileFindingsOrdered | analyzers/dotnet-analyzer.js:86-106 | findings come in line order |
| Scanner.LineFindingsConcat | analyzers/dotnet-analyzer.js:90-104 | within a line, findings follow catalog order |
| Scanner.FilesUnderSound | analyzers/dotnet-analyzer.js:52-76 | every path found names a file with the extension, reached through no skipped directory |
| Scanner.FilesInListed | analyzers/dotnet-analyzer.js:67-68 | every file with the extension that a directory lists is found |
| Scanner.FilesInMember | analyzers/dotnet-analyzer.js:58-70 | whatever one entry of a listing contributes is among the files returned for the whole listing |
| Scanner.FilesOfReached | analyzers/dotnet-analyzer.js:62-69 | every file whose name ends in the extension and that an entry reaches, through readable directories not on the skip list, is found at any depth under its full path |
| Scanner.FilesUnderComplete | analyzers/dotnet-analyzer.js:52-76 | the converse of FilesUnderSound: every such file reached from the searched directory's entries is returned |
| Scanner.FilesInConcat | analyzers/dotnet-analyzer.js:58-70 | entries are visited depth-first in listing order |
| Scanner.SkippedDirEmpty | analyzers/dotnet-analyzer.js:62-66 | nothing is found under a directory on the skip list |
| Scanner.FindFiles | analyzers/dotnet-analyzer.js:52-76 | the recursive walk returns exactly the files the specification above describes; an unreadable directory contributes nothing |
| DotnetAnalyzer.WindowDecl | analyzers/dotnet-analyzer.js:121-130 | on one line the method name beats the property name, and a property becomes `Property: ` + its name |
| DotnetAnalyzer.NearestMethod | analyzers/dotnet-analyzer.js:117-124 | the nearest method declaration in the window, with no method or property between it and the match, names the unit |
| DotnetAnalyzer.NearestProperty | analyzers/dotnet-analyzer.js:127-130 | the nearest property declaration in the window (not also a method), with nothing closer, gives `Property: ` + its name |
| DotnetAnalyzer.NearestClass | analyzers/dotnet-analyzer.js:134-140 | when the window has no method or property, the nearest class line anywhere above gives `ClassLevel: ` + its name |
| DotnetAnalyzer.NoDeclaration | analyzers/dotnet-analyzer.js:142 | with no declaration found in either phase the unit is exactly `Unknown` |
| DotnetAnalyzer.NameKinds | analyzers/dotnet-analyzer.js:115-143 | every result is a window method name, a prefixed window property name, a prefixed class name above, or `Unknown` |
| DotnetAnalyzer.ExtractFunctionName | analyzers/dotnet-analyzer.js:115-143 | the two backward loops with early returns compute exactly the resolver specified above |
| DotnetAnalyzer.FileFindingsBounds | analyzers/dotnet-analyzer.js:83-87 | a file's findings number at most lines × patterns, and each line number lies in 1..lines |
| DotnetAnalyzer.AnalyzeFile | analyzers/dotnet-analyzer.js:78-113 | the nested loops produce exactly the file's findings; an unreadable file gives none |
| DotnetAnalyzer.AnalyzeLine | analyzers/dotnet-analyzer.js:89-105 | the inner loop produces exactly one line's findings, in pattern order |
| DotnetAnalyzer.AnalyzeDotNetCode | analyzers/dotnet-analyzer.js:25-50 | the cache is loaded once, and the findings are those of every found file in order, under its path relative to the root |
| DotnetAnalyzer.FoundFiles | analyzers/dotnet-analyzer.js:52-76 | found paths end in a `.cs` file and pass through none of node_modules, bin, obj, .git, .vs, packages; conversely every `.cs` file reached through readable directories off that list is found |
| JavaAnalyzer.WindowDecl | analyzers/java-analyzer.js:117-120 | a window hit is a method declaration on a line that contains neither `class` nor `interface` |
| JavaAnalyzer.NearestMethod | analyzers/java-analyzer.js:113-120 | the nearest qualifying method declaration in the window names the unit |
| JavaAnalyzer.TypeLineSkipped | analyzers/java-analyzer.js:118 | a method hit on a class or interface line is ignored, and the scan goes on to the line above |
| JavaAnalyzer.NearestClass | analyzers/java-analyzer.js:124-130 | when the window has no qualifying method, the nearest class line anywhere above gives `ClassLevel: ` + its name |
| JavaAnalyzer.NoDeclaration | analyzers/java-analyzer.js:132 | with no declaration found in either phase the unit is exactly `Unknown` |
| JavaAnalyzer.NameKinds | analyzers/java-analyzer.js:111-133 | every result is a bare window method name, a prefixed class name above, or `Unknown`; there is no property phase |
| JavaAnalyzer.ExtractFunctionName | analyzers/java-analyzer.js:111-133 | the two backward loops compute exactly the resolver specified above |
| JavaAnalyzer.FileFindingsBounds | analyzers/java-analyzer.js:79-83 | a file's findings number at most lines × patterns, and each line number lies in 1..lines |
| JavaAnalyzer.AnalyzeFile | analyzers/java-analyzer.js:74-109 | the nested loops produce exactly the file's findings; an unreadable file gives none |
| JavaAnalyzer.AnalyzeLine | analyzers/java-analyzer.js:85-101 | the inner loop produces exactly one line's findings, in pattern order |
| JavaAnalyzer.AnalyzeJavaCode | analyzers/java-analyzer.js:21-46 | the cache is loaded once, and the findings are those of every found file in order, under its path relative to the root |
| JavaAnalyzer.FoundFiles | analyzers/java-analyzer.js:48-72 | found paths end in a `.java` file and pass through none of node_modules, target, build, .git, .idea, out; conversely every `.java` file reached through readable directories off that list is found |
| JsText.Trim | analyzers/dotnet-analyzer.js:99 | the trimmed line neither starts nor ends with whitespace, and is empty exactly when the line is blank |
| JsText.Split | analyzers/dotnet-analyzer.js:83 | splitting gives one more piece than there are separators, and no piece contains the separator |
| JsText.JoinSplit | analyzers/dotnet-analyzer.js:83 | joining the pieces with the separator gives back the text |
| JsText.SplitAfter | utils/csv-tracker.js:34 | text before the first separator is the first piece |
| JsText.Double | utils/csv-tracker.js:23 | doubling a quote character adds one character per occurrence |
| JsText.UndoubleDouble | utils/csv-tracker.js:23 | un-doubling a doubled text recovers it |
| JsText.ParseIntDecimal | utils/csv-tracker.js:43 | `parseInt` of a line number's decimal text gives the number back |
| JsText.ParseIntNoDigits | utils/csv-tracker.js:43 | `parseInt` of a field that, after white space and a sign, does not start with a digit (an empty field included) is NaN (None) |
| CsvTracker.Rows | utils/csv-tracker.js:22-24 | there is one row per finding, in order |
| CsvTracker.ScanCount | utils/csv-tracker.js:60-79 | the splitter yields one field more than the commas it sees outside quotes |
| CsvTracker.FieldCount | utils/csv-tracker.js:55-80 | a line always has at least one field, and exactly 1 + the commas outside quotes |
| CsvTracker.ParseCsvLine | utils/csv-tracker.js:55-80 | the character loop with its quote state computes exactly the fields of the line |
| CsvTracker.ScanDoubled | utils/csv-tracker.js:63-69 | inside quotes, each doubled `"` yields one `"`, and the closing quote ends the quoted part |
| CsvTracker.ScanEncoded | utils/csv-tracker.js:22-24 | comma-joined quoted cells, with their own quotes doubled, split back into the original values |
| CsvTracker.CellsEncoded | utils/csv-tracker.js:23 | for a storable finding, every cell of the row is its field text with quotes doubled and then quoted; the four undoubled fields hold no quote, so leaving them as they are changes nothing |
| CsvTracker.RowRoundTrip | utils/csv-tracker.js:22-24 | a storable finding's row splits back into its seven fields, with the line number as its decimal text |
| CsvTracker.RecordRoundTrip | utils/csv-tracker.js:38-49 | reading a storable finding's row gives back the finding, with the line number parsed |
| CsvTracker.RowNoNewline | utils/csv-tracker.js:22-24 | a storable finding's row is a single line |
| CsvTracker.AddNothing | utils/csv-tracker.js:26-28 | adding no findings to an existing file leaves it unchanged |
| CsvTracker.AddToAbsent | utils/csv-tracker.js:11-28 | writing findings to an absent file gives the header followed by their rows |
| CsvTracker.AddKeeps | utils/csv-tracker.js:19-29 | appending keeps every earlier row, and the file then holds the old findings followed by the new ones |
| CsvTracker.ReadBack | utils/csv-tracker.js:31-53 | a file written by the tracker reads back as its storable findings, in order |
| CsvTracker.AppendRoundTrip | utils/csv-tracker.js:19-53 | after two additions to a fresh tracker, reading gives the first batch then the second |
| CsvTracker.HeaderOnly | utils/csv-tracker.js:34-36 | a file holding only the header reads as no findings |
| CsvTracker.Tracker.constructor | utils/csv-tracker.js:5-9 | a tracker starts on the project's file as it is, present or not |
| CsvTracker.Tracker.InitializeCsv | utils/csv-tracker.js:11-17 | the header is written only when the file is absent; an existing file is untouched |
| CsvTracker.Tracker.AddFindings | utils/csv-tracker.js:19-29 | the file becomes the old content (or the header, if absent) followed by the new rows |
| CsvTracker.Tracker.GetFindings | utils/csv-tracker.js:31-53 | the result is the records of the current file's content; none when it cannot be read |
| ScriptGenerator.NoSpaceEscapeLeft | utils/script-generator.js:24 | after the rewrite no `\s` remains |
| ScriptGenerator.ReplaceWithoutEscape | utils/script-generator.js:24 | text without `\s` is unchanged by the rewrite |
| ScriptGenerator.RemoveLookaheads | utils/script-generator.js:28 | lookahead removal never lengthens the text |
| ScriptGenerator.RemoveOnlyDeletes | utils/script-generator.js:28 | lookahead removal only deletes characters: the result is a subsequence of the input |
| ScriptGenerator.RemoveWithoutLookahead | utils/script-generator.js:28 | text without `(?!` is unchanged by lookahead removal |
| ScriptGenerator.RemoveGroup | utils/script-generator.js:28 | a `(?!` group is deleted up to its nearest `)` and removal continues after it |
| ScriptGenerator.ConvertToGrepRegex | utils/script-generator.js:19-31 | `\s` is rewritten first and the lookahead groups are then only deleted (ConvertDeletes, RemoveGroup); a rule with neither is returned unchanged (ConvertPlain) |
| ScriptGenerator.NeedsNegativeFilterAsWritten | utils/script-generator.js:33-37 | as written, the filter is a non-empty `)`-free body closed after a literal `(?!..*`, present exactly when one exists (NegativeFilterAsWrittenSpec); the documented rule gets none (AsWrittenMissesDocumentedRule) |
| ScriptGenerator.NeedsNegativeFilter | utils/script-generator.js:33-37 | as intended, the filter is a non-empty `)`-free body closed after `(?!.*`, present exactly when one exists (NegativeFilterSpec); the documented rule gets `readonly` (IntendedCatchesDocumentedRule) |
| ScriptGenerator.GrepStepOf | utils/script-generator.js:44-47 | a rule's Bash step greps for the converted rule and filters with the as-written filter; for the documented rule it filters nothing (DocumentedRuleStep) |
| ScriptGenerator.IntendedGrepStepOf | utils/script-generator.js:44-47 | the same step with the corrected filter; for the documented rule it filters out `readonly` lines and greps the same expression (DocumentedRuleStep) |
| ScriptGenerator.ConvertPlain | utils/script-generator.js:19-31 | a rule with neither `\s` nor `(?!` is returned unchanged |
| ScriptGenerator.ConvertDeletes | utils/script-generator.js:24-28 | the space rewrite happens first, and the lookahead step only deletes from its result |
| ScriptGenerator.ConvertDocumentedRule | utils/script-generator.js:27-28 | the documented rule `public\s+static(?!.*readonly).*=` becomes `public[[:space:]]+static.*=` |
| ScriptGenerator.NegativeFilterSpec | utils/script-generator.js:33-37 | the corrected filter is present exactly when a non-empty `)`-free body follows `(?!.*` and is closed. It is then such a body. Without `(?!.*` it is absent |
| ScriptGenerator.NegativeFilterAsWrittenSpec | utils/script-generator.js:33-37 | as written, the filter is present exactly when a non-empty `)`-free body follows the literal `(?!..*` and is closed. It is then such a body. Without `(?!..*` it is absent |
| ScriptGenerator.AsWrittenMissesDocumentedRule | utils/script-generator.js:35 | as written, the filter finds nothing in the documented rule |
| ScriptGenerator.IntendedCatchesDocumentedRule | utils/script-generator.js:27 | as intended, the documented rule's filter is `readonly` |
| ScriptGenerator.PowerShellEscape | utils/script-generator.js:123 | escaping grows the text by exactly its number of single quotes |
| ScriptGenerator.PowerShellEscapeRoundTrip | utils/script-generator.js:123 | un-doubling the escaped text gives back the rule |
| ScriptGenerator.BashSteps | utils/script-generator.js:41-70 | there is one Bash step per rule of the language, in catalog order, carrying its grep expression and the negative filter as the source computes it |
| ScriptGenerator.DocumentedRuleStep | utils/script-generator.js:44-59 | for the documented rule the generated Bash step greps for `public[[:space:]]+static.*=` with no negative filter; the intended step greps for the same and filters out `readonly` |
| ScriptGenerator.PowerShellSteps | utils/script-generator.js:117-132 | there is one PowerShell step per rule of the language, in catalog order, carrying its escaped text |
| ScriptGenerator.PowerShellStepsRecover | utils/script-generator.js:123 | every PowerShell step un-escapes to its rule's regex |
| ScriptGenerator.BashStepsConcat | utils/script-generator.js:41-44 | the steps of a concatenated catalog are the concatenated steps |
| ScriptGenerator.OtherLanguagesDropped | utils/script-generator.js:41-42 | a rule of any language other than dotnet and java gets no step |
| Grouping.Order | utils/analysis-engine.js:166 | the key order holds each key that occurs exactly once |
| Grouping.Positions | utils/analysis-engine.js:185 | a key's positions are 1-based indices of its findings, and there are some exactly when the key occurs |
| Grouping.PositionsIncreasing | utils/analysis-engine.js:185 | positions are listed in strictly increasing order |
| Grouping.GroupSizesSum | utils/analysis-engine.js:184 | the group sizes over the key order sum to the number of keys |
| Grouping.Partition | utils/analysis-engine.js:183-185 | every index is in its key's group, and no position is in two groups |
| Grouping.FirstOccurrenceOrder | utils/analysis-engine.js:166 | keys are ordered by their first position |

## Left out

- `detectProjectType`, `loadRemediationActions`, rule and template file reads, the action report file write, and the CSV file system calls. These are file I/O. The remediation catalog and the rule catalog are parameters. The CSV file is a string field that is absent until created. A failed read is an absent file or directory, which yields nothing, as the source's catch paths do.
- The report's date and the JSON layout of the written file. They exist only in the report file write; the `totalEffort` sum is modelled by `ActionPlan.TotalEffort`.
- Template substitution into the script files, including the `$` patterns of `String.prototype.replace`. The Bash and PowerShell text around each step is not modelled.
- Floating point. The factor, weights and effort scores are integer tenths. Catalog weights are assumed to be whole tenths.
- AnalysisEngine.ScaleByFactor: rounds half up (toward positive infinity), as `Math.round` does, on exact tenths. The binary rounding error of a float product near a half is not modelled.
- Regular expression semantics. Rule matching and the declaration patterns are uninterpreted parameters. A rule regex that throws when compiled is not modelled.
- `path.join` and `path.relative` normalisation. A path is a sequence of names, and a relative path is the names below the root joined by `/`.
- Fields that are `undefined` in the source: a finding's missing code or remediation, a catalog action without `subActions`, and JavaScript prototype keys looked up in the lookup tables. Findings carry all seven strings. Missing sub-actions become an empty list.
- CsvTracker.RowRoundTrip: holds only for findings without `"` in the four undoubled fields and without newlines in any field. Other findings do not read back, which is the source's behaviour.
- `async`/`await`, logging, `enrichFindings` (a delegation to `generateSummaryAndDetails`), `server.js` and `utils/logger.js`.

## Findings

| source | as written | input that shows it | evidently intended | confidence | as-written member | corrected member |
|---|---|---|---|---|---|---|
| utils/script-generator.js:35 | the negative-filter pattern requires the literal text `(?!..*` (two dots) before the captured body | the rule `public\s+static(?!.*readonly).*=`, documented at utils/script-generator.js:27, yields no filter | capture after `(?!.*`, giving `readonly` for that rule, so the Bash step filters out read-only fields | not executed | ScriptGenerator.AsWrittenMissesDocumentedRule | ScriptGenerator.IntendedCatchesDocumentedRule |

The Bash steps (`ScriptGenerator.GrepStepOf`, `ScriptGenerator.BashSteps`) use the filter as written, as the generator does. `ScriptGenerator.IntendedGrepStepOf` is the same step with the corrected `NeedsNegativeFilter`.
