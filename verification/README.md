# Verified models of the pqcota gates, demo generators and site tools

This project models the text- and graph-processing cores of the repository and proves what they are for.

- **Prose gate** (`tools/checkprose`): masking, hiding of overlap words, reporting of hits, and the printed baseline
  that decides pass or fail. Go strings are sequences of bytes, read by the UTF-8 rules of section 3 of RFC 3629; a
  regular expression is a finder that returns sorted, disjoint spans. Modules `Text`, `Utf8`, `Lines`, `ProseMask`,
  `ProseOverlap`, `ProseMatch`, `ProseDrift`, `ProseShipped`, `Numbers`, `ProseBaseline`, `Trimming`, `ProseLines`,
  `ProseEntries`.
- **Import-direction gate** (`tools/checkdeps`): the rule file, the stable sort and longest-prefix classifier, the
  per-file checker, what its silence means for import paths of any length, and the shipped rule file, parsed. Modules
  `Str`, `DepsConfig`, `DepsCheck`, `DepsHidden`, `DepsRulesFile`, `DepsShipped`, `DepsTestdata`, `DepsAreas`,
  `DepsLines`, `DepsFiles`.
- **Video timeline** (`demo/recording/build.py`): clips of recordings assembled at given speeds, and captions mapped
  from recording time to video time, rounded and printed. Times are exact reals. Modules `Timeline`, `Captions`.
- **Topology generator** (`demo/topology/topogen`): one specification printed as an inventory, a shell file and a
  compose file, and what the scripts read back. Modules `Topology`, `Traffic`, `Manifest`, `Compose`.
- **Site tools** (`tools/site`): the page parser as a machine over HTML events against a document tree, the links the
  assembler writes against the resolver of the checker, and the language switch. Modules `SiteChecker`, `Paths`,
  `SiteLinks`, `SiteText`, `LangSwitch`, `LangText`, `LangLaid`, `LangAttribute`, `LangRuns`, `LangShipped`.
- **Document gate** (`tools/checkdocs`): empty sections, the skeleton two translations share, and heading anchors.
  Modules `DocSections`, `DocLines`, `DocSlug`, `DocSlugText`.

Loops and objects that change step by step are methods and classes proved against specification functions; the
properties are lemmas about those functions. Check the whole project with `dafny verify dfyconfig.toml`.

## Where the code falls short of what it says

Each of these is proved, with the exact condition under which the claim does hold.

- The comment of `hideOverlap` says the replacement has the same number of bytes. It takes three bytes a rune, so a
  word with spaces grows by two bytes a space, and length is kept exactly by level lists
  (`ProseOverlap.HideKeepsLengthIffLevel`). For any other list a match is reported with the right line number but the
  offset used on the original has drifted by the growth of the lines before it: the excerpt is of the line that offset
  falls on, and `excerpt` panics past the end (`ProseDrift.DriftedOutcome`). A plain list that leaves some Hangul
  syllable out of every word is reported on faithfully, for all files and rules, if and only if it is level
  (`ProseDrift.FaithfulIffLevel`). The shipped list has three words with a space, so it is not
  (`ProseShipped.ShippedListIsNotFaithful`, `ProseShipped.ShippedListCanPanic`).
- The import gate skips `testdata`, so a package can reach an area it may not import through a testdata package that
  someone imports, under the shipped rule file too (`DepsTestdata.TestdataHidesAnImport`). Given a silent gate and
  closed rows, every import path from outside testdata is layered, whatever testdata holds, if and only if no measured
  file outside testdata imports a testdata package (`DepsHidden.GateVouchesIff`, `DepsShipped.ShippedGateVouchesIff`).
- Modules are tried in the order of the list, so a module within another makes that order matter: all orders of the
  list resolve every path alike if and only if no module lies within another (`DepsConfig.ModuleOrderIff`).
- A topology may declare no networks and still name some; the compose file then joins undeclared networks
  (`Compose.ClosedIff`, `Compose.UndeclaredNetworkIsAccepted`). A node may be called like a tool service
  (`Compose.NamesDistinctIff`, `Compose.ToolNameIsAccepted`). A node called `esac` is accepted and makes the shell file
  a syntax error (`Manifest.ManifestSources`, `Manifest.EsacIsAccepted`). The printed inventory declares every group it
  names if and only if there are nodes of both kinds (`Traffic.ChildGroupsDeclaredIff`, `Traffic.JavaOnlyLacksAGroup`).
- `ko_link` and `en_link` cut `index.md` off every name that ends in it, also off `myindex.md`
  (`SiteLinks.LanguageLinkResolvesIff`, `SiteLinks.MyIndexIsMissed`). Pages under `architectures/` are skipped by the
  language switch, their Korean twins are not (`LangSwitch.SwitchIsMutualIff`, `LangSwitch.ArchitecturesAreOneWay`).
  The switch links directories, so it misses any page that is not an index page (`LangSwitch.SwitchLeadsToTwinIff`,
  `LangSwitch.PageMissesItsTwin`).
- The language switch says that running it again gives the same result. It does, for pages of either language, if and
  only if stripping leaves the page settled: no switch marker before the end of the body, none with an end after it,
  and no style on either side (`LangRuns.SecondRunIff`). Fresh pages and pages a run has left are settled
  (`LangRuns.RunsStaySettled`); a page with a switch inside a broken marker is not (`LangShipped.SecondRunCanDiffer`).
- The page parser pops a block at an end tag only, and HTML lets some be left out. It ends with the chrome depth and
  the number of open blocks it began with if and only if the page closes what it opens (`SiteChecker.RestoredIff`,
  `SiteChecker.PageClosesIff`); else a link can stay in a block that never closes
  (`SiteChecker.UnclosedBlockKeepsItsLink`).
- An anchor a document writes itself passes the anchor check only when it is spelt as a slug
  (`DocSlug.ExplicitAnchorPassesIff`, `DocSlug.UnderscoreAnchorFails`).

## Model

| member | source | states |
|---|---|---|
| ProseMask.MaskMarkdown | tools/checkprose/main.go:424-440 | the line-by-line pass with its fence flag computes the mask whose bytes `MarkdownMaskIsPointwise` describes |
| ProseMask.MarkdownMaskIsPointwise | tools/checkprose/main.go:424-448 | byte by byte: blank on fence lines and after an odd number of them, filler inside paired backtick spans of other lines, unchanged elsewhere; lines keep their lengths and no newline moves |
| ProseMask.MarkdownMaskIdempotent | tools/checkprose/main.go:424-448 | masking a masked document changes nothing |
| ProseLines.FenceLineIff | tools/checkprose/main.go:408 | a fence line is ASCII white space, three backticks or three tildes, and anything |
| ProseLines.FencesAreCounted | tools/checkprose/main.go:424-440 | the flag that opens and closes fences is the parity of the number of fence lines so far |
| ProseMask.MaskShell | tools/checkprose/main.go:459-467 | a line that starts with # after blanks becomes blanks of its length, every other line stays, and no newline moves |
| ProseLines.CommentLineIff | tools/checkprose/main.go:462 | a comment line is white space of any kind, a hash, and anything, valid UTF-8 or not |
| Trimming.TrimSpaceIff | tools/checkprose/main.go:395 | for any bytes, valid UTF-8 or not, the trimmed text is the one that neither begins nor ends with one of the 25 white-space characters and had only such characters around it |
| ProseMask.FillKeepNewlines | tools/checkprose/main.go:469-479 | in place, exactly the bytes of the span that are no newline become filler |
| ProseMask.MaskHtml | tools/checkprose/main.go:450-457 | code blocks first, then comments of the result, become filler; every other byte and every newline stays |
| ProseMask.MaskGo | tools/checkprose/main.go:481-525 | newlines and the literals that hold Hangul stay, every other byte becomes a blank |
| ProseOverlap.HideOverlap | tools/checkprose/main.go:379-384 | the loop over the words, empty ones skipped, computes the hidden text the lemmas below describe |
| ProseOverlap.HideLeavesNoWord | tools/checkprose/main.go:377-384 | afterwards no plain word of the list occurs anywhere, not even one joined by a later replacement |
| ProseOverlap.HideKeepsLines | tools/checkprose/main.go:377-384 | for words without newlines, the lines of the hidden text are the hidden lines, whatever the byte counts do |
| ProseOverlap.HideLength | tools/checkprose/main.go:377-384 | the length changes by exactly three bytes a rune less the word's own bytes, summed over the replaced occurrences |
| ProseOverlap.HideKeepsLengthIffLevel | tools/checkprose/main.go:377-384 | a list of plain words keeps the length of every text if and only if each of its words takes three bytes a rune or is never reached |
| ProseOverlap.LevelKeepsNewlines | tools/checkprose/main.go:377-384 | under such a list every newline stays at its byte |
| ProseMatch.Match | tools/checkprose/main.go:336-356 | the hits, or the panic, of all rules over the hidden text, in rule and match order |
| ProseMatch.LineAtIsItsLine | tools/checkprose/main.go:359-366 | the slice between the newlines around an offset is the line that the newline count before it names |
| Utf8.HasHangulIff | tools/checkprose/main.go:368-375 | a text has Hangul exactly when one of its runes lies between U+AC00 and U+D7A3 |
| Utf8.HangulOccursIff | tools/checkprose/main.go:368-375 | for valid text, exactly when the three bytes of some syllable occur in it |
| ProseMatch.MatchIsFaithful | tools/checkprose/main.go:336-401 | with a level list `match` never panics, and it reports exactly the matches whose line has Hangul after hiding, each with the number and the excerpt of the original line that holds it; `ProseDrift.FaithfulIffLevel` is the other half |
| ProseDrift.ScanMarkdown | tools/checkprose/main.go:278-282 | the Markdown branch end to end, for any list: the file is masked, the mask hidden, and the outcomes of all matches collected, which `DriftedOutcome` describes one by one; every hit is on a hidden line that has a Hangul syllable |
| ProseDrift.HitsAreOnHangulLines | tools/checkprose/main.go:336-356 | `match` reports nothing on a line of the hidden text without a Hangul syllable, for any rules |
| ProseMatch.ShortenIsAnExcerpt | tools/checkprose/main.go:387-401 | for any bytes, the shown text is the trimmed line, or, above 80 runes, the prefix of it that holds exactly its first 80 runes, with malformed bytes replaced, and an ellipsis; a well-formed prefix stays as it is |
| ProseDrift.HiddenLineNumbers | tools/checkprose/main.go:336-384 | for every word list without newlines, an offset on line k of the hidden text counts as line k, and the line cut around it is that hidden line |
| ProseMatch.ExcerptIsOfItsLine | tools/checkprose/main.go:387-401 | an excerpt is cut from the original's line at that offset, and panics exactly past the end of the original |
| ProseDrift.DriftedOffset | tools/checkprose/main.go:345-352 | the offset of a column of a hidden line is on that line of the original exactly when the column plus the growth of the lines before it stays inside the line |
| ProseDrift.DriftedOutcome | tools/checkprose/main.go:336-401 | for every list without newlines, what becomes of a match at a column of line k: nothing when the hidden line has no Hangul; else a panic exactly when the drifted offset is past the end; else a report with number k + 1 and the excerpt of the original's line that the offset falls on, which is line k exactly when the drifted column stays inside line k |
| ProseDrift.MatchIsExact | tools/checkprose/main.go:336-356 | `match` panics exactly when some match of some rule does, and otherwise reports exactly the hits its matches become |
| ProseDrift.FaithfulIffLevel | tools/checkprose/main.go:336-401 | a plain list that leaves some Hangul syllable out of every word is faithful for all files, masks and rules if and only if it is level |
| ProseShipped.ShippedIsPlain | tools/checkprose/overlap.txt:12-29 | every shipped word is plain, and grows by two bytes a space |
| ProseShipped.HangulWordGrows | tools/checkprose/main.go:377-384 | any word of Hangul syllables and spaces is plain and grows by two bytes a space |
| ProseShipped.ShippedListMovesBytes | tools/checkprose/overlap.txt:19 | the shipped list is not level: some text changes length |
| ProseShipped.ShippedListIsNotFaithful | tools/checkprose/overlap.txt:12-29 | with the shipped list some file gets a hit with the wrong text, or a panic |
| ProseShipped.ShippedListCanPanic | tools/checkprose/main.go:387-390 | a line on which a hit past two spaced words makes `excerpt` panic |
| ProseBaseline.Tally | tools/checkprose/main.go:534-540 | the counts of the hits by rule and file, adding up to the number of hits |
| ProseEntries.CountIsCardinality | tools/checkprose/main.go:534-540 | the count of a key is the number of hits with that rule and file |
| ProseBaseline.TotalSplit | tools/checkprose/main.go:534-540 | the total of a count map is any key's count and the total of the rest |
| ProseBaseline.SortedKeys | tools/checkprose/main.go:608-620 | the keys, once each, by file and then rule |
| ProseBaseline.WriteBaseline | tools/checkprose/main.go:542-550 | two comment lines, then every key in order with its count |
| ProseBaseline.ReadBaseline | tools/checkprose/main.go:552-574 | blank and comment lines are passed over, and a malformed line or number fails the whole read |
| ProseEntries.PassedIff | tools/checkprose/main.go:559-562 | a line is passed over exactly when it is white space of any kind followed by a hash or by nothing |
| ProseEntries.AtoiIff | tools/checkprose/main.go:567 | a number is read exactly when it is figures, with a sign or none, whose value fits in 64 bits |
| ProseEntries.EntryIff | tools/checkprose/main.go:559-571 | any other line is an entry exactly when it is a number, a rule and a file between two tabs, and else it is refused |
| ProseEntries.ReadIff | tools/checkprose/main.go:552-574 | a file is refused exactly when one of its lines is; otherwise a key has the count of the last entry about it, and no other key has one |
| ProseBaseline.EntryRoundTrip | tools/checkprose/main.go:542-574 | one printed line is one line, and reads back as its rule, file and count, for any 64-bit count |
| ProseBaseline.BaselineRoundTrip | tools/checkprose/main.go:542-574 | reading what was printed gives back precisely the counts, for any comment header |
| ProseBaseline.HeadsAreComments | tools/checkprose/main.go:134-147 | the header is two comment lines whatever the directory is called, since its name is quoted |
| ProseEntries.RerunNames | tools/checkprose/main.go:183-189 | the way to rewrite it names the directory, quoted, exactly when it is not the default one |
| ProseEntries.ZeroPrints | tools/checkprose/main.go:542-550 | zero is printed as one figure, without a sign |
| ProseBaseline.Compare | tools/checkprose/main.go:578-606 | grown and shrunk lists over the sorted union of keys, both empty exactly when the maps agree with default zero |
| ProseBaseline.ListsAreExact | tools/checkprose/main.go:578-606 | each key is listed exactly when its counts differ in that list's direction, with both counts, in key order |
| ProseBaseline.CompareDecides | tools/checkprose/main.go:578-606 | both lists are empty if and only if the counts agree on every key |
| ProseBaseline.CompareConserves | tools/checkprose/main.go:578-606 | the total now less the total of the baseline is what grew less what shrank |
| ProseBaseline.Run | tools/checkprose/main.go:130-171 | with the write flag the new baseline and code 0, otherwise code 0 exactly when the baseline reads and agrees |
| ProseBaseline.BaselineIsAFixpoint | tools/checkprose/main.go:130-171 | after a baseline run a gate run passes if and only if it counts the same for every rule and file |
| DepsConfig.StableSortSorts | tools/checkdeps/main.go:144-150 | the sorted classes descend in prefix length, and on equal length those with a repository come first |
| DepsConfig.StableSortPermutes | tools/checkdeps/main.go:141-150 | the sort keeps every class as often as it was |
| DepsConfig.StableSortIsStable | tools/checkdeps/main.go:144-150 | classes with equally long prefixes that both have a repository, or both have none, keep their order in the file |
| DepsConfig.SortedScanFindsBest | tools/checkdeps/main.go:141-181 | the first applicable class of the sorted list is the best one of the file |
| DepsConfig.ClassifierIsLongestPrefix | tools/checkdeps/main.go:144-181 | `areaIn` gives the area of a class that applies and is best among those that apply: no other has a longer prefix, none as long is qualified when it is not, and of equal ones it is the first; none when nothing applies or for the root |
| DepsConfig.OrderDoesNotMatter | tools/checkdeps/main.go:141-181 | when no repository and prefix pair repeats, any order of the class lines classifies alike |
| DepsConfig.PrefixIsSegmentPrefix | tools/checkdeps/main.go:170-181 | a prefix test on slashed paths is a prefix test on path segments |
| DepsLines.SlashedIs | tools/checkdeps/main.go:171 | a directory is classified without the slashes around it and with one slash after it |
| Str.PrefixIff | tools/checkdeps/main.go:176 | a prefix is what something can follow to give the text |
| DepsConfig.ResolveImport | tools/checkdeps/main.go:155-166 | the scan over modules computes the resolution the next two lemmas describe |
| DepsConfig.RelOfIsInside | tools/checkdeps/main.go:155-166 | a path is resolved inside a module that holds it, and unresolved only when none does |
| DepsLines.InsideIs | tools/checkdeps/main.go:155-166 | a path below a module resolves to what follows its slash, in the repository that the last segment of the module names |
| DepsConfig.ModuleOrderDoesNotMatter | tools/checkdeps/main.go:155-166 | when no module is a segment prefix of another, the order of the modules does not matter |
| DepsConfig.ModuleOrderIff | tools/checkdeps/main.go:155-166 | all orders of the modules, that is all lists with each as often, resolve every path alike if and only if no module lies within another |
| DepsConfig.LoadConfig | tools/checkdeps/main.go:65-150 | loading succeeds exactly on a well-formed file, and then holds the file's rules with its classes in search order; otherwise it names the first bad line, or, only when no line is bad, inconsistent rules |
| DepsLines.IgnoredIff | tools/checkdeps/main.go:74-77 | a line says nothing exactly when it is white space of any kind or starts with a hash |
| DepsLines.ClassLineIff | tools/checkdeps/main.go:80-95 | any other line is a class line exactly when it is the keyword, a field and the area between tabs, the field being a prefix with a slash at its end, alone or after a repository and a colon |
| DepsLines.AllowLineIff | tools/checkdeps/main.go:96-106 | and an allow line exactly when it is the keyword, the area, the list of areas, the rule and a hint or none, the list being cut at commas and trimmed |
| DepsLines.BareLineIff | tools/checkdeps/main.go:108-114 | and a bare line exactly when it is the keyword and the area; every other line is refused |
| DepsLines.SilentLinesDoNotMatter | tools/checkdeps/main.go:72-115 | comments and blank lines change neither the classes, the allow rows and the bare areas of a file nor whether a line is refused, wherever they stand |
| DepsCheck.Check | tools/checkdeps/main.go:188-261 | the findings of every measured file in order, each unclassified directory once, none for testdata, and failure for a file that does not parse; `FindingsAreDue` says which, and `CheckImports` counts the imports |
| DepsCheck.CheckFile | tools/checkdeps/main.go:193-256 | one file: classification, bare-directory rules and import findings |
| DepsCheck.CheckImports | tools/checkdeps/main.go:233-255 | the findings of a file's imports, and how many of them are internal |
| DepsFiles.InTestdataIff | tools/checkdeps/main.go:263-270 | a file is skipped exactly when testdata stands as a whole segment in its directory, at any depth |
| DepsFiles.BareFileIff | tools/checkdeps/main.go:210 | a bare area may hold doc.go and the files whose names end in _test.go |
| DepsFiles.InternalIsCardinality | tools/checkdeps/main.go:237-241 | the count is the number of imports that lie in some measured module |
| DepsFiles.ShownIs | tools/checkdeps/main.go:243-245 | the path of another repository is shown below its name, and the own one as it is |
| DepsCheck.SilenceMeansOk | tools/checkdeps/main.go:188-261 | the gate reports nothing if and only if every measured file is in order |
| DepsCheck.FindingsAreDue | tools/checkdeps/main.go:188-261 | the check fails exactly when a file it has to read cannot be read; otherwise it reports exactly the findings that are due: an unclassified directory at its first file, a stray file in a bare area, a missing comment or a declaration in doc.go, and each unclassified or forbidden import as shown |
| DepsCheck.EdgeIsAllowed | tools/checkdeps/main.go:188-261 | a silent gate puts every import in the allow row of its importer |
| DepsCheck.PathsAreLayered | tools/checkdeps/main.go:188-261 | with closed rows, the same holds along import paths of any length outside testdata, across repositories |
| DepsCheck.PathStaysOut | tools/checkdeps/main.go:193-196 | when no measured file outside testdata imports a testdata package, an import path that starts outside stays outside |
| DepsCheck.AllPathsAreLayered | tools/checkdeps/main.go:188-261 | then every import path from outside testdata is layered, with no condition on the packages along it; `DepsHidden.AlwaysLayeredIff` is the converse |
| DepsHidden.AlwaysLayeredIff | tools/checkdeps/main.go:188-261 | with closed rows and a silent gate, every import path from outside testdata is layered for all contents of testdata if and only if no measured file outside testdata imports a testdata package |
| DepsHidden.GateVouchesIff | tools/checkdeps/main.go:293-330 | the same for the configuration of any rule file and any modules and roots given together, with no further hypothesis |
| DepsCheck.CyclesStayInOneArea | tools/checkdeps/main.go:188-261 | with closed and antisymmetric rows no import cycle leaves its area |
| DepsCheck.CheckAll | tools/checkdeps/main.go:293-350 | running over all roots in turn reports nothing exactly when the gate is silent on each |
| DepsRulesFile.FieldsParse | tools/checkdeps/main.go:72-78 | a rule line written as tab-separated fields is split into exactly those fields |
| DepsRulesFile.ClassTextParses | tools/checkdeps/main.go:79-95 | the text of a class line, with or without a repository, parses as that class |
| DepsRulesFile.AllowTextParses | tools/checkdeps/main.go:96-107 | the text of an allow line parses as the row with its rule, its hint and the set of its areas |
| DepsRulesFile.ShippedFileLoads | tools/checkdeps/rules.tsv:13-36 | the lines of the shipped rule file, whatever their hints say, are well-formed, and load as its classes, its bare area and its allow rows |
| DepsLines.CommentedFileLoads | tools/checkdeps/rules.tsv:1-36 | the same for every file with those lines and any comments and blank lines among them, as it ships |
| DepsAreas.ShippedAreaIs | tools/checkdeps/rules.tsv:13-27 | under the shipped classes a directory that a line covers is in that line's area, with the one exception of procs in discovery |
| DepsAreas.ShippedAreaIsNone | tools/checkdeps/rules.tsv:13-27 | a directory that no shipped line covers is in no area |
| DepsAreas.UnderProcs | tools/checkdeps/rules.tsv:17 | everything below pkg/discovery/procs/ is procs, though it lies in discovery |
| DepsAreas.UnderCmd | tools/checkdeps/rules.tsv:14-23 | a command belongs to the stage of its repository, and to no area in any other repository |
| DepsShipped.ShippedFileHasItsRows | tools/checkdeps/rules.tsv:13-36 | the loaded shipped file has the allow rows the next lemmas assume |
| DepsShipped.ShippedRowsAreClosed | tools/checkdeps/rules.tsv:13-36 | the shipped allow rows are transitively closed |
| DepsShipped.ShippedRowsAreAntisymmetric | tools/checkdeps/rules.tsv:13-36 | no two areas may import each other |
| DepsShipped.StagesStayApart | tools/checkdeps/rules.tsv:13-36 | along paths outside testdata discovery and provisioning never reach each other, collectors reach only common, procs and collectors, inventory only common and itself, common only itself |
| DepsShipped.StagesStayApartEverywhere | tools/checkdeps/rules.tsv:13-36 | the same for every path from outside testdata, when nothing outside testdata imports a testdata package |
| DepsShipped.ShippedGateVouchesIff | tools/checkdeps/rules.tsv:13-36 | with the shipped file loaded, a silent gate vouches for every path from outside testdata, whatever testdata holds, under exactly that condition |
| DepsShipped.NoCycleCrossesAnArea | tools/checkdeps/rules.tsv:13-36 | under the shipped rows no import cycle crosses an area |
| DepsTestdata.UnderDiscovery | tools/checkdeps/rules.tsv:13-36 | under the shipped classes every directory below pkg/discovery/ but those below its procs/ is in the discovery area |
| DepsTestdata.UnderProvisioning | tools/checkdeps/rules.tsv:13-36 | under the shipped classes every directory below pkg/provisioning/ is in the provisioning area |
| DepsTestdata.TestdataHidesAnImport | tools/checkdeps/main.go:193-196 | two files over which the gate, with the shipped rule file loaded, is silent although discovery reaches provisioning through a testdata package |
| Timeline.Assembly.Add | demo/recording/build.py:111-132 | one scene starts at the running time, lasts its measured length, and a clip is remembered with its recording span and speed |
| Timeline.Assemble | demo/recording/build.py:108-132 | the whole table: it is accepted exactly when every marker exists and every clip ends after it starts, whatever the speeds, and then starts, lengths and total are the running sums |
| Timeline.UsableIff | demo/recording/build.py:111-128 | a hold needs its marker; a clip needs its end marker, and its start marker or none, recorded before the end |
| Timeline.PiecesInOrder | demo/recording/build.py:108-132 | clips with positive speeds and exact lengths lie one after the other in the video |
| Timeline.ExactlyOneClip | demo/recording/build.py:149-161 | an anchor inside the tiled part of a recording is in exactly one clip, start and end anchors each by their own rule, and no other anchor is in any |
| Timeline.LocateIsMonotone | demo/recording/build.py:149-161 | later in a recording is later in the video, whatever the kinds of the two anchors |
| Timeline.EndIsNotLaterThanStart | demo/recording/build.py:149-161 | at one recording time an end anchor is never later than a start anchor |
| Timeline.ShownAtLocated | demo/recording/build.py:149-161 | the frame shown at the video time of an anchor is the one recorded at that anchor, for every positive speed |
| Timeline.LocatedAtShown | demo/recording/build.py:149-161 | and the recording time shown at a video time maps back to it |
| Timeline.ChainedTableTiles | demo/recording/build.py:42-68 | for any markers, a table whose clips chain tiles the recording from its start |
| Timeline.ShippedTableTiles | demo/recording/build.py:42-68 | the shipped scene table chains for every recording |
| Captions.CheckCaptions | demo/recording/build.py:164-173 | the captions are accepted if and only if each one meets the five assertions, written out over its two times, after the one before it; each cue then runs from the first time of its caption to the second and carries its text |
| Captions.SceneTime | demo/recording/build.py:149-156 | in an assembled table a scene reference counts from the sum of the lengths of the scenes before it |
| Captions.MarkerTime | demo/recording/build.py:157-161 | a marker reference has a time exactly when its second lies in the tiled part of its recording, and then the one at which that second is shown |
| Captions.SceneCaption | demo/recording/build.py:165-173 | a caption between two scenes is accepted exactly when it has a length, stays in its scenes, follows the last one and can be read, and then runs between those two times |
| Captions.CuesAreAccepted | demo/recording/build.py:164-173 | accepted cues have positive length, keep the reading speed, follow one another, and carry the captions' texts |
| Captions.AnchoredCaptionHasLength | demo/recording/build.py:149-167 | for any table that chains a recording, between two markers of it the length assertion cannot fail when the end is recorded after the start |
| Captions.ShippedCaptionHasLength | demo/recording/build.py:42-68 | the same on the shipped table, for any recording |
| Captions.CuesStayOrdered | demo/recording/build.py:164-173 | with non-empty texts, a caption ends at most the tolerance after any later one starts, not only the next |
| Captions.OverlapsAddUp | demo/recording/build.py:164-173 | with empty texts the bound is one tolerance a caption |
| Captions.CuesStartAtZero | demo/recording/build.py:164-173 | no cue starts more than the tolerance below zero |
| Captions.RoundedCuesOverlapByOne | demo/recording/build.py:136-143 | printed SRT cues overlap by at most one millisecond and ASS cues by at most one centisecond |
| Captions.RoundIff | demo/recording/build.py:137 | rounding gives the nearest integer, and of two as near the even one |
| Captions.SrtRoundTrip | demo/recording/build.py:136-138 | a printed SRT stamp reads back as the rounded value, also beyond 99 hours |
| Captions.AssRoundTrip | demo/recording/build.py:141-143 | a printed ASS stamp reads back as the rounded value |
| Captions.SrtFields | demo/recording/build.py:136-138 | an SRT stamp has minutes and seconds below sixty in two figures each and milliseconds in three |
| Captions.AssFields | demo/recording/build.py:141-143 | an ASS stamp has minutes and seconds below sixty and centiseconds in two figures each, and hours without leading zeros |
| Topology.Validate | demo/topology/topogen/main.go:115-175 | the validation accepts exactly the specifications whose ids, kinds, forks, versions, roles, networks and protocols are as written out, and for any other reports its first problem, with what that problem says |
| Topology.ValidIff | demo/topology/topogen/main.go:76-200 | the checks on a node and an edge, with their defaults and tables, say what a specification must be in the words of the input |
| Topology.KindProblemIs | demo/topology/topogen/main.go:134-154 | which problem of its kind, fork, version or role a node has, the first in order |
| Topology.CheckNode | demo/topology/topogen/main.go:124-159 | the first problem of one node in order: its id, an id seen before, its kind, an undeclared network; none when it has none |
| Traffic.GroupsINI | demo/topology/topogen/main.go:316-351 | the inventory text, written through a map from sources to targets |
| Traffic.TrafficRoundTrip | demo/scripts/internal/pqcota-gen-traffic.sh:26-31 | a traffic value split at spaces and colons gives, in order, the protocol and the host of every edge leaving the node, and its port: the given one, or else 22 for ssh and 4433 for the others |
| Traffic.TargetIsFor | demo/topology/topogen/main.go:319-328 | the printed word of one edge reads back as that protocol, host and port |
| Numbers.PrintIsCanonical | demo/topology/topogen/main.go:327 | no number but zero is printed with a zero first, and only negative ones with a sign |
| Traffic.NoPortReads | demo/scripts/internal/pqcota-gen-traffic.sh:28-29 | a target without a port is read with the script's own default port |
| Traffic.GroupsRoundTrip | demo/topology/topogen/main.go:316-351 | reading the whole printed inventory gives every node of each kind in order with its out-edges as targets |
| Traffic.EveryNodeInOneGroup | demo/topology/topogen/main.go:333-347 | every node is in exactly one group, that of its kind, with the protocols, hosts and ports of its own edges in order |
| Traffic.EntriesConserveEdges | demo/topology/topogen/main.go:380 | the entries read back are as many as the edges, which is the printed edge count |
| Traffic.SectionDeclaredIff | demo/topology/topogen/main.go:333-347 | the printed file opens the section of a kind exactly when some node has that kind |
| Traffic.ChildGroupsDeclaredIff | demo/topology/topogen/main.go:333-348 | every group the printed file names as a child is opened in that file if and only if there are nodes of both kinds |
| Traffic.JavaOnlyLacksAGroup | demo/topology/topogen/main.go:333-348 | a valid specification whose inventory names a group it does not declare |
| Manifest.ManifestEnv | demo/topology/topogen/main.go:373-390 | the shell text the lemmas below read back |
| Manifest.ShellSingleReads | demo/topology/topogen/main.go:392-394 | by the quoting rules of sections 2.2.1 and 2.2.2 of the POSIX Shell Command Language, a quoted text is one word equal to the text, for every text |
| Manifest.ManifestSources | demo/topology/topogen/main.go:373-390 | the printed file sources if and only if no node is called esac, and then declares the ids in order, the number of edges and one clause a node before the default |
| Manifest.HumanPrintsNames | demo/topology/topogen/main.go:381-388 | `human` prints the name of a node for its id, the id itself for a node without a name, and any other argument as itself |
| Manifest.EsacIsAccepted | demo/topology/topogen/main.go:100 | a specification that the validation accepts and the shell cannot source |
| Compose.ServerRoles | demo/topology/topogen/main.go:208-221 | a role is set exactly when some edge of that protocol ends at the node |
| Compose.NodeEnv | demo/topology/topogen/main.go:224-246 | the variables of a node in their fixed order |
| Compose.Compose | demo/topology/topogen/main.go:250-308 | the declared networks and services: controller, database, then one service a node |
| Compose.ClosedIff | demo/topology/topogen/main.go:250-308 | every service joins declared networks only, if and only if the specification declares networks or its nodes name none but the default one |
| Compose.UndeclaredNetworkIsAccepted | demo/topology/topogen/main.go:155-159 | a valid specification whose compose file joins an undeclared network |
| Compose.ControllerReachesIff | demo/topology/topogen/main.go:266-281 | the controller shares a network with a node exactly when networks are declared, or the node names none, or it names the default one |
| Compose.ClosedIsReachable | demo/topology/topogen/main.go:250-308 | in a closed file the controller shares a network with every node |
| Compose.NamesDistinctIff | demo/topology/topogen/main.go:266-306 | service names are distinct if and only if no node is called like one of the two tools |
| Compose.ToolNameIsAccepted | demo/topology/topogen/main.go:124-132 | a valid specification whose compose file has two services of one name |
| Compose.BuildIsDefined | demo/topology/topogen/main.go:283-297 | every node of a valid specification is built from the target of its kind and fork, and exactly those of the OpenSSL fork, which is the default, from the distribution that ships their version, 3 when none is said |
| Compose.ToolsJoinEverything | demo/topology/topogen/main.go:251-281 | the controller and the database join every network of the file, the declared ones or the one default, and run with their fixed settings |
| Compose.ServersMatchEdges | demo/topology/topogen/main.go:208-246 | a node runs a PQC server exactly when a pqc edge ends at it, an SSL server exactly when an ssl edge does or it is an OpenSSL server, and sets no variable twice |
| Compose.EnvSays | demo/topology/topogen/main.go:224-246 | every variable a node's service sets, with its value, and nothing else |
| Compose.AppsReadBack | demo/topology/topogen/main.go:238-244 | the application list of an SSL server splits back to the listed ones, or to the node's own id when none is listed |
| Compose.EveryEdgeHasItsServer | demo/topology/topogen/main.go:208-308 | every pqc and ssl edge ends at a service that runs that server |
| SiteChecker.P.HandleStartTag | tools/site/check_site.py:27-36 | the whole new state after a start tag |
| SiteChecker.P.HandleEndTag | tools/site/check_site.py:38-45 | the whole new state after an end tag |
| SiteChecker.P.HandleData | tools/site/check_site.py:47-48 | text goes to the innermost open block, if any |
| SiteChecker.P.Feed | tools/site/check_site.py:51-56 | feeding a page runs the machine over its events |
| SiteChecker.DepthIsNeverNegative | tools/site/check_site.py:27-45 | on any stream of events, nested or not, the chrome depth stays at or above zero |
| SiteChecker.RunOverDocument | tools/site/check_site.py:27-48 | over a subtree that closes what it opens the machine restores chrome depth and outer blocks, adds its text and own links to the innermost block, and records the links of the blocks inside it |
| SiteChecker.PiecesAreTheText | tools/site/check_site.py:38-48 | what a block collects is all the text below it, inner blocks and chrome included |
| SiteChecker.RecordedIsExpected | tools/site/check_site.py:27-48 | whatever order blocks close in, the recorded links are those of the top-down reading, each as often |
| SiteChecker.PageIsParsed | tools/site/check_site.py:19-56 | a whole page that closes what it opens leaves nothing open, and its body links are exactly the links outside chrome inside a block that are no language switch, each with the whole text of its innermost block |
| SiteChecker.LinkIsRecordedIff | tools/site/check_site.py:15-45 | on a page with one link in two elements, the link is recorded, with its text, exactly when its tag is a, its class does not hold pq-lang, neither element is nav, header or footer, and one of them is p, li, td, th, dd or h1 to h4 |
| SiteChecker.RestoredIff | tools/site/check_site.py:27-45 | over any document, the machine ends with the chrome depth and the number of open blocks it began with if and only if every chrome element and every block it opens is closed |
| SiteChecker.PageClosesIff | tools/site/check_site.py:19-56 | a page leaves no chrome and no block open if and only if it closes what it opens |
| SiteChecker.UnclosedBlockKeepsItsLink | tools/site/check_site.py:38-45 | with one end tag left out, a page's only link stays in the open block and is no body link |
| Paths.RelSegmentsLead | tools/site/assemble.py:116 | going up to the common ancestor and down reaches the other path |
| Paths.CommonIsLongest | tools/site/assemble.py:116 | the ancestor it goes up to is the nearest one |
| Paths.UpsStay | tools/site/assemble.py:137-138 | steps up that leave the repository stay in the normalised path, however many there are |
| Paths.LeadingSlashesAre | tools/site/assemble.py:138 | two leading slashes stay, and any other number of them is one |
| Paths.NothingIsTheDot | tools/site/assemble.py:138 | nothing and the directory itself are the dot |
| SiteText.NoPathIsHere | tools/site/assemble.py:138 | a link without a path names the file it stands in |
| Paths.AbsIsNamed | tools/site/assemble.py:116 | an absolute path has no step up and no dot left, whatever the path and the working directory, and a path that is absolute does not depend on the latter |
| Paths.RelPathResolves | tools/site/assemble.py:116 | a relative path joined to its start and normalised is the path, with or without a trailing slash, from any working directory |
| Paths.DirAndBase | tools/site/assemble.py:116 | directory and base name of a clean path are its segments before the last and the last |
| SiteLinks.Rewrite | tools/site/assemble.py:94-180 | the lines outside fenced blocks are rewritten, fence lines and fenced lines stay, and no line is added or lost |
| SiteText.OpenIff | tools/site/assemble.py:96-106 | a line is rewritten exactly when it is no fence and an even number of fences stands before it |
| SiteText.IsFenceIff | tools/site/assemble.py:98 | a fence is white space, three backticks, and anything |
| SiteLinks.KeptIff | tools/site/assemble.py:108-174 | a link is kept as it stands exactly when it starts with a hash; or it is no link to a repository and starts with http:, https: or mailto:, or leaves its repository, or names no page, no image file and nothing that is there |
| SiteText.GithubIff | tools/site/assemble.py:72-111 | a link is read as one to a repository exactly when it is the owner's address, a repository, blob or tree, a ref and a path between slashes, with an anchor or none |
| SiteText.RepositoryLinkIsPageLink | tools/site/assemble.py:111-130 | a link to a repository whose file, without the slashes at its end, has a page becomes the link to that page with its anchor |
| SiteText.RelativeLinkIsPageLink | tools/site/assemble.py:137-167 | so does a relative link to a file that has a page, unless it shows an image |
| SiteText.GithubUrlSays | tools/site/assemble.py:75-77 | a written GitHub link is spelt as the owner's address, repository, kind, the given ref and path, with the anchor if there is one |
| SiteText.PageLinkIs | tools/site/assemble.py:114-127 | of the three sites the one being built comes first, then the Korean and then the English one |
| SiteLinks.WrittenLinkLeads | tools/site/assemble.py:115-119 | a link to a page of the site leads, from the page it is written on, to that page and anchor |
| SiteLinks.RelativeLinksKeepTheirTarget | tools/site/assemble.py:137-157 | the file a relative link named in the repository is the page the written link opens, with the same anchor |
| SiteLinks.LanguageLinkResolvesIff | tools/site/assemble.py:80-91 | from any page and under any prefix, a link to the other language resolves to that built page and anchor if and only if the page's name is index.md or does not end so |
| SiteText.PageOfIs | tools/site/assemble.py:80-91 | the address of an index page is its directory, and that of any other page its name without the ending, as a directory |
| SiteLinks.MyIndexIsMissed | tools/site/assemble.py:80-91 | for instance no link to developers/myindex.md resolves to its built page |
| SiteLinks.OtherLanguageLinkLeads | tools/site/assemble.py:158-167 | a link to a page that only the other language has is rewritten so that the checker resolves it, from any page, to that built page and anchor |
| SiteLinks.GithubRoundTrip | tools/site/assemble.py:72-77 | a written GitHub link reads back, by the assembler's own pattern, as the repository, kind, path and anchor it was written for |
| SiteLinks.GithubLinksKeepTheirFile | tools/site/assemble.py:111-133 | a GitHub link to a file without a page becomes a link to the same file at the given ref, with its anchor |
| SiteLinks.RelativeLinksReachTheirFile | tools/site/assemble.py:137-177 | a relative link to an existing file without a page becomes a GitHub link to that file or directory, with its anchor |
| SiteLinks.ImagesKeepTheirFile | tools/site/assemble.py:144-152 | the link of an image leads, from its page, to the place the file is copied to |
| SiteLinks.RootLinkReads | tools/site/check_site.py:59-73 | the checker reads a site-root link as its path below the prefix, normalised, and its fragment |
| SiteLinks.DirectoryOpens | tools/site/check_site.py:59-73 | a directory path leads to that directory's index page |
| SiteText.AnchorLeadsHome | tools/site/check_site.py:59-73 | a link that is an anchor alone leads to its own page |
| SiteText.OutsideIff | tools/site/check_site.py:59-66 | a site-root link is reported as outside the prefix exactly when there is a prefix and the path is neither it nor below it |
| SiteText.PrefixIsRoot | tools/site/check_site.py:64-67 | the prefix itself leads to the root of the site |
| SiteText.PageIsItself | tools/site/check_site.py:71-72 | a page with its own ending that is no directory is itself |
| SiteText.SlashIsIndex | tools/site/check_site.py:71 | a path that ends in a slash is that directory's index page |
| SiteText.PageStandsBeside | tools/site/check_site.py:72 | a path without an ending is the page beside it when there is one and no directory of that name |
| LangSwitch.SwitchIsMutualIff | tools/site/langswitch.py:28-36 | a linked page's twin exists, is of the other language and has it as its twin, and carries the switch back exactly outside architectures/ |
| LangSwitch.EnglishLinkedIff | tools/site/langswitch.py:29-36 | an English page gets a switch exactly when its Korean page was built and it is not the home page, the error page or under architectures/ |
| LangSwitch.KoreanLinkedIff | tools/site/langswitch.py:29-36 | a Korean page gets one exactly when its English page was built and it is not the home page or the error page |
| LangSwitch.ArchitecturesAreOneWay | tools/site/langswitch.py:28-36 | for instance a Korean page under architectures/ is linked to its twin, which is not linked back |
| LangSwitch.AddSwitches | tools/site/langswitch.py:29-47 | one switch a linked page in order, and two counters that balance up to the one-way pages |
| LangSwitch.SwitchesAre | tools/site/langswitch.py:29-47 | a switch is made exactly for the linked pages, each with its own link |
| LangSwitch.SwitchesBalance | tools/site/langswitch.py:28-47 | as many Korean pages point to English ones as the other way round, up to the pages whose twin is under architectures/ |
| LangSwitch.TwinIsTwinSegments | tools/site/langswitch.py:34 | the twin is the page with the language directory added or taken away |
| LangSwitch.HrefOpensDirectory | tools/site/langswitch.py:37 | the checker resolves the switch of a page to the index page of its twin's directory |
| LangSwitch.SwitchLeadsToTwinIff | tools/site/langswitch.py:33-37 | the switch leads to the twin if and only if the page is an index page |
| LangSwitch.PageMissesItsTwin | tools/site/langswitch.py:33-37 | for instance the switch of guide/page.html does not lead to its twin |
| LangText.StripUndoesInsert | tools/site/langswitch.py:40-43 | stripping a page with a switch laid over it, anywhere, gives the page back |
| LangLaid.StripOfLaid | tools/site/langswitch.py:40-43 | stripping a page that a switch is laid in gives the page back exactly when the page is settled there; otherwise at least two more characters go |
| LangAttribute.SetLangAt | tools/site/langswitch.py:44 | the first language attribute, wherever it is, gets the value, and the text around it stays |
| LangAttribute.LangCharIff | tools/site/langswitch.py:44 | the value that is replaced is made of ASCII letters and hyphens |
| LangRuns.SecondRunIff | tools/site/langswitch.py:38-45 | for a page of either language, running the pass again gives the same page if and only if stripping leaves a settled page |
| LangRuns.LaterRunReplacesIff | tools/site/langswitch.py:38-45 | a later run with another link gives what it would have given at first, under exactly the same condition |
| LangRuns.RunsStaySettled | tools/site/langswitch.py:38-45 | pages without a switch meet the condition, and so does every page left by a run over a page that does |
| LangShipped.ShippedRunAgainIff | tools/site/langswitch.py:14-45 | with the program's own texts, for any target without a tag, the condition is exact too |
| LangShipped.SecondRunCanDiffer | tools/site/langswitch.py:38-45 | a page with a switch inside a broken marker, on which a second run gives another page |
| LangText.ShippedMarksAreGood | tools/site/langswitch.py:14-17 | the marker, style and tags of the program meet what those laws ask for |
| DocSections.FindEmptySections | tools/checkdocs/main.go:369-411 | the one pass that decides about a heading at the next one computes the list the next lemma describes |
| DocSections.LevelMeans | tools/checkdocs/main.go:370-376 | a line is a heading of level n exactly when it starts with n marks, one to six, and a space |
| DocLines.BlankIff | tools/checkdocs/main.go:386-390 | a line is blank exactly when all its characters are white space |
| Trimming.TrimIff | tools/checkdocs/main.go:94 | the trimmed text is the one without white space at either end that had nothing else around it |
| DocLines.FenceIff | tools/checkdocs/main.go:395-398 | a fence is white space, three backticks, and anything |
| DocSections.Flush | tools/checkdocs/main.go:379-391 | what is decided about one heading once the next one, or the end, is known |
| DocSections.ReportedIffEmpty | tools/checkdocs/main.go:369-411 | for any line tests, a heading outside fences is reported if and only if all lines up to the next such heading are blank and that one is not deeper; once, and in order |
| DocSections.MarkdownReportedIff | tools/checkdocs/main.go:369-411 | with the Markdown tests: a heading outside fences is reported if and only if only blank lines follow it up to the end or to a heading that is not deeper; in particular a section that holds a fence is not |
| DocSections.EmptySectionsOf | tools/checkdocs/main.go:369-411 | the pass run on a Markdown document lists exactly those headings, in order |
| DocSections.Skeleton | tools/checkdocs/main.go:491-517 | one entry for the preface and one a section, with its title and the numbers of unfenced sub-headings and items in it |
| DocLines.KindIff | tools/checkdocs/main.go:499-514 | sections and sub-headings are the headings of level two and three, an item starts with a hyphen and a space and a fence with three backticks, all at the very start of the line |
| DocLines.CountInIs | tools/checkdocs/main.go:491-517 | what is counted for a section: the unfenced lines of that kind before which as many section headings stand as its number says |
| DocSections.CompareSkeletons | tools/checkdocs/main.go:462-481 | the reported differences are exactly the differing counts, or only the differing number of sections |
| DocSections.CheckParity | tools/checkdocs/main.go:447-484 | the check is silent if and only if the two documents agree section by section |
| DocSections.SectionsAddUp | tools/checkdocs/main.go:491-517 | the counts of the sections add up to the unfenced lines of that kind |
| DocSections.SameSkeletonSameTotals | tools/checkdocs/main.go:447-484 | documents that agree have equally many sub-headings and items in all |
| DocSections.AddedLineIsCaught | tools/checkdocs/main.go:447-484 | after adding one unfenced item or sub-heading to one of them, anywhere, they no longer agree |
| DocLines.AddedTextIsCaught | tools/checkdocs/main.go:447-517 | said of the lines: a sub-heading or item put into one of two agreeing documents, outside fences, is caught |
| DocSlug.SlugIsSlugText | tools/checkdocs/main.go:93-100 | any slug is lower-case letters and numbers joined by hyphens |
| DocSlugText.SlugIsPointwise | tools/checkdocs/main.go:93-100 | the slug of a heading without brackets is its characters in order: letters and numbers in lower case, each white space and hyphen one hyphen, and nothing for anything else |
| DocSlug.LinkBecomesItsText | tools/checkdocs/main.go:95 | from any position of a heading, the first link becomes its text, the text before it is kept, and the rest is read on after it |
| DocSlug.SlugIsIdempotent | tools/checkdocs/main.go:93-100 | the slug of a slug is itself, for an idempotent lower-casing |
| DocSlug.FixedIff | tools/checkdocs/main.go:93-100 | the texts a slug leaves alone are exactly those |
| DocSlug.Anchors | tools/checkdocs/main.go:144-151 | the anchors of a document: the slugs of its headings and the anchors it writes itself |
| DocSlug.HeadingAnchorPasses | tools/checkdocs/main.go:185-194 | a link to the anchor of any heading passes the lookup |
| DocSlug.ExplicitAnchorPassesIff | tools/checkdocs/main.go:144-194 | a link to an anchor the document writes itself passes in every document if and only if it is spelt as a slug |
| DocSlug.UnderscoreAnchorFails | tools/checkdocs/main.go:192 | for any anchor with an underscore: in a document that holds nothing else, a link to it fails |

## Left out

- Regular expressions are finders or concrete scanners for the one pattern; the engines are not modelled; which part of a line is a link is a parameter.
- Reading files, walking directories, git, ffmpeg and ffprobe, the Go and HTML parsers, and exit codes: their results are inputs.
- ProseMask.MaskGo: the spans of the string literals are given, because finding them is the Go parser's work.
- ProseBaseline.BaselineRoundTrip: rule and file names hold no tab or newline, because the format does not escape them; strconv.Quote is a parameter that yields one line.
- DepsConfig.LoadConfig: the scanner's limit on the length of a line is not modelled.
- ProseMatch.Match: the final sort of the hits of a scan and the printed lists are not modelled.
- DepsCheck.Check: findings are data in file order; their wording and the sorting of the printed lines are not modelled.
- Timeline.PiecesInOrder: times are exact reals, and the lemmas about the tiling take speeds to be positive and the measured length of a clip to be its recorded span over its speed; floating point and the tolerance of ffprobe are not modelled.
- Captions.SrtRoundTrip: rounding is to the nearest integer, ties to even, on exact reals.
- Manifest.ShellSingleReads: a shell cannot hold NUL, which the model does not exclude; expansions and double quotes outside the fixed clause text are not read.
- Compose.Compose: the services and networks as data; the YAML text, volumes, labels and capabilities are not modelled.
- Traffic.GroupsRoundTrip: the reader covers the sections the generator writes, not the whole Ansible inventory language.
- SiteChecker.PageIsParsed: pages that close what they open, because the parser gives a left-out end tag no event; `PageClosesIff` says that those are the pages on which nothing stays open.
- SiteChecker.P.HandleStartTag: the counter of mermaid blocks is not part of the state.
- SiteLinks.LanguageLinkResolvesIff: prefixes and destinations hold no `#`, `?`, `%`, `;`, tab or line end, anchors no tab or line end, a prefix starts with one slash and ends in none, and names start with no dot, because the parsing and decoding of URLs is not modelled.
- SiteLinks.Rewrite: the rewrite of one line is a parameter of the loop, and what it does to one link is stated by the link lemmas; the counters, the detail list and the copying of images are not modelled.
- DocSlug.SlugIsIdempotent: lower-casing and the letter and number classes are parameters with the stated laws.
- The loops of the site checker that count and print, and its check that Korean pages mark English links.
- `destination` and the ordering of the navigation of the assembler.
- `profiles.csv`, which prints its fields unquoted, so it reads back only for fields without commas.
- `tools/checkgates` and `tools/checkcollectors`, the wording patterns, licence table and version checks of `tools/checkdocs`: single searches over given data.
- The demo scripts, containers, playbooks and recordings: orchestration and network traffic.
