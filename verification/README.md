# PDF stamp analyser — Dafny model

This tool checks PDF drawing sheets for their "carimbo" (title block) data. It works through a batch of uploaded files. For each file it reads facts off the file name:
- the sheet number ("número da prancha");
- the project code (`PRJ-<letters>-`);
- the "assinado" (signed) marker.

It then scans the text of every page. On each page it looks for:
- the file name;
- the sheet number and its `_`/`-` variants;
- the project description;
- a list of keywords, made of the fixed engineer names and CREA numbers plus the user's extra keywords.

It keeps one result record per file name. From the records it computes:
- summary counters;
- a per-engineer tally;
- a per-project tally;
- a results table;
- a spreadsheet with Sim/Não colouring and fitted column widths.

The model is split by the program's own files:

| module | models |
|---|---|
| `Config` (Config.dfy) | `js/config.js`: the engineer/CREA table, the project table, the default keywords, and the loop that flattens the engineer table into the fixed keyword list |
| `PdfProcessor` (PdfProcessor.dfy) | `js/pdf-processor.js`: file validation, sheet-number and project-code extraction, the signed test, the page loop of `processarPDF` and the batch loop of `processarMultiplosPDFs` |
| `App` (App.dfy) | the logic of `js/app.js`: upload filter, keyword parsing, the analysis and download guards of the page object (class `Analyzer`), the counters, both tallies and the results-table cells |
| `ExcelGenerator` (ExcelGenerator.dfy) | `js/excel-generator.js`: row projection, and a worksheet class over a two-dimensional array of cells (header lookup, conditional colouring, column widths) |
| `Records` (Records.dfy) | the data shared by these files: options, files, result records, cell texts |
| `Dict`, `Seqs`, `Strings`, `Wrappers` | JavaScript objects as insertion-ordered association lists; de-duplication; the string operations the source relies on (`includes`, ASCII `toLowerCase`, `split`, `join`, `trim`, `replace`) |

Modelling choices:
- **Results and tallies are objects.** The results object and both tally objects are association lists. Assigning to an existing key keeps its position and replaces its value, so a later file with the same name overwrites the earlier record in place.
- **Page content is an input.** Each page is the sequence of text items the PDF library would return. The page text is those items joined by a space, with newlines turned into spaces. A file the library cannot read is `Unreadable(reason)`.
- **Progress and the spreadsheet are values.** The progress callback becomes the returned sequence of `(index, total, name)` reports. The XLSX worksheet becomes an `array2` of optional cells, each cell a value plus an optional fill colour.

Where the code and the written design disagree, the model follows the code:
- **The two-then-three-digit sheet pattern never decides.** Any match of it is, at the same position, a match of the two-then-two pattern tried before it, so `x-01-071` gives `"01 07"` (`MiddleRuleNeverDecides`, `SecondRuleShadowed`; the concrete case is `ShadowedSheetNumber`).
- **The project code keeps its case.** It is returned exactly as written in the name, not upper-cased (`ProjectCodeOfCodedName`).
- **The option that gates the project flag is `checkProjeto`.**
- **Engineer keywords are scanned twice per page.** The matcher scans the global engineer list, then the list it is passed, which already starts with the same engineer list. De-duplication hides the second scan (`DoubleScanHidden`).
- **A missing project code is looked up under the key `"null"`.** This is what indexing an object with `null` does. The shipped table has no such key, so the description is `"Desconhecido"` (`ShippedDescriptionResolves`).

## Model

| member | source | states |
|---|---|---|
| Config.FlattenRegistry | js/config.js:57-64 | the loop's list is, engineer by engineer, the name followed by its CREAs; its length is engineers plus CREAs; a word is in it iff it is some engineer's name or CREA |
| Config.FlatKeywordsMembers | js/config.js:59-62 | a word is in the flat list iff it identifies some registered engineer |
| Config.FlatKeywordsAppend | js/config.js:59-62 | flattening a concatenated table is concatenating the flattened parts |
| Config.TotalCreasAppend | js/config.js:59-62 | the CREA count of a concatenated table is the sum of the parts' counts |
| Config.ShippedKeywordCount | js/config.js:2-8 | the shipped table flattens to 5 + 9 = 14 keywords |
| Config.ShippedNamesDistinct | js/config.js:2-8 | the shipped engineer names are pairwise distinct |
| Config.ShippedCodesDistinct | js/config.js:10-41 | the shipped project codes are pairwise distinct |
| Config.ShippedDescriptionsNotUnknown | js/config.js:10-41 | no shipped description is empty or equals the sentinel "Desconhecido" |
| Config.ShippedDescriptionsShared | js/config.js:25-39 | entries 14 and 15 are EST and FUN and carry the same description, and entries 27 and 28 (GLP and CLI) do too, so a description alone does not identify a project |
| Config.ShippedDefaultKeywordsSurviveTrim | js/config.js:43-54 | no default keyword is empty after trimming, so none is dropped by the keyword parser |
| Records.YesNo | js/app.js:262-273 | the text is "Sim" iff the flag is true and "Não" iff it is false |
| Records.OrUnidentified | js/excel-generator.js:36-41 | a present, non-empty value is shown as itself; a missing or empty one as "Não identificado" |
| Records.KeywordsText | js/excel-generator.js:38-39 | no keywords show "Nenhuma"; otherwise the keywords joined with ", " |
| PdfProcessor.RemovePdfExtension | js/pdf-processor.js:78 | the result is a prefix of the name; exactly four characters shorter when the name ends in ".pdf" in any case, the name itself otherwise |
| PdfProcessor.RemovePdfExtensionOfPdfName | js/pdf-processor.js:78 | a stem followed by any-case ".pdf" gives back the stem |
| PdfProcessor.FirstSheetMatch | js/pdf-processor.js:35-36 | the leftmost position at or after `from` where the separator-digits-separator-digits pattern matches, or none when it matches nowhere |
| PdfProcessor.SheetGroups | js/pdf-processor.js:38 | the two captured digit groups joined by one space: the characters before the space are the first group at the match, those after it the second group |
| PdfProcessor.FirstMatchingRule | js/pdf-processor.js:35-40 | the index of the first pattern that matches anywhere: every earlier pattern matches nowhere, and when the index is in range that pattern has a match, so the number of patterns means none matches |
| PdfProcessor.ApplySheetRules | js/pdf-processor.js:29-45 | no result iff no rule matches anywhere; otherwise the groups of the leftmost match of the first rule that matches anywhere |
| PdfProcessor.SecondRuleShadowed | js/pdf-processor.js:30-31 | every match of the two-then-three-digit pattern is a match of the two-then-two pattern at the same position |
| PdfProcessor.MiddleRuleNeverDecides | js/pdf-processor.js:29-39 | the three-rule list gives the same result as the list without its middle rule |
| PdfProcessor.DecidingRulesShape | js/pdf-processor.js:29-39 | the remaining rules always give "dd dd" or "ddd ddd" |
| PdfProcessor.DecidingRules | js/pdf-processor.js:29-40 | the leftmost two-two match decides when there is one; otherwise the three-three rule decides with its leftmost match |
| PdfProcessor.ExtractSheetNumber | js/pdf-processor.js:23-46 | after removing ".pdf" and the first "_assinado", the result is null iff neither the two-two nor the three-three pattern matches; otherwise it is the digit groups of the leftmost two-two match, or failing that of the leftmost three-three match, joined by a space |
| PdfProcessor.ShadowedSheetNumber | js/pdf-processor.js:29-39 | `x-01-071.pdf` yields "01 07": the two-two rule takes `-01-07` before the two-three rule is tried |
| PdfProcessor.LetterRun | js/pdf-processor.js:56 | the longest run of ASCII letters starting at `k`, as `[A-Z]+` with the case-insensitive flag takes it |
| PdfProcessor.FirstProjectCode | js/pdf-processor.js:56-57 | the leftmost position at or after `from` where `PRJ-<letters>-` matches in any case, or none |
| PdfProcessor.ExtractProjectCode | js/pdf-processor.js:54-63 | null iff `PRJ-<letters>-` matches nowhere; otherwise the letters of the leftmost match, non-empty and unchanged in case |
| PdfProcessor.ProjectCodeOfCodedName | js/pdf-processor.js:54-63 | a name starting with any-case "PRJ-", letters and "-" yields exactly those letters |
| PdfProcessor.LetterRunOf | js/pdf-processor.js:56 | a run of letters followed by a non-letter is measured exactly |
| PdfProcessor.SignedIffMarker | js/pdf-processor.js:49-51 | a name is signed iff "assinado" occurs in it at some position, in any case |
| PdfProcessor.StrippedMarkerMeansSigned | js/pdf-processor.js:79-80 | when removing "_assinado" changed the name, the name counts as signed |
| PdfProcessor.LowerSlice | js/pdf-processor.js:50 | lower-casing commutes with taking a slice |
| PdfProcessor.MatchTail | js/pdf-processor.js:50 | a case-insensitive match of a pattern gives a match of its tail one position later |
| PdfProcessor.MatchInPrefix | js/pdf-processor.js:50 | a match inside a prefix is a match in the whole name |
| PdfProcessor.DescribeProject | js/pdf-processor.js:83 | a code whose key is in the table gives that entry's description, or "Desconhecido" when the description is empty; a missing key gives "Desconhecido" |
| PdfProcessor.ShippedDescriptionResolves | js/pdf-processor.js:83 | with the shipped table, the description is known iff the code is a table key; a null code is always "Desconhecido" |
| PdfProcessor.PageText | js/pdf-processor.js:99 | the page text is the items joined by a space with every newline turned into a space and every other character kept |
| PdfProcessor.LineBreakReadsAsSpace | js/pdf-processor.js:99 | an item `a` newline `b` reads as `a b`, so a keyword with a space matches across a line break |
| PdfProcessor.PageTexts | js/pdf-processor.js:96-99 | one text per page, in page order |
| PdfProcessor.SheetVariants | js/pdf-processor.js:108-112 | three variants, the first being the sheet number itself |
| PdfProcessor.SheetVariantsOfShape | js/pdf-processor.js:108-112 | for a "dd dd" or "ddd ddd" number the variants are the number and the number with its space replaced by "_" and by "-" |
| PdfProcessor.PageHits | js/pdf-processor.js:127-139 | a keyword is hit on a page iff it is in the list and the page contains it |
| PdfProcessor.CandidatesMembers | js/pdf-processor.js:125-139 | a keyword is a candidate iff it is in the list and some page contains it |
| PdfProcessor.MatchDocument | js/pdf-processor.js:66-159 | processing fails iff the file is not a PDF or cannot be read, with the message "Erro ao processar PDF <name>: <reason>" |
| PdfProcessor.Analyse | js/pdf-processor.js:77-153 | the record has no duplicate keywords and holds exactly the list keywords some page contains; each flag is raised only when its option is on and its subject exists (a non-empty base name, a sheet number, a code with a known description); no pages raise nothing |
| PdfProcessor.RaisedByStep | js/pdf-processor.js:101-123 | after one more page a flag is its old value OR (enabled and the page contains a needle): once set it stays set |
| PdfProcessor.PushStep | js/pdf-processor.js:135-139 | one keyword step appends the keyword iff the page contains it and it is not yet listed |
| PdfProcessor.CandidatesSnoc | js/pdf-processor.js:96-140 | one more page adds its hits after those of the earlier pages |
| PdfProcessor.PushHits | js/pdf-processor.js:135-139 | the keyword loop turns the list found so far into the de-duplicated list of everything found, in discovery order |
| PdfProcessor.PageHitsAppend | js/pdf-processor.js:125-139 | the hits of two lists scanned one after the other are the hits of their concatenation |
| PdfProcessor.PushPageHits | js/pdf-processor.js:125-139 | scanning the engineer list then the passed list is scanning their concatenation |
| PdfProcessor.CheckPage | js/pdf-processor.js:101-123 | one page's check leaves a flag equal to its page-wise OR over the pages read so far: raised iff the probe is enabled and the page holds a needle, never lowered |
| PdfProcessor.ScanPages | js/pdf-processor.js:86-140 | the page loop yields the de-duplicated hits in first-discovery order (by page, then list order), and each flag equals its page-wise OR |
| PdfProcessor.ProcessPdf | js/pdf-processor.js:66-159 | the method's outcome equals `MatchDocument` |
| PdfProcessor.CandidatesAppend | js/pdf-processor.js:96-140 | the candidates of two page runs are the candidates of the first followed by those of the second |
| PdfProcessor.MorePagesOnlyAdd | js/pdf-processor.js:86-140 | more pages never lower a flag, and the earlier keyword list is a prefix of the later one |
| PdfProcessor.RepeatedScanAbsorbed | js/pdf-processor.js:125-139 | on one page, scanning the engineer keywords again through the passed list, which starts with them (lines 170-173), adds nothing after de-duplication |
| PdfProcessor.DoubleScanHidden | js/pdf-processor.js:125-139 | over all pages, the doubled engineer scan gives the same keyword list as a single scan |
| PdfProcessor.ErrorRecord | js/pdf-processor.js:189-201 | the error record: the message, empty keywords, all flags false, no code or sheet, "Erro no processamento", the name without ".pdf" |
| PdfProcessor.FileOutcome | js/pdf-processor.js:183-201 | the stored record is an error record exactly when the file is not a PDF or unreadable: for a non-PDF it is the error record with the "not a PDF" message, for an unreadable PDF the error record with the reader's reason, and for a readable PDF the analysis of its page texts; its name is the file name without ".pdf" |
| PdfProcessor.Names | js/pdf-processor.js:184 | the file names, in order |
| PdfProcessor.Outcomes | js/pdf-processor.js:175-202 | one entry per file, in order, keyed by its name, holding its outcome |
| PdfProcessor.ProgressReports | js/pdf-processor.js:179-181 | report i is (i, number of files, name of file i) |
| PdfProcessor.ProcessBatch | js/pdf-processor.js:162-209 | an empty batch fails with "Nenhum arquivo PDF selecionado" and reports nothing; otherwise every file is processed, a failure stores the error record and the loop goes on; progress is reported before each file |
| PdfProcessor.BatchKeys | js/pdf-processor.js:184-190 | the result keys are the file names, each once, in first-appearance order |
| PdfProcessor.BatchLookup | js/pdf-processor.js:184-190 | a name reads the outcome of the last file with that name; any other name reads nothing |
| PdfProcessor.BatchOfDistinctNames | js/pdf-processor.js:175-202 | with distinct names there is one entry per file, in file order |
| App.Cleaned | js/app.js:206-207 | every kept line is non-empty and trimmed, and no more lines are kept than given |
| App.CleanedOne | js/app.js:206-207 | one line is kept as its trim when that is non-empty, and dropped otherwise |
| App.CleanedMembers | js/app.js:206-207 | a keyword is kept iff it is non-empty and is the trim of some line |
| App.CleanedSound | js/app.js:206-207 | every kept keyword is the trim of some line |
| App.CleanedComplete | js/app.js:206-207 | every line whose trim is non-empty is kept as that trim |
| App.CleanedAppend | js/app.js:206-207 | cleaning works line by line: cleaning a concatenation is concatenating the cleaned parts |
| App.CleanedKeepsClean | js/app.js:206-207 | lines already non-empty and trimmed are kept as they are |
| App.ParseKeywords | js/app.js:205-207 | every parsed keyword is non-empty and trimmed; with CleanedOne and CleanedAppend the list is pinned line by line |
| App.ParseKeywordsConcat | js/app.js:205-207 | the keywords of two texts joined by a newline are the keywords of the first followed by those of the second |
| App.ParseJoinedKeywords | js/app.js:205-207 | clean keywords joined with newlines parse back to themselves, in order |
| App.SplitConcat | js/app.js:205 | splitting at a separator between two texts splits each text separately |
| App.FilterPdfs | js/app.js:124-126 | a file is kept iff it is selected and has the PDF type or a ".pdf" name in any case |
| App.FilterPdfsAppend | js/app.js:124-126 | the filter keeps order: filtering a concatenation concatenates the filtered parts |
| App.FilteredFilesPassValidation | js/app.js:124-126 | a file the filter kept never fails validation: if it fails, it was unreadable |
| App.CountFlag | js/app.js:292-295 | a counter is the number of results that have the flag, so it never exceeds the number of results |
| App.CountFlagAppend | js/app.js:292-295 | counts over two lists of results add up |
| App.CountFlagExtremes | js/app.js:292-295 | a counter equals the number of results iff every result has the flag, and is zero iff none has it |
| App.ErrorRecordsNotCounted | js/app.js:292-295 | an error record adds to no flag counter |
| App.ComputeStatistics | js/app.js:280-296 | the total is the number of results and each flag counter is the number of results with that flag |
| App.EngineersMatching | js/app.js:306-310 | a keyword adds at most one increment per registered engineer |
| App.EngineersMatchingOnce | js/app.js:306-310 | with distinct names, a keyword adds one to an engineer exactly when it is that engineer's name or one of their CREAs, and zero otherwise |
| App.WordOccurrences | js/app.js:305-311 | one result's keywords add to an engineer once per keyword that identifies them |
| App.WordMatchesAppend | js/app.js:305-311 | the increments of two keyword lists in a row are the increments of each, in order |
| App.EngineerMatchesFlat | js/app.js:304-312 | the increments of all results are those of all their keywords taken in a row |
| App.EngineerCount | js/app.js:302-312 | with distinct names, an engineer's count is the number of (result, keyword) pairs whose keyword identifies them |
| App.EngineersMatchingMembers | js/app.js:306-310 | a keyword adds one to an engineer iff it is that engineer's name or one of their CREAs |
| App.WordMatchesMembers | js/app.js:305-311 | the keywords of a result add one to an engineer iff one of them identifies that engineer |
| App.WordMatchesSound | js/app.js:305-311 | every name among one result's increments comes from one of its keywords |
| App.WordMatchesComplete | js/app.js:305-311 | every name one of the result's keywords matches is among its increments |
| App.EngineerMatchesMembers | js/app.js:304-312 | the results add one to an engineer iff some result's keywords do |
| App.EngineerMatchesSound | js/app.js:304-312 | every name among the increments comes from some result's keywords |
| App.EngineerMatchesComplete | js/app.js:304-312 | every name some result's keywords match is among the increments |
| App.EngineerTallied | js/app.js:302-312 | an engineer appears in the tally iff some found keyword of some result identifies them; an engineer never matched is absent, not zero |
| App.RegisteredKeywordMatches | js/app.js:306-310 | every word of the flat engineer list identifies at least one engineer |
| App.NoEngineerMatches | js/app.js:306-310 | a keyword that identifies nobody adds nothing |
| App.SingleEngineerMatches | js/app.js:306-310 | a keyword that identifies exactly one engineer adds one to that engineer only |
| App.EngineerStep | js/app.js:306-310 | one more engineer adds their name iff the keyword identifies them |
| App.WordStep | js/app.js:305 | one more keyword adds its matches after the earlier ones |
| App.ResultStep | js/app.js:304 | one more result adds its matches after the earlier ones |
| App.TallyWord | js/app.js:306-310 | the engineer loop for one keyword leaves the tally of everything seen plus this keyword's matches |
| App.TallyWords | js/app.js:305-311 | the keyword loop for one result leaves the tally of everything seen plus this result's matches |
| App.EngineerTally | js/app.js:302-312 | the nested loops build the tally of all increments; EngineerCount turns each count into a number of (result, keyword) pairs |
| App.EngineerCountCanExceedFiles | js/app.js:302-312 | one file whose keywords are both the registered name and CREA of FLAVIO SORDI counts that engineer twice |
| App.NameAndCreaMatchTwice | js/app.js:305-310 | a document whose keywords are the registered name and CREA of FLAVIO SORDI adds that name twice |
| App.ProjectLabel | js/app.js:337-340 | a result gets a label iff it has a non-empty code and a description other than "Desconhecido", and the label is the code, " - ", then the description |
| App.ProjectLabels | js/app.js:336-343 | at most one label per result |
| App.ErrorRecordHasNoLabel | js/app.js:339 | error records, which carry no code, are never tallied |
| App.LabelsSeparateCodes | js/app.js:340 | two results with the same description but different codes get different labels |
| App.ProjectTally | js/app.js:334-343 | the loop builds the tally of the labels, "code - description" per labelled result |
| App.ProjectTallyBounded | js/app.js:334-343 | the project counts add up to the number of labelled results, which is at most the number of results |
| App.FlagClass | js/app.js:262-273 | the cell class is "success" iff the flag is true and "error" iff it is false |
| App.TableRow | js/app.js:257-273 | a flag cell shows "Sim" iff its flag is true, with class "success" exactly then; a missing sheet number or code shows "Não identificado"; no keywords shows "Nenhuma" |
| App.TableRowMatchesExcelRow | js/app.js:257-273 | the results table and the spreadsheet row show the same sheet number, code, description, keywords and flags |
| App.Analyzer.constructor | js/app.js:3-9 | no files and no results at start |
| App.Analyzer.HandleFiles | js/app.js:120-131 | the upload keeps exactly the filtered files; the error shows only when files were given and none is a PDF |
| App.Analyzer.StartAnalysis | js/app.js:196-231 | with no upload: the error "Por favor, selecione pelo menos um arquivo PDF.", no processing, results unchanged; otherwise the results are the batch over the upload with the engineer keywords plus the parsed extra keywords, and progress per file |
| App.Analyzer.ExportResults | js/app.js:361-371 | with no results: the error "Nenhum resultado disponível para download." and no workbook; otherwise a workbook with a header and one row per result |
| ExcelGenerator.ExcelRow | js/excel-generator.js:35-46 | the nine columns in order: code or "Não identificado", description, keywords or "Nenhuma", the result key, sheet number or "Não identificado", then each flag as "Sim"/"Não" |
| ExcelGenerator.PrepareTableData | js/excel-generator.js:31-50 | one row per result entry, in entry order, each the projection of that entry |
| ExcelGenerator.Recolor | js/excel-generator.js:79-87 | "Sim" turns green 00FF00, "Não" red FF2C2B; the value is kept, and any other cell or an empty position is unchanged |
| ExcelGenerator.RecolorIdempotent | js/excel-generator.js:79-87 | colouring twice is colouring once |
| ExcelGenerator.FlagCellColour | js/excel-generator.js:82-86 | a flag cell ends green when its flag is true and red when false |
| ExcelGenerator.LeftmostHeader | js/excel-generator.js:97-104 | the smallest header position holding the name, or -1 iff none does |
| ExcelGenerator.Width | js/excel-generator.js:129 | `min(max(maxLength + 2, 10), 50)`: always within [10, 50] |
| ExcelGenerator.WidthMonotone | js/excel-generator.js:129 | a longer value never gives a narrower column |
| ExcelGenerator.ColumnsDistinct | js/excel-generator.js:35-46 | the nine column names are pairwise distinct |
| ExcelGenerator.HeaderFlagColumns | js/excel-generator.js:74-76 | under the sheet's own header, the four flag names are found at columns 5 to 8, and these are exactly the coloured columns |
| ExcelGenerator.Worksheet.constructor | js/excel-generator.js:16 | the header row of column names, then each row's values, unstyled, and no widths |
| ExcelGenerator.Worksheet.HeaderRow | js/excel-generator.js:98-99 | the cells of the first row, in column order |
| ExcelGenerator.Worksheet.FindColumn | js/excel-generator.js:94-105 | the loop with early return gives the leftmost header column holding the name, or -1 iff there is none |
| ExcelGenerator.Worksheet.ApplyConditionalFormatting | js/excel-generator.js:53-91 | below the header, every cell of a found flag column is recoloured; every other cell, the header included, is unchanged |
| ExcelGenerator.Worksheet.RecolorColumn | js/excel-generator.js:77-88 | the row loop recolours the data cells of one column and nothing else |
| ExcelGenerator.Worksheet.ColumnMax | js/excel-generator.js:114-126 | the longest non-empty value in the column, or 0: an upper bound that is attained |
| ExcelGenerator.Worksheet.AdjustColumnWidths | js/excel-generator.js:108-133 | one width per column, each the clamped width of that column's longest value |
| ExcelGenerator.GenerateWorkbook | js/excel-generator.js:8-28 | a fresh sheet: the header, one row per result with its projected values, flag cells "Sim" green / "Não" red, and the fitted widths |
| Dict.LookupFirst | js/pdf-processor.js:83 | reading a key gives the value of its entry, or undefined when it is absent |
| Dict.PutLookup | js/pdf-processor.js:184-190 | after an assignment the key reads the new value and every other key reads what it read before |
| Dict.PutKeepsKeysDistinct | js/pdf-processor.js:184-190 | assignment keeps keys distinct |
| Dict.PutAppends | js/pdf-processor.js:184-190 | assigning a new key appends it at the end |
| Dict.IncrementLookup | js/app.js:308 | `(x[k] \|\| 0) + 1` raises key k by one (from 0 when absent) and leaves every other key alone |
| Dict.IncrementIsPut | js/app.js:308 | the increment is an assignment of the old count plus one |
| Dict.IncrementAddsOne | js/app.js:308 | each increment adds exactly one to the sum of the counts |
| Dict.StoreAllKeys | js/pdf-processor.js:184-190 | after a run of assignments the keys are the assigned keys, each once, in first-assignment order |
| Dict.StoreAllLookup | js/pdf-processor.js:184-190 | after a run of assignments a key reads its last assigned value |
| Dict.StoreAllDistinct | js/pdf-processor.js:184-190 | assignments to distinct keys give exactly the list of assignments |
| Dict.OccurrencesAppend | js/app.js:308 | occurrences over two lists add up |
| Dict.TallyCounts | js/app.js:308 | a tally's count for a key is its number of occurrences (0 when absent) |
| Dict.TallyHasKey | js/app.js:308 | a key is in a tally iff it occurred |
| Dict.TallyKeys | js/app.js:308 | a tally's keys are the occurring keys, each once, in first-occurrence order |
| Dict.TallySum | js/app.js:308 | a tally's counts add up to the number of increments |
| Strings.Lower | js/pdf-processor.js:50 | `toLowerCase` on ASCII: same length, each character lowered |
| Strings.IndexOfIgnoreCase | js/pdf-processor.js:26 | the leftmost case-insensitive occurrence at or after `from`, or none |
| Strings.RemoveFirstIgnoreCase | js/pdf-processor.js:26 | `replace(/_assinado/i, '')`: removes the first case-insensitive occurrence, or changes nothing |
| Strings.Split | js/app.js:205 | `split('\n')`: at least one piece, no piece contains the separator, and joining the pieces gives back the text |
| Strings.SplitJoin | js/app.js:205 | splitting separator-free pieces joined by the separator gives back the pieces |
| Strings.Trim | js/app.js:206 | the result is trimmed and sits in the input with only spaces before and after it, so exactly the leading and trailing spaces are removed; an already trimmed input is kept |
| Strings.ReplaceAll | js/pdf-processor.js:99 | `replace(/\n/g, ' ')`: same length, every occurrence replaced, every other character kept |
| Strings.ReplaceFirst | js/pdf-processor.js:110-111 | `replace(' ', '_')`: same length, and the text is unchanged when it has no space |
| Strings.ReplaceFirstAt | js/pdf-processor.js:110-111 | only the first space is replaced |

## Left out

- User interface: tab switching, drag and drop, the file list and every `innerHTML` rendering (the engineer and project panels print the tallies the model computes), `showError`/`showSuccess`, the global `toggleExpand`/`iniciarAnalise`/`baixarExcel` functions and `main.js`.
- The PDF library: worker setup, loading, and text extraction are replaced by the page items given in `Content`, or by the reason the library fails with.
- `async`/`await` and the 100 ms pause between files: scheduling only.
- Console logging.
- `formatFileSize` and the progress-bar percentage: floating point.
- The XLSX library:
  - `book_new`, `book_append_sheet` and `writeFile`/`write`, and the try/catch of `baixarExcel`/`gerarBlobExcel` around them, are not modelled.
  - The "Erro ao gerar arquivo Excel." message of the download is therefore not reachable in the model.
  - `json_to_sheet` is modelled by the `Worksheet` constructor for a range that starts at A1, as it always does here.
  - The two style objects shared by all coloured cells are modelled as colour values, so the aliasing of one style object between cells is not represented.
- App.Analyzer.ExportResults: states the sheet's shape only; its cell contents are stated by `ExcelGenerator.GenerateWorkbook`, which it calls.
- App.Analyzer.HandleFiles: does not model the page drawing the file list after the filter.
- PdfProcessor.MatchDocument: a `null` file ("Arquivo não selecionado") cannot occur, because files are values; every file of a selection is present.
- Strings.Lower: lowers ASCII letters only. The patterns and markers the source compares against are ASCII, so a non-ASCII character never changes whether they match.
- String lengths: counted in characters, not in UTF-16 code units, so a character outside the Basic Multilingual Plane would give a different column width.
- Object keys: results and tallies keep insertion order. A file name that looks like an array index (all digits, for example `"12"`) would be listed first by JavaScript's key ordering; the model does not reorder such keys. An inherited property name such as `"constructor"` used as a project code is not modelled either, nor a selected PDF named `__proto__`: assigning `resultados["__proto__"]` sets the object's prototype instead of adding a key, so that file would be missing from the statistics, the tables and the export, while the model stores it as an ordinary entry.
- Options: all three are always given. The defaults that apply when one is missing are not modelled, because the page always passes all three.
