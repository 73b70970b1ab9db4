/** The logic of the analyser page (js/app.js) that is not DOM work: reading
    the keyword box, filtering the selection down to PDFs, the summary
    counters, the engineer and project tallies, the results-table row, and
    the page object that holds the selection and the last results. */
module App {
  import opened Wrappers
  import opened Strings
  import Seqs
  import Dict
  import Config
  import opened Records
  import PdfProcessor
  import ExcelGenerator

  // ------------------------------------------------------------ keyword box

  /** `.map(line => line.trim()).filter(line => line.length > 0)`. */
  function Cleaned(lines: seq<string>): (ks: seq<string>)
    ensures |ks| <= |lines|
    ensures forall k :: k in ks ==> k != "" && IsTrimmed(k)
  {
    if lines == [] then []
    else
      var t := Trim(lines[0]);
      (if t != "" then [t] else []) + Cleaned(lines[1..])
  }

  lemma {:induction false} CleanedAppend(a: seq<string>, b: seq<string>)
    ensures Cleaned(a + b) == Cleaned(a) + Cleaned(b)
  {
    if a != [] {
      var t := Trim(a[0]);
      var head := if t != "" then [t] else [];
      assert (a + b)[0] == a[0];
      assert (a + b)[1..] == a[1..] + b;
      CleanedAppend(a[1..], b);
      assert Cleaned(a + b) == head + Cleaned(a[1..] + b);
      assert Cleaned(a) == head + Cleaned(a[1..]);
      Seqs.AppendAssoc(head, Cleaned(a[1..]), Cleaned(b));
    } else {
      assert a + b == b;
    }
  }

  /** One line is kept as its trim, or dropped when that is empty. */
  lemma CleanedOne(line: string)
    ensures Cleaned([line]) == (if Trim(line) != "" then [Trim(line)] else [])
  {
    assert [line][1..] == [];
  }

  /** The kept keywords are exactly the non-empty trims of the lines. */
  lemma CleanedMembers(lines: seq<string>, k: string)
    ensures k in Cleaned(lines) <==> k != "" && exists i :: 0 <= i < |lines| && Trim(lines[i]) == k
  {
    if k in Cleaned(lines) {
      CleanedSound(lines, k);
    }
    if k != "" && exists i :: 0 <= i < |lines| && Trim(lines[i]) == k {
      var i :| 0 <= i < |lines| && Trim(lines[i]) == k;
      CleanedComplete(lines, i);
    }
  }

  /** Every kept keyword is the trim of some line. */
  lemma {:induction false} CleanedSound(lines: seq<string>, k: string)
    requires k in Cleaned(lines)
    ensures exists i :: 0 <= i < |lines| && Trim(lines[i]) == k
  {
    var rest := lines[1..];
    if k in Cleaned(rest) {
      CleanedSound(rest, k);
      var i :| 0 <= i < |rest| && Trim(rest[i]) == k;
      assert lines[i + 1] == rest[i];
    }
  }

  /** Every line whose trim is non-empty is kept as that trim. */
  lemma {:induction false} CleanedComplete(lines: seq<string>, i: nat)
    requires i < |lines| && Trim(lines[i]) != ""
    ensures Trim(lines[i]) in Cleaned(lines)
  {
    if i > 0 {
      var rest := lines[1..];
      assert rest[i - 1] == lines[i];
      CleanedComplete(rest, i - 1);
    }
  }

  /** Lines that are already trimmed and non-empty pass unchanged. */
  lemma {:induction false} CleanedKeepsClean(lines: seq<string>)
    requires forall k :: k in lines ==> k != "" && IsTrimmed(k)
    ensures Cleaned(lines) == lines
  {
    if lines != [] {
      var rest := lines[1..];
      assert lines[0] in lines;
      assert Trim(lines[0]) == lines[0];
      assert forall k :: k in rest ==> k in lines;
      CleanedKeepsClean(rest);
      assert Cleaned(lines) == [lines[0]] + Cleaned(rest);
      assert [lines[0]] + rest == lines;
    }
  }

  /** The extra keywords of `iniciarAnalise`: the box split into lines, each
      line trimmed, empty lines dropped, order kept. */
  function ParseKeywords(text: string): (ks: seq<string>)
    ensures forall k :: k in ks ==> k != "" && IsTrimmed(k)
  {
    Cleaned(Split(text, '\n'))
  }

  /** Two blocks of text separated by a line break parse as the keywords of
      the first followed by those of the second. */
  lemma ParseKeywordsConcat(a: string, b: string)
    ensures ParseKeywords(a + "\n" + b) == ParseKeywords(a) + ParseKeywords(b)
  {
    SplitConcat(a, '\n', b);
    CleanedAppend(Split(a, '\n'), Split(b, '\n'));
  }

  /** Round trip with `join('\n')`, which is how the box is filled with the
      default list: keywords that are non-empty, trimmed and free of line
      breaks come back as they went in. */
  lemma ParseJoinedKeywords(ks: seq<string>)
    requires forall k :: k in ks ==> k != "" && IsTrimmed(k) && '\n' !in k
    ensures ParseKeywords(Join(ks, "\n")) == ks
  {
    if ks == [] {
      assert Split("", '\n') == [""];
      assert Trim("") == "";
    } else {
      SplitJoin(ks, '\n');
      CleanedKeepsClean(ks);
    }
  }

  /** Splitting at a separator placed between two strings splits each
      side separately. */
  lemma {:induction false} SplitConcat(a: string, sep: char, b: string)
    ensures Split(a + [sep] + b, sep) == Split(a, sep) + Split(b, sep)
  {
    if a == [] {
      assert a + [sep] + b == [sep] + b;
      assert ([sep] + b)[1..] == b;
    } else {
      var s := a + [sep] + b;
      assert s[0] == a[0];
      assert s[1..] == a[1..] + [sep] + b;
      SplitConcat(a[1..], sep, b);
    }
  }

  // ------------------------------------------------------------ file filter

  /** `Array.from(files).filter(...)` in `handleFiles`: the PDFs of the
      selection, in selection order. */
  function FilterPdfs(files: seq<PdfFile>): (kept: seq<PdfFile>)
    ensures |kept| <= |files|
    ensures forall f :: f in kept <==> f in files && PdfProcessor.IsPdfFile(f)
  {
    if files == [] then []
    else (if PdfProcessor.IsPdfFile(files[0]) then [files[0]] else []) + FilterPdfs(files[1..])
  }

  /** The filter works file by file: filtering a concatenation concatenates
      the filtered parts, so the kept files keep their order. */
  lemma {:induction false} FilterPdfsAppend(a: seq<PdfFile>, b: seq<PdfFile>)
    ensures FilterPdfs(a + b) == FilterPdfs(a) + FilterPdfs(b)
  {
    if a != [] {
      assert (a + b)[1..] == a[1..] + b;
      FilterPdfsAppend(a[1..], b);
    } else {
      assert a + b == b;
    }
  }

  /** A file the filter keeps never fails the matcher's own PDF check: if it
      ends up with an error record, its content could not be read. */
  lemma FilteredFilesPassValidation(files: seq<PdfFile>, engineerKeywords: seq<string>, keywords: seq<string>,
                                    opts: Options, projects: seq<(string, string)>)
    ensures forall f :: f in FilterPdfs(files) ==>
              PdfProcessor.FileOutcome(f, engineerKeywords, keywords, opts, projects).error.Some? ==> f.content.Unreadable?
  {
  }

  // --------------------------------------------------------------- counters

  /** The positions of the results that have the flag. */
  ghost function Flagged(ds: seq<DocumentResult>, flag: Flag): set<int> {
    set i | 0 <= i < |ds| && FlagOf(ds[i], flag)
  }

  /** One more result adds its position when it has the flag. */
  lemma FlaggedSnoc(ds: seq<DocumentResult>, flag: Flag)
    requires ds != []
    ensures |ds| - 1 !in Flagged(ds[..|ds| - 1], flag)
    ensures Flagged(ds, flag) ==
              Flagged(ds[..|ds| - 1], flag) + (if FlagOf(ds[|ds| - 1], flag) then {|ds| - 1} else {})
  {
    var init := ds[..|ds| - 1];
    assert forall i :: 0 <= i < |init| ==> init[i] == ds[i];
  }

  /** `results.filter(d => d.<flag>).length`: the number of results that
      have the flag. */
  function CountFlag(ds: seq<DocumentResult>, flag: Flag): (n: nat)
    ensures n == |Flagged(ds, flag)|
    ensures n <= |ds|
  {
    if ds == [] then
      assert Flagged(ds, flag) == {};
      0
    else
      FlaggedSnoc(ds, flag);
      CountFlag(ds[..|ds| - 1], flag) + (if FlagOf(ds[|ds| - 1], flag) then 1 else 0)
  }

  /** Counting works result by result: the counts of two lists add up. */
  lemma {:induction false} CountFlagAppend(a: seq<DocumentResult>, b: seq<DocumentResult>, flag: Flag)
    ensures CountFlag(a + b, flag) == CountFlag(a, flag) + CountFlag(b, flag)
    decreases |b|
  {
    if b == [] {
      assert a + b == a;
    } else {
      var init := b[..|b| - 1];
      assert (a + b)[..|a + b| - 1] == a + init;
      assert (a + b)[|a + b| - 1] == b[|b| - 1];
      CountFlagAppend(a, init, flag);
    }
  }

  /** A counter reaches the number of results exactly when every result has
      the flag, and stays at zero exactly when none has it. */
  lemma {:induction false} CountFlagExtremes(ds: seq<DocumentResult>, flag: Flag)
    ensures CountFlag(ds, flag) == |ds| <==> forall i :: 0 <= i < |ds| ==> FlagOf(ds[i], flag)
    ensures CountFlag(ds, flag) == 0 <==> forall i :: 0 <= i < |ds| ==> !FlagOf(ds[i], flag)
  {
    if ds != [] {
      var init := ds[..|ds| - 1];
      CountFlagExtremes(init, flag);
      assert forall i :: 0 <= i < |init| ==> ds[i] == init[i];
    }
  }

  /** Error records raise no flag, so they never add to a counter. */
  lemma ErrorRecordsNotCounted(ds: seq<DocumentResult>, name: string, message: string, flag: Flag)
    ensures CountFlag([PdfProcessor.ErrorRecord(name, message)] + ds, flag) == CountFlag(ds, flag)
  {
    var e := PdfProcessor.ErrorRecord(name, message);
    CountFlagAppend([e], ds, flag);
    assert [e][..0] == [];
  }

  /** The numbers `atualizarEstatisticas` writes into the page. */
  datatype Statistics = Statistics(totalFiles: nat, filesWithName: nat, filesWithSheet: nat,
                                   filesSigned: nat, projectsFound: nat)

  function ComputeStatistics(results: Results): (s: Statistics)
    ensures s.totalFiles == |results|
    ensures s.filesWithName == |Flagged(Dict.Values(results), NameFlag)|
    ensures s.filesWithSheet == |Flagged(Dict.Values(results), SheetFlag)|
    ensures s.filesSigned == |Flagged(Dict.Values(results), SignedFlag)|
    ensures s.projectsFound == |Flagged(Dict.Values(results), ProjectFlag)|
    ensures s.filesWithName <= s.totalFiles && s.filesWithSheet <= s.totalFiles
    ensures s.filesSigned <= s.totalFiles && s.projectsFound <= s.totalFiles
  {
    var ds := Dict.Values(results);
    Statistics(|ds|, CountFlag(ds, NameFlag), CountFlag(ds, SheetFlag), CountFlag(ds, SignedFlag),
               CountFlag(ds, ProjectFlag))
  }

  // ---------------------------------------------------------------- tallies

  /** The names of the engineers, in registry order, that keyword `w`
      identifies: by name or by one of their CREAs. */
  function EngineersMatching(w: string, reg: seq<Config.Engineer>): (names: seq<string>)
    ensures |names| <= |reg|
  {
    if reg == [] then []
    else
      var e := reg[|reg| - 1];
      EngineersMatching(w, reg[..|reg| - 1]) + (if Config.Identifies(e, w) then [e.name] else [])
  }

  /** A registered keyword identifies at least one engineer: every word of
      the flat engineer list is counted by the tally. */
  lemma {:induction false} RegisteredKeywordMatches(w: string, reg: seq<Config.Engineer>)
    requires Config.IsRegistered(reg, w)
    ensures EngineersMatching(w, reg) != []
  {
    var init := reg[..|reg| - 1];
    var e := reg[|reg| - 1];
    if !Config.Identifies(e, w) {
      var j :| 0 <= j < |reg| && Config.Identifies(reg[j], w);
      assert j < |init| && init[j] == reg[j];
      RegisteredKeywordMatches(w, init);
    }
  }

  /** The names the keyword `w` adds one to are those of the engineers it
      identifies. */
  lemma {:induction false} EngineersMatchingMembers(w: string, reg: seq<Config.Engineer>, n: string)
    ensures n in EngineersMatching(w, reg) <==>
            exists i :: 0 <= i < |reg| && reg[i].name == n && Config.Identifies(reg[i], w)
  {
    if reg != [] {
      var init := reg[..|reg| - 1];
      EngineersMatchingMembers(w, init, n);
      assert forall i :: 0 <= i < |init| ==> init[i] == reg[i];
    }
  }

  /** The names the keywords `ws` add one to. */
  lemma WordMatchesMembers(ws: seq<string>, reg: seq<Config.Engineer>, n: string)
    ensures n in WordMatches(ws, reg) <==>
            exists j :: 0 <= j < |ws| && n in EngineersMatching(ws[j], reg)
  {
    if n in WordMatches(ws, reg) {
      WordMatchesSound(ws, reg, n);
    }
    if exists j :: 0 <= j < |ws| && n in EngineersMatching(ws[j], reg) {
      var j :| 0 <= j < |ws| && n in EngineersMatching(ws[j], reg);
      WordMatchesComplete(ws, reg, j, n);
    }
  }

  /** Every name among one result's increments comes from one of its keywords. */
  lemma {:induction false} WordMatchesSound(ws: seq<string>, reg: seq<Config.Engineer>, n: string)
    requires n in WordMatches(ws, reg)
    ensures exists j :: 0 <= j < |ws| && n in EngineersMatching(ws[j], reg)
  {
    var init := ws[..|ws| - 1];
    assert WordMatches(ws, reg) == WordMatches(init, reg) + EngineersMatching(ws[|ws| - 1], reg);
    if n in WordMatches(init, reg) {
      WordMatchesSound(init, reg, n);
      var j :| 0 <= j < |init| && n in EngineersMatching(init[j], reg);
      assert init[j] == ws[j];
    }
  }

  /** Every name a keyword of the result matches is among its increments. */
  lemma {:induction false} WordMatchesComplete(ws: seq<string>, reg: seq<Config.Engineer>, j: nat, n: string)
    requires j < |ws| && n in EngineersMatching(ws[j], reg)
    ensures n in WordMatches(ws, reg)
  {
    var init, last := ws[..|ws| - 1], ws[|ws| - 1];
    var before, now := WordMatches(init, reg), EngineersMatching(last, reg);
    assert WordMatches(ws, reg) == before + now;
    if j < |init| {
      assert init[j] == ws[j];
      WordMatchesComplete(init, reg, j, n);
      assert n in before;
    } else {
      assert n in now;
    }
  }

  /** The names all results add one to. */
  lemma EngineerMatchesMembers(ds: seq<DocumentResult>, reg: seq<Config.Engineer>, n: string)
    ensures n in EngineerMatches(ds, reg) <==>
            exists i :: 0 <= i < |ds| && n in WordMatches(ds[i].stampKeywords, reg)
  {
    if n in EngineerMatches(ds, reg) {
      EngineerMatchesSound(ds, reg, n);
    }
    if exists i :: 0 <= i < |ds| && n in WordMatches(ds[i].stampKeywords, reg) {
      var i :| 0 <= i < |ds| && n in WordMatches(ds[i].stampKeywords, reg);
      EngineerMatchesComplete(ds, reg, i, n);
    }
  }

  /** A name the results add one to comes from some result. */
  lemma {:induction false} EngineerMatchesSound(ds: seq<DocumentResult>, reg: seq<Config.Engineer>, n: string)
    requires n in EngineerMatches(ds, reg)
    ensures exists i :: 0 <= i < |ds| && n in WordMatches(ds[i].stampKeywords, reg)
  {
    var init := ds[..|ds| - 1];
    assert EngineerMatches(ds, reg) == EngineerMatches(init, reg) + WordMatches(ds[|ds| - 1].stampKeywords, reg);
    if n in EngineerMatches(init, reg) {
      EngineerMatchesSound(init, reg, n);
      var i :| 0 <= i < |init| && n in WordMatches(init[i].stampKeywords, reg);
      assert init[i] == ds[i];
    }
  }

  /** Every name some result adds one to is among the increments. */
  lemma {:induction false} EngineerMatchesComplete(ds: seq<DocumentResult>, reg: seq<Config.Engineer>, i: nat, n: string)
    requires i < |ds| && n in WordMatches(ds[i].stampKeywords, reg)
    ensures n in EngineerMatches(ds, reg)
  {
    var init := ds[..|ds| - 1];
    assert EngineerMatches(ds, reg) == EngineerMatches(init, reg) + WordMatches(ds[|ds| - 1].stampKeywords, reg);
    if i < |init| {
      assert init[i] == ds[i];
      EngineerMatchesComplete(init, reg, i, n);
    }
  }

  /** An engineer is in the tally exactly when some found keyword of some
      result identifies them (`EngineersMatchingMembers`); one never
      matched is absent rather than counted zero. */
  lemma EngineerTallied(ds: seq<DocumentResult>, reg: seq<Config.Engineer>, n: string)
    ensures Dict.Lookup(Dict.Tally(EngineerMatches(ds, reg)), n).Some? <==>
            exists i, j :: 0 <= i < |ds| && 0 <= j < |ds[i].stampKeywords| &&
                           n in EngineersMatching(ds[i].stampKeywords[j], reg)
  {
    Dict.TallyHasKey(EngineerMatches(ds, reg), n);
    EngineerMatchesMembers(ds, reg, n);
    forall i | 0 <= i < |ds|
      ensures n in WordMatches(ds[i].stampKeywords, reg) <==>
              exists j :: 0 <= j < |ds[i].stampKeywords| && n in EngineersMatching(ds[i].stampKeywords[j], reg)
    {
      WordMatchesMembers(ds[i].stampKeywords, reg, n);
    }
  }

  /** Some engineer named `n` is identified by the keyword `w`. */
  predicate IdentifiesNamed(reg: seq<Config.Engineer>, n: string, w: string) {
    exists i :: 0 <= i < |reg| && reg[i].name == n && Config.Identifies(reg[i], w)
  }

  /** With distinct names (as object keys are), one keyword adds at most one
      to an engineer: one exactly when it identifies that engineer. */
  lemma {:induction false} EngineersMatchingOnce(w: string, reg: seq<Config.Engineer>, n: string)
    requires Config.DistinctNames(reg)
    ensures Dict.Occurrences(EngineersMatching(w, reg), n) == if IdentifiesNamed(reg, n, w) then 1 else 0
  {
    if reg != [] {
      var init, e := reg[..|reg| - 1], reg[|reg| - 1];
      IdentifiesNamedSnoc(reg, n, w);
      EngineersMatchingOnce(w, init, n);
      var tail := if Config.Identifies(e, w) then [e.name] else [];
      Dict.OccurrencesAppend(EngineersMatching(w, init), tail, n);
      if Config.Identifies(e, w) && e.name == n {
        assert tail[..0] == [];
      }
    }
  }

  /** One engineer more: the keyword identifies someone named `n` among
      all of them iff it does among the earlier ones or it identifies the
      new one, who then is the only one of that name. */
  lemma IdentifiesNamedSnoc(reg: seq<Config.Engineer>, n: string, w: string)
    requires reg != [] && Config.DistinctNames(reg)
    ensures Config.DistinctNames(reg[..|reg| - 1])
    ensures IdentifiesNamed(reg, n, w) <==>
              IdentifiesNamed(reg[..|reg| - 1], n, w) || (reg[|reg| - 1].name == n && Config.Identifies(reg[|reg| - 1], w))
    ensures reg[|reg| - 1].name == n ==> !IdentifiesNamed(reg[..|reg| - 1], n, w)
  {
    var init := reg[..|reg| - 1];
    assert forall i :: 0 <= i < |init| ==> init[i] == reg[i];
    if IdentifiesNamed(reg, n, w) {
      var i :| 0 <= i < |reg| && reg[i].name == n && Config.Identifies(reg[i], w);
      if i < |init| {
        assert init[i].name == n && Config.Identifies(init[i], w);
      }
    }
  }

  /** The positions of the keywords in `ws` that identify an engineer named `n`. */
  ghost function IdentifyingWords(ws: seq<string>, reg: seq<Config.Engineer>, n: string): set<int> {
    set j | 0 <= j < |ws| && IdentifiesNamed(reg, n, ws[j])
  }

  /** The increments of a list of keywords give an engineer one per keyword
      that identifies them. */
  lemma {:induction false} WordOccurrences(ws: seq<string>, reg: seq<Config.Engineer>, n: string)
    requires Config.DistinctNames(reg)
    ensures Dict.Occurrences(WordMatches(ws, reg), n) == |IdentifyingWords(ws, reg, n)|
  {
    if ws == [] {
      assert IdentifyingWords(ws, reg, n) == {};
    } else {
      var init := ws[..|ws| - 1];
      WordOccurrences(init, reg, n);
      EngineersMatchingOnce(ws[|ws| - 1], reg, n);
      Dict.OccurrencesAppend(WordMatches(init, reg), EngineersMatching(ws[|ws| - 1], reg), n);
      IdentifyingWordsSnoc(ws, reg, n);
    }
  }

  lemma IdentifyingWordsSnoc(ws: seq<string>, reg: seq<Config.Engineer>, n: string)
    requires ws != []
    ensures |ws| - 1 !in IdentifyingWords(ws[..|ws| - 1], reg, n)
    ensures IdentifyingWords(ws, reg, n) == IdentifyingWords(ws[..|ws| - 1], reg, n)
              + (if IdentifiesNamed(reg, n, ws[|ws| - 1]) then {|ws| - 1} else {})
  {
    var init := ws[..|ws| - 1];
    assert forall j :: 0 <= j < |init| ==> init[j] == ws[j];
  }

  /** Increments over a concatenation of keyword lists concatenate. */
  lemma {:induction false} WordMatchesAppend(a: seq<string>, b: seq<string>, reg: seq<Config.Engineer>)
    ensures WordMatches(a + b, reg) == WordMatches(a, reg) + WordMatches(b, reg)
    decreases |b|
  {
    if b == [] {
      assert a + b == a;
    } else {
      var init := b[..|b| - 1];
      assert (a + b)[..|a + b| - 1] == a + init;
      assert (a + b)[|a + b| - 1] == b[|b| - 1];
      WordMatchesAppend(a, init, reg);
      Seqs.AppendAssoc(WordMatches(a, reg), WordMatches(init, reg), EngineersMatching(b[|b| - 1], reg));
    }
  }

  /** The found keywords of all results, result by result: one position per
      (result, keyword) pair. */
  function StampWords(ds: seq<DocumentResult>): seq<string> {
    if ds == [] then [] else StampWords(ds[..|ds| - 1]) + ds[|ds| - 1].stampKeywords
  }

  /** The increments over all results are those of all their keywords in a row. */
  lemma {:induction false} EngineerMatchesFlat(ds: seq<DocumentResult>, reg: seq<Config.Engineer>)
    ensures EngineerMatches(ds, reg) == WordMatches(StampWords(ds), reg)
  {
    if ds != [] {
      var init := ds[..|ds| - 1];
      EngineerMatchesFlat(init, reg);
      WordMatchesAppend(StampWords(init), ds[|ds| - 1].stampKeywords, reg);
    }
  }

  /** The count `mostrarEngenheirosEncontrados` shows for an engineer is the
      number of (result, found keyword) pairs whose keyword is that
      engineer's name or one of their CREAs. */
  lemma EngineerCount(ds: seq<DocumentResult>, reg: seq<Config.Engineer>, n: string)
    requires Config.DistinctNames(reg)
    ensures Dict.Lookup(Dict.Tally(EngineerMatches(ds, reg)), n).GetOr(0) ==
              |IdentifyingWords(StampWords(ds), reg, n)|
  {
    Dict.TallyCounts(EngineerMatches(ds, reg), n);
    EngineerMatchesFlat(ds, reg);
    WordOccurrences(StampWords(ds), reg, n);
  }

  /** A keyword that identifies no engineer counts nobody. */
  lemma {:induction false} NoEngineerMatches(w: string, reg: seq<Config.Engineer>)
    requires forall i :: 0 <= i < |reg| ==> !Config.Identifies(reg[i], w)
    ensures EngineersMatching(w, reg) == []
  {
    if reg != [] {
      var init := reg[..|reg| - 1];
      assert forall i :: 0 <= i < |init| ==> init[i] == reg[i];
      NoEngineerMatches(w, init);
    }
  }

  /** A keyword that identifies exactly one engineer counts that engineer
      once. */
  lemma {:induction false} SingleEngineerMatches(w: string, reg: seq<Config.Engineer>, j: nat)
    requires j < |reg| && Config.Identifies(reg[j], w)
    requires forall i :: 0 <= i < |reg| && i != j ==> !Config.Identifies(reg[i], w)
    ensures EngineersMatching(w, reg) == [reg[j].name]
  {
    var init := reg[..|reg| - 1];
    assert forall i :: 0 <= i < |init| ==> init[i] == reg[i];
    if j == |reg| - 1 {
      NoEngineerMatches(w, init);
    } else {
      SingleEngineerMatches(w, init, j);
    }
  }

  /** The increments made for the keywords `ws` of one result. */
  function WordMatches(ws: seq<string>, reg: seq<Config.Engineer>): seq<string> {
    if ws == [] then [] else WordMatches(ws[..|ws| - 1], reg) + EngineersMatching(ws[|ws| - 1], reg)
  }

  /** The increments made for all results, result by result. */
  function EngineerMatches(ds: seq<DocumentResult>, reg: seq<Config.Engineer>): seq<string> {
    if ds == [] then [] else EngineerMatches(ds[..|ds| - 1], reg) + WordMatches(ds[|ds| - 1].stampKeywords, reg)
  }

  lemma EngineerStep(reg: seq<Config.Engineer>, w: string, k: nat)
    requires k < |reg|
    ensures Config.Identifies(reg[k], w) ==>
              EngineersMatching(w, reg[..k + 1]) == EngineersMatching(w, reg[..k]) + [reg[k].name]
    ensures !Config.Identifies(reg[k], w) ==>
              EngineersMatching(w, reg[..k + 1]) == EngineersMatching(w, reg[..k])
  {
    assert reg[..k + 1][..k] == reg[..k];
    Seqs.AppendAssoc(EngineersMatching(w, reg[..k]), [], []);
  }

  lemma WordStep(ws: seq<string>, reg: seq<Config.Engineer>, j: nat)
    requires j < |ws|
    ensures WordMatches(ws[..j + 1], reg) == WordMatches(ws[..j], reg) + EngineersMatching(ws[j], reg)
  {
    assert ws[..j + 1][..j] == ws[..j];
  }

  lemma ResultStep(ds: seq<DocumentResult>, reg: seq<Config.Engineer>, i: nat)
    requires i < |ds|
    ensures EngineerMatches(ds[..i + 1], reg) == EngineerMatches(ds[..i], reg) + WordMatches(ds[i].stampKeywords, reg)
  {
    assert ds[..i + 1][..i] == ds[..i];
  }

  /** The loop over the registry for one found keyword. */
  method TallyWord(tally0: seq<(string, int)>, w: string, reg: seq<Config.Engineer>, ghost seen: seq<string>)
    returns (tally: seq<(string, int)>)
    requires tally0 == Dict.Tally(seen)
    ensures tally == Dict.Tally(seen + EngineersMatching(w, reg))
  {
    tally := tally0;
    var k := 0;
    assert reg[..0] == [];
    Seqs.AppendAssoc(seen, [], []);
    while k < |reg|
      invariant 0 <= k <= |reg|
      invariant tally == Dict.Tally(seen + EngineersMatching(w, reg[..k]))
    {
      var e := reg[k];
      EngineerStep(reg, w, k);
      ghost var before := EngineersMatching(w, reg[..k]);
      if w == e.name || w in e.creas {
        Seqs.AppendAssoc(seen, before, [e.name]);
        Dict.TallySnoc(seen + before, e.name);
        tally := Dict.Increment(tally, e.name);
      }
      k := k + 1;
    }
    assert reg[..|reg|] == reg;
  }

  /** The loop over the found keywords of one result. */
  method TallyWords(tally0: seq<(string, int)>, words: seq<string>, reg: seq<Config.Engineer>, ghost seen: seq<string>)
    returns (tally: seq<(string, int)>)
    requires tally0 == Dict.Tally(seen)
    ensures tally == Dict.Tally(seen + WordMatches(words, reg))
  {
    tally := tally0;
    var j := 0;
    assert words[..0] == [];
    Seqs.AppendAssoc(seen, [], []);
    while j < |words|
      invariant 0 <= j <= |words|
      invariant tally == Dict.Tally(seen + WordMatches(words[..j], reg))
    {
      WordStep(words, reg, j);
      Seqs.AppendAssoc(seen, WordMatches(words[..j], reg), EngineersMatching(words[j], reg));
      tally := TallyWord(tally, words[j], reg, seen + WordMatches(words[..j], reg));
      j := j + 1;
    }
    assert words[..|words|] == words;
  }

  /** `mostrarEngenheirosEncontrados`: for every result, every found
      keyword and every registered engineer the keyword identifies, one more
      for that engineer. */
  method EngineerTally(ds: seq<DocumentResult>, reg: seq<Config.Engineer>) returns (tally: seq<(string, int)>)
    ensures tally == Dict.Tally(EngineerMatches(ds, reg))
  {
    tally := [];
    var i := 0;
    while i < |ds|
      invariant 0 <= i <= |ds|
      invariant tally == Dict.Tally(EngineerMatches(ds[..i], reg))
    {
      ResultStep(ds, reg, i);
      tally := TallyWords(tally, ds[i].stampKeywords, reg, EngineerMatches(ds[..i], reg));
      i := i + 1;
    }
    assert ds[..|ds|] == ds;
  }

  /** A concrete run: one document whose stamp holds both the name and a CREA
      of the same engineer counts that engineer twice, so a count can exceed
      the number of files. */
  lemma EngineerCountCanExceedFiles(d: DocumentResult)
    requires d.stampKeywords == ["FLAVIO SORDI", "2201136580"]
    ensures Dict.Lookup(Dict.Tally(EngineerMatches([d], Config.EngineerRegistry)), "FLAVIO SORDI") == Some(2)
  {
    var flavio := "FLAVIO SORDI";
    var names := EngineerMatches([d], Config.EngineerRegistry);
    NameAndCreaMatchTwice(d);
    Dict.TallyCounts(names, flavio);
    Dict.TallyHasKey(names, flavio);
    assert names[..1] == [flavio];
  }

  /** The increments of that document: FLAVIO SORDI, twice. */
  lemma NameAndCreaMatchTwice(d: DocumentResult)
    requires d.stampKeywords == ["FLAVIO SORDI", "2201136580"]
    ensures EngineerMatches([d], Config.EngineerRegistry) == ["FLAVIO SORDI", "FLAVIO SORDI"]
  {
    var reg := Config.EngineerRegistry;
    var flavio := "FLAVIO SORDI";
    SingleEngineerMatches(flavio, reg, 2);
    SingleEngineerMatches("2201136580", reg, 2);
    var ws := d.stampKeywords;
    assert ws[..1][..0] == [] && ws[..1] == [flavio] && ws[..2] == ws;
    assert WordMatches(ws[..1], reg) == [] + [flavio];
    assert WordMatches(ws, reg) == WordMatches(ws[..1], reg) + [flavio];
    assert [d][..0] == [] && [d][0] == d;
    assert EngineerMatches([d], reg) == EngineerMatches([], reg) + WordMatches(ws, reg);
  }

  /** The key `"<code> - <description>"` under which a result is tallied,
      or nothing when its code is missing or its description unresolved. */
  function ProjectLabel(d: DocumentResult): (key: Option<string>)
    ensures key.Some? <==>
              d.projectCode.Some? && d.projectCode.value != "" && d.projectDescription != Config.Unknown
    ensures key.Some? ==> key.value == d.projectCode.value + " - " + d.projectDescription
  {
    if d.projectCode.Some? && d.projectCode.value != "" && d.projectDescription != Config.Unknown
    then Some(d.projectCode.value + " - " + d.projectDescription)
    else None
  }

  function ProjectLabels(ds: seq<DocumentResult>): (labels: seq<string>)
    ensures |labels| <= |ds|
  {
    if ds == [] then []
    else
      var l := ProjectLabel(ds[|ds| - 1]);
      ProjectLabels(ds[..|ds| - 1]) + (if l.Some? then [l.value] else [])
  }

  /** Error records carry no code, so they are never tallied. */
  lemma ErrorRecordHasNoLabel(name: string, message: string)
    ensures ProjectLabel(PdfProcessor.ErrorRecord(name, message)).None?
  {
  }

  /** Every tallied key names its code: two results with different codes
      are tallied apart even when they share a description. */
  lemma LabelsSeparateCodes(d1: DocumentResult, d2: DocumentResult)
    requires ProjectLabel(d1).Some? && ProjectLabel(d2).Some?
    requires d1.projectDescription == d2.projectDescription
    requires d1.projectCode != d2.projectCode
    ensures ProjectLabel(d1) != ProjectLabel(d2)
  {
    var c1, c2 := d1.projectCode.value, d2.projectCode.value;
    if |c1| == |c2| {
      assert ProjectLabel(d1).value[..|c1|] == c1;
      assert ProjectLabel(d2).value[..|c2|] == c2;
    } else {
      assert |ProjectLabel(d1).value| != |ProjectLabel(d2).value|;
    }
  }

  /** `mostrarDetalhamentoProjetos`: one more for the label of each result
      that has one. */
  method ProjectTally(ds: seq<DocumentResult>) returns (tally: seq<(string, int)>)
    ensures tally == Dict.Tally(ProjectLabels(ds))
  {
    tally := [];
    var i := 0;
    while i < |ds|
      invariant 0 <= i <= |ds|
      invariant tally == Dict.Tally(ProjectLabels(ds[..i]))
    {
      assert ds[..i + 1][..i] == ds[..i];
      var d := ds[i];
      if d.projectCode.Some? && d.projectCode.value != "" && d.projectDescription != Config.Unknown {
        var key := d.projectCode.value + " - " + d.projectDescription;
        Dict.TallySnoc(ProjectLabels(ds[..i]), key);
        tally := Dict.Increment(tally, key);
      } else {
        assert ProjectLabels(ds[..i + 1]) == ProjectLabels(ds[..i]);
      }
      i := i + 1;
    }
    assert ds[..|ds|] == ds;
  }

  /** The project counts add up to the number of labelled results, never
      more than the number of results. */
  lemma ProjectTallyBounded(ds: seq<DocumentResult>)
    ensures Dict.SumValues(Dict.Tally(ProjectLabels(ds))) == |ProjectLabels(ds)| <= |ds|
  {
    Dict.TallySum(ProjectLabels(ds));
  }

  // ----------------------------------------------------------- results table

  /** The CSS class of a flag cell. */
  function FlagClass(b: bool): (c: string)
    ensures c == "success" <==> b
    ensures c == "error" <==> !b
  {
    if b then "success" else "error"
  }

  /** One row of the results table as (text, CSS class) cells: sheet number,
      code, description, keywords, then the four flags. */
  function TableRow(d: DocumentResult): (row: seq<(string, string)>)
    ensures |row| == 8
    ensures forall c :: 4 <= c < 8 ==> (row[c].0 == Yes <==> row[c].1 == "success")
    ensures row[4].0 == Yes <==> d.nameFound
    ensures row[5].0 == Yes <==> d.sheetFound
    ensures row[6].0 == Yes <==> d.signedByName
    ensures row[7].0 == Yes <==> d.projectFound
    ensures d.sheetNumber.None? ==> row[0].0 == Unidentified
    ensures d.projectCode.None? ==> row[1].0 == Unidentified
    ensures d.stampKeywords == [] ==> row[3].0 == NoKeywords
  {
    [(OrUnidentified(d.sheetNumber), ""), (OrUnidentified(d.projectCode), ""),
     (d.projectDescription, ""), (KeywordsText(d.stampKeywords), ""),
     (YesNo(d.nameFound), FlagClass(d.nameFound)), (YesNo(d.sheetFound), FlagClass(d.sheetFound)),
     (YesNo(d.signedByName), FlagClass(d.signedByName)), (YesNo(d.projectFound), FlagClass(d.projectFound))]
  }

  /** The results table and the spreadsheet show the same texts: the sheet
      number, the code, the description, the keywords and the four flags. */
  lemma TableRowMatchesExcelRow(fileName: string, d: DocumentResult)
    ensures var row, cells := ExcelGenerator.ExcelRow(fileName, d), TableRow(d);
            cells[0].0 == row[4] && cells[1].0 == row[0] && cells[2].0 == row[1] && cells[3].0 == row[2] &&
            cells[4].0 == row[5] && cells[5].0 == row[6] && cells[6].0 == row[7] && cells[7].0 == row[8]
  {
  }

  // -------------------------------------------------------------- the page

  const InvalidSelectionMessage := "Por favor, selecione arquivos PDF válidos."
  const NoSelectionMessage := "Por favor, selecione pelo menos um arquivo PDF."
  const NoResultsMessage := "Nenhum resultado disponível para download."

  /** The page object: the PDFs of the last selection and the results of
      the last analysis. */
  class Analyzer {
    var uploadedFiles: seq<PdfFile>
    var results: Results

    constructor()
      ensures uploadedFiles == [] && results == []
    {
      uploadedFiles := [];
      results := [];
    }

    /** `handleFiles`: keeps the PDFs of the selection; complains when a
        non-empty selection holds none. */
    method HandleFiles(files: seq<PdfFile>) returns (error: Option<string>)
      modifies this`uploadedFiles
      ensures uploadedFiles == FilterPdfs(files)
      ensures error == (if uploadedFiles == [] && files != [] then Some(InvalidSelectionMessage) else None)
    {
      uploadedFiles := FilterPdfs(files);
      if |uploadedFiles| == 0 && |files| > 0 {
        return Some(InvalidSelectionMessage);
      }
      return None;
    }

    /** `iniciarAnalise`: refuses to start without files; otherwise reads
        the keyword box and the options and stores the batch results. */
    method StartAnalysis(keywordsText: string, opts: Options, engineerKeywords: seq<string>,
                         projects: seq<(string, string)>)
      returns (error: Option<string>, reports: seq<PdfProcessor.ProgressReport>)
      modifies this`results
      ensures old(uploadedFiles) == [] ==> error == Some(NoSelectionMessage) && reports == [] && unchanged(`results)
      ensures old(uploadedFiles) != [] ==>
                error.None? && reports == PdfProcessor.ProgressReports(old(uploadedFiles))
                && results == PdfProcessor.BatchResults(old(uploadedFiles), engineerKeywords,
                                                        engineerKeywords + ParseKeywords(keywordsText), opts, projects)
    {
      var files := uploadedFiles;
      if |files| == 0 {
        error, reports := Some(NoSelectionMessage), [];
        return;
      }
      var extra := ParseKeywords(keywordsText);
      var r;
      r, reports := PdfProcessor.ProcessBatch(files, engineerKeywords, extra, opts, projects);
      results := r.value;
      error := None;
    }
  
    /** `baixarExcel`: refuses when there are no results; otherwise builds
        the workbook of the stored results (writing the file is left to the
        spreadsheet library). */
    method ExportResults() returns (error: Option<string>, ws: ExcelGenerator.Worksheet?)
      ensures results == [] ==> error == Some(NoResultsMessage) && ws == null
      ensures results != [] ==> error.None? && ws != null && fresh(ws) && ws.Valid() &&
                                ws.grid.Length0 == |results| + 1 && ws.grid.Length1 == |ExcelGenerator.Columns|
    {
      if |results| == 0 {
        return Some(NoResultsMessage), null;
      }
      ws := ExcelGenerator.GenerateWorkbook(results);
      error := None;
    }
  }
}
