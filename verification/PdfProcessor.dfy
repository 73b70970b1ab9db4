/** The PDF processor (js/pdf-processor.js): what is read off a file name
    (sheet number, project code, the "assinado" marker), the page-by-page
    matcher that builds one result record per document, and the batch loop
    that runs it over every uploaded file. */
module PdfProcessor {
  import opened Wrappers
  import opened Strings
  import Seqs
  import Dict
  import Config
  import opened Records

  // ------------------------------------------------------------ validation

  const PdfMimeType := "application/pdf"

  /** The test shared by `validarArquivoPDF` and the upload filter: the MIME
      type is `application/pdf`, or the lower-cased name ends in `.pdf`. */
  predicate IsPdfFile(f: PdfFile) {
    f.mimeType == PdfMimeType || EndsWithIgnoreCase(f.name, ".pdf")
  }

  const NotAPdfMessage := "O arquivo não é um PDF válido"

  // -------------------------------------------------------- file-name parts

  /** `name.replace(/\.pdf$/i, '')`. */
  function RemovePdfExtension(name: string): (r: string)
    ensures |r| <= |name| && r == name[..|r|]
    ensures EndsWithIgnoreCase(name, ".pdf") ==> |r| == |name| - 4
    ensures !EndsWithIgnoreCase(name, ".pdf") ==> r == name
  {
    if EndsWithIgnoreCase(name, ".pdf") then name[..|name| - 4] else name
  }

  /** A name made of a stem and a `.pdf` extension in any case loses exactly
      the extension. */
  lemma RemovePdfExtensionOfPdfName(stem: string, ext: string)
    requires |ext| == 4 && Lower(ext) == ".pdf"
    ensures RemovePdfExtension(stem + ext) == stem
  {
    var name := stem + ext;
    assert name[|name| - 4..|name| - 4 + 4] == ext;
    assert name[..|name| - 4] == stem;
  }

  /** The name with its `.pdf` extension and its first `_assinado` (in any
      case) removed: `nomeSemAssinado`, also the input of the sheet-number
      patterns. */
  function BaseName(name: string): string {
    RemoveFirstIgnoreCase(RemovePdfExtension(name), "_assinado")
  }

  // ----------------------------------------------------------- sheet number

  predicate IsSeparator(c: char) { c == '_' || c == '-' }

  predicate AllDigits(s: string) {
    forall i :: 0 <= i < |s| ==> IsDigit(s[i])
  }

  /** The pattern `[_\-](\d{n1})[_\-](\d{n2})` matches `s` at index `i`. */
  predicate SheetMatchAt(s: string, n1: nat, n2: nat, i: nat) {
    i + n1 + n2 + 2 <= |s|
    && IsSeparator(s[i]) && AllDigits(s[i + 1..i + 1 + n1])
    && IsSeparator(s[i + 1 + n1]) && AllDigits(s[i + 2 + n1..i + 2 + n1 + n2])
  }

  /** Leftmost match of the pattern at or after `from` (`String.match`
      without the `g` flag reports the leftmost match). */
  function FirstSheetMatch(s: string, n1: nat, n2: nat, from: nat): (r: Option<nat>)
    ensures r.Some? ==> from <= r.value && SheetMatchAt(s, n1, n2, r.value)
    ensures r.Some? ==> forall j :: from <= j < r.value ==> !SheetMatchAt(s, n1, n2, j)
    ensures r.None? ==> forall j :: from <= j ==> !SheetMatchAt(s, n1, n2, j)
    decreases |s| - from
  {
    if from + n1 + n2 + 2 > |s| then None
    else if SheetMatchAt(s, n1, n2, from) then Some(from)
    else FirstSheetMatch(s, n1, n2, from + 1)
  }

  /** The two captured digit groups joined by one space. */
  function SheetGroups(s: string, n1: nat, n2: nat, i: nat): (r: string)
    requires SheetMatchAt(s, n1, n2, i)
    ensures |r| == n1 + n2 + 1 && r[n1] == ' '
    ensures r[..n1] == s[i + 1..i + 1 + n1] && r[n1 + 1..] == s[i + 2 + n1..i + 2 + n1 + n2]
    ensures AllDigits(r[..n1]) && AllDigits(r[n1 + 1..])
  {
    var g1 := s[i + 1..i + 1 + n1];
    var g2 := s[i + 2 + n1..i + 2 + n1 + n2];
    assert (g1 + " " + g2)[..n1] == g1 && (g1 + " " + g2)[n1 + 1..] == g2;
    g1 + " " + g2
  }

  /** The patterns of `extrairNumeroPrancha`, as digit counts, in the order
      they are tried: `_dd_dd`, `_dd_ddd`, `_ddd_ddd`. */
  const SheetRules: seq<(nat, nat)> := [(2, 2), (2, 3), (3, 3)]

  /** The index of the first rule that matches anywhere in `s`, or the
      number of rules when none does. */
  function FirstMatchingRule(s: string, rules: seq<(nat, nat)>): (k: nat)
    ensures k <= |rules|
    ensures forall k', i :: 0 <= k' < k ==> !SheetMatchAt(s, rules[k'].0, rules[k'].1, i)
    ensures k < |rules| ==> FirstSheetMatch(s, rules[k].0, rules[k].1, 0).Some?
  {
    if rules == [] || FirstSheetMatch(s, rules[0].0, rules[0].1, 0).Some? then 0
    else
      assert forall k' :: 1 <= k' < |rules| ==> rules[k'] == rules[1..][k' - 1];
      1 + FirstMatchingRule(s, rules[1..])
  }

  /** Tries the rules in order; the first rule that matches anywhere decides,
      with its leftmost match. */
  function ApplySheetRules(s: string, rules: seq<(nat, nat)>): (r: Option<string>)
    ensures r.None? <==> forall k, i :: 0 <= k < |rules| ==> !SheetMatchAt(s, rules[k].0, rules[k].1, i)
    ensures r.None? <==> FirstMatchingRule(s, rules) == |rules|
    ensures r.Some? ==> var k := FirstMatchingRule(s, rules);
              k < |rules| && r.value == SheetGroups(s, rules[k].0, rules[k].1, FirstSheetMatch(s, rules[k].0, rules[k].1, 0).value)
  {
    if rules == [] then None
    else match FirstSheetMatch(s, rules[0].0, rules[0].1, 0)
      case Some(i) =>
        Some(SheetGroups(s, rules[0].0, rules[0].1, i))
      case None =>
        assert forall k :: 1 <= k < |rules| ==> rules[k] == rules[1..][k - 1];
        ApplySheetRules(s, rules[1..])
  }

  /** A sheet number as the rules can produce it: two digits, a space, two
      digits; or three digits, a space, three digits. */
  predicate IsSheetNumberShape(v: string) {
    (|v| == 5 && AllDigits(v[..2]) && v[2] == ' ' && AllDigits(v[3..]))
    || (|v| == 7 && AllDigits(v[..3]) && v[3] == ' ' && AllDigits(v[4..]))
  }

  /** Every match of the two-then-three-digit pattern is, at the same
      position, a match of the two-then-two-digit pattern. */
  lemma SecondRuleShadowed(s: string, i: nat)
    requires SheetMatchAt(s, 2, 3, i)
    ensures SheetMatchAt(s, 2, 2, i)
  {
    var short, long := s[i + 4..i + 6], s[i + 4..i + 7];
    assert forall j :: 0 <= j < 2 ==> short[j] == long[j];
  }

  /** The `_dd_ddd` rule never decides: whenever it matches, the `_dd_dd`
      rule before it matches too, so dropping it changes no result. */
  lemma {:induction false} MiddleRuleNeverDecides(s: string)
    ensures ApplySheetRules(s, SheetRules) == ApplySheetRules(s, [(2, 2), (3, 3)])
  {
    assert SheetRules[1..] == [(2, 3), (3, 3)];
    assert [(2, 3), (3, 3)][1..] == [(3, 3)];
    assert [(2, 2), (3, 3)][1..] == [(3, 3)];
    if FirstSheetMatch(s, 2, 2, 0).None? {
      if FirstSheetMatch(s, 2, 3, 0).Some? {
        SecondRuleShadowed(s, FirstSheetMatch(s, 2, 3, 0).value);
      }
    }
  }

  /** The two deciding rules: the leftmost `_dd_dd` match if there is one,
      otherwise the leftmost `_ddd_ddd` match. */
  lemma DecidingRules(s: string)
    ensures FirstSheetMatch(s, 2, 2, 0).Some? ==>
              ApplySheetRules(s, [(2, 2), (3, 3)]) == Some(SheetGroups(s, 2, 2, FirstSheetMatch(s, 2, 2, 0).value))
    ensures FirstSheetMatch(s, 2, 2, 0).None? ==>
              ApplySheetRules(s, [(2, 2), (3, 3)]) == ApplySheetRules(s, [(3, 3)])
    ensures FirstSheetMatch(s, 3, 3, 0).Some? ==>
              ApplySheetRules(s, [(3, 3)]) == Some(SheetGroups(s, 3, 3, FirstSheetMatch(s, 3, 3, 0).value))
  {
    assert [(2, 2), (3, 3)][1..] == [(3, 3)];
  }

  /** What the two deciding rules can produce. */
  lemma DecidingRulesShape(s: string)
    ensures ApplySheetRules(s, [(2, 2), (3, 3)]).Some? ==> IsSheetNumberShape(ApplySheetRules(s, [(2, 2), (3, 3)]).value)
  {
    DecidingRules(s);
    if FirstSheetMatch(s, 2, 2, 0).None? && FirstSheetMatch(s, 3, 3, 0).None? {
      assert [(3, 3)][1..] == [];
    }
  }

  /** `extrairNumeroPrancha`: the result is absent exactly when neither the
      `_dd_dd` nor the `_ddd_ddd` pattern occurs in the base name; otherwise
      it is the two digit groups of the leftmost `_dd_dd` match, or failing
      that of the leftmost `_ddd_ddd` match, joined by one space. */
  function ExtractSheetNumber(name: string): (r: Option<string>)
    ensures r.None? <==> forall i :: !SheetMatchAt(BaseName(name), 2, 2, i) && !SheetMatchAt(BaseName(name), 3, 3, i)
    ensures r.Some? ==> IsSheetNumberShape(r.value)
    ensures forall i :: FirstSheetMatch(BaseName(name), 2, 2, 0) == Some(i) ==>
              r == Some(SheetGroups(BaseName(name), 2, 2, i))
    ensures forall i :: FirstSheetMatch(BaseName(name), 2, 2, 0).None? && FirstSheetMatch(BaseName(name), 3, 3, 0) == Some(i) ==>
              r == Some(SheetGroups(BaseName(name), 3, 3, i))
  {
    var s := BaseName(name);
    MiddleRuleNeverDecides(s);
    DecidingRulesShape(s);
    DecidingRules(s);
    var rules: seq<(nat, nat)> := [(2, 2), (3, 3)];
    assert forall i :: SheetMatchAt(s, rules[0].0, rules[0].1, i) == SheetMatchAt(s, 2, 2, i);
    assert forall i :: SheetMatchAt(s, rules[1].0, rules[1].1, i) == SheetMatchAt(s, 3, 3, i);
    ApplySheetRules(s, SheetRules)
  }

  /** The shadowed pattern in action: in `x-01-071.pdf` the `_dd_dd` rule
      already matches `-01-07`, so the name yields "01 07" and the trailing
      digit is lost. */
  lemma ShadowedSheetNumber()
    ensures ExtractSheetNumber("x-01-071.pdf") == Some("01 07")
  {
    var name := "x-01-071.pdf";
    var s := "x-01-071";
    assert RemovePdfExtension(name) == s by {
      assert Lower(name[|name| - 4..]) == ".pdf";
    }
    assert BaseName(name) == s;
    assert !SheetMatchAt(s, 2, 2, 0);
    assert SheetMatchAt(s, 2, 2, 1);
    assert FirstSheetMatch(s, 2, 2, 0) == Some(1);
    var g := SheetGroups(s, 2, 2, 1);
    assert g[..2] == "01" && g[3..] == "07";
    assert g == "01 07";
  }

  // ----------------------------------------------------------- project code

  /** Length of the run of ASCII letters starting at `k`: what the greedy
      `[A-Z]+` of a case-insensitive pattern consumes there. */
  function LetterRun(s: string, k: nat): (n: nat)
    requires k <= |s|
    ensures k + n <= |s|
    ensures forall j :: k <= j < k + n ==> IsAsciiLetter(s[j])
    ensures k + n == |s| || !IsAsciiLetter(s[k + n])
    decreases |s| - k
  {
    if k < |s| && IsAsciiLetter(s[k]) then 1 + LetterRun(s, k + 1) else 0
  }

  /** `/PRJ-([A-Z]+)-/i` matches at `i`: the prefix in any case, at least one
      letter, then a hyphen. Backtracking cannot help, because a shorter run
      of letters is followed by a letter, never by the hyphen. */
  predicate ProjectCodeAt(s: string, i: nat) {
    i + 4 <= |s| && MatchesAtIgnoreCase(s, "PRJ-", i)
    && var n := LetterRun(s, i + 4);
       n >= 1 && i + 4 + n < |s| && s[i + 4 + n] == '-'
  }

  /** The group the pattern captures at a match. */
  function ProjectCodeGroup(s: string, i: nat): string
    requires ProjectCodeAt(s, i)
  {
    s[i + 4..i + 4 + LetterRun(s, i + 4)]
  }

  function FirstProjectCode(s: string, from: nat): (r: Option<nat>)
    ensures r.Some? ==> from <= r.value && ProjectCodeAt(s, r.value)
    ensures r.Some? ==> forall j :: from <= j < r.value ==> !ProjectCodeAt(s, j)
    ensures r.None? ==> forall j :: from <= j ==> !ProjectCodeAt(s, j)
    decreases |s| - from
  {
    if from + 4 > |s| then None
    else if ProjectCodeAt(s, from) then Some(from)
    else FirstProjectCode(s, from + 1)
  }

  /** `extrairCodigoProjeto`: absent exactly when the pattern matches
      nowhere; otherwise the letters captured at the leftmost match, in the
      case in which the name spells them. */
  function ExtractProjectCode(name: string): (r: Option<string>)
    ensures r.None? <==> forall i :: !ProjectCodeAt(name, i)
    ensures r.Some? ==> exists i: nat :: ProjectCodeAt(name, i)
                          && (forall j :: 0 <= j < i ==> !ProjectCodeAt(name, j))
                          && r.value == ProjectCodeGroup(name, i)
    ensures r.Some? ==> r.value != "" && forall j :: 0 <= j < |r.value| ==> IsAsciiLetter(r.value[j])
  {
    match FirstProjectCode(name, 0)
    case None => None
    case Some(i) => Some(ProjectCodeGroup(name, i))
  }

  /** A name that starts with `PRJ-`, a code of letters and a hyphen yields
      exactly that code. */
  lemma ProjectCodeOfCodedName(prefix: string, code: string, rest: string)
    requires |prefix| == 4 && Lower(prefix) == "prj-"
    requires code != [] && forall j :: 0 <= j < |code| ==> IsAsciiLetter(code[j])
    ensures ExtractProjectCode(prefix + code + "-" + rest) == Some(code)
  {
    var s := prefix + code + "-" + rest;
    assert s[0..4] == prefix;
    assert Lower("PRJ-") == "prj-";
    LetterRunOf(s, 4, code);
    assert s[4 + |code|] == '-';
    assert ProjectCodeAt(s, 0);
    assert s[4..4 + |code|] == code;
  }

  lemma {:induction false} LetterRunOf(s: string, k: nat, code: string)
    requires k + |code| < |s| && s[k..k + |code|] == code
    requires forall j :: 0 <= j < |code| ==> IsAsciiLetter(code[j])
    requires !IsAsciiLetter(s[k + |code|])
    ensures LetterRun(s, k) == |code|
    decreases |code|
  {
    if code != [] {
      assert s[k] == code[0];
      assert s[k + 1..k + 1 + |code[1..]|] == code[1..];
      LetterRunOf(s, k + 1, code[1..]);
    }
  }

  // ---------------------------------------------------------- the signature

  /** `verificarAssinaturaNome`: the lower-cased name contains `assinado`. */
  predicate IsSigned(name: string) {
    Contains(Lower(name), "assinado")
  }

  lemma LowerSlice(s: string, i: nat, j: nat)
    requires i <= j <= |s|
    ensures Lower(s)[i..j] == Lower(s[i..j])
  {
  }

  /** Signed means: `assinado` occurs somewhere in the name, in any case. */
  lemma SignedIffMarker(name: string)
    ensures IsSigned(name) <==> exists i :: MatchesAtIgnoreCase(name, "assinado", i)
  {
    assert Lower("assinado") == "assinado";
    if IsSigned(name) {
      var i: nat :| i <= |Lower(name)| && StartsAt(Lower(name), "assinado", i);
      LowerSlice(name, i, i + 8);
      assert MatchesAtIgnoreCase(name, "assinado", i);
    }
    if exists i :: MatchesAtIgnoreCase(name, "assinado", i) {
      var i: nat :| MatchesAtIgnoreCase(name, "assinado", i);
      LowerSlice(name, i, i + 8);
      assert StartsAt(Lower(name), "assinado", i);
    }
  }

  /** A case-insensitive match of a pattern is a match of its tail one
      position further on. */
  lemma {:induction false} MatchTail(s: string, pat: string, i: nat)
    requires pat != [] && MatchesAtIgnoreCase(s, pat, i)
    ensures MatchesAtIgnoreCase(s, pat[1..], i + 1)
  {
    var w := s[i..i + |pat|];
    assert s[i + 1..i + 1 + |pat[1..]|] == w[1..];
    assert Lower(w[1..]) == Lower(w)[1..];
    assert Lower(pat[1..]) == Lower(pat)[1..];
  }

  /** A match inside a prefix is a match in the whole string. */
  lemma MatchInPrefix(s: string, n: nat, pat: string, i: nat)
    requires n <= |s| && MatchesAtIgnoreCase(s[..n], pat, i)
    ensures MatchesAtIgnoreCase(s, pat, i)
  {
    assert s[..n][i..i + |pat|] == s[i..i + |pat|];
  }

  /** Whenever the base name lost an `_assinado` marker, the file is reported
      as signed by its name. */
  lemma StrippedMarkerMeansSigned(name: string)
    requires BaseName(name) != RemovePdfExtension(name)
    ensures IsSigned(name)
  {
    var stem := RemovePdfExtension(name);
    var i := IndexOfIgnoreCase(stem, "_assinado", 0).value;
    MatchInPrefix(name, |stem|, "_assinado", i);
    MatchTail(name, "_assinado", i);
    assert "_assinado"[1..] == "assinado";
    SignedIffMarker(name);
  }

  // ------------------------------------------------------ project description

  /** The property name `MAPEAMENTO_PROJETOS[codigoProjeto]` reads: a missing
      code is converted to the string `"null"`. */
  function ProjectKey(code: Option<string>): string {
    if code.Some? then code.value else "null"
  }

  /** `MAPEAMENTO_PROJETOS[codigoProjeto] || 'Desconhecido'`. */
  function DescribeProject(projects: seq<(string, string)>, code: Option<string>): (d: string)
    ensures d != ""
    ensures ProjectKey(code) in Dict.Keys(projects) ==>
              var entry := projects[Seqs.FirstIndex(Dict.Keys(projects), ProjectKey(code))];
              d == if entry.1 != "" then entry.1 else Config.Unknown
    ensures ProjectKey(code) !in Dict.Keys(projects) ==> d == Config.Unknown
  {
    Dict.LookupFirst(projects, ProjectKey(code));
    match Dict.Lookup(projects, ProjectKey(code))
    case Some(v) => if v != "" then v else Config.Unknown
    case None => Config.Unknown
  }

  /** With the shipped table, a code resolves to a real description exactly
      when it is one of the table's codes, spelled in the same case; no code
      at all never resolves. */
  lemma ShippedDescriptionResolves(code: Option<string>)
    ensures DescribeProject(Config.ProjectMap, code) != Config.Unknown <==>
              ProjectKey(code) in Dict.Keys(Config.ProjectMap)
    ensures DescribeProject(Config.ProjectMap, None) == Config.Unknown
  {
    Config.ShippedDescriptionsNotUnknown();
    var k := ProjectKey(code);
    if k in Dict.Keys(Config.ProjectMap) {
      var i := Seqs.FirstIndex(Dict.Keys(Config.ProjectMap), k);
      Dict.LookupFirst(Config.ProjectMap, k);
      assert Config.ProjectMap[i].1 != Config.Unknown && Config.ProjectMap[i].1 != "";
    }
    assert "null" !in Dict.Keys(Config.ProjectMap);
    Dict.LookupFirst(Config.ProjectMap, k);
  }

  // --------------------------------------------------------------- page text

  /** `items.map(i => i.str).join(' ').replace(/\n/g, ' ')`. */
  function PageText(items: seq<string>): (t: string)
    ensures '\n' !in t
    ensures |t| == |Join(items, " ")|
    ensures forall i :: 0 <= i < |t| ==> t[i] == (if Join(items, " ")[i] == '\n' then ' ' else Join(items, " ")[i])
  {
    ReplaceAll(Join(items, " "), '\n', ' ')
  }

  /** A line break inside one text item reads as a space, so a keyword such
      as an engineer's full name matches even when the name is broken
      across two lines. */
  lemma LineBreakReadsAsSpace(a: string, b: string)
    requires '\n' !in a && '\n' !in b
    ensures PageText([a + "\n" + b]) == a + " " + b
  {
    var line := a + "\n" + b;
    assert Join([line], " ") == line;
    assert forall i :: 0 <= i < |a| ==> line[i] == a[i];
    assert forall i :: |a| < i < |line| ==> line[i] == b[i - |a| - 1];
  }

  function PageTexts(pages: seq<seq<string>>): (ts: seq<string>)
    ensures |ts| == |pages|
    ensures forall p :: 0 <= p < |pages| ==> ts[p] == PageText(pages[p])
  {
    seq(|pages|, p requires 0 <= p < |pages| => PageText(pages[p]))
  }

  /** `variacoesPrancha`: the sheet number as written, then with its first
      space replaced by `_`, then by `-`. */
  function SheetVariants(sheet: string): (vs: seq<string>)
    ensures |vs| == 3 && vs[0] == sheet
  {
    [sheet, ReplaceFirst(sheet, ' ', '_'), ReplaceFirst(sheet, ' ', '-')]
  }

  /** For a sheet number the rules produce, the variants are the two groups
      joined by a space, an underscore and a hyphen. */
  lemma SheetVariantsOfShape(sheet: string)
    requires IsSheetNumberShape(sheet)
    ensures var n := if |sheet| == 5 then 2 else 3;
            SheetVariants(sheet) == [sheet, sheet[..n] + "_" + sheet[n + 1..], sheet[..n] + "-" + sheet[n + 1..]]
  {
    var n := if |sheet| == 5 then 2 else 3;
    assert ' ' !in sheet[..n];
    assert sheet == sheet[..n] + [' '] + sheet[n + 1..];
    ReplaceFirstAt(sheet[..n], ' ', '_', sheet[n + 1..]);
    ReplaceFirstAt(sheet[..n], ' ', '-', sheet[n + 1..]);
  }

  // ----------------------------------------------------------------- matching

  /** `needles.some(v => text.includes(v))`. */
  predicate ContainsAny(text: string, needles: seq<string>) {
    exists k :: 0 <= k < |needles| && Contains(text, needles[k])
  }

  /** The keywords of `ks` one page contains, in list order (duplicates in
      `ks` kept). */
  function PageHits(text: string, ks: seq<string>): (h: seq<string>)
    ensures forall w :: w in h <==> w in ks && Contains(text, w)
    decreases |ks|
  {
    if ks == [] then []
    else
      var k := ks[|ks| - 1];
      assert forall w :: w in ks <==> w in ks[..|ks| - 1] || w == k;
      PageHits(text, ks[..|ks| - 1]) + (if Contains(text, k) then [k] else [])
  }

  /** Every push the stamp loop attempts, page after page. */
  function Candidates(texts: seq<string>, ks: seq<string>): seq<string>
    decreases |texts|
  {
    if texts == [] then []
    else Candidates(texts[..|texts| - 1], ks) + PageHits(texts[|texts| - 1], ks)
  }

  /** A keyword is a candidate exactly when it is one of the keywords and
      some page contains it. */
  lemma {:induction false} CandidatesMembers(texts: seq<string>, ks: seq<string>)
    ensures forall w :: w in Candidates(texts, ks) <==> w in ks && exists p :: 0 <= p < |texts| && Contains(texts[p], w)
    decreases |texts|
  {
    if texts != [] {
      var init := texts[..|texts| - 1];
      CandidatesMembers(init, ks);
      assert forall p :: 0 <= p < |init| ==> init[p] == texts[p];
    }
  }

  /** The error text `processarPDF` throws. */
  function ErrorMessage(name: string, reason: string): string {
    "Erro ao processar PDF " + name + ": " + reason
  }

  /** What `processarPDF` resolves to for one file, given the global engineer
      keywords, the keywords it is called with, the options and the project
      table. */
  function MatchDocument(file: PdfFile, engineerKeywords: seq<string>, keywords: seq<string>,
                         opts: Options, projects: seq<(string, string)>): (r: Result<DocumentResult>)
    ensures r.Failure? <==> !IsPdfFile(file) || file.content.Unreadable?
    ensures !IsPdfFile(file) ==> r == Failure(ErrorMessage(file.name, NotAPdfMessage))
    ensures IsPdfFile(file) && file.content.Unreadable? ==> r == Failure(ErrorMessage(file.name, file.content.reason))
  {
    if !IsPdfFile(file) then Failure(ErrorMessage(file.name, NotAPdfMessage))
    else match file.content
      case Unreadable(reason) => Failure(ErrorMessage(file.name, reason))
      case Pages(pages) => Success(Analyse(file.name, PageTexts(pages), engineerKeywords, keywords, opts, projects))
  }

  /** One of the three text checks: whether it is switched on (its option
      and the truthiness of what it looks for), and the strings any one of
      which a page must contain to raise its flag. */
  datatype Probe = Probe(enabled: bool, needles: seq<string>)

  /** `checkFilename && nomeSemAssinado && texto.includes(nomeSemAssinado)`. */
  function NameProbe(opts: Options, name: string): Probe {
    Probe(opts.checkFilename && BaseName(name) != "", [BaseName(name)])
  }

  /** `checkSheetNumber && numeroPrancha && variacoesPrancha.some(...)`. */
  function SheetProbe(opts: Options, sheet: Option<string>): Probe {
    if sheet.Some? then Probe(opts.checkSheetNumber && sheet.value != "", SheetVariants(sheet.value))
    else Probe(false, [])
  }

  /** `checkProjeto && codigoProjeto && descricao !== 'Desconhecido' && texto.includes(descricao)`. */
  function ProjectProbe(opts: Options, code: Option<string>, desc: string): Probe {
    Probe(opts.checkProjeto && code.Some? && code.value != "" && desc != Config.Unknown, [desc])
  }

  /** A flag after the first `n` pages: switched on, and raised by one of
      them. The loop raises a flag and never lowers it. */
  predicate RaisedBy(probe: Probe, texts: seq<string>, n: nat)
    requires n <= |texts|
  {
    probe.enabled && exists q :: 0 <= q < n && ContainsAny(texts[q], probe.needles)
  }

  /** One page more: the flag is raised by it or was raised before. */
  lemma RaisedByStep(probe: Probe, texts: seq<string>, n: nat)
    requires n < |texts|
    ensures RaisedBy(probe, texts, n + 1) == (RaisedBy(probe, texts, n) || (probe.enabled && ContainsAny(texts[n], probe.needles)))
  {
  }

  /** A flag after the page loop. */
  predicate Raised(probe: Probe, texts: seq<string>) {
    RaisedBy(probe, texts, |texts|)
  }

  /** The record built for a readable PDF from its page texts. */
  function Analyse(name: string, texts: seq<string>, engineerKeywords: seq<string>, keywords: seq<string>,
                   opts: Options, projects: seq<(string, string)>): (d: DocumentResult)
    ensures d.error.None? && d.fileName == RemovePdfExtension(name) && d.signedByName == IsSigned(name)
    ensures Seqs.NoDup(d.stampKeywords)
    ensures forall w :: w in d.stampKeywords <==>
              w in engineerKeywords + keywords && exists p :: 0 <= p < |texts| && Contains(texts[p], w)
    ensures d.nameFound ==> opts.checkFilename && BaseName(name) != ""
    ensures d.sheetFound ==> opts.checkSheetNumber && d.sheetNumber.Some?
    ensures d.projectFound ==> opts.checkProjeto && d.projectCode.Some? && d.projectDescription != Config.Unknown
    ensures texts == [] ==> d.stampKeywords == [] && !d.nameFound && !d.sheetFound && !d.projectFound
  {
    var sheet := ExtractSheetNumber(name);
    var code := ExtractProjectCode(name);
    var desc := DescribeProject(projects, code);
    CandidatesMembers(texts, engineerKeywords + keywords);
    DocumentResult(
      None,
      Seqs.Dedup(Candidates(texts, engineerKeywords + keywords)),
      Raised(NameProbe(opts, name), texts),
      Raised(SheetProbe(opts, sheet), texts),
      IsSigned(name),
      Raised(ProjectProbe(opts, code, desc), texts),
      code, desc, sheet, RemovePdfExtension(name))
  }

  /** One candidate more: the stamp list grows by it exactly when the page
      contains it and it is not listed yet. */
  lemma PushStep(prior: seq<string>, text: string, ks: seq<string>, j: nat)
    requires j < |ks|
    ensures Contains(text, ks[j]) && ks[j] !in Seqs.Dedup(prior + PageHits(text, ks[..j])) ==>
              Seqs.Dedup(prior + PageHits(text, ks[..j + 1])) == Seqs.Dedup(prior + PageHits(text, ks[..j])) + [ks[j]]
    ensures !(Contains(text, ks[j]) && ks[j] !in Seqs.Dedup(prior + PageHits(text, ks[..j]))) ==>
              Seqs.Dedup(prior + PageHits(text, ks[..j + 1])) == Seqs.Dedup(prior + PageHits(text, ks[..j]))
  {
    assert ks[..j + 1][..j] == ks[..j];
    var before := prior + PageHits(text, ks[..j]);
    if Contains(text, ks[j]) {
      assert prior + PageHits(text, ks[..j + 1]) == before + [ks[j]];
      Seqs.DedupSnoc(before, ks[j]);
    } else {
      assert prior + PageHits(text, ks[..j + 1]) == before;
    }
  }

  lemma CandidatesSnoc(texts: seq<string>, text: string, ks: seq<string>)
    ensures Candidates(texts + [text], ks) == Candidates(texts, ks) + PageHits(text, ks)
  {
    assert (texts + [text])[..|texts|] == texts;
  }

  /** One keyword loop of one page: every keyword of `ks` the page
      contains is pushed unless the stamp list already holds it. */
  method PushHits(stamp0: seq<string>, text: string, ks: seq<string>, ghost prior: seq<string>)
    returns (stamp: seq<string>)
    requires stamp0 == Seqs.Dedup(prior)
    ensures stamp == Seqs.Dedup(prior + PageHits(text, ks))
  {
    stamp := stamp0;
    assert ks[..0] == [];
    Seqs.AppendAssoc(prior, [], []);
    var j := 0;
    while j < |ks|
      invariant 0 <= j <= |ks|
      invariant stamp == Seqs.Dedup(prior + PageHits(text, ks[..j]))
    {
      var w := ks[j];
      PushStep(prior, text, ks, j);
      if Contains(text, w) && w !in stamp {
        stamp := stamp + [w];
      }
      j := j + 1;
    }
    assert ks[..|ks|] == ks;
  }

  /** The hits of a concatenated keyword list are the hits of its parts. */
  lemma {:induction false} PageHitsAppend(text: string, a: seq<string>, b: seq<string>)
    ensures PageHits(text, a + b) == PageHits(text, a) + PageHits(text, b)
    decreases |b|
  {
    if b != [] {
      var init := b[..|b| - 1];
      assert (a + b)[..|a + b| - 1] == a + init;
      PageHitsAppend(text, a, init);
    } else {
      assert a + b == a;
    }
  }

  /** The two keyword loops of one page: the engineer keywords first, then
      the given ones. */
  method PushPageHits(stamp0: seq<string>, text: string, engineerKeywords: seq<string>, keywords: seq<string>,
                      ghost prior: seq<string>) returns (stamp: seq<string>)
    requires stamp0 == Seqs.Dedup(prior)
    ensures stamp == Seqs.Dedup(prior + PageHits(text, engineerKeywords + keywords))
  {
    PageHitsAppend(text, engineerKeywords, keywords);
    Seqs.AppendAssoc(prior, PageHits(text, engineerKeywords), PageHits(text, keywords));
    stamp := PushHits(stamp0, text, engineerKeywords, prior);
    stamp := PushHits(stamp, text, keywords, prior + PageHits(text, engineerKeywords));
  }

  /** One of the three checks on one page: the flag is raised when the check
      is switched on and the page holds one of its needles, and is never
      lowered. */
  method CheckPage(found0: bool, probe: Probe, ghost texts: seq<string>, ghost p: nat, text: string)
    returns (found: bool)
    requires p < |texts| && text == texts[p]
    requires found0 == RaisedBy(probe, texts, p)
    ensures found == RaisedBy(probe, texts, p + 1)
  {
    RaisedByStep(probe, texts, p);
    found := found0;
    if probe.enabled && ContainsAny(text, probe.needles) {
      found := true;
    }
  }

  /** The page loop of `processarPDF`: per page, the three checks, then the
      engineer keywords and then the given keywords. */
  method ScanPages(pages: seq<seq<string>>, engineerKeywords: seq<string>, keywords: seq<string>,
                   nameProbe: Probe, sheetProbe: Probe, projectProbe: Probe)
    returns (stamp: seq<string>, nameFound: bool, sheetFound: bool, projectFound: bool)
    ensures stamp == Seqs.Dedup(Candidates(PageTexts(pages), engineerKeywords + keywords))
    ensures nameFound == Raised(nameProbe, PageTexts(pages))
    ensures sheetFound == Raised(sheetProbe, PageTexts(pages))
    ensures projectFound == Raised(projectProbe, PageTexts(pages))
  {
    ghost var all := engineerKeywords + keywords;
    ghost var texts := PageTexts(pages);
    stamp := [];
    nameFound, sheetFound, projectFound := false, false, false;
    var p := 0;
    while p < |pages|
      invariant 0 <= p <= |pages|
      invariant stamp == Seqs.Dedup(Candidates(texts[..p], all))
      invariant nameFound == RaisedBy(nameProbe, texts, p)
      invariant sheetFound == RaisedBy(sheetProbe, texts, p)
      invariant projectFound == RaisedBy(projectProbe, texts, p)
    {
      var text := PageText(pages[p]);
      ghost var done := texts[..p];
      assert texts[..p + 1] == done + [text];
      nameFound := CheckPage(nameFound, nameProbe, texts, p, text);
      sheetFound := CheckPage(sheetFound, sheetProbe, texts, p, text);
      projectFound := CheckPage(projectFound, projectProbe, texts, p, text);
      CandidatesSnoc(done, text, all);
      stamp := PushPageHits(stamp, text, engineerKeywords, keywords, Candidates(done, all));
      p := p + 1;
    }
    assert texts[..|pages|] == texts;
  }

  /** `processarPDF`: validates the file, reads the facts of its name, then
      scans its pages. */
  method ProcessPdf(file: PdfFile, engineerKeywords: seq<string>, keywords: seq<string>,
                    opts: Options, projects: seq<(string, string)>) returns (r: Result<DocumentResult>)
    ensures r == MatchDocument(file, engineerKeywords, keywords, opts, projects)
  {
    if !IsPdfFile(file) {
      return Failure(ErrorMessage(file.name, NotAPdfMessage));
    }
    var fileName := RemovePdfExtension(file.name);
    var signed := IsSigned(file.name);
    var sheet := ExtractSheetNumber(file.name);
    var code := ExtractProjectCode(file.name);
    var desc := DescribeProject(projects, code);
    if file.content.Unreadable? {
      return Failure(ErrorMessage(file.name, file.content.reason));
    }
    var stamp, nameFound, sheetFound, projectFound :=
      ScanPages(file.content.pages, engineerKeywords, keywords,
                NameProbe(opts, file.name), SheetProbe(opts, sheet), ProjectProbe(opts, code, desc));
    return Success(DocumentResult(None, stamp, nameFound, sheetFound, signed, projectFound,
                                  code, desc, sheet, fileName));
  }

  // ----------------------------------------------------- facts of the matcher

  lemma {:induction false} CandidatesAppend(texts: seq<string>, more: seq<string>, ks: seq<string>)
    ensures Candidates(texts + more, ks) == Candidates(texts, ks) + Candidates(more, ks)
    decreases |more|
  {
    if more == [] {
      assert texts + more == texts;
    } else {
      var init, last := more[..|more| - 1], more[|more| - 1];
      assert (texts + more)[..|texts + more| - 1] == texts + init;
      assert (texts + more)[|texts + more| - 1] == last;
      CandidatesAppend(texts, init, ks);
      Seqs.AppendAssoc(Candidates(texts, ks), Candidates(init, ks), PageHits(last, ks));
    }
  }

  /** Reading more pages never lowers a flag and never reorders or drops a
      stamp keyword: the record for a prefix of the pages is a prefix of the
      record for all of them. */
  lemma MorePagesOnlyAdd(name: string, texts: seq<string>, more: seq<string>, engineerKeywords: seq<string>,
                         keywords: seq<string>, opts: Options, projects: seq<(string, string)>)
    ensures var d1 := Analyse(name, texts, engineerKeywords, keywords, opts, projects);
            var d2 := Analyse(name, texts + more, engineerKeywords, keywords, opts, projects);
            (d1.nameFound ==> d2.nameFound) && (d1.sheetFound ==> d2.sheetFound) && (d1.projectFound ==> d2.projectFound)
            && |d1.stampKeywords| <= |d2.stampKeywords| && d2.stampKeywords[..|d1.stampKeywords|] == d1.stampKeywords
  {
    var all := engineerKeywords + keywords;
    CandidatesAppend(texts, more, all);
    Seqs.DedupPrefix(Candidates(texts, all), Candidates(more, all));
    assert forall q :: 0 <= q < |texts| ==> (texts + more)[q] == texts[q];
  }

  /** A page's hits for a list that repeats a prefix are absorbed by the
      first copy. */
  lemma {:induction false} RepeatedScanAbsorbed(prior: seq<string>, text: string, ek: seq<string>, extra: seq<string>)
    ensures Seqs.Dedup(prior + PageHits(text, ek + (ek + extra))) == Seqs.Dedup(prior + PageHits(text, ek + extra))
  {
    var h := PageHits(text, ek);
    var x := PageHits(text, extra);
    PageHitsAppend(text, ek, ek + extra);
    PageHitsAppend(text, ek, extra);
    assert prior + PageHits(text, ek + (ek + extra)) == ((prior + h) + h) + x;
    assert prior + PageHits(text, ek + extra) == (prior + h) + x;
    Seqs.DedupAbsorbs(prior + h, h);
    Seqs.DedupCongruence((prior + h) + h, prior + h, x);
  }

  /** The batch passes the engineer keywords followed by the extra keywords,
      and the matcher scans the engineer keywords once more before them; the
      second scan never shows: the stamp list is the one a single scan of
      engineer then extra keywords gives. */
  lemma {:induction false} DoubleScanHidden(texts: seq<string>, ek: seq<string>, extra: seq<string>)
    ensures Seqs.Dedup(Candidates(texts, ek + (ek + extra))) == Seqs.Dedup(Candidates(texts, ek + extra))
    decreases |texts|
  {
    if texts != [] {
      var init := texts[..|texts| - 1];
      var t := texts[|texts| - 1];
      DoubleScanHidden(init, ek, extra);
      var c2 := Candidates(init, ek + (ek + extra));
      var c1 := Candidates(init, ek + extra);
      Seqs.DedupCongruence(c2, c1, PageHits(t, ek + (ek + extra)));
      RepeatedScanAbsorbed(c1, t, ek, extra);
    }
  }

  // -------------------------------------------------------------- the batch

  /** One call of the `onProgress` callback: `(i, files.length, file.name)`. */
  datatype ProgressReport = ProgressReport(index: nat, total: nat, name: string)

  const NoFilesMessage := "Nenhum arquivo PDF selecionado"
  const ErrorDescription := "Erro no processamento"

  /** The record stored for a file whose processing threw `message`. */
  function ErrorRecord(name: string, message: string): (d: DocumentResult)
    ensures d.error == Some(message) && d.fileName == RemovePdfExtension(name)
    ensures d.stampKeywords == [] && !d.nameFound && !d.sheetFound && !d.signedByName && !d.projectFound
    ensures d.projectCode.None? && d.sheetNumber.None? && d.projectDescription == ErrorDescription
  {
    DocumentResult(Some(message), [], false, false, false, false, None, ErrorDescription, None, RemovePdfExtension(name))
  }

  /** What the batch stores for one file: the matcher's record, or the error
      record carrying the matcher's message. */
  function FileOutcome(file: PdfFile, engineerKeywords: seq<string>, keywords: seq<string>,
                       opts: Options, projects: seq<(string, string)>): (d: DocumentResult)
    ensures d.error.None? <==> IsPdfFile(file) && file.content.Pages?
    ensures d.fileName == RemovePdfExtension(file.name)
    ensures !IsPdfFile(file) ==> d == ErrorRecord(file.name, ErrorMessage(file.name, NotAPdfMessage))
    ensures IsPdfFile(file) && file.content.Unreadable? ==>
              d == ErrorRecord(file.name, ErrorMessage(file.name, file.content.reason))
    ensures IsPdfFile(file) && file.content.Pages? ==>
              d == Analyse(file.name, PageTexts(file.content.pages), engineerKeywords, keywords, opts, projects)
  {
    StoredRecord(file.name, MatchDocument(file, engineerKeywords, keywords, opts, projects))
  }

  /** The `try`/`catch` around one `processarPDF` call. */
  function StoredRecord(name: string, outcome: Result<DocumentResult>): DocumentResult {
    match outcome
    case Success(d) => d
    case Failure(m) => ErrorRecord(name, m)
  }

  function Names(files: seq<PdfFile>): (ns: seq<string>)
    ensures |ns| == |files| && forall i :: 0 <= i < |files| ==> ns[i] == files[i].name
  {
    seq(|files|, i requires 0 <= i < |files| => files[i].name)
  }

  /** Each file's name with its outcome, in file order. */
  function Outcomes(files: seq<PdfFile>, engineerKeywords: seq<string>, keywords: seq<string>,
                    opts: Options, projects: seq<(string, string)>): (es: Results)
    ensures Dict.Keys(es) == Names(files)
    ensures |es| == |files|
    ensures forall i :: 0 <= i < |files| ==> es[i] == (files[i].name, FileOutcome(files[i], engineerKeywords, keywords, opts, projects))
  {
    seq(|files|, i requires 0 <= i < |files| => (files[i].name, FileOutcome(files[i], engineerKeywords, keywords, opts, projects)))
  }

  /** `resultados` after the loop: each file's outcome assigned under its
      name, a later file with the same name overwriting an earlier one in
      place. */
  function BatchResults(files: seq<PdfFile>, engineerKeywords: seq<string>, keywords: seq<string>,
                        opts: Options, projects: seq<(string, string)>): Results
  {
    Dict.StoreAll(Outcomes(files, engineerKeywords, keywords, opts, projects))
  }

  function ProgressReports(files: seq<PdfFile>): (rs: seq<ProgressReport>)
    ensures |rs| == |files|
    ensures forall i :: 0 <= i < |files| ==> rs[i] == ProgressReport(i, |files|, files[i].name)
  {
    seq(|files|, i requires 0 <= i < |files| => ProgressReport(i, |files|, files[i].name))
  }

  /** `processarMultiplosPDFs`: refuses an empty selection; otherwise reports
      progress before each file and stores each file's outcome under its
      name, the extra keywords preceded by the engineer keywords. */
  method ProcessBatch(files: seq<PdfFile>, engineerKeywords: seq<string>, extraKeywords: seq<string>,
                      opts: Options, projects: seq<(string, string)>)
    returns (r: Result<Results>, reports: seq<ProgressReport>)
    ensures files == [] ==> r == Failure(NoFilesMessage) && reports == []
    ensures files != [] ==> r == Success(BatchResults(files, engineerKeywords, engineerKeywords + extraKeywords, opts, projects))
    ensures reports == ProgressReports(files)
  {
    if |files| == 0 {
      return Failure(NoFilesMessage), [];
    }
    var all := engineerKeywords + extraKeywords;
    ghost var outcomes := Outcomes(files, engineerKeywords, all, opts, projects);
    var results: Results := [];
    reports := [];
    var i := 0;
    while i < |files|
      invariant 0 <= i <= |files|
      invariant results == Dict.StoreAll(outcomes[..i])
      invariant |reports| == i && forall j :: 0 <= j < i ==> reports[j] == ProgressReport(j, |files|, files[j].name)
    {
      var file := files[i];
      reports := reports + [ProgressReport(i, |files|, file.name)];
      var outcome := ProcessPdf(file, engineerKeywords, all, opts, projects);
      var record := StoredRecord(file.name, outcome);
      assert outcomes[i] == (file.name, record);
      Dict.StoreAllSnoc(outcomes, i);
      results := Dict.Put(results, file.name, record);
      i := i + 1;
    }
    assert outcomes[..|files|] == outcomes;
    return Success(results), reports;
  }

  /** The batch keys are the file names, each once, in the order each first
      occurs. */
  lemma BatchKeys(files: seq<PdfFile>, engineerKeywords: seq<string>, keywords: seq<string>,
                  opts: Options, projects: seq<(string, string)>)
    ensures Dict.Keys(BatchResults(files, engineerKeywords, keywords, opts, projects)) == Seqs.Dedup(Names(files))
  {
    Dict.StoreAllKeys(Outcomes(files, engineerKeywords, keywords, opts, projects));
  }

  /** Looking a name up in the batch result gives the outcome of the last
      file of that name, and nothing for a name no file has. */
  lemma BatchLookup(files: seq<PdfFile>, engineerKeywords: seq<string>, keywords: seq<string>,
                    opts: Options, projects: seq<(string, string)>, name: string)
    ensures Dict.Lookup(BatchResults(files, engineerKeywords, keywords, opts, projects), name) ==
            if name in Names(files)
            then Some(FileOutcome(files[Seqs.LastIndex(Names(files), name)], engineerKeywords, keywords, opts, projects))
            else None
  {
    Dict.StoreAllLookup(Outcomes(files, engineerKeywords, keywords, opts, projects), name);
  }

  /** With distinct file names the batch result holds one entry per file, in
      file order, each the outcome of that file alone: a file that fails
      changes no other file's entry. */
  lemma BatchOfDistinctNames(files: seq<PdfFile>, engineerKeywords: seq<string>, keywords: seq<string>,
                             opts: Options, projects: seq<(string, string)>)
    requires Seqs.NoDup(Names(files))
    ensures var r := BatchResults(files, engineerKeywords, keywords, opts, projects);
            |r| == |files| && forall i :: 0 <= i < |files| ==>
              r[i] == (files[i].name, FileOutcome(files[i], engineerKeywords, keywords, opts, projects))
  {
    Dict.StoreAllDistinct(Outcomes(files, engineerKeywords, keywords, opts, projects));
  }
}
