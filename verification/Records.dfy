/** The values the analyser passes between its parts: the uploaded file, the
    check options, the per-document result record, and the cell texts both
    the results table and the spreadsheet render from a record. */
module Records {
  import opened Wrappers
  import Strings

  /** The three check boxes (`checkFilename`, `checkSheetNumber`,
      `checkProjeto`). */
  datatype Options = Options(checkFilename: bool, checkSheetNumber: bool, checkProjeto: bool)

  /** What the text extractor makes of a file: per page, the text items in
      reading order; or the message it fails with. */
  datatype Content = Pages(pages: seq<seq<string>>) | Unreadable(reason: string)

  /** A browser `File`: its name, its MIME type and its content. */
  datatype PdfFile = PdfFile(name: string, mimeType: string, content: Content)

  /** One entry of the results object. Fields, in the source's names:
      `error` (present only on the error record), `dados_carimbo`,
      `nome_arquivo_encontrado`, `prancha_encontrada`, `assinado_pelo_nome`,
      `projeto_encontrado`, `codigo_projeto`, `descricao_projeto`,
      `numero_prancha`, `nome_arquivo`. */
  datatype DocumentResult = DocumentResult(
    error: Option<string>,
    stampKeywords: seq<string>,
    nameFound: bool,
    sheetFound: bool,
    signedByName: bool,
    projectFound: bool,
    projectCode: Option<string>,
    projectDescription: string,
    sheetNumber: Option<string>,
    fileName: string)

  /** The results object: file name to record, in insertion order. */
  type Results = seq<(string, DocumentResult)>

  const Yes := "Sim"
  const No := "Não"
  const Unidentified := "Não identificado"
  const NoKeywords := "Nenhuma"

  /** `b ? 'Sim' : 'Não'`. */
  function YesNo(b: bool): (t: string)
    ensures t == Yes <==> b
    ensures t == No <==> !b
  {
    if b then Yes else No
  }

  /** `x || 'Não identificado'`: a missing or empty value shows the
      placeholder, any other value shows itself. */
  function OrUnidentified(x: Option<string>): (t: string)
    ensures x.Some? && x.value != "" ==> t == x.value
    ensures x.None? || x.value == "" ==> t == Unidentified
  {
    if x.Some? && x.value != "" then x.value else Unidentified
  }

  /** `ks.length > 0 ? ks.join(', ') : 'Nenhuma'`. */
  function KeywordsText(ks: seq<string>): (t: string)
    ensures ks == [] ==> t == NoKeywords
    ensures |ks| == 1 ==> t == ks[0]
    ensures |ks| >= 1 ==> t == Strings.Join(ks, ", ")
  {
    if |ks| > 0 then Strings.Join(ks, ", ") else NoKeywords
  }

  /** The four yes/no findings of a record, in the order the table and the
      spreadsheet show them. */
  datatype Flag = NameFlag | SheetFlag | SignedFlag | ProjectFlag

  const AllFlags: seq<Flag> := [NameFlag, SheetFlag, SignedFlag, ProjectFlag]

  function FlagOf(d: DocumentResult, flag: Flag): bool {
    match flag
    case NameFlag => d.nameFound
    case SheetFlag => d.sheetFound
    case SignedFlag => d.signedByName
    case ProjectFlag => d.projectFound
  }
}
