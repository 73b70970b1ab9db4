/** The fixed configuration tables of the analyser (js/config.js): the
    engineer registry, the project-code dictionary, the default keyword list,
    and the flat engineer keyword list built from the registry at load time. */
module Config {
  import opened Wrappers
  import Seqs
  import Dict
  import Strings

  /** One registry entry: an engineer's name and the CREA registration
      numbers (with and without punctuation) that identify them. */
  datatype Engineer = Engineer(name: string, creas: seq<string>)

  /** `ENGENHEIROS_CREAS_FIXOS`, in declaration order. */
  const EngineerRegistry: seq<Engineer> := [
    Engineer("RODRIGO DAMASCENO NASCIMENTO", ["0920192912", "092019291-2"]),
    Engineer("JÂNIO RIBEIRO LOPES", ["0912111810", "091211181-0"]),
    Engineer("FLAVIO SORDI", ["2201136580"]),
    Engineer("RITHELLY LOBATO", ["A278773-3", "A2787733"]),
    Engineer("SALOMÃO", ["0401863549", "040186354-9"])
  ]

  /** `MAPEAMENTO_PROJETOS`: project code to description, in declaration order. */
  const ProjectMap: seq<(string, string)> := [
    ("ECX", "PROJETO ELÉTRICO DE CLIMATIZAÇÃO"),
    ("ILUX", "PROJETO DE ILUMINAÇÃO EXTERNA"),
    ("CFTV", "PROJETO DE CFTV"),
    ("CAB", "PROJETO DE CABEAMENTO"),
    ("SOM", "PROJETO DE SONORIZAÇÃO"),
    ("SUB", "PROJETO DE SUBESTAÇÃO"),
    ("SPDA", "PROJETO DE SPDA"),
    ("TEF", "PROJETO DE TELEFONIA"),
    ("ALI", "PROJETO DE ALIMENTADORES"),
    ("TUG", "PROJETO ELÉTRICO DE TOMADAS"),
    ("ILU", "PROJETO ELÉTRICO DE ILUMINAÇÃO"),
    ("EME", "PROJETO ELÉTRICO DE EMERGÊNCIA"),
    ("FOT", "PROJETO ELÉTRICO FOTOVOLTAICO"),
    ("LEV", "LEVANTAMENTO TOPOGRÁFICO"),
    ("EST", "ESTRUTURA DE CONCRETO ARMADO"),
    ("FUN", "ESTRUTURA DE CONCRETO ARMADO"),
    ("EMT", "ESTRUTURA METÁLICA"),
    ("DRE", "PROJETO DE DRENAGEM"),
    ("PAV", "PROJETO DE PAVIMENTAÇÃO"),
    ("REG", "PROJETO DE REDE DE ESGOTO"),
    ("TER", "PROJETO DE TERRAPLENAGEM"),
    ("CANT", "PROJETO DE CANTEIRO DE OBRAS"),
    ("HID", "PROJETO DE INSTALAÇÕES HIDRÁULICAS"),
    ("IRRI", "PROJETO DE IRRIGAÇÃO"),
    ("SAN", "PROJETO DE INSTALAÇÕES SANITÁRIAS"),
    ("PLU", "PROJETO DE SISTEMA DE REDES DE ÁGUAS"),
    ("INC", "PROJETO DE PREVENÇÃO E COMBATE A INCÊNDIO"),
    ("GLP", "PROJETO DE INSTALAÇÕES DE GASES GLP"),
    ("CLI", "PROJETO DE INSTALAÇÕES DE GASES GLP"),
    ("EXA", "PROJETO DE EXAUSTÃO")
  ]

  /** `PALAVRAS_CHAVE_PADRAO`: the keywords the text box starts with. */
  const DefaultKeywords: seq<string> := [
    "SEINF",
    "CONSTRUÇÃO DO PRÉDIO DA PROCURADORIA GERAL DO ESTADO DE",
    "AV. BENJAMIN CONSTANT, LOTE: 177 - DESD., BAIRRO: SÃO PEDRO,",
    "BOA VISTA - RORAIMA, CEP: 69306-695",
    "Av. Getúlio Vargas, Nº 3941,",
    "Canarinho",
    "CEP: 69.306-700 - Boa Vista/RR",
    "SETEMBRO",
    "3.602,31",
    "6.773,73"
  ]

  /** The description used when a project code does not resolve. */
  const Unknown := "Desconhecido"

  /** Registry names are distinct, as the keys of a JavaScript object are. */
  predicate DistinctNames(reg: seq<Engineer>) {
    forall i, j :: 0 <= i < j < |reg| ==> reg[i].name != reg[j].name
  }

  /** The keyword `w` is the engineer's name or one of their CREAs. */
  predicate Identifies(e: Engineer, w: string) {
    w == e.name || w in e.creas
  }

  /** `w` is the name or one of the CREAs of some registered engineer. */
  predicate IsRegistered(reg: seq<Engineer>, w: string) {
    exists j :: 0 <= j < |reg| && Identifies(reg[j], w)
  }

  function TotalCreas(reg: seq<Engineer>): nat {
    if reg == [] then 0 else |reg[0].creas| + TotalCreas(reg[1..])
  }

  /** Reference definition of the flat keyword list: every engineer's name
      followed by that engineer's CREAs, engineer by engineer. */
  function FlatKeywords(reg: seq<Engineer>): seq<string> {
    if reg == [] then [] else [reg[0].name] + reg[0].creas + FlatKeywords(reg[1..])
  }

  lemma {:induction false} FlatKeywordsAppend(a: seq<Engineer>, b: seq<Engineer>)
    ensures FlatKeywords(a + b) == FlatKeywords(a) + FlatKeywords(b)
  {
    if a != [] {
      assert (a + b)[1..] == a[1..] + b;
      FlatKeywordsAppend(a[1..], b);
    } else {
      assert a + b == b;
    }
  }

  lemma {:induction false} TotalCreasAppend(a: seq<Engineer>, b: seq<Engineer>)
    ensures TotalCreas(a + b) == TotalCreas(a) + TotalCreas(b)
  {
    if a != [] {
      assert (a + b)[1..] == a[1..] + b;
      TotalCreasAppend(a[1..], b);
    } else {
      assert a + b == b;
    }
  }

  /** The flat list holds exactly the registered names and CREAs. */
  lemma {:induction false} FlatKeywordsMembers(reg: seq<Engineer>, w: string)
    ensures w in FlatKeywords(reg) <==> IsRegistered(reg, w)
  {
    if reg != [] {
      FlatKeywordsMembers(reg[1..], w);
      if IsRegistered(reg[1..], w) {
        var j :| 0 <= j < |reg[1..]| && Identifies(reg[1..][j], w);
        assert reg[j + 1] == reg[1..][j];
      }
      if IsRegistered(reg, w) && w != reg[0].name && w !in reg[0].creas {
        var j :| 0 <= j < |reg| && Identifies(reg[j], w);
        assert j > 0 && reg[1..][j - 1] == reg[j];
      }
    }
  }

  /** `PALAVRAS_CHAVE_ENGENHEIROS`: the initialiser pushes each name and then
      its CREAs onto an array, engineer by engineer. */
  method FlattenRegistry(reg: seq<Engineer>) returns (words: seq<string>)
    ensures words == FlatKeywords(reg)
    ensures |words| == |reg| + TotalCreas(reg)
    ensures forall w :: w in words <==> IsRegistered(reg, w)
  {
    words := [];
    var i := 0;
    while i < |reg|
      invariant 0 <= i <= |reg|
      invariant words == FlatKeywords(reg[..i])
      invariant |words| == i + TotalCreas(reg[..i])
    {
      FlatKeywordsAppend(reg[..i], [reg[i]]);
      TotalCreasAppend(reg[..i], [reg[i]]);
      assert reg[..i + 1] == reg[..i] + [reg[i]];
      words := words + [reg[i].name];
      words := words + reg[i].creas;
      i := i + 1;
    }
    assert reg[..i] == reg;
    forall w ensures w in words <==> IsRegistered(reg, w) {
      FlatKeywordsMembers(reg, w);
    }
  }

  /** The global keyword list as the rest of the program sees it. */
  function EngineerKeywords(): seq<string> {
    FlatKeywords(EngineerRegistry)
  }

  // ------------------------------------------- facts about the shipped tables

  /** Five engineers and nine CREAs give fourteen keywords. */
  lemma ShippedKeywordCount()
    ensures |EngineerKeywords()| == 14
  {
  }

  lemma ShippedNamesDistinct()
    ensures DistinctNames(EngineerRegistry)
  {
  }

  lemma ShippedCodesDistinct()
    ensures Seqs.NoDup(Dict.Keys(ProjectMap))
  {
    assert Dict.Keys(ProjectMap) == CodesA + CodesB + CodesC;
    CodeChunksDistinct();
    CodeChunksDisjoint();
    Seqs.NoDupAppend(CodesA, CodesB);
    Seqs.NoDupAppend(CodesA + CodesB, CodesC);
  }

  /** The project codes, in three runs of ten. */
  const CodesA: seq<string> := ["ECX", "ILUX", "CFTV", "CAB", "SOM", "SUB", "SPDA", "TEF", "ALI", "TUG"]
  const CodesB: seq<string> := ["ILU", "EME", "FOT", "LEV", "EST", "FUN", "EMT", "DRE", "PAV", "REG"]
  const CodesC: seq<string> := ["TER", "CANT", "HID", "IRRI", "SAN", "PLU", "INC", "GLP", "CLI", "EXA"]

  lemma CodeChunksDistinct()
    ensures Seqs.NoDup(CodesA) && Seqs.NoDup(CodesB) && Seqs.NoDup(CodesC)
  {
  }

  lemma CodeChunksDisjoint()
    ensures forall x :: x in CodesA ==> x !in CodesB
    ensures forall x :: x in CodesA + CodesB ==> x !in CodesC
  {
    FirstChunkNotInLast();
    SecondChunkNotInLast();
  }

  lemma FirstChunkNotInLast()
    ensures forall x :: x in CodesA ==> x !in CodesC
  {
  }

  lemma SecondChunkNotInLast()
    ensures forall x :: x in CodesB ==> x !in CodesC
  {
  }

  /** No description is the "unknown" sentinel, so a resolved code is never
      mistaken for an unresolved one. */
  lemma ShippedDescriptionsNotUnknown()
    ensures forall i :: 0 <= i < |ProjectMap| ==> ProjectMap[i].1 != Unknown && ProjectMap[i].1 != ""
  {
  }

  /** Descriptions are shared between codes (EST/FUN, GLP/CLI), so only the
      pair of code and description identifies a project. */
  lemma ShippedDescriptionsShared()
    ensures ProjectMap[14].0 == "EST" && ProjectMap[15].0 == "FUN"
    ensures ProjectMap[14].1 == ProjectMap[15].1 == "ESTRUTURA DE CONCRETO ARMADO"
    ensures ProjectMap[27].0 == "GLP" && ProjectMap[28].0 == "CLI"
    ensures ProjectMap[27].1 == ProjectMap[28].1
  {
  }

  /** No default keyword is empty once trimmed. */
  lemma ShippedDefaultKeywordsSurviveTrim()
    ensures forall i :: 0 <= i < |DefaultKeywords| ==> Strings.Trim(DefaultKeywords[i]) != ""
  {
    forall i | 0 <= i < |DefaultKeywords|
      ensures Strings.Trim(DefaultKeywords[i]) != ""
    {
      var k := DefaultKeywords[i];
      assert k != [] && !Strings.IsJsSpace(k[|k| - 1]);
      Strings.TrimKeepsNonSpaceEnd(k);
    }
  }
}
