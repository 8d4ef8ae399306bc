/** The chat page's labelling of context documents: each document returned
    as context is shown under a file name guessed from how its text starts.
    Three fixed openings map to three fixed names; anything else is shown as
    "documento.txt".
 */
module ChatLabels {
  import opened Strings

  /** The three openings share their first eight characters. Each is
      written as that shared part, the character where they part ways, and
      the rest; the concatenation is the full opening. */
  const SharedOpening: string := "O SENAI "
  const AtuacaoKey: string := SharedOpening + "a" + "tua em mais de 28 áreas industriais"
  const DescricaoKey: string :=
    SharedOpening + "é" + " o Serviço Nacional de Aprendizagem Industrial, uma instituição privada"
  const HistoriaKey: string :=
    SharedOpening + "(" + "Serviço Nacional de Aprendizagem Industrial) foi criado em 1942"

  const AtuacaoName: string := "senai_atuacao.txt"
  const DescricaoName: string := "senai_descricao.txt"
  const HistoriaName: string := "senai_historia.txt"
  const DefaultName: string := "documento.txt"

  /** The `content_map` dict, in its literal (iteration) order. */
  const ContentMap: seq<(string, string)> :=
    [(AtuacaoKey, AtuacaoName), (DescricaoKey, DescricaoName), (HistoriaKey, HistoriaName)]

  /** The loop of `get_filename_from_content` over any sequence of
      (opening, name) pairs: the name of the first opening the content starts
      with, or the default name. */
  function FirstMatch(m: seq<(string, string)>, content: string): (name: string)
    ensures name == DefaultName || exists i :: 0 <= i < |m| && name == m[i].1 && StartsWith(content, m[i].0)
  {
    if |m| == 0 then DefaultName
    else if StartsWith(content, m[0].0) then m[0].1
    else
      var name := FirstMatch(m[1..], content);
      assert forall i :: 0 <= i < |m[1..]| ==> m[1..][i] == m[i + 1];
      name
  }

  /** `get_filename_from_content` */
  function FilenameFromContent(content: string): (name: string)
    ensures name in {AtuacaoName, DescricaoName, HistoriaName, DefaultName}
    ensures StartsWith(content, AtuacaoKey) ==> name == AtuacaoName
    ensures StartsWith(content, DescricaoKey) ==> name == DescricaoName
    ensures StartsWith(content, HistoriaKey) ==> name == HistoriaName
    ensures name == DefaultName <==>
      !StartsWith(content, AtuacaoKey) && !StartsWith(content, DescricaoKey) && !StartsWith(content, HistoriaKey)
  {
    KeysDisagree(content);
    UnfoldContentMap(content);
    FirstMatch(ContentMap, content)
  }

  /** The loop over `content_map` tries the three openings in turn. */
  lemma UnfoldContentMap(content: string)
    ensures FirstMatch(ContentMap, content) ==
      if StartsWith(content, AtuacaoKey) then AtuacaoName
      else if StartsWith(content, DescricaoKey) then DescricaoName
      else if StartsWith(content, HistoriaKey) then HistoriaName
      else DefaultName
  {
    var m1 := [(DescricaoKey, DescricaoName), (HistoriaKey, HistoriaName)];
    var m2 := [(HistoriaKey, HistoriaName)];
    var m3: seq<(string, string)> := [];
    assert ContentMap[1..] == m1 && m1[1..] == m2 && m2[1..] == m3;
    assert FirstMatch(m3, content) == DefaultName;
    assert FirstMatch(m2, content) == if StartsWith(content, HistoriaKey) then HistoriaName else DefaultName;
    assert FirstMatch(m1, content)
        == if StartsWith(content, DescricaoKey) then DescricaoName else FirstMatch(m2, content);
  }

  /** The three openings differ at position 8, so content can start with at
      most one of them. */
  lemma KeysDisagree(content: string)
    ensures !(StartsWith(content, AtuacaoKey) && StartsWith(content, DescricaoKey))
    ensures !(StartsWith(content, AtuacaoKey) && StartsWith(content, HistoriaKey))
    ensures !(StartsWith(content, DescricaoKey) && StartsWith(content, HistoriaKey))
  {
    assert AtuacaoKey[8] == 'a' && DescricaoKey[8] == 'é' && HistoriaKey[8] == '(';
    if StartsWith(content, AtuacaoKey) {
      assert content[8] == AtuacaoKey[8];
    }
    if StartsWith(content, DescricaoKey) {
      assert content[8] == DescricaoKey[8];
    }
  }

  /** No opening is a prefix of another. */
  lemma KeysPrefixFree()
    ensures forall i, j :: 0 <= i < |ContentMap| && 0 <= j < |ContentMap| && i != j ==>
              !StartsWith(ContentMap[j].0, ContentMap[i].0)
  {
    KeysDisagree(AtuacaoKey);
    KeysDisagree(DescricaoKey);
    KeysDisagree(HistoriaKey);
    assert StartsWith(AtuacaoKey, AtuacaoKey);
    assert StartsWith(DescricaoKey, DescricaoKey);
    assert StartsWith(HistoriaKey, HistoriaKey);
  }

  /** When every pair whose opening matches is the pair e, the loop returns
      e's name, wherever e sits in the sequence. */
  lemma {:induction false} FirstMatchUnique(m: seq<(string, string)>, content: string, e: (string, string))
    requires e in m && StartsWith(content, e.0)
    requires forall x :: x in m && StartsWith(content, x.0) ==> x == e
    ensures FirstMatch(m, content) == e.1
  {
    if m[0] != e {
      assert e in m[1..];
      FirstMatchUnique(m[1..], content, e);
    }
  }

  /** When no opening matches, the loop returns the default name. */
  lemma {:induction false} FirstMatchNone(m: seq<(string, string)>, content: string)
    requires forall x :: x in m ==> !StartsWith(content, x.0)
    ensures FirstMatch(m, content) == DefaultName
  {
    if |m| > 0 {
      assert m[0] in m;
      FirstMatchNone(m[1..], content);
    }
  }

  /** The iteration order of `content_map` does not matter: any reordering
      of its pairs labels every content the same way. */
  lemma OrderIndependent(m: seq<(string, string)>, content: string)
    requires multiset(m) == multiset(ContentMap)
    ensures FirstMatch(m, content) == FilenameFromContent(content)
  {
    KeysDisagree(content);
    forall x ensures x in m <==> x in ContentMap {
      assert x in m <==> x in multiset(m);
      assert x in ContentMap <==> x in multiset(ContentMap);
    }
    if StartsWith(content, AtuacaoKey) {
      assert ContentMap[0] in m;
      FirstMatchUnique(m, content, ContentMap[0]);
    } else if StartsWith(content, DescricaoKey) {
      assert ContentMap[1] in m;
      FirstMatchUnique(m, content, ContentMap[1]);
    } else if StartsWith(content, HistoriaKey) {
      assert ContentMap[2] in m;
      FirstMatchUnique(m, content, ContentMap[2]);
    } else {
      FirstMatchNone(m, content);
    }
  }

  /** The "Documentos consultados" list: one label per context document, in
      context order. */
  function ContextLabels(context: seq<string>): (labels: seq<string>)
    ensures |labels| == |context|
    ensures forall i :: 0 <= i < |context| ==> labels[i] == FilenameFromContent(context[i])
  {
    seq(|context|, i requires 0 <= i < |context| => FilenameFromContent(context[i]))
  }
}
