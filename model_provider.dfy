/**
  The model lists of the benchmark. Each list is read from a comma-separated
  environment value (`OPENAI_MODELS`, `OLLAMA_MODELS`, `OLLAMA_CLOUD_MODELS`,
  and the single judge name `ERI_MODEL`); the values are parameters here.
 */
module ModelProvider {
  import opened DotNetText
  import opened Sequences

  /** `.Select(x => x.Trim())`. */
  function TrimAll(parts: seq<string>): (r: seq<string>)
    ensures |r| == |parts|
    ensures forall k :: 0 <= k < |parts| ==> r[k] == Trim(parts[k])
  {
    if parts == [] then [] else TrimAll(parts[..|parts| - 1]) + [Trim(parts[|parts| - 1])]
  }

  /** `.Where(x => !string.IsNullOrWhiteSpace(x))`. */
  function KeepNonBlank(names: seq<string>): (r: seq<string>)
    ensures forall k :: 0 <= k < |r| ==> !IsBlank(r[k]) && r[k] in names
  {
    if names == [] then []
    else
      var keep := KeepNonBlank(names[..|names| - 1]);
      var last := names[|names| - 1];
      if IsBlank(last) then keep else keep + [last]
  }

  /** One list: split at commas, trim every piece, drop the blank pieces. */
  function ParseModelList(value: string): seq<string>
  {
    KeepNonBlank(TrimAll(Split(value, ',')))
  }

  /** A single entry passes the filter exactly when it is not blank. */
  lemma KeepNonBlankOne(name: string)
    ensures KeepNonBlank([name]) == if IsBlank(name) then [] else [name]
  {
    assert [name][..0] == [];
  }

  /** The filter works entry by entry: it keeps every non-blank entry, in order. */
  lemma {:induction false} KeepNonBlankAppend(a: seq<string>, b: seq<string>)
    ensures KeepNonBlank(a + b) == KeepNonBlank(a) + KeepNonBlank(b)
    decreases |b|
  {
    if b == [] {
      assert a + b == a;
    } else {
      var init := b[..|b| - 1];
      KeepNonBlankAppend(a, init);
      assert (a + b)[..|a + b| - 1] == a + init;
      assert (a + b)[|a + b| - 1] == b[|b| - 1];
    }
  }

  /** An entry is kept exactly when it is in the input and not blank. */
  lemma {:induction false} KeepNonBlankMembers(names: seq<string>, name: string)
    ensures name in KeepNonBlank(names) <==> name in names && !IsBlank(name)
  {
    if names != [] {
      var init := names[..|names| - 1];
      KeepNonBlankMembers(init, name);
      assert names == init + [names[|names| - 1]];
    }
  }

  lemma TrimAllAppend(a: seq<string>, b: seq<string>)
    ensures TrimAll(a + b) == TrimAll(a) + TrimAll(b)
  {
    var l, r := TrimAll(a + b), TrimAll(a) + TrimAll(b);
    assert |l| == |r|;
    forall k | 0 <= k < |l| ensures l[k] == r[k] {
      if k < |a| {
        assert (a + b)[k] == a[k] && r[k] == TrimAll(a)[k];
      } else {
        assert (a + b)[k] == b[k - |a|] && r[k] == TrimAll(b)[k - |a|];
      }
    }
  }

  /**
    A comma separates the list into the names before it and the names after
    it: each piece of the value is parsed on its own, in comma order.
   */
  lemma ParseAtComma(head: string, tail: string)
    ensures ParseModelList(head + [','] + tail) == ParseModelList(head) + ParseModelList(tail)
  {
    var h, t := Split(head, ','), Split(tail, ',');
    SplitAtSeparator(head, tail, ',');
    TrimAllAppend(h, t);
    KeepNonBlankAppend(TrimAll(h), TrimAll(t));
  }

  /** A value without a comma is one entry: the trimmed value, or nothing when it is blank. */
  lemma ParseOnePiece(piece: string)
    requires ',' !in piece
    ensures ParseModelList(piece) == if IsBlank(piece) then [] else [Trim(piece)]
  {
    SplitWithoutSeparator(piece, ',');
    assert TrimAll([piece]) == [Trim(piece)];
    KeepNonBlankOne(Trim(piece));
    BlankAfterTrim(piece);
  }

  /** A name as the parser hands it out. */
  predicate IsModelName(name: string)
  {
    name != [] && IsTrimmed(name) && ',' !in name
  }

  predicate AllModelNames(names: seq<string>)
  {
    forall k :: 0 <= k < |names| ==> IsModelName(names[k])
  }

  /** Every parsed name is non-empty, already trimmed and free of commas. */
  lemma ParsedNamesAreClean(value: string)
    ensures AllModelNames(ParseModelList(value))
  {
    CleanPiecesGiveNames(Split(value, ','));
  }

  lemma CleanPiecesGiveNames(pieces: seq<string>)
    requires forall k :: 0 <= k < |pieces| ==> ',' !in pieces[k]
    ensures AllModelNames(KeepNonBlank(TrimAll(pieces)))
  {
    var trimmed := TrimAll(pieces);
    var names := KeepNonBlank(trimmed);
    forall k | 0 <= k < |names| ensures IsModelName(names[k]) {
      var name := names[k];
      assert name in trimmed && !IsBlank(name);
      var p :| 0 <= p < |trimmed| && trimmed[p] == name;
      assert name == Trim(pieces[p]);
      TrimmedPieceIsName(pieces[p]);
    }
  }

  /** A comma-free piece that is not blank trims to a model name. */
  lemma TrimmedPieceIsName(piece: string)
    requires ',' !in piece && !IsBlank(Trim(piece))
    ensures IsModelName(Trim(piece))
  {
    var name := Trim(piece);
    var i, j := TrimIsSlice(piece);
    TrimIsTrimmed(piece);
    assert ',' !in name by {
      forall c | 0 <= c < |name| ensures name[c] != ',' {
        assert name[c] == piece[i + c];
      }
    }
  }

  /** Every piece is white space only. */
  predicate AllBlank(pieces: seq<string>)
  {
    forall k :: 0 <= k < |pieces| ==> IsBlank(pieces[k])
  }

  /** The list is empty exactly when every comma-separated piece is blank (so "" and " , ," give none). */
  lemma ParseEmptyIffAllBlank(value: string)
    ensures ParseModelList(value) == [] <==> AllBlank(Split(value, ','))
  {
    var pieces := Split(value, ',');
    TrimAllBlank(pieces);
    KeepNonBlankEmptyIff(TrimAll(pieces));
  }

  lemma TrimAllBlank(pieces: seq<string>)
    ensures AllBlank(pieces) <==> AllBlank(TrimAll(pieces))
  {
    forall k | 0 <= k < |pieces| ensures IsBlank(TrimAll(pieces)[k]) <==> IsBlank(pieces[k]) {
      BlankAfterTrim(pieces[k]);
    }
  }

  lemma {:induction false} KeepNonBlankEmptyIff(names: seq<string>)
    ensures KeepNonBlank(names) == [] <==> AllBlank(names)
  {
    if names != [] {
      var init := names[..|names| - 1];
      KeepNonBlankEmptyIff(init);
      assert forall k :: 0 <= k < |init| ==> init[k] == names[k];
    }
  }

  /** Names that are already clean pass through the filter unchanged. */
  lemma {:induction false} KeepNonBlankOfNonBlank(names: seq<string>)
    requires forall k :: 0 <= k < |names| ==> !IsBlank(names[k])
    ensures KeepNonBlank(names) == names
  {
    if names != [] {
      var init := names[..|names| - 1];
      KeepNonBlankOfNonBlank(init);
      assert init + [names[|names| - 1]] == names;
    }
  }

  lemma TrimAllOfModelNames(names: seq<string>)
    requires AllModelNames(names)
    ensures TrimAll(names) == names
    ensures forall k :: 0 <= k < |names| ==> !IsBlank(names[k])
  {
    forall k | 0 <= k < |names| ensures Trim(names[k]) == names[k] && !IsBlank(names[k]) {
      TrimOfTrimmed(names[k]);
      BlankTrimmedIsEmpty(names[k]);
    }
  }

  /**
    The parser keeps the names in their comma order and loses none: joining
    clean names with commas and parsing the result gives them back.
   */
  lemma ParseJoinRoundTrip(names: seq<string>)
    requires AllModelNames(names)
    ensures ParseModelList(Join(names, ',')) == names
  {
    if names == [] {
      assert Split([], ',') == [[]];
      assert IsBlank(Trim([]));
    } else {
      SplitJoin(names, ',');
      TrimAllOfModelNames(names);
      KeepNonBlankOfNonBlank(names);
    }
  }

  /** A concrete list: blanks and padding disappear, the order stays. */
  lemma ParseExample()
    ensures ParseModelList(" a, ,b ") == ["a", "b"]
  {
    SplitExample();
    TrimAllExample();
    KeepNonBlankExample();
  }

  lemma TrimAllExample()
    ensures TrimAll([" a", " ", "b "]) == ["a", "", "b"]
  {
    TrimExample();
  }

  lemma KeepNonBlankExample()
    ensures KeepNonBlank(["a", "", "b"]) == ["a", "b"]
  {
    assert !IsBlank("a") && !IsBlank("b") && IsBlank("") by {
      assert !IsWhiteSpace("a"[0]) && !IsWhiteSpace("b"[0]);
    }
    assert ["a"][..0] == [];
    assert KeepNonBlank(["a"]) == ["a"];
    assert ["a", ""][..1] == ["a"];
    assert KeepNonBlank(["a", ""]) == ["a"];
    assert ["a", "", "b"][..2] == ["a", ""];
  }

  lemma SplitExample()
    ensures Split(" a, ,b ", ',') == [" a", " ", "b "]
  {
    SplitTailExample();
    assert ',' !in " a";
    SplitWithoutSeparator(" a", ',');
    SplitAtSeparator(" a", " ,b ", ',');
    assert " a" + [','] + " ,b " == " a, ,b ";
  }

  lemma SplitTailExample()
    ensures Split(" ,b ", ',') == [" ", "b "]
  {
    assert ',' !in " " && ',' !in "b ";
    SplitWithoutSeparator(" ", ',');
    SplitWithoutSeparator("b ", ',');
    SplitAtSeparator(" ", "b ", ',');
    assert " " + [','] + "b " == " ,b ";
  }

  lemma TrimExample()
    ensures Trim(" a") == "a" && Trim("b ") == "b" && Trim(" ") == ""
  {
    assert TrimStart(" a") == TrimStart("a") == "a";
    assert TrimEnd("a") == "a";
    assert TrimStart("b ") == "b ";
    assert TrimEnd("b ") == TrimEnd("b") == "b";
    assert TrimStart(" ") == TrimStart("") == "";
  }

  /** `ModelProvider`: the three subject lists and the judge's name, fixed at construction. */
  datatype ModelProvider = ModelProvider(openAiModels: seq<string>, ollamaModels: seq<string>,
                                         ollamaCloudModels: seq<string>, eriModel: string)
  {
    /** `Models`: the three lists one after the other. */
    function Models(): seq<string>
    {
      openAiModels + ollamaModels + ollamaCloudModels
    }

    /** `AllModels`: `Models` with the judge appended, duplicates removed in first-occurrence order. */
    function AllModels(): seq<string>
    {
      Distinct(Models() + [eriModel])
    }

    /** The lane run concurrently: every subject model. */
    function ParallelModels(): seq<string>
    {
      Models()
    }

    /** The lane run one model at a time: empty in this configuration. */
    function SequentialModels(): seq<string>
    {
      []
    }
  }

  /** The constructor: each environment value parsed as a list; `ERI_MODEL` is taken as it is. */
  function NewModelProvider(openAiValue: string, ollamaValue: string, ollamaCloudValue: string, eriValue: string): ModelProvider
  {
    ModelProvider(ParseModelList(openAiValue), ParseModelList(ollamaValue), ParseModelList(ollamaCloudValue), eriValue)
  }

  /** Every list of a constructed provider holds clean names only, and so does `Models`. */
  lemma ProviderNamesAreClean(openAiValue: string, ollamaValue: string, ollamaCloudValue: string, eriValue: string)
    ensures AllModelNames(NewModelProvider(openAiValue, ollamaValue, ollamaCloudValue, eriValue).Models())
  {
    ParsedNamesAreClean(openAiValue);
    ParsedNamesAreClean(ollamaValue);
    ParsedNamesAreClean(ollamaCloudValue);
    var p := NewModelProvider(openAiValue, ollamaValue, ollamaCloudValue, eriValue);
    ConcatModelNames(p.openAiModels, p.ollamaModels);
    ConcatModelNames(p.openAiModels + p.ollamaModels, p.ollamaCloudModels);
  }

  lemma ConcatModelNames(a: seq<string>, b: seq<string>)
    requires AllModelNames(a) && AllModelNames(b)
    ensures AllModelNames(a + b)
  {
    forall k | 0 <= k < |a + b| ensures IsModelName((a + b)[k]) {
      if k < |a| { assert (a + b)[k] == a[k]; } else { assert (a + b)[k] == b[k - |a|]; }
    }
  }

  /**
    `Models` keeps every entry of the three lists, in their order: it is as
    long as the three together, starts with the OpenAI list and ends with the
    Ollama Cloud list.
   */
  lemma ModelsLayout(p: ModelProvider)
    ensures |p.Models()| == |p.openAiModels| + |p.ollamaModels| + |p.ollamaCloudModels|
    ensures p.Models()[..|p.openAiModels|] == p.openAiModels
    ensures p.Models()[|p.openAiModels|..|p.openAiModels| + |p.ollamaModels|] == p.ollamaModels
    ensures p.Models()[|p.openAiModels| + |p.ollamaModels|..] == p.ollamaCloudModels
    ensures forall m :: m in p.Models() <==> m in p.openAiModels || m in p.ollamaModels || m in p.ollamaCloudModels
  {
    var a, b := p.openAiModels, p.ollamaModels;
    assert p.Models()[..|a|] == a;
    assert p.Models()[|a|..|a| + |b|] == b;
  }

  /**
    `AllModels` has no duplicates, holds exactly the subject models and the
    judge, and lists them in the order of their first occurrence in
    `Models` followed by the judge.
   */
  lemma AllModelsSpec(p: ModelProvider)
    ensures NoDuplicates(p.AllModels())
    ensures forall m :: m in p.AllModels() <==> m in p.Models() || m == p.eriModel
    ensures forall i, j :: 0 <= i < j < |p.AllModels()| ==>
      FirstIndexOf(p.Models() + [p.eriModel], p.AllModels()[i]).value
        < FirstIndexOf(p.Models() + [p.eriModel], p.AllModels()[j]).value
  {
    var s := p.Models() + [p.eriModel];
    var d := p.AllModels();
    assert forall m :: m in s <==> m in p.Models() || m == p.eriModel;
    forall m ensures m in d <==> m in s {
      if m in s {
        var k :| 0 <= k < |s| && s[k] == m;
      }
    }
    forall i, j | 0 <= i < j < |d|
      ensures FirstIndexOf(s, d[i]).value < FirstIndexOf(s, d[j]).value
    {
      DistinctKeepsFirstOccurrenceOrder(s, i, j);
    }
  }

  /** When the judge is not a subject and the names are distinct, `AllModels` is `Models` plus the judge. */
  lemma AllModelsOfDistinctNames(p: ModelProvider)
    requires NoDuplicates(p.Models()) && p.eriModel !in p.Models()
    ensures p.AllModels() == p.Models() + [p.eriModel]
  {
    var s := p.Models() + [p.eriModel];
    assert forall i :: 0 <= i < |p.Models()| ==> s[i] != p.eriModel;
    DistinctOfDistinctElements(s);
  }

  /**
    The two lanes split `Models`: no model is in both, and together, in
    order, they are `Models`.
   */
  lemma LanesPartitionModels(p: ModelProvider)
    ensures p.ParallelModels() + p.SequentialModels() == p.Models()
    ensures forall m :: !(m in p.ParallelModels() && m in p.SequentialModels())
    ensures forall m :: m in p.Models() <==> m in p.ParallelModels() || m in p.SequentialModels()
  {
  }
}
