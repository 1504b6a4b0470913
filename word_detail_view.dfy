/** The detail view of one headword: the word-forms menu, the two tabs and what each tab shows. */
module WordDetail {
  import opened Wrappers
  import opened Seqs
  import opened Models

  /** What the scroll area below the tab bar shows. */
  datatype Section =
    | DefinitionsSection(cards: seq<(int, Definition)>)
    | ComparisonsSection(placeholder: bool, notes: seq<Comparison>)
    | EmptySection

  /** A tab button: its title, the count it reports, and whether it is the selected tab. */
  datatype TabButton = TabButton(title: string, count: int, isSelected: bool)

  /** The count badge is drawn only for a positive count. */
  predicate ShowsBadge(b: TabButton) {
    b.count > 0
  }

  /** The labels of the forms menu, one per inflection field, in field order. */
  const PluralLabel: string := "复数"
  const ThirdPersonSingularLabel: string := "第三人称单数"
  const PastTenseLabel: string := "过去式"
  const PastParticipleLabel: string := "过去分词"
  const PresentParticipleLabel: string := "现在分词"
  const ComparativeLabel: string := "比较级"
  const SuperlativeLabel: string := "最高级"
  const FormLabels: seq<string> :=
    [PluralLabel, ThirdPersonSingularLabel, PastTenseLabel, PastParticipleLabel,
     PresentParticipleLabel, ComparativeLabel, SuperlativeLabel]

  /** The (label, value) entry of one field: none when the field is nil. */
  function Tagged(caption: string, value: Option<string>): (r: seq<(string, string)>)
    ensures r == [] <==> value.None?
  {
    match value
    case None => []
    case Some(v) => [(caption, v)]
  }

  /** Each non-nil value paired with the label in the same position, in order. */
  function Labelled(labels: seq<string>, values: seq<Option<string>>): (r: seq<(string, string)>)
    requires |labels| == |values|
    ensures |r| <= |values|
  {
    if values == [] then [] else Tagged(labels[0], values[0]) + Labelled(labels[1..], values[1..])
  }

  /** The value column of a list of (label, value) entries. */
  function Values(items: seq<(string, string)>): (r: seq<string>)
    ensures |r| == |items|
    ensures forall i :: 0 <= i < |items| ==> r[i] == items[i].1
  {
    seq(|items|, i requires 0 <= i < |items| => items[i].1)
  }

  /** The label column of a list of (label, value) entries. */
  function Labels(items: seq<(string, string)>): (r: seq<string>)
    ensures |r| == |items|
    ensures forall i :: 0 <= i < |items| ==> r[i] == items[i].0
  {
    seq(|items|, i requires 0 <= i < |items| => items[i].0)
  }

  /** The value column of the labelled entries is the compacted values: labelling drops nothing
      and adds nothing. */
  lemma {:induction false} LabelledValues(labels: seq<string>, values: seq<Option<string>>)
    requires |labels| == |values|
    ensures Values(Labelled(labels, values)) == CompactMap(values)
  {
    if values != [] {
      LabelledValues(labels[1..], values[1..]);
      var head := Tagged(labels[0], values[0]);
      var rest := Labelled(labels[1..], values[1..]);
      assert Values(head + rest) == Values(head) + Values(rest);
    }
  }

  /** The labels of the labelled entries are drawn from `labels` in their order. */
  lemma {:induction false} LabelledLabels(labels: seq<string>, values: seq<Option<string>>)
    requires |labels| == |values|
    ensures IsSubsequence(Labels(Labelled(labels, values)), labels)
  {
    if values != [] {
      LabelledLabels(labels[1..], values[1..]);
      var rest := Labelled(labels[1..], values[1..]);
      var r := Labelled(labels, values);
      if values[0].Some? {
        assert Labels(r)[0] == labels[0];
        assert Labels(r)[1..] == Labels(rest);
      } else {
        assert Labels(r) == Labels(rest);
      }
    }
  }

  /** The labelled fields from position `k` on: the entry of field `k`, then the rest. */
  lemma LabelledFrom(f: WordForms, k: nat)
    requires k < 7
    ensures Labelled(FormLabels[k..], Fields(f)[k..])
         == Tagged(FormLabels[k], Fields(f)[k]) + Labelled(FormLabels[k + 1..], Fields(f)[k + 1..])
  {
    assert FormLabels[k..][1..] == FormLabels[k + 1..];
    assert Fields(f)[k..][1..] == Fields(f)[k + 1..];
  }

  /** The labelled inflections, field by field. */
  lemma LabelledInFieldOrder(f: WordForms)
    ensures Labelled(FormLabels, Fields(f))
         == Tagged(FormLabels[0], f.plural) + (Tagged(FormLabels[1], f.thirdPersonSingular)
          + (Tagged(FormLabels[2], f.pastTense) + (Tagged(FormLabels[3], f.pastParticiple)
          + (Tagged(FormLabels[4], f.presentParticiple) + (Tagged(FormLabels[5], f.comparative)
          + Tagged(FormLabels[6], f.superlative))))))
  {
    assert FormLabels[7..] == [] && Fields(f)[7..] == [];
    LabelledFrom(f, 6);
    LabelledFrom(f, 5);
    LabelledFrom(f, 4);
    LabelledFrom(f, 3);
    LabelledFrom(f, 2);
    LabelledFrom(f, 1);
    LabelledFrom(f, 0);
    assert FormLabels[0..] == FormLabels && Fields(f)[0..] == Fields(f);
  }


  lemma Reassociate<T>(a: seq<T>, b: seq<T>, c: seq<T>, d: seq<T>, e: seq<T>, f: seq<T>, g: seq<T>)
    ensures [] + a + b + c + d + e + f + g == a + (b + (c + (d + (e + (f + g)))))
  {
    assert [] + a == a;
    assert a + b + c == a + (b + c);
    assert a + (b + c) + d == a + (b + (c + d));
    assert a + (b + (c + d)) + e == a + (b + (c + (d + e)));
    assert a + (b + (c + (d + e))) + f == a + (b + (c + (d + (e + f))));
    assert a + (b + (c + (d + (e + f)))) + g == a + (b + (c + (d + (e + (f + g)))));
  }

  /** The entries appended field by field are the labelled inflections: their value column is
      `allForms`, their labels keep the fixed order, and there are some exactly when some field is set. */
  lemma FormsEntries(f: WordForms, items: seq<(string, string)>)
    requires items == [] + Tagged(FormLabels[0], f.plural) + Tagged(FormLabels[1], f.thirdPersonSingular)
      + Tagged(FormLabels[2], f.pastTense) + Tagged(FormLabels[3], f.pastParticiple)
      + Tagged(FormLabels[4], f.presentParticiple) + Tagged(FormLabels[5], f.comparative)
      + Tagged(FormLabels[6], f.superlative)
    ensures items == Labelled(FormLabels, Fields(f))
    ensures Values(items) == AllForms(f)
    ensures IsSubsequence(Labels(items), FormLabels)
    ensures items != [] <==> !NoForms(f)
  {
    LabelledInFieldOrder(f);
    Reassociate(Tagged(FormLabels[0], f.plural), Tagged(FormLabels[1], f.thirdPersonSingular),
      Tagged(FormLabels[2], f.pastTense), Tagged(FormLabels[3], f.pastParticiple),
      Tagged(FormLabels[4], f.presentParticiple), Tagged(FormLabels[5], f.comparative),
      Tagged(FormLabels[6], f.superlative));
    LabelledValues(FormLabels, Fields(f));
    LabelledLabels(FormLabels, Fields(f));
  }

  /** One `if let v = field { items.append((label, v)) }` step of `formsItems`. */
  method AppendIfPresent(items: seq<(string, string)>, caption: string, value: Option<string>)
    returns (r: seq<(string, string)>)
    ensures r == items + Tagged(caption, value)
  {
    r := items;
    if value.Some? {
      r := r + [(caption, value.value)];
    }
  }

  /** Definition cards numbered consecutively from `first`, in retrieval order. */
  function DefinitionCards(defs: seq<Definition>, first: int): (cards: seq<(int, Definition)>)
    ensures |cards| == |defs|
    ensures forall i :: 0 <= i < |defs| ==> cards[i] == (first + i, defs[i])
  {
    if defs == [] then [] else [(first, defs[0])] + DefinitionCards(defs[1..], first + 1)
  }

  /** The detail view of `word`. Its one piece of mutable state is the selected tab. */
  class WordDetailView {
    const word: Word
    const decode: FormsDecoder
    var selectedTab: int

    constructor (word: Word, decode: FormsDecoder)
      ensures this.word == word && this.decode == decode
      ensures selectedTab == 0
    {
      this.word := word;
      this.decode := decode;
      selectedTab := 0;
    }

    /** The action of the definitions tab button. */
    method SelectDefinitionsTab()
      modifies this`selectedTab
      ensures selectedTab == 0
    {
      selectedTab := 0;
    }

    /** The action of the comparisons tab button. */
    method SelectComparisonsTab()
      modifies this`selectedTab
      ensures selectedTab == 1
    {
      selectedTab := 1;
    }

    /** The `switch selectedTab`: tab 0 shows the definitions numbered from 1, tab 1 the
        comparisons (a placeholder when there are none), any other value nothing. */
    function Content(): (s: Section)
      reads this`selectedTab
      ensures selectedTab == 0 <==> s.DefinitionsSection?
      ensures selectedTab == 1 <==> s.ComparisonsSection?
      ensures s.DefinitionsSection? ==>
        |s.cards| == |word.definitions|
        && forall i :: 0 <= i < |s.cards| ==> s.cards[i].0 == i + 1 && s.cards[i].1 == word.definitions[i]
      ensures s.ComparisonsSection? ==> (s.placeholder <==> word.comparisons == []) && s.notes == word.comparisons
    {
      if selectedTab == 0 then DefinitionsSection(DefinitionCards(word.definitions, 1))
      else if selectedTab == 1 then ComparisonsSection(word.comparisons == [], word.comparisons)
      else EmptySection
    }

    /** The two tab buttons with their counts; a badge shows exactly when the tab has entries. */
    function TabBar(): (tabs: seq<TabButton>)
      reads this`selectedTab
      ensures |tabs| == 2
      ensures tabs[0].count == |word.definitions| && tabs[1].count == |word.comparisons|
      ensures (tabs[0].isSelected <==> selectedTab == 0) && (tabs[1].isSelected <==> selectedTab == 1)
      ensures ShowsBadge(tabs[0]) <==> word.definitions != []
      ensures ShowsBadge(tabs[1]) <==> word.comparisons != []
    {
      [TabButton("释义", |word.definitions|, selectedTab == 0),
       TabButton("辨析", |word.comparisons|, selectedTab == 1)]
    }

    /** The forms menu is shown when the forms decode and at least one of them is present. */
    function FormsMenuVisible(): (b: bool)
      ensures b <==> Forms(word, decode).Some? && !NoForms(Forms(word, decode).value)
    {
      match Forms(word, decode)
      case None => false
      case Some(forms) => AllForms(forms) != []
    }

    /** `formsItems`: one (label, value) entry per non-nil inflection, in field order, whose value
        column is exactly `allForms`; none when the forms are absent or undecodable. */
    method FormsItems() returns (items: seq<(string, string)>)
      ensures Forms(word, decode).None? ==> items == []
      ensures Forms(word, decode).Some? ==> items == Labelled(FormLabels, Fields(Forms(word, decode).value))
      ensures Values(items) == match Forms(word, decode) case None => [] case Some(f) => AllForms(f)
      ensures IsSubsequence(Labels(items), FormLabels)
      ensures items != [] <==> FormsMenuVisible()
    {
      var forms := Forms(word, decode);
      if forms.None? {
        return [];
      }
      var f := forms.value;
      items := [];
      items := AppendIfPresent(items, PluralLabel, f.plural);
      items := AppendIfPresent(items, ThirdPersonSingularLabel, f.thirdPersonSingular);
      items := AppendIfPresent(items, PastTenseLabel, f.pastTense);
      items := AppendIfPresent(items, PastParticipleLabel, f.pastParticiple);
      items := AppendIfPresent(items, PresentParticipleLabel, f.presentParticiple);
      items := AppendIfPresent(items, ComparativeLabel, f.comparative);
      items := AppendIfPresent(items, SuperlativeLabel, f.superlative);
      FormsEntries(f, items);
    }
  }
}
