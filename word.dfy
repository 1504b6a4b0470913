/** The dictionary's records: a headword, its definitions, its comparisons and its word forms. */
module Models {
  import opened Wrappers
  import opened Seqs

  /** Swift's `Int64`, the type of every row id. */
  newtype Int64 = x: int | -0x8000_0000_0000_0000 <= x < 0x8000_0000_0000_0000

  /** A row of the `definitions` table: one sense of the headword `wordId`. */
  datatype Definition = Definition(
    id: Int64,
    wordId: Int64,
    pos: Option<string>,
    explanationEn: Option<string>,
    explanationCn: Option<string>,
    exampleEn: Option<string>,
    exampleCn: Option<string>)

  /** A row of the `comparisons` table: a usage note contrasting the headword `wordId` with another word. */
  datatype Comparison = Comparison(
    id: Int64,
    wordId: Int64,
    wordToCompare: Option<string>,
    analysis: Option<string>)

  /** The inflections stored, as JSON, in a headword's `forms_json` column. */
  datatype WordForms = WordForms(
    plural: Option<string>,
    thirdPersonSingular: Option<string>,
    pastTense: Option<string>,
    pastParticiple: Option<string>,
    presentParticiple: Option<string>,
    comparative: Option<string>,
    superlative: Option<string>)

  /** A headword. The first five fields are the coded columns of the `words` table; `definitions`
      and `comparisons` are not columns and are filled in by a lookup. */
  datatype Word = Word(
    id: Int64,
    word: string,
    pronunciation: Option<string>,
    conciseDefinition: Option<string>,
    formsJson: Option<string>,
    definitions: seq<Definition>,
    comparisons: seq<Comparison>)

  /** The JSON decoder of `forms_json`: `None` where `JSONDecoder` throws. */
  type FormsDecoder = string -> Option<WordForms>

  /** Two records that agree on the five coded columns. */
  predicate SameColumns(a: Word, b: Word) {
    a.id == b.id && a.word == b.word && a.pronunciation == b.pronunciation
    && a.conciseDefinition == b.conciseDefinition && a.formsJson == b.formsJson
  }

  /** The record decoded from a row of the `words` table: only the coded columns are read, so the
      two lists keep their declared default, the empty list. */
  function Fetched(row: Word): (w: Word)
    ensures SameColumns(w, row)
    ensures w.definitions == [] && w.comparisons == []
  {
    Word(row.id, row.word, row.pronunciation, row.conciseDefinition, row.formsJson, [], [])
  }

  /** `Word.forms`: the decoded `forms_json`, or `None` when the column is null or fails to decode. */
  function Forms(w: Word, decode: FormsDecoder): (r: Option<WordForms>)
    ensures w.formsJson.None? ==> r.None?
    ensures w.formsJson.Some? ==> r == decode(w.formsJson.value)
  {
    match w.formsJson
    case None => None
    case Some(json) => decode(json)
  }

  /** The seven inflection fields, in their fixed order. */
  function Fields(f: WordForms): (r: seq<Option<string>>)
    ensures |r| == 7
  {
    [f.plural, f.thirdPersonSingular, f.pastTense, f.pastParticiple,
     f.presentParticiple, f.comparative, f.superlative]
  }

  predicate NoForms(f: WordForms) {
    f.plural.None? && f.thirdPersonSingular.None? && f.pastTense.None? && f.pastParticiple.None?
    && f.presentParticiple.None? && f.comparative.None? && f.superlative.None?
  }

  /** `WordForms.allForms`: the non-nil inflections, at most seven, none exactly when every field is nil. */
  function AllForms(f: WordForms): (r: seq<string>)
    ensures |r| <= 7
    ensures r == [] <==> NoForms(f)
    ensures forall v :: v in r <==> Some(v) in Fields(f)
  {
    var fields := Fields(f);
    assert NoForms(f) <==> forall i :: 0 <= i < 7 ==> fields[i].None? by {
      if !NoForms(f) {
        if f.plural.Some? { assert fields[0].Some?; }
        else if f.thirdPersonSingular.Some? { assert fields[1].Some?; }
        else if f.pastTense.Some? { assert fields[2].Some?; }
        else if f.pastParticiple.Some? { assert fields[3].Some?; }
        else if f.presentParticiple.Some? { assert fields[4].Some?; }
        else if f.comparative.Some? { assert fields[5].Some?; }
        else { assert fields[6].Some?; }
      }
    }
    CompactMap(fields)
  }

  /** `CompactMap` of the fields from position `k` on: the entry of field `k`, then the rest. */
  lemma CompactMapFrom(f: WordForms, k: nat)
    requires k < 7
    ensures CompactMap(Fields(f)[k..]) == Present(Fields(f)[k]) + CompactMap(Fields(f)[k + 1..])
  {
    var s := Fields(f)[k..];
    assert s[0] == Fields(f)[k] && s[1..] == Fields(f)[k + 1..];
  }

  /** `allForms` keeps exactly the non-nil fields, in the order plural, third person singular,
      past tense, past participle, present participle, comparative, superlative. */
  lemma AllFormsInFieldOrder(f: WordForms)
    ensures AllForms(f) == Present(f.plural) + (Present(f.thirdPersonSingular) + (Present(f.pastTense)
                           + (Present(f.pastParticiple) + (Present(f.presentParticiple)
                           + (Present(f.comparative) + Present(f.superlative))))))
  {
    var fields := Fields(f);
    assert fields[7..] == [];
    CompactMapFrom(f, 6);
    CompactMapFrom(f, 5);
    CompactMapFrom(f, 4);
    CompactMapFrom(f, 3);
    CompactMapFrom(f, 2);
    CompactMapFrom(f, 1);
    CompactMapFrom(f, 0);
    assert fields[0..] == fields;
  }

}
