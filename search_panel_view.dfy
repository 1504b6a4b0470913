/** The search panel: the text typed so far, the results listed for it, and the word whose details
    are open. Typing searches by prefix, submitting or tapping a result looks the word up, the clear
    button empties the search, and the detail view's back button closes it. */
module SearchPanel {
  import opened Wrappers
  import opened Text
  import opened Models
  import opened Database

  /** What the panel shows below the search bar. */
  datatype Screen =
    | Detail(word: Word)
    | Prompt
    | NotFound(text: string)
    | ResultList(results: seq<Word>)

  /** How many results the panel asks the prefix search for. */
  const SearchLimit: int := 30

  class SearchPanelView {
    const databaseService: DatabaseService
    var searchText: string
    var searchResults: seq<Word>
    var selectedWord: Option<Word>

    /** The listed results are those of a prefix search for the current text (or none, after a
        failed read or a clear), and an open word is a record assembled from the tables. */
    ghost predicate Valid()
      reads this
    {
      && (searchResults == [] || searchResults == SearchByPrefix(databaseService.dbQueue, searchText, SearchLimit, false))
      && (selectedWord.Some? ==> databaseService.dbQueue.Some? && Assembled(databaseService.dbQueue.value, selectedWord.value))
    }

    constructor (databaseService: DatabaseService)
      ensures Valid()
      ensures this.databaseService == databaseService
      ensures searchText == [] && searchResults == [] && selectedWord.None?
    {
      this.databaseService := databaseService;
      searchText := [];
      searchResults := [];
      selectedWord := None;
    }

    /** `performSearch(query)`: no results for an empty query, otherwise the first 30 prefix matches. */
    method PerformSearch(query: string, readFails: bool)
      modifies this`searchResults
      ensures query == [] ==> searchResults == []
      ensures query != [] ==> searchResults == SearchByPrefix(databaseService.dbQueue, query, SearchLimit, readFails)
      ensures |searchResults| <= SearchLimit
    {
      if query == [] {
        searchResults := [];
        return;
      }
      searchResults := SearchByPrefix(databaseService.dbQueue, query, SearchLimit, readFails);
    }

    /** The text field changes to `newText`; its `onChange` handler searches for the new text.
        Setting the text it already holds changes nothing. */
    method Type(newText: string, readFails: bool)
      requires Valid()
      modifies this`searchText, this`searchResults
      ensures Valid()
      ensures searchText == newText
      ensures newText == old(searchText) ==> searchResults == old(searchResults)
      ensures newText != old(searchText) && newText == [] ==> searchResults == []
      ensures newText != old(searchText) && newText != [] ==>
        searchResults == SearchByPrefix(databaseService.dbQueue, newText, SearchLimit, readFails)
    {
      if newText != searchText {
        searchText := newText;
        PerformSearch(newText, readFails);
      }
    }

    /** `selectWord(word)`: open the full record of `word` when the lookup finds it; otherwise the
        panel stays as it was. */
    method SelectWord(word: Word, readFails: bool)
      requires Valid()
      modifies this`selectedWord
      ensures Valid()
      ensures var found := FindWord(databaseService.dbQueue, word.word, readFails);
        selectedWord == if found.Some? then found else old(selectedWord)
    {
      var found := FindWord(databaseService.dbQueue, word.word, readFails);
      if found.Some? {
        selectedWord := found;
      }
    }

    /** Return in the text field: select the first result, if there is one. */
    method Submit(readFails: bool)
      requires Valid()
      modifies this`selectedWord
      ensures Valid()
      ensures searchResults == [] ==> selectedWord == old(selectedWord)
      ensures searchResults != [] ==>
        var found := FindWord(databaseService.dbQueue, searchResults[0].word, readFails);
        selectedWord == if found.Some? then found else old(selectedWord)
    {
      if searchResults != [] {
        SelectWord(searchResults[0], readFails);
      }
    }

    /** The clear button: empty text, no results; an open word stays open. */
    method Clear()
      requires Valid()
      modifies this`searchText, this`searchResults
      ensures Valid()
      ensures searchText == [] && searchResults == []
    {
      searchText := [];
      searchResults := [];
    }

    /** The detail view's back button: close the open word; the search stays as it was. */
    method Back()
      requires Valid()
      modifies this`selectedWord
      ensures Valid()
      ensures selectedWord.None?
    {
      selectedWord := None;
    }

    /** The clear button is shown only while there is text. */
    function ClearButtonVisible(): (b: bool)
      reads this`searchText
      ensures b <==> searchText != []
    {
      searchText != []
    }

    /** The open word's details, else the prompt for empty text, else "not found" for text without
        results, else the result list. */
    function Content(): (s: Screen)
      reads this
      ensures s.Detail? <==> selectedWord.Some?
      ensures s.Detail? ==> s.word == selectedWord.value
      ensures s.Prompt? <==> selectedWord.None? && searchText == []
      ensures s.NotFound? <==> selectedWord.None? && searchText != [] && searchResults == []
      ensures s.ResultList? <==> selectedWord.None? && searchText != [] && searchResults != []
      ensures s.NotFound? ==> s.text == searchText
      ensures s.ResultList? ==> s.results == searchResults
    {
      match selectedWord
      case Some(w) => Detail(w)
      case None =>
        if searchText == [] then Prompt
        else if searchResults == [] then NotFound(searchText)
        else ResultList(searchResults)
    }
  }

  /** In a consistent panel the listed results are at most 30, in word order, and all start with
      the typed text (when it holds no `LIKE` wildcard). */
  lemma ListedResults(p: SearchPanelView)
    requires p.Valid()
    ensures |p.searchResults| <= SearchLimit
    ensures SortedByWord(p.searchResults)
    ensures NoWildcards(p.searchText) ==>
      forall w :: w in p.searchResults ==> Lower(p.searchText) <= Lower(w.word)
  {
    if NoWildcards(p.searchText) {
      SearchByPrefixMatchesPrefix(p.databaseService.dbQueue, p.searchText, SearchLimit, false);
    }
  }

  /** On a well-formed dictionary, submitting with results listed and no failing read opens the
      first result. */
  lemma SubmitOpensFirstResult(p: SearchPanelView)
    requires p.Valid() && p.searchResults != []
    requires p.databaseService.dbQueue.Some? && WellFormed(p.databaseService.dbQueue.value)
    ensures var found := FindWord(p.databaseService.dbQueue, p.searchResults[0].word, false);
      found.Some? && SameColumns(found.value, p.searchResults[0])
  {
    SearchResultsResolve(p.databaseService.dbQueue, p.searchText, SearchLimit, false, p.searchResults[0]);
  }
}
