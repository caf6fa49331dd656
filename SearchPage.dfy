/**
 * The state of the search page component and its two handlers, `handleSearch`
 * and `handleClear`. `handleSearch` awaits the request and then its body,
 * with no change of state between the two awaits. It is split just before
 * the request into `Submit` (the guards and resets) and `Settle` (what
 * happens once both awaits have finished). The request and its body are not
 * modelled: their combined outcome is a parameter of `Settle`.
 */
module SearchPage {
  import opened Wrappers
  import Isbn
  import History

  /** A book record as the page receives it; every field but the title is optional. */
  datatype Book = Book(
    title: string,
    authors: Option<seq<string>>,
    publishers: Option<seq<string>>,
    publishDate: Option<string>,
    isbn10: Option<seq<string>>,
    isbn13: Option<seq<string>>,
    cover: Option<string>)

  /** A thrown value: an `Error` object with its message, or anything else. */
  datatype Thrown = ErrorObject(message: string) | OtherValue

  /** How the lookup request settled. */
  datatype Outcome =
    | Fetched(book: Book)                 // success status, body parsed as a book
    | Rejected(errorField: Option<string>) // failure status, body parsed; its `error` field, if a string
    | Threw(thrown: Thrown)               // the request or a body parse threw

  const EmptyInputMessage := "Please enter an ISBN"
  const InvalidInputMessage := "Invalid ISBN format. Use 10 or 13 digits"
  const NotFoundMessage := "Book not found"
  const UnexpectedMessage := "An unexpected error occurred"

  /**
   * The message a failed outcome leaves on the page: the body's `error` field
   * unless it is missing or empty, else the fixed fallback; the message of a
   * thrown `Error`; the generic text for anything else thrown.
   */
  function FailureMessage(o: Outcome): (m: string)
    requires !o.Fetched?
    ensures o.Rejected? && o.errorField.Some? && o.errorField.value != "" ==> m == o.errorField.value
    ensures o.Rejected? && (o.errorField == None || o.errorField == Some("")) ==> m == NotFoundMessage
    ensures o.Threw? && o.thrown.ErrorObject? ==> m == o.thrown.message
    ensures o == Threw(OtherValue) ==> m == UnexpectedMessage
    ensures m == "" ==> o == Threw(ErrorObject(""))
  {
    match o
    case Rejected(field) =>
      if field.Some? && field.value != "" then field.value else NotFoundMessage
    case Threw(ErrorObject(message)) => message
    case Threw(OtherValue) => UnexpectedMessage
  }

  class Home {
    var isbn: string
    var book: Option<Book>
    var error: Option<string>
    var loading: bool
    var searchHistory: seq<string>

    /** The history is within its bound and free of repeats. */
    predicate HistoryWellFormed()
      reads this
    {
      History.WellFormed(searchHistory)
    }

    /** A freshly mounted page, before any stored history is loaded. */
    constructor ()
      ensures isbn == "" && book == None && error == None && !loading && searchHistory == []
      ensures HistoryWellFormed()
    {
      isbn := "";
      book := None;
      error := None;
      loading := false;
      searchHistory := [];
    }

    /** Typing in the input field. */
    method Edit(text: string)
      modifies this
      ensures isbn == text
      ensures book == old(book) && error == old(error) && loading == old(loading)
      ensures searchHistory == old(searchHistory)
    {
      isbn := text;
    }

    /**
     * The synchronous part of `handleSearch`. A blank or malformed input only
     * sets the error. A valid input starts loading, clears the result and the
     * error, and returns the cleaned identifier that the request is made for.
     */
    method Submit() returns (request: Option<string>)
      modifies this
      ensures isbn == old(isbn) && searchHistory == old(searchHistory)
      ensures Isbn.IsBlank(isbn) ==>
        && request == None && error == Some(EmptyInputMessage)
        && book == old(book) && loading == old(loading)
      ensures !Isbn.IsBlank(isbn) && !Isbn.IsValid(isbn) ==>
        && request == None && error == Some(InvalidInputMessage)
        && book == old(book) && loading == old(loading)
      ensures !Isbn.IsBlank(isbn) && Isbn.IsValid(isbn) ==>
        && request == Some(Isbn.Clean(isbn))
        && loading && book == None && error == None
    {
      var blank := Isbn.IsBlank(isbn);
      var valid := Isbn.IsValid(isbn);
      if blank {
        error := Some(EmptyInputMessage);
        request := None;
      } else if !valid {
        error := Some(InvalidInputMessage);
        request := None;
      } else {
        loading := true;
        book := None;
        error := None;
        request := Some(Isbn.Clean(isbn));
      }
    }

    /**
     * The part of `handleSearch` after the request for `cleaned` settles. A
     * success shows the book and moves `cleaned` to the front of the history;
     * a failure shows its message and leaves result and history alone. Either
     * way loading ends and the input is untouched.
     */
    method Settle(cleaned: string, outcome: Outcome)
      modifies this
      ensures !loading && isbn == old(isbn)
      ensures outcome.Fetched? ==>
        && book == Some(outcome.book) && error == old(error)
        && searchHistory == History.Push(old(searchHistory), cleaned)
      ensures !outcome.Fetched? ==>
        && book == old(book) && error == Some(FailureMessage(outcome))
        && searchHistory == old(searchHistory)
      ensures old(HistoryWellFormed()) ==> HistoryWellFormed()
    {
      if outcome.Fetched? {
        book := Some(outcome.book);
        if History.WellFormed(searchHistory) {
          History.PushWellFormed(searchHistory, cleaned);
        }
        searchHistory := History.Push(searchHistory, cleaned);
      } else {
        error := Some(FailureMessage(outcome));
      }
      loading := false;
    }

    /**
     * `handleSearch` run to completion with nothing else happening while the
     * request is out: `Submit`, then `Settle` when a request was made.
     */
    method Search(outcome: Outcome)
      modifies this
      ensures isbn == old(isbn)
      ensures Isbn.IsBlank(isbn) ==>
        && error == Some(EmptyInputMessage) && book == old(book)
        && searchHistory == old(searchHistory) && loading == old(loading)
      ensures !Isbn.IsBlank(isbn) && !Isbn.IsValid(isbn) ==>
        && error == Some(InvalidInputMessage) && book == old(book)
        && searchHistory == old(searchHistory) && loading == old(loading)
      ensures !Isbn.IsBlank(isbn) && Isbn.IsValid(isbn) && outcome.Fetched? ==>
        && !loading && book == Some(outcome.book) && error == None
        && searchHistory == History.Push(old(searchHistory), Isbn.Clean(isbn))
      ensures !Isbn.IsBlank(isbn) && Isbn.IsValid(isbn) && !outcome.Fetched? ==>
        && !loading && book == None && error == Some(FailureMessage(outcome))
        && searchHistory == old(searchHistory)
      ensures old(HistoryWellFormed()) ==> HistoryWellFormed()
    {
      var request := Submit();
      if request.Some? {
        Settle(request.value, outcome);
      }
    }

    /** `handleClear`: empty input, no result, no error; loading and history untouched. */
    method Clear()
      modifies this
      ensures isbn == "" && book == None && error == None
      ensures loading == old(loading) && searchHistory == old(searchHistory)
    {
      isbn := "";
      book := None;
      error := None;
    }
  }

  /**
   * A session on one page with a valid input: a successful lookup, a clear,
   * then two failed lookups, with the error field `bodyError` in the body and
   * without an error field.
   */
  method LookupThenClear(input: string, found: Book, bodyError: string)
    returns (shownFirst: Option<Book>, history: seq<string>, lastError: Option<string>)
    requires !Isbn.IsBlank(input) && Isbn.IsValid(input) && bodyError != ""
    ensures shownFirst == Some(found)
    ensures history == [Isbn.Clean(input)]
    ensures lastError == Some(NotFoundMessage)
  {
    var cleaned := Isbn.Clean(input);
    var page := new Home();
    page.Edit(input);
    assert page.isbn == input && page.searchHistory == [];
    page.Search(Fetched(found));
    assert page.book == Some(found) && page.error == None && !page.loading;
    shownFirst := page.book;
    assert page.searchHistory == History.Push([], cleaned);
    assert History.Push([], cleaned) == [cleaned];
    page.Clear();
    assert page.isbn == "" && page.book == None && page.error == None;
    assert page.searchHistory == [cleaned];
    page.Edit(input);
    assert !Isbn.IsBlank(page.isbn) && Isbn.IsValid(page.isbn);
    page.Search(Rejected(Some(bodyError)));
    assert page.error == Some(bodyError) && page.book == None;
    assert page.isbn == input && page.searchHistory == [cleaned];
    page.Search(Rejected(None));
    assert page.error == Some(NotFoundMessage) && !page.loading;
    history := page.searchHistory;
    lastError := page.error;
  }
}
