# ISBN book search, modelled in Dafny

This project models the logic of a small book-search application: a web page
where the user types an ISBN, and a web API that looks the book up in Open
Library and reshapes the answer.

- `Isbn.dfy` models how the page normalises and validates the typed
  identifier: `cleanIsbn` removes every hyphen and whitespace character, and
  `validateIsbn` accepts exactly the inputs whose cleaned form has a `length`
  of 10 or 13. JavaScript's `length` counts UTF-16 code units, so a character
  outside the Basic Multilingual Plane counts twice: `Utf16Length` models
  this. It also models the `isbn.trim()` emptiness guard. Whitespace is
  the ECMAScript set of WhiteSpace and LineTerminator code points. Both the
  regular-expression class `\s` and `String.prototype.trim` use that set, so
  the single predicate `IsWs` serves both.
- `History.dfy` models the recent-search history: the searched identifier
  goes to the front, its earlier copies are removed, and the list is cut to
  five entries.
- `SearchPage.dfy` models the page component as a class with the fields
  `isbn`, `book`, `error`, `loading` and `searchHistory`. Its handlers are
  methods. `handleSearch` awaits the request (`isbn_next/app/page.tsx:67`) and
  then its body (`:70` or `:74`). No state changes between the two awaits:
  every update after the request comes after the last one. The model
  therefore splits the handler just before the request. `Submit` runs the
  guards and the resets that happen before it, and `Settle` applies the
  outcome of both awaits together. The outcome is a parameter. `Search` runs
  both halves one after the other, which is what happens when no other event
  arrives while the request is pending.
- `BookView.dfy` models the API view `get_book_info`, from the decoded Open
  Library answer to the response status and body. Python's dynamic typing is
  modelled on every JSON value: `in` on a string tests for a substring, and
  `.get` on a non-dictionary raises `AttributeError`. The view's `except`
  clause turns any raised exception into a 500 response.
- `Wrappers.dfy` holds the `Option` and `Result` datatypes.

Exception texts follow CPython 3.12's wording, for example
`string indices must be integers, not 'str'`.

On a failure response whose body is not JSON, `res.json()` at
`isbn_next/app/page.tsx:70` throws, and the page shows the parser's own error
message. The outcome `Threw(ErrorObject(message))` models this case.

## Model

| member | source | states |
|---|---|---|
| `Isbn.IsWs` | isbn_next/app/page.tsx:42-51 | no contract of its own; the ECMAScript whitespace set of `\s` and of `trim`, whose use `Clean`, `CleanDropsAll`, `TrimStart`, `TrimEnd` and `BlankIffAllWhitespace` state |
| `Isbn.Kept` | isbn_next/app/page.tsx:42 | no contract of its own; the characters outside `[-\s]`, which `Clean`, `CleanCounts` and `CleanKeepsCleanStrings` state are exactly the ones cleaning keeps |
| `Isbn.Clean` | isbn_next/app/page.tsx:41-43 | every character of the cleaned identifier is neither a hyphen nor whitespace, and it is no longer than the input |
| `Isbn.CleanAppend` | isbn_next/app/page.tsx:41-43 | cleaning distributes over concatenation, so the kept characters stay in their original order |
| `Isbn.CleanCounts` | isbn_next/app/page.tsx:41-43 | every kept character occurs in the output exactly as often as in the input |
| `Isbn.CleanKeepsCleanStrings` | isbn_next/app/page.tsx:41-43 | a string with no hyphen and no whitespace is returned unchanged |
| `Isbn.CleanIdempotent` | isbn_next/app/page.tsx:41-43 | cleaning a cleaned string returns it unchanged |
| `Isbn.CleanDropsAll` | isbn_next/app/page.tsx:41-43 | a string made only of hyphens and whitespace cleans to the empty string |
| `Isbn.Utf16Length` | isbn_next/app/page.tsx:47 | the `length` of a string lies between its number of characters and twice that |
| `Isbn.Utf16LengthCounts` | isbn_next/app/page.tsx:47 | the `length` equals the number of characters exactly when no character is astral, and is twice it exactly when all are |
| `Isbn.IsValid` | isbn_next/app/page.tsx:45-48 | no contract of its own; `FiveAstralCharactersAreValid`, `TenCharactersAreValid`, `PlainIsbn10IsValid`, `ShortInputsAreInvalid` and `ValidIgnoresSeparator` state what it accepts |
| `Isbn.AstralIsKept` | isbn_next/app/page.tsx:41-43 | no astral character is a hyphen or whitespace, so cleaning keeps it |
| `Isbn.FiveAstralCharactersAreValid` | isbn_next/app/page.tsx:41-48 | five astral characters clean to themselves, have a `length` of 10, and pass validation |
| `Isbn.FiveEmojiAreValid` | isbn_next/app/page.tsx:45-48 | five U+1F600 emoji pass validation |
| `Isbn.PlainLength` | isbn_next/app/page.tsx:41-48 | a string of kept characters from the Basic Multilingual Plane is its own cleaning, and its `length` is its number of characters |
| `Isbn.ValidIgnoresSeparator` | isbn_next/app/page.tsx:45-48 | inserting a hyphen or whitespace character anywhere changes neither the cleaned identifier nor its validity |
| `Isbn.TenCharactersAreValid` | isbn_next/app/page.tsx:45-48 | `"abcdefghij"` is valid: there is no digit or check-digit test |
| `Isbn.PlainIsbn10IsValid` | isbn_next/app/page.tsx:45-48 | `"0062316095"` is valid |
| `Isbn.HyphenatedIsbn13IsValid` | isbn_next/app/page.tsx:41-48 | `"978-0-06-112008-4"` cleans to `"9780061120084"` and is valid |
| `Isbn.PlainIsbn13IsValid` | isbn_next/app/page.tsx:41-51 | `"9780061120084"` is not blank, is its own cleaning, and is valid |
| `Isbn.ShortInputsAreInvalid` | isbn_next/app/page.tsx:45-48 | `"123-456"` and `""` are invalid |
| `Isbn.TrimStart` | isbn_next/app/page.tsx:51 | the result is a suffix of the input that does not start with whitespace, and only whitespace was removed |
| `Isbn.TrimEnd` | isbn_next/app/page.tsx:51 | the result is a prefix of the input that does not end with whitespace, and only whitespace was removed |
| `Isbn.Trim` | isbn_next/app/page.tsx:51 | the trimmed string neither starts nor ends with whitespace, and is empty exactly when the input is all whitespace |
| `Isbn.IsBlank` | isbn_next/app/page.tsx:51 | no contract of its own; `BlankIffAllWhitespace` and `BlankIsInvalid` state it |
| `Isbn.BlankIffAllWhitespace` | isbn_next/app/page.tsx:51 | the input trims to empty exactly when every character of it is whitespace |
| `Isbn.BlankIsInvalid` | isbn_next/app/page.tsx:41-59 | a blank input also cleans to empty and fails validation, so the first guard only chooses the message |
| `History.Without` | isbn_next/app/page.tsx:79 | the filtered history holds exactly the previous entries other than the identifier |
| `History.WithoutAppend` | isbn_next/app/page.tsx:79 | filtering keeps the other entries in their relative order |
| `History.WithoutAbsent` | isbn_next/app/page.tsx:79 | filtering out an identifier that is absent changes nothing |
| `History.WithoutNoDuplicates` | isbn_next/app/page.tsx:79 | filtering a history without repeats leaves one without repeats |
| `History.Push` | isbn_next/app/page.tsx:78-81 | the new history starts with the identifier and holds it only once; it has at most 5 entries; the rest is the previous history without the identifier, in order, cut to its first 4 |
| `History.PushNoDuplicates` | isbn_next/app/page.tsx:79-80 | a history without repeats stays without repeats after the update |
| `History.PushWellFormed` | isbn_next/app/page.tsx:78-81 | the update keeps the history within 5 entries and without repeats |
| `History.PushHeadUnchanged` | isbn_next/app/page.tsx:79-80 | searching again for the newest entry of a well-formed history leaves it unchanged |
| `History.RepeatedSearchAppearsOnce` | isbn_next/app/page.tsx:79-80 | searching the same identifier twice leaves it at the front, exactly once |
| `History.AfterSearches` | isbn_next/app/page.tsx:78-81 | the history built by successive updates from empty is bounded by 5, and it is non-empty after any search |
| `History.DistinctSearchesKeepMostRecent` | isbn_next/app/page.tsx:78-81 | after distinct searches, the history holds the last 5 identifiers, newest first |
| `History.SixSearchesKeepFive` | isbn_next/app/page.tsx:78-81 | six distinct searches leave exactly the five most recent, newest first |
| `SearchPage.FailureMessage` | isbn_next/app/page.tsx:69-87 | the error shown for a failed lookup: the body's `error` field, or "Book not found" when it is missing or empty, the thrown error's message, or the generic text for any other thrown value |
| `SearchPage.Home.constructor` | isbn_next/app/page.tsx:20-24 | the page starts with empty input, no book, no error, not loading, and an empty history |
| `SearchPage.Home.Edit` | isbn_next/app/page.tsx:136 | typing replaces the input and changes nothing else |
| `SearchPage.Home.Submit` | isbn_next/app/page.tsx:50-66 | blank input sets "Please enter an ISBN"; input that fails validation sets "Invalid ISBN format. Use 10 or 13 digits"; both leave the other fields alone and make no request. Valid input sets loading, clears book and error, and requests the cleaned identifier |
| `SearchPage.Home.Settle` | isbn_next/app/page.tsx:65-91 | success shows the book and applies the history update. Failure sets the error message and leaves book and history alone. Loading always ends, the input is never touched, and a well-formed history stays well-formed |
| `SearchPage.Home.Search` | isbn_next/app/page.tsx:50-92 | the whole search with nothing in between: the guard errors, or a success that shows the book with no error and updates the history, or a failure that shows the message with no book and an unchanged history |
| `SearchPage.Home.Clear` | isbn_next/app/page.tsx:94-98 | empties the input and removes the book and the error; loading and history are unchanged |
| `BookView.IsSubstring` | isbn_api/books/views.py:14 | no contract of its own; `in` on a string, whose effect on the lookup `FindBook` states |
| `BookView.BookKey` | isbn_api/books/views.py:12 | no contract of its own; the key `"ISBN:" + isbn`, which `FindBook`, `MissingKeyIsNotFound` and `FoundBookIsOk` use |
| `BookView.ErrorBody` | isbn_api/books/views.py:15-39 | no contract of its own; the `{'error': message}` body, which `GetBookInfo` states every error response carries |
| `BookView.GetOr` | isbn_api/books/views.py:20-32 | no contract of its own; `dict.get`, which `Get` states on dictionaries and `ReshapeValue` uses field by field |
| `BookView.Contains` | isbn_api/books/views.py:14 | `key in data` tests the keys of a dictionary and the entries of a list, and raises on values that cannot be searched |
| `BookView.Subscript` | isbn_api/books/views.py:17 | `data[key]` succeeds exactly on a dictionary holding the key; a dictionary without it raises `KeyError` |
| `BookView.Get` | isbn_api/books/views.py:20-32 | `.get(key, default)` gives the value or the default on a dictionary, and raises on anything else |
| `BookView.Str` | isbn_api/books/views.py:39 | no contract of its own; `AuthorWithoutNameIsServerError` states that `str(KeyError('name'))` is `'name'` |
| `BookView.Truthy` | isbn_api/books/views.py:26 | no contract of its own; `ReshapeCover` states how the cover's truthiness picks the link |
| `BookView.CollectNames` | isbn_api/books/views.py:30-31 | a successful name list has one entry per item; a failure is `KeyError('name')` or a `TypeError` from subscripting a non-dictionary |
| `BookView.Names` | isbn_api/books/views.py:30-31 | no contract of its own; `NamesSucceeds` states it |
| `BookView.CollectNamesSucceeds` | isbn_api/books/views.py:30-31 | the name list succeeds exactly when every entry is a dictionary with a `name`; it then has the same length and order as the entries |
| `BookView.CollectNamesMissingName` | isbn_api/books/views.py:30-31 | the first entry without a `name` raises `KeyError('name')` |
| `BookView.NamesSucceeds` | isbn_api/books/views.py:30-31 | the comprehension accepts lists of named entries and an empty string or dictionary; a list gives one name per entry, in order |
| `BookView.BookInfo.ToJson` | isbn_api/books/views.py:28-36 | the success body has exactly the seven keys, each holding its own field, with the name lists as JSON arrays |
| `BookView.Reshape` | isbn_api/books/views.py:17-36 | no contract of its own; `ReshapeSucceedsIff`, `ReshapeValue` and the four field lemmas below state it |
| `BookView.ReshapeValue` | isbn_api/books/views.py:17-36 | a well-shaped entry gives the record whose every field is the entry's value under its key, with the view's default when the key is missing |
| `BookView.ReshapeSucceedsIff` | isbn_api/books/views.py:17-36 | the record is built without an exception exactly when the entry is well-shaped |
| `BookView.ReshapeIdentifiers` | isbn_api/books/views.py:20-22 | `isbn_10` and `isbn_13` are copied from the identifiers unchanged, and are empty lists when `identifiers` or the key is missing |
| `BookView.ReshapeCover` | isbn_api/books/views.py:25-26 | the cover is `cover["large"]` when the cover is truthy, and `""` when it is missing, falsy, or has no `large` key |
| `BookView.ReshapeTitleAndDate` | isbn_api/books/views.py:29 | title and publish date are copied, and are `""` when missing |
| `BookView.ReshapeNames` | isbn_api/books/views.py:30-31 | authors and publishers are the `name` of each entry, in the same number and order, and are empty when the key is missing |
| `BookView.FindBook` | isbn_api/books/views.py:12-17 | on a dictionary, the entry under `"ISBN:" + isbn` or none; on a list holding the key as a string, the `TypeError` of subscripting a list, else none; on a string containing the key, the `TypeError` of subscripting a string, else none; values that cannot be searched raise a `TypeError`; an entry is only ever found in a dictionary |
| `BookView.GetBookInfo` | isbn_api/books/views.py:7-39 | the status is 200, 404 or 500. It is 200 exactly when the book is found and reshaped, and the body is then the record. It is 404 exactly when the answer has no entry for the book, with "Book not found". A failed fetch gives 500 with the failure's text; an exception while finding or reshaping the entry gives 500 with `str` of that exception. An error response never carries part of a record |
| `BookView.MissingKeyIsNotFound` | isbn_api/books/views.py:12-15 | an answer without `"ISBN:" + isbn` gives 404 "Book not found" |
| `BookView.FoundBookIsOk` | isbn_api/books/views.py:12-36 | an answer with a well-shaped entry under the key gives 200 and its record |
| `BookView.AuthorWithoutNameIsServerError` | isbn_api/books/views.py:30-39 | an author without a `name`, when nothing earlier failed, gives 500 with the text `'name'` |
| `SearchPage.LookupThenClear` | isbn_next/app/page.tsx:50-98 | a session with a valid input: a successful lookup shows the book, a clear keeps the history, a failed lookup with no error field shows "Book not found", and the history holds the cleaned input once |

## Left out

- The request to the API (`fetch`), decoding its body, and building the URL from `NEXT_PUBLIC_API_URL` are network I/O. Their result is the `Outcome` parameter of `Settle`.
- Loading the history from `localStorage` on mount, and writing it back, are browser storage I/O. The write happens only while the history is non-empty. Because loading is left out, the model starts from an empty history. A stored history may break the 5-entry bound, so `Settle` promises a well-formed history afterwards only when the history was well-formed before.
- `handleHistoryClick` is not modelled. It sets the input to the clicked entry, then runs `setTimeout(handleSearch, 50)` (`isbn_next/app/page.tsx:106-110`). The delayed call is the `handleSearch` of the render in which the click happened. That function reads that render's `isbn`, so it searches the input as it was before the click, not the clicked entry. For example, after a clear the clicked entry appears in the field, but the search reports "Please enter an ISBN".
- Two searches can overlap, with no defined winner; this is timing behaviour. `Submit` and `Settle` can be interleaved with other calls, but the model makes no claim about which overlapping request wins.
- `handleKeyDown`, all rendering, the ISBN-10/13 badge and the cover image are user interface.
- `requests.get(url, timeout=5)`, `response.json()` and the serialisation done by `JsonResponse` are library and network calls. The view takes the decoded answer as its input. A failure of the fetch or of the decoding becomes `FetchFailed(message)`.
- The Django route in `isbn_api/books/urls.py` holds no logic.
- `BookView.Json`: JSON numbers are integers only. Floating-point numbers, and the truthiness of `0.0`, are not modelled.
- `SearchPage.Outcome`: a failure body's `error` field is either a string or absent. A truthy non-string `error` value, which the page would convert to text, is not modelled.
