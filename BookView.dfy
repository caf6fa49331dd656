/**
 * The book lookup view of the API (`get_book_info`): from the Open Library
 * answer, already decoded from JSON, to the response the page receives.
 *
 * The view is written against Python's dynamic typing. Every dictionary
 * operation it applies (`in`, `[...]`, `.get`, iteration) is modelled on all
 * JSON values, with the exception Python raises where the operation does not
 * apply; the view's `except` turns any such exception into a 500 response.
 */
module BookView {
  import opened Wrappers

  /** A decoded JSON value. */
  datatype Json =
    | JNull
    | JBool(b: bool)
    | JNum(n: int)
    | JStr(s: string)
    | JArr(items: seq<Json>)
    | JObj(fields: map<string, Json>)

  /** The exceptions the view can raise on decoded JSON. */
  datatype PyException =
    | KeyError(key: string)
    | TypeError(message: string)
    | AttributeError(message: string)

  /** The name of the Python type a JSON value decodes to. */
  function TypeName(v: Json): string
  {
    match v
    case JNull => "NoneType"
    case JBool(_) => "bool"
    case JNum(_) => "int"
    case JStr(_) => "str"
    case JArr(_) => "list"
    case JObj(_) => "dict"
  }

  /** `str(e)`: a `KeyError` shows its key quoted, the others their message. */
  function Str(e: PyException): string
  {
    match e
    case KeyError(key) => "'" + key + "'"
    case TypeError(message) => message
    case AttributeError(message) => message
  }

  /** Python truthiness: `None`, `False`, zero and empty containers are false. */
  predicate Truthy(v: Json)
  {
    match v
    case JNull => false
    case JBool(b) => b
    case JNum(n) => n != 0
    case JStr(s) => s != ""
    case JArr(items) => items != []
    case JObj(fields) => fields != map[]
  }

  /** `needle in hay` on two strings: a substring test. */
  predicate IsSubstring(needle: string, hay: string)
  {
    needle <= hay || (hay != [] && IsSubstring(needle, hay[1..]))
  }

  /** `key in v` for a string key. */
  function Contains(v: Json, key: string): (r: Result<bool, PyException>)
    ensures v.JObj? ==> r == Success(key in v.fields)
    ensures v.JArr? ==> r == Success(JStr(key) in v.items)
    ensures r.Failure? <==> !(v.JObj? || v.JArr? || v.JStr?)
  {
    match v
    case JObj(fields) => Success(key in fields)
    case JArr(items) => Success(JStr(key) in items)
    case JStr(s) => Success(IsSubstring(key, s))
    case _ => Failure(TypeError("argument of type '" + TypeName(v) + "' is not iterable"))
  }

  /** `v[key]` for a string key. */
  function Subscript(v: Json, key: string): (r: Result<Json, PyException>)
    ensures r.Success? <==> v.JObj? && key in v.fields
    ensures r.Success? ==> r.value == v.fields[key]
    ensures v.JObj? && key !in v.fields ==> r == Failure(KeyError(key))
  {
    match v
    case JObj(fields) => if key in fields then Success(fields[key]) else Failure(KeyError(key))
    case JArr(_) => Failure(TypeError("list indices must be integers or slices, not str"))
    case JStr(_) => Failure(TypeError("string indices must be integers, not 'str'"))
    case _ => Failure(TypeError("'" + TypeName(v) + "' object is not subscriptable"))
  }

  /** `d.get(key, default)` on a dictionary `d`, which cannot raise. */
  function GetOr(fields: map<string, Json>, key: string, default: Json): Json
  {
    if key in fields then fields[key] else default
  }

  /** `v.get(key, default)` on any value: only a dictionary has `.get`. */
  function Get(v: Json, key: string, default: Json): (r: Result<Json, PyException>)
    ensures r.Success? <==> v.JObj?
    ensures v.JObj? && key in v.fields ==> r == Success(v.fields[key])
    ensures v.JObj? && key !in v.fields ==> r == Success(default)
  {
    match v
    case JObj(fields) => Success(GetOr(fields, key, default))
    case _ => Failure(AttributeError("'" + TypeName(v) + "' object has no attribute 'get'"))
  }

  /** An entry `x` for which `x["name"]` succeeds. */
  predicate IsNamed(x: Json)
  {
    x.JObj? && "name" in x.fields
  }

  /** `[x["name"] for x in items]`: the first failing subscript stops it. */
  function CollectNames(items: seq<Json>): (r: Result<seq<Json>, PyException>)
    ensures r.Success? ==> |r.value| == |items|
    ensures r.Failure? ==> r.error == KeyError("name") || r.error.TypeError?
  {
    if items == [] then Success([])
    else
      var first :- Subscript(items[0], "name");
      var rest :- CollectNames(items[1..]);
      Success([first] + rest)
  }

  /** The comprehension succeeds exactly on lists of named entries, and gives their names in order. */
  lemma {:induction false} CollectNamesSucceeds(items: seq<Json>)
    ensures CollectNames(items).Success? <==> forall i :: 0 <= i < |items| ==> IsNamed(items[i])
    ensures CollectNames(items).Success? ==>
      && |CollectNames(items).value| == |items|
      && forall i :: 0 <= i < |items| ==> CollectNames(items).value[i] == items[i].fields["name"]
  {
    if items != [] {
      CollectNamesSucceeds(items[1..]);
      if CollectNames(items).Success? {
        var names := CollectNames(items).value;
        var rest := CollectNames(items[1..]).value;
        assert names == [items[0].fields["name"]] + rest;
        forall i | 0 <= i < |items|
          ensures names[i] == items[i].fields["name"]
        {
          if i > 0 {
            assert names[i] == rest[i - 1];
          }
        }
      } else if IsNamed(items[0]) {
        assert !(forall i :: 0 <= i < |items| - 1 ==> IsNamed(items[1..][i]));
      }
    }
  }

  /** The first entry without a `name` key makes the comprehension raise `KeyError('name')`. */
  lemma {:induction false} CollectNamesMissingName(items: seq<Json>, k: nat)
    requires k < |items| && items[k].JObj? && "name" !in items[k].fields
    requires forall i :: 0 <= i < k ==> IsNamed(items[i])
    ensures CollectNames(items) == Failure(KeyError("name"))
  {
    if k > 0 {
      CollectNamesMissingName(items[1..], k - 1);
    }
  }

  /**
   * `[x["name"] for x in v]` on any value: iterating a list gives its entries;
   * iterating a string or a dictionary gives strings, whose `["name"]` fails;
   * other values cannot be iterated.
   */
  function Names(v: Json): Result<seq<Json>, PyException>
  {
    match v
    case JArr(items) => CollectNames(items)
    case JStr(s) =>
      if s == "" then Success([]) else Failure(TypeError("string indices must be integers, not 'str'"))
    case JObj(fields) =>
      if fields == map[] then Success([]) else Failure(TypeError("string indices must be integers, not 'str'"))
    case _ => Failure(TypeError("'" + TypeName(v) + "' object is not iterable"))
  }

  /** The body of a successful response. */
  datatype BookInfo = BookInfo(
    title: Json,
    authors: seq<Json>,
    publishers: seq<Json>,
    publishDate: Json,
    isbn10: Json,
    isbn13: Json,
    cover: Json)
  {
    /** The response dictionary, one key per field. */
    function ToJson(): (j: Json)
      ensures j.JObj? && j.fields.Keys ==
        {"title", "authors", "publishers", "publish_date", "isbn_10", "isbn_13", "cover"}
      ensures j.fields["authors"] == JArr(authors) && j.fields["publishers"] == JArr(publishers)
      ensures j.fields["title"] == title && j.fields["publish_date"] == publishDate
      ensures j.fields["isbn_10"] == isbn10 && j.fields["isbn_13"] == isbn13
      ensures j.fields["cover"] == cover
    {
      JObj(map[
        "title" := title,
        "authors" := JArr(authors),
        "publishers" := JArr(publishers),
        "publish_date" := publishDate,
        "isbn_10" := isbn10,
        "isbn_13" := isbn13,
        "cover" := cover])
    }
  }

  const EmptyObject: Json := JObj(map[])
  const EmptyList: Json := JArr([])
  const EmptyString: Json := JStr("")

  /** The record the view builds from the book's entry `bookData`, or the first exception on the way. */
  function Reshape(bookData: Json): Result<BookInfo, PyException>
  {
    var identifiers :- Get(bookData, "identifiers", EmptyObject);
    var isbn10 :- Get(identifiers, "isbn_10", EmptyList);
    var isbn13 :- Get(identifiers, "isbn_13", EmptyList);
    var cover :- Get(bookData, "cover", EmptyObject);
    var coverUrl :- if Truthy(cover) then Get(cover, "large", EmptyString) else Success(EmptyString);
    var title :- Get(bookData, "title", EmptyString);
    var authorList :- Get(bookData, "authors", EmptyList);
    var authors :- Names(authorList);
    var publisherList :- Get(bookData, "publishers", EmptyList);
    var publishers :- Names(publisherList);
    var publishDate :- Get(bookData, "publish_date", EmptyString);
    Success(BookInfo(title, authors, publishers, publishDate, isbn10, isbn13, coverUrl))
  }

  /** A value the name comprehension accepts. */
  predicate NamesAccepted(v: Json)
  {
    || v == JStr("") || v == EmptyObject
    || (v.JArr? && forall i :: 0 <= i < |v.items| ==> IsNamed(v.items[i]))
  }

  /**
   * A book entry from which the view builds a record without raising: a
   * dictionary whose identifiers, if present, are a dictionary, whose cover is
   * falsy or a dictionary, and whose authors and publishers the name
   * comprehension accepts.
   */
  predicate WellShaped(bookData: Json)
  {
    && bookData.JObj?
    && GetOr(bookData.fields, "identifiers", EmptyObject).JObj?
    && (var cover := GetOr(bookData.fields, "cover", EmptyObject); !Truthy(cover) || cover.JObj?)
    && NamesAccepted(GetOr(bookData.fields, "authors", EmptyList))
    && NamesAccepted(GetOr(bookData.fields, "publishers", EmptyList))
  }

  /** Names succeeds exactly on the values it accepts; a list gives one name per entry, in order. */
  lemma NamesSucceeds(v: Json)
    ensures Names(v).Success? <==> NamesAccepted(v)
    ensures v.JArr? && Names(v).Success? ==>
      && |Names(v).value| == |v.items|
      && forall i :: 0 <= i < |v.items| ==> Names(v).value[i] == v.items[i].fields["name"]
    ensures v == JStr("") || v == EmptyObject ==> Names(v) == Success([])
  {
    if v.JArr? {
      CollectNamesSucceeds(v.items);
    }
  }

  /** The view builds a record exactly from the well-shaped entries. */
  lemma ReshapeSucceedsIff(bookData: Json)
    ensures Reshape(bookData).Success? <==> WellShaped(bookData)
  {
    if bookData.JObj? {
      var fields := bookData.fields;
      NamesSucceeds(GetOr(fields, "authors", EmptyList));
      NamesSucceeds(GetOr(fields, "publishers", EmptyList));
    }
  }

  /** The record built from a well-shaped entry, field by field. */
  lemma ReshapeValue(bookData: Json)
    requires WellShaped(bookData)
    ensures Reshape(bookData).Success?
    ensures var fields := bookData.fields;
      var identifiers := GetOr(fields, "identifiers", EmptyObject).fields;
      var cover := GetOr(fields, "cover", EmptyObject);
      && Names(GetOr(fields, "authors", EmptyList)).Success?
      && Names(GetOr(fields, "publishers", EmptyList)).Success?
      && Reshape(bookData).value == BookInfo(
           GetOr(fields, "title", EmptyString),
           Names(GetOr(fields, "authors", EmptyList)).value,
           Names(GetOr(fields, "publishers", EmptyList)).value,
           GetOr(fields, "publish_date", EmptyString),
           GetOr(identifiers, "isbn_10", EmptyList),
           GetOr(identifiers, "isbn_13", EmptyList),
           if Truthy(cover) then GetOr(cover.fields, "large", EmptyString) else EmptyString)
  {
    ReshapeSucceedsIff(bookData);
  }

  /** The ISBN lists are the identifiers' own lists, or empty where a key is missing. */
  lemma ReshapeIdentifiers(bookData: Json)
    requires WellShaped(bookData)
    ensures Reshape(bookData).Success?
    ensures var identifiers := GetOr(bookData.fields, "identifiers", EmptyObject).fields;
      && Reshape(bookData).value.isbn10 == GetOr(identifiers, "isbn_10", EmptyList)
      && Reshape(bookData).value.isbn13 == GetOr(identifiers, "isbn_13", EmptyList)
    ensures "identifiers" !in bookData.fields ==>
      Reshape(bookData).value.isbn10 == JArr([]) && Reshape(bookData).value.isbn13 == JArr([])
  {
    ReshapeValue(bookData);
  }

  /** The cover link is the cover's `large` entry when the cover is truthy, else the empty string. */
  lemma ReshapeCover(bookData: Json)
    requires WellShaped(bookData)
    ensures Reshape(bookData).Success?
    ensures var cover := GetOr(bookData.fields, "cover", EmptyObject);
      Reshape(bookData).value.cover ==
        if Truthy(cover) then GetOr(cover.fields, "large", EmptyString) else JStr("")
    ensures "cover" !in bookData.fields ==> Reshape(bookData).value.cover == JStr("")
  {
    ReshapeValue(bookData);
  }

  /** The title and the publication date are the entry's own, or empty when missing. */
  lemma ReshapeTitleAndDate(bookData: Json)
    requires WellShaped(bookData)
    ensures Reshape(bookData).Success?
    ensures Reshape(bookData).value.title == GetOr(bookData.fields, "title", EmptyString)
    ensures Reshape(bookData).value.publishDate == GetOr(bookData.fields, "publish_date", EmptyString)
    ensures "title" !in bookData.fields ==> Reshape(bookData).value.title == JStr("")
    ensures "publish_date" !in bookData.fields ==> Reshape(bookData).value.publishDate == JStr("")
  {
    ReshapeValue(bookData);
  }

  /** Authors and publishers are the `name` of each entry, same number and same order; none when missing. */
  lemma ReshapeNames(bookData: Json)
    requires WellShaped(bookData)
    ensures Reshape(bookData).Success?
    ensures var info := Reshape(bookData).value;
      && Names(GetOr(bookData.fields, "authors", EmptyList)) == Success(info.authors)
      && Names(GetOr(bookData.fields, "publishers", EmptyList)) == Success(info.publishers)
    ensures "authors" !in bookData.fields ==> Reshape(bookData).value.authors == []
    ensures "publishers" !in bookData.fields ==> Reshape(bookData).value.publishers == []
    ensures var authors := GetOr(bookData.fields, "authors", EmptyList);
      authors.JArr? ==>
        && |Reshape(bookData).value.authors| == |authors.items|
        && forall i :: 0 <= i < |authors.items| ==>
             Reshape(bookData).value.authors[i] == authors.items[i].fields["name"]
    ensures var publishers := GetOr(bookData.fields, "publishers", EmptyList);
      publishers.JArr? ==>
        && |Reshape(bookData).value.publishers| == |publishers.items|
        && forall i :: 0 <= i < |publishers.items| ==>
             Reshape(bookData).value.publishers[i] == publishers.items[i].fields["name"]
  {
    ReshapeValue(bookData);
    NamesSucceeds(GetOr(bookData.fields, "authors", EmptyList));
    NamesSucceeds(GetOr(bookData.fields, "publishers", EmptyList));
  }

  /** How the fetch of the Open Library answer ended. */
  datatype Fetched =
    | Parsed(data: Json)          // the answer arrived and decoded
    | FetchFailed(message: string) // the request or the decoding raised, with this text

  /** A response: its status and its JSON body. */
  datatype Response = Response(status: int, body: Json)

  /** The body of an error response. */
  function ErrorBody(message: string): Json
  {
    JObj(map["error" := JStr(message)])
  }

  /** The key under which Open Library files the book. */
  function BookKey(isbn: string): string
  {
    "ISBN:" + isbn
  }

  /** The book's entry in the answer, `None` when it has none, or the exception raised looking for it. */
  function FindBook(isbn: string, data: Json): (r: Result<Option<Json>, PyException>)
    ensures data.JObj? ==>
      r == Success(if BookKey(isbn) in data.fields then Some(data.fields[BookKey(isbn)]) else None)
    ensures data.JArr? ==>
      r == if JStr(BookKey(isbn)) in data.items
           then Failure(TypeError("list indices must be integers or slices, not str"))
           else Success(None)
    ensures data.JStr? ==>
      r == if IsSubstring(BookKey(isbn), data.s)
           then Failure(TypeError("string indices must be integers, not 'str'"))
           else Success(None)
    ensures !(data.JObj? || data.JArr? || data.JStr?) ==> r.Failure? && r.error.TypeError?
    ensures r.Success? && r.value.Some? ==> data.JObj?
  {
    var key := BookKey(isbn);
    var present :- Contains(data, key);
    if !present then Success(None)
    else
      var bookData :- Subscript(data, key);
      Success(Some(bookData))
  }

  /**
   * `get_book_info`: a 200 response with the record, a 404 when the book is
   * not in the answer, or a 500 with the exception's text; an error response
   * never carries part of a record.
   */
  function GetBookInfo(isbn: string, fetched: Fetched): (r: Response)
    ensures r.status in {200, 404, 500}
    ensures r.status == 200 <==>
      && fetched.Parsed?
      && FindBook(isbn, fetched.data).Success?
      && FindBook(isbn, fetched.data).value.Some?
      && Reshape(FindBook(isbn, fetched.data).value.value).Success?
    ensures r.status == 200 ==> r.body == Reshape(FindBook(isbn, fetched.data).value.value).value.ToJson()
    ensures r.status != 200 ==> exists message :: r.body == ErrorBody(message)
    ensures r.status == 404 ==> r.body == ErrorBody("Book not found")
    ensures r.status == 404 <==> fetched.Parsed? && FindBook(isbn, fetched.data) == Success(None)
    ensures fetched.FetchFailed? ==> r == Response(500, ErrorBody(fetched.message))
    ensures fetched.Parsed? && FindBook(isbn, fetched.data).Failure? ==>
      r == Response(500, ErrorBody(Str(FindBook(isbn, fetched.data).error)))
    ensures (&& fetched.Parsed? && FindBook(isbn, fetched.data).Success? && FindBook(isbn, fetched.data).value.Some?
             && Reshape(FindBook(isbn, fetched.data).value.value).Failure?) ==>
      r == Response(500, ErrorBody(Str(Reshape(FindBook(isbn, fetched.data).value.value).error)))
  {
    match fetched
    case FetchFailed(message) => Response(500, ErrorBody(message))
    case Parsed(data) =>
      match FindBook(isbn, data)
      case Failure(e) => Response(500, ErrorBody(Str(e)))
      case Success(None) => Response(404, ErrorBody("Book not found"))
      case Success(Some(bookData)) =>
        match Reshape(bookData)
        case Failure(e) => Response(500, ErrorBody(Str(e)))
        case Success(info) => Response(200, info.ToJson())
  }

  /** A dictionary answer without the book's key gives the 404 "Book not found". */
  lemma MissingKeyIsNotFound(isbn: string, fields: map<string, Json>)
    requires BookKey(isbn) !in fields
    ensures GetBookInfo(isbn, Parsed(JObj(fields))) == Response(404, ErrorBody("Book not found"))
  {
  }

  /** A dictionary answer holding a well-shaped entry under the book's key gives 200 and its record. */
  lemma FoundBookIsOk(isbn: string, fields: map<string, Json>)
    requires BookKey(isbn) in fields && WellShaped(fields[BookKey(isbn)])
    ensures var r := GetBookInfo(isbn, Parsed(JObj(fields)));
      r.status == 200 && r.body == Reshape(fields[BookKey(isbn)]).value.ToJson()
  {
    ReshapeSucceedsIff(fields[BookKey(isbn)]);
  }

  /**
   * An author without a `name`, after authors that have one, makes the view
   * answer 500 with the text of `KeyError('name')`, when nothing before the
   * authors failed.
   */
  lemma AuthorWithoutNameIsServerError(isbn: string, fields: map<string, Json>, k: nat)
    requires BookKey(isbn) in fields
    requires var bookData := fields[BookKey(isbn)];
      && bookData.JObj?
      && GetOr(bookData.fields, "identifiers", EmptyObject).JObj?
      && (var cover := GetOr(bookData.fields, "cover", EmptyObject); !Truthy(cover) || cover.JObj?)
      && "authors" in bookData.fields && bookData.fields["authors"].JArr?
      && (var authors := bookData.fields["authors"].items;
          && k < |authors| && authors[k].JObj? && "name" !in authors[k].fields
          && forall i :: 0 <= i < k ==> IsNamed(authors[i]))
    ensures GetBookInfo(isbn, Parsed(JObj(fields))) == Response(500, ErrorBody("'name'"))
  {
    var bookData := fields[BookKey(isbn)];
    CollectNamesMissingName(bookData.fields["authors"].items, k);
    assert FindBook(isbn, JObj(fields)) == Success(Some(bookData));
    assert Names(bookData.fields["authors"]) == Failure(KeyError("name"));
    assert Reshape(bookData) == Failure(KeyError("name"));
    assert Str(KeyError("name")) == "'name'";
  }
}
