/**
 * Identifier normalisation and validation of the search page
 * (`cleanIsbn`, `validateIsbn` and the `isbn.trim()` guard of `handleSearch`).
 */
module Isbn {

  /**
   * A whitespace character in the sense of ECMAScript: the WhiteSpace and
   * LineTerminator code points. Both the regular-expression class `\s` and
   * `String.prototype.trim` use exactly this set.
   */
  predicate IsWs(c: char)
  {
    if c <= ' ' then
      c == ' ' || '\t' <= c <= '\r'  // tab, line feed, vertical tab, form feed, carriage return
    else
      '\U{A0}' <= c &&
      (|| c == '\U{A0}' || c == '\U{1680}'
       || ('\U{2000}' <= c <= '\U{200A}')
       || c == '\U{2028}' || c == '\U{2029}' || c == '\U{202F}' || c == '\U{205F}'
       || c == '\U{3000}' || c == '\U{FEFF}')
  }

  /** A character that `cleanIsbn` keeps: anything but a hyphen or whitespace. */
  predicate Kept(c: char)
  {
    c != '-' && !IsWs(c)
  }

  /** `cleanIsbn`: the input with every hyphen and whitespace character removed. */
  function Clean(s: string): (r: string)
    ensures forall i :: 0 <= i < |r| ==> Kept(r[i])
    ensures |r| <= |s|
  {
    if s == [] then []
    else if Kept(s[0]) then [s[0]] + Clean(s[1..])
    else Clean(s[1..])
  }

  /** Every kept character occurs in the result as often as in the input. */
  lemma {:induction false} CleanCounts(s: string, c: char)
    requires Kept(c)
    ensures multiset(Clean(s))[c] == multiset(s)[c]
  {
    if s != [] {
      assert s == [s[0]] + s[1..];
      CleanCounts(s[1..], c);
    }
  }

  /** Cleaning distributes over concatenation: kept characters stay in their order. */
  lemma {:induction false} CleanAppend(a: string, b: string)
    ensures Clean(a + b) == Clean(a) + Clean(b)
  {
    if a == [] {
      assert a + b == b;
    } else {
      assert (a + b)[0] == a[0];
      assert (a + b)[1..] == a[1..] + b;
      CleanAppend(a[1..], b);
    }
  }

  /** A string made only of kept characters is its own cleaning. */
  lemma {:induction false} CleanKeepsCleanStrings(s: string)
    requires forall i :: 0 <= i < |s| ==> Kept(s[i])
    ensures Clean(s) == s
  {
    if s != [] {
      CleanKeepsCleanStrings(s[1..]);
    }
  }

  /** `cleanIsbn` is idempotent. */
  lemma CleanIdempotent(s: string)
    ensures Clean(Clean(s)) == Clean(s)
  {
    CleanKeepsCleanStrings(Clean(s));
  }

  /** A string made only of removed characters cleans to the empty string. */
  lemma {:induction false} CleanDropsAll(s: string)
    requires forall i :: 0 <= i < |s| ==> !Kept(s[i])
    ensures Clean(s) == []
  {
    if s != [] {
      CleanDropsAll(s[1..]);
    }
  }

  /** A character outside the Basic Multilingual Plane, which UTF-16 stores as a surrogate pair. */
  predicate IsAstral(c: char)
  {
    c > '\U{FFFF}'
  }

  /**
   * JavaScript's `s.length`: the number of UTF-16 code units, one per
   * character of the Basic Multilingual Plane and two per astral character.
   */
  function Utf16Length(s: string): (n: nat)
    ensures |s| <= n <= 2 * |s|
  {
    if s == [] then 0
    else (if IsAstral(s[0]) then 2 else 1) + Utf16Length(s[1..])
  }

  /**
   * The `length` equals the number of characters exactly when none is
   * astral, and is twice that exactly when all are.
   */
  lemma {:induction false} Utf16LengthCounts(s: string)
    ensures Utf16Length(s) == |s| <==> forall i :: 0 <= i < |s| ==> !IsAstral(s[i])
    ensures Utf16Length(s) == 2 * |s| <==> forall i :: 0 <= i < |s| ==> IsAstral(s[i])
  {
    if s != [] {
      Utf16LengthCounts(s[1..]);
      assert forall i :: 1 <= i < |s| ==> s[i] == s[1..][i - 1];
    }
  }

  /** `validateIsbn`: the cleaned identifier's `length`, in UTF-16 code units, is exactly 10 or 13. */
  predicate IsValid(s: string)
  {
    var cleaned := Clean(s);
    Utf16Length(cleaned) == 10 || Utf16Length(cleaned) == 13
  }

  /** Whitespace and the hyphen lie in the Basic Multilingual Plane, so every astral character is kept. */
  lemma AstralIsKept(c: char)
    requires IsAstral(c)
    ensures Kept(c)
  {
  }

  /**
   * Five astral characters, such as five emoji, have a `length` of 10 and
   * pass validation, although they are only five characters.
   */
  lemma FiveAstralCharactersAreValid(s: string)
    requires |s| == 5 && forall i :: 0 <= i < |s| ==> IsAstral(s[i])
    ensures Clean(s) == s && Utf16Length(s) == 10 && IsValid(s)
  {
    forall i | 0 <= i < |s|
      ensures Kept(s[i])
    {
      AstralIsKept(s[i]);
    }
    CleanKeepsCleanStrings(s);
    Utf16LengthCounts(s);
  }

  /** Five grinning-face emoji make a valid identifier. */
  lemma FiveEmojiAreValid()
    ensures IsValid("\U{1F600}\U{1F600}\U{1F600}\U{1F600}\U{1F600}")
  {
    FiveAstralCharactersAreValid("\U{1F600}\U{1F600}\U{1F600}\U{1F600}\U{1F600}");
  }

  /** A hyphen or whitespace character anywhere in the input does not change its validity. */
  lemma ValidIgnoresSeparator(a: string, c: char, b: string)
    requires !Kept(c)
    ensures Clean(a + [c] + b) == Clean(a + b)
    ensures IsValid(a + [c] + b) <==> IsValid(a + b)
  {
    CleanAppend(a + [c], b);
    CleanAppend(a, [c]);
    CleanAppend(a, b);
    assert Clean([c]) == [];
  }

  /** Leading whitespace removed (the first half of `trim`). */
  function TrimStart(s: string): (r: string)
    ensures |r| <= |s| && r == s[|s| - |r|..]
    ensures r == [] || !IsWs(r[0])
    ensures forall i :: 0 <= i < |s| - |r| ==> IsWs(s[i])
  {
    if s != [] && IsWs(s[0]) then TrimStart(s[1..]) else s
  }

  /** Trailing whitespace removed (the second half of `trim`). */
  function TrimEnd(s: string): (r: string)
    ensures |r| <= |s| && r == s[..|r|]
    ensures r == [] || !IsWs(r[|r| - 1])
    ensures forall i :: |r| <= i < |s| ==> IsWs(s[i])
  {
    if s != [] && IsWs(s[|s| - 1]) then TrimEnd(s[..|s| - 1]) else s
  }

  /**
   * `String.prototype.trim`: the result neither starts nor ends with
   * whitespace, and is empty exactly when the input is all whitespace.
   */
  function Trim(s: string): (r: string)
    ensures |r| <= |s|
    ensures r == [] || (!IsWs(r[0]) && !IsWs(r[|r| - 1]))
    ensures r == [] <==> forall i :: 0 <= i < |s| ==> IsWs(s[i])
  {
    TrimEnd(TrimStart(s))
  }

  /** The guard `!isbn.trim()`: the input trims to the empty string. */
  predicate IsBlank(s: string)
  {
    Trim(s) == []
  }

  /** The input is blank exactly when every character of it is whitespace. */
  lemma BlankIffAllWhitespace(s: string)
    ensures IsBlank(s) <==> forall i :: 0 <= i < |s| ==> IsWs(s[i])
  {
  }

  /** A blank input would also fail `validateIsbn`: the first guard only picks the message. */
  lemma BlankIsInvalid(s: string)
    requires IsBlank(s)
    ensures Clean(s) == [] && !IsValid(s)
  {
    BlankIffAllWhitespace(s);
    CleanDropsAll(s);
  }

  /**
   * A string of kept characters from the Basic Multilingual Plane is its own
   * cleaning, and its `length` is its number of characters.
   */
  lemma PlainLength(s: string)
    requires forall i :: 0 <= i < |s| ==> Kept(s[i]) && !IsAstral(s[i])
    ensures Clean(s) == s && Utf16Length(s) == |s|
  {
    CleanKeepsCleanStrings(s);
    Utf16LengthCounts(s);
  }

  /** Ten arbitrary characters are a valid identifier: no digit check is made. */
  lemma TenCharactersAreValid()
    ensures IsValid("abcdefghij")
  {
    var s := "abcdefghij";
    assert |s| == 10;
    PlainLength(s);
  }

  /** An unhyphenated ISBN-10 is valid. */
  lemma PlainIsbn10IsValid()
    ensures IsValid("0062316095")
  {
    var s := "0062316095";
    assert |s| == 10;
    PlainLength(s);
  }

  /**
   * How the example strings below split into pieces. These are facts about
   * literals only; they live apart from the lemmas that clean the pieces,
   * because the verifier unfolds `Clean` on every literal in scope and a
   * lemma holding both the long literals and `Clean` of them becomes
   * too costly to check.
   */
  lemma ExampleSplits()
    ensures "978-0" + "-06-" == "978-0-06-" && "9780" + "06" == "978006"
    ensures "11200" + "8-4" == "112008-4" && "11200" + "84" == "1120084"
    ensures "978-0-06-" + "112008-4" == "978-0-06-112008-4"
    ensures "978006" + "1120084" == "9780061120084"
    ensures "123-" + "456" == "123-456"
  {
  }

  /** The registration group and publisher of the hyphenated example below. */
  lemma CleanIsbnHead()
    ensures Clean("978-0-06-") == "978006"
  {
    assert Clean("978-0") == "9780";
    assert Clean("-06-") == "06";
    CleanAppend("978-0", "-06-");
    ExampleSplits();
  }

  /** The title number and check digit of the hyphenated example below. */
  lemma CleanIsbnTail()
    ensures Clean("112008-4") == "1120084"
  {
    CleanKeepsCleanStrings("11200");
    assert Clean("8-4") == "84";
    CleanAppend("11200", "8-4");
    ExampleSplits();
  }

  /** A hyphenated ISBN-13 cleans to its thirteen digits and is valid. */
  lemma HyphenatedIsbn13IsValid()
    ensures Clean("978-0-06-112008-4") == "9780061120084"
    ensures IsValid("978-0-06-112008-4")
  {
    CleanIsbnHead();
    CleanIsbnTail();
    CleanAppend("978-0-06-", "112008-4");
    ExampleSplits();
  }

  /** Too short after cleaning, and empty, inputs are invalid. */
  lemma ShortInputsAreInvalid()
    ensures !IsValid("123-456") && !IsValid("")
  {
    assert Clean("123-") == "123";
    CleanKeepsCleanStrings("456");
    CleanAppend("123-", "456");
    ExampleSplits();
  }

  /** An unhyphenated ISBN-13 is neither blank nor changed by cleaning, and is valid. */
  lemma PlainIsbn13IsValid()
    ensures !IsBlank("9780061120084")
    ensures Clean("9780061120084") == "9780061120084" && IsValid("9780061120084")
  {
    var s := "9780061120084";
    assert |s| == 13 && !IsWs(s[0]);
    PlainLength(s);
  }
}
