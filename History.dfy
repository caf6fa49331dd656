/**
 * The recent-search history of the search page: a most-recently-used list of
 * cleaned identifiers, newest first, without repeats and at most five long.
 */
module History {

  /** How many recent searches the page keeps. */
  const MaxEntries: nat := 5

  /** No identifier occurs twice. */
  predicate NoDuplicates(h: seq<string>)
  {
    forall i, j :: 0 <= i < j < |h| ==> h[i] != h[j]
  }

  /** The `prev.filter(h => h !== cleanedIsbn)` step: every copy of `id` dropped. */
  function Without(prev: seq<string>, id: string): (r: seq<string>)
    ensures |r| <= |prev|
    ensures forall x :: x in r <==> x in prev && x != id
  {
    if prev == [] then []
    else if prev[0] == id then Without(prev[1..], id)
    else [prev[0]] + Without(prev[1..], id)
  }

  /** Dropping copies of `id` keeps the other entries in their relative order. */
  lemma {:induction false} WithoutAppend(a: seq<string>, b: seq<string>, id: string)
    ensures Without(a + b, id) == Without(a, id) + Without(b, id)
  {
    if a == [] {
      assert a + b == b;
    } else {
      assert (a + b)[0] == a[0];
      assert (a + b)[1..] == a[1..] + b;
      WithoutAppend(a[1..], b, id);
    }
  }

  /** A list without `id` is left as it is. */
  lemma {:induction false} WithoutAbsent(prev: seq<string>, id: string)
    requires id !in prev
    ensures Without(prev, id) == prev
  {
    if prev != [] {
      WithoutAbsent(prev[1..], id);
    }
  }

  /** Dropping entries from a list without repeats leaves a list without repeats. */
  lemma {:induction false} WithoutNoDuplicates(prev: seq<string>, id: string)
    requires NoDuplicates(prev)
    ensures NoDuplicates(Without(prev, id))
  {
    if prev != [] {
      assert NoDuplicates(prev[1..]) by {
        forall i, j | 0 <= i < j < |prev| - 1
          ensures prev[1..][i] != prev[1..][j]
        {
          assert prev[i + 1] != prev[j + 1];
        }
      }
      WithoutNoDuplicates(prev[1..], id);
      if prev[0] != id {
        var rest := Without(prev[1..], id);
        assert prev[0] !in rest by {
          assert forall k :: 1 <= k < |prev| ==> prev[k] != prev[0];
        }
      }
    }
  }

  /**
   * The history update of a successful search: `id` in front, its earlier
   * copies removed, and the list cut to `MaxEntries`.
   */
  function Push(prev: seq<string>, id: string): (r: seq<string>)
    ensures 1 <= |r| <= MaxEntries && r[0] == id
    ensures forall i :: 1 <= i < |r| ==> r[i] != id
    ensures forall x :: x in r ==> x == id || x in prev
    ensures |r| == if |Without(prev, id)| < MaxEntries then |Without(prev, id)| + 1 else MaxEntries
    ensures r[1..] == Without(prev, id)[..|r| - 1]
  {
    var rest := Without(prev, id);
    var moved := [id] + rest;
    assert forall i :: 1 <= i < |moved| ==> moved[i] == rest[i - 1] && rest[i - 1] in rest;
    if |moved| <= MaxEntries then moved else moved[..MaxEntries]
  }

  /** The update never introduces a repeat. */
  lemma PushNoDuplicates(prev: seq<string>, id: string)
    requires NoDuplicates(prev)
    ensures NoDuplicates(Push(prev, id))
  {
    WithoutNoDuplicates(prev, id);
    var r := Push(prev, id);
    var rest := Without(prev, id);
    forall i, j | 0 <= i < j < |r|
      ensures r[i] != r[j]
    {
      if i > 0 {
        assert r[i] == rest[i - 1] && r[j] == rest[j - 1];
      }
    }
  }

  /** A well-formed history: within the size bound and without repeats. */
  predicate WellFormed(h: seq<string>)
  {
    |h| <= MaxEntries && NoDuplicates(h)
  }

  /** The update keeps a history well-formed. */
  lemma PushWellFormed(prev: seq<string>, id: string)
    requires WellFormed(prev)
    ensures WellFormed(Push(prev, id))
  {
    PushNoDuplicates(prev, id);
  }

  /** Searching again for the newest entry leaves a well-formed history unchanged. */
  lemma PushHeadUnchanged(prev: seq<string>)
    requires WellFormed(prev) && prev != []
    ensures Push(prev, prev[0]) == prev
  {
    var id := prev[0];
    assert prev == [id] + prev[1..];
    assert id !in prev[1..] by {
      assert forall k :: 1 <= k < |prev| ==> prev[k] != prev[0];
    }
    WithoutAppend([id], prev[1..], id);
    WithoutAbsent(prev[1..], id);
  }

  /** The history after a run of successful searches from an empty one. */
  function AfterSearches(ids: seq<string>): (h: seq<string>)
    ensures |h| <= MaxEntries && (ids != [] ==> h != [])
  {
    if ids == [] then [] else Push(AfterSearches(ids[..|ids| - 1]), ids[|ids| - 1])
  }

  /**
   * After searching distinct identifiers in turn, the history holds the last
   * `MaxEntries` of them, the most recent first.
   */
  lemma {:induction false} DistinctSearchesKeepMostRecent(ids: seq<string>)
    requires NoDuplicates(ids)
    ensures var h := AfterSearches(ids);
      && |h| == (if |ids| < MaxEntries then |ids| else MaxEntries)
      && forall i :: 0 <= i < |h| ==> h[i] == ids[|ids| - 1 - i]
  {
    if ids != [] {
      var front := ids[..|ids| - 1];
      var id := ids[|ids| - 1];
      assert NoDuplicates(front) by {
        forall i, j | 0 <= i < j < |front|
          ensures front[i] != front[j]
        {
          assert front[i] == ids[i] && front[j] == ids[j];
        }
      }
      DistinctSearchesKeepMostRecent(front);
      var prev := AfterSearches(front);
      assert id !in prev by {
        forall i | 0 <= i < |prev|
          ensures prev[i] != id
        {
          assert prev[i] == ids[|front| - 1 - i];
        }
      }
      WithoutAbsent(prev, id);
      var h := AfterSearches(ids);
      forall i | 0 <= i < |h|
        ensures h[i] == ids[|ids| - 1 - i]
      {
        if i > 0 {
          assert h[i] == prev[i - 1];
        }
      }
    }
  }

  /** Six distinct searches leave exactly the five most recent, newest first. */
  lemma SixSearchesKeepFive(a: string, b: string, c: string, d: string, e: string, f: string)
    requires NoDuplicates([a, b, c, d, e, f])
    ensures AfterSearches([a, b, c, d, e, f]) == [f, e, d, c, b]
  {
    DistinctSearchesKeepMostRecent([a, b, c, d, e, f]);
  }

  /** Searching the same identifier twice leaves it in front exactly once. */
  lemma RepeatedSearchAppearsOnce(prev: seq<string>, id: string)
    ensures var h := Push(Push(prev, id), id);
      && h[0] == id
      && forall i :: 0 <= i < |h| && h[i] == id ==> i == 0
  {
  }
}
