/**
 * The query behind `GET /api/users`: the name filter a `search` string
 * selects, `ORDER BY last_name`, and the page slice `paginate` takes.
 */
module Listing {
  import opened Wrappers
  import opened Python
  import opened Ordering
  import opened Models

  // ---------------------------------------------------------------------------
  // The search string
  // ---------------------------------------------------------------------------

  /** The `filter_by` a search selects. */
  datatype NameFilter =
    | Unfiltered
    | ByFirstName(first: string)
    | ByFullName(first: string, last: string)

  /**
   * The `search` argument read as the handler does: an absent or empty string
   * selects no filter; otherwise the stripped text is split on single spaces,
   * and the first piece filters the first name and the second, when there is
   * one, the last name. Pieces after the second are never looked at.
   */
  function SearchFilter(search: Option<string>): (f: NameFilter)
    ensures f.Unfiltered? <==> search.None? || search.value == ""
    ensures f.ByFirstName? <==> search.Some? && search.value != "" && ' ' !in Strip(search.value, StrSpace)
    ensures f.ByFirstName? ==> f.first == Strip(search.value, StrSpace)
    ensures f.ByFullName? ==>
      var t := Strip(search.value, StrSpace);
      var e := |f.first| + 1 + |f.last|;
      && ' ' !in f.first && ' ' !in f.last
      && f.first + " " + f.last <= t
      && (e == |t| || t[e] == ' ')
  {
    if search.None? || search.value == "" then Unfiltered
    else
      var t := Strip(search.value, StrSpace);
      var tokens := Split(t, ' ');
      SplitSeveral(t, ' ');
      if |tokens| > 1 then
        JoinFirstTwo(tokens, ' ');
        ByFullName(tokens[0], tokens[1])
      else
        ByFirstName(tokens[0])
  }

  /**
   * Two or more space-separated words, with no whitespace at either end,
   * filter on the first two words; whatever follows the second is ignored.
   */
  lemma SearchOfWords(words: seq<string>)
    requires |words| >= 2
    requires forall i :: 0 <= i < |words| ==> ' ' !in words[i]
    requires words[0] != [] && !IsSpace(words[0][0])
    requires var last := words[|words| - 1]; last != [] && !IsSpace(last[|last| - 1])
    ensures SearchFilter(Some(Join(words, ' '))) == ByFullName(words[0], words[1])
  {
    var s := Join(words, ' ');
    JoinedWordsUnpadded(words);
    SplitJoin(words, ' ');
    assert Split(Strip(s, StrSpace), ' ') == words;
  }

  /** Words that neither start nor end with whitespace, joined, are already stripped. */
  lemma JoinedWordsUnpadded(words: seq<string>)
    requires |words| >= 1
    requires words[0] != [] && !IsSpace(words[0][0])
    requires var last := words[|words| - 1]; last != [] && !IsSpace(last[|last| - 1])
    ensures Strip(Join(words, ' '), StrSpace) == Join(words, ' ')
  {
    var s := Join(words, ' ');
    JoinEnds(words, ' ');
    assert s[0] == words[0][0];
    var last := words[|words| - 1];
    assert s[|s| - 1] == last[|last| - 1];
    StripUnpadded(s, StrSpace);
  }

  /** Text that is only whitespace strips to nothing and filters on an empty first name. */
  lemma BlankSearch(s: string)
    requires s != [] && forall i :: 0 <= i < |s| ==> IsSpace(s[i])
    ensures SearchFilter(Some(s)) == ByFirstName("")
  {
    StripAllSpace(s, StrSpace);
  }

  /** "Jane Doe" filters on both names. */
  lemma SearchTwoNames()
    ensures SearchFilter(Some("Jane Doe")) == ByFullName("Jane", "Doe")
  {
    assert Join(["Jane", "Doe"], ' ') == "Jane Doe";
    SearchOfWords(["Jane", "Doe"]);
  }

  /** A doubled space leaves an empty second token, so "Jane  Doe" asks for an empty last name. */
  lemma SearchDoubleSpace()
    ensures SearchFilter(Some("Jane  Doe")) == ByFullName("Jane", "")
  {
    assert Join(["Jane", "", "Doe"], ' ') == "Jane  Doe";
    SearchOfWords(["Jane", "", "Doe"]);
  }

  /** What `filter_by(first_name=..., last_name=...)` keeps. */
  predicate Matches(f: NameFilter, u: User) {
    match f
    case Unfiltered => true
    case ByFirstName(first) => u.firstName == Some(first)
    case ByFullName(first, last) => u.firstName == Some(first) && u.lastName == Some(last)
  }

  /** The rows a filter keeps, in storage order. */
  function Select(users: seq<User>, f: NameFilter): (r: seq<User>)
    ensures |r| <= |users|
    ensures forall u :: u in r <==> u in users && Matches(f, u)
    ensures forall u :: multiset(r)[u] == if Matches(f, u) then multiset(users)[u] else 0
  {
    if |users| == 0 then []
    else
      assert users == [users[0]] + users[1..];
      if Matches(f, users[0]) then [users[0]] + Select(users[1..], f)
      else Select(users[1..], f)
  }

  // ---------------------------------------------------------------------------
  // ORDER BY last_name
  // ---------------------------------------------------------------------------

  /** The sort key; every stored row has a last name, so the default is never used for one. */
  function SortKey(u: User): string {
    u.lastName.GetOr("")
  }

  predicate SortedByLastName(s: seq<User>) {
    forall i, j :: 0 <= i < j < |s| ==> LexLe(SortKey(s[i]), SortKey(s[j]))
  }

  /** Places `u` before the first row whose last name does not sort before it. */
  function InsertByLastName(u: User, s: seq<User>): (r: seq<User>)
    requires SortedByLastName(s)
    ensures SortedByLastName(r)
    ensures multiset(r) == multiset(s) + multiset{u}
  {
    if |s| == 0 then [u]
    else if LexLe(SortKey(u), SortKey(s[0])) then
      forall j | 0 < j < |s|
        ensures LexLe(SortKey(u), SortKey(s[j]))
      {
        LexLeTransitive(SortKey(u), SortKey(s[0]), SortKey(s[j]));
      }
      assert s == [s[0]] + s[1..];
      [u] + s
    else
      var tail := InsertByLastName(u, s[1..]);
      LexLeTotal(SortKey(u), SortKey(s[0]));
      forall x | x in tail
        ensures LexLe(SortKey(s[0]), SortKey(x))
      {
        assert x in multiset(tail);
        if x != u {
          assert x in s[1..];
        }
      }
      assert s == [s[0]] + s[1..];
      [s[0]] + tail
  }

  /**
   * `order_by('last_name')`: the same rows, ascending by last name. Rows with
   * equal last names keep their storage order.
   */
  function SortByLastName(s: seq<User>): (r: seq<User>)
    ensures SortedByLastName(r)
    ensures multiset(r) == multiset(s)
  {
    if |s| == 0 then []
    else
      assert s == [s[0]] + s[1..];
      InsertByLastName(s[0], SortByLastName(s[1..]))
  }

  /** Rows already in last-name order come back unchanged. */
  lemma {:induction false} SortKeepsSorted(s: seq<User>)
    requires SortedByLastName(s)
    ensures SortByLastName(s) == s
  {
    if |s| > 0 {
      SortKeepsSorted(s[1..]);
      assert s == [s[0]] + s[1..];
    }
  }

  // ---------------------------------------------------------------------------
  // paginate(page, per_page, error_out=False), as Flask-SQLAlchemy 2.3 to 2.5
  // implements it
  // ---------------------------------------------------------------------------

  /** The page size Flask-SQLAlchemy substitutes for a negative one. */
  const FallbackPerPage: nat := 20

  /** The page number `paginate` uses: below 1 becomes 1. */
  function EffectivePage(page: int): (p: int)
    ensures p >= 1 && (page >= 1 ==> p == page)
  {
    if page < 1 then 1 else page
  }

  /** The page size `paginate` uses: a negative one becomes 20. */
  function EffectivePerPage(perPage: int): (n: nat)
    ensures perPage >= 0 ==> n == perPage
  {
    if perPage < 0 then FallbackPerPage else perPage
  }

  /** The rows a page skips: `(p - 1) * n` for the effective page and size. */
  function Offset(page: int, perPage: int): nat {
    (EffectivePage(page) - 1) * EffectivePerPage(perPage)
  }

  /** `LIMIT n OFFSET start`: up to `n` consecutive rows from `start` on. */
  function Window<T>(items: seq<T>, start: nat, n: nat): (r: seq<T>)
    ensures start >= |items| ==> r == []
    ensures start < |items| ==> |r| == Min(n, |items| - start)
    ensures forall i :: 0 <= i < |r| ==> start + i < |items| && r[i] == items[start + i]
  {
    if start >= |items| then [] else items[start..start + Min(n, |items| - start)]
  }

  /**
   * `.paginate(page, per_page, False).items`: the window of the effective
   * page size at the effective page's offset, so a page holds at most that
   * many rows and a page that starts past the last row is empty.
   */
  function Paginate<T>(items: seq<T>, page: int, perPage: int): (r: seq<T>)
    ensures |r| <= EffectivePerPage(perPage)
    ensures Offset(page, perPage) >= |items| ==> r == []
    ensures Offset(page, perPage) < |items| ==>
      |r| == Min(EffectivePerPage(perPage), |items| - Offset(page, perPage))
    ensures forall i :: 0 <= i < |r| ==>
      Offset(page, perPage) + i < |items| && r[i] == items[Offset(page, perPage) + i]
  {
    Window(items, Offset(page, perPage), EffectivePerPage(perPage))
  }

  /** Pages `1` to `k` of size `n`, one after another. */
  function Pages<T>(items: seq<T>, n: nat, k: nat): seq<T> {
    if k == 0 then [] else Pages(items, n, k - 1) + Paginate(items, k, n)
  }

  function Min(a: int, b: int): int {
    if a <= b then a else b
  }

  /**
   * How many of `m` rows a page shows: the effective page size, or the rows
   * left after the page's offset when fewer remain, and none past the end.
   */
  function PageLength(m: nat, page: int, perPage: int): nat {
    var off := Offset(page, perPage);
    if off < m then Min(EffectivePerPage(perPage), m - off) else 0
  }

  /** Reading pages `1, 2, ..., k` in turn yields the first `k * n` rows, no row twice and none skipped. */
  lemma {:induction false} PagesCover<T>(items: seq<T>, n: nat, k: nat)
    requires n > 0
    ensures Pages(items, n, k) == items[..Min(k * n, |items|)]
  {
    if k > 0 {
      PagesCover(items, n, k - 1);
      var lo := (k - 1) * n;
      NextPageStart(k, n);
      WindowExtends(items, lo, n);
    }
  }

  /** Page `k` starts at `(k - 1) * n` and ends where page `k + 1` starts. */
  lemma NextPageStart(k: nat, n: nat)
    requires k > 0
    ensures Offset(k, n) == (k - 1) * n && (k - 1) * n + n == k * n
  {
  }

  /** The rows before `start` followed by the window at `start` are the rows before its end. */
  lemma WindowExtends<T>(items: seq<T>, start: nat, n: nat)
    ensures items[..Min(start, |items|)] + Window(items, start, n) == items[..Min(start + n, |items|)]
  {
    if start < |items| {
      assert items[..start] + items[start..start + Min(n, |items| - start)] == items[..Min(start + n, |items|)];
    }
  }

  /** Every row appears on the page its position puts it on. */
  lemma RowOnItsPage<T>(items: seq<T>, n: nat, i: nat) returns (k: int, j: int)
    requires n > 0 && i < |items|
    ensures k == i / n + 1 && j == i % n
    ensures k >= 1 && 0 <= j < |Paginate(items, k, n)| && Paginate(items, k, n)[j] == items[i]
  {
    k := i / n + 1;
    j := i % n;
    assert Offset(k, n) == (k - 1) * n;
    assert (k - 1) * n + j == i;
    assert (k - 1) * n <= i < |items|;
    var page := Paginate(items, k, n);
    assert j < |page|;
  }

  /**
   * The rows one listing request returns: the filter, then the last-name
   * order, then the page. Every row is a stored row the filter keeps, the rows
   * are in last-name order, and the page is full unless it reaches the end of
   * the matching rows: it holds the effective page size of rows, or those left
   * after the offset when fewer remain, or none once the offset reaches the end.
   */
  function ListedUsers(users: seq<User>, f: NameFilter, page: int, perPage: int): (r: seq<User>)
    ensures |r| == PageLength(|Select(users, f)|, page, perPage)
    ensures forall i :: 0 <= i < |r| ==> r[i] in users && Matches(f, r[i])
    ensures SortedByLastName(r)
  {
    var selected := Select(users, f);
    SortedPage(selected, page, perPage);
    Paginate(SortByLastName(selected), page, perPage)
  }

  /**
   * A page of the sorted rows holds only rows of the input, and as many as a
   * page of the unsorted rows would.
   */
  lemma SortedPage(selected: seq<User>, page: int, perPage: int)
    ensures var r := Paginate(SortByLastName(selected), page, perPage);
      && |r| == PageLength(|selected|, page, perPage)
      && forall u :: u in r ==> u in selected
  {
    var sorted := SortByLastName(selected);
    var r := Paginate(sorted, page, perPage);
    assert |sorted| == |selected| by {
      assert |multiset(sorted)| == |multiset(selected)|;
    }
    forall u | u in r
      ensures u in selected
    {
      var i :| 0 <= i < |r| && r[i] == u;
      assert r[i] == sorted[Offset(page, perPage) + i];
      assert u in multiset(sorted);
    }
  }

  /**
   * No matching row is lost to paging: every stored row the filter keeps is
   * listed on some page, whatever the page size.
   */
  lemma MatchingRowListed(users: seq<User>, f: NameFilter, n: nat, u: User)
    requires n > 0 && u in users && Matches(f, u)
    ensures exists k :: k >= 1 && u in ListedUsers(users, f, k, n)
  {
    var selected := Select(users, f);
    var sorted := SortByLastName(selected);
    assert u in multiset(selected);
    assert u in sorted by {
      assert u in multiset(sorted);
    }
    var k := RowOnSomePage(sorted, n, u);
    assert ListedUsers(users, f, k, n) == Paginate(sorted, k, n);
  }

  /** Every row lies on some page: page `i / n + 1` for the row at position `i`. */
  lemma RowOnSomePage<T>(items: seq<T>, n: nat, x: T) returns (k: int)
    requires n > 0 && x in items
    ensures k >= 1 && x in Paginate(items, k, n)
  {
    var i :| 0 <= i < |items| && items[i] == x;
    var j;
    k, j := RowOnItsPage(items, n, i);
  }
}
