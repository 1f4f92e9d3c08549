/** The derived data of the reading-list view (components/ReadingList.tsx):
    the genres offered as filters, the number of bookmarked books, the books
    the active filter lets through, and which filter button is active. */
module ReadingList {
  import opened Types
  import opened StringOrder

  datatype FilterType = All | GenreFilter | BookmarkedFilter

  /** `{ type, value? }`: the value names a genre for a genre filter. */
  datatype ActiveFilter = ActiveFilter(kind: FilterType, value: Option<string>)

  /** The filter the view starts with. */
  const AllBooks: ActiveFilter := ActiveFilter(All, None)
  const BookmarkedOnly: ActiveFilter := ActiveFilter(BookmarkedFilter, None)

  // ---------------------------------------------------------------------
  // Selecting entries

  /** `r` is `s` with some entries left out, the rest in their order. */
  ghost predicate IsSubsequence<T>(r: seq<T>, s: seq<T>)
    decreases |s|
  {
    r == [] || (s != [] && ((r[0] == s[0] && IsSubsequence(r[1..], s[1..])) || IsSubsequence(r, s[1..])))
  }

  lemma {:induction false} SubsequenceNoLonger<T>(r: seq<T>, s: seq<T>)
    requires IsSubsequence(r, s)
    ensures |r| <= |s|
    decreases |s|
  {
    if r != [] {
      if r[0] == s[0] && IsSubsequence(r[1..], s[1..]) {
        SubsequenceNoLonger(r[1..], s[1..]);
      } else {
        SubsequenceNoLonger(r, s[1..]);
      }
    }
  }

  /** `books.filter(keep)`: the entries `keep` accepts, in their order, each
      as often as it occurs. */
  function Select(books: seq<RecommendationResponse>, keep: RecommendationResponse -> bool): (r: seq<RecommendationResponse>)
    ensures IsSubsequence(r, books)
    ensures forall x :: x in r ==> keep(x)
    ensures forall x :: multiset(r)[x] == if keep(x) then multiset(books)[x] else 0
  {
    if books == [] then []
    else
      var rest := Select(books[1..], keep);
      assert books == [books[0]] + books[1..];
      if keep(books[0]) then [books[0]] + rest else rest
  }

  /** Two tests that agree on every entry select the same entries. */
  lemma {:induction false} SelectAgrees(books: seq<RecommendationResponse>, p: RecommendationResponse -> bool,
                                        q: RecommendationResponse -> bool)
    requires forall x :: x in books ==> p(x) == q(x)
    ensures Select(books, p) == Select(books, q)
  {
    if books != [] {
      SelectAgrees(books[1..], p, q);
    }
  }

  // ---------------------------------------------------------------------
  // The active filter

  /** The `switch` on the filter's type. A genre filter compares the genre
      with its value; without a value nothing matches. */
  predicate Matches(f: ActiveFilter, rec: RecommendationResponse): (r: bool)
    ensures f.kind == All ==> r
    ensures f.kind == BookmarkedFilter ==> (r <==> rec.isBookmarked == Some(true))
    ensures f.kind == GenreFilter ==> (r <==> f.value.Some? && f.value.value == rec.details.genre)
  {
    match f.kind
    case GenreFilter => f.value == Some(rec.details.genre)
    case BookmarkedFilter => rec.Bookmarked()
    case All => true
  }

  function FilteredBooks(books: seq<RecommendationResponse>, f: ActiveFilter): (r: seq<RecommendationResponse>)
    ensures IsSubsequence(r, books) && |r| <= |books|
  {
    var r := Select(books, rec => Matches(f, rec));
    SubsequenceNoLonger(r, books);
    r
  }

  /** "All" shows the list unchanged. */
  lemma {:induction false} AllFilterShowsEverything(books: seq<RecommendationResponse>)
    ensures FilteredBooks(books, AllBooks) == books
  {
    if books != [] {
      AllFilterShowsEverything(books[1..]);
    }
  }

  /** "Bookmarked" shows exactly the bookmarked entries, in list order. */
  lemma BookmarkedFilterSelects(books: seq<RecommendationResponse>)
    ensures var r := FilteredBooks(books, BookmarkedOnly);
            IsSubsequence(r, books)
            && forall x :: multiset(r)[x] == if x.Bookmarked() then multiset(books)[x] else 0
  {
  }

  /** A genre filter shows exactly the entries of that genre, in list order. */
  lemma GenreFilterSelects(books: seq<RecommendationResponse>, genre: string)
    ensures var r := FilteredBooks(books, ActiveFilter(GenreFilter, Some(genre)));
            IsSubsequence(r, books)
            && forall x :: multiset(r)[x] == if x.details.genre == genre then multiset(books)[x] else 0
  {
  }

  // ---------------------------------------------------------------------
  // Counts and genres

  /** `books.filter(b => b.isBookmarked).length`, which is the number of
      books the "Bookmarked" filter shows. */
  function BookmarkedCount(books: seq<RecommendationResponse>): (r: nat)
    ensures r <= |books|
    ensures r == |FilteredBooks(books, BookmarkedOnly)|
  {
    var bookmarked := Select(books, (b: RecommendationResponse) => b.Bookmarked());
    SelectAgrees(books, (b: RecommendationResponse) => b.Bookmarked(), rec => Matches(BookmarkedOnly, rec));
    assert bookmarked == FilteredBooks(books, BookmarkedOnly);
    |bookmarked|
  }

  function GenresOf(books: seq<RecommendationResponse>): (r: seq<string>)
    ensures |r| == |books|
    ensures forall i :: 0 <= i < |books| ==> r[i] == books[i].details.genre
  {
    seq(|books|, i requires 0 <= i < |books| => books[i].details.genre)
  }

  /** No string occurs twice. */
  ghost predicate NoDuplicates(s: seq<string>) {
    forall x :: multiset(s)[x] <= 1
  }

  /** `new Set(xs)` read back as a list: each string once, at its first
      occurrence. */
  function Distinct(xs: seq<string>): (r: seq<string>)
    ensures NoDuplicates(r)
    ensures forall x :: x in r <==> x in xs
  {
    if xs == [] then []
    else
      var init := xs[..|xs| - 1];
      var last := xs[|xs| - 1];
      assert xs == init + [last];
      var d := Distinct(init);
      if last in d then d
      else
        assert multiset(d)[last] == 0;
        d + [last]
  }

  lemma DistinctPositions(s: seq<string>)
    requires NoDuplicates(s)
    ensures forall i, j :: 0 <= i < j < |s| ==> s[i] != s[j]
  {
    forall i, j | 0 <= i < j < |s|
      ensures s[i] != s[j]
    {
      assert s == s[..j] + s[j..];
      assert s[..j][i] == s[i];
      assert s[j..][0] == s[j];
      assert multiset(s)[s[j]] == multiset(s[..j])[s[j]] + multiset(s[j..])[s[j]];
    }
  }

  /** The genre filters offered: every genre of the list once, in ascending
      order, and nothing else. */
  function Genres(books: seq<RecommendationResponse>): (r: seq<string>)
    ensures forall i, j :: 0 <= i < j < |r| ==> Below(r[i], r[j]) && r[i] != r[j]
    ensures forall g :: g in r <==> exists rec :: rec in books && rec.details.genre == g
  {
    var d := Distinct(GenresOf(books));
    var r := Sort(d);
    assert NoDuplicates(r);
    DistinctPositions(r);
    GenresOfMembers(books);
    forall g ensures g in r <==> g in d {
      assert g in r <==> g in multiset(r);
      assert g in d <==> g in multiset(d);
    }
    r
  }

  lemma GenresOfMembers(books: seq<RecommendationResponse>)
    ensures forall g :: g in GenresOf(books) <==> exists rec :: rec in books && rec.details.genre == g
  {
    var genres := GenresOf(books);
    forall g | g in genres ensures exists rec :: rec in books && rec.details.genre == g {
      var i :| 0 <= i < |genres| && genres[i] == g;
      assert books[i] in books;
    }
    forall rec | rec in books ensures rec.details.genre in genres {
      var i :| 0 <= i < |books| && books[i] == rec;
      assert genres[i] == rec.details.genre;
    }
  }

  // ---------------------------------------------------------------------
  // Filter buttons

  /** A button is highlighted when its filter has the active filter's type
      and value. */
  function IsActive(active: ActiveFilter, button: ActiveFilter): (r: bool)
    ensures r <==> active == button
  {
    active.kind == button.kind && active.value == button.value
  }
}
