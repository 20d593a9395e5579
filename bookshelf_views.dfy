/** The security views of the bookshelf app: the role predicates, the
    validation branches of `secure_book_create`, `add_comment`,
    `api_book_search` and `secure_search`. Rendering, messages, logging and
    the ORM are left out; the catalogue is a sequence of books in store
    order and "today" is a parameter. */
module BookshelfViews {
  import opened Wrappers
  import opened Text
  import opened Ordering
  import opened PyInt
  import opened Sanitize
  import opened BookForms
  import opened Profiles

  // ---------------------------------------------------------------- roles

  /** `user.is_authenticated and hasattr(user, 'userprofile') and role == ...` */
  predicate IsAuthenticatedWithRole(u: SiteUser, role: string) {
    u.SignedIn? && ProfileRoleIs(u, role)
  }

  predicate IsAdmin(u: SiteUser) { IsAuthenticatedWithRole(u, "Admin") }

  predicate IsLibrarian(u: SiteUser) { IsAuthenticatedWithRole(u, "Librarian") }

  predicate IsMember(u: SiteUser) { IsAuthenticatedWithRole(u, "Member") }

  /** Each predicate holds exactly for a signed-in user whose profile role is
      that exact string, so at most one of the three holds for any user. */
  lemma RolesExclusive(u: SiteUser)
    ensures IsAdmin(u) <==> u.SignedIn? && u.profile == Some(UserProfile("Admin"))
    ensures IsLibrarian(u) <==> u.SignedIn? && u.profile == Some(UserProfile("Librarian"))
    ensures IsMember(u) <==> u.SignedIn? && u.profile == Some(UserProfile("Member"))
    ensures !(IsAdmin(u) && IsLibrarian(u)) && !(IsAdmin(u) && IsMember(u)) && !(IsLibrarian(u) && IsMember(u))
    ensures u.AnonymousUser? || u.profile.None? ==> !IsAdmin(u) && !IsLibrarian(u) && !IsMember(u)
  {
  }

  /** The comparison is case-sensitive. */
  lemma RolesCaseSensitive()
    ensures !IsAdmin(SignedIn(Some(UserProfile("admin"))))
    ensures !IsLibrarian(SignedIn(Some(UserProfile("LIBRARIAN"))))
    ensures !IsMember(SignedIn(Some(UserProfile("member "))))
  {
  }

  // ---------------------------------------------------------------- books

  /** A catalogue row, with the fields `BookForm` exposes plus its key. */
  datatype Book = Book(id: nat, title: string, author: string, publishedDate: Option<Date>,
                       isbn: string, description: string)

  /** The cleaned data of a bound `BookForm`. */
  datatype BookSubmission = BookSubmission(title: string, author: string, publishedDate: Option<Date>,
                                           isbn: string, description: string)

  /** `re.match(r'^\d{10}(\d{3})?$', isbn)` read as written: ten digits,
      then optionally three more, then the end. */
  predicate MatchesIsbnPattern(isbn: string) {
    && |isbn| >= 10
    && AllDigits(isbn[..10])
    && (isbn[10..] == [] || (|isbn[10..]| == 3 && AllDigits(isbn[10..])))
  }

  /** The pattern accepts exactly the strings of 10 or 13 digits. */
  lemma IsbnPatternIsTenOrThirteenDigits(isbn: string)
    ensures MatchesIsbnPattern(isbn) <==> (|isbn| == 10 || |isbn| == 13) && AllDigits(isbn)
  {
    if (|isbn| == 10 || |isbn| == 13) && AllDigits(isbn) {
      assert AllDigits(isbn[..10]);
    }
    if MatchesIsbnPattern(isbn) {
      forall i | 0 <= i < |isbn| ensures IsDigit(isbn[i]) {
        if i >= 10 {
          assert isbn[i] == isbn[10..][i - 10];
        } else {
          assert isbn[i] == isbn[..10][i];
        }
      }
    }
  }

  const IsbnDigitsMessage := "ISBN must be 10 or 13 digits"
  const FutureDateMessage := "Publication date cannot be in the future"

  datatype FieldError = FieldError(field: string, message: string)

  datatype CreateOutcome =
    | PermissionDenied                       // no `bookshelf.can_create`
    | EmptyForm                              // not a POST: render a blank form
    | FormInvalid(errors: seq<FieldError>)   // `form.is_valid()` failed
    | Rejected(errors: seq<FieldError>)      // the view's own checks added errors
    | Saved(book: BookSubmission)

  /** True when the submitted date is after `today`; a missing date passes. */
  predicate InFuture(d: Option<Date>, today: Date) {
    d.Some? && DateBefore(today, d.value)
  }

  /** `clean_isbn` runs only when the `isbn` field itself cleaned. */
  predicate IsbnHookRuns(fieldErrors: seq<FieldError>) {
    forall i :: 0 <= i < |fieldErrors| ==> fieldErrors[i].field != "isbn"
  }

  /** `secure_book_create`: the permission check, `form.is_valid()` (the
      fields' own validation, given as `fieldErrors`, then `clean_isbn`),
      then the view's own checks, each adding a field error, and a save only
      when no error was added. */
  method SecureBookCreate(canCreate: bool, isPost: bool, form: BookSubmission, fieldErrors: seq<FieldError>,
                          today: Date)
    returns (r: CreateOutcome)
    ensures r == PermissionDenied <==> !canCreate
    ensures r == EmptyForm <==> canCreate && !isPost
    ensures r.FormInvalid? <==> canCreate && isPost && (fieldErrors != [] || |form.isbn| !in {10, 13})
    ensures r.FormInvalid? ==>
              && |fieldErrors| <= |r.errors| <= |fieldErrors| + 1
              && r.errors[..|fieldErrors|] == fieldErrors
              && (FieldError("isbn", IsbnLengthMessage) in r.errors[|fieldErrors|..] <==>
                    IsbnHookRuns(fieldErrors) && |form.isbn| !in {10, 13})
    ensures r.Saved? <==> canCreate && isPost && fieldErrors == [] && (|form.isbn| == 10 || |form.isbn| == 13)
                          && AllDigits(form.isbn) && !InFuture(form.publishedDate, today)
    ensures r.Saved? ==> r.book == form
    ensures r.Rejected? <==> canCreate && isPost && fieldErrors == [] && (|form.isbn| == 10 || |form.isbn| == 13)
                             && (!AllDigits(form.isbn) || InFuture(form.publishedDate, today))
    ensures r.Rejected? ==> 1 <= |r.errors| <= 2
    ensures r.Rejected? ==> (FieldError("isbn", IsbnDigitsMessage) in r.errors <==> !AllDigits(form.isbn))
    ensures r.Rejected? ==> (FieldError("published_date", FutureDateMessage) in r.errors
                             <==> InFuture(form.publishedDate, today))
  {
    if !canCreate {
      return PermissionDenied;
    }
    if !isPost {
      return EmptyForm;
    }
    var cleaned := CleanIsbn(form.isbn);
    if fieldErrors != [] || cleaned.Failure? {
      var hookErrors := if IsbnHookRuns(fieldErrors) && cleaned.Failure? then [FieldError("isbn", cleaned.error)] else [];
      return FormInvalid(fieldErrors + hookErrors);
    }
    var isbn := cleaned.value;
    IsbnPatternIsTenOrThirteenDigits(isbn);
    var errors: seq<FieldError> := [];
    if !MatchesIsbnPattern(isbn) {
      errors := errors + [FieldError("isbn", IsbnDigitsMessage)];
    }
    if form.publishedDate.Some? && DateBefore(today, form.publishedDate.value) {
      errors := errors + [FieldError("published_date", FutureDateMessage)];
    }
    if errors == [] {
      r := Saved(form);
    } else {
      r := Rejected(errors);
    }
  }

  // ---------------------------------------------------------------- comments

  datatype CommentOutcome = CommentTooShort | CommentTooLong | CommentAccepted

  /** The flash message each outcome shows before redirecting to `form_example`. */
  function CommentMessage(o: CommentOutcome): string {
    match o
    case CommentTooShort => "Comment must be at least 5 characters long."
    case CommentTooLong => "Comment cannot exceed 500 characters."
    case CommentAccepted => "Comment submitted securely!"
  }

  /** `add_comment` on a POST: the length bounds apply to the sanitised text. */
  function AddComment(comment: Option<string>): (r: CommentOutcome)
    ensures r == CommentTooShort <==> |Sanitized(comment)| < 5
    ensures r == CommentTooLong <==> |Sanitized(comment)| > 500
    ensures r == CommentAccepted <==> 5 <= |Sanitized(comment)| <= 500
  {
    var text := Sanitized(comment);
    if |text| < 5 then CommentTooShort
    else if |text| > 500 then CommentTooLong
    else CommentAccepted
  }

  /** A text none of whose characters can start a keyword match is left
      alone by every keyword deletion. */
  lemma {:induction false} RemoveAllNoStart(s: string, kw: string)
    requires kw != []
    requires forall c :: c in s ==> !SameIgnoringCase(c, kw[0])
    ensures RemoveAll(s, kw) == s
    decreases |s|
  {
    if |s| >= |kw| {
      assert !SameIgnoringCase(s[0], kw[0]);
      RemoveAllNoStart(s[1..], kw);
      assert s == [s[0]] + s[1..];
    }
  }

  lemma {:induction false} RemoveKeywordsNoStart(s: string, kws: seq<string>)
    requires NonEmptyAll(kws)
    requires forall i, c :: 0 <= i < |kws| && c in s ==> !SameIgnoringCase(c, kws[i][0])
    ensures RemoveKeywords(s, kws) == s
    decreases |kws|
  {
    if kws != [] {
      RemoveKeywordsNoStart(s, kws[..|kws| - 1]);
      RemoveAllNoStart(s, kws[|kws| - 1]);
    }
  }

  /** Length is measured after escaping: the two-character comment `<<`
      becomes `&lt;&lt;` and is accepted. */
  lemma EscapedCommentAccepted()
    ensures AddComment(Some("<<")) == CommentAccepted
  {
    var e := Escape("<<");
    assert e == "&lt;&lt;";
    SqlKeywordsNonEmpty();
    forall i, c | 0 <= i < |SqlKeywords| && c in e
      ensures !SameIgnoringCase(c, SqlKeywords[i][0])
    {
    }
    RemoveKeywordsNoStart(e, SqlKeywords);
    StripUnchanged(e);
  }

  /** A missing comment is sanitised to "" and is too short. */
  lemma MissingCommentTooShort()
    ensures AddComment(None) == CommentTooShort
    ensures AddComment(Some("")) == CommentTooShort
  {
  }

  // ---------------------------------------------------------------- JSON search

  datatype BookSummary = BookSummary(id: nat, title: string, author: string)

  function Summary(b: Book): BookSummary {
    BookSummary(b.id, b.title, b.author)
  }

  const TermTooShortMessage := "Search term must be at least 2 characters"
  const TermTooLongMessage := "Search term too long"

  /** What `api_book_search` answers: the 405 of `require_http_methods`
      (not JSON), a JSON error with its status, or the JSON results. */
  datatype ApiResponse =
    | MethodNotAllowed
    | JsonError(status: nat, error: string)
    | JsonResults(results: seq<BookSummary>)

  /** `request.GET.get('q', '')`. */
  function TermOf(q: Option<string>): string {
    if q.Some? then q.value else ""
  }

  /** The books whose title contains `term`, case-insensitively, in store order. */
  function TitleMatches(books: seq<Book>, term: string): (r: seq<Book>)
    ensures forall b :: b in r <==> b in books && ContainsIgnoringCase(b.title, term)
  {
    Filter(books, (b: Book) => ContainsIgnoringCase(b.title, term))
  }

  function Min(a: int, b: int): int {
    if a <= b then a else b
  }

  /** `api_book_search`: any method but GET is refused before the view
      runs; then the short-term check (on the stripped term) comes before
      the long-term check (on the raw term); otherwise at most ten matches
      on the raw term, projected to id, title and author. */
  function ApiBookSearch(isGet: bool, q: Option<string>, books: seq<Book>): (r: ApiResponse)
    ensures r == MethodNotAllowed <==> !isGet
    ensures r == JsonError(400, TermTooShortMessage) <==> isGet && |Strip(TermOf(q))| < 2
    ensures r == JsonError(400, TermTooLongMessage) <==> isGet && |Strip(TermOf(q))| >= 2 && |TermOf(q)| > 100
    ensures r.JsonResults? <==> isGet && 2 <= |Strip(TermOf(q))| && |TermOf(q)| <= 100
    ensures r.JsonResults? ==> |r.results| == Min(10, |TitleMatches(books, TermOf(q))|)
    ensures r.JsonResults? ==> forall i :: 0 <= i < |r.results| ==>
              r.results[i] == Summary(TitleMatches(books, TermOf(q))[i])
              && ContainsIgnoringCase(r.results[i].title, TermOf(q))
  {
    var term := TermOf(q);
    if !isGet then MethodNotAllowed
    else if term == "" || |Strip(term)| < 2 then JsonError(400, TermTooShortMessage)
    else if |term| > 100 then JsonError(400, TermTooLongMessage)
    else
      var matches := TitleMatches(books, term);
      var n := Min(10, |matches|);
      JsonResults(seq(n, i requires 0 <= i < n => Summary(matches[i])))
  }

  /** An over-long term of spaces gets the short-term error, not the long one. */
  lemma BlankTermIsTooShort(q: string, books: seq<Book>)
    requires |q| > 100 && forall i :: 0 <= i < |q| ==> q[i] == ' '
    ensures ApiBookSearch(true, Some(q), books) == JsonError(400, TermTooShortMessage)
  {
    assert LeadingSpace(q) == |q|;
  }

  // ---------------------------------------------------------------- search form

  /** `int(year) if year else None`, a `ValueError` giving `None`, and then
      `if year_int:` which also drops 0. */
  function YearFilter(year: Option<string>): (r: Option<int>)
    ensures r.Some? ==> r.value != 0
  {
    if year.None? || year.value == "" then None
    else match ParseInt(year.value)
      case None => None
      case Some(n) => if n == 0 then None else Some(n)
  }

  /** A year written as an integer other than 0 becomes the filter; 0,
      any text that is not an integer once stripped, a missing year and ""
      mean "no year filter". */
  lemma YearFilterCases(n: int, s: string)
    ensures n != 0 ==> YearFilter(Some(ShowInt(n))) == Some(n)
    ensures YearFilter(Some(ShowInt(0))) == None
    ensures !IntegerText(Strip(s)) ==> YearFilter(Some(s)) == None
    ensures YearFilter(None) == None && YearFilter(Some("")) == None
  {
    ParseShowInt(n);
    ParseShowInt(0);
    ParseIntAcceptsIntegerText(s);
  }

  /** `published_date__year__gte=year`; a book without a date never matches. */
  predicate PublishedFrom(b: Book, year: int) {
    b.publishedDate.Some? && b.publishedDate.value.year >= year
  }

  /** `title__icontains=title`, applied only when the sanitised title is not empty. */
  predicate TitleOk(b: Book, title: string) {
    title != "" ==> ContainsIgnoringCase(b.title, title)
  }

  /** `author__icontains=author`, applied only when the sanitised author is not empty. */
  predicate AuthorOk(b: Book, author: string) {
    author != "" ==> ContainsIgnoringCase(b.author, author)
  }

  /** `published_date__year__gte=year`, applied only when there is a year filter. */
  predicate YearOk(b: Book, year: Option<int>) {
    year.Some? ==> PublishedFrom(b, year.value)
  }

  /** A book passes the search form when it passes every filter that is on. */
  predicate SearchMatch(b: Book, title: string, author: string, year: Option<int>) {
    TitleOk(b, title) && AuthorOk(b, author) && YearOk(b, year)
  }

  /** The catalogue rows that pass the search form, in store order. */
  function SearchMatches(books: seq<Book>, title: string, author: string, year: Option<int>): (r: seq<Book>)
    ensures forall b :: b in r <==> b in books && SearchMatch(b, title, author, year)
    ensures forall b :: multiset(r)[b] == if SearchMatch(b, title, author, year) then multiset(books)[b] else 0
  {
    Filter(books, (b: Book) => SearchMatch(b, title, author, year))
  }

  /** `order_by('title')`. */
  predicate TitleLe(a: Book, b: Book) {
    StrLe(a.title, b.title)
  }

  lemma TitleOrderIsTotalPreorder()
    ensures TotalPreorder(TitleLe)
  {
    forall a: Book, b: Book ensures TitleLe(a, b) || TitleLe(b, a) {
      StrLeTotal(a.title, b.title);
    }
    forall a: Book, b: Book, c: Book | TitleLe(a, b) && TitleLe(b, c) ensures TitleLe(a, c) {
      StrLeTransitive(a.title, b.title, c.title);
    }
  }

  /** The rendered search page, or the server error Django raises when the
      year bound is not a valid `datetime.date` year. */
  datatype SearchPage = SearchPage(results: seq<Book>, searchPerformed: bool) | ServerError

  /** `datetime.MINYEAR` and `datetime.MAXYEAR`. */
  const MinYear := 1
  const MaxYear := 9999

  /** `published_date__year__gte=year` builds `date(year, 1, 1)` as its
      bound, which raises for a year outside `MinYear..MaxYear`. */
  predicate YearOutOfRange(year: Option<int>) {
    year.Some? && !(MinYear <= year.value <= MaxYear)
  }

  /** Ordering the narrowed query by title and keeping the first 50 rows
      gives a sorted selection of the matching rows with the smallest
      titles, all of them when there are at most 50. */
  lemma FirstByTitle(books: seq<Book>, query: seq<Book>, title: string, author: string, year: Option<int>)
    requires multiset(query) == multiset(SearchMatches(books, title, author, year))
    ensures var page := SortBy(query, TitleLe)[..Min(50, |query|)];
            var matching := SearchMatches(books, title, author, year);
            && |page| == Min(50, |matching|)
            && SortedBy(page, TitleLe)
            && multiset(page) <= multiset(matching)
            && (|matching| <= 50 ==> multiset(page) == multiset(matching))
            && (forall b :: b in page ==> b in books && SearchMatch(b, title, author, year))
            && forall b, c :: b in page && c in multiset(matching) - multiset(page) ==> TitleLe(b, c)
  {
    var matching := SearchMatches(books, title, author, year);
    var n := Min(50, |query|);
    assert |matching| == |query| by {
      assert |multiset(matching)| == |multiset(query)|;
    }
    TitleOrderIsTotalPreorder();
    TakeSorted(query, n, TitleLe);
    TakeSmallest(query, n, TitleLe);
    var page := SortBy(query, TitleLe)[..n];
    forall b | b in page
      ensures b in books && SearchMatch(b, title, author, year)
    {
      assert b in multiset(page);
      assert b in multiset(matching);
    }
  }

  /** Narrowing by title, then author, then year keeps exactly the rows
      (with their multiplicities) that pass the whole search form. */
  lemma NarrowingMatches(books: seq<Book>, q1: seq<Book>, q2: seq<Book>, q3: seq<Book>,
                         title: string, author: string, year: Option<int>)
    requires forall b :: multiset(q1)[b] == if TitleOk(b, title) then multiset(books)[b] else 0
    requires forall b :: multiset(q2)[b] == if AuthorOk(b, author) then multiset(q1)[b] else 0
    requires forall b :: multiset(q3)[b] == if YearOk(b, year) then multiset(q2)[b] else 0
    ensures multiset(q3) == multiset(SearchMatches(books, title, author, year))
  {
    var m := SearchMatches(books, title, author, year);
    forall b ensures multiset(q3)[b] == multiset(m)[b] {
    }
  }

  /** The query-building part of `secure_search`: start from every book
      and add one filter per criterion that is on. */
  method NarrowQuery(books: seq<Book>, t: string, a: string, y: Option<int>) returns (query: seq<Book>)
    ensures multiset(query) == multiset(SearchMatches(books, t, a, y))
  {
    query := books;
    if t != "" {
      query := Filter(query, (b: Book) => ContainsIgnoringCase(b.title, t));
    }
    ghost var q1 := query;
    if a != "" {
      query := Filter(query, (b: Book) => ContainsIgnoringCase(b.author, a));
    }
    ghost var q2 := query;
    if y.Some? {
      var from := y.value;
      query := Filter(query, (b: Book) => PublishedFrom(b, from));
    }
    NarrowingMatches(books, q1, q2, query, t, a, y);
  }

  /** `secure_search`: sanitise title and author, read the year, narrow the
      query one filter at a time, then order by title and keep 50. A year
      filter outside the years a date can hold makes the query fail. */
  method SecureSearch(isGet: bool, title: Option<string>, author: Option<string>, year: Option<string>,
                      books: seq<Book>)
    returns (page: SearchPage)
    ensures !isGet ==> page == SearchPage([], false)
    ensures page.ServerError? <==> isGet && YearOutOfRange(YearFilter(year))
    ensures page.SearchPage? ==> |page.results| <= 50 && SortedBy(page.results, TitleLe)
    ensures isGet && page.SearchPage? ==> page.searchPerformed
    ensures isGet && page.SearchPage? ==> forall b :: b in page.results ==>
              b in books && SearchMatch(b, Sanitized(title), Sanitized(author), YearFilter(year))
    ensures isGet && page.SearchPage? ==>
              var matching := SearchMatches(books, Sanitized(title), Sanitized(author), YearFilter(year));
              && |page.results| == Min(50, |matching|)
              && multiset(page.results) <= multiset(matching)
              && (|matching| <= 50 ==> multiset(page.results) == multiset(matching))
              && forall b, c :: b in page.results && c in multiset(matching) - multiset(page.results) ==> TitleLe(b, c)
  {
    if !isGet {
      return SearchPage([], false);
    }
    var t := SanitizeInput(title);
    var a := SanitizeInput(author);
    var y := YearFilter(year);
    if YearOutOfRange(y) {
      return ServerError;
    }
    var query := NarrowQuery(books, t, a, y);
    FirstByTitle(books, query, t, a, y);
    var results := SortBy(query, TitleLe)[..Min(50, |query|)];
    page := SearchPage(results, true);
  }
}
