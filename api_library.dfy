/** The API project's `Author` and `Book` tables: every book references one
    author through `author`, reachable back as `author.books`, and deleting
    an author deletes their books (`on_delete=CASCADE`). */
module ApiLibrary {
  import opened Wrappers

  datatype Author = Author(name: string)

  datatype Book = Book(title: string, publicationYear: int, author: nat)

  /** The fields a book payload can be rejected on. */
  datatype BookField = Title | PublicationYear | AuthorField

  datatype LibraryError =
    | NameInvalid                      // empty or over 255 characters
    | BookInvalid(fields: set<BookField>)
    | NoSuchBook
    | NoSuchAuthor

  /** `CharField(max_length=255)`, required. */
  predicate ValidName(s: string) {
    0 < |s| <= 255
  }

  /** `author.books` (`related_name='books'`): the keys of the books that
      reference author `a`. */
  function BooksOf(books: map<nat, Book>, a: nat): (r: set<nat>)
    ensures forall b :: b in r <==> b in books && books[b].author == a
  {
    set b | b in books && books[b].author == a
  }

  /** The book rows that survive deleting author `a`. */
  function CascadeAuthor(books: map<nat, Book>, a: nat): (r: map<nat, Book>)
    ensures forall b :: b in r <==> b in books && books[b].author != a
    ensures forall b :: b in r ==> r[b] == books[b]
  {
    map b | b in books && books[b].author != a :: books[b]
  }

  /** After the cascade the author has no books, every other author keeps
      every book, and the removed rows are exactly the author's books. */
  lemma CascadeRemovesExactlyTheirBooks(books: map<nat, Book>, a: nat, other: nat)
    ensures BooksOf(CascadeAuthor(books, a), a) == {}
    ensures other != a ==> BooksOf(CascadeAuthor(books, a), other) == BooksOf(books, other)
    ensures books.Keys - CascadeAuthor(books, a).Keys == BooksOf(books, a)
  {
  }

  /** Serializer validation of a book payload: the title is a required
      `CharField(max_length=255)`, the year a required integer, the author
      an existing primary key. The fields that fail. */
  function BookErrors(title: string, year: Option<int>, author: nat, authors: map<nat, Author>): (r: set<BookField>)
    ensures Title in r <==> !ValidName(title)
    ensures PublicationYear in r <==> year.None?
    ensures AuthorField in r <==> author !in authors
  {
    (if ValidName(title) then {} else {Title})
    + (if year.Some? then {} else {PublicationYear})
    + (if author in authors then {} else {AuthorField})
  }

  /** The two tables with their id counters. */
  class Library {
    var authors: map<nat, Author>
    var books: map<nat, Book>
    var nextAuthorId: nat
    var nextBookId: nat

    /** Every book references a stored author; names and titles fit their
        columns; keys are below the counters. */
    ghost predicate Valid()
      reads this
    {
      && (forall b :: b in books ==> books[b].author in authors && ValidName(books[b].title))
      && (forall a :: a in authors ==> ValidName(authors[a].name))
      && (forall a :: a in authors ==> a < nextAuthorId)
      && (forall b :: b in books ==> b < nextBookId)
    }

    constructor ()
      ensures Valid() && authors == map[] && books == map[]
    {
      authors := map[];
      books := map[];
      nextAuthorId := 1;
      nextBookId := 1;
    }

    method CreateAuthor(name: string) returns (r: Result<nat, LibraryError>)
      requires Valid()
      modifies this
      ensures Valid()
      ensures books == old(books)
      ensures r.Failure? <==> !ValidName(name)
      ensures r.Failure? ==> r.error == NameInvalid && authors == old(authors)
      ensures r.Success? ==> r.value !in old(authors) && authors == old(authors)[r.value := Author(name)]
    {
      if !ValidName(name) {
        return Failure(NameInvalid);
      }
      var id := nextAuthorId;
      authors := authors[id := Author(name)];
      nextAuthorId := nextAuthorId + 1;
      r := Success(id);
    }

    /** `POST` to the book list: one new row, or the failing fields and no
        change. */
    method CreateBook(title: string, year: Option<int>, author: nat) returns (r: Result<nat, LibraryError>)
      requires Valid()
      modifies this
      ensures Valid()
      ensures authors == old(authors)
      ensures r.Failure? <==> BookErrors(title, year, author, authors) != {}
      ensures r.Failure? ==> r.error == BookInvalid(BookErrors(title, year, author, authors)) && books == old(books)
      ensures r.Success? ==>
                && r.value !in old(books)
                && books == old(books)[r.value := Book(title, year.value, author)]
                && |books| == |old(books)| + 1
    {
      var errors := BookErrors(title, year, author, authors);
      if errors != {} {
        return Failure(BookInvalid(errors));
      }
      var id := nextBookId;
      books := books[id := Book(title, year.value, author)];
      nextBookId := nextBookId + 1;
      r := Success(id);
    }

    /** `PUT` to a book: the stored row is replaced by the payload. */
    method UpdateBook(id: nat, title: string, year: Option<int>, author: nat) returns (r: Result<nat, LibraryError>)
      requires Valid()
      modifies this
      ensures Valid()
      ensures authors == old(authors)
      ensures r == Failure(NoSuchBook) <==> id !in old(books)
      ensures r.Failure? ==> books == old(books)
      ensures id in old(books) ==>
                && (r.Failure? <==> BookErrors(title, year, author, authors) != {})
                && (r.Failure? ==> r.error == BookInvalid(BookErrors(title, year, author, authors)))
      ensures r.Success? ==> r.value == id && books == old(books)[id := Book(title, year.value, author)]
                             && |books| == |old(books)|
    {
      if id !in books {
        return Failure(NoSuchBook);
      }
      var errors := BookErrors(title, year, author, authors);
      if errors != {} {
        return Failure(BookInvalid(errors));
      }
      books := books[id := Book(title, year.value, author)];
      r := Success(id);
    }

    /** `DELETE` of a book: exactly that row goes. */
    method DeleteBook(id: nat) returns (r: Result<nat, LibraryError>)
      requires Valid()
      modifies this
      ensures Valid()
      ensures authors == old(authors)
      ensures r.Failure? <==> id !in old(books)
      ensures r.Failure? ==> r.error == NoSuchBook && books == old(books)
      ensures r.Success? ==> books == old(books) - {id} && |books| == |old(books)| - 1
    {
      if id !in books {
        return Failure(NoSuchBook);
      }
      books := books - {id};
      r := Success(id);
    }

    /** Deleting an author deletes all of their books and no other. */
    method DeleteAuthor(a: nat) returns (r: Result<nat, LibraryError>)
      requires Valid()
      modifies this
      ensures Valid()
      ensures r.Failure? <==> a !in old(authors)
      ensures r.Failure? ==> r.error == NoSuchAuthor && authors == old(authors) && books == old(books)
      ensures r.Success? ==> authors == old(authors) - {a} && books == CascadeAuthor(old(books), a)
    {
      if a !in authors {
        return Failure(NoSuchAuthor);
      }
      authors := authors - {a};
      books := CascadeAuthor(books, a);
      r := Success(a);
    }
  }
}
