/** `BookForm` of the bookshelf app: the field whitelist of its `Meta` and
    its `clean_isbn` hook. */
module BookForms {
  import opened Wrappers

  /** A calendar date (the value of a `DateField`). */
  datatype Date = Date(year: int, month: int, day: int)

  /** Chronological order on dates: year, then month, then day. */
  predicate DateBefore(a: Date, b: Date) {
    a.year < b.year
    || (a.year == b.year && a.month < b.month)
    || (a.year == b.year && a.month == b.month && a.day < b.day)
  }

  /** The fields `BookForm.Meta.fields` lists, in order. */
  const BookFormFields: seq<string> := ["title", "author", "published_date", "isbn", "description"]

  /** Binding submitted data to the form reads the whitelisted fields only. */
  function BindFields(post: map<string, string>): (bound: map<string, string>)
    ensures forall f :: f in bound <==> f in post && f in BookFormFields
    ensures forall f :: f in bound ==> bound[f] == post[f]
  {
    map f | f in post && f in BookFormFields :: post[f]
  }

  /** A field outside the whitelist, such as `id`, never reaches the form. */
  lemma BindDropsUnlisted(post: map<string, string>, f: string)
    requires f !in BookFormFields
    ensures f !in BindFields(post)
  {
  }

  const IsbnLengthMessage := "ISBN must be 10 or 13 characters long"

  /** `clean_isbn`: the value passes, unchanged, exactly when it has 10 or
      13 characters (of any kind); otherwise the form gets the length error. */
  function CleanIsbn(isbn: string): (r: Result<string, string>)
    ensures r.Success? <==> |isbn| in {10, 13}
    ensures r.Success? ==> r.value == isbn
    ensures r.Failure? ==> r.error == IsbnLengthMessage
  {
    if |isbn| == 10 || |isbn| == 13 then Success(isbn) else Failure(IsbnLengthMessage)
  }

  /** The hook counts characters, not digits: a 10-character value with
      letters and a hyphen passes it. */
  lemma CleanIsbnCountsCharacters()
    ensures CleanIsbn("ISBN-12345") == Success("ISBN-12345")
    ensures CleanIsbn("978-0-13-110362-7").Failure?
  {
  }
}
