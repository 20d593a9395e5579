/** The blog's post views and profile page: public list and detail,
    login-required create, owner-only update and delete (`test_func`), the
    author stamp of `form_valid`, and the profile e-mail update. */
module Blog {
  import opened Wrappers
  import opened Text
  import opened PyInt
  import opened Http

  type UserId = nat

  /** Who sends the request. */
  datatype Visitor = Anonymous | LoggedIn(user: UserId)

  datatype BlogPost = BlogPost(id: nat, title: string, content: string, publishedDate: int, author: UserId)

  /** The submitted `PostForm`: `fields = ["title", "content"]`, so nothing
      else of a post can be set through it. */
  datatype PostForm = PostForm(title: string, content: string)

  /** A field's error list, in the order its checks run. */
  datatype FieldError = FieldError(field: string, messages: seq<string>)

  /** What a view answers. */
  datatype Response =
    | RedirectToLogin                  // `LoginRequiredMixin` / `login_required`
    | Forbidden                        // `test_func` returned False
    | NotFound                         // `get_object` found no post
    | FormErrors(errors: seq<FieldError>)
    | Saved(post: BlogPost)
    | Redirect(url: string)
    | Rendered
    | AllowedMethods                   // `View.options`: the `Allow` header
    | MethodNotAllowed                 // no handler for the method (405)

  const RequiredMessage := "This field is required."

  /** Django's `ProhibitNullCharactersValidator` message. */
  const NullCharactersMessage := "Null characters are not allowed."

  /** Django's `MaxLengthValidator` message. */
  function MaxLengthMessage(limit: nat, actual: nat): string {
    "Ensure this value has at most " + ShowNat(limit) + " characters (it has " + ShowNat(actual) + ")."
  }

  /** Cleaning one required `CharField`: strip, reject an empty value, then
      run every validator and keep all their messages: the length limit,
      when there is one, and the ban on NUL characters. */
  function CleanField(name: string, value: string, maxLength: Option<nat>): (r: Result<string, FieldError>)
    ensures r.Success? <==>
              && Strip(value) != []
              && (maxLength.Some? ==> |Strip(value)| <= maxLength.value)
              && '\0' !in Strip(value)
    ensures r.Success? ==> r.value == Strip(value)
    ensures r.Failure? ==> r.error.field == name && 1 <= |r.error.messages| <= 2
    ensures r.Failure? && Strip(value) == [] ==> r.error.messages == [RequiredMessage]
    ensures r.Failure? && Strip(value) != [] && maxLength.Some? ==>
              (|Strip(value)| > maxLength.value <==> MaxLengthMessage(maxLength.value, |Strip(value)|) in r.error.messages)
    ensures r.Failure? && Strip(value) != [] ==>
              && ('\0' in Strip(value) <==> NullCharactersMessage in r.error.messages)
              && (|r.error.messages| == 2 ==> r.error.messages[1] == NullCharactersMessage)
  {
    var v := Strip(value);
    if v == [] then Failure(FieldError(name, [RequiredMessage]))
    else
      var tooLong := if maxLength.Some? && |v| > maxLength.value then [MaxLengthMessage(maxLength.value, |v|)] else [];
      var hasNull := if '\0' in v then [NullCharactersMessage] else [];
      if tooLong + hasNull == [] then Success(v)
      else Failure(FieldError(name, tooLong + hasNull))
  }

  /** `PostForm.is_valid()`: the title is a `CharField(max_length=200)`, the
      content a required `TextField`; both are stripped. */
  function CleanPostForm(form: PostForm): (r: Result<PostForm, seq<FieldError>>)
    ensures r.Success? <==>
              && Strip(form.title) != [] && |Strip(form.title)| <= 200 && '\0' !in Strip(form.title)
              && Strip(form.content) != [] && '\0' !in Strip(form.content)
    ensures r.Success? ==> r.value == PostForm(Strip(form.title), Strip(form.content))
    ensures r.Failure? ==> 1 <= |r.error| <= 2
    ensures r.Failure? ==> forall i :: 0 <= i < |r.error| ==> r.error[i].field in {"title", "content"}
  {
    var t := CleanField("title", form.title, Some(200));
    var c := CleanField("content", form.content, None);
    if t.Success? && c.Success? then Success(PostForm(t.value, c.value))
    else Failure((if t.Failure? then [t.error] else []) + (if c.Failure? then [c.error] else []))
  }

  /** GET, and HEAD, which `View.setup` routes to `get`, render the page. */
  predicate RendersPage(m: HttpMethod) {
    m == GET || m == HEAD
  }

  /** `ProcessFormView` handles POST and PUT by processing the form. */
  predicate SubmitsForm(m: HttpMethod) {
    m == POST || m == PUT
  }

  /** The methods a form view has a handler for, `options` included. */
  predicate HasFormHandler(m: HttpMethod) {
    RendersPage(m) || SubmitsForm(m) || m == OPTIONS
  }

  /** The data a form view binds: `request.POST`, which Django fills only
      for a POST. `ProcessFormView.put` runs `post()` on that empty data. */
  function BoundForm(m: HttpMethod, form: PostForm): (bound: PostForm)
    ensures m == POST ==> bound == form
    ensures m != POST ==> Strip(bound.title) == [] && Strip(bound.content) == []
  {
    if m == POST then form else PostForm("", "")
  }

  /** The index of the post with primary key `id`. */
  function FindPost(posts: seq<BlogPost>, id: nat): (r: Option<nat>)
    ensures r.None? <==> forall i :: 0 <= i < |posts| ==> posts[i].id != id
    ensures r.Some? ==> r.value < |posts| && posts[r.value].id == id
  {
    if posts == [] then None
    else if posts[0].id == id then Some(0)
    else match FindPost(posts[1..], id)
      case None => None
      case Some(i) => Some(i + 1)
  }

  /** `test_func`: `self.request.user == post.author`. */
  predicate IsOwner(v: Visitor, post: BlogPost) {
    v.LoggedIn? && v.user == post.author
  }

  /** The gate in front of update and delete, in dispatch order: login,
      then `get_object`, then `test_func`. The index of the post on success. */
  function OwnerGate(v: Visitor, posts: seq<BlogPost>, id: nat): (r: Result<nat, Response>)
    ensures r == Failure(RedirectToLogin) <==> v.Anonymous?
    ensures r == Failure(NotFound) <==> v.LoggedIn? && forall i :: 0 <= i < |posts| ==> posts[i].id != id
    ensures r == Failure(Forbidden) <==>
              v.LoggedIn? && FindPost(posts, id).Some? && !IsOwner(v, posts[FindPost(posts, id).value])
    ensures r.Success? ==> r.value < |posts| && posts[r.value].id == id && IsOwner(v, posts[r.value])
    ensures r.Failure? ==> r.error in {RedirectToLogin, NotFound, Forbidden}
  {
    if v.Anonymous? then Failure(RedirectToLogin)
    else match FindPost(posts, id)
      case None => Failure(NotFound)
      case Some(i) => if IsOwner(v, posts[i]) then Success(i) else Failure(Forbidden)
  }

  /** `PostDetailView`: public; only an unknown id fails. */
  function PostDetail(v: Visitor, posts: seq<BlogPost>, id: nat): (r: Result<BlogPost, Response>)
    ensures r.Failure? <==> forall i :: 0 <= i < |posts| ==> posts[i].id != id
    ensures r.Failure? ==> r.error == NotFound
    ensures r.Success? ==> r.value in posts && r.value.id == id
  {
    match FindPost(posts, id)
      case None => Failure(NotFound)
      case Some(i) => Success(posts[i])
  }

  /** Primary keys are distinct. */
  predicate DistinctIds(posts: seq<BlogPost>) {
    forall i, j :: 0 <= i < j < |posts| ==> posts[i].id != posts[j].id
  }

  /** Deleting the row at `i` removes exactly the post with its key. */
  lemma RemoveAtKeepsOthers(posts: seq<BlogPost>, i: nat)
    requires i < |posts| && DistinctIds(posts)
    ensures var rest := posts[..i] + posts[i + 1..];
            && |rest| == |posts| - 1
            && DistinctIds(rest)
            && forall p :: p in rest <==> p in posts && p.id != posts[i].id
  {
    var rest := posts[..i] + posts[i + 1..];
    assert forall k :: 0 <= k < |rest| ==> rest[k] == posts[if k < i then k else k + 1];
    forall p
      ensures p in rest <==> p in posts && p.id != posts[i].id
    {
      if p in posts && p.id != posts[i].id {
        var k :| 0 <= k < |posts| && posts[k] == p;
        assert k != i;
        if k < i { assert rest[k] == p; } else { assert rest[k - 1] == p; }
      }
    }
  }

  /** The posts table and the users' e-mail addresses. */
  class BlogStore {
    var posts: seq<BlogPost>
    var emails: map<UserId, string>
    var nextId: nat

    /** Primary keys are distinct and below the counter. */
    ghost predicate Valid()
      reads this
    {
      (forall i :: 0 <= i < |posts| ==> posts[i].id < nextId) && DistinctIds(posts)
    }

    constructor ()
      ensures Valid() && posts == [] && emails == map[]
    {
      posts := [];
      emails := map[];
      nextId := 1;
    }

    /** `PostListView`: public, every post. */
    method ListPosts(v: Visitor) returns (r: seq<BlogPost>)
      ensures r == posts
    {
      r := posts;
    }

    /** `PostCreateView`: login required; GET and HEAD render the empty
        form, OPTIONS lists the allowed methods, and a method without a
        handler gets 405. POST and PUT run the form on `BoundForm`; a valid
        one is saved with `author` set to the logged-in user by
        `form_valid`. */
    method CreatePost(v: Visitor, m: HttpMethod, form: PostForm, now: int) returns (r: Response)
      requires Valid()
      modifies this
      ensures Valid()
      ensures emails == old(emails)
      ensures r == RedirectToLogin <==> v.Anonymous?
      ensures r == Rendered <==> v.LoggedIn? && RendersPage(m)
      ensures r == AllowedMethods <==> v.LoggedIn? && m == OPTIONS
      ensures r == MethodNotAllowed <==> v.LoggedIn? && !HasFormHandler(m)
      ensures v.LoggedIn? && SubmitsForm(m) && CleanPostForm(BoundForm(m, form)).Failure? ==>
                r == FormErrors(CleanPostForm(BoundForm(m, form)).error)
      ensures !r.Saved? ==> posts == old(posts)
      ensures r.Saved? <==> v.LoggedIn? && m == POST && CleanPostForm(form).Success?
      ensures r.Saved? ==>
                && r.post.author == v.user
                && r.post.title == CleanPostForm(form).value.title
                && r.post.content == CleanPostForm(form).value.content
                && r.post.publishedDate == now
                && posts == old(posts) + [r.post]
    {
      if v.Anonymous? {
        return RedirectToLogin;
      }
      if m == GET || m == HEAD {
        return Rendered;
      }
      if m == OPTIONS {
        return AllowedMethods;
      }
      if m != POST && m != PUT {
        return MethodNotAllowed;
      }
      var bound := BoundForm(m, form);
      var cleaned := CleanPostForm(bound);
      assert m == PUT ==> cleaned.Failure?;
      if cleaned.Failure? {
        return FormErrors(cleaned.error);
      }
      assert bound == form;
      var post := BlogPost(nextId, cleaned.value.title, cleaned.value.content, now, v.user);
      posts := posts + [post];
      nextId := nextId + 1;
      r := Saved(post);
    }

    /** `PostUpdateView`: the owner gate, then the same dispatch as
        `CreatePost`; a valid form replaces the title and content, while id,
        date and author stay. */
    method UpdatePost(v: Visitor, m: HttpMethod, id: nat, form: PostForm) returns (r: Response)
      requires Valid()
      modifies this
      ensures Valid()
      ensures emails == old(emails)
      ensures OwnerGate(v, old(posts), id).Failure? ==> r == OwnerGate(v, old(posts), id).error
      ensures r == Rendered <==> OwnerGate(v, old(posts), id).Success? && RendersPage(m)
      ensures r == AllowedMethods <==> OwnerGate(v, old(posts), id).Success? && m == OPTIONS
      ensures r == MethodNotAllowed <==> OwnerGate(v, old(posts), id).Success? && !HasFormHandler(m)
      ensures OwnerGate(v, old(posts), id).Success? && SubmitsForm(m) && CleanPostForm(BoundForm(m, form)).Failure? ==>
                r == FormErrors(CleanPostForm(BoundForm(m, form)).error)
      ensures !r.Saved? ==> posts == old(posts)
      ensures r.Saved? <==> OwnerGate(v, old(posts), id).Success? && m == POST && CleanPostForm(form).Success?
      ensures r.Saved? ==>
                var i := OwnerGate(v, old(posts), id).value;
                && r.post == old(posts)[i].(title := CleanPostForm(form).value.title,
                                            content := CleanPostForm(form).value.content)
                && posts == old(posts)[i := r.post]
    {
      var gate := OwnerGate(v, posts, id);
      if gate.Failure? {
        return gate.error;
      }
      if m == GET || m == HEAD {
        return Rendered;
      }
      if m == OPTIONS {
        return AllowedMethods;
      }
      if m != POST && m != PUT {
        return MethodNotAllowed;
      }
      var bound := BoundForm(m, form);
      var cleaned := CleanPostForm(bound);
      assert m == PUT ==> cleaned.Failure?;
      if cleaned.Failure? {
        return FormErrors(cleaned.error);
      }
      assert bound == form;
      var i := gate.value;
      var post := posts[i].(title := cleaned.value.title, content := cleaned.value.content);
      posts := posts[i := post];
      r := Saved(post);
    }

    /** `PostDeleteView`: the owner gate; GET and HEAD render the
        confirmation page and OPTIONS lists the allowed methods. POST and
        DELETE (`DeletionMixin.delete`) remove the post and send the user to
        `post-list`; any other method gets 405. */
    method DeletePost(v: Visitor, m: HttpMethod, id: nat) returns (r: Response)
      requires Valid()
      modifies this
      ensures Valid()
      ensures emails == old(emails)
      ensures OwnerGate(v, old(posts), id).Failure? ==> r == OwnerGate(v, old(posts), id).error && posts == old(posts)
      ensures OwnerGate(v, old(posts), id).Success? && RendersPage(m) ==> r == Rendered && posts == old(posts)
      ensures OwnerGate(v, old(posts), id).Success? && m == OPTIONS ==> r == AllowedMethods && posts == old(posts)
      ensures OwnerGate(v, old(posts), id).Success? && m in {PUT, PATCH, TRACE} ==>
                r == MethodNotAllowed && posts == old(posts)
      ensures OwnerGate(v, old(posts), id).Success? && m in {POST, DELETE} ==>
                && r == Redirect("post-list")
                && (forall p :: p in posts <==> p in old(posts) && p.id != id)
                && |posts| == |old(posts)| - 1
    {
      var gate := OwnerGate(v, posts, id);
      if gate.Failure? {
        return gate.error;
      }
      if m == GET || m == HEAD {
        return Rendered;
      }
      if m == OPTIONS {
        return AllowedMethods;
      }
      if m != POST && m != DELETE {
        return MethodNotAllowed;
      }
      var i := gate.value;
      RemoveAtKeepsOthers(posts, i);
      posts := posts[..i] + posts[i + 1..];
      r := Redirect("post-list");
    }

    /** `profile`: login required; a POST stores the submitted e-mail as
        given (no validation) and redirects back; a POST without an
        `email` value cannot be saved; any other method only renders. */
    method UpdateProfile(v: Visitor, isPost: bool, email: Option<string>) returns (r: Response)
      modifies this
      ensures posts == old(posts) && nextId == old(nextId)
      ensures r == RedirectToLogin <==> v.Anonymous?
      ensures v.LoggedIn? && isPost && email.Some? ==>
                r == Redirect("profile") && emails == old(emails)[v.user := email.value]
      ensures v.LoggedIn? && isPost && email.None? ==> r == FormErrors([FieldError("email", [RequiredMessage])])
      ensures v.LoggedIn? && !isPost ==> r == Rendered
      ensures !(v.LoggedIn? && isPost && email.Some?) ==> emails == old(emails)
    {
      if v.Anonymous? {
        return RedirectToLogin;
      }
      if !isPost {
        return Rendered;
      }
      if email.None? {
        return FormErrors([FieldError("email", [RequiredMessage])]);
      }
      emails := emails[v.user := email.value];
      r := Redirect("profile");
    }
  }

  /** Only the author passes `test_func`: another logged-in user is refused
      an existing post, whoever it is. */
  lemma OnlyOwnerPasses(v: Visitor, posts: seq<BlogPost>, id: nat)
    ensures OwnerGate(v, posts, id).Success? <==>
              v.LoggedIn? && FindPost(posts, id).Some? && posts[FindPost(posts, id).value].author == v.user
  {
  }
}
