/** The social API's post and comment endpoints: the
    `IsAuthenticatedOrReadOnly` permission, the author stamp of
    `perform_create`, the `SearchFilter` over title and content, and the
    feed of posts by followed users, newest first. */
module Posts {
  import opened Wrappers
  import opened Text
  import opened Ordering
  import opened Accounts
  import opened Http

  /** Who sends the request. */
  datatype Requester = Anonymous | Authenticated(user: UserId)

  /** REST framework's `SAFE_METHODS`. */
  predicate IsSafe(m: HttpMethod) {
    m == GET || m == HEAD || m == OPTIONS
  }

  datatype ApiError = NotAuthenticated | InvalidPost

  /** `IsAuthenticatedOrReadOnly.has_permission`. */
  predicate AuthenticatedOrReadOnly(req: Requester, m: HttpMethod) {
    IsSafe(m) || req.Authenticated?
  }

  /** Anonymous callers may only read; a signed-in caller may use every
      method on every post and comment, its own or not: neither view set
      checks ownership. */
  lemma ReadOnlyUnlessAuthenticated(req: Requester, m: HttpMethod)
    ensures req.Anonymous? ==> (AuthenticatedOrReadOnly(req, m) <==> m in {GET, HEAD, OPTIONS})
    ensures req.Authenticated? ==> AuthenticatedOrReadOnly(req, m)
  {
  }

  datatype Post = Post(id: nat, author: UserId, title: string, content: string, createdAt: int)

  datatype Comment = Comment(id: nat, post: nat, author: UserId, content: string, createdAt: int)

  /** A request body. Its `author`, if any, is never used. */
  datatype PostData = PostData(title: string, content: string, author: Option<UserId>)

  datatype CommentData = CommentData(post: nat, content: string, author: Option<UserId>)

  /** The `Post` and `Comment` tables with their id counters. */
  class PostStore {
    var posts: seq<Post>
    var comments: seq<Comment>
    var nextPostId: nat
    var nextCommentId: nat

    ghost predicate Valid()
      reads this
    {
      && (forall i :: 0 <= i < |posts| ==> posts[i].id < nextPostId)
      && (forall i :: 0 <= i < |comments| ==> comments[i].id < nextCommentId)
    }

    constructor ()
      ensures Valid() && posts == [] && comments == []
    {
      posts := [];
      comments := [];
      nextPostId := 1;
      nextCommentId := 1;
    }

    /** `POST /posts/`: the permission check, then `perform_create`, which
        saves the post with `author` set to the requester. */
    method CreatePost(req: Requester, data: PostData, now: int) returns (r: Result<Post, ApiError>)
      requires Valid()
      modifies this
      ensures Valid()
      ensures r == Failure(NotAuthenticated) <==> req.Anonymous?
      ensures r.Success? <==> req.Authenticated?
      ensures r.Failure? ==> posts == old(posts)
      ensures r.Success? ==>
                && r.value.author == req.user
                && r.value.title == data.title && r.value.content == data.content
                && r.value.createdAt == now
                && (forall i :: 0 <= i < |old(posts)| ==> old(posts)[i].id != r.value.id)
                && posts == old(posts) + [r.value]
      ensures comments == old(comments)
    {
      if req.Anonymous? {
        return Failure(NotAuthenticated);
      }
      var post := Post(nextPostId, req.user, data.title, data.content, now);
      posts := posts + [post];
      nextPostId := nextPostId + 1;
      r := Success(post);
    }

    /** `POST /comments/`: the same permission check and author stamp; the
        comment must name a stored post. */
    method CreateComment(req: Requester, data: CommentData, now: int) returns (r: Result<Comment, ApiError>)
      requires Valid()
      modifies this
      ensures Valid()
      ensures r == Failure(NotAuthenticated) <==> req.Anonymous?
      ensures r == Failure(InvalidPost) <==> req.Authenticated? && !exists p :: p in posts && p.id == data.post
      ensures r.Success? <==> req.Authenticated? && exists p :: p in posts && p.id == data.post
      ensures r.Failure? ==> comments == old(comments)
      ensures r.Success? ==>
                && r.value.author == req.user
                && r.value.post == data.post && r.value.content == data.content
                && r.value.createdAt == now
                && (forall i :: 0 <= i < |old(comments)| ==> old(comments)[i].id != r.value.id)
                && comments == old(comments) + [r.value]
      ensures posts == old(posts)
    {
      if req.Anonymous? {
        return Failure(NotAuthenticated);
      }
      var found := false;
      for i := 0 to |posts|
        invariant found <==> exists k :: 0 <= k < i && posts[k].id == data.post
      {
        if posts[i].id == data.post {
          found := true;
        }
      }
      if !found {
        assert !exists p :: p in posts && p.id == data.post;
        return Failure(InvalidPost);
      }
      var comment := Comment(nextCommentId, data.post, req.user, data.content, now);
      comments := comments + [comment];
      nextCommentId := nextCommentId + 1;
      r := Success(comment);
    }
  }

  // ---------------------------------------------------------------- search

  /** `SearchFilter` splits the `search` parameter on whitespace and commas. */
  predicate IsTermSeparator(c: char) {
    IsSpace(c) || c == ','
  }

  /** Length of the term at the front of `s`. */
  function TermLength(s: string): (n: nat)
    ensures n <= |s|
    ensures forall k :: 0 <= k < n ==> !IsTermSeparator(s[k])
    ensures n < |s| ==> IsTermSeparator(s[n])
  {
    if s == [] || IsTermSeparator(s[0]) then 0 else 1 + TermLength(s[1..])
  }

  /** `params.replace(',', ' ').split()`: the non-empty runs of
      non-separators, in order. */
  function SplitTerms(s: string): (r: seq<string>)
    ensures forall i :: 0 <= i < |r| ==> r[i] != []
    ensures forall i, k :: 0 <= i < |r| && 0 <= k < |r[i]| ==> !IsTermSeparator(r[i][k])
    decreases |s|
  {
    if s == [] then []
    else if IsTermSeparator(s[0]) then SplitTerms(s[1..])
    else
      var n := TermLength(s);
      [s[..n]] + SplitTerms(s[n..])
  }

  /** `s` with every separator deleted. */
  function WithoutSeparators(s: string): string {
    if s == [] then [] else (if IsTermSeparator(s[0]) then [] else [s[0]]) + WithoutSeparators(s[1..])
  }

  function Concat(words: seq<string>): string {
    if words == [] then [] else words[0] + Concat(words[1..])
  }

  lemma {:induction false} WithoutSeparatorsAppend(a: string, b: string)
    ensures WithoutSeparators(a + b) == WithoutSeparators(a) + WithoutSeparators(b)
    decreases |a|
  {
    if a == [] {
      assert a + b == b;
    } else {
      assert (a + b)[1..] == a[1..] + b;
      WithoutSeparatorsAppend(a[1..], b);
    }
  }

  lemma {:induction false} WithoutSeparatorsOfTerm(s: string)
    requires forall k :: 0 <= k < |s| ==> !IsTermSeparator(s[k])
    ensures WithoutSeparators(s) == s
    decreases |s|
  {
    if s != [] {
      WithoutSeparatorsOfTerm(s[1..]);
    }
  }

  /** Splitting loses nothing but the separators: the terms, joined, are the
      parameter with its separators deleted. */
  lemma {:induction false} SplitTermsKeepsText(s: string)
    ensures Concat(SplitTerms(s)) == WithoutSeparators(s)
    decreases |s|
  {
    if s == [] {
    } else if IsTermSeparator(s[0]) {
      SplitTermsKeepsText(s[1..]);
    } else {
      var n := TermLength(s);
      SplitTermsKeepsText(s[n..]);
      assert s == s[..n] + s[n..];
      WithoutSeparatorsAppend(s[..n], s[n..]);
      WithoutSeparatorsOfTerm(s[..n]);
      var r := SplitTerms(s);
      assert r[0] == s[..n] && r[1..] == SplitTerms(s[n..]);
    }
  }

  /** `params.replace('\x00', '')`. */
  function DropNul(s: string): (r: string)
    ensures forall c :: c in r <==> c in s && c != '\0'
  {
    if s == [] then [] else (if s[0] == '\0' then [] else [s[0]]) + DropNul(s[1..])
  }

  /** The search terms of a `search` parameter; null characters are deleted
      first. */
  function SearchTerms(q: string): seq<string> {
    SplitTerms(DropNul(q))
  }

  /** `search_fields = ['title', 'content']`: every term occurs, ignoring
      case, in the title or in the content. */
  predicate MatchesAllTerms(p: Post, terms: seq<string>) {
    forall i :: 0 <= i < |terms| ==>
      ContainsIgnoringCase(p.title, terms[i]) || ContainsIgnoringCase(p.content, terms[i])
  }

  /** The post list filtered by `?search=q`, in store order. */
  function SearchPosts(posts: seq<Post>, q: string): (r: seq<Post>)
    ensures forall p :: p in r <==> p in posts && MatchesAllTerms(p, SearchTerms(q))
    ensures forall p :: multiset(r)[p] == if MatchesAllTerms(p, SearchTerms(q)) then multiset(posts)[p] else 0
  {
    var terms := SearchTerms(q);
    Filter(posts, (p: Post) => MatchesAllTerms(p, terms))
  }

  /** A word with no separator and no null character is one search term. */
  lemma OneWordOneTerm(w: string)
    requires w != [] && forall k :: 0 <= k < |w| ==> !IsTermSeparator(w[k]) && w[k] != '\0'
    ensures SearchTerms(w) == [w]
  {
    DropNulKeepsAll(w);
    assert !IsTermSeparator(w[0]);
    var n := TermLength(w);
    assert n == |w|;
    assert w[..n] == w && w[n..] == [];
    assert SplitTerms(w) == [w[..n]] + SplitTerms(w[n..]);
  }

  /** A one-word search keeps exactly the posts whose title or content
      contains the word. */
  lemma SearchOneWord(posts: seq<Post>, w: string, p: Post)
    requires w != [] && forall k :: 0 <= k < |w| ==> !IsTermSeparator(w[k]) && w[k] != '\0'
    ensures p in SearchPosts(posts, w) <==>
              p in posts && (ContainsIgnoringCase(p.title, w) || ContainsIgnoringCase(p.content, w))
  {
    OneWordOneTerm(w);
    assert [w][0] == w;
    assert MatchesAllTerms(p, [w]) <==> ContainsIgnoringCase(p.title, w) || ContainsIgnoringCase(p.content, w);
  }

  lemma {:induction false} DropNulKeepsAll(w: string)
    requires forall k :: 0 <= k < |w| ==> w[k] != '\0'
    ensures DropNul(w) == w
    decreases |w|
  {
    if w != [] {
      DropNulKeepsAll(w[1..]);
    }
  }

  /** A search of only separators keeps every post. */
  lemma BlankSearchKeepsAll(posts: seq<Post>, q: string)
    requires forall k :: 0 <= k < |q| ==> IsTermSeparator(q[k])
    ensures SearchPosts(posts, q) == posts
  {
    var f := DropNul(q);
    forall k | 0 <= k < |f|
      ensures IsTermSeparator(f[k])
    {
      assert f[k] in q;
    }
    NoTermsInSeparators(f);
    FilterAll(posts);
  }

  lemma {:induction false} NoTermsInSeparators(s: string)
    requires forall k :: 0 <= k < |s| ==> IsTermSeparator(s[k])
    ensures SplitTerms(s) == []
    decreases |s|
  {
    if s != [] {
      NoTermsInSeparators(s[1..]);
    }
  }

  lemma {:induction false} FilterAll(posts: seq<Post>)
    ensures Filter(posts, (p: Post) => MatchesAllTerms(p, [])) == posts
    decreases |posts|
  {
    if posts != [] {
      FilterAll(posts[1..]);
    }
  }

  // ---------------------------------------------------------------- feed

  /** `Post.objects.filter(author__in=following)`, in store order. */
  function FeedCandidates(posts: seq<Post>, following: set<UserId>): (r: seq<Post>)
    ensures forall p :: p in r <==> p in posts && p.author in following
    ensures forall p :: multiset(r)[p] == if p.author in following then multiset(posts)[p] else 0
  {
    Filter(posts, (p: Post) => p.author in following)
  }

  /** `order_by("-created_at")`: newer (or equally new) posts first. */
  predicate NewerOrSame(a: Post, b: Post) {
    a.createdAt >= b.createdAt
  }

  lemma NewestFirstIsTotalPreorder()
    ensures TotalPreorder(NewerOrSame)
  {
  }

  /** `FeedView`: anonymous callers are refused; otherwise exactly the
      stored posts written by users the requester follows, each as often as
      stored, newest first. */
  function Feed(req: Requester, edges: map<Edge, int>, posts: seq<Post>): (r: Result<seq<Post>, ApiError>)
    ensures r.Failure? <==> req.Anonymous?
    ensures r.Failure? ==> r.error == NotAuthenticated
    ensures r.Success? ==>
              && (forall p :: p in r.value <==> p in posts && Edge(req.user, p.author) in edges)
              && multiset(r.value) == multiset(FeedCandidates(posts, FollowingIn(edges, req.user)))
              && SortedBy(r.value, NewerOrSame)
  {
    if req.Anonymous? then Failure(NotAuthenticated)
    else
      var candidates := FeedCandidates(posts, FollowingIn(edges, req.user));
      NewestFirstIsTotalPreorder();
      SortBySorted(candidates, NewerOrSame);
      Success(SortBy(candidates, NewerOrSame))
  }

  /** Following someone new adds their posts to the feed, and only theirs. */
  lemma FollowAddsTheirPosts(u: UserId, v: UserId, edges: map<Edge, int>, t: int, posts: seq<Post>, p: Post)
    requires Edge(u, v) !in edges
    ensures var before := Feed(Authenticated(u), edges, posts).value;
            var after := Feed(Authenticated(u), edges[Edge(u, v) := t], posts).value;
            p in after <==> p in before || (p in posts && p.author == v)
  {
  }
}
