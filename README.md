# Alx Django Learn Lab — a verified model of its own logic

The repository is a set of Django projects: a library app with security
hardening (`bookshelf`), a role-based `django-models` project, a social API
(users that follow each other, posts, comments, a feed, notifications), a
blog, and a small REST API of authors and books. Most of it is framework
configuration. This project models, in Dafny, the logic the projects add
on top of the framework, and proves what that logic promises.

- **Input sanitising and book validation** (`sanitize.dfy`, `bookshelf_views.dfy`,
  `bookshelf_forms.dfy`, `pyint.dfy`, `text.dfy`):
  - `sanitize_input`: HTML-escape, delete seven SQL keywords
    case-insensitively, one leftmost non-overlapping pass each, then strip.
  - the ISBN and publication-date checks of `secure_book_create`;
  - the comment length bounds of `add_comment`;
  - the term bounds and ten-result cap of `api_book_search`;
  - the filter chain, year parsing, title order and 50-row cap of `secure_search`;
  - the role predicates;
  - the `BookForm` field whitelist and its `clean_isbn` hook.
- **Accounts, roles and groups** (`bookshelf_users.dfy`, `setup_groups.dfy`,
  `profiles.dfy`, `role_views.dfy`):
  - `CustomUserManager.create_user` and `create_superuser`, with `normalize_email`;
  - the `setup_groups` command, which resets the Viewers, Editors and Admins
    groups to their configured Book permissions and reports each step;
  - the three `user_passes_test` lambdas.
- **Social graph and queries** (`follow_graph.dfy`, `posts.dfy`, `notifications.dfy`):
  - the directed `UserFollowing` edge table: one row per ordered pair,
    `created_at` written once, rows deleted with either user;
  - `IsAuthenticatedOrReadOnly`;
  - the author stamp of `perform_create`;
  - the post `SearchFilter`;
  - the feed and the notification list, each a filter followed by a
    newest-first sort.
- **Ownership and cascades** (`blog.dfy`, `api_library.dfy`, `http.dfy`):
  - the blog's owner-only update and delete (`test_func`);
  - the author stamp in `form_valid`;
  - the profile e-mail update;
  - the `Author`→`Book` relation with cascade delete and its create, update
    and delete operations.

Code that changes rows in place is modelled as a class whose fields are the
tables. Each of its methods states the whole new state:

| class | source entity |
|---|---|
| `UserManager.UserStore` | the users behind `CustomUserManager` |
| `SetupGroups.GroupStore` | the Group and Permission tables |
| `Accounts.FollowGraph` | User and UserFollowing |
| `Posts.PostStore` | Post and Comment |
| `Blog.BlogStore` | blog posts and user e-mails |
| `ApiLibrary.Library` | Author and Book |

Query code that only computes (filter, order, slice) is modelled as
functions on sequences, in store order.

The database leaves the order of equal keys open. A contract about an
ordered result therefore says "sorted, and a permutation of the matching
rows". `Ordering.SortBy`, an insertion sort, is one admissible order.

`PostViewSet` and `CommentViewSet` check only `IsAuthenticatedOrReadOnly`,
so any signed-in user may change any post or comment;
`Posts.ReadOnlyUnlessAuthenticated` states this.

## Model

| member | source | states |
|---|---|---|
| Text.Strip | advanced_features_and_security/LibraryProject/bookshelf/views.py:114 | `str.strip()`: the result is the slice between a maximal whitespace prefix and a maximal whitespace suffix; it neither starts nor ends with whitespace |
| Text.StripUnchanged | advanced_features_and_security/LibraryProject/bookshelf/views.py:114 | stripping text without surrounding whitespace is the identity |
| Ordering.SortBySorted | advanced_features_and_security/LibraryProject/bookshelf/views.py:143 | ordering by a total preorder yields a sorted sequence (and a permutation, from `SortBy`'s contract) |
| Ordering.TakeSorted | advanced_features_and_security/LibraryProject/bookshelf/views.py:143 | `order_by(...)[:n]` has n rows, is sorted, is drawn from the rows, and is all of them when n covers them |
| Ordering.TakeSmallest | advanced_features_and_security/LibraryProject/bookshelf/views.py:143 | the first n of an ordering keep the smallest rows: every kept row sorts no later than every row left out |
| Sanitize.Escape | advanced_features_and_security/LibraryProject/bookshelf/views.py:108 | the escaped text never contains `<`, `>`, `"` or `'`, and is at least as long as the input |
| Sanitize.UnescapeEscape | advanced_features_and_security/LibraryProject/bookshelf/views.py:108 | escaping loses no information: decoding the five entities recovers the input |
| Sanitize.RemoveAll | advanced_features_and_security/LibraryProject/bookshelf/views.py:112 | keyword deletion only deletes: no longer than its input, and every character it keeps comes from the input |
| Sanitize.RemoveAbsent | advanced_features_and_security/LibraryProject/bookshelf/views.py:112 | text in which the keyword does not occur (ignoring case) is left unchanged |
| Sanitize.RemoveAllDropsMatch | advanced_features_and_security/LibraryProject/bookshelf/views.py:112 | a leading match is deleted and matching resumes after it |
| Sanitize.KeywordReforms | advanced_features_and_security/LibraryProject/bookshelf/views.py:110-112 | deletion is one pass: "SELSELECTECT" becomes "SELECT", so keyword absence is not a property of the output |
| Sanitize.NoDoubleDashAfterRemoval | advanced_features_and_security/LibraryProject/bookshelf/views.py:112 | after deleting `--` leftmost and non-overlapping, no `--` remains |
| Sanitize.SanitizedNoHtmlSpecial | advanced_features_and_security/LibraryProject/bookshelf/views.py:107-114 | `sanitize_input` output never contains `<`, `>`, `"` or `'` |
| Sanitize.SanitizedNoDoubleDash | advanced_features_and_security/LibraryProject/bookshelf/views.py:110-114 | `--` is deleted last and stripping keeps a slice, so the output never contains `--` |
| Sanitize.SanitizeInput | advanced_features_and_security/LibraryProject/bookshelf/views.py:103-114 | the loop computes `Sanitized(input)`: "" for missing or empty input; no surrounding whitespace; no HTML-special character; no `--` |
| PyInt.ParseShowInt | advanced_features_and_security/LibraryProject/bookshelf/views.py:128 | `int(str(n)) == n` for every integer |
| PyInt.ParseIntAcceptsIntegerText | advanced_features_and_security/LibraryProject/bookshelf/views.py:127-130 | `int()` succeeds exactly on text that, once stripped, is an optional sign followed by one or more digits |
| BookForms.BindFields | advanced_features_and_security/LibraryProject/bookshelf/forms.py:11 | the bound data holds exactly the submitted fields that the whitelist lists, with their submitted values |
| BookForms.BindDropsUnlisted | advanced_features_and_security/LibraryProject/bookshelf/forms.py:11 | a field outside the whitelist never reaches the form |
| BookForms.CleanIsbn | advanced_features_and_security/LibraryProject/bookshelf/forms.py:21-25 | passes exactly when the length is 10 or 13, returns the value unchanged, and otherwise fails with "ISBN must be 10 or 13 characters long" |
| BookForms.CleanIsbnCountsCharacters | advanced_features_and_security/LibraryProject/bookshelf/forms.py:23 | the hook counts characters, not digits: "ISBN-12345" passes and a 17-character hyphenated ISBN fails |
| BookshelfViews.RolesExclusive | advanced_features_and_security/LibraryProject/bookshelf/views.py:20-27 | each role check holds exactly for a signed-in user whose profile role is that exact string; at most one holds; none holds without a profile |
| BookshelfViews.RolesCaseSensitive | advanced_features_and_security/LibraryProject/bookshelf/views.py:20-27 | "admin", "LIBRARIAN" and "member " match no role |
| BookshelfViews.IsbnPatternIsTenOrThirteenDigits | advanced_features_and_security/LibraryProject/bookshelf/views.py:162 | `^\d{10}(\d{3})?$` accepts exactly the strings of 10 or 13 ASCII digits (both directions) |
| BookshelfViews.SecureBookCreate | advanced_features_and_security/LibraryProject/bookshelf/views.py:152-179 | denied exactly without `can_create`; a blank form exactly for a permitted non-POST; `is_valid()` fails exactly when a field reports an error or the ISBN is not 10 or 13 characters long, keeping the field errors and adding the `clean_isbn` error exactly when that hook runs and fails; saved, as submitted, exactly when the form is valid, the ISBN is 10 or 13 digits and the date is missing or not after today; rejected exactly otherwise, with the digits error exactly when the ISBN has a non-digit and the date error exactly when the date is after today |
| BookshelfViews.AddComment | advanced_features_and_security/LibraryProject/bookshelf/views.py:184-193 | too short exactly when the sanitised text has fewer than 5 characters, too long exactly when it has more than 500, accepted otherwise |
| BookshelfViews.EscapedCommentAccepted | advanced_features_and_security/LibraryProject/bookshelf/views.py:186-188 | length is measured after escaping: the two-character comment `<<` is accepted |
| BookshelfViews.MissingCommentTooShort | advanced_features_and_security/LibraryProject/bookshelf/views.py:185-189 | a missing or empty comment is too short |
| BookshelfViews.TitleMatches | advanced_features_and_security/LibraryProject/bookshelf/views.py:253-255 | keeps exactly the books whose title contains the term, ignoring case |
| BookshelfViews.ApiBookSearch | advanced_features_and_security/LibraryProject/bookshelf/views.py:243-259 | 405 exactly for a method other than GET; for GET, 400 "at least 2 characters" exactly when the stripped term is shorter than 2; otherwise 400 "too long" exactly when the raw term exceeds 100; otherwise the first min(10, matches) title matches as (id, title, author) |
| BookshelfViews.BlankTermIsTooShort | advanced_features_and_security/LibraryProject/bookshelf/views.py:247-251 | the short-term check comes first: a GET with more than 100 spaces gets the short-term error |
| BookshelfViews.YearFilter | advanced_features_and_security/LibraryProject/bookshelf/views.py:125-140 | a year filter is never 0 (0 is falsy) |
| BookshelfViews.YearFilterCases | advanced_features_and_security/LibraryProject/bookshelf/views.py:125-140 | every nonzero integer written as text becomes the filter; "0", a missing year, "" and every text that is not an optionally signed run of digits mean no filter |
| BookshelfViews.SearchMatches | advanced_features_and_security/LibraryProject/bookshelf/views.py:134-141 | the rows (with multiplicity) passing every filter that is on: title and author icontains when not empty, year gte when set |
| BookshelfViews.TitleOrderIsTotalPreorder | advanced_features_and_security/LibraryProject/bookshelf/views.py:143 | ordering by title is total and transitive |
| BookshelfViews.FirstByTitle | advanced_features_and_security/LibraryProject/bookshelf/views.py:143 | the first 50 by title are sorted, min(50, matches) long, drawn from the matches, all of them when there are at most 50, and no match left out has a smaller title than one kept |
| BookshelfViews.NarrowingMatches | advanced_features_and_security/LibraryProject/bookshelf/views.py:132-141 | narrowing by title, then author, then year keeps exactly the rows that pass the whole form |
| BookshelfViews.NarrowQuery | advanced_features_and_security/LibraryProject/bookshelf/views.py:132-141 | the query built step by step holds exactly the matching rows |
| BookshelfViews.SecureSearch | advanced_features_and_security/LibraryProject/bookshelf/views.py:118-149 | non-GET renders no results and no search; a GET whose year filter lies outside 1..9999 is a server error, exactly then; otherwise at most 50 rows, sorted by title, all matching the sanitised title and author and the year filter, min(50, matches) of them, all of them when there are at most 50, and none left out sorts before one kept |
| UserManager.LastAt | advanced_features_and_security/LibraryProject/bookshelf/models.py:22 | the position of the last `@`, or none exactly when there is no `@` |
| UserManager.LowerDomainParts | advanced_features_and_security/LibraryProject/bookshelf/models.py:22 | splitting an address at its last `@` and lower-casing the domain keeps its length, the local part and the position of that `@`, and leaves no upper-case letter in the domain |
| UserManager.NormalizeEmailParts | advanced_features_and_security/LibraryProject/bookshelf/models.py:22 | normalising an address with an `@` keeps its stripped length, the local part as written, and the position of the last `@`, and leaves no upper-case letter after it |
| UserManager.NormalizeJoined | advanced_features_and_security/LibraryProject/bookshelf/models.py:22 | a stripped address `local@domain` normalises to `local@` + lower-cased domain |
| UserManager.NormalizeEmailIdempotent | advanced_features_and_security/LibraryProject/bookshelf/models.py:22 | normalising twice equals normalising once |
| UserManager.UserStore.CreateUser | advanced_features_and_security/LibraryProject/bookshelf/models.py:16-26 | "The Email field must be set" exactly for a missing or empty email, and nothing is saved; otherwise one row with the normalised email, the hashed (never raw) password and the extra fields |
| UserManager.UserStore.CreateSuperuser | advanced_features_and_security/LibraryProject/bookshelf/models.py:28-40 | both flags default to True; an explicit `is_staff` other than True fails first, then an `is_superuser` other than True; with both flags acceptable the email and username errors and the success case are exactly those of `create_user`; a saved superuser has the given username, the normalised email, the hashed password, both flags set, and keeps every given field |
| SetupGroups.Granted | advanced_features_and_security/LibraryProject/bookshelf/management/commands/setup_groups.py:32-49 | a group holds exactly the Book permissions among its configured codenames that exist |
| SetupGroups.GrantedSnoc | advanced_features_and_security/LibraryProject/bookshelf/management/commands/setup_groups.py:35-38 | granting one more codename adds its permission exactly when it exists |
| SetupGroups.Configured | advanced_features_and_security/LibraryProject/bookshelf/management/commands/setup_groups.py:22-29 | the groups after the command are the earlier groups plus the three configured ones |
| SetupGroups.ConfiguredCharacterized | advanced_features_and_security/LibraryProject/bookshelf/management/commands/setup_groups.py:28-49 | any table that keeps every group, adds the configured ones, gives each its grant and leaves the rest is the command's result |
| SetupGroups.ConfiguredIdempotent | advanced_features_and_security/LibraryProject/bookshelf/management/commands/setup_groups.py:29-38 | running the command twice leaves what running it once leaves |
| SetupGroups.ConfiguredExact | advanced_features_and_security/LibraryProject/bookshelf/management/commands/setup_groups.py:28-49 | no group is lost; configured groups hold exactly their grant (earlier permissions cleared); other groups are untouched |
| SetupGroups.GrantsNested | advanced_features_and_security/LibraryProject/bookshelf/management/commands/setup_groups.py:23-25 | Viewers ⊆ Editors ⊆ Admins, and only Admins can hold `can_delete` |
| SetupGroups.GrantLogReports | advanced_features_and_security/LibraryProject/bookshelf/management/commands/setup_groups.py:35-49 | each codename is reported added if it exists and not found otherwise; a missing one does not stop the rest |
| SetupGroups.GroupLogReports | advanced_features_and_security/LibraryProject/bookshelf/management/commands/setup_groups.py:35-58 | one group's lines: its grant report, then "created" exactly when it did not exist, "updated" exactly when it did |
| SetupGroups.LogBeforeGroupReports | advanced_features_and_security/LibraryProject/bookshelf/management/commands/setup_groups.py:28-58 | after i groups, created and updated reports name exactly the visited groups that were absent or present |
| SetupGroups.LogBeforePermissionReports | advanced_features_and_security/LibraryProject/bookshelf/management/commands/setup_groups.py:28-49 | after i groups, added and not-found reports cover exactly the visited groups' codenames |
| SetupGroups.AllNames | advanced_features_and_security/LibraryProject/bookshelf/management/commands/setup_groups.py:22-28 | the command visits exactly Viewers, Editors and Admins |
| SetupGroups.AdminsHoldEveryCodename | advanced_features_and_security/LibraryProject/bookshelf/management/commands/setup_groups.py:23-25 | a codename is configured for some group exactly when it is configured for Admins |
| SetupGroups.HandleLogReports | advanced_features_and_security/LibraryProject/bookshelf/management/commands/setup_groups.py:14-62 | created exactly for configured groups that were absent, updated exactly for those present, added for each existing configured codename, not found for each missing one; the last line is the summary |
| SetupGroups.ConfiguredStep | advanced_features_and_security/LibraryProject/bookshelf/management/commands/setup_groups.py:28-49 | one more turn of the loop configures the next group, which existed exactly when it existed at the start |
| SetupGroups.ConfiguredAtEnd | advanced_features_and_security/LibraryProject/bookshelf/management/commands/setup_groups.py:28-49 | after the last turn the table is the configured one |
| SetupGroups.GroupStore.GetOrCreate | advanced_features_and_security/LibraryProject/bookshelf/management/commands/setup_groups.py:29 | creates the group exactly when it is absent and reports that; never a second group of a name |
| SetupGroups.GroupStore.ClearPermissions | advanced_features_and_security/LibraryProject/bookshelf/management/commands/setup_groups.py:32 | the group holds nothing afterwards |
| SetupGroups.GroupStore.AddPermission | advanced_features_and_security/LibraryProject/bookshelf/management/commands/setup_groups.py:38 | the group gains the permission; nothing else changes |
| SetupGroups.GroupStore.GrantGroup | advanced_features_and_security/LibraryProject/bookshelf/management/commands/setup_groups.py:32-49 | the group ends with exactly `Granted`; the lines printed are `GrantLog` |
| SetupGroups.GroupStore.ConfigureGroup | advanced_features_and_security/LibraryProject/bookshelf/management/commands/setup_groups.py:29-58 | one loop turn: the group ends with exactly its grant; the lines end with created or updated, decided by prior existence |
| SetupGroups.GroupStore.Handle | advanced_features_and_security/LibraryProject/bookshelf/management/commands/setup_groups.py:14-62 | the group table becomes `Configured` of the old one; the permission table is untouched; the output is `HandleLog` |
| RoleViews.ViewTestsExact | django-models/views.py:5-16 | each view passes exactly for a profile role equal to 'Admin', 'Librarian' or 'Member'; no profile passes none; at most one passes |
| RoleViews.ViewTestsCaseSensitive | django-models/views.py:5-14 | "admin", "librarian" and "Member " pass nothing |
| RoleViews.ViewTestsAgreeWithRoleChecks | django-models/views.py:5-14 | without an explicit authentication test the lambdas still agree with the bookshelf `is_admin`, `is_librarian` and `is_member` |
| Accounts.FollowingIn | social_media_api/accounts/models.py:10-15 | `user.following` is exactly the users an edge from the user points to |
| Accounts.FollowersIn | social_media_api/accounts/models.py:14 | `user.followers` is exactly the users whose edge points at the user |
| Accounts.Cascade | social_media_api/accounts/models.py:22-31 | deleting a user keeps exactly the rows naming neither end, with their timestamps |
| Accounts.FollowersMirrorFollowing | social_media_api/accounts/models.py:10-31 | y follows x exactly when y is among x's followers |
| Accounts.FollowingIsDirected | social_media_api/accounts/models.py:10-12 | one row makes a follow b without b following a |
| Accounts.CascadeForgetsUser | social_media_api/accounts/models.py:22-31 | after a delete nobody follows the user and the user follows nobody; everyone else keeps their other edges |
| Accounts.FollowGraph.CreateUser | social_media_api/accounts/models.py:5-15 | a fresh id, no edges added |
| Accounts.FollowGraph.Follow | social_media_api/accounts/models.py:21-35 | unknown user exactly when an end is missing; already-following exactly when the pair has a row; otherwise the row is inserted with `now`; existing rows and their `created_at` never change |
| Accounts.FollowGraph.DeleteUser | social_media_api/accounts/models.py:22-31 | the user goes and the edge table becomes the cascade |
| Posts.ReadOnlyUnlessAuthenticated | social_media_api/posts/views.py:16-27 | anonymous callers get exactly GET, HEAD and OPTIONS; signed-in callers may use every method, with no owner check |
| Posts.PostStore.CreatePost | social_media_api/posts/views.py:20-21 | refused exactly for anonymous callers and succeeds exactly for signed-in ones; the post is appended with a fresh id and the requester as author, whatever the payload says |
| Posts.PostStore.CreateComment | social_media_api/posts/views.py:29-30 | refused exactly for anonymous callers and for an unknown post, and succeeds exactly otherwise; the comment is appended with the requester as author |
| Posts.TermLength | social_media_api/posts/views.py:17-18 | the length of the leading run of non-separators |
| Posts.SplitTerms | social_media_api/posts/views.py:17-18 | search terms are non-empty and contain no whitespace or comma |
| Posts.SplitTermsKeepsText | social_media_api/posts/views.py:17-18 | splitting loses only separators: the terms joined equal the parameter with separators deleted |
| Posts.DropNul | social_media_api/posts/views.py:17 | null characters are deleted and nothing else is |
| Posts.SearchPosts | social_media_api/posts/views.py:17-18 | keeps exactly the posts (with multiplicity) in which every term occurs in the title or the content, ignoring case |
| Posts.OneWordOneTerm | social_media_api/posts/views.py:17-18 | a word without separators is one term |
| Posts.SearchOneWord | social_media_api/posts/views.py:17-18 | a one-word search keeps exactly the posts whose title or content contains it |
| Posts.BlankSearchKeepsAll | social_media_api/posts/views.py:17-18 | a search of separators only keeps every post, in order |
| Posts.FeedCandidates | social_media_api/posts/views.py:39-40 | exactly the posts (with multiplicity) whose author is followed |
| Posts.NewestFirstIsTotalPreorder | social_media_api/posts/views.py:41 | newest-first is total and transitive |
| Posts.Feed | social_media_api/posts/views.py:33-41 | refused exactly for anonymous callers; otherwise exactly the posts by followed users, as often as stored, sorted newest first |
| Posts.FollowAddsTheirPosts | social_media_api/posts/views.py:37-41 | following someone new adds exactly their posts to the feed |
| Notifications.ForRecipient | social_media_api/notifications/views.py:12-14 | exactly the notifications (with multiplicity) addressed to the user |
| Notifications.TimestampOrderIsTotalPreorder | social_media_api/notifications/views.py:15 | newest-first by timestamp is total and transitive |
| Notifications.ListNotifications | social_media_api/notifications/views.py:8-15 | refused exactly for anonymous callers; otherwise exactly the requester's notifications, unchanged, as often as stored, newest first |
| Notifications.ListsArePrivate | social_media_api/notifications/views.py:12-14 | two users' lists share no notification and together hold every notification addressed to either |
| Blog.CleanField | django_blog/blog/models.py:8-9 | a required field passes exactly when its stripped value is non-empty, within the length limit and free of NUL characters, and the stripped value is kept; an empty value gets only "This field is required."; otherwise the length message and "Null characters are not allowed." appear exactly when their check fails, in that order |
| Blog.CleanPostForm | django_blog/blog/forms.py:7-10 | valid exactly when the stripped title is 1 to 200 characters, the stripped content is non-empty, and neither holds a NUL character; errors name only title and content |
| Blog.FindPost | django_blog/blog/views.py:71 | finds the index of the post with the key, or none exactly when there is none |
| Blog.OwnerGate | django_blog/blog/views.py:66-79 | redirect to login exactly when anonymous; 404 exactly for an unknown post; 403 exactly for a non-owner; success only for the author |
| Blog.PostDetail | django_blog/blog/views.py:54-56 | public: fails with 404 exactly when the id is unknown |
| Blog.RemoveAtKeepsOthers | django_blog/blog/views.py:73-76 | removing a row removes exactly the post with its key and keeps keys distinct |
| Blog.OnlyOwnerPasses | django_blog/blog/views.py:70-79 | the gate passes exactly for the logged-in author of an existing post |
| Blog.BlogStore.ListPosts | django_blog/blog/views.py:47-50 | public: every post |
| Blog.BlogStore.CreatePost | django_blog/blog/views.py:58-65 | login required; GET and HEAD render the form, OPTIONS lists the methods, PATCH, DELETE and TRACE get 405, all saving nothing; POST and PUT run the form, PUT on empty data, so it never saves; invalid forms show their errors; a valid POST is saved once with the logged-in user as author |
| Blog.BlogStore.UpdatePost | django_blog/blog/views.py:66-72 | the owner gate answers first; then the same method dispatch as create; a valid POST replaces only title and content of that post |
| Blog.BlogStore.DeletePost | django_blog/blog/views.py:73-79 | the owner gate answers first; GET and HEAD render the confirmation page, OPTIONS lists the methods, and PUT, PATCH and TRACE get 405, all deleting nothing; POST and DELETE remove exactly that post and redirect to "post-list" |
| Blog.BlogStore.UpdateProfile | django_blog/blog/views.py:35-43 | login required; a POST stores the submitted e-mail and redirects to "profile"; anything else changes nothing |
| ApiLibrary.BooksOf | advanced-api-project/api/models.py:24-28 | `author.books` is exactly the books that reference the author |
| ApiLibrary.CascadeAuthor | advanced-api-project/api/models.py:27 | deleting an author keeps exactly the books of other authors, unchanged |
| ApiLibrary.CascadeRemovesExactlyTheirBooks | advanced-api-project/api/models.py:24-28 | after the cascade the author has no books, others keep all theirs, and the removed rows are exactly the author's books |
| ApiLibrary.BookErrors | advanced-api-project/api/models.py:22-28 | a title fails exactly when empty or over 255; a year exactly when missing; an author exactly when unknown |
| ApiLibrary.Library.CreateAuthor | advanced-api-project/api/models.py:6-14 | a name of 1 to 255 characters is stored under a fresh key; otherwise nothing changes |
| ApiLibrary.Library.CreateBook | advanced-api-project/api/test_views.py:26-35 | a valid payload adds exactly one row referencing an existing author; an invalid one names its failing fields and adds nothing |
| ApiLibrary.Library.UpdateBook | advanced-api-project/api/test_views.py:37-43 | a valid payload replaces the stored row, title included; unknown ids and invalid payloads change nothing |
| ApiLibrary.Library.DeleteBook | advanced-api-project/api/test_views.py:45-49 | exactly that row goes, so the count drops by one |
| ApiLibrary.Library.DeleteAuthor | advanced-api-project/api/models.py:24-28 | the author goes with exactly their books; every remaining book still references a stored author |

## Left out

- Unicode: `str.strip`, `isspace`, `\d`, `re.IGNORECASE` and `int()` are
  modelled on ASCII. Unicode whitespace, Unicode digits and Unicode case
  folding are not modelled.
- `int()` underscores (`1_000`) are not modelled. Neither is `$` matching
  before a trailing newline in the ISBN pattern.
- Rendering, flash messages, logging, CSRF, HTTP status plumbing and JSON
  encoding are left out. So are URL reversing and ORM persistence; the
  tables are in-memory sequences and maps.
- Password hashing is left out: `HashOf(p)` stands for the digest `set_password` stores.
- `date.today()` and the creation clocks are parameters (`today`, `now`).
- The order of rows with equal sort keys is left open, as the database leaves it.
- `bookshelf/views.py`, `bookshelf/forms.py` and
  `bookshelf/management/commands/setup_groups.py` (all under
  `advanced_features_and_security/LibraryProject/`) import a `Book` model
  that `bookshelf/models.py` does not define, and `bookshelf/views.py`
  also imports an `ExampleForm` that `bookshelf/forms.py` does not define.
  As written, these modules fail at import. The catalogue is modelled as
  its own datatype.
- BookshelfViews.SecureBookCreate: the validation `BookForm` gets from the
  `Book` model's fields is the input `fieldErrors`, because `Book` is not
  defined: required fields, date parsing and each field's own rules. The
  submitted `Date` is the value after parsing, so the datatype admits dates,
  such as month 13, that parsing would already have rejected.
- Serializers (`social_media_api/posts/serializers.py` and the API
  project's serializers) are not part of this model. Comment creation
  assumes the serializer rejects an unknown post. Book payload validation
  follows the model fields.
- Update and delete through `PostViewSet` and `CommentViewSet` are covered
  only by the permission predicate. The row changes they make are not
  modelled, because the views add nothing of their own to them.
- Posts.SearchTerms: the newer `SearchFilter` syntax for quoted phrases is not modelled; terms are split on whitespace and commas only.
- Accounts.FollowGraph.Follow: a user may follow themselves; the code has no check against it.
- `django_blog/blog/views.py` would fail at import: `post` at line 55,
  `LoginRequireMixin` at line 58, and `messages` is never imported for
  line 40. The model follows the evidently intended `Post` and
  `LoginRequiredMixin`; the success message is not modelled.
- Blog.BlogStore.CreatePost: the success response is modelled as `Saved`; `Post` defines no `get_absolute_url`, so the code's redirect target is undefined.
- Blog.BlogStore.UpdatePost: the success response is modelled as `Saved`, for the same reason.
- Blog.BlogStore.UpdateProfile: a POST without `email` is modelled as refused with a required-field error; as written, the code would try to store `None` in a non-null column.
- ApiLibrary.BookErrors: the backend's integer-range validators on `publication_year` are not modelled; their bounds depend on the database backend and the Django version, which the repository does not pin.
- `advanced-api-project/api/views.py` puts `IsAuthenticated` in front of
  book create, update and delete, and names `AllowAny` and `filters`
  without importing them. The `ApiLibrary.Library` methods model what
  those endpoints do to the tables. The permission gates and the list
  view's filter, search and ordering backends are not modelled.
- The registration view, the token and login views of the social API,
  settings, admin registrations, URL routes and the manual test scripts
  hold no logic of their own beyond the framework.
- The like and unlike routes and the creation of notifications are not
  modelled: the views they name do not exist in the code.
