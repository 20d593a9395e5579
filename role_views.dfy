/** The three `user_passes_test` lambdas guarding the admin, librarian and
    member pages of the `django-models` project. */
module RoleViews {
  import opened Wrappers
  import opened Profiles
  import BookshelfViews

  /** `hasattr(u, 'userprofile') and u.userprofile.role == 'Admin'`. */
  predicate AdminViewPasses(u: SiteUser) { ProfileRoleIs(u, "Admin") }

  /** The same test with role `'Librarian'`. */
  predicate LibrarianViewPasses(u: SiteUser) { ProfileRoleIs(u, "Librarian") }

  /** The same test with role `'Member'`. */
  predicate MemberViewPasses(u: SiteUser) { ProfileRoleIs(u, "Member") }

  /** Each view passes exactly for a user with a profile whose role is that
      exact string; a user without a profile (an anonymous one included)
      passes none; at most one of the three passes for any user. */
  lemma ViewTestsExact(u: SiteUser)
    ensures AdminViewPasses(u) <==> u.SignedIn? && u.profile == Some(UserProfile("Admin"))
    ensures LibrarianViewPasses(u) <==> u.SignedIn? && u.profile == Some(UserProfile("Librarian"))
    ensures MemberViewPasses(u) <==> u.SignedIn? && u.profile == Some(UserProfile("Member"))
    ensures u.AnonymousUser? || u.profile.None? ==>
              !AdminViewPasses(u) && !LibrarianViewPasses(u) && !MemberViewPasses(u)
    ensures !(AdminViewPasses(u) && LibrarianViewPasses(u)) && !(AdminViewPasses(u) && MemberViewPasses(u))
         && !(LibrarianViewPasses(u) && MemberViewPasses(u))
  {
  }

  /** The role comparison is case- and space-sensitive. */
  lemma ViewTestsCaseSensitive()
    ensures !AdminViewPasses(SignedIn(Some(UserProfile("admin"))))
    ensures !LibrarianViewPasses(SignedIn(Some(UserProfile("librarian"))))
    ensures !MemberViewPasses(SignedIn(Some(UserProfile("Member "))))
  {
  }

  /** Without an explicit authentication test these lambdas still agree with
      the library app's `is_admin`, `is_librarian` and `is_member`, because
      an anonymous user never has a profile. */
  lemma ViewTestsAgreeWithRoleChecks(u: SiteUser)
    ensures AdminViewPasses(u) <==> BookshelfViews.IsAdmin(u)
    ensures LibrarianViewPasses(u) <==> BookshelfViews.IsLibrarian(u)
    ensures MemberViewPasses(u) <==> BookshelfViews.IsMember(u)
  {
  }
}
