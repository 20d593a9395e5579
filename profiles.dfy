/** The user a role check sees: anonymous, or signed in with or without a
    related `userprofile` row whose `role` is free text. */
module Profiles {
  import opened Wrappers

  datatype UserProfile = UserProfile(role: string)

  datatype SiteUser = AnonymousUser | SignedIn(profile: Option<UserProfile>)

  /** `hasattr(u, 'userprofile') and u.userprofile.role == role`: an
      anonymous user has no profile, so it never has a role. */
  predicate ProfileRoleIs(u: SiteUser, role: string) {
    u.SignedIn? && u.profile.Some? && u.profile.value.role == role
  }
}
