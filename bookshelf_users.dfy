/** `CustomUserManager` of the bookshelf app: `create_user` and
    `create_superuser` over a table of users. Password hashing is not
    modelled: `HashOf(p)` stands for the digest `set_password(p)` stores. */
module UserManager {
  import opened Wrappers
  import opened Text

  /** A value passed as an extra keyword argument. */
  datatype FieldValue = BoolValue(b: bool) | IntValue(i: int) | TextValue(s: string) | NoneValue

  /** What `set_password` stores: a digest of the password, or Django's
      unusable-password marker when the password is `None`. */
  datatype StoredPassword = Unusable | HashOf(secret: string)

  datatype UserRow = UserRow(username: string, email: string, password: StoredPassword,
                             extra: map<string, FieldValue>)

  datatype ManagerError = EmailRequired | StaffRequired | SuperuserRequired | DuplicateUsername

  function ErrorMessage(e: ManagerError): string {
    match e
    case EmailRequired => "The Email field must be set"
    case StaffRequired => "Superuser must have is_staff=True."
    case SuperuserRequired => "Superuser must have is_superuser=True."
    case DuplicateUsername => "UNIQUE constraint failed: username"
  }

  /** Python truthiness of a field value. */
  predicate Truthy(v: FieldValue) {
    match v
    case BoolValue(b) => b
    case IntValue(i) => i != 0
    case TextValue(s) => s != ""
    case NoneValue => false
  }

  /** The `is_staff` and `is_superuser` columns; both default to False. */
  predicate IsStaff(u: UserRow) {
    "is_staff" in u.extra && Truthy(u.extra["is_staff"])
  }

  predicate IsSuperuser(u: UserRow) {
    "is_superuser" in u.extra && Truthy(u.extra["is_superuser"])
  }

  /** The flags `create_superuser` accepts: each of `is_staff` and
      `is_superuser` either left out (it then defaults to True) or True. */
  predicate SuperuserFlagsOk(extra: map<string, FieldValue>) {
    && ("is_staff" !in extra || extra["is_staff"] == BoolValue(true))
    && ("is_superuser" !in extra || extra["is_superuser"] == BoolValue(true))
  }

  /** The position of the last '@', if there is one (`rsplit('@', 1)`). */
  function LastAt(s: string): (r: Option<nat>)
    ensures r.Some? ==> r.value < |s| && s[r.value] == '@' && '@' !in s[r.value + 1..]
    ensures r.None? ==> '@' !in s
  {
    if s == [] then None
    else if s[|s| - 1] == '@' then Some(|s| - 1)
    else
      var r := LastAt(s[..|s| - 1]);
      assert s == s[..|s| - 1] + [s[|s| - 1]];
      r
  }

  /** `BaseUserManager.normalize_email`: split the stripped address at its
      last '@' and lower-case the domain; an address without '@' is
      returned as given. */
  function NormalizeEmail(email: string): string {
    var t := Strip(email);
    match LastAt(t)
    case None => email
    case Some(i) => t[..i] + "@" + LowerString(t[i + 1..])
  }

  lemma {:induction false} LastAtOfJoin(local: string, domain: string)
    requires '@' !in domain
    ensures LastAt(local + "@" + domain) == Some(|local|)
    decreases |domain|
  {
    var s := local + "@" + domain;
    if domain != [] {
      var d := domain[..|domain| - 1];
      assert s[..|s| - 1] == local + "@" + d;
      assert domain[|domain| - 1] in domain;
      LastAtOfJoin(local, d);
    }
  }

  lemma LowerStringIdempotent(s: string)
    ensures LowerString(LowerString(s)) == LowerString(s)
  {
  }

  /** Splitting an address at its last '@' and lower-casing the domain keeps
      the address's length, its local part and the position of that '@',
      and leaves no upper-case letter in the domain. */
  lemma {:induction false} LowerDomainParts(t: string, i: nat)
    requires LastAt(t) == Some(i)
    ensures var n := t[..i] + "@" + LowerString(t[i + 1..]);
            && |n| == |t|
            && n[..i] == t[..i]
            && LastAt(n) == Some(i)
            && forall k :: i < k < |t| ==> n[k] == Lower(t[k]) && !('A' <= n[k] <= 'Z')
  {
    var local, raw := t[..i], t[i + 1..];
    var domain := LowerString(raw);
    var n := local + "@" + domain;
    assert n[..i] == local;
    NoAtAfterLower(raw);
    LastAtOfJoin(local, domain);
    forall k | i < k < |t| ensures n[k] == Lower(t[k]) && !('A' <= n[k] <= 'Z') {
      assert n[k] == domain[k - i - 1];
      assert raw[k - i - 1] == t[k];
    }
  }

  /** Normalising keeps the stripped address's length, its local part and
      the position of its last '@', and leaves no upper-case letter in the
      domain. */
  lemma {:induction false} NormalizeEmailParts(email: string)
    requires '@' in Strip(email)
    ensures var t := Strip(email);
            var i := LastAt(t).value;
            var n := NormalizeEmail(email);
            && |n| == |t|
            && n[..i] == t[..i]
            && LastAt(n) == Some(i)
            && forall k :: i < k < |t| ==> n[k] == Lower(t[k]) && !('A' <= n[k] <= 'Z')
  {
    var t := Strip(email);
    var i := LastAt(t).value;
    assert NormalizeEmail(email) == t[..i] + "@" + LowerString(t[i + 1..]);
    LowerDomainParts(t, i);
  }

  lemma NoAtAfterLower(s: string)
    requires '@' !in s
    ensures '@' !in LowerString(s)
  {
    forall k | 0 <= k < |s| ensures LowerString(s)[k] != '@' {
      assert s[k] in s;
    }
  }

  lemma JoinIsStripped(local: string, domain: string)
    requires local == [] || !IsSpace(local[0])
    requires domain == [] || !IsSpace(domain[|domain| - 1])
    ensures Strip(local + "@" + domain) == local + "@" + domain
  {
    var r := local + "@" + domain;
    assert !IsSpace(r[0]) by {
      if local != [] { assert r[0] == local[0]; }
    }
    assert !IsSpace(r[|r| - 1]) by {
      if domain != [] { assert r[|r| - 1] == domain[|domain| - 1]; }
    }
    StripUnchanged(r);
  }

  lemma NormalizeStripped(local: string, domain: string)
    requires Strip(local + "@" + domain) == local + "@" + domain
    requires LastAt(local + "@" + domain) == Some(|local|)
    ensures NormalizeEmail(local + "@" + domain) == local + "@" + LowerString(domain)
  {
    var r := local + "@" + domain;
    assert r[..|local|] == local;
    assert r[|local| + 1..] == domain;
  }

  /** An address already split and stripped normalises by lower-casing its domain. */
  lemma NormalizeJoined(local: string, domain: string)
    requires '@' !in domain
    requires local == [] || !IsSpace(local[0])
    requires domain == [] || !IsSpace(domain[|domain| - 1])
    ensures NormalizeEmail(local + "@" + domain) == local + "@" + LowerString(domain)
  {
    JoinIsStripped(local, domain);
    LastAtOfJoin(local, domain);
    NormalizeStripped(local, domain);
  }

  /** Normalising twice gives the same address as normalising once. */
  lemma NormalizeEmailIdempotent(email: string)
    ensures NormalizeEmail(NormalizeEmail(email)) == NormalizeEmail(email)
  {
    var t := Strip(email);
    if LastAt(t).Some? {
      var i := LastAt(t).value;
      var raw := t[i + 1..];
      var local, domain := t[..i], LowerString(raw);
      assert local + "@" + domain == NormalizeEmail(email);
      NoAtAfterLower(raw);
      assert local != [] ==> local[0] == t[0];
      assert domain != [] ==> domain[|domain| - 1] == Lower(t[|t| - 1]);
      NormalizeJoined(local, domain);
      LowerStringIdempotent(raw);
    }
  }

  /** The user table behind `CustomUser.objects`. Usernames are unique (the
      `username` column of `AbstractUser`). */
  class UserStore {
    var users: seq<UserRow>

    ghost predicate Valid()
      reads this
    {
      forall i, j :: 0 <= i < j < |users| ==> users[i].username != users[j].username
    }

    function Usernames(): set<string>
      reads this
    {
      set u | u in users :: u.username
    }

    constructor ()
      ensures Valid() && users == []
    {
      users := [];
    }

    /** `create_user`: an empty or missing email raises and nothing is
        saved; otherwise the normalised email, the hashed password and the
        extra fields are saved as a new row. */
    method CreateUser(username: string, email: Option<string>, password: Option<string>,
                      extra: map<string, FieldValue>)
      returns (r: Result<UserRow, ManagerError>)
      requires Valid()
      modifies this
      ensures Valid()
      ensures r == Failure(EmailRequired) <==> email.None? || email == Some("")
      ensures r == Failure(DuplicateUsername) <==> email.Some? && email.value != "" && username in old(Usernames())
      ensures r.Failure? ==> users == old(users) && r.error in {EmailRequired, DuplicateUsername}
      ensures r.Success? ==> users == old(users) + [r.value]
      ensures r.Success? ==> r.value.username == username && r.value.email == NormalizeEmail(email.value)
                             && r.value.extra == extra
      ensures r.Success? ==> r.value.password == if password.Some? then HashOf(password.value) else Unusable
    {
      if email.None? || email.value == "" {
        return Failure(EmailRequired);
      }
      var normalized := NormalizeEmail(email.value);
      var stored := if password.Some? then HashOf(password.value) else Unusable;
      var user := UserRow(username, normalized, stored, extra);
      if username in Usernames() {
        return Failure(DuplicateUsername);
      }
      users := users + [user];
      r := Success(user);
    }

    /** `create_superuser`: default both flags to True, insist that each is
        exactly True (in this order), then `create_user`. */
    method CreateSuperuser(username: string, email: Option<string>, password: Option<string>,
                           extra: map<string, FieldValue>)
      returns (r: Result<UserRow, ManagerError>)
      requires Valid()
      modifies this
      ensures Valid()
      ensures r == Failure(StaffRequired) <==> "is_staff" in extra && extra["is_staff"] != BoolValue(true)
      ensures r == Failure(SuperuserRequired) <==>
                ("is_staff" !in extra || extra["is_staff"] == BoolValue(true))
                && "is_superuser" in extra && extra["is_superuser"] != BoolValue(true)
      ensures r == Failure(EmailRequired) <==> SuperuserFlagsOk(extra) && (email.None? || email == Some(""))
      ensures r == Failure(DuplicateUsername) <==>
                SuperuserFlagsOk(extra) && email.Some? && email.value != "" && username in old(Usernames())
      ensures r.Success? <==>
                SuperuserFlagsOk(extra) && email.Some? && email.value != "" && username !in old(Usernames())
      ensures r.Failure? ==> users == old(users)
      ensures r.Success? ==> users == old(users) + [r.value]
      ensures r.Success? ==> r.value.username == username && r.value.email == NormalizeEmail(email.value)
      ensures r.Success? ==> r.value.password == if password.Some? then HashOf(password.value) else Unusable
      ensures r.Success? ==> IsStaff(r.value) && IsSuperuser(r.value)
      ensures r.Success? ==> r.value.extra.Keys == extra.Keys + {"is_staff", "is_superuser"}
                             && forall k :: k in extra ==> r.value.extra[k] == extra[k]
    {
      var fields := extra;
      if "is_staff" !in fields {
        fields := fields["is_staff" := BoolValue(true)];
      }
      if "is_superuser" !in fields {
        fields := fields["is_superuser" := BoolValue(true)];
      }
      if fields["is_staff"] != BoolValue(true) {
        return Failure(StaffRequired);
      }
      if fields["is_superuser"] != BoolValue(true) {
        return Failure(SuperuserRequired);
      }
      r := CreateUser(username, email, password, fields);
    }
  }
}
