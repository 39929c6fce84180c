/** The custom user model, identified by email address, and its manager's
    `create_user` and `create_superuser`. */
module Users {
  import opened Results

  /** A stored user. `password` holds the hash; `lastLogin` is the printed
      timestamp of the last login, `None` before the first. */
  datatype User = User(
    id: string,
    email: string,
    password: string,
    fullName: string,
    shortName: string,
    isStaff: bool,
    isSuperuser: bool,
    isActive: bool,
    lastLogin: Option<string>)

  /** The keyword arguments a caller may pass on; `None` means not given. */
  datatype ExtraFields = ExtraFields(
    fullName: Option<string>,
    shortName: Option<string>,
    isStaff: Option<bool>,
    isSuperuser: Option<bool>,
    isActive: Option<bool>)

  const MissingEmail := "Users must have an email address"
  const StaffRequired := "Superuser must have is_staff=True."
  const SuperuserRequired := "Superuser must have is_superuser=True."

  /** `self.model(email=email, **extra_fields)` before the password is set:
      what is not given takes the field's default (empty names, not staff,
      not superuser, active, never logged in). */
  function Build(id: string, email: string, extra: ExtraFields): (u: User)
    ensures u.id == id && u.email == email && u.password == "" && u.lastLogin.None?
    ensures extra.fullName.Some? ==> u.fullName == extra.fullName.value
    ensures extra.shortName.Some? ==> u.shortName == extra.shortName.value
    ensures extra.fullName.None? ==> u.fullName == ""
    ensures extra.shortName.None? ==> u.shortName == ""
    ensures extra.isStaff.Some? ==> u.isStaff == extra.isStaff.value
    ensures extra.isSuperuser.Some? ==> u.isSuperuser == extra.isSuperuser.value
    ensures extra.isActive.Some? ==> u.isActive == extra.isActive.value
    ensures extra.isStaff.None? ==> !u.isStaff
    ensures extra.isSuperuser.None? ==> !u.isSuperuser
    ensures extra.isActive.None? ==> u.isActive
  {
    User(id, email, "", extra.fullName.GetOr(""), extra.shortName.GetOr(""),
      extra.isStaff.GetOr(false), extra.isSuperuser.GetOr(false), extra.isActive.GetOr(true), None)
  }

  /** A user without extra fields is an active, ordinary account. */
  lemma PlainUserDefaults(id: string, email: string)
    ensures var u := Build(id, email, ExtraFields(None, None, None, None, None));
      u.isActive && !u.isStaff && !u.isSuperuser && u.lastLogin.None? && u.email == email
  {
  }

  /** Python's truth value of the `email` argument. */
  predicate Truthy(email: Option<string>)
  {
    email.Some? && email.value != ""
  }

  /** The table's unique keys: the primary key and the email address. */
  predicate Taken(users: seq<User>, id: string, email: string)
  {
    exists i :: 0 <= i < |users| && (users[i].id == id || users[i].email == email)
  }

  predicate UniqueKeys(users: seq<User>)
  {
    forall i, j :: 0 <= i < j < |users| ==> users[i].id != users[j].id && users[i].email != users[j].email
  }

  /** What `create_user` returns, for a table `users`: `ValueError` on a
      false email; otherwise the user with the normalised email and the hashed
      password, which the insert refuses when a key is taken. Normalising
      and hashing are the parameters `normalize` and `hash`. */
  function Created(users: seq<User>, email: Option<string>, password: string, extra: ExtraFields, id: string,
                   normalize: string -> string, hash: string -> string): (r: Result<User, PyError>)
    ensures r.Err? <==> !Truthy(email) || Taken(users, id, normalize(email.value))
    ensures !Truthy(email) ==> r == Err(ValueError(MissingEmail))
    ensures r.Ok? ==> r.value.email == normalize(email.value) && r.value.password == hash(password) && r.value.id == id
    ensures r.Ok? ==> r.value.isActive == extra.isActive.GetOr(true)
    ensures r.Ok? ==> r.value.isStaff == extra.isStaff.GetOr(false) && r.value.isSuperuser == extra.isSuperuser.GetOr(false)
  {
    if !Truthy(email) then Err(ValueError(MissingEmail))
    else
      var u := Build(id, normalize(email.value), extra).(password := hash(password));
      if Taken(users, id, u.email) then Err(IntegrityError) else Ok(u)
  }

  /** Adding a created user keeps the keys unique. */
  lemma CreatedKeepsKeysUnique(users: seq<User>, email: Option<string>, password: string, extra: ExtraFields,
                               id: string, normalize: string -> string, hash: string -> string)
    requires UniqueKeys(users)
    requires Created(users, email, password, extra, id, normalize, hash).Ok?
    ensures UniqueKeys(users + [Created(users, email, password, extra, id, normalize, hash).value])
  {
    var u := Created(users, email, password, extra, id, normalize, hash).value;
    var all := users + [u];
    forall i, j | 0 <= i < j < |all| ensures all[i].id != all[j].id && all[i].email != all[j].email {
      assert all[i] == users[i];
      if j < |users| { assert all[j] == users[j]; }
    }
  }

  /** `setdefault` of the three flags: a flag the caller gave is kept, an
      absent one becomes true. */
  function SuperuserFields(extra: ExtraFields): (fields: ExtraFields)
    ensures fields.isStaff.Some? && fields.isSuperuser.Some? && fields.isActive.Some?
    ensures extra.isStaff.Some? ==> fields.isStaff == extra.isStaff
    ensures extra.isSuperuser.Some? ==> fields.isSuperuser == extra.isSuperuser
    ensures extra.isActive.Some? ==> fields.isActive == extra.isActive
    ensures fields.fullName == extra.fullName && fields.shortName == extra.shortName
  {
    extra.(isStaff := Some(extra.isStaff.GetOr(true)),
           isSuperuser := Some(extra.isSuperuser.GetOr(true)),
           isActive := Some(extra.isActive.GetOr(true)))
  }

  /** `has_perm`: every user has every permission. */
  function HasPerm(u: User, perm: string): (r: bool)
    ensures r
  {
    true
  }

  /** `has_module_perms`: every user may see every app. */
  function HasModulePerms(u: User, appLabel: string): (r: bool)
    ensures r
  {
    true
  }

  /** `json()`: the five keys, in order, with `last_login` printed as `None`
      before the first login. */
  function ToJson(u: User): (r: seq<(string, string)>)
    ensures |r| == 5
    ensures [r[0].0, r[1].0, r[2].0, r[3].0, r[4].0] == ["id", "full_name", "short_name", "email", "last_login"]
    ensures r[0].1 == u.id && r[1].1 == u.fullName && r[2].1 == u.shortName && r[3].1 == u.email
    ensures r[4].1 == if u.lastLogin.None? then "None" else u.lastLogin.value
  {
    [("id", u.id), ("full_name", u.fullName), ("short_name", u.shortName), ("email", u.email),
     ("last_login", if u.lastLogin.None? then "None" else u.lastLogin.value)]
  }

  /** The user table, as the manager sees it. */
  class UserManager {
    var users: seq<User>

    constructor (initial: seq<User>)
      ensures users == initial
    {
      users := initial;
    }

    /** `create_user`: on success the new user is saved at the end of the
        table; on any exception nothing is saved. */
    method CreateUser(email: Option<string>, password: string, extra: ExtraFields, id: string,
                      normalize: string -> string, hash: string -> string) returns (r: Result<User, PyError>)
      modifies this
      ensures r == Created(old(users), email, password, extra, id, normalize, hash)
      ensures r.Ok? ==> users == old(users) + [r.value]
      ensures r.Err? ==> users == old(users)
      ensures old(UniqueKeys(users)) ==> UniqueKeys(users)
    {
      if !Truthy(email) {
        return Err(ValueError(MissingEmail));
      }
      var normalized := normalize(email.value);
      var user := Build(id, normalized, extra);
      user := user.(password := hash(password));
      if Taken(users, id, user.email) {
        return Err(IntegrityError);
      }
      if UniqueKeys(users) {
        CreatedKeepsKeysUnique(users, email, password, extra, id, normalize, hash);
      }
      users := users + [user];
      r := Ok(user);
    }

    /** `create_superuser`: absent flags default to true; a staff flag that is
        not true is refused first, then a superuser flag that is not true;
        otherwise the user is created as by `create_user`. */
    method CreateSuperuser(email: Option<string>, password: string, extra: ExtraFields, id: string,
                           normalize: string -> string, hash: string -> string) returns (r: Result<User, PyError>)
      modifies this
      ensures extra.isStaff == Some(false) ==> r == Err(ValueError(StaffRequired))
      ensures extra.isStaff != Some(false) && extra.isSuperuser == Some(false) ==> r == Err(ValueError(SuperuserRequired))
      ensures extra.isStaff != Some(false) && extra.isSuperuser != Some(false) ==>
        r == Created(old(users), email, password, SuperuserFields(extra), id, normalize, hash)
      ensures r.Ok? ==> users == old(users) + [r.value]
      ensures r.Err? ==> users == old(users)
      ensures old(UniqueKeys(users)) ==> UniqueKeys(users)
    {
      var fields := extra;
      if fields.isStaff.None? {
        fields := fields.(isStaff := Some(true));
      }
      if fields.isSuperuser.None? {
        fields := fields.(isSuperuser := Some(true));
      }
      if fields.isActive.None? {
        fields := fields.(isActive := Some(true));
      }
      assert fields == SuperuserFields(extra);
      if fields.isStaff != Some(true) {
        assert extra.isStaff.GetOr(true) != true;
        return Err(ValueError(StaffRequired));
      }
      if fields.isSuperuser != Some(true) {
        assert extra.isSuperuser.GetOr(true) != true;
        return Err(ValueError(SuperuserRequired));
      }
      r := CreateUser(email, password, fields, id, normalize, hash);
    }
  }

  /** A superuser that is created is staff and superuser, and active unless
      the caller explicitly said otherwise. */
  lemma SuperuserFlags(users: seq<User>, email: Option<string>, password: string, extra: ExtraFields, id: string,
                       normalize: string -> string, hash: string -> string)
    requires Created(users, email, password, SuperuserFields(extra), id, normalize, hash).Ok?
    ensures var u := Created(users, email, password, SuperuserFields(extra), id, normalize, hash).value;
      && (extra.isStaff != Some(false) ==> u.isStaff)
      && (extra.isSuperuser != Some(false) ==> u.isSuperuser)
      && u.isActive == (extra.isActive != Some(false))
  {
  }
}
