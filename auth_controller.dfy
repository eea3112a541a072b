/**
 * Account registration: a new user is refused when the username or the
 * email is already stored (each tested by exact match), and otherwise
 * receives the roles its request names, or the patient role when it names
 * none. Every requested role string is upper-cased, prefixed with `ROLE_`
 * and must name a constant of the role enumeration and a row of the role
 * table.
 */
module AuthController {
  import opened Common
  import opened Entities
  import opened Persistence
  import opened Repositories
  import opened UserPrinciple
  import opened Authorization

  /**
   * The registration payload. `role` is null when the client sends no role
   * list; an element of the list is null when the client sends `null` in it.
   */
  datatype SignUpRequest = SignUpRequest(
    username: string,
    email: string,
    password: string,
    role: Option<seq<Option<string>>>)

  const UsernameTakenMessage := "Username is already taken"
  const EmailTakenMessage := "Email is already in use"
  const RegisteredMessage := "User registered successfully"
  const DefaultRoleMissingMessage := "Role not found: ROLE_PATIENT"

  /** `ERole.valueOf("ROLE_" + s.toUpperCase())`, with `None` for the `IllegalArgumentException`. */
  function ParseRole(s: string): (r: Option<ERole>)
    ensures forall e: ERole :: r == Some(e) <==> Upper(s) == ShortName(e)
  {
    forall e: ERole ensures Name(e) == "ROLE_" + Upper(s) <==> Upper(s) == ShortName(e) {
      NameIsPrefixedShortName(e);
      PrefixCancels("ROLE_", Upper(s), ShortName(e));
    }
    ValueOf("ROLE_" + Upper(s))
  }

  lemma PrefixCancels(p: string, a: string, b: string)
    ensures p + a == p + b <==> a == b
  {
    if p + a == p + b {
      assert a == (p + a)[|p|..] && b == (p + b)[|p|..];
    }
  }

  /**
   * One pass of the role loop: a null element fails in `toUpperCase` with a
   * NullPointerException, which the loop's catch does not handle; an unknown
   * name is reported as an invalid role, and a known name without a row in
   * the role table as a missing one.
   */
  function ResolveRole(s: Option<string>, roleNames: set<ERole>): (r: Result<ERole>)
    ensures s.None? ==> r == Err(NullPointer)
    ensures s.Some? && ParseRole(s.value).None? ==> r == Err(IllegalArgument("Invalid role: " + s.value))
    ensures s.Some? && ParseRole(s.value).Some? && ParseRole(s.value).value !in roleNames ==>
      r == Err(NotFound("Role not found: " + Name(ParseRole(s.value).value)))
    ensures forall e: ERole :: r == Ok(e) <==> s.Some? && Upper(s.value) == ShortName(e) && e in roleNames
  {
    match s
    case None => Err(NullPointer)
    case Some(str) =>
      match ParseRole(str)
      case None => Err(IllegalArgument("Invalid role: " + str))
      case Some(e) => if e in roleNames then Ok(e) else Err(NotFound("Role not found: " + Name(e)))
  }

  /**
   * The role loop over the request's strings in iteration order: the first
   * string that fails decides the error; otherwise the set of all roles.
   */
  function ResolveAll(strs: seq<Option<string>>, roleNames: set<ERole>): (r: Result<set<ERole>>)
    ensures r.Ok? ==> r.value <= roleNames
    ensures r.Ok? ==> |r.value| <= |strs|
    ensures r.Ok? && strs != [] ==> r.value != {}
  {
    if strs == [] then Ok({})
    else
      match ResolveAll(strs[..|strs| - 1], roleNames)
      case Err(e) => Err(e)
      case Ok(roles) =>
        match ResolveRole(strs[|strs| - 1], roleNames)
        case Err(e) => Err(e)
        case Ok(role) => Ok(roles + {role})
  }

  /** A failed loop reports the error of one of the request's strings. */
  lemma {:induction false} FailureNamesAString(strs: seq<Option<string>>, roleNames: set<ERole>)
    requires ResolveAll(strs, roleNames).Err?
    ensures exists s :: s in strs && ResolveRole(s, roleNames) == Err(ResolveAll(strs, roleNames).error)
    decreases |strs|
  {
    var init, last := strs[..|strs| - 1], strs[|strs| - 1];
    if ResolveAll(init, roleNames).Err? {
      FailureNamesAString(init, roleNames);
      var s :| s in init && ResolveRole(s, roleNames) == Err(ResolveAll(init, roleNames).error);
      assert s in strs;
    } else {
      assert last in strs;
    }
  }

  /** Once a prefix of the strings has failed, the rest of the loop is never reached. */
  lemma {:induction false} PrefixErrorPersists(strs: seq<Option<string>>, i: nat, roleNames: set<ERole>)
    requires i <= |strs| && ResolveAll(strs[..i], roleNames).Err?
    ensures ResolveAll(strs, roleNames) == ResolveAll(strs[..i], roleNames)
    decreases |strs|
  {
    if i < |strs| {
      var init := strs[..|strs| - 1];
      assert init[..i] == strs[..i];
      PrefixErrorPersists(init, i, roleNames);
    } else {
      assert strs[..i] == strs;
    }
  }

  /**
   * The loop succeeds exactly when every string names a stored role, and
   * then yields exactly the roles some string names.
   */
  lemma {:induction false} ResolveAllMeaning(strs: seq<Option<string>>, roleNames: set<ERole>)
    ensures ResolveAll(strs, roleNames).Ok? <==> forall s :: s in strs ==> ResolveRole(s, roleNames).Ok?
    ensures ResolveAll(strs, roleNames).Ok? ==>
      forall e :: e in ResolveAll(strs, roleNames).value <==> exists s :: s in strs && ResolveRole(s, roleNames) == Ok(e)
    decreases |strs|
  {
    if strs != [] {
      var init, last := strs[..|strs| - 1], strs[|strs| - 1];
      assert strs == init + [last];
      ResolveAllMeaning(init, roleNames);
      if ResolveAll(strs, roleNames).Ok? {
        var roles := ResolveAll(strs, roleNames).value;
        forall e
          ensures e in roles <==> exists s :: s in strs && ResolveRole(s, roleNames) == Ok(e)
        {
          if e in roles && e != ResolveRole(last, roleNames).value {
            var s :| s in init && ResolveRole(s, roleNames) == Ok(e);
            assert s in strs;
          }
        }
      }
    }
  }

  /**
   * Whether registration succeeds, and which roles it grants, does not
   * depend on the order in which the role set is visited.
   */
  lemma ResolveAllIgnoresOrder(strs: seq<Option<string>>, other: seq<Option<string>>, roleNames: set<ERole>)
    requires forall s :: s in strs <==> s in other
    ensures ResolveAll(strs, roleNames).Ok? <==> ResolveAll(other, roleNames).Ok?
    ensures ResolveAll(strs, roleNames).Ok? ==> ResolveAll(strs, roleNames) == ResolveAll(other, roleNames)
  {
    ResolveAllMeaning(strs, roleNames);
    ResolveAllMeaning(other, roleNames);
    if ResolveAll(strs, roleNames).Ok? {
      var a, b := ResolveAll(strs, roleNames).value, ResolveAll(other, roleNames).value;
      assert forall e :: e in a <==> e in b;
      assert a == b;
    }
  }

  /** The loop stops at the first string that fails, with that string's error. */
  lemma FirstFailureIsReported(strs: seq<Option<string>>, i: nat, roleNames: set<ERole>)
    requires i < |strs| && ResolveAll(strs[..i], roleNames).Ok? && ResolveRole(strs[i], roleNames).Err?
    ensures ResolveAll(strs, roleNames) == Err(ResolveRole(strs[i], roleNames).error)
  {
    assert strs[..i + 1][..i] == strs[..i];
    PrefixErrorPersists(strs, i + 1, roleNames);
  }

  /** The roles to store: the patient role when none are requested, otherwise the requested ones. */
  function ResolveRoles(role: Option<seq<Option<string>>>, roleNames: set<ERole>): (r: Result<set<ERole>>)
    ensures (role.None? || role.value == []) && RolePatient in roleNames ==> r == Ok({RolePatient})
    ensures (role.None? || role.value == []) && RolePatient !in roleNames ==> r == Err(NotFound(DefaultRoleMissingMessage))
    ensures role.Some? && role.value != [] ==> r == ResolveAll(role.value, roleNames)
  {
    if role.None? || role.value == [] then
      if RolePatient in roleNames then Ok({RolePatient}) else Err(NotFound(DefaultRoleMissingMessage))
    else ResolveAll(role.value, roleNames)
  }

  /** The account the signup stores. */
  function NewUser(req: SignUpRequest, encode: string -> string, roles: set<ERole>, newId: Long): User
  {
    User(Some(newId), Some(req.username), Some(req.email), Some(encode(req.password)), Some(roles))
  }

  /** `registerUser`: the result and the tables it leaves. */
  function Register(t: Tables, req: SignUpRequest, encode: string -> string, newId: Long): (s: Step<string>)
    ensures s.result.Err? ==> s.tables == t
    ensures ExistsByUsername(t.users, req.username) ==> s.result == Err(IllegalArgument(UsernameTakenMessage))
    ensures !ExistsByUsername(t.users, req.username) && ExistsByEmail(t.users, req.email) ==>
      s.result == Err(IllegalArgument(EmailTakenMessage))
    ensures s.result.Ok? ==> s.result.value == RegisteredMessage && newId in s.tables.users
    ensures s.result.Ok? ==>
      var roles := s.tables.users[newId].roles;
      roles.Some? && roles.value <= t.roleNames && roles.value != {}
  {
    if ExistsByUsername(t.users, req.username) then Step(Err(IllegalArgument(UsernameTakenMessage)), t)
    else if ExistsByEmail(t.users, req.email) then Step(Err(IllegalArgument(EmailTakenMessage)), t)
    else
      match ResolveRoles(req.role, t.roleNames)
      case Err(e) => Step(Err(e), t)
      case Ok(roles) => Step(Ok(RegisteredMessage), t.(users := t.users[newId := NewUser(req, encode, roles, newId)]))
  }

  // ---------------------------------------------------------------------
  // Properties of registration

  /**
   * Registration succeeds exactly when the username and the email are free
   * and the roles resolve; it then adds one user, with the request's
   * username, email, encoded password and resolved roles, and changes
   * nothing else. A refused registration changes nothing.
   */
  lemma RegisterOutcome(t: Tables, req: SignUpRequest, encode: string -> string, newId: Long)
    requires newId !in t.users
    ensures var s := Register(t, req, encode, newId);
      && (s.result.Ok? <==>
            !ExistsByUsername(t.users, req.username) && !ExistsByEmail(t.users, req.email)
            && ResolveRoles(req.role, t.roleNames).Ok?)
      && (s.result.Err? ==> s.tables == t)
      && (s.result.Ok? ==>
            && s.tables.users.Keys == t.users.Keys + {newId}
            && (forall k :: k in t.users ==> s.tables.users[k] == t.users[k])
            && s.tables.users[newId].username == Some(req.username)
            && s.tables.users[newId].email == Some(req.email)
            && s.tables.users[newId].password == Some(encode(req.password))
            && s.tables.users[newId].roles == Some(ResolveRoles(req.role, t.roleNames).value)
            && s.tables == t.(users := s.tables.users))
  {
  }

  /** A taken username is reported before a taken email. */
  lemma UsernameIsCheckedFirst(t: Tables, req: SignUpRequest, encode: string -> string, newId: Long)
    requires ExistsByUsername(t.users, req.username)
    ensures Register(t, req, encode, newId).result == Err(IllegalArgument(UsernameTakenMessage))
  {
  }

  /** Without requested roles the account is a patient, and only a patient. */
  lemma DefaultRoleIsPatient(t: Tables, req: SignUpRequest, encode: string -> string, newId: Long)
    requires req.role.None? || req.role.value == []
    requires Register(t, req, encode, newId).result.Ok?
    ensures Register(t, req, encode, newId).tables.users[newId].roles == Some({RolePatient})
  {
  }

  /**
   * A request for `"doctor"` on a database with the doctor role yields a
   * principal that passes `hasRole('DOCTOR')` and no other role test.
   */
  lemma RegisteredDoctorIsDoctor(t: Tables, req: SignUpRequest, encode: string -> string, newId: Long)
    requires !ExistsByUsername(t.users, req.username) && !ExistsByEmail(t.users, req.email)
    requires req.role == Some([Some("doctor")]) && RoleDoctor in t.roleNames
    ensures Register(t, req, encode, newId).result == Ok(RegisteredMessage)
    ensures var u := Register(t, req, encode, newId).tables.users[newId];
      && Create(u).Ok?
      && HasRole(Create(u).value, "DOCTOR")
      && !HasRole(Create(u).value, "PATIENT") && !HasRole(Create(u).value, "ADMIN")
  {
    assert Upper("doctor") == "DOCTOR";
    var strs := [Some("doctor")];
    assert ParseRole("doctor") == Some(RoleDoctor);
    assert ResolveRole(Some("doctor"), t.roleNames) == Ok(RoleDoctor);
    assert strs[..|strs| - 1] == [];
    assert ResolveAll(strs[..|strs| - 1], t.roleNames) == Ok({});
    assert strs[|strs| - 1] == Some("doctor");
    assert strs != [];
    var none: set<ERole> := {};
    assert ResolveAll(strs, t.roleNames) == Ok(none + {RoleDoctor});
    assert none + {RoleDoctor} == {RoleDoctor};
    var u := Register(t, req, encode, newId).tables.users[newId];
    assert u.roles == Some({RoleDoctor});
    CreatedPrincipalHasRoleIffStored(u, RoleDoctor);
    CreatedPrincipalHasRoleIffStored(u, RolePatient);
    CreatedPrincipalHasRoleIffStored(u, RoleAdmin);
  }

  /** A role string that names no role is refused, whatever else the request asks for. */
  lemma UnknownRoleIsRefused(t: Tables, req: SignUpRequest, encode: string -> string, newId: Long, s: string)
    requires !ExistsByUsername(t.users, req.username) && !ExistsByEmail(t.users, req.email)
    requires req.role.Some? && Some(s) in req.role.value && ParseRole(s).None?
    ensures Register(t, req, encode, newId).result.Err?
    ensures Register(t, req, encode, newId).tables == t
  {
    ResolveAllMeaning(req.role.value, t.roleNames);
  }

  /**
   * A `null` in the role list escapes the loop's catch: the signup fails
   * with the NullPointerException and stores nothing.
   */
  lemma NullRoleIsUnhandled(t: Tables, req: SignUpRequest, encode: string -> string, newId: Long)
    requires !ExistsByUsername(t.users, req.username) && !ExistsByEmail(t.users, req.email)
    requires req.role == Some([None])
    ensures Register(t, req, encode, newId) == Step(Err(NullPointer), t)
  {
    var strs: seq<Option<string>> := [None];
    assert strs[..|strs| - 1] == [];
    assert ResolveAll(strs[..|strs| - 1], t.roleNames) == Ok({});
    assert ResolveAll(strs, t.roleNames) == Err(NullPointer);
  }

  /**
   * The uniqueness test at signup is exact, while the sign-in lookup ignores
   * case: registering a case variant of a stored username succeeds, and the
   * lookup of that name then matches two users and fails.
   */
  lemma CaseVariantBreaksLookup(t: Tables, req: SignUpRequest, encode: string -> string, newId: Long, k: Long)
    requires newId !in t.users && k in t.users
    requires UsernameMatches(t.users[k], req.username)
    requires Register(t, req, encode, newId).result.Ok?
    ensures var after := Register(t, req, encode, newId).tables;
      && FindUserByUsernameIgnoreCase(after.users, req.username).Ambiguous?
      && CallerUser(after.users, req.username) == Err(NonUniqueResult)
  {
    var after := Register(t, req, encode, newId).tables;
    assert UsernameMatches(after.users[k], req.username);
    assert UsernameMatches(after.users[newId], req.username);
  }

  /** Registration keeps the schema's integrity, in particular the unique username and email columns. */
  lemma RegisterPreservesConsistency(t: Tables, req: SignUpRequest, encode: string -> string, newId: Long)
    requires Consistent(t) && newId !in t.users
    ensures Consistent(Register(t, req, encode, newId).tables)
  {
  }

  // ---------------------------------------------------------------------
  // The controller

  class Controller {
    const db: Store

    constructor (db: Store)
      ensures this.db == db
    {
      this.db := db;
    }

    /** The signup endpoint; `encode` is the password encoder and `newId` the id the insert generates. */
    method RegisterUser(req: SignUpRequest, encode: string -> string, newId: Long) returns (r: Result<string>)
      requires db.Valid() && newId !in db.users
      modifies db
      ensures db.Valid()
      ensures Step(r, db.View()) == Register(old(db.View()), req, encode, newId)
    {
      RegisterPreservesConsistency(db.View(), req, encode, newId);
      if ExistsByUsername(db.users, req.username) {
        return Err(IllegalArgument(UsernameTakenMessage));
      }
      if ExistsByEmail(db.users, req.email) {
        return Err(IllegalArgument(EmailTakenMessage));
      }
      var roles: set<ERole>;
      if req.role.None? || req.role.value == [] {
        if RolePatient !in db.roleNames {
          return Err(NotFound(DefaultRoleMissingMessage));
        }
        roles := {RolePatient};
      } else {
        var strs := req.role.value;
        roles := {};
        var i := 0;
        while i < |strs|
          invariant 0 <= i <= |strs|
          invariant ResolveAll(strs[..i], db.roleNames) == Ok(roles)
        {
          if strs[i].None? {
            FirstFailureIsReported(strs, i, db.roleNames);
            return Err(NullPointer);
          }
          var role := ParseRole(strs[i].value);
          if role.None? || role.value !in db.roleNames {
            FirstFailureIsReported(strs, i, db.roleNames);
            if role.None? {
              return Err(IllegalArgument("Invalid role: " + strs[i].value));
            }
            return Err(NotFound("Role not found: " + Name(role.value)));
          }
          assert strs[..i + 1][..i] == strs[..i];
          roles := roles + {role.value};
          i := i + 1;
        }
        assert strs[..i] == strs;
      }
      db.users := db.users[newId := NewUser(req, encode, roles, newId)];
      r := Ok(RegisteredMessage);
    }
  }
}
