/**
 * The authenticated principal built from a stored user: its identity
 * fields, the authorities its roles grant, and identity-based equality and
 * hashing. The account-state flags are constantly true and are not modelled.
 */
module UserPrinciple {
  import opened Common
  import opened Entities

  datatype Principal = Principal(
    id: Long,
    username: string,
    email: string,
    password: string,
    authorities: set<string>)

  /** The authority a role should grant: the constant's name, which already carries the `ROLE_` prefix. */
  function Authority(r: ERole): string
  {
    Name(r)
  }

  /** The authority `create` builds for a role: `"ROLE_"` prepended to the constant's name. */
  function AuthorityAsWritten(r: ERole): string
  {
    "ROLE_" + Name(r)
  }

  predicate Injective(f: ERole -> string)
  {
    forall a, b :: f(a) == f(b) ==> a == b
  }

  /** The authorities granted for a set of roles. */
  function AuthoritiesOf(roles: set<ERole>, authority: ERole -> string): set<string>
  {
    set r | r in roles :: authority(r)
  }

  /** One authority per role: an injective mapping keeps the count. */
  lemma {:induction false} AuthoritiesOfCount(roles: set<ERole>, authority: ERole -> string)
    requires Injective(authority)
    ensures |AuthoritiesOf(roles, authority)| == |roles|
    decreases |roles|
  {
    if roles != {} {
      var r :| r in roles;
      var rest := roles - {r};
      AuthoritiesOfCount(rest, authority);
      assert AuthoritiesOf(roles, authority) == AuthoritiesOf(rest, authority) + {authority(r)};
      assert authority(r) !in AuthoritiesOf(rest, authority);
    } else {
      assert AuthoritiesOf(roles, authority) == {};
    }
  }

  lemma AuthorityIsInjective()
    ensures Injective(Authority)
  {
  }

  lemma AuthorityAsWrittenIsInjective()
    ensures Injective(AuthorityAsWritten)
  {
    forall a, b | AuthorityAsWritten(a) == AuthorityAsWritten(b)
      ensures a == b
    {
      assert AuthorityAsWritten(a)[5..] == Name(a);
      assert AuthorityAsWritten(b)[5..] == Name(b);
    }
  }

  predicate HasNullField(u: User)
  {
    u.id.None? || u.username.None? || u.email.None? || u.password.None? || u.roles.None?
  }

  /** `UserPrinciple.create` with the given role-to-authority mapping. */
  function CreateWith(u: User, authority: ERole -> string): (r: Result<Principal>)
    ensures r.Err? <==> HasNullField(u)
    ensures r.Err? ==> r.error == IllegalArgument("User fields cannot be null")
    ensures r.Ok? ==>
      && r.value.id == u.id.value && r.value.username == u.username.value
      && r.value.email == u.email.value && r.value.password == u.password.value
  {
    if HasNullField(u) then Err(IllegalArgument("User fields cannot be null"))
    else Ok(Principal(u.id.value, u.username.value, u.email.value, u.password.value,
                      AuthoritiesOf(u.roles.value, authority)))
  }

  /** The principal as `create` builds it: each role grants `"ROLE_" + name`, one authority per role. */
  function CreateAsWritten(u: User): (r: Result<Principal>)
    ensures r.Err? <==> HasNullField(u)
    ensures r.Ok? ==> |r.value.authorities| == |u.roles.value|
    ensures r.Ok? ==> forall e :: e in u.roles.value <==> AuthorityAsWritten(e) in r.value.authorities
    ensures r.Err? ==> r.error == IllegalArgument("User fields cannot be null")
    ensures r.Ok? ==>
      && r.value.id == u.id.value && r.value.username == u.username.value
      && r.value.email == u.email.value && r.value.password == u.password.value
  {
    var r := CreateWith(u, AuthorityAsWritten);
    if r.Ok? then
      AuthorityAsWrittenIsInjective();
      AuthoritiesOfCount(u.roles.value, AuthorityAsWritten);
      r
    else r
  }

  /** The principal as intended: each stored role grants its own name as the authority, one per role. */
  function Create(u: User): (r: Result<Principal>)
    ensures r.Err? <==> HasNullField(u)
    ensures r.Ok? ==> |r.value.authorities| == |u.roles.value|
    ensures r.Ok? ==> forall e :: e in u.roles.value <==> Authority(e) in r.value.authorities
    ensures r.Ok? ==> forall a :: a in r.value.authorities ==> exists e :: e in u.roles.value && Name(e) == a
    ensures r.Err? ==> r.error == IllegalArgument("User fields cannot be null")
    ensures r.Ok? ==>
      && r.value.id == u.id.value && r.value.username == u.username.value
      && r.value.email == u.email.value && r.value.password == u.password.value
  {
    var r := CreateWith(u, Authority);
    if r.Ok? then
      AuthorityIsInjective();
      AuthoritiesOfCount(u.roles.value, Authority);
      r
    else r
  }

  // ---------------------------------------------------------------------
  // Identity

  /** `equals`: two principals are equal exactly when their ids are. */
  function Equals(a: Principal, b: Principal): (r: bool)
    ensures a == b ==> r
  {
    a.id == b.id
  }

  /**
   * `equals` compares ids and nothing else: principals with different ids
   * are never equal, and changing any other field keeps a principal equal
   * to the original.
   */
  lemma EqualsComparesIdsOnly(a: Principal, b: Principal, username: string, email: string, password: string, authorities: set<string>)
    ensures Equals(a, b) <==> a.id == b.id
    ensures Equals(a, a.(username := username, email := email, password := password, authorities := authorities))
  {
  }

  const TwoTo31: int := 0x8000_0000
  const TwoTo32: int := 0x1_0000_0000
  const TwoTo64: int := 0x1_0000_0000_0000_0000

  /** Java's `int` arithmetic: reduce to 32 bits, two's complement. */
  function Wrap32(x: int): (r: int)
    ensures -TwoTo31 <= r < TwoTo31
    ensures (r - x) % TwoTo32 == 0
  {
    (x + TwoTo31) % TwoTo32 - TwoTo31
  }

  /** `Long.hashCode(v)`: `(int)(v ^ (v >>> 32))` on the 64-bit two's-complement pattern of v. */
  function LongHashCode(v: Long): (h: int)
    ensures -TwoTo31 <= h < TwoTo31
  {
    var bits := (if v < 0 then v + TwoTo64 else v) as bv64;
    Wrap32((bits ^ (bits >> 32)) as int)
  }

  /** `hashCode` is `Objects.hash(id)`, that is `31 * 1 + Long.hashCode(id)` in `int` arithmetic. */
  function HashCode(p: Principal): (h: int)
    ensures -TwoTo31 <= h < TwoTo31
  {
    Wrap32(31 + LongHashCode(p.id))
  }

  /** Equal principals hash equally: the hash reads the id and nothing else. */
  lemma EqualPrincipalsHashEqually(a: Principal, b: Principal)
    requires Equals(a, b)
    ensures HashCode(a) == HashCode(b)
  {
  }

  /** Principals of the same stored user are equal whatever roles each was built with. */
  lemma SameUserGivesEqualPrincipals(u: User, roles: set<ERole>)
    requires !HasNullField(u)
    ensures Create(u).Ok? && Create(u.(roles := Some(roles))).Ok?
    ensures Equals(Create(u).value, Create(u.(roles := Some(roles))).value)
  {
  }
}
