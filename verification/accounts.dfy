/** The account record (the `User` table as types/auth.ts and the routes use it)
    and the lookups the engine performs on it. Accounts are never removed. */
module Accounts {
  import opened Base

  datatype Role = Buyer | Seller | Sme | Trainer
  datatype UserStatus = Pending | Active | Suspended | Deactivated | Deleted
  datatype VerificationStatus = Unverified | Verified

  datatype User = User(
    id: nat,
    email: Option<string>,
    phone: Option<string>,
    fullName: Option<string>,
    profilePictureUrl: Option<string>,
    passwordHash: Option<string>,
    roles: seq<Role>,
    status: UserStatus,
    verificationStatus: VerificationStatus,
    emailVerified: Option<Time>,
    phoneVerified: bool,
    loginCount: nat,
    lastLoginAt: Option<Time>)

  /** `prisma.user.findUnique({ where: { id } })` */
  function FindUserById(users: seq<User>, id: nat): (r: Option<nat>)
    ensures r.Some? ==> r.value < |users| && users[r.value].id == id
                        && forall j :: 0 <= j < r.value ==> users[j].id != id
    ensures r.None? ==> forall j :: 0 <= j < |users| ==> users[j].id != id
  {
    FirstWhere(users, (u: User) => u.id == id)
  }

  /** `prisma.user.findFirst({ where: { email } })` */
  function FindUserByEmail(users: seq<User>, email: string): (r: Option<nat>)
    ensures r.Some? ==> r.value < |users| && users[r.value].email == Some(email)
                        && forall j :: 0 <= j < r.value ==> users[j].email != Some(email)
    ensures r.None? ==> forall j :: 0 <= j < |users| ==> users[j].email != Some(email)
  {
    FirstWhere(users, (u: User) => u.email == Some(email))
  }

  /** `prisma.user.findFirst({ where: { phone } })` */
  function FindUserByPhone(users: seq<User>, phone: string): (r: Option<nat>)
    ensures r.Some? ==> r.value < |users| && users[r.value].phone == Some(phone)
                        && forall j :: 0 <= j < r.value ==> users[j].phone != Some(phone)
    ensures r.None? ==> forall j :: 0 <= j < |users| ==> users[j].phone != Some(phone)
  {
    FirstWhere(users, (u: User) => u.phone == Some(phone))
  }

  /** The id the store gives the next account it creates. */
  function NextUserId(users: seq<User>): (id: nat)
    ensures FindUserById(users, id).None?
  {
    NextId(Column(users, (u: User) => u.id))
  }

  /** Account ids are unique (the primary key). */
  predicate UniqueIds(users: seq<User>) {
    forall i, j :: 0 <= i < j < |users| ==> users[i].id != users[j].id
  }

  /** Lookups by id only depend on the id column. */
  lemma FindUserSameIds(a: seq<User>, b: seq<User>)
    requires |a| == |b| && forall j :: 0 <= j < |a| ==> a[j].id == b[j].id
    ensures forall id :: FindUserById(a, id) == FindUserById(b, id)
    ensures UniqueIds(a) == UniqueIds(b)
  {
    forall id: nat
      ensures FindUserById(a, id) == FindUserById(b, id)
    {
      FirstWhereAgrees(a, (u: User) => u.id == id, b, (u: User) => u.id == id);
    }
  }
}
