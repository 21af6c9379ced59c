/** Accounts, skills and the two profile kinds (apps/users/models.py). */
module Users {
  import opened Wrappers
  import Decimals

  type UserId = nat
  type SkillId = nat
  type CategoryId = nat

  /** `User.user_type`: the three roles every guard in the system tests. */
  datatype UserType = Admin | Serviceman | Client

  /** The stored code of a role (`CharField(max_length=15)`). */
  function UserTypeCode(t: UserType): (c: string)
    ensures 0 < |c| <= 15
  {
    match t
    case Admin => "ADMIN"
    case Serviceman => "SERVICEMAN"
    case Client => "CLIENT"
  }

  /** Reads a stored role code back; any other text is not a role. */
  function ParseUserType(c: string): (r: Option<UserType>)
    ensures r.Some? ==> UserTypeCode(r.value) == c
    ensures forall t :: UserTypeCode(t) == c ==> r == Some(t)
  {
    if c == "ADMIN" then Some(Admin)
    else if c == "SERVICEMAN" then Some(Serviceman)
    else if c == "CLIENT" then Some(Client)
    else None
  }

  /** The fields of an account that the modelled logic reads or writes
      (names, password hash and login timestamps are not modelled). */
  datatype User = User(
    id: UserId,
    username: string,
    email: string,
    userType: UserType,
    isStaff: bool,
    isEmailVerified: bool)

  /** No two accounts share a primary key. */
  ghost predicate UniqueIds(users: seq<User>) {
    forall i, j :: 0 <= i < j < |users| ==> users[i].id != users[j].id
  }

  /** The account with primary key `id`, if any (the first such, should keys repeat). */
  function FindUser(users: seq<User>, id: UserId): (r: Option<User>)
    ensures r.Some? ==> r.value in users && r.value.id == id
    ensures r.None? ==> forall i :: 0 <= i < |users| ==> users[i].id != id
  {
    if |users| == 0 then None
    else if users[0].id == id then Some(users[0])
    else FindUser(users[1..], id)
  }

  /** `id` names an account whose role is SERVICEMAN. */
  predicate IsServicemanUser(users: seq<User>, id: UserId) {
    var u := FindUser(users, id);
    u.Some? && u.value.userType == Serviceman
  }

  /** `Skill.CATEGORY_CHOICES`. */
  datatype SkillCategory = Technical | Manual | Creative | Professional | Other

  datatype Skill = Skill(
    id: SkillId,
    name: string,
    category: SkillCategory,
    description: string,
    isActive: bool)

  /** A skill as created when the optional fields are omitted: category
      OTHER, empty description, active. */
  function NewSkill(id: SkillId, name: string, category: Option<SkillCategory>): (s: Skill)
    ensures s.id == id && s.name == name
    ensures s.isActive && s.description == ""
    ensures category.None? ==> s.category == Other
    ensures category.Some? ==> s.category == category.value
  {
    Skill(id, name, category.GetOr(Other), "", true)
  }

  datatype ClientProfile = ClientProfile(user: UserId, phoneNumber: string, address: string)

  datatype ServicemanProfile = ServicemanProfile(
    user: UserId,
    category: Option<CategoryId>,
    skills: set<SkillId>,
    rating: real,
    totalJobsCompleted: int,
    bio: string,
    yearsOfExperience: Option<int>,
    phoneNumber: string,
    isAvailable: bool,
    isApproved: bool,
    approvedBy: Option<UserId>,
    approvedAt: Option<int>,
    rejectionReason: string)

  /** `rating` is a `DecimalField(max_digits=3, decimal_places=2)`: two places, below 10 in magnitude. */
  predicate ValidRating(r: real) {
    Decimals.IsCents(r) && -10.0 < r < 10.0
  }

  /** A client profile with every field at its default. */
  function NewClientProfile(u: UserId): (p: ClientProfile)
    ensures p.user == u && p.phoneNumber == "" && p.address == ""
  {
    ClientProfile(u, "", "")
  }

  /** A serviceman profile with every field at its default: unrated, no
      jobs, available, awaiting approval, no category and no skills. */
  function NewServicemanProfile(u: UserId): (p: ServicemanProfile)
    ensures p.user == u
    ensures p.rating == 0.0 && ValidRating(p.rating) && p.totalJobsCompleted == 0
    ensures p.isAvailable && !p.isApproved
    ensures p.approvedBy.None? && p.approvedAt.None? && p.rejectionReason == ""
    ensures p.category.None? && p.skills == {}
  {
    ServicemanProfile(u, None, {}, 0.0, 0, "", None, "", true, false, None, None, "")
  }
}
