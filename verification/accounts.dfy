/** Account creation, profile dispatch, skill and approval administration
    (apps/users: serializers.py, signals.py, admin.py). */
module Accounts {
  import opened Wrappers
  import opened Users

  type Skills = map<SkillId, Skill>

  /** The stored accounts and the two profile tables, keyed by user. */
  datatype Directory = Directory(
    users: seq<User>,
    clientProfiles: map<UserId, ClientProfile>,
    servicemanProfiles: map<UserId, ServicemanProfile>)

  /** Every profile belongs to a stored account (the one-to-one foreign keys). */
  ghost predicate ProfilesOwned(d: Directory) {
    d.clientProfiles.Keys <= Ids(d.users) && d.servicemanProfiles.Keys <= Ids(d.users)
  }

  /** The primary keys in use. */
  function Ids(users: seq<User>): set<UserId> {
    set x | x in users :: x.id
  }

  /** Appending an account adds exactly its id. */
  lemma IdsAppend(users: seq<User>, u: User)
    ensures Ids(users + [u]) == Ids(users) + {u.id}
  {
    forall x | x in Ids(users)
      ensures x in Ids(users + [u])
    {
      var w :| w in users && w.id == x;
      assert w in users + [u];
    }
    assert u in users + [u];
  }

  /** `create_user_profile`, run after a user is saved. `created` is false on
      an update; `storeFails` stands for a database error, which is logged and
      swallowed. `get_or_create` keeps an existing profile. */
  function CreateUserProfile(d: Directory, u: User, created: bool, storeFails: bool): (d': Directory)
    ensures d'.users == d.users
    ensures !created || storeFails || u.userType == Admin ==> d' == d
    ensures u.userType != Client ==> d'.clientProfiles == d.clientProfiles
    ensures u.userType != Serviceman ==> d'.servicemanProfiles == d.servicemanProfiles
    ensures created && !storeFails && u.userType == Client ==>
      && d'.clientProfiles.Keys == d.clientProfiles.Keys + {u.id}
      && d'.clientProfiles[u.id] == (if u.id in d.clientProfiles then d.clientProfiles[u.id] else NewClientProfile(u.id))
      && forall v :: v in d.clientProfiles ==> d'.clientProfiles[v] == d.clientProfiles[v]
    ensures created && !storeFails && u.userType == Serviceman ==>
      && d'.servicemanProfiles.Keys == d.servicemanProfiles.Keys + {u.id}
      && d'.servicemanProfiles[u.id] == (if u.id in d.servicemanProfiles then d.servicemanProfiles[u.id] else NewServicemanProfile(u.id))
      && forall v :: v in d.servicemanProfiles ==> d'.servicemanProfiles[v] == d.servicemanProfiles[v]
  {
    if !created || storeFails then d
    else match u.userType
      case Client =>
        if u.id in d.clientProfiles then d
        else d.(clientProfiles := d.clientProfiles[u.id := NewClientProfile(u.id)])
      case Serviceman =>
        if u.id in d.servicemanProfiles then d
        else d.(servicemanProfiles := d.servicemanProfiles[u.id := NewServicemanProfile(u.id)])
      case Admin => d
  }

  /** Re-running the handler for the same user changes nothing more. */
  lemma CreateUserProfileIdempotent(d: Directory, u: User)
    ensures var once := CreateUserProfile(d, u, true, false);
      CreateUserProfile(once, u, true, false) == once
  {
  }

  /** Whatever happens, a user never holds both kinds of profile unless it already did. */
  lemma CreateUserProfileOneKind(d: Directory, u: User, created: bool, storeFails: bool)
    requires !(u.id in d.clientProfiles && u.id in d.servicemanProfiles)
    requires u.userType == Client ==> u.id !in d.servicemanProfiles
    requires u.userType == Serviceman ==> u.id !in d.clientProfiles
    ensures var d' := CreateUserProfile(d, u, created, storeFails);
      !(u.id in d'.clientProfiles && u.id in d'.servicemanProfiles)
  {
  }

  /** The largest primary key in use, 0 when there are no accounts. */
  function MaxId(users: seq<User>): (m: nat)
    ensures forall i :: 0 <= i < |users| ==> users[i].id <= m
    ensures |users| > 0 ==> exists i :: 0 <= i < |users| && users[i].id == m
  {
    if |users| == 0 then 0
    else
      var rest := MaxId(users[1..]);
      if users[0].id >= rest then users[0].id
      else
        assert exists i :: 0 <= i < |users[1..]| && users[1..][i].id == rest;
        rest
  }

  /** A key no account holds: one above every key in use. */
  function NextUserId(users: seq<User>): (id: UserId)
    ensures id !in Ids(users)
  {
    MaxId(users) + 1
  }

  /** `skills.set(Skill.objects.filter(id__in=ids, is_active=True))`: the
      requested ids that name an active skill. */
  function ActiveSkills(skills: Skills, ids: seq<SkillId>): (r: set<SkillId>)
    ensures forall s :: s in r <==> s in ids && s in skills && skills[s].isActive
  {
    set s | s in ids && s in skills && skills[s].isActive
  }

  predicate UsernameTaken(users: seq<User>, name: string) {
    exists i :: 0 <= i < |users| && users[i].username == name
  }

  predicate EmailTaken(users: seq<User>, email: string) {
    exists i :: 0 <= i < |users| && users[i].email == email
  }

  /** Python's `str.isspace`: the ASCII controls TAB to CR and FS to US, the
      space, NEL, NO-BREAK SPACE and the Unicode space separators. */
  predicate IsSpace(c: char) {
    var n := c as int;
    || 0x09 <= n <= 0x0D || 0x1C <= n <= 0x20 || n == 0x85 || n == 0xA0 || n == 0x1680
    || 0x2000 <= n <= 0x200A || n == 0x2028 || n == 0x2029 || n == 0x202F || n == 0x205F || n == 0x3000
  }

  /** How many whitespace characters open `s`. */
  function LeadingSpaces(s: string): (n: nat)
    ensures n <= |s|
    ensures forall i :: 0 <= i < n ==> IsSpace(s[i])
    ensures n < |s| ==> !IsSpace(s[n])
  {
    if |s| == 0 || !IsSpace(s[0]) then 0 else 1 + LeadingSpaces(s[1..])
  }

  /** How many whitespace characters close `s`. */
  function TrailingSpaces(s: string): (n: nat)
    ensures n <= |s|
    ensures forall i :: |s| - n <= i < |s| ==> IsSpace(s[i])
    ensures n < |s| ==> !IsSpace(s[|s| - n - 1])
  {
    if |s| == 0 || !IsSpace(s[|s| - 1]) then 0 else 1 + TrailingSpaces(s[..|s| - 1])
  }

  /** `str.strip()`, which a serializer `CharField` applies (`trim_whitespace`)
      before any validator sees the value: the middle part of `s` between its
      leading and its trailing whitespace. */
  function Strip(s: string): (r: string)
    ensures LeadingSpaces(s) + |r| <= |s|
    ensures r == s[LeadingSpaces(s)..LeadingSpaces(s) + |r|]
    ensures forall i :: 0 <= i < |s| && !(LeadingSpaces(s) <= i < LeadingSpaces(s) + |r|) ==> IsSpace(s[i])
    ensures |r| > 0 ==> !IsSpace(r[0]) && !IsSpace(r[|r| - 1])
  {
    var t := s[LeadingSpaces(s)..];
    t[..|t| - TrailingSpaces(t)]
  }

  /** Leading whitespace is counted up to the first other character. */
  lemma {:induction false} LeadingSpacesUpTo(s: string, k: nat)
    requires k < |s| && !IsSpace(s[k])
    requires forall i :: 0 <= i < k ==> IsSpace(s[i])
    ensures LeadingSpaces(s) == k
  {
    if k > 0 {
      LeadingSpacesUpTo(s[1..], k - 1);
    }
  }

  /** Stripping a stripped value changes nothing. */
  lemma StripIdempotent(s: string)
    ensures Strip(Strip(s)) == Strip(s)
  {
    StripTrimmed(Strip(s));
  }

  /** A value with no whitespace at either end is its own strip. */
  lemma StripTrimmed(s: string)
    requires |s| > 0 ==> !IsSpace(s[0]) && !IsSpace(s[|s| - 1])
    ensures Strip(s) == s
  {
    assert LeadingSpaces(s) == 0;
    assert TrailingSpaces(s) == 0;
  }

  /** The format validators Django attaches to the two identity columns:
      `UnicodeUsernameValidator` with `max_length=150` for the username, and
      `EmailValidator` with `max_length=254` for the e-mail address. Their
      regular expressions are not modelled: they are given as predicates. */
  datatype FieldValidators = FieldValidators(username: string -> bool, email: string -> bool)

  datatype AccountError =
    | BlankField
    | InvalidUsername
    | InvalidEmail
    | UsernameInUse
    | EmailInUse
    | PasswordTooShort
    | UnknownUserType
    | AdminRegistration
    | PasswordMismatch
    | SkillNameInUse
    | UnknownCategory
    | InvalidNumber
    | PhoneTooLong

  /** The minimum password length both sign-up forms enforce. */
  const MinPasswordLength := 8

  /** The username and e-mail fields accept the values, once stripped: not
      blank, well formed, and not held by another account. */
  predicate IdentityAccepted(d: Directory, v: FieldValidators, username: string, email: string) {
    && Strip(username) != "" && v.username(Strip(username)) && !UsernameTaken(d.users, Strip(username))
    && Strip(email) != "" && v.email(Strip(email)) && !EmailTaken(d.users, Strip(email))
  }

  /** The username and e-mail field checks in field order, each as its
      `CharField` runs them: blank, format, then the unique validator. */
  function IdentityChecks(d: Directory, v: FieldValidators, username: string, email: string): (r: Result<(string, string), AccountError>)
    ensures r.Success? <==> IdentityAccepted(d, v, username, email)
    ensures r.Success? ==> r.value == (Strip(username), Strip(email))
  {
    var name := Strip(username);
    var mail := Strip(email);
    if name == "" then Failure(BlankField)
    else if !v.username(name) then Failure(InvalidUsername)
    else if UsernameTaken(d.users, name) then Failure(UsernameInUse)
    else if mail == "" then Failure(BlankField)
    else if !v.email(mail) then Failure(InvalidEmail)
    else if EmailTaken(d.users, mail) then Failure(EmailInUse)
    else Success((name, mail))
  }

  /** A password field with `min_length=8`: blank, then too short, on the stripped value. */
  function PasswordCheck(password: string): (r: Result<string, AccountError>)
    ensures r.Success? <==> |Strip(password)| >= MinPasswordLength
    ensures r.Success? ==> r.value == Strip(password)
  {
    var pw := Strip(password);
    if pw == "" then Failure(BlankField)
    else if |pw| < MinPasswordLength then Failure(PasswordTooShort)
    else Success(pw)
  }

  /** The body of a public sign-up. `skillIds` is `None` when omitted. */
  datatype RegisterInput = RegisterInput(
    username: string, email: string, password: string, userType: string, skillIds: Option<seq<SkillId>>)

  /** The `RegisterSerializer` field validation, in field order: username and
      email, the password, the role choice, and `validate_user_type`. On
      success, the role to create. */
  function RegisterChecks(d: Directory, v: FieldValidators, input: RegisterInput): (r: Result<UserType, AccountError>)
    ensures r.Success? <==>
      && IdentityAccepted(d, v, input.username, input.email)
      && |Strip(input.password)| >= MinPasswordLength
      && ParseUserType(input.userType).Some?
      && ParseUserType(input.userType).value != Admin
    ensures ParseUserType(input.userType) == Some(Admin) && r.Failure? && r.error != AdminRegistration ==>
      !IdentityAccepted(d, v, input.username, input.email) || |Strip(input.password)| < MinPasswordLength
    ensures r.Success? ==> r.value != Admin && UserTypeCode(r.value) == input.userType
  {
    var _ :- IdentityChecks(d, v, input.username, input.email);
    var _ :- PasswordCheck(input.password);
    match ParseUserType(input.userType)
    case None => Failure(UnknownUserType)
    case Some(t) => if t == Admin then Failure(AdminRegistration) else Success(t)
  }

  /** `RegisterSerializer.create` for a validated role `t`: the account with
      the stripped username and email, its profile from the post-save handler,
      and for a serviceman the active subset of the requested skills. */
  function CreateAccount(d: Directory, skills: Skills, t: UserType, input: RegisterInput): (r: (Directory, User))
    requires ProfilesOwned(d) && t != Admin
    ensures r.0.users == d.users + [r.1] && r.1.id !in Ids(d.users)
    ensures ProfilesOwned(r.0)
    ensures r.1.username == Strip(input.username) && r.1.email == Strip(input.email) && r.1.userType == t
    ensures !r.1.isStaff && !r.1.isEmailVerified
    ensures t == Client ==>
      && r.0.clientProfiles == d.clientProfiles[r.1.id := NewClientProfile(r.1.id)]
      && r.0.servicemanProfiles == d.servicemanProfiles
    ensures t == Serviceman ==>
      && r.0.clientProfiles == d.clientProfiles
      && r.0.servicemanProfiles.Keys == d.servicemanProfiles.Keys + {r.1.id}
      && r.0.servicemanProfiles[r.1.id].skills ==
           (if input.skillIds.Some? && |input.skillIds.value| > 0
            then ActiveSkills(skills, input.skillIds.value) else {})
  {
    var u := User(NextUserId(d.users), Strip(input.username), Strip(input.email), t, false, false);
    NewAccountProfile(d, u);
    var d1 := CreateUserProfile(d.(users := d.users + [u]), u, true, false);
    if t == Serviceman && input.skillIds.Some? && |input.skillIds.value| > 0 then
      (AssignSkills(d1, u.id, ActiveSkills(skills, input.skillIds.value)), u)
    else (d1, u)
  }

  /** `profile.skills.set(...)`: `u`'s skills become `s`; nothing else changes. */
  function AssignSkills(d: Directory, u: UserId, s: set<SkillId>): (d': Directory)
    requires u in d.servicemanProfiles
    ensures d'.users == d.users && d'.clientProfiles == d.clientProfiles
    ensures d'.servicemanProfiles.Keys == d.servicemanProfiles.Keys
    ensures d'.servicemanProfiles[u] == d.servicemanProfiles[u].(skills := s)
    ensures forall v :: v in d.servicemanProfiles && v != u ==> d'.servicemanProfiles[v] == d.servicemanProfiles[v]
    ensures ProfilesOwned(d) ==> ProfilesOwned(d')
  {
    d.(servicemanProfiles := d.servicemanProfiles[u := d.servicemanProfiles[u].(skills := s)])
  }

  /** The profile handler on a fresh non-administrator account adds exactly
      the profile its role calls for, and every profile stays owned. */
  lemma NewAccountProfile(d: Directory, u: User)
    requires ProfilesOwned(d) && u.id !in Ids(d.users) && u.userType != Admin
    ensures var d1 := CreateUserProfile(d.(users := d.users + [u]), u, true, false);
      && d1.users == d.users + [u]
      && ProfilesOwned(d1)
      && (u.userType == Client ==>
            d1.clientProfiles == d.clientProfiles[u.id := NewClientProfile(u.id)] && d1.servicemanProfiles == d.servicemanProfiles)
      && (u.userType == Serviceman ==>
            d1.servicemanProfiles == d.servicemanProfiles[u.id := NewServicemanProfile(u.id)] && d1.clientProfiles == d.clientProfiles)
  {
    assert u.id !in d.clientProfiles && u.id !in d.servicemanProfiles;
    IdsAppend(d.users, u);
  }

  /** A public sign-up: validation, then creation. */
  function Register(d: Directory, v: FieldValidators, skills: Skills, input: RegisterInput): (r: Result<(Directory, User), AccountError>)
    requires ProfilesOwned(d)
    ensures r.Success? <==>
      && IdentityAccepted(d, v, input.username, input.email)
      && |Strip(input.password)| >= MinPasswordLength
      && ParseUserType(input.userType).Some?
      && ParseUserType(input.userType).value != Admin
    ensures ParseUserType(input.userType) == Some(Admin) ==> r.Failure?
    ensures r.Success? ==>
      var (d', u) := r.value;
      && d'.users == d.users + [u]
      && u.id !in Ids(d.users)
      && ProfilesOwned(d')
      && u.username == Strip(input.username) && u.email == Strip(input.email)
      && UserTypeCode(u.userType) == input.userType
      && !u.isStaff && !u.isEmailVerified
      && (u.userType == Client ==>
            && d'.clientProfiles == d.clientProfiles[u.id := NewClientProfile(u.id)]
            && d'.servicemanProfiles == d.servicemanProfiles)
      && (u.userType == Serviceman ==>
            && d'.clientProfiles == d.clientProfiles
            && d'.servicemanProfiles.Keys == d.servicemanProfiles.Keys + {u.id}
            && d'.servicemanProfiles[u.id].skills ==
                 (if input.skillIds.Some? && |input.skillIds.value| > 0
                  then ActiveSkills(skills, input.skillIds.value) else {}))
  {
    var t :- RegisterChecks(d, v, input);
    Success(CreateAccount(d, skills, t, input))
  }

  /** Two sign-ups whose fields agree once stripped pass the same checks and
      build the same account. */
  lemma RegisterSeesStripped(d: Directory, v: FieldValidators, skills: Skills, a: RegisterInput, b: RegisterInput)
    requires ProfilesOwned(d)
    requires Strip(a.username) == Strip(b.username) && Strip(a.email) == Strip(b.email)
    requires Strip(a.password) == Strip(b.password)
    requires a.userType == b.userType && a.skillIds == b.skillIds
    ensures Register(d, v, skills, a) == Register(d, v, skills, b)
  {
    ChecksSeeStripped(d, v, a, b);
    var c := RegisterChecks(d, v, a);
    if c.Success? {
      CreateSeesStripped(d, skills, c.value, a, b);
    }
  }

  lemma ChecksSeeStripped(d: Directory, v: FieldValidators, a: RegisterInput, b: RegisterInput)
    requires Strip(a.username) == Strip(b.username) && Strip(a.email) == Strip(b.email)
    requires Strip(a.password) == Strip(b.password) && a.userType == b.userType
    ensures RegisterChecks(d, v, a) == RegisterChecks(d, v, b)
  {
    assert IdentityChecks(d, v, a.username, a.email) == IdentityChecks(d, v, b.username, b.email);
    assert PasswordCheck(a.password) == PasswordCheck(b.password);
  }

  lemma CreateSeesStripped(d: Directory, skills: Skills, t: UserType, a: RegisterInput, b: RegisterInput)
    requires ProfilesOwned(d) && t != Admin
    requires Strip(a.username) == Strip(b.username) && Strip(a.email) == Strip(b.email) && a.skillIds == b.skillIds
    ensures CreateAccount(d, skills, t, a) == CreateAccount(d, skills, t, b)
  {
  }

  /** Two examples of `RegisterSeesStripped`: a password of seven spaces and
      one letter is too short, and a username that differs from a taken one
      only by surrounding spaces is taken. */
  lemma PaddingIsStripped(d: Directory, v: FieldValidators, skills: Skills, input: RegisterInput)
    requires ProfilesOwned(d)
    ensures input.password == "       x" ==> Register(d, v, skills, input).Failure?
    ensures UsernameTaken(d.users, "bob") && input.username == " bob" ==> Register(d, v, skills, input).Failure?
  {
    if input.password == "       x" {
      LeadingSpacesUpTo(input.password, 7);
      assert |Strip(input.password)| < MinPasswordLength;
    }
    if UsernameTaken(d.users, "bob") && input.username == " bob" {
      LeadingSpacesUpTo(input.username, 1);
      assert Strip(input.username) == "bob";
      assert !IdentityAccepted(d, v, input.username, input.email);
    }
  }

  /** ASCII case folding, as the database's case-insensitive match does for ASCII text. */
  function Lower(c: char): char {
    if 'A' <= c <= 'Z' then (c as int + 32) as char else c
  }

  function Upper(c: char): char {
    if 'a' <= c <= 'z' then (c as int - 32) as char else c
  }

  /** `name__iexact`. */
  predicate SameIgnoringCase(a: string, b: string) {
    |a| == |b| && forall i :: 0 <= i < |a| ==> Lower(a[i]) == Lower(b[i])
  }

  function UpperCase(s: string): (u: string)
    ensures |u| == |s| && forall i :: 0 <= i < |s| ==> u[i] == Upper(s[i])
  {
    seq(|s|, i requires 0 <= i < |s| => Upper(s[i]))
  }

  /** Upper-casing neither makes nor removes whitespace. */
  lemma UpperKeepsSpace(c: char)
    ensures IsSpace(Upper(c)) == IsSpace(c)
  {
  }

  /** Upper-casing never changes what a case-insensitive match sees. */
  lemma UpperCaseMatches(s: string)
    ensures SameIgnoringCase(UpperCase(s), s)
  {
  }

  /** The name field of `SkillCreateSerializer`: stripped, not blank, then
      `validate_name`, which refuses a name some stored skill already has up
      to letter case. On success, the name to store. */
  function ValidateSkillName(skills: Skills, name: string): (r: Result<string, AccountError>)
    ensures r.Success? <==> Strip(name) != "" && forall id :: id in skills ==> !SameIgnoringCase(skills[id].name, Strip(name))
    ensures r.Success? ==> r.value == Strip(name)
    ensures r.Failure? && Strip(name) != "" ==> r.error == SkillNameInUse
  {
    var n := Strip(name);
    if n == "" then Failure(BlankField)
    else if exists id :: id in skills && SameIgnoringCase(skills[id].name, n) then Failure(SkillNameInUse)
    else Success(n)
  }

  /** A skill whose name differs from a stored one only in letter case is refused. */
  lemma ShoutedSkillNameRejected(skills: Skills, id: SkillId)
    requires id in skills && Strip(skills[id].name) == skills[id].name != ""
    ensures ValidateSkillName(skills, UpperCase(skills[id].name)).Failure?
  {
    var n := skills[id].name;
    var shouted := UpperCase(n);
    assert SameIgnoringCase(n, shouted);
    assert !IsSpace(n[0]) && !IsSpace(n[|n| - 1]);
    UpperKeepsSpace(n[0]);
    UpperKeepsSpace(n[|n| - 1]);
    StripTrimmed(shouted);
    assert id in skills && SameIgnoringCase(skills[id].name, Strip(shouted));
  }

  /** The check cannot tell apart names that match ignoring case. */
  lemma SkillNameCheckIgnoresCase(skills: Skills, a: string, b: string)
    requires SameIgnoringCase(Strip(a), Strip(b))
    ensures ValidateSkillName(skills, a).Success? <==> ValidateSkillName(skills, b).Success?
  {
  }

  /** Once a skill is stored under an accepted name, the same name is refused. */
  lemma StoredSkillNameRefused(skills: Skills, name: string, id: SkillId, category: Option<SkillCategory>)
    requires ValidateSkillName(skills, name).Success?
    ensures ValidateSkillName(skills[id := NewSkill(id, ValidateSkillName(skills, name).value, category)], name).Failure?
  {
    var n := Strip(name);
    StripIdempotent(name);
    var skills' := skills[id := NewSkill(id, n, category)];
    assert id in skills' && SameIgnoringCase(skills'[id].name, Strip(n));
  }

  /** An integer field of a request body: JSON null, a whole number, or a
      value the serializer's `IntegerField` refuses. */
  datatype IntInput = NullInt | Whole(n: int) | NotWhole

  /** A `ServicemanProfileSerializer` write as it arrives. `None` means the
      field is not in the body; `rating` and `totalJobsCompleted` are accepted
      but read-only. */
  datatype ProfileUpdate = ProfileUpdate(
    category: Option<Option<CategoryId>>,
    bio: Option<string>,
    yearsOfExperience: Option<IntInput>,
    phoneNumber: Option<string>,
    isAvailable: Option<bool>,
    rating: Option<real>,
    totalJobsCompleted: Option<int>,
    skillIds: Option<seq<SkillId>>)

  /** The width of the `phone_number` column. */
  const MaxPhoneLength := 20

  /** The range of PostgreSQL's `integer`, which the model field's validators
      pass on to the serializer's `IntegerField`. */
  const MinInt32 := -0x8000_0000
  const MaxInt32 := 0x7FFF_FFFF

  /** The serializer accepts the fields that can fail: the category key names
      an existing category, the years are null or a whole number the column
      holds, and the stripped phone number fits its column. */
  predicate ProfileUpdateValid(upd: ProfileUpdate, categories: set<CategoryId>) {
    && (upd.category.Some? && upd.category.value.Some? ==> upd.category.value.value in categories)
    && (upd.yearsOfExperience.Some? ==>
          upd.yearsOfExperience.value.NullInt?
          || (upd.yearsOfExperience.value.Whole? && MinInt32 <= upd.yearsOfExperience.value.n <= MaxInt32))
    && (upd.phoneNumber.Some? ==> |Strip(upd.phoneNumber.value)| <= MaxPhoneLength)
  }

  /** The first field the serializer refuses, in field order (category,
      years, phone number), or none. */
  function ProfileUpdateError(upd: ProfileUpdate, categories: set<CategoryId>): (e: Option<AccountError>)
    ensures e.None? <==> ProfileUpdateValid(upd, categories)
    ensures upd.category.Some? && upd.category.value.Some? && upd.category.value.value !in categories ==>
      e == Some(UnknownCategory)
    ensures upd.yearsOfExperience == Some(NotWhole) ==> e == Some(UnknownCategory) || e == Some(InvalidNumber)
    ensures e.Some? ==> e.value in {UnknownCategory, InvalidNumber, PhoneTooLong}
  {
    if upd.category.Some? && upd.category.value.Some? && upd.category.value.value !in categories then
      Some(UnknownCategory)
    else if upd.yearsOfExperience.Some? && (upd.yearsOfExperience.value.NotWhole?
        || (upd.yearsOfExperience.value.Whole? && !(MinInt32 <= upd.yearsOfExperience.value.n <= MaxInt32))) then
      Some(InvalidNumber)
    else if upd.phoneNumber.Some? && |Strip(upd.phoneNumber.value)| > MaxPhoneLength then
      Some(PhoneTooLong)
    else None
  }

  /** The years of experience after an update: kept when not sent, cleared by
      null, and set by a whole number. */
  function StoredYears(current: Option<int>, e: Option<IntInput>): (y: Option<int>)
    ensures e.None? || e == Some(NotWhole) ==> y == current
    ensures e == Some(NullInt) ==> y.None?
    ensures e.Some? && e.value.Whole? ==> y == Some(e.value.n)
  {
    match e
    case Some(NullInt) => None
    case Some(Whole(n)) => Some(n)
    case _ => current
  }

  /** `ServicemanProfileSerializer.update` on validated data: every field sent
      is assigned, the text fields stripped, and the skills replaced by the
      active subset of the ids sent. */
  function ApplyProfileUpdate(p: ServicemanProfile, upd: ProfileUpdate, skills: Skills): (p': ServicemanProfile)
    ensures p'.user == p.user && p'.rating == p.rating && p'.totalJobsCompleted == p.totalJobsCompleted
    ensures p'.isApproved == p.isApproved && p'.approvedBy == p.approvedBy
    ensures p'.approvedAt == p.approvedAt && p'.rejectionReason == p.rejectionReason
    ensures upd.skillIds.None? ==> p'.skills == p.skills
    ensures upd.skillIds.Some? ==> p'.skills == ActiveSkills(skills, upd.skillIds.value)
    ensures p'.isAvailable == upd.isAvailable.GetOr(p.isAvailable)
    ensures p'.category == upd.category.GetOr(p.category)
    ensures p'.bio == (if upd.bio.Some? then Strip(upd.bio.value) else p.bio)
    ensures p'.phoneNumber == (if upd.phoneNumber.Some? then Strip(upd.phoneNumber.value) else p.phoneNumber)
    ensures p'.yearsOfExperience == StoredYears(p.yearsOfExperience, upd.yearsOfExperience)
  {
    var years := StoredYears(p.yearsOfExperience, upd.yearsOfExperience);
    var q := p.(category := upd.category.GetOr(p.category),
                bio := if upd.bio.Some? then Strip(upd.bio.value) else p.bio,
                yearsOfExperience := years,
                phoneNumber := if upd.phoneNumber.Some? then Strip(upd.phoneNumber.value) else p.phoneNumber,
                isAvailable := upd.isAvailable.GetOr(p.isAvailable));
    match upd.skillIds
    case None => q
    case Some(ids) => q.(skills := ActiveSkills(skills, ids))
  }

  /** `ServicemanProfileSerializer` validation, then `update`. `categories`
      are the keys of the existing categories. */
  function UpdateServicemanProfile(p: ServicemanProfile, upd: ProfileUpdate, skills: Skills,
                                   categories: set<CategoryId>): (r: Result<ServicemanProfile, AccountError>)
    ensures r.Success? <==> ProfileUpdateValid(upd, categories)
    ensures upd.category.Some? && upd.category.value.Some? && upd.category.value.value !in categories ==>
      r == Failure(UnknownCategory)
    ensures upd.yearsOfExperience == Some(NotWhole) && r.Failure? ==> r.error in {UnknownCategory, InvalidNumber}
    ensures r.Failure? ==> r.error in {UnknownCategory, InvalidNumber, PhoneTooLong}
    ensures r.Success? ==>
      var p' := r.value;
      && p'.user == p.user && p'.rating == p.rating && p'.totalJobsCompleted == p.totalJobsCompleted
      && p'.isApproved == p.isApproved && p'.approvedBy == p.approvedBy
      && p'.approvedAt == p.approvedAt && p'.rejectionReason == p.rejectionReason
      && (upd.skillIds.None? ==> p'.skills == p.skills)
      && (upd.skillIds.Some? ==> p'.skills == ActiveSkills(skills, upd.skillIds.value))
      && (upd.skillIds == Some([]) ==> p'.skills == {})
      && p'.isAvailable == upd.isAvailable.GetOr(p.isAvailable)
      && p'.category == upd.category.GetOr(p.category)
      && (p'.category.Some? ==> p'.category == p.category || p'.category.value in categories)
      && p'.bio == (if upd.bio.Some? then Strip(upd.bio.value) else p.bio)
      && p'.phoneNumber == (if upd.phoneNumber.Some? then Strip(upd.phoneNumber.value) else p.phoneNumber)
      && (upd.yearsOfExperience.None? ==> p'.yearsOfExperience == p.yearsOfExperience)
      && (upd.yearsOfExperience == Some(NullInt) ==> p'.yearsOfExperience.None?)
      && (upd.yearsOfExperience.Some? && upd.yearsOfExperience.value.Whole? ==>
            p'.yearsOfExperience == Some(upd.yearsOfExperience.value.n))
  {
    match ProfileUpdateError(upd, categories)
    case Some(e) => Failure(e)
    case None => Success(ApplyProfileUpdate(p, upd, skills))
  }

  datatype AdminInput = AdminInput(username: string, email: string, password: string, passwordConfirm: string)

  /** `AdminCreateSerializer`: the field checks (`validate_username` and
      `validate_email` repeat the unique validators), then `validate`, which
      compares the two stripped passwords, then `create`, which forces the
      admin flags. */
  function AdminCreate(d: Directory, v: FieldValidators, input: AdminInput): (r: Result<(Directory, User), AccountError>)
    ensures r.Success? <==>
      && IdentityAccepted(d, v, input.username, input.email)
      && |Strip(input.password)| >= MinPasswordLength
      && |Strip(input.passwordConfirm)| >= MinPasswordLength
      && Strip(input.password) == Strip(input.passwordConfirm)
    ensures r == Failure(PasswordMismatch) ==>
      && IdentityAccepted(d, v, input.username, input.email)
      && |Strip(input.password)| >= MinPasswordLength
      && |Strip(input.passwordConfirm)| >= MinPasswordLength
    ensures r.Success? ==>
      var (d', u) := r.value;
      && u.userType == Admin && u.isStaff && u.isEmailVerified
      && u.username == Strip(input.username) && u.email == Strip(input.email)
      && d'.users == d.users + [u]
      && u.id !in Ids(d.users)
      && d'.clientProfiles == d.clientProfiles
      && d'.servicemanProfiles == d.servicemanProfiles
  {
    var (name, mail) :- IdentityChecks(d, v, input.username, input.email);
    var pw :- PasswordCheck(input.password);
    var confirm :- PasswordCheck(input.passwordConfirm);
    if pw != confirm then Failure(PasswordMismatch)
    else
      var u := User(NextUserId(d.users), name, mail, Admin, true, true);
      Success((CreateUserProfile(d.(users := d.users + [u]), u, true, false), u))
  }

  /** Creating an administrator adds no profile and keeps every profile owned. */
  lemma AdminCreateKeepsProfilesOwned(d: Directory, v: FieldValidators, input: AdminInput)
    requires ProfilesOwned(d) && AdminCreate(d, v, input).Success?
    ensures ProfilesOwned(AdminCreate(d, v, input).value.0)
  {
    var (d', u) := AdminCreate(d, v, input).value;
    IdsAppend(d.users, u);
  }

  /** The two passwords are compared once stripped: a long enough password
      padded with whitespace matches its unpadded confirmation, so "abcdefgh "
      and "abcdefgh" match. */
  lemma AdminPasswordsCompareStripped(d: Directory, v: FieldValidators, input: AdminInput)
    requires IdentityAccepted(d, v, input.username, input.email)
    ensures |Strip(input.password)| >= MinPasswordLength && input.passwordConfirm == Strip(input.password) ==>
      AdminCreate(d, v, input).Success?
    ensures input.password == "abcdefgh " && input.passwordConfirm == "abcdefgh" ==> AdminCreate(d, v, input).Success?
  {
    StripIdempotent(input.password);
    if input.password == "abcdefgh " && input.passwordConfirm == "abcdefgh" {
      AbcdefghPadded(input);
    }
  }

  lemma AbcdefghPadded(input: AdminInput)
    requires input.password == "abcdefgh " && input.passwordConfirm == "abcdefgh"
    ensures Strip(input.password) == Strip(input.passwordConfirm) && |Strip(input.password)| == 8
  {
    StripTrimmed(input.passwordConfirm);
    var pw := Strip(input.password);
    assert LeadingSpaces(input.password) == 0;
    assert !IsSpace(input.password[7]);
    assert |pw| == 8;
    assert pw == input.password[..8] == input.passwordConfirm;
  }

  /** `approved_status_badge`. */
  datatype ApprovalBadge = Approved | Rejected | Pending

  function Badge(p: ServicemanProfile): (b: ApprovalBadge)
    ensures b == Approved <==> p.isApproved
    ensures b == Rejected <==> !p.isApproved && p.rejectionReason != ""
  {
    if p.isApproved then Approved
    else if p.rejectionReason != "" then Rejected
    else Pending
  }

  /** The selected profiles the bulk actions touch: those not yet approved. */
  function Unapproved(profiles: map<UserId, ServicemanProfile>, selected: set<UserId>): (t: set<UserId>)
    ensures forall u :: u in t <==> u in selected && u in profiles && !profiles[u].isApproved
  {
    set u | u in selected && u in profiles && !profiles[u].isApproved
  }

  /** `approve_servicemen`: the updated profiles and the count reported. */
  function ApproveServicemen(profiles: map<UserId, ServicemanProfile>, selected: set<UserId>,
                             admin: UserId, now: int): (r: (map<UserId, ServicemanProfile>, nat))
    ensures r.0.Keys == profiles.Keys
    ensures r.1 == |Unapproved(profiles, selected)|
    ensures forall u :: u in profiles && u !in Unapproved(profiles, selected) ==> r.0[u] == profiles[u]
    ensures forall u :: u in Unapproved(profiles, selected) ==>
      r.0[u] == profiles[u].(isApproved := true, approvedBy := Some(admin), approvedAt := Some(now))
  {
    var t := Unapproved(profiles, selected);
    (map u | u in profiles :: if u in t then profiles[u].(isApproved := true, approvedBy := Some(admin), approvedAt := Some(now)) else profiles[u],
     |t|)
  }

  const BulkRejectionReason := "Rejected by admin via bulk action"

  /** `reject_servicemen`: the updated profiles and the count reported. */
  function RejectServicemen(profiles: map<UserId, ServicemanProfile>, selected: set<UserId>): (r: (map<UserId, ServicemanProfile>, nat))
    ensures r.0.Keys == profiles.Keys
    ensures r.1 == |Unapproved(profiles, selected)|
    ensures forall u :: u in profiles && u !in Unapproved(profiles, selected) ==> r.0[u] == profiles[u]
    ensures forall u :: u in Unapproved(profiles, selected) ==>
      r.0[u] == profiles[u].(rejectionReason := BulkRejectionReason)
  {
    var t := Unapproved(profiles, selected);
    (map u | u in profiles :: if u in t then profiles[u].(rejectionReason := BulkRejectionReason) else profiles[u], |t|)
  }

  /** After a bulk approval every selected profile shows Approved; after a bulk
      rejection every selected profile shows Approved if it was, otherwise Rejected. */
  lemma BulkActionBadges(profiles: map<UserId, ServicemanProfile>, selected: set<UserId>, admin: UserId, now: int)
    ensures forall u :: u in selected && u in profiles ==> Badge(ApproveServicemen(profiles, selected, admin, now).0[u]) == Approved
    ensures forall u :: u in selected && u in profiles ==>
      Badge(RejectServicemen(profiles, selected).0[u]) == (if profiles[u].isApproved then Approved else Rejected)
  {
  }

  /** A repeated bulk approval finds nothing left to change and reports 0; a
      repeated bulk rejection rewrites the same reason, so the profiles stay
      as they are (its count still includes every unapproved profile). */
  lemma BulkActionsSettle(profiles: map<UserId, ServicemanProfile>, selected: set<UserId>, admin: UserId, now: int, later: int)
    ensures var once := ApproveServicemen(profiles, selected, admin, now).0;
      ApproveServicemen(once, selected, admin, later) == (once, 0)
    ensures var once := RejectServicemen(profiles, selected);
      RejectServicemen(once.0, selected) == once
  {
    var once := ApproveServicemen(profiles, selected, admin, now).0;
    assert Unapproved(once, selected) == {};
    assert ApproveServicemen(once, selected, admin, later).0 == once;
    var rejected := RejectServicemen(profiles, selected);
    assert Unapproved(rejected.0, selected) == Unapproved(profiles, selected);
    assert RejectServicemen(rejected.0, selected).0 == rejected.0;
  }

  /** `activate_skills` / `deactivate_skills`: the updated skills and the count reported. */
  function SetSkillsActive(skills: Skills, selected: set<SkillId>, active: bool): (r: (Skills, nat))
    ensures r.0.Keys == skills.Keys
    ensures r.1 == |selected * skills.Keys|
    ensures forall s :: s in skills && s in selected ==> r.0[s] == skills[s].(isActive := active)
    ensures forall s :: s in skills && s !in selected ==> r.0[s] == skills[s]
  {
    (map s | s in skills :: if s in selected then skills[s].(isActive := active) else skills[s], |selected * skills.Keys|)
  }

  /** A bulk toggle settles at once, and the registration and profile filters
      then see its effect: activated skills are offered, deactivated ones are not. */
  lemma SetSkillsActiveEffect(skills: Skills, selected: set<SkillId>, active: bool, ids: seq<SkillId>)
    ensures var once := SetSkillsActive(skills, selected, active).0;
      && SetSkillsActive(once, selected, active).0 == once
      && (active ==> forall s :: s in ids && s in skills && s in selected ==> s in ActiveSkills(once, ids))
      && (!active ==> forall s :: s in selected ==> s !in ActiveSkills(once, ids))
  {
  }
}
