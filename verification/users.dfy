/** The user registry (src/modules/users/users.service.ts): users keyed by
    their Telegram id, created on first contact, and at most one profile per
    user, upserted by merging the fields supplied. */
module Users {
  import opened Base

  /** A row of `users`. `telegram_id` is the decimal string of the sender's
      Telegram id; `created_at` is the insertion time. */
  datatype User = User(
    id: nat,
    telegramId: string,
    username: Option<string>,
    firstName: Option<string>,
    createdAt: int)

  /** A row of `user_profile`. */
  datatype Profile = Profile(
    id: nat,
    userId: nat,
    about: Option<string>,
    goals: Option<string>,
    preferences: Option<string>)

  /** A `Partial<UserProfile>` over the profile's text fields: `None` when the
      field is absent from the object, `Some(v)` when it is present with value
      `v` (which may itself be null). */
  datatype ProfilePatch = ProfilePatch(
    about: Option<Option<string>>,
    goals: Option<Option<string>>,
    preferences: Option<Option<string>>)

  datatype Registry = Registry(users: seq<User>, profiles: seq<Profile>)

  const Empty: Registry := Registry([], [])

  /** Serial primary keys: the i-th row inserted has id i + 1. */
  ghost predicate UsersNumbered(users: seq<User>)
  {
    forall i :: 0 <= i < |users| ==> users[i].id == i + 1
  }

  ghost predicate UniqueTelegramIds(users: seq<User>)
  {
    forall i, j :: 0 <= i < j < |users| ==> users[i].telegramId != users[j].telegramId
  }

  ghost predicate Valid(reg: Registry)
  {
    UsersNumbered(reg.users) && UniqueTelegramIds(reg.users)
  }

  /** `userRepository.findOne({ where: { telegram_id } })`. */
  function FindByTelegramId(users: seq<User>, telegramId: string): Option<nat>
  {
    FirstIndex(users, (u: User) => u.telegramId == telegramId)
  }

  /** `userRepository.findOne({ where: { id } })`. */
  function FindById(users: seq<User>, id: int): (r: Option<User>)
    ensures r.Some? ==> r.value in users && r.value.id == id
    ensures r.None? ==> forall i :: 0 <= i < |users| ==> users[i].id != id
  {
    match FirstIndex(users, (u: User) => u.id == id)
    case None => None
    case Some(i) => Some(users[i])
  }

  /** `findOrCreate(telegramId, username, firstName)` at time `now`: the user
      with that Telegram id, created with the given names if there is none. */
  function FindOrCreate(reg: Registry, telegramId: string, username: Option<string>,
                        firstName: Option<string>, now: int): (r: (Registry, User))
    ensures r.1.telegramId == telegramId && r.1 in r.0.users
    ensures r.0.profiles == reg.profiles
    // A known Telegram id returns its stored user, names untouched, registry unchanged.
    ensures (exists i :: 0 <= i < |reg.users| && reg.users[i].telegramId == telegramId) ==>
      r.0 == reg && r.1 in reg.users
    // An unknown one appends exactly one user carrying the given names.
    ensures (forall i :: 0 <= i < |reg.users| ==> reg.users[i].telegramId != telegramId) ==>
      && r.0.users == reg.users + [r.1]
      && r.1 == User(|reg.users| + 1, telegramId, username, firstName, now)
  {
    match FindByTelegramId(reg.users, telegramId)
    case Some(i) => (reg, reg.users[i])
    case None =>
      var user := User(|reg.users| + 1, telegramId, username, firstName, now);
      (reg.(users := reg.users + [user]), user)
  }

  /** `findOrCreate` is idempotent on the Telegram id: a second call, whatever
      names it passes, returns the same user and adds no record. */
  lemma FindOrCreateIdempotent(reg: Registry, telegramId: string,
                               n1: Option<string>, f1: Option<string>, t1: int,
                               n2: Option<string>, f2: Option<string>, t2: int)
    requires UniqueTelegramIds(reg.users)
    ensures var (reg1, u1) := FindOrCreate(reg, telegramId, n1, f1, t1);
            var (reg2, u2) := FindOrCreate(reg1, telegramId, n2, f2, t2);
            reg2 == reg1 && u2 == u1
  {
    var (reg1, u1) := FindOrCreate(reg, telegramId, n1, f1, t1);
    var k :| 0 <= k < |reg1.users| && reg1.users[k] == u1;
    assert reg1.users[k].telegramId == telegramId;
    if FindByTelegramId(reg.users, telegramId).None? {
      assert forall i :: 0 <= i < |reg.users| ==> reg1.users[i] == reg.users[i];
    }
  }

  /** `findOrCreate` keeps ids serial and Telegram ids unique. */
  lemma FindOrCreatePreservesValid(reg: Registry, telegramId: string,
                                   username: Option<string>, firstName: Option<string>, now: int)
    requires Valid(reg)
    ensures Valid(FindOrCreate(reg, telegramId, username, firstName, now).0)
  {
  }

  /** `getProfile(userId)`: the first profile of that user. */
  function GetProfile(reg: Registry, userId: nat): (r: Option<Profile>)
    ensures r.Some? ==> r.value in reg.profiles && r.value.userId == userId
    ensures r.None? <==> forall i :: 0 <= i < |reg.profiles| ==> reg.profiles[i].userId != userId
  {
    match FirstIndex(reg.profiles, (p: Profile) => p.userId == userId)
    case None => None
    case Some(i) => Some(reg.profiles[i])
  }

  /** A field after `Object.assign`: the patch's value when present, the old one otherwise. */
  function Merge(current: Option<string>, patch: Option<Option<string>>): (r: Option<string>)
    // A field absent from the patch keeps its value; a present one, even a
    // null, replaces it.
    ensures patch.None? ==> r == current
    ensures patch.Some? ==> r == patch.value
  {
    match patch
    case Some(v) => v
    case None => current
  }

  /** Applying the same patch twice is applying it once, and of two patches
      the later one wins wherever it has the field. */
  lemma MergeIdempotent(current: Option<string>, p: Option<Option<string>>, q: Option<Option<string>>)
    ensures Merge(Merge(current, p), p) == Merge(current, p)
    ensures Merge(Merge(current, p), q) == Merge(current, if q.Some? then q else p)
  {
  }

  /** `updateProfile(userId, data)`: create the profile from the patch when
      there is none, otherwise overwrite the fields present in the patch. */
  function UpdateProfile(reg: Registry, userId: nat, patch: ProfilePatch): (r: (Registry, Profile))
    ensures r.0.users == reg.users
    ensures r.1.userId == userId
    // Reading the profile back gives the saved one.
    ensures GetProfile(r.0, userId) == Some(r.1)
    // No profile: exactly one new row, holding the patch's fields and nulls elsewhere.
    ensures GetProfile(reg, userId).None? ==>
      && r.0.profiles == reg.profiles + [r.1]
      && r.1.about == Merge(None, patch.about)
      && r.1.goals == Merge(None, patch.goals)
      && r.1.preferences == Merge(None, patch.preferences)
    // A profile: same row count and id, fields present in the patch overwritten, the rest kept.
    ensures GetProfile(reg, userId).Some? ==>
      var prior := GetProfile(reg, userId).value;
      && |r.0.profiles| == |reg.profiles|
      && r.1.id == prior.id
      && r.1.about == (if patch.about.Some? then patch.about.value else prior.about)
      && r.1.goals == (if patch.goals.Some? then patch.goals.value else prior.goals)
      && r.1.preferences == (if patch.preferences.Some? then patch.preferences.value else prior.preferences)
    // Other users' profiles are untouched.
    ensures forall i :: 0 <= i < |reg.profiles| && reg.profiles[i].userId != userId ==>
      i < |r.0.profiles| && r.0.profiles[i] == reg.profiles[i]
  {
    match FirstIndex(reg.profiles, (p: Profile) => p.userId == userId)
    case None =>
      var p := Profile(|reg.profiles| + 1, userId, Merge(None, patch.about),
                       Merge(None, patch.goals), Merge(None, patch.preferences));
      FirstIndexAppendMiss(reg.profiles, p, userId);
      (reg.(profiles := reg.profiles + [p]), p)
    case Some(i) =>
      var prior := reg.profiles[i];
      var p := prior.(about := Merge(prior.about, patch.about),
                    goals := Merge(prior.goals, patch.goals),
                    preferences := Merge(prior.preferences, patch.preferences));
      var profiles := reg.profiles[i := p];
      FirstIndexIs(profiles, (q: Profile) => q.userId == userId, i);
      (reg.(profiles := profiles), p)
  }

  lemma FirstIndexAppendMiss(profiles: seq<Profile>, p: Profile, userId: nat)
    requires forall i :: 0 <= i < |profiles| ==> profiles[i].userId != userId
    requires p.userId == userId
    ensures FirstIndex(profiles + [p], (q: Profile) => q.userId == userId) == Some(|profiles|)
  {
    var s := profiles + [p];
    assert forall i :: 0 <= i < |profiles| ==> s[i] == profiles[i];
    FirstIndexIs(s, (q: Profile) => q.userId == userId, |profiles|);
  }
}
