/** The quota ledger (src/modules/tariffs/tariffs.service.ts): the tariff
    catalogue and each user's grants ("user tariffs"). A user's active grant
    carries the messages left; it is created lazily on the Free tariff,
    replaced when its end date has passed, debited one message per exchange
    (never below zero) and superseded by an upgrade to Premium. */
module Tariffs {
  import opened Base

  datatype PlanType = Package | Subscription

  /** A row of `tariffs`. Prices are kept in cents (9.99 is 999), which is
      exact where the source's decimal column is. */
  datatype Tariff = Tariff(
    id: nat,
    name: string,
    kind: PlanType,
    messagesLimit: int,
    durationDays: Option<int>,
    priceCents: int,
    isActive: bool)

  /** A row of `user_tariffs`. Times are milliseconds since the epoch. */
  datatype Grant = Grant(
    id: nat,
    userId: nat,
    tariffId: nat,
    messagesLeft: int,
    startAt: int,
    endAt: Option<int>,
    isActive: bool)

  datatype Ledger = Ledger(tariffs: seq<Tariff>, grants: seq<Grant>)

  /** What `getUserTariffInfo` reports. */
  datatype TariffInfo = TariffInfo(tariff: string, messagesLeft: int, endDate: Option<int>)

  const DayMs: int := 86400000
  const FreeName: string := "Free"
  const PremiumName: string := "Premium"

  /** The allotment `getUserTariffInfo` reports for a user with no grant. */
  const DefaultInfoMessages: int := 10

  /** The catalogue rows `createDefaultTariffs` seeds. */
  function FreeTariff(id: nat): Tariff
  {
    Tariff(id, FreeName, Package, 10, None, 0, true)
  }

  function PremiumTariff(id: nat): Tariff
  {
    Tariff(id, PremiumName, Subscription, 1000, Some(30), 999, true)
  }

  // ---------------------------------------------------------------------------
  // Catalogue
  // ---------------------------------------------------------------------------

  /** `tariffRepository.findOne({ where: { name } })`. */
  function FindTariff(tariffs: seq<Tariff>, name: string): (r: Option<Tariff>)
    ensures r.Some? ==> r.value in tariffs && r.value.name == name
    ensures r.None? <==> forall i :: 0 <= i < |tariffs| ==> tariffs[i].name != name
  {
    match FirstIndex(tariffs, (t: Tariff) => t.name == name)
    case None => None
    case Some(i) => Some(tariffs[i])
  }

  /** The tariff joined to a grant (`relations: ['tariff']`). */
  function TariffById(tariffs: seq<Tariff>, id: nat): (r: Option<Tariff>)
    ensures r.Some? ==> r.value in tariffs && r.value.id == id
    ensures r.None? <==> forall i :: 0 <= i < |tariffs| ==> tariffs[i].id != id
    // With serial ids the primary key is the row number plus one.
    ensures (forall i :: 0 <= i < |tariffs| ==> tariffs[i].id == i + 1) && 1 <= id <= |tariffs| ==>
      r.Some? && r.value == tariffs[id - 1]
  {
    match FirstIndex(tariffs, (t: Tariff) => t.id == id)
    case None =>
      assert forall j :: 0 <= j < |tariffs| ==> tariffs[j].id != id;
      assert 1 <= id <= |tariffs| ==> tariffs[id - 1].id != id;
      None
    case Some(i) => assert tariffs[i].id == id; Some(tariffs[i])
  }

  function CountNamed(tariffs: seq<Tariff>, name: string): nat
  {
    Count(tariffs, (t: Tariff) => t.name == name)
  }

  /** Appends `t` to the catalogue unless a tariff of that name exists. */
  function SeedTariff(tariffs: seq<Tariff>, t: Tariff): (r: seq<Tariff>)
    ensures FindTariff(tariffs, t.name).Some? ==> r == tariffs
    ensures FindTariff(tariffs, t.name).None? ==> r == tariffs + [t]
  {
    if FindTariff(tariffs, t.name).Some? then tariffs else tariffs + [t]
  }

  /** Seeding leaves the tariff of each name found first, or makes `t` the
      one found when there was none, and brings the count of `t`'s name to
      at least one without changing any other count. */
  lemma SeedTariffLookup(tariffs: seq<Tariff>, t: Tariff, name: string)
    ensures FindTariff(SeedTariff(tariffs, t), name)
            == if FindTariff(tariffs, name).Some? || name != t.name then FindTariff(tariffs, name) else Some(t)
    ensures CountNamed(SeedTariff(tariffs, t), name)
            == if name == t.name && CountNamed(tariffs, name) == 0 then 1 else CountNamed(tariffs, name)
  {
    var p := (u: Tariff) => u.name == name;
    if FindTariff(tariffs, t.name).Some? {
      if name == t.name {
        var k :| 0 <= k < |tariffs| && tariffs[k].name == t.name;
        FilterMembership(tariffs, p, tariffs[k]);
      }
    } else {
      if name == t.name {
        FilterNone(tariffs, p);
      }
      FirstIndexAppend(tariffs, t, p);
      FilterAppend(tariffs, t, p);
    }
  }

  /** `createDefaultTariffs()`: seed Free, then Premium, each only when no
      tariff of that name exists. Existing rows are never changed; at most
      the two seeded rows are added after them. */
  function CreateDefaultTariffs(tariffs: seq<Tariff>): (r: seq<Tariff>)
    ensures |tariffs| <= |r| <= |tariffs| + 2 && r[..|tariffs|] == tariffs
  {
    var withFree := SeedTariff(tariffs, FreeTariff(|tariffs| + 1));
    assert withFree[..|tariffs|] == tariffs;
    var r := SeedTariff(withFree, PremiumTariff(|withFree| + 1));
    assert r[..|withFree|] == withFree;
    r
  }

  /** After seeding, the Free tariff found is the one that was there before,
      or the new row with the next id; there is exactly one Free row unless
      the catalogue already held several. */
  lemma CreateDefaultTariffsFree(tariffs: seq<Tariff>)
    ensures FindTariff(CreateDefaultTariffs(tariffs), FreeName)
            == if FindTariff(tariffs, FreeName).Some? then FindTariff(tariffs, FreeName)
               else Some(FreeTariff(|tariffs| + 1))
    ensures CountNamed(CreateDefaultTariffs(tariffs), FreeName)
            == if CountNamed(tariffs, FreeName) == 0 then 1 else CountNamed(tariffs, FreeName)
  {
    var free := FreeTariff(|tariffs| + 1);
    var premium := PremiumTariff(|SeedTariff(tariffs, free)| + 1);
    assert CreateDefaultTariffs(tariffs) == SeedTariff(SeedTariff(tariffs, free), premium);
    SeedTwice(tariffs, free, premium, FreeName);
  }

  /** The same for Premium; a new Premium row is the last row and its id is
      the catalogue's new length. */
  lemma CreateDefaultTariffsPremium(tariffs: seq<Tariff>)
    ensures FindTariff(CreateDefaultTariffs(tariffs), PremiumName)
            == if FindTariff(tariffs, PremiumName).Some? then FindTariff(tariffs, PremiumName)
               else Some(PremiumTariff(|CreateDefaultTariffs(tariffs)|))
    ensures CountNamed(CreateDefaultTariffs(tariffs), PremiumName)
            == if CountNamed(tariffs, PremiumName) == 0 then 1 else CountNamed(tariffs, PremiumName)
  {
    var free := FreeTariff(|tariffs| + 1);
    var withFree := SeedTariff(tariffs, free);
    var premium := PremiumTariff(|withFree| + 1);
    var r := SeedTariff(withFree, premium);
    assert CreateDefaultTariffs(tariffs) == r;
    SeedTwice(tariffs, free, premium, PremiumName);
    assert FreeName != PremiumName by { assert FreeName[0] != PremiumName[0]; }
    SeedTariffLookup(tariffs, free, PremiumName);
    assert FindTariff(tariffs, PremiumName).None? ==> r == withFree + [premium];
  }

  /** The lookup and count of one name after seeding Free, then Premium. */
  lemma SeedTwice(tariffs: seq<Tariff>, free: Tariff, premium: Tariff, name: string)
    requires free.name == FreeName && premium.name == PremiumName
    requires name == FreeName || name == PremiumName
    ensures var seeded := SeedTariff(SeedTariff(tariffs, free), premium);
      var t := if name == FreeName then free else premium;
      && FindTariff(seeded, name) == (if FindTariff(tariffs, name).Some? then FindTariff(tariffs, name) else Some(t))
      && CountNamed(seeded, name) == (if CountNamed(tariffs, name) == 0 then 1 else CountNamed(tariffs, name))
  {
    var withFree := SeedTariff(tariffs, free);
    assert FreeName != PremiumName by { assert FreeName[0] != PremiumName[0]; }
    SeedTariffLookup(tariffs, free, name);
    SeedTariffLookup(withFree, premium, name);
  }

  /** Seeding is idempotent: a second run changes nothing. */
  lemma CreateDefaultTariffsIdempotent(tariffs: seq<Tariff>)
    ensures CreateDefaultTariffs(CreateDefaultTariffs(tariffs)) == CreateDefaultTariffs(tariffs)
  {
    var once := CreateDefaultTariffs(tariffs);
    CreateDefaultTariffsFree(tariffs);
    CreateDefaultTariffsPremium(tariffs);
    assert FindTariff(once, FreeName).Some?;
    assert FindTariff(once, PremiumName).Some?;
  }

  /** Seeding an empty catalogue gives exactly the Free and Premium rows. */
  lemma CreateDefaultTariffsFromEmpty()
    ensures CreateDefaultTariffs([]) == [FreeTariff(1), PremiumTariff(2)]
  {
  }

  // ---------------------------------------------------------------------------
  // Grants
  // ---------------------------------------------------------------------------

  predicate IsActiveGrantOf(g: Grant, userId: nat)
  {
    g.userId == userId && g.isActive
  }

  /** Position of the grant `getUserTariff` finds. */
  function ActiveIndex(grants: seq<Grant>, userId: nat): Option<nat>
  {
    FirstIndex(grants, (g: Grant) => IsActiveGrantOf(g, userId))
  }

  /** `getUserTariff(userId)`: the user's active grant, if any. */
  function GetUserTariff(l: Ledger, userId: nat): (r: Option<Grant>)
    ensures r.Some? ==> r.value in l.grants && IsActiveGrantOf(r.value, userId)
    ensures r.None? <==> forall i :: 0 <= i < |l.grants| ==> !IsActiveGrantOf(l.grants[i], userId)
  {
    match ActiveIndex(l.grants, userId)
    case None => None
    case Some(i) => Some(l.grants[i])
  }

  /** The ledger invariant: at most one active grant per user. */
  ghost predicate AtMostOneActive(grants: seq<Grant>)
  {
    forall i, j :: 0 <= i < |grants| && 0 <= j < |grants|
      && grants[i].isActive && grants[j].isActive && grants[i].userId == grants[j].userId
      ==> i == j
  }

  /** Every balance is non-negative. */
  ghost predicate NonNegativeBalances(grants: seq<Grant>)
  {
    forall i :: 0 <= i < |grants| ==> grants[i].messagesLeft >= 0
  }

  /** Every catalogue allotment is non-negative. */
  ghost predicate NonNegativeLimits(tariffs: seq<Tariff>)
  {
    forall i :: 0 <= i < |tariffs| ==> tariffs[i].messagesLimit >= 0
  }

  /** Foreign key: every grant's tariff is in the catalogue. */
  ghost predicate GrantsReferToTariffs(l: Ledger)
  {
    forall i :: 0 <= i < |l.grants| ==> TariffById(l.tariffs, l.grants[i].tariffId).Some?
  }

  ghost predicate Valid(l: Ledger)
  {
    && AtMostOneActive(l.grants)
    && NonNegativeBalances(l.grants)
    && NonNegativeLimits(l.tariffs)
    && GrantsReferToTariffs(l)
  }

  /** An end date strictly before `now`; a grant without one never expires. */
  predicate Expired(g: Grant, now: int)
  {
    g.endAt.Some? && now > g.endAt.value
  }

  /** Expiry is permanent: a grant expired at `now` stays expired later, and
      one without an end date is never expired. */
  lemma ExpiryIsPermanent(g: Grant, now: int, later: int)
    requires now <= later
    ensures Expired(g, now) ==> Expired(g, later)
    ensures g.endAt.None? ==> !Expired(g, later)
  {
  }

  /** The grant `assignFreeTariff` or `upgradeToPremium` saves: active, on
      tariff `t`, seeded with its allotment, starting now. */
  function NewGrant(l: Ledger, userId: nat, t: Tariff, now: int, endAt: Option<int>): (r: Grant)
    // The next serial id in the grant table.
    ensures r.id == |l.grants| + 1
    ensures IsActiveGrantOf(r, userId) && r.tariffId == t.id
    ensures r.messagesLeft == t.messagesLimit && r.startAt == now
    // Expired at once only when its end date is already past.
    ensures Expired(r, now) <==> endAt.Some? && endAt.value < now
  {
    Grant(|l.grants| + 1, userId, t.id, t.messagesLimit, now, endAt, true)
  }

  /** `assignFreeTariff(userId)`: throws when the catalogue has no Free tariff,
      otherwise saves one more grant: active, on Free, with Free's allotment,
      starting now and never ending. */
  function AssignFreeTariff(l: Ledger, userId: nat, now: int): (r: Result<(Ledger, Grant)>)
    ensures r.Err? <==> FindTariff(l.tariffs, FreeName).None?
    ensures r.Err? ==> r.error == FreeTariffNotFound
    ensures r.Ok? ==>
      var free := FindTariff(l.tariffs, FreeName).value;
      var (l', g) := r.value;
      && l'.tariffs == l.tariffs
      && l'.grants == l.grants + [g]
      && IsActiveGrantOf(g, userId) && g.tariffId == free.id
      && g.messagesLeft == free.messagesLimit && g.startAt == now && g.endAt.None?
  {
    match FindTariff(l.tariffs, FreeName)
    case None => Err(FreeTariffNotFound)
    case Some(free) =>
      var g := NewGrant(l, userId, free, now, None);
      Ok((l.(grants := l.grants + [g]), g))
  }

  /** Grant `i` saved with `is_active = false`. */
  function Deactivate(grants: seq<Grant>, i: nat): (r: seq<Grant>)
    requires i < |grants|
    ensures |r| == |grants| && !r[i].isActive
    ensures r[i] == grants[i].(isActive := false)
    ensures forall j :: 0 <= j < |grants| && j != i ==> r[j] == grants[j]
  {
    grants[i := grants[i].(isActive := false)]
  }

  /** `canUserSendMessage(userId)` at time `now`. Returns the ledger as saved
      (also when the call throws part-way) and the answer or the error. */
  function CanUserSendMessage(l: Ledger, userId: nat, now: int): (r: (Ledger, Result<bool>))
    ensures r.0.tariffs == l.tariffs
    // No active grant: a Free grant is created and the answer is yes (or Free is missing).
    ensures GetUserTariff(l, userId).None? ==>
      match AssignFreeTariff(l, userId, now)
      case Err(e) => r == (l, Err(e))
      case Ok((l', _)) => r == (l', Ok(true))
    // An expired grant is deactivated first, then replaced the same way.
    ensures GetUserTariff(l, userId).Some? && Expired(GetUserTariff(l, userId).value, now) ==>
      var i := ActiveIndex(l.grants, userId).value;
      var cleared := l.(grants := Deactivate(l.grants, i));
      match AssignFreeTariff(cleared, userId, now)
      case Err(e) => r == (cleared, Err(e))
      case Ok((l', _)) => r == (l', Ok(true))
    // A current grant: nothing is saved; the answer is whether messages are left.
    ensures GetUserTariff(l, userId).Some? && !Expired(GetUserTariff(l, userId).value, now) ==>
      r == (l, Ok(GetUserTariff(l, userId).value.messagesLeft > 0))
    // The answer is "no" exactly when a current grant has run out.
    ensures r.1 == Ok(false) <==>
      GetUserTariff(l, userId).Some?
      && !Expired(GetUserTariff(l, userId).value, now)
      && GetUserTariff(l, userId).value.messagesLeft <= 0
  {
    match ActiveIndex(l.grants, userId)
    case None =>
      (match AssignFreeTariff(l, userId, now)
       case Err(e) => (l, Err(e))
       case Ok((l', _)) => (l', Ok(true)))
    case Some(i) =>
      var g := l.grants[i];
      if Expired(g, now) then
        var cleared := l.(grants := Deactivate(l.grants, i));
        match AssignFreeTariff(cleared, userId, now)
        case Err(e) => (cleared, Err(e))
        case Ok((l', _)) => (l', Ok(true))
      else
        (l, Ok(g.messagesLeft > 0))
  }

  /** `deductMessage(userId)`: one message off the active grant when it has
      any left; otherwise nothing. */
  function DeductMessage(l: Ledger, userId: nat): (r: Ledger)
    ensures r.tariffs == l.tariffs && |r.grants| == |l.grants|
    ensures match ActiveIndex(l.grants, userId)
      case Some(i) =>
        if l.grants[i].messagesLeft > 0 then
          && r.grants[i] == l.grants[i].(messagesLeft := l.grants[i].messagesLeft - 1)
          && forall j :: 0 <= j < |l.grants| && j != i ==> r.grants[j] == l.grants[j]
        else r == l
      case None => r == l
    // The floor: no balance that was non-negative becomes negative.
    ensures forall j :: 0 <= j < |l.grants| && l.grants[j].messagesLeft >= 0 ==> r.grants[j].messagesLeft >= 0
  {
    match ActiveIndex(l.grants, userId)
    case None => l
    case Some(i) =>
      var g := l.grants[i];
      if g.messagesLeft > 0 then l.(grants := l.grants[i := g.(messagesLeft := g.messagesLeft - 1)])
      else l
  }

  /** `getUserTariffInfo(userId)`: reads only. With no active grant it reports
      Free with 10 messages and no end date, without creating a grant;
      otherwise the grant's tariff name, balance and end date. Reading the name
      of a tariff row that is missing throws. */
  function GetUserTariffInfo(l: Ledger, userId: nat): (r: Result<TariffInfo>)
    ensures GetUserTariff(l, userId).None? ==> r == Ok(TariffInfo(FreeName, DefaultInfoMessages, None))
    ensures GetUserTariff(l, userId).Some? ==>
      var g := GetUserTariff(l, userId).value;
      && (r.Ok? <==> TariffById(l.tariffs, g.tariffId).Some?)
      && (r.Ok? ==> r.value == TariffInfo(TariffById(l.tariffs, g.tariffId).value.name, g.messagesLeft, g.endAt))
    ensures r.Err? ==> r.error == TariffNotLoaded
  {
    match GetUserTariff(l, userId)
    case None => Ok(TariffInfo(FreeName, DefaultInfoMessages, None))
    case Some(g) =>
      match TariffById(l.tariffs, g.tariffId)
      case None => Err(TariffNotLoaded)
      case Some(t) => Ok(TariffInfo(t.name, g.messagesLeft, g.endAt))
  }

  /** On a valid ledger the info never fails to load the tariff, and it
      reports a non-negative balance: the active grant's, or Free's ten. */
  lemma TariffInfoOfValid(l: Ledger, userId: nat)
    requires Valid(l)
    ensures GetUserTariffInfo(l, userId).Ok?
    ensures GetUserTariffInfo(l, userId).value.messagesLeft >= 0
  {
    var g := GetUserTariff(l, userId);
    if g.Some? {
      var i :| 0 <= i < |l.grants| && l.grants[i] == g.value;
      assert TariffById(l.tariffs, l.grants[i].tariffId).Some?;
      assert l.grants[i].messagesLeft >= 0;
    }
  }

  /** The bulk `update({ user_id, is_active: true }, { is_active: false })`. */
  function DeactivateAll(grants: seq<Grant>, userId: nat): (r: seq<Grant>)
    ensures |r| == |grants|
    ensures forall j :: 0 <= j < |grants| ==>
      r[j] == grants[j].(isActive := grants[j].isActive && grants[j].userId != userId)
  {
    if |grants| == 0 then []
    else
      var g := grants[|grants| - 1];
      DeactivateAll(grants[..|grants| - 1], userId) + [g.(isActive := g.isActive && g.userId != userId)]
  }

  /** Adding `days` with `setDate(getDate() + days)`, in a zone without
      daylight-saving shifts; a null duration adds nothing. */
  function AddDays(t: int, days: Option<int>): (r: int)
    ensures days.None? ==> r == t
    // A whole number of days later: the time of day is kept.
    ensures (r - t) % DayMs == 0 && r % DayMs == t % DayMs
    ensures days.Some? ==> (r - t) / DayMs == days.value
    ensures days.Some? && days.value >= 0 ==> r >= t
  {
    t + (if days.Some? then days.value else 0) * DayMs
  }

  /** `upgradeToPremium(userId)` at time `now`: throws, saving nothing, when
      Premium is missing; otherwise deactivates every active grant of the user
      and saves an active Premium grant with Premium's allotment that ends
      `duration_days` after now. */
  function UpgradeToPremium(l: Ledger, userId: nat, now: int): (r: (Ledger, Result<Grant>))
    ensures r.0.tariffs == l.tariffs
    ensures r.1.Err? <==> FindTariff(l.tariffs, PremiumName).None?
    ensures r.1.Err? ==> r == (l, Err(PremiumTariffNotFound))
    ensures r.1.Ok? ==>
      var premium := FindTariff(l.tariffs, PremiumName).value;
      var g := r.1.value;
      && r.0.grants == DeactivateAll(l.grants, userId) + [g]
      && IsActiveGrantOf(g, userId) && g.tariffId == premium.id
      && g.messagesLeft == premium.messagesLimit
      && g.startAt == now && g.endAt == Some(AddDays(now, premium.durationDays))
      // The new grant is the user's only active one, so it is what getUserTariff finds.
      && GetUserTariff(r.0, userId) == Some(g)
    // Other users' grants are untouched.
    ensures forall j :: 0 <= j < |l.grants| && l.grants[j].userId != userId ==> r.0.grants[j] == l.grants[j]
  {
    match FindTariff(l.tariffs, PremiumName)
    case None => (l, Err(PremiumTariffNotFound))
    case Some(premium) =>
      var cleared := DeactivateAll(l.grants, userId);
      var g := NewGrant(l, userId, premium, now, Some(AddDays(now, premium.durationDays)));
      var grants := cleared + [g];
      assert forall j :: 0 <= j < |cleared| ==> !IsActiveGrantOf(grants[j], userId);
      FirstIndexIs(grants, (h: Grant) => IsActiveGrantOf(h, userId), |cleared|);
      (l.(grants := grants), Ok(g))
  }

  // ---------------------------------------------------------------------------
  // The ledger invariant under sequential calls
  // ---------------------------------------------------------------------------

  /** Under the invariant, the active grant `getUserTariff` finds is the
      user's only one. */
  lemma OnlyActive(grants: seq<Grant>, userId: nat)
    requires AtMostOneActive(grants)
    requires ActiveIndex(grants, userId).Some?
    ensures forall j :: 0 <= j < |grants| && IsActiveGrantOf(grants[j], userId) ==> j == ActiveIndex(grants, userId).value
  {
  }

  /** Appending an active grant for a user with no active grant keeps the invariant. */
  lemma AppendActivePreserves(grants: seq<Grant>, g: Grant)
    requires AtMostOneActive(grants)
    requires forall j :: 0 <= j < |grants| ==> !IsActiveGrantOf(grants[j], g.userId)
    ensures AtMostOneActive(grants + [g])
  {
    var s := grants + [g];
    assert forall k :: 0 <= k < |grants| ==> s[k] == grants[k];
  }

  lemma CanUserSendMessagePreservesValid(l: Ledger, userId: nat, now: int)
    requires Valid(l)
    ensures Valid(CanUserSendMessage(l, userId, now).0)
  {
    var r := CanUserSendMessage(l, userId, now);
    match ActiveIndex(l.grants, userId)
    case None =>
      AssignFreeTariffPreservesValid(l, userId, now);
      assert r.0 == l || r.0 == AssignFreeTariff(l, userId, now).value.0;
    case Some(i) =>
      if Expired(l.grants[i], now) {
        var cleared := l.(grants := Deactivate(l.grants, i));
        DeactivatePreservesValid(l, userId, i);
        AssignFreeTariffPreservesValid(cleared, userId, now);
        assert r.0 == cleared || r.0 == AssignFreeTariff(cleared, userId, now).value.0;
      } else {
        assert r.0 == l;
      }
  }

  /** Deactivating a user's active grant keeps the invariant and leaves the
      user with no active grant. */
  lemma DeactivatePreservesValid(l: Ledger, userId: nat, i: nat)
    requires Valid(l) && ActiveIndex(l.grants, userId) == Some(i)
    ensures Valid(l.(grants := Deactivate(l.grants, i)))
    ensures ActiveIndex(Deactivate(l.grants, i), userId).None?
  {
    OnlyActive(l.grants, userId);
    var cleared := l.(grants := Deactivate(l.grants, i));
    assert forall j :: 0 <= j < |cleared.grants| ==> cleared.grants[j].tariffId == l.grants[j].tariffId;
  }

  /** Assigning Free to a user with no active grant keeps the invariant. */
  lemma AssignFreeTariffPreservesValid(l: Ledger, userId: nat, now: int)
    requires Valid(l) && ActiveIndex(l.grants, userId).None?
    ensures AssignFreeTariff(l, userId, now).Ok? ==> Valid(AssignFreeTariff(l, userId, now).value.0)
  {
    if FindTariff(l.tariffs, FreeName).Some? {
      var (l', g) := AssignFreeTariff(l, userId, now).value;
      AppendActivePreserves(l.grants, g);
      AppendedGrantKeepsReferences(l, g);
    }
  }

  /** A grant on a catalogue tariff keeps the foreign key and, seeded with that
      tariff's allotment, a non-negative balance. */
  lemma AppendedGrantKeepsReferences(l: Ledger, g: Grant)
    requires NonNegativeBalances(l.grants) && NonNegativeLimits(l.tariffs) && GrantsReferToTariffs(l)
    requires exists k :: 0 <= k < |l.tariffs| && l.tariffs[k].id == g.tariffId && l.tariffs[k].messagesLimit == g.messagesLeft
    ensures NonNegativeBalances(l.grants + [g])
    ensures GrantsReferToTariffs(l.(grants := l.grants + [g]))
  {
    var s := l.grants + [g];
    assert forall j :: 0 <= j < |l.grants| ==> s[j] == l.grants[j];
    var k :| 0 <= k < |l.tariffs| && l.tariffs[k].id == g.tariffId && l.tariffs[k].messagesLimit == g.messagesLeft;
    assert TariffById(l.tariffs, g.tariffId).Some?;
  }

  lemma DeductMessagePreservesValid(l: Ledger, userId: nat)
    requires Valid(l)
    ensures Valid(DeductMessage(l, userId))
  {
    var r := DeductMessage(l, userId);
    assert forall j :: 0 <= j < |l.grants| ==>
      r.grants[j].userId == l.grants[j].userId && r.grants[j].isActive == l.grants[j].isActive
      && r.grants[j].tariffId == l.grants[j].tariffId;
  }

  lemma UpgradeToPremiumPreservesValid(l: Ledger, userId: nat, now: int)
    requires Valid(l)
    ensures Valid(UpgradeToPremium(l, userId, now).0)
  {
    var (r, res) := UpgradeToPremium(l, userId, now);
    if res.Ok? {
      var cleared := l.(grants := DeactivateAll(l.grants, userId));
      var g := res.value;
      DeactivateAllPreservesValid(l, userId);
      AppendActivePreserves(cleared.grants, g);
      AppendedGrantKeepsReferences(cleared, g);
      assert r == cleared.(grants := cleared.grants + [g]);
    }
  }

  /** Deactivating all of a user's grants keeps the invariant and leaves the
      user with no active grant. */
  lemma DeactivateAllPreservesValid(l: Ledger, userId: nat)
    requires Valid(l)
    ensures Valid(l.(grants := DeactivateAll(l.grants, userId)))
    ensures forall j :: 0 <= j < |l.grants| ==> !IsActiveGrantOf(DeactivateAll(l.grants, userId)[j], userId)
  {
    var cleared := DeactivateAll(l.grants, userId);
    assert forall j :: 0 <= j < |cleared| ==>
      cleared[j].tariffId == l.grants[j].tariffId && cleared[j].messagesLeft == l.grants[j].messagesLeft;
  }

  /** After a "yes" the user has an active grant: the current one, which has
      messages left, or, when none was current, the Free grant just saved, with
      Free's full allotment. */
  lemma CanUserSendMessageYes(l: Ledger, userId: nat, now: int)
    requires Valid(l)
    requires CanUserSendMessage(l, userId, now).1 == Ok(true)
    ensures var l' := CanUserSendMessage(l, userId, now).0;
            GetUserTariff(l', userId).Some?
    ensures var l' := CanUserSendMessage(l, userId, now).0;
            GetUserTariff(l, userId).Some? && !Expired(GetUserTariff(l, userId).value, now) ==>
            GetUserTariff(l', userId).value.messagesLeft > 0
    ensures var l' := CanUserSendMessage(l, userId, now).0;
            GetUserTariff(l, userId).None? || Expired(GetUserTariff(l, userId).value, now) ==>
            && FindTariff(l.tariffs, FreeName).Some?
            && GetUserTariff(l', userId) == Some(l'.grants[|l'.grants| - 1])
            && GetUserTariff(l', userId).value.messagesLeft == FindTariff(l.tariffs, FreeName).value.messagesLimit
  {
    var l' := CanUserSendMessage(l, userId, now).0;
    match ActiveIndex(l.grants, userId)
    case None =>
      AssignFreeTariffFound(l, userId, now);
      assert l' == AssignFreeTariff(l, userId, now).value.0;
    case Some(i) =>
      if Expired(l.grants[i], now) {
        var cleared := l.(grants := Deactivate(l.grants, i));
        DeactivatePreservesValid(l, userId, i);
        AssignFreeTariffFound(cleared, userId, now);
        assert l' == AssignFreeTariff(cleared, userId, now).value.0;
      } else {
        assert l' == l;
      }
  }

  /** For a user with no active grant, the Free grant assigned is the one
      `getUserTariff` then finds, holding Free's full allotment. */
  lemma AssignFreeTariffFound(l: Ledger, userId: nat, now: int)
    requires ActiveIndex(l.grants, userId).None?
    ensures var r := AssignFreeTariff(l, userId, now);
      r.Ok? ==>
        && GetUserTariff(r.value.0, userId) == Some(r.value.1)
        && r.value.1 == r.value.0.grants[|r.value.0.grants| - 1]
        && r.value.1.messagesLeft == FindTariff(l.tariffs, FreeName).value.messagesLimit
  {
    var r := AssignFreeTariff(l, userId, now);
    if r.Ok? {
      FirstIndexAppend(l.grants, r.value.1, (h: Grant) => IsActiveGrantOf(h, userId));
    }
  }
}
