/** The referral ledger (src/modules/referrals/referrals.service.ts): one
    record per (referrer, referee) pair, a bonus flag that only ever moves from
    false to true, five messages credited to the referrer's active grant per
    pending referral, and the `/start` payload that names the referrer. */
module Referrals {
  import opened Base
  import Users
  import Tariffs

  /** A row of `referrals`; `bonus_given` defaults to false. */
  datatype Referral = Referral(id: nat, referrerId: nat, refereeId: nat, bonusGiven: bool)

  /** What `getReferralStats` reports. */
  datatype Stats = Stats(totalReferrals: nat, processedReferrals: nat, referralLink: string)

  /** Messages credited per pending referral. */
  const BonusPerReferral: nat := 5

  /** The bot's deep link up to its `start` payload. */
  const BotStartLink: string := "https://t.me/pokupochkastars_bot?start="

  /** The payload prefix that marks a referral. */
  const RefPrefix: string := "ref_"

  predicate IsPair(r: Referral, referrerId: nat, refereeId: nat)
  {
    r.referrerId == referrerId && r.refereeId == refereeId
  }

  predicate IsPendingOf(r: Referral, referrerId: nat)
  {
    r.referrerId == referrerId && !r.bonusGiven
  }

  /** The ledger invariant: no pair is recorded twice. */
  ghost predicate UniquePairs(refs: seq<Referral>)
  {
    forall i, j :: 0 <= i < |refs| && 0 <= j < |refs| && IsPair(refs[i], refs[j].referrerId, refs[j].refereeId)
      ==> i == j
  }

  /** `processReferral(referrerId, refereeId)`: records the pair, with the
      bonus still to give, unless it is already recorded. */
  function ProcessReferral(refs: seq<Referral>, referrerId: nat, refereeId: nat): (r: seq<Referral>)
    ensures (exists i :: 0 <= i < |refs| && IsPair(refs[i], referrerId, refereeId)) ==> r == refs
    ensures (forall i :: 0 <= i < |refs| ==> !IsPair(refs[i], referrerId, refereeId)) ==>
      r == refs + [Referral(|refs| + 1, referrerId, refereeId, false)]
  {
    match FirstIndex(refs, (x: Referral) => IsPair(x, referrerId, refereeId))
    case Some(_) => refs
    case None => refs + [Referral(|refs| + 1, referrerId, refereeId, false)]
  }

  /** Recording a pair twice is recording it once, and the ledger keeps at
      most one record per pair. */
  lemma ProcessReferralIdempotent(refs: seq<Referral>, referrerId: nat, refereeId: nat)
    requires UniquePairs(refs)
    ensures ProcessReferral(ProcessReferral(refs, referrerId, refereeId), referrerId, refereeId)
            == ProcessReferral(refs, referrerId, refereeId)
    ensures UniquePairs(ProcessReferral(refs, referrerId, refereeId))
    ensures exists i :: 0 <= i < |ProcessReferral(refs, referrerId, refereeId)|
              && IsPair(ProcessReferral(refs, referrerId, refereeId)[i], referrerId, refereeId)
  {
    var r := ProcessReferral(refs, referrerId, refereeId);
    if forall i :: 0 <= i < |refs| ==> !IsPair(refs[i], referrerId, refereeId) {
      assert IsPair(r[|refs|], referrerId, refereeId);
    }
  }

  /** Every referral of `referrerId` marked as processed. */
  function MarkGiven(refs: seq<Referral>, referrerId: nat): (r: seq<Referral>)
    ensures |r| == |refs|
    ensures forall i :: 0 <= i < |refs| ==>
      r[i] == if refs[i].referrerId == referrerId then refs[i].(bonusGiven := true) else refs[i]
  {
    seq(|refs|, i requires 0 <= i < |refs| =>
      if refs[i].referrerId == referrerId then refs[i].(bonusGiven := true) else refs[i])
  }

  /** Number of referrals of `referrerId` whose bonus is still to give. */
  function Pending(refs: seq<Referral>, referrerId: nat): nat
  {
    Count(refs, (x: Referral) => IsPendingOf(x, referrerId))
  }

  /** `giveReferralBonus(referrerId)`: with pending referrals, credits five
      messages per pending referral to the referrer's active grant, if there
      is one, and marks all of them processed even when there is no grant to
      credit; with none, changes nothing. */
  function GiveReferralBonus(refs: seq<Referral>, l: Tariffs.Ledger, referrerId: nat)
    : (r: (seq<Referral>, Tariffs.Ledger))
    ensures Pending(refs, referrerId) == 0 ==> r == (refs, l)
    ensures r.1.tariffs == l.tariffs && |r.1.grants| == |l.grants|
    // The credit goes to the active grant only, and is lost without one.
    ensures Pending(refs, referrerId) > 0 ==>
      match Tariffs.ActiveIndex(l.grants, referrerId)
      case None => r.1 == l
      case Some(i) =>
        && r.1.grants[i] == l.grants[i].(messagesLeft := l.grants[i].messagesLeft
                                                         + BonusPerReferral * Pending(refs, referrerId))
        && forall j :: 0 <= j < |l.grants| && j != i ==> r.1.grants[j] == l.grants[j]
    // Afterwards every referral of the referrer is processed; nothing else changes.
    ensures |r.0| == |refs|
    ensures forall i :: 0 <= i < |refs| ==>
      && (refs[i].referrerId == referrerId ==> r.0[i].bonusGiven)
      && (refs[i].bonusGiven ==> r.0[i].bonusGiven)
      && r.0[i].(bonusGiven := refs[i].bonusGiven) == refs[i]
    ensures forall i :: 0 <= i < |refs| && refs[i].referrerId != referrerId ==> r.0[i] == refs[i]
  {
    var pending := Pending(refs, referrerId);
    if pending == 0 then
      FilterEmpty(refs, (x: Referral) => IsPendingOf(x, referrerId));
      (refs, l)
    else
      var credited :=
        match Tariffs.ActiveIndex(l.grants, referrerId)
        case None => l
        case Some(i) =>
          l.(grants := l.grants[i := l.grants[i].(messagesLeft := l.grants[i].messagesLeft
                                                                  + BonusPerReferral * pending)]);
      (MarkGiven(refs, referrerId), credited)
  }

  /** No referral of the referrer is left pending afterwards. */
  lemma NothingPendingAfterBonus(refs: seq<Referral>, l: Tariffs.Ledger, referrerId: nat)
    ensures Pending(GiveReferralBonus(refs, l, referrerId).0, referrerId) == 0
  {
    var r := GiveReferralBonus(refs, l, referrerId).0;
    FilterNone(r, (x: Referral) => IsPendingOf(x, referrerId));
  }

  /** A second bonus run straight after the first changes nothing. */
  lemma GiveReferralBonusTwice(refs: seq<Referral>, l: Tariffs.Ledger, referrerId: nat)
    ensures var (refs1, l1) := GiveReferralBonus(refs, l, referrerId);
            GiveReferralBonus(refs1, l1, referrerId) == (refs1, l1)
  {
    NothingPendingAfterBonus(refs, l, referrerId);
  }

  /** A bonus run only raises balances: every grant keeps its owner, tariff,
      dates and state. */
  lemma GiveReferralBonusRaises(refs: seq<Referral>, l: Tariffs.Ledger, referrerId: nat)
    ensures var l1 := GiveReferralBonus(refs, l, referrerId).1;
      forall j :: 0 <= j < |l.grants| ==>
        && l1.grants[j].(messagesLeft := l.grants[j].messagesLeft) == l.grants[j]
        && l1.grants[j].messagesLeft >= l.grants[j].messagesLeft
  {
  }

  /** Crediting keeps the ledger invariant: it only raises one balance. */
  lemma GiveReferralBonusPreservesValid(refs: seq<Referral>, l: Tariffs.Ledger, referrerId: nat)
    requires Tariffs.Valid(l)
    ensures Tariffs.Valid(GiveReferralBonus(refs, l, referrerId).1)
  {
    var l1 := GiveReferralBonus(refs, l, referrerId).1;
    assert forall j :: 0 <= j < |l.grants| ==>
      && l1.grants[j].userId == l.grants[j].userId && l1.grants[j].isActive == l.grants[j].isActive
      && l1.grants[j].tariffId == l.grants[j].tariffId
      && l1.grants[j].messagesLeft >= l.grants[j].messagesLeft;
  }

  /** `getReferralStats(userId)`: the referrals where the user is the
      referrer, how many have had their bonus, and the user's link. */
  function GetReferralStats(refs: seq<Referral>, userId: nat): (r: Stats)
    ensures r.totalReferrals == Count(refs, (x: Referral) => x.referrerId == userId)
    ensures r.processedReferrals == Count(refs, (x: Referral) => x.referrerId == userId && x.bonusGiven)
    ensures r.processedReferrals <= r.totalReferrals
    ensures r.referralLink == ReferralLink(userId)
  {
    var mine := Filter(refs, (x: Referral) => x.referrerId == userId);
    var processed := Filter(mine, (x: Referral) => x.bonusGiven);
    FilterCountBound(refs, (x: Referral) => x.referrerId == userId && x.bonusGiven,
                     (x: Referral) => x.referrerId == userId);
    FilterOfFilter(refs, (x: Referral) => x.referrerId == userId, (x: Referral) => x.bonusGiven,
                   (x: Referral) => x.referrerId == userId && x.bonusGiven);
    Stats(|mine|, |processed|, ReferralLink(userId))
  }

  /** After a bonus run every referral of the referrer counts as processed. */
  lemma StatsAfterBonus(refs: seq<Referral>, l: Tariffs.Ledger, referrerId: nat)
    ensures var s := GetReferralStats(GiveReferralBonus(refs, l, referrerId).0, referrerId);
            s.processedReferrals == s.totalReferrals
    ensures GetReferralStats(GiveReferralBonus(refs, l, referrerId).0, referrerId).totalReferrals
            == GetReferralStats(refs, referrerId).totalReferrals
  {
    var r := GiveReferralBonus(refs, l, referrerId).0;
    if Pending(refs, referrerId) == 0 {
      FilterNone(refs, (x: Referral) => IsPendingOf(x, referrerId));
    }
    FilterCongruent(r, (x: Referral) => x.referrerId == referrerId && x.bonusGiven,
                    (x: Referral) => x.referrerId == referrerId);
    FilterEqualAt(refs, r, (x: Referral) => x.referrerId == referrerId);
  }

  /** The referral link handed to user `userId`. */
  function ReferralLink(userId: nat): (r: string)
    // The bot's start link, then a payload that starts with "ref_".
    ensures StartsWith(r, BotStartLink)
    ensures r[|BotStartLink|..] == StartPayload(userId)
    ensures StartsWith(r[|BotStartLink|..], RefPrefix)
  {
    BotStartLink + StartPayload(userId)
  }

  /** Different users get different links, so a link names one referrer. */
  lemma ReferralLinkInjective(a: nat, b: nat)
    requires a != b
    ensures ReferralLink(a) != ReferralLink(b)
  {
    if ReferralLink(a) == ReferralLink(b) {
      var pa, pb := StartPayload(a), StartPayload(b);
      assert pa == ReferralLink(a)[|BotStartLink|..];
      assert pa[|RefPrefix|..] == NatToString(a) + "";
      assert pb[|RefPrefix|..] == NatToString(b) + "";
      ParseIntOfNatToString(a, "");
      ParseIntOfNatToString(b, "");
      assert false;
    }
  }

  /** The `start` payload carried by that link, which Telegram passes to the
      bot as `ctx.startPayload`. */
  function StartPayload(userId: nat): (r: string)
    ensures StartsWith(r, RefPrefix)
  {
    RefPrefix + NatToString(userId)
  }

  /** `getReferrerFromStartParam(startParam)`: the id after "ref_", read with
      `parseInt`, when a user with that id exists; `None` otherwise. */
  function GetReferrerFromStartParam(users: seq<Users.User>, startParam: string): (r: Option<nat>)
    ensures r.Some? <==>
      && StartsWith(startParam, RefPrefix)
      && ParseInt(startParam[|RefPrefix|..]).Some?
      && Users.FindById(users, ParseInt(startParam[|RefPrefix|..]).value).Some?
    ensures r.Some? ==>
      && ParseInt(startParam[|RefPrefix|..]) == Some(r.value as int)
      && exists i :: 0 <= i < |users| && users[i].id == r.value
  {
    if !StartsWith(startParam, RefPrefix) then None
    else match ParseInt(startParam[|RefPrefix|..])
      case None => None
      case Some(id) =>
        match Users.FindById(users, id)
        case None => None
        case Some(u) => Some(u.id)
  }

  /** The link round trip: the payload of an existing user's referral link
      names that user. */
  lemma ReferralLinkRoundTrip(users: seq<Users.User>, u: Users.User)
    requires u in users
    ensures ReferralLink(u.id) == BotStartLink + StartPayload(u.id)
    ensures GetReferrerFromStartParam(users, StartPayload(u.id)) == Some(u.id)
  {
    var p := StartPayload(u.id);
    assert p[|RefPrefix|..] == NatToString(u.id);
    assert p[|RefPrefix|..] == NatToString(u.id) + "";
    ParseIntOfNatToString(u.id, "");
  }

  /** `parseInt` keeps only the leading digits: trailing text after the id
      still names the referrer. */
  lemma TrailingTextIgnored(users: seq<Users.User>, u: Users.User, rest: string)
    requires u in users
    requires |rest| == 0 || (!IsDigit(rest[0]) && rest[0] != 'x' && rest[0] != 'X')
    ensures GetReferrerFromStartParam(users, StartPayload(u.id) + rest) == Some(u.id)
  {
    var p := StartPayload(u.id) + rest;
    assert p[..|RefPrefix|] == RefPrefix;
    assert p[|RefPrefix|..] == NatToString(u.id) + rest;
    ParseIntOfNatToString(u.id, rest);
  }
}
