/** The bot's update handlers (src/modules/telegram/telegram.service.ts) as
    transitions of the whole state: `/start` with a referral payload, the
    text pipeline (user, flood guard, quota, Default dialog, the user's turn,
    the context, the reply, the assistant's turn, the debit, the referral
    bonus), and the photo and document handlers (quota, then one debit). An
    exception anywhere in a handler is caught and answered with an apology,
    and whatever was saved before it stays saved. */
module Telegram {
  import opened Base
  import Users
  import Tariffs
  import Dialogs
  import Referrals
  import SpamGuard

  /** Everything the handlers read and write: the tables and the guard's
      process memory. */
  datatype World = World(
    reg: Users.Registry,
    ledger: Tariffs.Ledger,
    store: Dialogs.Store,
    refs: seq<Referrals.Referral>,
    guard: SpamGuard.Guard)

  /** The calls the handlers make into code outside the model: the chat
      completion on a context, `JSON.stringify` of a profile, the image
      description and the text extraction of a file. None of them throws. */
  datatype Env = Env(
    chat: seq<Dialogs.Turn> -> string,
    stringify: Users.Profile -> string,
    describe: string -> string,
    readText: string -> string)

  /** `ctx.from`: the sender's numeric Telegram id and names. */
  datatype Sender = Sender(id: nat, username: Option<string>, firstName: Option<string>)

  /** How an update is answered. */
  datatype Reply =
    | Ignored                                // the flood guard dropped the text
    | OutOfMessages(info: Tariffs.TariffInfo) // text refused for quota, with the tariff shown
    | QuotaExhausted                         // photo or document refused for quota
    | Answer(text: string)                   // the model's reply, description or extracted text
    | ImagesOnly                             // a document that is not an image
    | Apology                                // an exception was caught

  const ImageMimePrefix: string := "image/"

  /** The registry's key for a sender: `ctx.from.id.toString()`. */
  function TelegramKey(from: Sender): string
  {
    NatToString(from.id)
  }

  ghost predicate Valid(w: World)
  {
    && Users.Valid(w.reg)
    && Tariffs.Valid(w.ledger)
    && Dialogs.DialogsNumbered(w.store.dialogs)
    && Dialogs.AtMostOneDefault(w.store.dialogs)
    && Referrals.UniquePairs(w.refs)
  }

  // ---------------------------------------------------------------------------
  // /start
  // ---------------------------------------------------------------------------

  /** `/start [payload]` at time `now`: the sender is registered, and a
      truthy payload naming another existing user records the referral. */
  function HandleStart(w: World, from: Sender, payload: string, now: int): (r: World)
    ensures r.ledger == w.ledger && r.store == w.store && r.guard == w.guard
    ensures r.reg == Users.FindOrCreate(w.reg, TelegramKey(from), from.username, from.firstName, now).0
  {
    var (reg1, user) := Users.FindOrCreate(w.reg, TelegramKey(from), from.username, from.firstName, now);
    var w1 := w.(reg := reg1);
    if |payload| == 0 then w1
    else
      match Referrals.GetReferrerFromStartParam(reg1.users, payload)
      case None => w1
      case Some(referrerId) =>
        if referrerId != 0 && referrerId != user.id then
          w1.(refs := Referrals.ProcessReferral(w.refs, referrerId, user.id))
        else w1
  }

  /** `/start` records a referral only when the payload resolves to an
      existing user other than the sender (with a truthy id), and then the
      pair is recorded. */
  lemma HandleStartRecordsOnlyOthers(w: World, from: Sender, payload: string, now: int)
    ensures var (reg1, user) := Users.FindOrCreate(w.reg, TelegramKey(from), from.username, from.firstName, now);
      var referrer := Referrals.GetReferrerFromStartParam(reg1.users, payload);
      var r := HandleStart(w, from, payload, now);
      && (r.refs != w.refs ==> referrer.Some? && referrer.value != 0 && referrer.value != user.id)
      && (referrer.Some? && referrer.value != 0 && referrer.value != user.id ==>
            exists i :: 0 <= i < |r.refs| && Referrals.IsPair(r.refs[i], referrer.value, user.id))
  {
    var (reg1, user) := Users.FindOrCreate(w.reg, TelegramKey(from), from.username, from.firstName, now);
    var referrer := Referrals.GetReferrerFromStartParam(reg1.users, payload);
    if referrer.Some? && referrer.value != 0 && referrer.value != user.id {
      assert |payload| > 0 by {
        assert StartsWith(payload, Referrals.RefPrefix);
      }
      var refs1 := Referrals.ProcessReferral(w.refs, referrer.value, user.id);
      if forall i :: 0 <= i < |w.refs| ==> !Referrals.IsPair(w.refs[i], referrer.value, user.id) {
        assert Referrals.IsPair(refs1[|w.refs|], referrer.value, user.id);
      }
    }
  }

  /** Sending the same `/start` twice is sending it once. */
  lemma HandleStartIdempotent(w: World, from: Sender, payload: string, t1: int, t2: int)
    requires Users.UniqueTelegramIds(w.reg.users) && Referrals.UniquePairs(w.refs)
    ensures var w1 := HandleStart(w, from, payload, t1);
      HandleStart(w1, from, payload, t2) == w1
  {
    var key := TelegramKey(from);
    var (reg1, user) := Users.FindOrCreate(w.reg, key, from.username, from.firstName, t1);
    Users.FindOrCreateIdempotent(w.reg, key, from.username, from.firstName, t1, from.username, from.firstName, t2);
    if |payload| > 0 {
      match Referrals.GetReferrerFromStartParam(reg1.users, payload)
      case None =>
      case Some(referrerId) =>
        if referrerId != 0 && referrerId != user.id {
          Referrals.ProcessReferralIdempotent(w.refs, referrerId, user.id);
        }
    }
  }

  // ---------------------------------------------------------------------------
  // Text messages
  // ---------------------------------------------------------------------------

  /** The referrers of the user's referrals whose bonus is still to give:
      `find({ where: { referee_id, bonus_given: false } })`, in table order. */
  function PendingReferrers(refs: seq<Referrals.Referral>, userId: nat): (r: seq<nat>)
    ensures forall x :: x in r <==> exists i :: 0 <= i < |refs| && refs[i].refereeId == userId
                                                && !refs[i].bonusGiven && refs[i].referrerId == x
  {
    var p := (x: Referrals.Referral) => x.refereeId == userId && !x.bonusGiven;
    var pending := Filter(refs, p);
    var r := seq(|pending|, k requires 0 <= k < |pending| => pending[k].referrerId);
    assert forall x :: x in r <==> exists i :: 0 <= i < |refs| && refs[i].refereeId == userId
                                             && !refs[i].bonusGiven && refs[i].referrerId == x by {
      FilterMembershipAll(refs, p);
      forall x
        ensures x in r <==> exists i :: 0 <= i < |refs| && refs[i].refereeId == userId
                                      && !refs[i].bonusGiven && refs[i].referrerId == x
      {
        if x in r {
          var k :| 0 <= k < |r| && r[k] == x;
          assert pending[k] in pending;
        }
        if exists i :: 0 <= i < |refs| && refs[i].refereeId == userId && !refs[i].bonusGiven && refs[i].referrerId == x {
          var i :| 0 <= i < |refs| && refs[i].refereeId == userId && !refs[i].bonusGiven && refs[i].referrerId == x;
          assert p(refs[i]);
          assert refs[i] in pending;
          var k :| 0 <= k < |pending| && pending[k] == refs[i];
          assert r[k] == x;
        }
      }
    }
    r
  }

  /** `giveReferralBonus` for each referrer in turn. */
  function BonusAll(refs: seq<Referrals.Referral>, l: Tariffs.Ledger, referrers: seq<nat>)
    : (r: (seq<Referrals.Referral>, Tariffs.Ledger))
    ensures |r.0| == |refs| && r.1.tariffs == l.tariffs && |r.1.grants| == |l.grants|
    // Every listed referrer ends with all its referrals processed.
    ensures forall i :: 0 <= i < |refs| && refs[i].referrerId in referrers ==> r.0[i].bonusGiven
    // Flags only move from false to true, and nothing else in a referral changes.
    ensures forall i :: 0 <= i < |refs| ==>
      (refs[i].bonusGiven ==> r.0[i].bonusGiven) && r.0[i].(bonusGiven := refs[i].bonusGiven) == refs[i]
    // Referrals of other referrers are untouched.
    ensures forall i :: 0 <= i < |refs| && refs[i].referrerId !in referrers ==> r.0[i] == refs[i]
    // Every grant keeps its owner, tariff and state, and no balance drops.
    ensures forall j :: 0 <= j < |l.grants| ==>
      && r.1.grants[j].(messagesLeft := l.grants[j].messagesLeft) == l.grants[j]
      && r.1.grants[j].messagesLeft >= l.grants[j].messagesLeft
    decreases |referrers|
  {
    if |referrers| == 0 then (refs, l)
    else
      var (refs1, l1) := Referrals.GiveReferralBonus(refs, l, referrers[0]);
      Referrals.GiveReferralBonusRaises(refs, l, referrers[0]);
      var r := BonusAll(refs1, l1, referrers[1..]);
      assert forall x :: x in referrers <==> x == referrers[0] || x in referrers[1..];
      r
  }

  /** What `handleText` does once the quota check said yes: file the text in
      the Default dialog, build the context, ask for the reply, file it, take
      one message off the quota and pay the pending referral bonuses. */
  function Exchange(w: World, env: Env, userId: nat, text: string, now: int): (r: (World, Reply))
    ensures r.0.reg == w.reg && r.0.guard == w.guard
    // Either the model's reply or, when the context cannot be built, an
    // apology that debits nothing and pays no bonus.
    ensures r.1.Answer? || r.1.Apology?
    ensures r.1.Apology? ==> r.0.ledger == w.ledger && r.0.refs == w.refs
  {
    var (s1, dialog) := Dialogs.GetOrCreateDefaultDialog(w.store, userId, now);
    var s2 := Dialogs.AddMessage(s1, dialog.id, userId, Dialogs.UserRole, text, 0, now);
    match Dialogs.BuildContext(s2, w.reg, userId, dialog.id, env.stringify)
    case Err(_) => (w.(store := s2), Apology)
    case Ok(context) =>
      var response := env.chat(context);
      var s3 := Dialogs.AddMessage(s2, dialog.id, userId, Dialogs.AssistantRole, response, 0, now);
      var debited := Tariffs.DeductMessage(w.ledger, userId);
      var (refs1, l1) := BonusAll(w.refs, debited, PendingReferrers(w.refs, userId));
      (w.(store := s3, ledger := l1, refs := refs1), Answer(response))
  }

  /** The text handler at time `now`. */
  function HandleText(w: World, env: Env, from: Sender, text: string, now: int): (r: (World, Reply))
    // The sender is registered and the flood guard updated whatever follows.
    ensures r.0.reg == Users.FindOrCreate(w.reg, TelegramKey(from), from.username, from.firstName, now).0
    ensures r.0.guard == SpamGuard.CheckSpam(w.guard, from.id, now).0
    ensures r.1.Ignored? <==> SpamGuard.CheckSpam(w.guard, from.id, now).1.Reject?
    // A text never gets a file handler's reply.
    ensures !r.1.QuotaExhausted? && !r.1.ImagesOnly?
    // A text refused for quota files no turn and pays no bonus.
    ensures r.1.OutOfMessages? ==> r.0.store == w.store && r.0.refs == w.refs
  {
    var (reg1, user) := Users.FindOrCreate(w.reg, TelegramKey(from), from.username, from.firstName, now);
    var (guard1, verdict) := SpamGuard.CheckSpam(w.guard, from.id, now);
    var w1 := w.(reg := reg1, guard := guard1);
    if verdict.Reject? then (w1, Ignored)
    else
      var (l1, canSend) := Tariffs.CanUserSendMessage(w.ledger, user.id, now);
      var w2 := w1.(ledger := l1);
      match canSend
      case Err(_) => (w2, Apology)
      case Ok(false) =>
        (match Tariffs.GetUserTariffInfo(l1, user.id)
         case Err(_) => (w2, Apology)
         case Ok(info) => (w2, OutOfMessages(info)))
      case Ok(true) => Exchange(w2, env, user.id, text, now)
  }

  /** The flood guard runs after the sender is registered: a dropped text
      still registers the sender, but files no turn, debits nothing and pays
      no bonus. */
  lemma TextIgnoredByGuard(w: World, env: Env, from: Sender, text: string, now: int)
    ensures var (w1, reply) := HandleText(w, env, from, text, now);
      && w1.reg == Users.FindOrCreate(w.reg, TelegramKey(from), from.username, from.firstName, now).0
      && w1.guard == SpamGuard.CheckSpam(w.guard, from.id, now).0
      && (reply == Ignored <==> SpamGuard.CheckSpam(w.guard, from.id, now).1.Reject?)
      && (reply == Ignored ==> w1.store == w.store && w1.ledger == w.ledger && w1.refs == w.refs)
  {
    var (reg1, user) := Users.FindOrCreate(w.reg, TelegramKey(from), from.username, from.firstName, now);
    var (guard1, verdict) := SpamGuard.CheckSpam(w.guard, from.id, now);
    var (w1, reply) := HandleText(w, env, from, text, now);
    if verdict.Reject? {
      assert (w1, reply) == (w.(reg := reg1, guard := guard1), Ignored);
    } else {
      var (l1, canSend) := Tariffs.CanUserSendMessage(w.ledger, user.id, now);
      var w2 := w.(reg := reg1, guard := guard1, ledger := l1);
      if canSend == Ok(true) {
        ExchangeKeepsRegistry(w2, env, user.id, text, now);
      }
      assert w1.reg == reg1 && w1.guard == guard1 && reply != Ignored;
    }
  }

  /** An exchange leaves the registry and the flood guard alone and never
      answers `Ignored`. */
  lemma ExchangeKeepsRegistry(w: World, env: Env, userId: nat, text: string, now: int)
    ensures var (w1, reply) := Exchange(w, env, userId, text, now);
      w1.reg == w.reg && w1.guard == w.guard && (reply.Answer? || reply == Apology)
  {
  }

  /** A text refused for quota files no turn, debits nothing, pays no bonus
      and saves nothing in the ledger: it is refused exactly when the
      sender's current grant has run out. */
  lemma TextRefusedForQuota(w: World, env: Env, from: Sender, text: string, now: int)
    ensures var (reg1, user) := Users.FindOrCreate(w.reg, TelegramKey(from), from.username, from.firstName, now);
      var (w1, reply) := HandleText(w, env, from, text, now);
      var g := Tariffs.GetUserTariff(w.ledger, user.id);
      && (reply.OutOfMessages? ==>
            && w1.store == w.store && w1.ledger == w.ledger && w1.refs == w.refs
            && g.Some? && !Tariffs.Expired(g.value, now) && g.value.messagesLeft <= 0
            && reply.info.messagesLeft == g.value.messagesLeft)
      && ((SpamGuard.CheckSpam(w.guard, from.id, now).1 == SpamGuard.Allow
           && g.Some? && !Tariffs.Expired(g.value, now) && g.value.messagesLeft <= 0
           && Tariffs.TariffById(w.ledger.tariffs, g.value.tariffId).Some?) ==> reply.OutOfMessages?)
  {
  }

  /** The Default dialog the exchange files into is loadable by its owner. */
  lemma ExchangeFindsDialog(w: World, userId: nat, text: string, now: int)
    requires Dialogs.DialogsNumbered(w.store.dialogs) && Dialogs.AtMostOneDefault(w.store.dialogs)
    ensures var (s1, dialog) := Dialogs.GetOrCreateDefaultDialog(w.store, userId, now);
      var s2 := Dialogs.AddMessage(s1, dialog.id, userId, Dialogs.UserRole, text, 0, now);
      exists i :: 0 <= i < |s2.dialogs| && s2.dialogs[i].id == dialog.id && s2.dialogs[i].userId == userId
  {
    Dialogs.GetOrCreateDefaultDialogKeepsStore(w.store, userId, now);
    var (s1, dialog) := Dialogs.GetOrCreateDefaultDialog(w.store, userId, now);
    var s2 := Dialogs.AddMessage(s1, dialog.id, userId, Dialogs.UserRole, text, 0, now);
    var k :| 0 <= k < |s1.dialogs| && s1.dialogs[k] == dialog;
    assert s2.dialogs[k].id == dialog.id && s2.dialogs[k].userId == userId;
  }

  /** A completed exchange: the reply is the model's answer to the context
      that already holds the user's text; exactly two messages are appended
      to the user's Default dialog, the user's text and then the reply; the
      quota is debited once; and every referral naming the user as referee is
      processed afterwards. */
  lemma ExchangeCompletes(w: World, env: Env, userId: nat, text: string, now: int)
    requires Dialogs.DialogsNumbered(w.store.dialogs) && Dialogs.AtMostOneDefault(w.store.dialogs)
    ensures var (w1, reply) := Exchange(w, env, userId, text, now);
      var (s1, dialog) := Dialogs.GetOrCreateDefaultDialog(w.store, userId, now);
      var n := |w.store.messages|;
      && reply.Answer?
      && Dialogs.IsDefaultOf(dialog, userId) && dialog in w1.store.dialogs
      && w1.store.dialogs == s1.dialogs
      && |w1.store.messages| == n + 2 && w1.store.messages[..n] == w.store.messages
      && w1.store.messages[n].dialogId == dialog.id && w1.store.messages[n].userId == userId
      && w1.store.messages[n].role == Dialogs.UserRole && w1.store.messages[n].content == text
      && w1.store.messages[n + 1].dialogId == dialog.id && w1.store.messages[n + 1].userId == userId
      && w1.store.messages[n + 1].role == Dialogs.AssistantRole && w1.store.messages[n + 1].content == reply.text
      && (forall i :: 0 <= i < |w.refs| && w.refs[i].refereeId == userId ==> w1.refs[i].bonusGiven)
      && (PendingReferrers(w.refs, userId) == [] ==> w1.ledger == Tariffs.DeductMessage(w.ledger, userId))
  {
    ExchangeFindsDialog(w, userId, text, now);
    var (s1, dialog) := Dialogs.GetOrCreateDefaultDialog(w.store, userId, now);
    var s2 := Dialogs.AddMessage(s1, dialog.id, userId, Dialogs.UserRole, text, 0, now);
    var ctx := Dialogs.BuildContext(s2, w.reg, userId, dialog.id, env.stringify);
    assert ctx.Ok?;
    var s3 := Dialogs.AddMessage(s2, dialog.id, userId, Dialogs.AssistantRole, env.chat(ctx.value), 0, now);
    assert s3.messages[..|w.store.messages|] == s2.messages[..|w.store.messages|];
    var pending := PendingReferrers(w.refs, userId);
    forall i | 0 <= i < |w.refs| && w.refs[i].refereeId == userId && !w.refs[i].bonusGiven
      ensures w.refs[i].referrerId in pending
    {
    }
  }

  /** An answered text raises the sender's `messageCount` by two: the text
      and the bot's answer are both filed under the sender's id. */
  lemma ExchangeAddsTwoMessages(w: World, env: Env, userId: nat, text: string, now: int)
    requires Dialogs.DialogsNumbered(w.store.dialogs) && Dialogs.AtMostOneDefault(w.store.dialogs)
    ensures Dialogs.MessagesBy(Exchange(w, env, userId, text, now).0.store.messages, userId)
            == Dialogs.MessagesBy(w.store.messages, userId) + 2
  {
    ExchangeCompletes(w, env, userId, text, now);
    var (s1, dialog) := Dialogs.GetOrCreateDefaultDialog(w.store, userId, now);
    var s2 := Dialogs.AddMessage(s1, dialog.id, userId, Dialogs.UserRole, text, 0, now);
    var ctx := Dialogs.BuildContext(s2, w.reg, userId, dialog.id, env.stringify);
    assert ctx.Ok?;
    var s3 := Dialogs.AddMessage(s2, dialog.id, userId, Dialogs.AssistantRole, env.chat(ctx.value), 0, now);
    assert Exchange(w, env, userId, text, now).0.store == s3;
    Dialogs.MessageCountAfterAddMessage(s1, dialog.id, userId, Dialogs.UserRole, text, 0, now, userId);
    Dialogs.MessageCountAfterAddMessage(s2, dialog.id, userId, Dialogs.AssistantRole, env.chat(ctx.value), 0, now, userId);
  }

  /** Once a text is through the guard and the quota check, the exchange
      always completes: the context can always be built. */
  lemma TextAnswered(w: World, env: Env, from: Sender, text: string, now: int)
    requires Valid(w)
    ensures var (reg1, user) := Users.FindOrCreate(w.reg, TelegramKey(from), from.username, from.firstName, now);
      var (l1, canSend) := Tariffs.CanUserSendMessage(w.ledger, user.id, now);
      var (w1, reply) := HandleText(w, env, from, text, now);
      SpamGuard.CheckSpam(w.guard, from.id, now).1 == SpamGuard.Allow && canSend == Ok(true) ==>
        && reply.Answer?
        && |w1.store.messages| == |w.store.messages| + 2
        && (PendingReferrers(w.refs, user.id) == [] ==> w1.ledger == Tariffs.DeductMessage(l1, user.id))
  {
    var (reg1, user) := Users.FindOrCreate(w.reg, TelegramKey(from), from.username, from.firstName, now);
    var (guard1, verdict) := SpamGuard.CheckSpam(w.guard, from.id, now);
    var (l1, canSend) := Tariffs.CanUserSendMessage(w.ledger, user.id, now);
    if verdict == SpamGuard.Allow && canSend == Ok(true) {
      var w2 := w.(reg := reg1, guard := guard1, ledger := l1);
      ExchangeCompletes(w2, env, user.id, text, now);
    }
  }

  /** Bonus runs keep the referral ledger's pairs unique. */
  lemma BonusAllKeepsPairs(refs: seq<Referrals.Referral>, l: Tariffs.Ledger, referrers: seq<nat>)
    requires Referrals.UniquePairs(refs)
    ensures Referrals.UniquePairs(BonusAll(refs, l, referrers).0)
  {
    var r := BonusAll(refs, l, referrers).0;
    assert forall i :: 0 <= i < |refs| ==> r[i].referrerId == refs[i].referrerId && r[i].refereeId == refs[i].refereeId;
  }

  /** Bonus runs keep the ledger invariant: they only raise balances. */
  lemma BonusAllKeepsLedger(refs: seq<Referrals.Referral>, l: Tariffs.Ledger, referrers: seq<nat>)
    requires Tariffs.Valid(l)
    ensures Tariffs.Valid(BonusAll(refs, l, referrers).1)
  {
    var l1 := BonusAll(refs, l, referrers).1;
    assert forall j :: 0 <= j < |l.grants| ==>
      && l1.grants[j].userId == l.grants[j].userId && l1.grants[j].isActive == l.grants[j].isActive
      && l1.grants[j].tariffId == l.grants[j].tariffId
      && l1.grants[j].messagesLeft >= l.grants[j].messagesLeft;
  }

  /** Handling a text keeps every table's invariant. */
  lemma HandleTextPreservesValid(w: World, env: Env, from: Sender, text: string, now: int)
    requires Valid(w)
    ensures Valid(HandleText(w, env, from, text, now).0)
  {
    var (reg1, user) := Users.FindOrCreate(w.reg, TelegramKey(from), from.username, from.firstName, now);
    var (guard1, verdict) := SpamGuard.CheckSpam(w.guard, from.id, now);
    var w1 := w.(reg := reg1, guard := guard1);
    Users.FindOrCreatePreservesValid(w.reg, TelegramKey(from), from.username, from.firstName, now);
    ValidWith(w, reg1, guard1, w.ledger);
    var (l1, canSend) := Tariffs.CanUserSendMessage(w.ledger, user.id, now);
    var w2 := w1.(ledger := l1);
    Tariffs.CanUserSendMessagePreservesValid(w.ledger, user.id, now);
    ValidWith(w, reg1, guard1, l1);
    var r := HandleText(w, env, from, text, now).0;
    if verdict.Reject? {
      assert r == w1;
    } else if canSend == Ok(true) {
      assert r == Exchange(w2, env, user.id, text, now).0;
      ExchangePreservesValid(w2, env, user.id, text, now);
    } else {
      assert r == w2;
    }
  }

  /** The invariant holds after the registry, the guard and the ledger are
      replaced by valid ones. */
  lemma ValidWith(w: World, reg: Users.Registry, guard: SpamGuard.Guard, ledger: Tariffs.Ledger)
    requires Valid(w) && Users.Valid(reg) && Tariffs.Valid(ledger)
    ensures Valid(w.(reg := reg, guard := guard, ledger := ledger))
  {
  }

  /** An exchange keeps every table's invariant: it only appends messages,
      may add one Default dialog, debits once and raises balances. */
  lemma ExchangePreservesValid(w: World, env: Env, userId: nat, text: string, now: int)
    requires Valid(w)
    ensures Valid(Exchange(w, env, userId, text, now).0)
  {
    Dialogs.GetOrCreateDefaultDialogKeepsStore(w.store, userId, now);
    Tariffs.DeductMessagePreservesValid(w.ledger, userId);
    var debited := Tariffs.DeductMessage(w.ledger, userId);
    BonusAllKeepsLedger(w.refs, debited, PendingReferrers(w.refs, userId));
    BonusAllKeepsPairs(w.refs, debited, PendingReferrers(w.refs, userId));
  }

  /** Changing balances only leaves every user's active grant where it was. */
  lemma ActiveIndexKept(grants: seq<Tariffs.Grant>, grants1: seq<Tariffs.Grant>, userId: nat)
    requires |grants1| == |grants|
    requires forall k :: 0 <= k < |grants| ==>
      grants1[k].userId == grants[k].userId && grants1[k].isActive == grants[k].isActive
    ensures Tariffs.ActiveIndex(grants1, userId) == Tariffs.ActiveIndex(grants, userId)
  {
    var p := (g: Tariffs.Grant) => Tariffs.IsActiveGrantOf(g, userId);
    match Tariffs.ActiveIndex(grants, userId)
    case Some(k) => FirstIndexIs(grants1, p, k);
    case None =>
  }

  /** A referred user's answered text pays for itself and pays the referrer:
      with one pending referral from a different referrer, the user's
      current grant loses one message and the referrer's active grant gains
      five, in the same exchange. */
  lemma AnswerPaysReferrer(w: World, env: Env, userId: nat, text: string, now: int,
                           referrerId: nat, i: nat, j: nat)
    requires Dialogs.DialogsNumbered(w.store.dialogs) && Dialogs.AtMostOneDefault(w.store.dialogs)
    requires referrerId != userId
    requires PendingReferrers(w.refs, userId) == [referrerId] && Referrals.Pending(w.refs, referrerId) == 1
    requires Tariffs.ActiveIndex(w.ledger.grants, userId) == Some(i) && w.ledger.grants[i].messagesLeft > 0
    requires Tariffs.ActiveIndex(w.ledger.grants, referrerId) == Some(j)
    ensures var w1 := Exchange(w, env, userId, text, now).0;
      && |w1.ledger.grants| == |w.ledger.grants|
      && w1.ledger.grants[i].messagesLeft == w.ledger.grants[i].messagesLeft - 1
      && w1.ledger.grants[j].messagesLeft == w.ledger.grants[j].messagesLeft + Referrals.BonusPerReferral
  {
    ExchangeLedger(w, env, userId, text, now);
    DebitAndBonus(w.refs, w.ledger, userId, referrerId, i, j);
  }

  /** The ledger after a completed exchange: the debit, then the bonuses of
      the pending referrers. */
  lemma ExchangeLedger(w: World, env: Env, userId: nat, text: string, now: int)
    requires Dialogs.DialogsNumbered(w.store.dialogs) && Dialogs.AtMostOneDefault(w.store.dialogs)
    ensures Exchange(w, env, userId, text, now).0.ledger
            == BonusAll(w.refs, Tariffs.DeductMessage(w.ledger, userId), PendingReferrers(w.refs, userId)).1
  {
    ExchangeFindsDialog(w, userId, text, now);
  }

  /** One debit of the user and one bonus run for a single other referrer
      with one pending referral: the user's grant loses one message and the
      referrer's gains five. */
  lemma DebitAndBonus(refs: seq<Referrals.Referral>, l: Tariffs.Ledger, userId: nat, referrerId: nat, i: nat, j: nat)
    requires referrerId != userId && Referrals.Pending(refs, referrerId) == 1
    requires Tariffs.ActiveIndex(l.grants, userId) == Some(i) && l.grants[i].messagesLeft > 0
    requires Tariffs.ActiveIndex(l.grants, referrerId) == Some(j)
    ensures var l1 := BonusAll(refs, Tariffs.DeductMessage(l, userId), [referrerId]).1;
      && |l1.grants| == |l.grants|
      && l1.grants[i].messagesLeft == l.grants[i].messagesLeft - 1
      && l1.grants[j].messagesLeft == l.grants[j].messagesLeft + Referrals.BonusPerReferral
  {
    var debited := Tariffs.DeductMessage(l, userId);
    ActiveIndexKept(l.grants, debited.grants, referrerId);
    assert i != j by {
      assert l.grants[i].userId == userId && l.grants[j].userId == referrerId;
    }
    var (refs1, l1) := Referrals.GiveReferralBonus(refs, debited, referrerId);
    assert BonusAll(refs, debited, [referrerId]) == BonusAll(refs1, l1, []);
  }

  /** The state right after start-up: the default catalogue seeded into an
      empty database, and an empty guard. */
  function Launched(): World
  {
    World(Users.Empty, Tariffs.Ledger(Tariffs.CreateDefaultTariffs([]), []),
          Dialogs.Store([], [], []), [], SpamGuard.Fresh)
  }

  /** A newcomer's first text: registered as user 1, given a Free grant of
      10 messages, answered, both turns filed in a new Default dialog, and
      left with 9 messages. */
  lemma NewcomerFirstText(env: Env, from: Sender, text: string, now: int)
    ensures var (w1, reply) := HandleText(Launched(), env, from, text, now);
      && reply.Answer?
      && |w1.reg.users| == 1 && w1.reg.users[0].id == 1
      && |w1.store.dialogs| == 1 && |w1.store.messages| == 2
      && |w1.ledger.grants| == 1
      && w1.ledger.grants[0].userId == 1 && w1.ledger.grants[0].isActive
      && w1.ledger.grants[0].tariffId == 1 && w1.ledger.grants[0].messagesLeft == 9
  {
    var w := Launched();
    LaunchedValid();
    var (reg1, user) := Users.FindOrCreate(w.reg, TelegramKey(from), from.username, from.firstName, now);
    assert user.id == 1 && reg1.users == [user];
    var (guard1, verdict) := SpamGuard.CheckSpam(w.guard, from.id, now);
    assert verdict == SpamGuard.Allow;
    var (l1, canSend) := Tariffs.CanUserSendMessage(w.ledger, user.id, now);
    NewcomerQuota(now);
    var w2 := w.(reg := reg1, guard := guard1, ledger := l1);
    var (w1, reply) := HandleText(w, env, from, text, now);
    assert (w1, reply) == Exchange(w2, env, user.id, text, now);
    assert PendingReferrers(w.refs, user.id) == [];
    ExchangeCompletes(w2, env, user.id, text, now);
    assert w1.reg == reg1;
  }

  /** Start-up satisfies the invariant and seeds exactly Free and Premium. */
  lemma LaunchedValid()
    ensures Valid(Launched())
    ensures Launched().ledger.tariffs == [Tariffs.FreeTariff(1), Tariffs.PremiumTariff(2)]
  {
    Tariffs.CreateDefaultTariffsFromEmpty();
  }

  /** User 1's first quota check after start-up assigns Free: one active
      grant of 10 messages on tariff 1, which a debit brings to 9. */
  lemma NewcomerQuota(now: int)
    ensures var (l1, canSend) := Tariffs.CanUserSendMessage(Launched().ledger, 1, now);
      && canSend == Ok(true) && |l1.grants| == 1
      && l1.grants[0].userId == 1 && l1.grants[0].isActive
      && l1.grants[0].tariffId == 1 && l1.grants[0].messagesLeft == 10
      && var d := Tariffs.DeductMessage(l1, 1);
         && |d.grants| == 1 && d.grants[0] == l1.grants[0].(messagesLeft := 9)
  {
    var l := Launched().ledger;
    LaunchedValid();
    assert Tariffs.FindTariff(l.tariffs, Tariffs.FreeName) == Some(Tariffs.FreeTariff(1));
    assert Tariffs.ActiveIndex(l.grants, 1).None?;
    var l1 := Tariffs.AssignFreeTariff(l, 1, now).value.0;
    assert Tariffs.CanUserSendMessage(l, 1, now) == (l1, Ok(true));
    assert |l1.grants| == 1;
    FirstIndexIs(l1.grants, (g: Tariffs.Grant) => Tariffs.IsActiveGrantOf(g, 1), 0);
  }

  // ---------------------------------------------------------------------------
  // Photos and documents
  // ---------------------------------------------------------------------------

  /** The photo handler: quota check, then the description, then one debit.
      There is no flood guard on photos. */
  function HandlePhoto(w: World, env: Env, from: Sender, fileId: string, now: int): (r: (World, Reply))
    ensures r.0.store == w.store && r.0.refs == w.refs && r.0.guard == w.guard
    ensures r.1.Answer? || r.1.QuotaExhausted? || r.1.Apology?
    // The answer is the description of that photo.
    ensures r.1.Answer? ==> r.1.text == env.describe(fileId)
  {
    var (reg1, user) := Users.FindOrCreate(w.reg, TelegramKey(from), from.username, from.firstName, now);
    var (l1, canSend) := Tariffs.CanUserSendMessage(w.ledger, user.id, now);
    var w1 := w.(reg := reg1, ledger := l1);
    match canSend
    case Err(_) => (w1, Apology)
    case Ok(false) => (w1, QuotaExhausted)
    case Ok(true) => (w1.(ledger := Tariffs.DeductMessage(l1, user.id)), Answer(env.describe(fileId)))
  }

  /** A document's MIME type names an image: `mime_type?.startsWith('image/')`. */
  predicate IsImage(mime: Option<string>)
  {
    mime.Some? && StartsWith(mime.value, ImageMimePrefix)
  }

  /** The document handler: quota check; an image has its text extracted and
      costs one message, anything else is turned away without a debit. */
  function HandleDocument(w: World, env: Env, from: Sender, fileId: string, mime: Option<string>,
                          now: int): (r: (World, Reply))
    ensures r.0.store == w.store && r.0.refs == w.refs && r.0.guard == w.guard
    ensures r.1.Answer? || r.1.QuotaExhausted? || r.1.ImagesOnly? || r.1.Apology?
    // Only an image is read, and its text is the answer; anything else is turned away.
    ensures r.1.Answer? ==> IsImage(mime) && r.1.text == env.readText(fileId)
    ensures r.1.ImagesOnly? ==> !IsImage(mime)
  {
    var (reg1, user) := Users.FindOrCreate(w.reg, TelegramKey(from), from.username, from.firstName, now);
    var (l1, canSend) := Tariffs.CanUserSendMessage(w.ledger, user.id, now);
    var w1 := w.(reg := reg1, ledger := l1);
    match canSend
    case Err(_) => (w1, Apology)
    case Ok(false) => (w1, QuotaExhausted)
    case Ok(true) =>
      if IsImage(mime) then (w1.(ledger := Tariffs.DeductMessage(l1, user.id)), Answer(env.readText(fileId)))
      else (w1, ImagesOnly)
  }

  /** Photos and documents keep every table's invariant: they only register
      the sender, run the quota check and debit at most once. */
  lemma FilesPreserveValid(w: World, env: Env, from: Sender, fileId: string, mime: Option<string>, now: int)
    requires Valid(w)
    ensures Valid(HandlePhoto(w, env, from, fileId, now).0)
    ensures Valid(HandleDocument(w, env, from, fileId, mime, now).0)
  {
    var (reg1, user) := Users.FindOrCreate(w.reg, TelegramKey(from), from.username, from.firstName, now);
    Users.FindOrCreatePreservesValid(w.reg, TelegramKey(from), from.username, from.firstName, now);
    var (l1, canSend) := Tariffs.CanUserSendMessage(w.ledger, user.id, now);
    Tariffs.CanUserSendMessagePreservesValid(w.ledger, user.id, now);
    Tariffs.DeductMessagePreservesValid(l1, user.id);
    var w1 := w.(reg := reg1, ledger := l1);
    var w2 := w1.(ledger := Tariffs.DeductMessage(l1, user.id));
    ValidWith(w, reg1, w.guard, l1);
    ValidWith(w, reg1, w.guard, Tariffs.DeductMessage(l1, user.id));
    assert Valid(w1) && Valid(w2);
    var wp := HandlePhoto(w, env, from, fileId, now).0;
    var wd := HandleDocument(w, env, from, fileId, mime, now).0;
    assert wp == w1 || wp == w2;
    assert wd == w1 || wd == w2;
  }

  /** Photos and documents touch neither the dialogs, the referrals nor the
      flood guard; they cost exactly one message when answered and nothing
      beyond the quota check otherwise; a document is answered exactly when
      it is an image and the quota allows. */
  lemma FilesDebitOnlyWhenAnswered(w: World, env: Env, from: Sender, fileId: string, mime: Option<string>, now: int)
    ensures var (reg1, user) := Users.FindOrCreate(w.reg, TelegramKey(from), from.username, from.firstName, now);
      var (l1, canSend) := Tariffs.CanUserSendMessage(w.ledger, user.id, now);
      var (wp, rp) := HandlePhoto(w, env, from, fileId, now);
      var (wd, rd) := HandleDocument(w, env, from, fileId, mime, now);
      && wp.store == w.store && wp.refs == w.refs && wp.guard == w.guard
      && wd.store == w.store && wd.refs == w.refs && wd.guard == w.guard
      && (rp.Answer? <==> canSend == Ok(true))
      && wp.ledger == (if rp.Answer? then Tariffs.DeductMessage(l1, user.id) else l1)
      && (rd.Answer? <==> canSend == Ok(true) && IsImage(mime))
      && (rd == ImagesOnly <==> canSend == Ok(true) && !IsImage(mime))
      && wd.ledger == (if rd.Answer? then Tariffs.DeductMessage(l1, user.id) else l1)
  {
  }
}
