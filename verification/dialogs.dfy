/** The dialog store and context assembler
    (src/modules/dialogs/dialogs.service.ts): an append-only message log, one
    "Default" dialog per user created on demand, and the model input built
    from a fixed system prompt, up to three optional system entries and the
    last ten turns of the dialog. */
module Dialogs {
  import opened Base
  import Users

  /** `messages.role`. */
  datatype Role = UserRole | AssistantRole | SystemRole

  /** A row of `messages`; `tokens` defaults to 0. */
  datatype Message = Message(
    id: nat,
    dialogId: nat,
    userId: nat,
    role: Role,
    content: string,
    tokens: int,
    createdAt: int)

  /** A row of `dialogs`. `project_id`, `title` and `summary` are nullable. */
  datatype Dialog = Dialog(
    id: nat,
    userId: nat,
    projectId: Option<int>,
    title: Option<string>,
    summary: Option<string>,
    createdAt: int)

  /** A row of `projects`, reduced to what the context reads. */
  datatype Project = Project(id: nat, userId: nat, name: string, summary: Option<string>)

  /** One entry of the model input: `{ role, content }`. */
  datatype Turn = Turn(role: Role, content: string)

  datatype Store = Store(dialogs: seq<Dialog>, messages: seq<Message>, projects: seq<Project>)

  /** The fixed system prompt. */
  const SystemPrompt: string := "You are a helpful " + "AI assistant powered by GPT-4o."
  const ProfileLabel: string := "User profile: "
  const DialogSummaryLabel: string := "Dialog summary: "
  const ProjectSummaryLabel: string := "Project summary: "
  const DefaultTitle: string := "Default"

  /** Number of most recent turns the context carries. */
  const HistoryLimit: nat := 10

  /** Context entries at most: the prompt, three optional entries and the history. */
  const MaxContext: nat := 14

  /** JavaScript truthiness of a nullable text column: present and non-empty. */
  predicate Truthy(s: Option<string>)
  {
    s.Some? && s.value != ""
  }

  /** JavaScript truthiness of `dialog.project_id`: set and not 0. */
  predicate HasProject(d: Dialog)
  {
    d.projectId.Some? && d.projectId.value != 0
  }

  // ---------------------------------------------------------------------------
  // Lookups
  // ---------------------------------------------------------------------------

  /** `dialogRepository.findOne({ where: { id, user_id } })`. */
  function FindDialog(dialogs: seq<Dialog>, dialogId: int, userId: nat): (r: Option<Dialog>)
    ensures r.Some? ==> r.value in dialogs && r.value.id == dialogId && r.value.userId == userId
    ensures r.None? <==> forall i :: 0 <= i < |dialogs| ==> !(dialogs[i].id == dialogId && dialogs[i].userId == userId)
  {
    match FirstIndex(dialogs, (d: Dialog) => d.id == dialogId && d.userId == userId)
    case None => None
    case Some(i) => Some(dialogs[i])
  }

  /** `projectRepository.findOne({ where: { id } })`. */
  function FindProject(projects: seq<Project>, id: int): (r: Option<Project>)
    ensures r.Some? ==> r.value in projects && r.value.id == id
    ensures r.None? <==> forall i :: 0 <= i < |projects| ==> projects[i].id != id
  {
    match FirstIndex(projects, (p: Project) => p.id == id)
    case None => None
    case Some(i) => Some(projects[i])
  }

  /** `messageRepository.find({ where: { dialog_id } })`, in log order. */
  function DialogMessages(messages: seq<Message>, dialogId: int): seq<Message>
  {
    Filter(messages, (m: Message) => m.dialogId == dialogId)
  }

  /** Serial primary keys on `dialogs`. */
  ghost predicate DialogsNumbered(dialogs: seq<Dialog>)
  {
    forall i :: 0 <= i < |dialogs| ==> dialogs[i].id == i + 1
  }

  /** The message log is in `created_at` order, as a log written with a clock
      that never runs backwards is. */
  ghost predicate Chronological(messages: seq<Message>)
  {
    SortedBy(messages, (m: Message) => m.createdAt)
  }

  // ---------------------------------------------------------------------------
  // Context
  // ---------------------------------------------------------------------------

  /** The project summary the context shows: only when the dialog's project id
      is truthy, the project exists and its summary is truthy. */
  function ProjectSummary(store: Store, dialog: Dialog): (r: Option<string>)
    ensures r.Some? <==>
      HasProject(dialog) && FindProject(store.projects, dialog.projectId.value).Some?
      && Truthy(FindProject(store.projects, dialog.projectId.value).value.summary)
    ensures r.Some? ==> r.value != "" && r == FindProject(store.projects, dialog.projectId.value).value.summary
  {
    if !HasProject(dialog) then None
    else match FindProject(store.projects, dialog.projectId.value)
      case None => None
      case Some(p) => if Truthy(p.summary) then p.summary else None
  }

  /** The system entries that open the context, in their fixed order. */
  function Header(store: Store, dialog: Dialog, profile: Option<Users.Profile>,
                  stringify: Users.Profile -> string): (r: seq<Turn>)
    ensures 1 <= |r| <= MaxContext - HistoryLimit
    ensures r[0] == Turn(SystemRole, SystemPrompt)
    ensures forall i :: 0 <= i < |r| ==> r[i].role == SystemRole
  {
    [Turn(SystemRole, SystemPrompt)]
    + ProfileEntry(profile, stringify) + DialogSummaryEntry(dialog) + ProjectSummaryEntry(store, dialog)
  }

  /** The profile entry: present when the user has a profile. */
  function ProfileEntry(profile: Option<Users.Profile>, stringify: Users.Profile -> string): (r: seq<Turn>)
    ensures |r| <= 1 && (r != [] <==> profile.Some?)
  {
    if profile.Some? then [Turn(SystemRole, ProfileLabel + stringify(profile.value))] else []
  }

  /** The dialog-summary entry: present when the summary is truthy. */
  function DialogSummaryEntry(dialog: Dialog): (r: seq<Turn>)
    ensures |r| <= 1 && (r != [] <==> Truthy(dialog.summary))
  {
    if Truthy(dialog.summary) then [Turn(SystemRole, DialogSummaryLabel + dialog.summary.value)] else []
  }

  /** The project-summary entry: present when a project summary is shown. */
  function ProjectSummaryEntry(store: Store, dialog: Dialog): (r: seq<Turn>)
    ensures |r| <= 1 && (r != [] <==> ProjectSummary(store, dialog).Some?)
  {
    match ProjectSummary(store, dialog)
    case Some(s) => [Turn(SystemRole, ProjectSummaryLabel + s)]
    case None => []
  }

  /** Which header entry a turn is, by its label: 1 the profile, 2 the dialog
      summary, 3 the project summary, 0 anything else. */
  function Slot(t: Turn): nat
  {
    if StartsWith(t.content, ProfileLabel) then 1
    else if StartsWith(t.content, DialogSummaryLabel) then 2
    else if StartsWith(t.content, ProjectSummaryLabel) then 3
    else 0
  }

  /** The labels are told apart by their first character. */
  lemma SlotOfLabelled(x: string)
    ensures Slot(Turn(SystemRole, SystemPrompt)) == 0
    ensures Slot(Turn(SystemRole, ProfileLabel + x)) == 1
    ensures Slot(Turn(SystemRole, DialogSummaryLabel + x)) == 2
    ensures Slot(Turn(SystemRole, ProjectSummaryLabel + x)) == 3
  {
    assert (ProfileLabel + x)[..|ProfileLabel|] == ProfileLabel;
    assert (DialogSummaryLabel + x)[..|DialogSummaryLabel|] == DialogSummaryLabel;
    assert (ProjectSummaryLabel + x)[..|ProjectSummaryLabel|] == ProjectSummaryLabel;
    assert SystemPrompt[0] == 'Y';
    assert (DialogSummaryLabel + x)[0] == 'D';
    assert (ProjectSummaryLabel + x)[0] == 'P';
  }

  /** Each header entry is recognised by its label. */
  lemma EntrySlots(store: Store, dialog: Dialog, profile: Option<Users.Profile>,
                   stringify: Users.Profile -> string)
    ensures Slot(Turn(SystemRole, SystemPrompt)) == 0
    ensures forall t :: t in ProfileEntry(profile, stringify) ==> Slot(t) == 1
    ensures forall t :: t in DialogSummaryEntry(dialog) ==> Slot(t) == 2
    ensures forall t :: t in ProjectSummaryEntry(store, dialog) ==> Slot(t) == 3
  {
    assert Slot(Turn(SystemRole, SystemPrompt)) == 0 by { SlotOfLabelled(""); }
    assert forall t :: t in ProfileEntry(profile, stringify) ==> Slot(t) == 1 by {
      if profile.Some? { SlotOfLabelled(stringify(profile.value)); }
    }
    assert forall t :: t in DialogSummaryEntry(dialog) ==> Slot(t) == 2 by {
      if Truthy(dialog.summary) { SlotOfLabelled(dialog.summary.value); }
    }
    assert forall t :: t in ProjectSummaryEntry(store, dialog) ==> Slot(t) == 3 by {
      if ProjectSummary(store, dialog).Some? { SlotOfLabelled(ProjectSummary(store, dialog).value); }
    }
  }

  /** The header holds the system prompt first, then the optional entries in
      the order profile, dialog summary, project summary. */
  lemma HeaderOrder(store: Store, dialog: Dialog, profile: Option<Users.Profile>,
                    stringify: Users.Profile -> string)
    ensures var h := Header(store, dialog, profile, stringify);
      && Slot(h[0]) == 0
      && (forall i, j :: 0 <= i < j < |h| ==> Slot(h[i]) < Slot(h[j]))
  {
    EntrySlots(store, dialog, profile, stringify);
    SlottedConcat(Turn(SystemRole, SystemPrompt), ProfileEntry(profile, stringify),
                  DialogSummaryEntry(dialog), ProjectSummaryEntry(store, dialog), Slot);
  }

  /** Each optional entry is present exactly when its condition holds
      (JavaScript truthiness). */
  lemma HeaderPresence(store: Store, dialog: Dialog, profile: Option<Users.Profile>,
                       stringify: Users.Profile -> string)
    ensures var h := Header(store, dialog, profile, stringify);
      && ((exists i :: 0 <= i < |h| && Slot(h[i]) == 1) <==> profile.Some?)
      && ((exists i :: 0 <= i < |h| && Slot(h[i]) == 2) <==> Truthy(dialog.summary))
      && ((exists i :: 0 <= i < |h| && Slot(h[i]) == 3) <==> ProjectSummary(store, dialog).Some?)
  {
    EntrySlots(store, dialog, profile, stringify);
    SlottedConcat(Turn(SystemRole, SystemPrompt), ProfileEntry(profile, stringify),
                  DialogSummaryEntry(dialog), ProjectSummaryEntry(store, dialog), Slot);
  }

  /** Each entry present carries its text after its label. */
  lemma HeaderContents(store: Store, dialog: Dialog, profile: Option<Users.Profile>,
                       stringify: Users.Profile -> string)
    ensures var h := Header(store, dialog, profile, stringify);
      && (forall i :: 0 <= i < |h| && Slot(h[i]) == 1 ==>
            profile.Some? && h[i].content == ProfileLabel + stringify(profile.value))
      && (forall i :: 0 <= i < |h| && Slot(h[i]) == 2 ==>
            Truthy(dialog.summary) && h[i].content == DialogSummaryLabel + dialog.summary.value)
      && (forall i :: 0 <= i < |h| && Slot(h[i]) == 3 ==>
            ProjectSummary(store, dialog).Some?
            && h[i].content == ProjectSummaryLabel + ProjectSummary(store, dialog).value)
  {
    EntrySlots(store, dialog, profile, stringify);
    SlottedConcat(Turn(SystemRole, SystemPrompt), ProfileEntry(profile, stringify),
                  DialogSummaryEntry(dialog), ProjectSummaryEntry(store, dialog), Slot);
  }

  /** A prompt of rank 0 followed by at most one entry of each rank 1, 2, 3,
      in rank order. */
  lemma SlottedConcat<T>(p: T, a: seq<T>, b: seq<T>, c: seq<T>, rank: T -> nat)
    requires rank(p) == 0 && |a| <= 1 && |b| <= 1 && |c| <= 1
    requires forall i :: 0 <= i < |a| ==> rank(a[i]) == 1
    requires forall i :: 0 <= i < |b| ==> rank(b[i]) == 2
    requires forall i :: 0 <= i < |c| ==> rank(c[i]) == 3
    ensures var h := [p] + a + b + c;
      && (forall i, j :: 0 <= i < j < |h| ==> rank(h[i]) < rank(h[j]))
      && ((exists i :: 0 <= i < |h| && rank(h[i]) == 1) <==> a != [])
      && ((exists i :: 0 <= i < |h| && rank(h[i]) == 2) <==> b != [])
      && ((exists i :: 0 <= i < |h| && rank(h[i]) == 3) <==> c != [])
      && (forall i :: 0 <= i < |h| && rank(h[i]) == 1 ==> h[i] == a[0])
      && (forall i :: 0 <= i < |h| && rank(h[i]) == 2 ==> h[i] == b[0])
      && (forall i :: 0 <= i < |h| && rank(h[i]) == 3 ==> h[i] == c[0])
  {
    var h := [p] + a + b + c;
    assert forall i :: 0 <= i < |h| ==>
      h[i] == if i == 0 then p else if i < 1 + |a| then a[i - 1]
              else if i < 1 + |a| + |b| then b[i - 1 - |a|] else c[i - 1 - |a| - |b|];
    if a != [] { assert rank(h[1]) == 1; }
    if b != [] { assert rank(h[1 + |a|]) == 2; }
    if c != [] { assert rank(h[|h| - 1]) == 3; }
  }

  /** Message rows as model turns, role and content copied verbatim. */
  function Turns(ms: seq<Message>): (r: seq<Turn>)
    ensures |r| == |ms|
    ensures forall i :: 0 <= i < |ms| ==> r[i] == Turn(ms[i].role, ms[i].content)
  {
    seq(|ms|, i requires 0 <= i < |ms| => Turn(ms[i].role, ms[i].content))
  }

  /** `messages.slice(-10)`. */
  function Recent(ms: seq<Message>): seq<Message>
  {
    ms[|ms| - Min(HistoryLimit, |ms|)..]
  }

  /** `buildContext(userId, dialogId)`: fails when the user owns no dialog with
      that id; otherwise the header followed by the dialog's last ten turns.
      The profile is the user's `user_profile` row and `stringify` stands for
      `JSON.stringify`. */
  function BuildContext(store: Store, reg: Users.Registry, userId: nat, dialogId: int,
                        stringify: Users.Profile -> string): (r: Result<seq<Turn>>)
    ensures r.Err? <==> forall i :: 0 <= i < |store.dialogs| ==>
      !(store.dialogs[i].id == dialogId && store.dialogs[i].userId == userId)
    ensures r.Err? ==> r.error == DialogNotFound
    ensures r.Ok? ==>
      var h := Header(store, FindDialog(store.dialogs, dialogId, userId).value,
                      Users.GetProfile(reg, userId), stringify);
      var ms := DialogMessages(store.messages, dialogId);
      var n := Min(HistoryLimit, |ms|);
      // The header first, then as many turns as there are messages, up to ten.
      && |r.value| == |h| + n
      && r.value[..|h|] == h
      // The turns are the dialog's last n messages, oldest first.
      && r.value[|h|..] == Turns(ms[|ms| - n..])
    ensures r.Ok? ==> |r.value| <= MaxContext && r.value[0] == Turn(SystemRole, SystemPrompt)
  {
    match FindDialog(store.dialogs, dialogId, userId)
    case None => Err(DialogNotFound)
    case Some(dialog) =>
      var h := Header(store, dialog, Users.GetProfile(reg, userId), stringify);
      var ms := DialogMessages(store.messages, dialogId);
      Ok(h + Turns(Recent(ms)))
  }

  /** With a chronological log the dialog's messages come back in ascending
      `created_at`, so log order is what `order: { created_at: 'ASC' }` gives. */
  lemma DialogMessagesAscending(messages: seq<Message>, dialogId: int)
    requires Chronological(messages)
    ensures SortedBy(DialogMessages(messages, dialogId), (m: Message) => m.createdAt)
  {
    FilterSorted(messages, (m: Message) => m.dialogId == dialogId, (m: Message) => m.createdAt);
  }

  // ---------------------------------------------------------------------------
  // Writes
  // ---------------------------------------------------------------------------

  /** `addMessage(dialogId, userId, role, content, tokens)` at time `now`:
      exactly one row appended. The role is 'user' or 'assistant'. */
  function AddMessage(store: Store, dialogId: nat, userId: nat, role: Role, content: string,
                      tokens: int, now: int): (r: Store)
    requires role != SystemRole
    ensures r.dialogs == store.dialogs && r.projects == store.projects
    ensures |r.messages| == |store.messages| + 1 && r.messages[..|store.messages|] == store.messages
    ensures var m := r.messages[|store.messages|];
      m.dialogId == dialogId && m.userId == userId && m.role == role && m.content == content
      && m.tokens == tokens && m.createdAt == now
  {
    store.(messages := store.messages + [Message(|store.messages| + 1, dialogId, userId, role, content, tokens, now)])
  }

  /** The appended message joins the end of its own dialog's history and of
      no other dialog's. */
  lemma AddMessageHistory(store: Store, dialogId: nat, userId: nat, role: Role, content: string,
                          tokens: int, now: int, other: int)
    requires role != SystemRole
    ensures var r := AddMessage(store, dialogId, userId, role, content, tokens, now);
      DialogMessages(r.messages, other)
      == DialogMessages(store.messages, other)
         + (if other == dialogId then [r.messages[|store.messages|]] else [])
  {
    var r := AddMessage(store, dialogId, userId, role, content, tokens, now);
    assert r.messages == store.messages + [r.messages[|store.messages|]];
    FilterAppend(store.messages, r.messages[|store.messages|], (m: Message) => m.dialogId == other);
  }

  /** A message stamped no earlier than the last one keeps the log chronological. */
  lemma AddMessageChronological(store: Store, dialogId: nat, userId: nat, role: Role, content: string,
                                tokens: int, now: int)
    requires role != SystemRole
    requires Chronological(store.messages)
    requires forall i :: 0 <= i < |store.messages| ==> store.messages[i].createdAt <= now
    ensures Chronological(AddMessage(store, dialogId, userId, role, content, tokens, now).messages)
  {
  }

  /** After a turn is added, the context of that dialog ends with it, right
      after the turn that ended it before. */
  lemma ContextEndsWithNewTurn(store: Store, reg: Users.Registry, userId: nat, dialogId: nat,
                               role: Role, content: string, tokens: int, now: int,
                               stringify: Users.Profile -> string)
    requires role != SystemRole
    requires BuildContext(store, reg, userId, dialogId, stringify).Ok?
    ensures var before := BuildContext(store, reg, userId, dialogId, stringify).value;
      var after := BuildContext(AddMessage(store, dialogId, userId, role, content, tokens, now),
                                reg, userId, dialogId, stringify);
      && after.Ok?
      && after.value[|after.value| - 1] == Turn(role, content)
      && (|DialogMessages(store.messages, dialogId)| > 0 ==>
            after.value[|after.value| - 2] == before[|before| - 1])
  {
    var r := AddMessage(store, dialogId, userId, role, content, tokens, now);
    var m := r.messages[|store.messages|];
    var ms := DialogMessages(store.messages, dialogId);
    var dialog := FindDialog(store.dialogs, dialogId, userId).value;
    var h := Header(store, dialog, Users.GetProfile(reg, userId), stringify);
    var before := BuildContext(store, reg, userId, dialogId, stringify).value;
    var after := BuildContext(r, reg, userId, dialogId, stringify);
    ContextAfterAdd(store, reg, userId, dialogId, role, content, tokens, now, stringify);
    if |ms| > 0 {
      ContextIsHeaderAndRecent(store, reg, userId, dialogId, stringify);
    }
    HistoryEndsWithTurn(h, ms, m, after.value);
    if |ms| > 0 {
      HistoryKeepsLastTurn(h, ms, m, before, after.value);
    }
    assert m.role == role && m.content == content;
  }

  /** A header followed by the recent turns of `ms + [m]` ends with `m`. */
  lemma HistoryEndsWithTurn(h: seq<Turn>, ms: seq<Message>, m: Message, after: seq<Turn>)
    requires after == h + Turns(Recent(ms + [m]))
    ensures |after| >= 1 && after[|after| - 1] == Turn(m.role, m.content)
  {
    var t := Turns(Recent(ms + [m]));
    RecentAfterAppend(ms, m);
    EndsOfConcat(h, t, after);
  }

  /** In it, `m` comes right after the turn that ends the header followed by
      the recent turns of `ms`. */
  lemma HistoryKeepsLastTurn(h: seq<Turn>, ms: seq<Message>, m: Message, before: seq<Turn>, after: seq<Turn>)
    requires |ms| > 0
    requires after == h + Turns(Recent(ms + [m]))
    requires before == h + Turns(Recent(ms))
    ensures |after| >= 2 && |before| >= 1 && after[|after| - 2] == before[|before| - 1]
  {
    var t := Turns(Recent(ms + [m]));
    var t0 := Turns(Recent(ms));
    RecentAfterAppend(ms, m);
    EndsOfConcat(h, t, after);
    EndsOfConcat(h, t0, before);
  }

  /** The last two elements of `h + t` are those of `t`. */
  lemma EndsOfConcat<T>(h: seq<T>, t: seq<T>, c: seq<T>)
    requires c == h + t && |t| >= 1
    ensures c[|c| - 1] == t[|t| - 1]
    ensures |t| >= 2 ==> c[|c| - 2] == t[|t| - 2]
  {
  }

  /** Adding a turn leaves the header as it was and appends the turn to the
      dialog's history. */
  lemma ContextAfterAdd(store: Store, reg: Users.Registry, userId: nat, dialogId: nat,
                        role: Role, content: string, tokens: int, now: int,
                        stringify: Users.Profile -> string)
    requires role != SystemRole
    requires BuildContext(store, reg, userId, dialogId, stringify).Ok?
    ensures var r := AddMessage(store, dialogId, userId, role, content, tokens, now);
      var after := BuildContext(r, reg, userId, dialogId, stringify);
      && after.Ok?
      && after.value
         == Header(store, FindDialog(store.dialogs, dialogId, userId).value, Users.GetProfile(reg, userId), stringify)
            + Turns(Recent(DialogMessages(store.messages, dialogId) + [r.messages[|store.messages|]]))
  {
    var r := AddMessage(store, dialogId, userId, role, content, tokens, now);
    var dialog := FindDialog(store.dialogs, dialogId, userId).value;
    AddMessageHistory(store, dialogId, userId, role, content, tokens, now, dialogId);
    assert ProjectSummary(r, dialog) == ProjectSummary(store, dialog);
    ContextIsHeaderAndRecent(r, reg, userId, dialogId, stringify);
  }

  /** A context is its header followed by the turns of the dialog's recent
      messages. */
  lemma ContextIsHeaderAndRecent(store: Store, reg: Users.Registry, userId: nat, dialogId: int,
                                 stringify: Users.Profile -> string)
    requires BuildContext(store, reg, userId, dialogId, stringify).Ok?
    ensures BuildContext(store, reg, userId, dialogId, stringify).value
      == Header(store, FindDialog(store.dialogs, dialogId, userId).value, Users.GetProfile(reg, userId), stringify)
         + Turns(Recent(DialogMessages(store.messages, dialogId)))
  {
    var c := BuildContext(store, reg, userId, dialogId, stringify).value;
    var h := Header(store, FindDialog(store.dialogs, dialogId, userId).value, Users.GetProfile(reg, userId), stringify);
    assert c == c[..|h|] + c[|h|..];
  }

  /** The recent turns after a message is appended end with that message,
      right after the turn that ended them before. */
  lemma RecentAfterAppend(ms: seq<Message>, m: Message)
    ensures var t := Turns(Recent(ms + [m]));
      |t| >= 1 && t[|t| - 1] == Turn(m.role, m.content)
    ensures |ms| > 0 ==>
      var t := Turns(Recent(ms + [m]));
      var t0 := Turns(Recent(ms));
      |t| >= 2 && |t0| >= 1 && t[|t| - 2] == t0[|t0| - 1]
  {
    var ms2 := ms + [m];
    assert ms2[|ms2| - 1] == m;
    if |ms| > 0 {
      assert ms2[|ms2| - 2] == ms[|ms| - 1];
    }
  }

  /** `getOrCreateDefaultDialog(userId)` at time `now`: the user's first dialog
      titled "Default", created (with no project and no summary) when there is
      none. */
  function GetOrCreateDefaultDialog(store: Store, userId: nat, now: int): (r: (Store, Dialog))
    ensures r.1.userId == userId && r.1.title == Some(DefaultTitle) && r.1 in r.0.dialogs
    ensures r.0.messages == store.messages && r.0.projects == store.projects
    // An existing Default dialog is returned and nothing is saved.
    ensures (exists i :: 0 <= i < |store.dialogs| && IsDefaultOf(store.dialogs[i], userId)) ==>
      r.0 == store && r.1 in store.dialogs
    // Otherwise exactly one dialog is appended.
    ensures (forall i :: 0 <= i < |store.dialogs| ==> !IsDefaultOf(store.dialogs[i], userId)) ==>
      r.0.dialogs == store.dialogs + [r.1]
      && r.1 == Dialog(|store.dialogs| + 1, userId, None, Some(DefaultTitle), None, now)
  {
    match FirstIndex(store.dialogs, (d: Dialog) => IsDefaultOf(d, userId))
    case Some(i) => (store, store.dialogs[i])
    case None =>
      var d := Dialog(|store.dialogs| + 1, userId, None, Some(DefaultTitle), None, now);
      (store.(dialogs := store.dialogs + [d]), d)
  }

  predicate IsDefaultOf(d: Dialog, userId: nat)
  {
    d.userId == userId && d.title == Some(DefaultTitle)
  }

  /** Each user has at most one Default dialog. */
  ghost predicate AtMostOneDefault(dialogs: seq<Dialog>)
  {
    forall i, j :: 0 <= i < |dialogs| && 0 <= j < |dialogs|
      && IsDefaultOf(dialogs[i], dialogs[j].userId) && IsDefaultOf(dialogs[j], dialogs[i].userId)
      ==> i == j
  }

  /** Asking twice gives the same dialog and saves nothing the second time. */
  lemma GetOrCreateDefaultDialogIdempotent(store: Store, userId: nat, t1: int, t2: int)
    ensures var (s1, d1) := GetOrCreateDefaultDialog(store, userId, t1);
            GetOrCreateDefaultDialog(s1, userId, t2) == (s1, d1)
  {
    var (s1, d1) := GetOrCreateDefaultDialog(store, userId, t1);
    if FirstIndex(store.dialogs, (d: Dialog) => IsDefaultOf(d, userId)).None? {
      FirstIndexAppend(store.dialogs, d1, (d: Dialog) => IsDefaultOf(d, userId));
    }
  }

  /** `getOrCreateDefaultDialog` keeps ids serial and one Default per user,
      and the dialog it returns is the one `buildContext` loads for its id. */
  lemma GetOrCreateDefaultDialogKeepsStore(store: Store, userId: nat, now: int)
    requires DialogsNumbered(store.dialogs) && AtMostOneDefault(store.dialogs)
    ensures var (s1, d) := GetOrCreateDefaultDialog(store, userId, now);
      && DialogsNumbered(s1.dialogs) && AtMostOneDefault(s1.dialogs)
      && FindDialog(s1.dialogs, d.id, userId) == Some(d)
  {
    var (s1, d) := GetOrCreateDefaultDialog(store, userId, now);
    var k :| 0 <= k < |s1.dialogs| && s1.dialogs[k] == d;
    FirstIndexIs(s1.dialogs, (e: Dialog) => e.id == d.id && e.userId == userId, k);
  }

  /** `createDialog(userId, title, projectId)` at time `now`: always one new
      dialog with the given title and project. */
  function CreateDialog(store: Store, userId: nat, title: Option<string>, projectId: Option<int>,
                        now: int): (r: (Store, Dialog))
    ensures r.0.messages == store.messages && r.0.projects == store.projects
    ensures r.0.dialogs == store.dialogs + [r.1]
    ensures r.1.userId == userId && r.1.title == title && r.1.projectId == projectId
    ensures r.1.summary.None? && r.1.id == |store.dialogs| + 1
  {
    var d := Dialog(|store.dialogs| + 1, userId, projectId, title, None, now);
    (store.(dialogs := store.dialogs + [d]), d)
  }

  /** A created dialog is loadable by its owner, and a title other than
      "Default" leaves which dialog is the Default untouched. */
  lemma CreateDialogFound(store: Store, userId: nat, title: Option<string>, projectId: Option<int>,
                          now: int, anyone: nat, t: int)
    requires DialogsNumbered(store.dialogs)
    requires title != Some(DefaultTitle)
    ensures var (s1, d) := CreateDialog(store, userId, title, projectId, now);
      && DialogsNumbered(s1.dialogs)
      && FindDialog(s1.dialogs, d.id, userId) == Some(d)
      && FirstIndex(s1.dialogs, (e: Dialog) => IsDefaultOf(e, anyone))
         == FirstIndex(store.dialogs, (e: Dialog) => IsDefaultOf(e, anyone))
  {
    var (s1, d) := CreateDialog(store, userId, title, projectId, now);
    FirstIndexIs(s1.dialogs, (e: Dialog) => e.id == d.id && e.userId == userId, |store.dialogs|);
    FirstIndexAppend(store.dialogs, d, (e: Dialog) => IsDefaultOf(e, anyone));
  }

  /** A long dialog: fifteen turns, a profile and a dialog
      summary, no project. The context has 13 entries: the prompt, the
      profile, the summary, then turns 6 to 15. */
  lemma FifteenTurnsWithProfileAndSummary(store: Store, reg: Users.Registry, userId: nat, dialogId: int,
                                          stringify: Users.Profile -> string)
    requires FindDialog(store.dialogs, dialogId, userId).Some?
    requires Truthy(FindDialog(store.dialogs, dialogId, userId).value.summary)
    requires FindDialog(store.dialogs, dialogId, userId).value.projectId.None?
    requires Users.GetProfile(reg, userId).Some?
    requires |DialogMessages(store.messages, dialogId)| == 15
    ensures var ctx := BuildContext(store, reg, userId, dialogId, stringify).value;
      var ms := DialogMessages(store.messages, dialogId);
      && |ctx| == 13
      && Slot(ctx[1]) == 1 && Slot(ctx[2]) == 2
      && forall k :: 3 <= k < 13 ==> ctx[k] == Turn(ms[k + 2].role, ms[k + 2].content)
  {
    var dialog := FindDialog(store.dialogs, dialogId, userId).value;
    var profile := Users.GetProfile(reg, userId);
    var ms := DialogMessages(store.messages, dialogId);
    var pt := Turn(SystemRole, ProfileLabel + stringify(profile.value));
    var st := Turn(SystemRole, DialogSummaryLabel + dialog.summary.value);
    var h := Header(store, dialog, profile, stringify);
    assert ProjectSummaryEntry(store, dialog) == [];
    assert h == [Turn(SystemRole, SystemPrompt), pt, st];
    var ctx := BuildContext(store, reg, userId, dialogId, stringify).value;
    assert ctx == h + Turns(ms[5..]);
    assert Slot(pt) == 1 by { SlotOfLabelled(stringify(profile.value)); }
    assert Slot(st) == 2 by { SlotOfLabelled(dialog.summary.value); }
  }

  /** `messageRepository.count({ where: { user_id } })`. */
  function MessagesBy(messages: seq<Message>, userId: int): (r: nat)
    ensures r <= |messages|
    ensures r == 0 <==> forall i :: 0 <= i < |messages| ==> messages[i].userId != userId
  {
    var p := (m: Message) => m.userId == userId;
    FilterCountBound(messages, p, (m: Message) => true);
    FilterAll(messages, (m: Message) => true);
    if Count(messages, p) == 0 then
      FilterEmpty(messages, p);
      Count(messages, p)
    else
      var f := Filter(messages, p);
      assert p(f[0]);
      FilterMembership(messages, p, f[0]);
      Count(messages, p)
  }

  /** A message filed under the user's id, whoever wrote it, raises its
      count by one; one filed under anybody else's id leaves it. */
  lemma MessageCountAfterAddMessage(store: Store, dialogId: nat, author: nat, role: Role,
                                    content: string, tokens: int, now: int, userId: int)
    requires role != SystemRole
    ensures var s1 := AddMessage(store, dialogId, author, role, content, tokens, now);
      MessagesBy(s1.messages, userId) == MessagesBy(store.messages, userId) + (if author == userId then 1 else 0)
  {
    var s1 := AddMessage(store, dialogId, author, role, content, tokens, now);
    assert s1.messages == store.messages + [s1.messages[|store.messages|]];
    FilterAppend(store.messages, s1.messages[|store.messages|], (m: Message) => m.userId == userId);
  }
}
