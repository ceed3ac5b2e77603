/** The flood guard of the text handler (`checkSpam` in
    src/modules/telegram/telegram.service.ts). Each sender has a fixed window
    that opens at its first message and lasts 60 000 ms, and a rejection counter
    that is never reset. Exceeding five messages in a window rejects the
    message; the first two rejections come with a numbered warning, every later
    one with a ban notice. There is no ban state: the "ban" is only a notice, and
    once the window expires the sender is admitted again. */
module SpamGuard {

  /** Length of a window, in milliseconds. */
  const WindowMs: int := 60000

  /** Messages admitted per window. */
  const MaxPerWindow: nat := 5

  /** Rejections answered with a numbered warning before ban notices start. */
  const WarningsBeforeBan: nat := 2

  /** `userMessageCounts[sender]`: messages counted in the current window and
      the time the window opened. */
  datatype Window = Window(count: nat, resetTime: int)

  /** The guard's process memory, keyed by the sender's Telegram id:
      `userMessageCounts` and `spamWarnings`. */
  datatype Guard = Guard(windows: map<int, Window>, warnings: map<int, nat>)

  /** What the sender is told when a message is rejected: warning `n` of 3, or
      the ten-minute ban notice. */
  datatype Notice = Warning(n: nat) | BanNotice

  datatype Verdict = Allow | Reject(notice: Notice)

  const Fresh: Guard := Guard(map[], map[])

  /** `spamWarnings[sender] || 0`. */
  function Warnings(g: Guard, sender: int): nat
  {
    if sender in g.warnings then g.warnings[sender] else 0
  }

  /** No window yet, or the current one opened more than 60 000 ms ago (at
      exactly 60 000 ms the old window still applies). */
  predicate WindowExpired(g: Guard, sender: int, now: int)
  {
    sender !in g.windows || now - g.windows[sender].resetTime > WindowMs
  }

  /** One call of `checkSpam(sender)` at time `now`. */
  function CheckSpam(g: Guard, sender: int, now: int): (r: (Guard, Verdict))
    // An expired (or missing) window is replaced by a fresh one and the message admitted.
    ensures WindowExpired(g, sender, now) ==>
      r.1 == Allow && sender in r.0.windows && r.0.windows[sender] == Window(1, now)
    // Otherwise the count grows, whatever the verdict, and the window keeps its start.
    ensures !WindowExpired(g, sender, now) ==>
      sender in r.0.windows
      && r.0.windows[sender] == Window(g.windows[sender].count + 1, g.windows[sender].resetTime)
    // Within a window the n-th message is admitted iff n <= 5.
    ensures !WindowExpired(g, sender, now) ==>
      (r.1 == Allow <==> g.windows[sender].count + 1 <= MaxPerWindow)
    // Each rejection adds one warning; warnings 1 and 2 are numbered, later ones are ban notices.
    ensures r.1.Reject? ==>
      && Warnings(r.0, sender) == Warnings(g, sender) + 1
      && r.1.notice == (if Warnings(g, sender) >= WarningsBeforeBan then BanNotice
                        else Warning(Warnings(g, sender) + 1))
    // Admitting a message never touches the warnings, so they are never reset.
    ensures r.1 == Allow ==> r.0.warnings == g.warnings
    // Other senders are unaffected.
    ensures r.0.windows - {sender} == g.windows - {sender}
    ensures r.0.warnings - {sender} == g.warnings - {sender}
  {
    if WindowExpired(g, sender, now) then
      (g.(windows := g.windows[sender := Window(1, now)]), Allow)
    else
      var w := g.windows[sender];
      var counted := g.(windows := g.windows[sender := Window(w.count + 1, w.resetTime)]);
      if w.count + 1 > MaxPerWindow then
        var warnings := Warnings(g, sender);
        var warned := counted.(warnings := g.warnings[sender := warnings + 1]);
        if warnings >= WarningsBeforeBan then (warned, Reject(BanNotice))
        else (warned, Reject(Warning(warnings + 1)))
      else
        (counted, Allow)
  }

  /** Messages from one sender at the given times, in order: the final guard
      and the verdict of each message. */
  function Run(g: Guard, sender: int, times: seq<int>): (r: (Guard, seq<Verdict>))
    ensures |r.1| == |times|
  {
    if |times| == 0 then (g, [])
    else
      var (g', vs) := Run(g, sender, times[..|times| - 1]);
      var (g'', v) := CheckSpam(g', sender, times[|times| - 1]);
      (g'', vs + [v])
  }

  /** The verdict for the `k`-th message (0-based) of a burst in one window,
      given `w` earlier rejections. */
  function BurstVerdict(k: nat, w: nat): Verdict
  {
    if k < MaxPerWindow then Allow
    else if w + k - MaxPerWindow >= WarningsBeforeBan then Reject(BanNotice)
    else Reject(Warning(w + k - MaxPerWindow + 1))
  }

  /** A burst that opens a fresh window at `times[0]` and stays within 60 000 ms
      of it: messages 1 to 5 are admitted, every later one rejected, the
      window's count equals the number of messages, and the warnings grow by one
      per rejection, starting from whatever the sender had accumulated before. */
  lemma {:induction false} BurstInOneWindow(g: Guard, sender: int, times: seq<int>)
    requires |times| > 0
    requires WindowExpired(g, sender, times[0])
    requires forall k :: 0 <= k < |times| ==> times[0] <= times[k] <= times[0] + WindowMs
    ensures sender in Run(g, sender, times).0.windows
    ensures Run(g, sender, times).0.windows[sender] == Window(|times|, times[0])
    ensures Warnings(Run(g, sender, times).0, sender)
            == Warnings(g, sender) + (if |times| > MaxPerWindow then |times| - MaxPerWindow else 0)
    ensures forall k :: 0 <= k < |times| ==>
              Run(g, sender, times).1[k] == BurstVerdict(k, Warnings(g, sender))
    decreases |times|
  {
    var n := |times|;
    if n > 1 {
      var init := times[..n - 1];
      assert init[0] == times[0];
      assert forall k :: 0 <= k < |init| ==> init[k] == times[k];
      BurstInOneWindow(g, sender, init);
      var (g', vs) := Run(g, sender, init);
      assert !WindowExpired(g', sender, times[n - 1]);
    }
  }

  /** A burst of eight messages in one window from a
      sender with no history. Five are admitted, the sixth and seventh draw
      warnings 1/3 and 2/3, the eighth the ban notice. */
  lemma EightMessagesInOneMinute(sender: int, t: int)
    ensures Run(Fresh, sender, [t, t, t, t, t, t + 1, t + 2, t + 60000]).1
            == [Allow, Allow, Allow, Allow, Allow,
                Reject(Warning(1)), Reject(Warning(2)), Reject(BanNotice)]
  {
    var times := [t, t, t, t, t, t + 1, t + 2, t + 60000];
    BurstInOneWindow(Fresh, sender, times);
    var vs := Run(Fresh, sender, times).1;
    assert vs[5] == BurstVerdict(5, 0);
    assert vs[6] == BurstVerdict(6, 0);
    assert vs[7] == BurstVerdict(7, 0);
  }

  /** After the ban notice the sender is not banned: one millisecond after the
      window runs out, a sender with three warnings is admitted again, and the
      warnings stay at three. */
  lemma AdmittedAfterBanNotice(sender: int, t: int)
    ensures var g := Run(Fresh, sender, [t, t, t, t, t, t, t, t]).0;
            && Warnings(g, sender) == 3
            && CheckSpam(g, sender, t + WindowMs + 1).1 == Allow
            && Warnings(CheckSpam(g, sender, t + WindowMs + 1).0, sender) == 3
  {
    BurstInOneWindow(Fresh, sender, [t, t, t, t, t, t, t, t]);
  }
}
