/**
 * The notification hook: the permission state, the decision
 * `scheduleNotification` takes (ask for permission, show now, or arm a timer),
 * showing a notification (which arms its own 10-second close timer) and what
 * happens when a timer fires or a notification is clicked.
 *
 * The browser is abstract: whether the Notification API exists is a constant
 * of the hook, the user's answer to a permission prompt is a parameter, the
 * armed timers are a list of (delay, task) pairs, and the notifications on
 * screen are a list of popups that are open or closed.
 */
module Notifications {
  import opened AppData

  datatype Permission = Default | Granted | Denied

  /** What `scheduleNotification` does. */
  datatype Decision = RequestOnly | ShowNow | Arm(delay: int)

  /** Milliseconds before a shown notification closes itself. */
  const AutoCloseMs: int := 10000

  /** The tag every reminder notification carries. */
  const ReminderTag: string := "reminder"

  /**
   * `scheduleNotification`'s decision: without permission only a permission request;
   * with it, show at once when the time has come (delay <= 0), else arm one timer.
   */
  function Decide(permission: Permission, scheduledMs: int, nowMs: int): (d: Decision)
    ensures d == RequestOnly <==> permission != Granted
    ensures d == ShowNow <==> permission == Granted && scheduledMs <= nowMs
    ensures d.Arm? <==> permission == Granted && nowMs < scheduledMs
  {
    if permission != Granted then RequestOnly
    else
      var delay := scheduledMs - nowMs;
      if delay <= 0 then ShowNow else Arm(delay)
  }

  /** The time at which the decision puts the notification on screen, if it does. */
  function ShownAt(d: Decision, nowMs: int): Option<int> {
    match d
    case RequestOnly => None
    case ShowNow => Some(nowMs)
    case Arm(delay) => Some(nowMs + delay)
  }

  /**
   * With permission a reminder is shown at its scheduled time, or at once when that
   * time has passed; without permission it is never shown.
   */
  lemma {:induction false} ShownAtScheduledTime(permission: Permission, scheduledMs: int, nowMs: int)
    ensures var at := ShownAt(Decide(permission, scheduledMs, nowMs), nowMs);
            && (permission != Granted ==> at == None)
            && (permission == Granted ==> at == Some(if scheduledMs <= nowMs then nowMs else scheduledMs))
  {
  }

  // ----- the browser's timer delay -------------------------------------------

  /** The largest delay a browser timer honours: 2^31 - 1 ms, nearly 25 days. */
  const MaxTimerDelay: int := 0x7FFF_FFFF

  /**
   * The wait `setTimeout(f, delay)` actually gives for an integral delay: the delay is
   * converted to a 32-bit signed integer (wrapping modulo 2^32), and a negative result
   * counts as 0.
   */
  function BrowserDelay(delay: int): (w: int)
    ensures 0 <= w <= MaxTimerDelay
    ensures 0 <= delay <= MaxTimerDelay ==> w == delay
    ensures MaxTimerDelay < delay ==> w < delay
  {
    var m := delay % 0x1_0000_0000;
    var signed := if m > MaxTimerDelay then m - 0x1_0000_0000 else m;
    if signed < 0 then 0 else signed
  }

  /** When the browser shows a notification the hook armed with a single timer. */
  function ShownByBrowser(d: Decision, nowMs: int): Option<int> {
    match d
    case RequestOnly => None
    case ShowNow => Some(nowMs)
    case Arm(delay) => Some(nowMs + BrowserDelay(delay))
  }

  /**
   * As written, a reminder more than MaxTimerDelay ms ahead is shown before its time;
   * one exactly 2^31 ms ahead is shown at once.
   */
  lemma {:induction false} LongReminderShownEarly(scheduledMs: int, nowMs: int)
    requires scheduledMs - nowMs > MaxTimerDelay
    ensures var at := ShownByBrowser(Decide(Granted, scheduledMs, nowMs), nowMs);
            && at.Some? && at.value < scheduledMs
            && (scheduledMs - nowMs == MaxTimerDelay + 1 ==> at == Some(nowMs))
  {
  }

  /** The waits of a chain of timers, each re-arming the next, that covers a positive delay. */
  function TimerChunks(delay: int): (c: seq<int>)
    requires delay > 0
    ensures forall i :: 0 <= i < |c| ==> 0 < c[i] <= MaxTimerDelay
    ensures Total(c) == delay
    decreases delay
  {
    if delay <= MaxTimerDelay then [delay]
    else [MaxTimerDelay] + TimerChunks(delay - MaxTimerDelay)
  }

  function Total(c: seq<int>): int {
    if c == [] then 0 else c[0] + Total(c[1..])
  }

  /** The time the browser takes to run a chain of timers with the given delays. */
  function BrowserTotal(c: seq<int>): int {
    if c == [] then 0 else BrowserDelay(c[0]) + BrowserTotal(c[1..])
  }

  /** Delays within the browser's range are waited out exactly. */
  lemma {:induction false} BrowserTotalExact(c: seq<int>)
    requires forall i :: 0 <= i < |c| ==> 0 < c[i] <= MaxTimerDelay
    ensures BrowserTotal(c) == Total(c)
  {
    if c != [] {
      BrowserTotalExact(c[1..]);
    }
  }

  /**
   * Corrected: arming the chain of timers instead of one shows every reminder at the
   * time ShownAt gives, which is the time the rest of the model uses.
   */
  lemma {:induction false} ChunkedShownAtScheduledTime(scheduledMs: int, nowMs: int)
    requires nowMs < scheduledMs
    ensures nowMs + BrowserTotal(TimerChunks(scheduledMs - nowMs)) == scheduledMs
    ensures ShownAt(Decide(Granted, scheduledMs, nowMs), nowMs) == Some(scheduledMs)
  {
    BrowserTotalExact(TimerChunks(scheduledMs - nowMs));
  }

  /** A timer's callback. */
  datatype Task = ShowLater(title: string, body: string) | CloseLater(popup: nat)

  datatype Timer = Timer(delay: int, task: Task)

  /** A notification put on screen. */
  datatype Popup = Popup(title: string, body: string, tag: string, requireInteraction: bool, open: bool)

  class Notifier {
    /** `'Notification' in window`. */
    const supported: bool
    var permission: Permission
    /** Timers armed and not yet fired, in arming order. */
    var timers: seq<Timer>
    /** Every notification shown, in order. */
    var popups: seq<Popup>
    /** Permission prompts the browser was asked for. */
    var requests: nat

    /** Every close timer belongs to a notification that was shown. */
    ghost predicate Valid()
      reads this
    {
      forall i :: 0 <= i < |timers| && timers[i].task.CloseLater? ==> timers[i].task.popup < |popups|
    }

    /** A fresh hook: permission 'default', nothing armed or shown. */
    constructor (supported: bool)
      ensures Valid()
      ensures this.supported == supported && permission == Default
      ensures timers == [] && popups == [] && requests == 0
    {
      this.supported := supported;
      permission := Default;
      timers := [];
      popups := [];
      requests := 0;
    }

    /** `requestPermission()`, with the user's answer to the prompt as a parameter. */
    method RequestPermission(answer: Permission) returns (r: Permission)
      requires Valid()
      modifies this
      ensures Valid()
      ensures supported ==> r == answer && permission == answer && requests == old(requests) + 1
      ensures !supported ==> r == Denied && permission == old(permission) && requests == old(requests)
      ensures timers == old(timers) && popups == old(popups)
    {
      if supported {
        requests := requests + 1;
        permission := answer;
        r := answer;
      } else {
        r := Denied;
      }
    }

    /** Put a notification on screen and arm its close timer. */
    method Open(title: string, body: string)
      requires Valid()
      modifies this
      ensures Valid()
      ensures popups == old(popups) + [Popup(title, body, ReminderTag, true, true)]
      ensures timers == old(timers) + [Timer(AutoCloseMs, CloseLater(|old(popups)|))]
      ensures permission == old(permission) && requests == old(requests)
    {
      timers := timers + [Timer(AutoCloseMs, CloseLater(|popups|))];
      popups := popups + [Popup(title, body, ReminderTag, true, true)];
    }

    /** `showNotification(title, body)`: only when supported and permitted. */
    method ShowNotification(title: string, body: string) returns (shown: bool)
      requires Valid()
      modifies this
      ensures Valid()
      ensures shown <==> supported && permission == Granted
      ensures shown ==> (popups == old(popups) + [Popup(title, body, ReminderTag, true, true)]
                         && timers == old(timers) + [Timer(AutoCloseMs, CloseLater(|old(popups)|))])
      ensures !shown ==> popups == old(popups) && timers == old(timers)
      ensures permission == old(permission) && requests == old(requests)
    {
      shown := supported && permission == Granted;
      if shown {
        Open(title, body);
      }
    }

    /**
     * `scheduleNotification(title, body, scheduledTime)` at time nowMs; `answer` is the
     * user's answer should a permission prompt be needed.
     */
    method ScheduleNotification(title: string, body: string, scheduledMs: int, nowMs: int, answer: Permission)
      requires Valid()
      modifies this
      ensures Valid()
      ensures old(permission) != Granted ==>
                (popups == old(popups) && timers == old(timers)
                 && (supported ==> permission == answer && requests == old(requests) + 1)
                 && (!supported ==> permission == old(permission) && requests == old(requests)))
      ensures old(permission) == Granted && scheduledMs <= nowMs ==>
                ((supported ==> (popups == old(popups) + [Popup(title, body, ReminderTag, true, true)]
                                 && timers == old(timers) + [Timer(AutoCloseMs, CloseLater(|old(popups)|))]))
                 && (!supported ==> popups == old(popups) && timers == old(timers)))
      ensures old(permission) == Granted && nowMs < scheduledMs ==>
                (timers == old(timers) + [Timer(scheduledMs - nowMs, ShowLater(title, body))]
                 && popups == old(popups))
      ensures old(permission) == Granted ==> permission == Granted && requests == old(requests)
    {
      var d := Decide(permission, scheduledMs, nowMs);
      match d
      case RequestOnly =>
        var _ := RequestPermission(answer);
      case ShowNow =>
        var _ := ShowNotification(title, body);
      case Arm(delay) =>
        timers := timers + [Timer(delay, ShowLater(title, body))];
    }

    /**
     * Timer i fires and is dropped. A reminder timer shows its notification: its callback
     * was made while permission was granted, so only support is checked again. A close
     * timer closes its notification.
     */
    method FireTimer(i: nat)
      requires Valid() && i < |timers|
      modifies this
      ensures Valid()
      ensures var t := old(timers)[i];
              && (t.task.ShowLater? && supported ==>
                    (popups == old(popups) + [Popup(t.task.title, t.task.body, ReminderTag, true, true)]
                     && timers == old(timers)[..i] + old(timers)[i + 1..] + [Timer(AutoCloseMs, CloseLater(|old(popups)|))]))
              && (t.task.ShowLater? && !supported ==>
                    (popups == old(popups) && timers == old(timers)[..i] + old(timers)[i + 1..]))
              && (t.task.CloseLater? ==>
                    (popups == old(popups)[t.task.popup := old(popups)[t.task.popup].(open := false)]
                     && timers == old(timers)[..i] + old(timers)[i + 1..]))
      ensures permission == old(permission) && requests == old(requests)
    {
      var t := timers[i];
      timers := timers[..i] + timers[i + 1..];
      assert forall j :: 0 <= j < |timers| ==> timers[j] in old(timers);
      match t.task
      case ShowLater(title, body) =>
        if supported {
          Open(title, body);
        }
      case CloseLater(k) =>
        popups := popups[k := popups[k].(open := false)];
    }

    /** Clicking notification k closes it (focusing the window is not modelled). */
    method Click(k: nat)
      requires Valid() && k < |popups|
      modifies this
      ensures Valid()
      ensures popups == old(popups)[k := old(popups)[k].(open := false)]
      ensures timers == old(timers) && permission == old(permission) && requests == old(requests)
    {
      popups := popups[k := popups[k].(open := false)];
    }
  }
}
