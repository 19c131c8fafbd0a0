/** The two timer channels of the application controller, on a clock that counts
    milliseconds: the hide timer of the status line (t_stetus, set by show_status) and the
    debounce timer of editor changes (lastHD). A channel holds at most one pending timer;
    arming it first cancels the previous one, as clearTimeout followed by setTimeout does. */
module Timers {

  /** A channel's pending timer, if any, and the time at which it fires */
  datatype Timer = Idle | Armed(due: nat)

  /** clearTimeout on the channel, then setTimeout(…, delay) at time now when delay is not
      zero (show_status arms nothing for a hide of 0) */
  function Rearm(now: nat, delay: nat): (t: Timer)
    ensures t.Armed? <==> delay != 0
    ensures t.Armed? ==> t.due == now + delay && t.due > now
  {
    if delay == 0 then Idle else Armed(now + delay)
  }

  predicate FiresAt(t: Timer, time: nat) {
    t == Armed(time)
  }

  // ---------------------------------------------------------------- status line

  /** The #status element's text and its pending hide timer */
  datatype StatusLine = StatusLine(text: string, timer: Timer)

  /** show_status(text, hide): the previous hide timer is always cancelled, the text is
      shown, and a new hide timer is armed exactly when hide (here delay) is not zero */
  function ShowStatus(now: nat, text: string, delay: nat): (st: StatusLine)
    ensures st.text == text
    ensures st.timer.Armed? <==> delay != 0
    ensures st.timer.Armed? ==> st.timer.due == now + delay
  {
    StatusLine(text, Rearm(now, delay))
  }

  /** One millisecond passes and the clock reads time: a hide timer due now empties the text */
  function StatusTick(st: StatusLine, time: nat): StatusLine {
    if FiresAt(st.timer, time) then StatusLine("", Idle) else st
  }

  /** The status line after k milliseconds without further show_status calls */
  function StatusAfter(st: StatusLine, now: nat, k: nat): StatusLine
    decreases k
  {
    if k == 0 then st else StatusAfter(StatusTick(st, now + 1), now + 1, k - 1)
  }

  /** With a hide of 0 the text stays for ever */
  lemma {:induction false} StatusPersists(now: nat, text: string, k: nat)
    ensures StatusAfter(ShowStatus(now, text, 0), now, k).text == text
    decreases k
  {
    if k > 0 {
      StatusPersists(now + 1, text, k - 1);
    }
  }

  lemma {:induction false} StatusCountdown(st: StatusLine, now: nat, k: nat)
    requires st.timer.Armed? && st.timer.due > now
    ensures StatusAfter(st, now, k).text == (if now + k < st.timer.due then st.text else "")
    ensures now + k >= st.timer.due ==> StatusAfter(st, now, k).timer == Idle
    decreases k
  {
    if k > 0 {
      if now + 1 == st.timer.due {
        IdleStays(StatusLine("", Idle), now + 1, k - 1);
      } else {
        StatusCountdown(st, now + 1, k - 1);
      }
    }
  }

  lemma {:induction false} IdleStays(st: StatusLine, now: nat, k: nat)
    requires st.timer == Idle
    ensures StatusAfter(st, now, k) == st
    decreases k
  {
    if k > 0 {
      IdleStays(st, now + 1, k - 1);
    }
  }

  /** With a hide of h > 0 the text stays for h - 1 milliseconds and is "" from the h-th on */
  lemma StatusHides(now: nat, text: string, delay: nat, k: nat)
    requires delay > 0
    ensures StatusAfter(ShowStatus(now, text, delay), now, k).text == (if k < delay then text else "")
  {
    StatusCountdown(ShowStatus(now, text, delay), now, k);
  }

  // ---------------------------------------------------------------- debounce

  /** The quiet period after the last editor change before the graph is rendered */
  const DebounceDelay: nat := 1500

  /** What happens to the debounce channel: an editor change notification, or one millisecond */
  datatype Event = Change | Tick

  /** The channel, its clock, and the times at which renderGraph was called */
  datatype Debounce = Debounce(now: nat, pending: Timer, renders: seq<nat>)

  /** The change handler: clearTimeout(lastHD); lastHD = setTimeout(renderGraph, 1500).
      A tick fires the pending timer when it is due. */
  function Step(d: Debounce, e: Event): Debounce {
    match e
    case Change => d.(pending := Rearm(d.now, DebounceDelay))
    case Tick =>
      if FiresAt(d.pending, d.now + 1) then Debounce(d.now + 1, Idle, d.renders + [d.now + 1])
      else d.(now := d.now + 1)
  }

  function Run(d: Debounce, es: seq<Event>): Debounce
    decreases |es|
  {
    if es == [] then d else Run(Step(d, es[0]), es[1..])
  }

  function Ticks(k: nat): (es: seq<Event>)
    ensures |es| == k && forall i :: 0 <= i < k ==> es[i] == Tick
  {
    if k == 0 then [] else [Tick] + Ticks(k - 1)
  }

  lemma {:induction false} RunAppend(d: Debounce, es: seq<Event>, fs: seq<Event>)
    ensures Run(d, es + fs) == Run(Run(d, es), fs)
    decreases |es|
  {
    if es != [] {
      assert (es + fs)[0] == es[0];
      assert (es + fs)[1..] == es[1..] + fs;
      RunAppend(Step(d, es[0]), es[1..], fs);
    } else {
      assert es + fs == fs;
    }
  }

  /** A pending timer fires once, exactly when it is due, and not before */
  lemma {:induction false} Wait(d: Debounce, k: nat)
    requires d.pending.Armed? && d.pending.due > d.now
    ensures Run(d, Ticks(k)).now == d.now + k
    ensures Run(d, Ticks(k)).renders == d.renders + (if d.now + k >= d.pending.due then [d.pending.due] else [])
    ensures Run(d, Ticks(k)).pending == (if d.now + k >= d.pending.due then Idle else d.pending)
    decreases k
  {
    if k > 0 {
      assert Ticks(k)[1..] == Ticks(k - 1);
      var d' := Step(d, Tick);
      if d.now + 1 == d.pending.due {
        WaitIdle(d', k - 1);
      } else {
        Wait(d', k - 1);
      }
    }
  }

  /** Without a pending timer, time passes and nothing is rendered */
  lemma {:induction false} WaitIdle(d: Debounce, k: nat)
    requires d.pending == Idle
    ensures Run(d, Ticks(k)) == d.(now := d.now + k)
    decreases k
  {
    if k > 0 {
      assert Ticks(k)[1..] == Ticks(k - 1);
      WaitIdle(Step(d, Tick), k - 1);
    }
  }

  /** A burst: an editor change followed by gaps[0] milliseconds, another change followed by
      gaps[1] milliseconds, and so on */
  function Burst(gaps: seq<nat>): seq<Event>
    decreases |gaps|
  {
    if gaps == [] then [] else [Change] + Ticks(gaps[0]) + Burst(gaps[1..])
  }

  function Sum(gaps: seq<nat>): nat
    decreases |gaps|
  {
    if gaps == [] then 0 else gaps[0] + Sum(gaps[1..])
  }

  /** Debouncing: in a burst of changes, each but the last followed by less than 1500 ms of
      quiet, renderGraph is called exactly once if the quiet after the last change reaches
      1500 ms, at 1500 ms after that last change, and never otherwise */
  lemma {:induction false} BurstRendersOnce(d: Debounce, gaps: seq<nat>)
    requires |gaps| > 0
    requires forall i :: 0 <= i < |gaps| - 1 ==> gaps[i] < DebounceDelay
    ensures var last := d.now + Sum(gaps[..|gaps| - 1]);
            var quiet := gaps[|gaps| - 1];
            Run(d, Burst(gaps)).renders == d.renders + (if quiet >= DebounceDelay then [last + DebounceDelay] else [])
    decreases |gaps|
  {
    var first := [Change] + Ticks(gaps[0]);
    assert Burst(gaps) == first + Burst(gaps[1..]);
    RunAppend(d, first, Burst(gaps[1..]));
    RunAppend(d, [Change], Ticks(gaps[0]));
    var armed := Step(d, Change);
    assert Run(d, [Change]) == armed;
    Wait(armed, gaps[0]);
    var d1 := Run(d, first);
    if |gaps| == 1 {
      assert gaps[..0] == [];
      assert Burst(gaps[1..]) == [];
    } else {
      assert d1.renders == d.renders && d1.now == d.now + gaps[0];
      BurstRendersOnce(d1, gaps[1..]);
      assert gaps[1..][..|gaps[1..]| - 1] == gaps[..|gaps| - 1][1..];
      assert gaps[..|gaps| - 1][0] == gaps[0];
    }
  }
}
