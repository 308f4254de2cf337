/**
 * The time-travel debugger illustration, `DebuggerInterface` in
 * components/sections/TimeTravelSection.tsx.
 *
 * An endless asynchronous loop plays a scripted debugging session: it runs
 * to 60 % of the timeline, crashes, rewinds to 30 %, replays with the fix to
 * 100 %, holds, and starts over. Everything else the component shows (badge,
 * status line, retry count, error toast, event stream) is a pure function of
 * the play state and of the scrubber value read when the component last
 * rendered. The scrubber is a motion value: moving it does not re-render the
 * component, only a `setPlayState` does. The scrubber is a percentage
 * (0..100) and is only observed where an animation ends; time is a
 * millisecond clock.
 */
module TimeTravel {

  /** `playState`. */
  datatype PlayState = Playing | Error | Rewinding | Fixed

  /** The phase the loop enters after `p`; the loop has no final phase. */
  function NextPhase(p: PlayState): (q: PlayState)
    ensures q != p
    ensures q == Playing <==> p == Fixed
  {
    match p
    case Playing => Error
    case Error => Rewinding
    case Rewinding => Fixed
    case Fixed => Playing
  }

  /** Four successive phase changes bring the loop back to the phase it started in. */
  lemma PhaseCycleHasLengthFour(p: PlayState)
    ensures NextPhase(NextPhase(NextPhase(NextPhase(p)))) == p
    ensures NextPhase(p) != p && NextPhase(NextPhase(p)) != p && NextPhase(NextPhase(NextPhase(p))) != p
  {
  }

  // ---------------------------------------------------------------------------
  // Pure view derivations
  // ---------------------------------------------------------------------------

  /** The session badge in the top bar: one upper-case word per phase. */
  function Badge(p: PlayState): (b: string)
    ensures 7 <= |b| <= 9
    ensures forall i :: 0 <= i < |b| ==> 'A' <= b[i] <= 'Z'
  {
    match p
    case Playing => "RUNNING"
    case Error => "CRASHED"
    case Rewinding => "SEEKING"
    case Fixed => "REPLAYING"
  }

  /** The badge names the phase: different phases never show the same badge. */
  lemma BadgeIsOneToOne(p: PlayState, q: PlayState)
    ensures Badge(p) == Badge(q) <==> p == q
  {
    if p != q {
      assert Badge(p)[1] != Badge(q)[1] || |Badge(p)| != |Badge(q)|;
    }
  }

  /** The value shown for `status` in the state panel: a quoted string literal. */
  function StatusText(p: PlayState): (s: string)
    ensures |s| >= 2 && s[0] == '\'' && s[|s| - 1] == '\''
    ensures forall i :: 0 < i < |s| - 1 ==> s[i] != '\''
  {
    match p
    case Playing => "'processing'"
    case Error => "'failed'"
    case Rewinding => "'...rewinding'"
    case Fixed => "'succeeded'"
  }

  /** The status line tells the phases apart as well. */
  lemma StatusIsOneToOne(p: PlayState, q: PlayState)
    ensures StatusText(p) == StatusText(q) <==> p == q
  {
    if p != q {
      assert StatusText(p)[..3] != StatusText(q)[..3] || |StatusText(p)| != |StatusText(q)|;
    }
  }

  /** The `retries` counter in the state panel. */
  function Retries(p: PlayState): (n: int)
    ensures 0 <= n <= 1
    ensures n == 1 <==> p == Fixed
  {
    if p == Fixed then 1 else 0
  }

  /** The two animated values of the "Runtime Error" toast: its opacity and its downward offset in px. */
  datatype ToastPose = ToastPose(opacity: int, offsetY: int)

  /** The toast's `initial` pose: transparent and 20 px below its resting place. */
  const ToastInitial := ToastPose(0, 20)

  /**
   * The pose the toast animates to in phase `p`. It is fully opaque exactly in
   * the `error` phase, it is at rest exactly when it is opaque, and in every
   * other phase it goes back to its initial, hidden pose.
   */
  function ToastTarget(p: PlayState): (pose: ToastPose)
    ensures pose.opacity == 0 || pose.opacity == 1
    ensures pose.opacity == 1 <==> p == Error
    ensures pose.offsetY == 0 <==> pose.opacity == 1
    ensures pose == ToastInitial <==> p != Error
  {
    ToastPose(if p == Error then 1 else 0, if p == Error then 0 else 20)
  }

  /** Whether the play icon in the top bar is lit. */
  function PlayIconLit(p: PlayState): (lit: bool)
    ensures lit <==> p != Error && p != Rewinding
  {
    p == Playing || p == Fixed
  }

  /** The `type` of a `LogItem`. */
  datatype LogKind = InfoLog | WarnLog | ErrorLog | SuccessLog

  /** One rendered `LogItem`. */
  datatype LogItem = LogItem(time: string, kind: LogKind, text: string, active: bool)

  /** Whether the event stream holds an item of this kind. */
  predicate HasKind(items: seq<LogItem>, k: LogKind)
  {
    exists i :: 0 <= i < |items| && items[i].kind == k
  }

  /**
   * The event stream, in rendering order: two fixed info items, the latency
   * warning, then either the timeout error or the two success items.
   * `scrubberX` is the scrubber value read while rendering.
   */
  function EventStream(p: PlayState, scrubberX: int): (items: seq<LogItem>)
    ensures |items| == if p == Fixed then 5 else 4
    ensures forall i :: 0 <= i < 2 ==> items[i].kind == InfoLog && items[i].active
  {
    [ LogItem("00:00.100", InfoLog, "Workflow started", true),
      LogItem("00:00.450", InfoLog, "Payment intent created", true),
      LogItem("00:01.200", WarnLog, "External API latency high", p != Playing || scrubberX > 40) ]
    + (if p != Fixed then [LogItem("00:02.500", ErrorLog, "Request timed out", p == Error)] else [])
    + (if p == Fixed then
         [ LogItem("00:01.800", SuccessLog, "Retry policy triggered", true),
           LogItem("00:02.100", SuccessLog, "Payment confirmed", true) ]
       else [])
  }

  /**
   * The "Request timed out" item is rendered exactly when the phase is not
   * `fixed`, and then it is highlighted exactly in the `error` phase.
   */
  lemma TimeoutItemRule(p: PlayState, scrubberX: int)
    ensures HasKind(EventStream(p, scrubberX), ErrorLog) <==> p != Fixed
    ensures forall i :: 0 <= i < |EventStream(p, scrubberX)| && EventStream(p, scrubberX)[i].kind == ErrorLog ==>
      EventStream(p, scrubberX)[i].text == "Request timed out" && (EventStream(p, scrubberX)[i].active <==> p == Error)
  {
    var items := EventStream(p, scrubberX);
    if p != Fixed {
      assert items[3].kind == ErrorLog;
    }
  }

  /** The two success items are rendered exactly in the `fixed` phase, so never together with the timeout item. */
  lemma SuccessItemsRule(p: PlayState, scrubberX: int)
    ensures HasKind(EventStream(p, scrubberX), SuccessLog) <==> p == Fixed
    ensures !(HasKind(EventStream(p, scrubberX), SuccessLog) && HasKind(EventStream(p, scrubberX), ErrorLog))
  {
    var items := EventStream(p, scrubberX);
    if p == Fixed {
      assert items[3].kind == SuccessLog;
    } else {
      assert items[3].kind == ErrorLog;
    }
  }

  /** The latency warning is highlighted unless the session is playing with the scrubber at or before 40 %. */
  lemma LatencyWarningRule(p: PlayState, scrubberX: int)
    ensures EventStream(p, scrubberX)[2].kind == WarnLog
    ensures EventStream(p, scrubberX)[2].active <==> p != Playing || scrubberX > 40
  {
  }

  // ---------------------------------------------------------------------------
  // The replay loop
  // ---------------------------------------------------------------------------

  /**
   * The component after a state change: the clock, the phase, the scrubber,
   * and `shownX`, the scrubber value read by the last render. Only a phase
   * switch renders, so `shownX` follows the scrubber only then.
   */
  datatype Frame = Frame(atMs: nat, state: PlayState, scrubberX: int, shownX: int)

  /** Length of one trip through the four phases: 3000 + 1500 + 1000 + 500 + 4000 + 2000 ms. */
  const CycleMs := 12000

  /** Number of visible state changes in one trip through the loop body. */
  const FramesPerCycle := 8

  /**
   * The state changes of one trip through the loop body started at time
   * `t`, each right after the statement that makes it: `setPlayState`,
   * the end of an `animate`, or `scrubberX.set(0)`.
   */
  function Cycle(t: nat): (fs: seq<Frame>)
    ensures |fs| == FramesPerCycle
  {
    [ Frame(t, Playing, 0, 0),              // setPlayState('playing')
      Frame(t + 3000, Playing, 60, 0),      // animate to 60 over 3 s
      Frame(t + 3000, Error, 60, 60),       // setPlayState('error')
      Frame(t + 4500, Rewinding, 60, 60),   // 1.5 s pause, setPlayState('rewinding')
      Frame(t + 5500, Rewinding, 30, 60),   // animate to 30 over 1 s
      Frame(t + 6000, Fixed, 30, 30),       // 0.5 s pause, setPlayState('fixed')
      Frame(t + 10000, Fixed, 100, 30),     // animate to 100 over 4 s
      Frame(t + 12000, Fixed, 0, 30) ]      // 2 s pause, scrubberX.set(0)
  }

  /** The state changes of the first `n` trips through the loop, started at time 0. */
  function Frames(n: nat): (fs: seq<Frame>)
    ensures |fs| == FramesPerCycle * n
  {
    if n == 0 then [] else Frames(n - 1) + Cycle(CycleMs * (n - 1))
  }

  /** Frame `k` is frame `k % 8` of trip `k / 8`: the loop repeats itself every 12000 ms. */
  lemma {:induction false} FramesAt(n: nat, k: nat)
    requires k < FramesPerCycle * n
    ensures Frames(n)[k] == Cycle(CycleMs * (k / FramesPerCycle))[k % FramesPerCycle]
  {
    if k < FramesPerCycle * (n - 1) {
      FramesAt(n - 1, k);
    } else {
      assert k / FramesPerCycle == n - 1;
    }
  }

  /** Frame `j` of trip `r` is frame `j` of the `Cycle` started at `12000 * r` ms. */
  lemma FramesInTrip(n: nat, r: nat, j: nat)
    requires r < n && j < FramesPerCycle
    ensures FramesPerCycle * r + j < |Frames(n)|
    ensures Frames(n)[FramesPerCycle * r + j] == Cycle(CycleMs * r)[j]
  {
    FramesAt(n, FramesPerCycle * r + j);
    assert (FramesPerCycle * r + j) / FramesPerCycle == r && (FramesPerCycle * r + j) % FramesPerCycle == j;
  }

  /**
   * Consecutive frames differ in at most one of phase and scrubber; a phase
   * switch renders and so reads the scrubber, otherwise the rendered value
   * stays; the clock does not run backwards.
   */
  predicate Follows(f: Frame, g: Frame)
  {
    && (g.state == f.state || (g.state == NextPhase(f.state) && g.scrubberX == f.scrubberX))
    && (g.shownX == if g.state == f.state then f.shownX else f.scrubberX)
    && f.atMs <= g.atMs
  }

  /**
   * The phase only ever moves to the next one (playing, error, rewinding,
   * fixed, playing, ...), the scrubber does not move when it does, the
   * rendered scrubber value changes only then, and the clock never runs
   * backwards.
   */
  lemma {:induction false} FramesFollow(n: nat, k: nat)
    requires k + 1 < FramesPerCycle * n
    ensures Follows(Frames(n)[k], Frames(n)[k + 1])
  {
    FramesAt(n, k);
    FramesAt(n, k + 1);
    var r := k / FramesPerCycle;
    if k % FramesPerCycle < FramesPerCycle - 1 {
      assert (k + 1) / FramesPerCycle == r && (k + 1) % FramesPerCycle == k % FramesPerCycle + 1;
    } else {
      assert (k + 1) / FramesPerCycle == r + 1 && (k + 1) % FramesPerCycle == 0;
    }
  }

  /** The scrubber never leaves 0..100 %. */
  lemma {:induction false} FramesScrubberInRange(n: nat, k: nat)
    requires k < FramesPerCycle * n
    ensures 0 <= Frames(n)[k].scrubberX <= 100
  {
    FramesAt(n, k);
  }

  /** Where each phase leaves the scrubber when its animation has ended: 60, 60 (no animation), 30, 100. */
  function EndPosition(p: PlayState): (x: int)
    ensures 0 <= x <= 100
  {
    match p
    case Playing => 60
    case Error => 60
    case Rewinding => 30
    case Fixed => 100
  }

  /**
   * Trip `r` of the loop: each phase ends with the scrubber at its
   * `EndPosition`, the scrubber returns to 0 before the next trip plays, and
   * the pauses are 1500 ms on the error, 500 ms after the rewind and 2000 ms
   * before the reset.
   */
  lemma {:induction false} TripShape(n: nat, r: nat)
    requires r < n
    ensures var fs := Frames(n); var b := FramesPerCycle * r;
      && fs[b].state == Playing && fs[b].scrubberX == 0
      && fs[b + 1].state == Playing && fs[b + 1].scrubberX == EndPosition(Playing)
      && fs[b + 2].state == Error && fs[b + 3].scrubberX == EndPosition(Error)
      && fs[b + 4].state == Rewinding && fs[b + 4].scrubberX == EndPosition(Rewinding)
      && fs[b + 6].state == Fixed && fs[b + 6].scrubberX == EndPosition(Fixed)
      && fs[b + 7].state == Fixed && fs[b + 7].scrubberX == 0
      && fs[b + 3].atMs == fs[b + 2].atMs + 1500
      && fs[b + 5].atMs == fs[b + 4].atMs + 500
      && fs[b + 7].atMs == fs[b + 6].atMs + 2000
  {
    var b := FramesPerCycle * r;
    FramesInTrip(n, r, 0);
    FramesInTrip(n, r, 1);
    FramesInTrip(n, r, 2);
    FramesInTrip(n, r, 3);
    FramesInTrip(n, r, 4);
    FramesInTrip(n, r, 5);
    FramesInTrip(n, r, 6);
    FramesInTrip(n, r, 7);
  }

  /**
   * What the loop shows, rendered from the phase and the scrubber value the
   * last render read. The latency warning is highlighted from the `error`
   * switch to the end of each trip and never while playing: the render that
   * enters `playing` reads the scrubber at 0, and the run to 60 % does not
   * render, so the `scrubberX > 40` half of its condition never takes effect.
   * The error toast is opaque and at rest exactly in the frame that enters
   * `error`.
   */
  lemma {:induction false} FramesView(n: nat, k: nat)
    requires k < FramesPerCycle * n
    ensures var f := Frames(n)[k];
      && (EventStream(f.state, f.shownX)[2].active <==> k % FramesPerCycle >= 2)
      && (EventStream(f.state, f.shownX)[2].active <==> f.state != Playing)
      && (f.state == Playing ==> f.shownX <= 40)
      && (ToastTarget(f.state) == ToastPose(1, 0) <==> k % FramesPerCycle == 2)
  {
    FramesAt(n, k);
  }

  /** The `DebuggerInterface` component's state and its animation loop. */
  class DebuggerInterface {
    /** `playState`, the React state. */
    var playState: PlayState
    /** `scrubberX`, the motion value, in per cent of the timeline. */
    var scrubberX: int
    /** The value of `scrubberX` that the last render read. */
    var shownX: int
    /** Milliseconds since mount. */
    var clock: nat
    /** Every visible state change so far, in order. */
    ghost var frames: seq<Frame>

    ghost predicate Valid()
      reads this
    {
      0 <= scrubberX <= 100
    }

    /** Mount: `useState('playing')` and `useMotionValue(0)`. */
    constructor ()
      ensures Valid()
      ensures playState == Playing && scrubberX == 0 && shownX == 0 && clock == 0 && frames == []
    {
      playState := Playing;
      scrubberX := 0;
      shownX := 0;
      clock := 0;
      frames := [];
    }

    /** `setPlayState(p)`, and the render it causes, which reads the scrubber. */
    method SetPlayState(p: PlayState)
      modifies this
      ensures playState == p && shownX == scrubberX
      ensures frames == old(frames) + [Frame(clock, p, scrubberX, scrubberX)]
      ensures scrubberX == old(scrubberX) && clock == old(clock)
    {
      playState := p;
      shownX := scrubberX;
      frames := frames + [Frame(clock, p, scrubberX, shownX)];
    }

    /** `await animate(scrubberX, target, { duration })`, observed where it ends; it does not render. */
    method AnimateTo(target: int, durationMs: nat)
      requires 0 <= target <= 100
      modifies this
      ensures Valid()
      ensures scrubberX == target && clock == old(clock) + durationMs
      ensures frames == old(frames) + [Frame(clock, playState, target, shownX)]
      ensures playState == old(playState) && shownX == old(shownX)
    {
      clock := clock + durationMs;
      scrubberX := target;
      frames := frames + [Frame(clock, playState, target, shownX)];
    }

    /** `await new Promise(r => setTimeout(r, ms))`. */
    method Pause(ms: nat)
      modifies this
      ensures clock == old(clock) + ms
      ensures playState == old(playState) && scrubberX == old(scrubberX) && shownX == old(shownX) && frames == old(frames)
    {
      clock := clock + ms;
    }

    /** `scrubberX.set(0)`; it does not render. */
    method ResetScrubber()
      modifies this
      ensures Valid()
      ensures scrubberX == 0
      ensures frames == old(frames) + [Frame(clock, playState, 0, shownX)]
      ensures playState == old(playState) && clock == old(clock) && shownX == old(shownX)
    {
      scrubberX := 0;
      frames := frames + [Frame(clock, playState, 0, shownX)];
    }

    /**
     * The effect's `sequence` loop, for its first `trips` trips (the loop
     * itself never ends). Each trip shows exactly the frames of `Cycle`,
     * lasts 12000 ms and leaves the scrubber at 0.
     */
    method Sequence(trips: nat)
      requires Valid()
      requires scrubberX == 0 && clock == 0 && frames == []
      modifies this
      ensures Valid()
      ensures frames == Frames(trips)
      ensures clock == CycleMs * trips && scrubberX == 0
      ensures trips > 0 ==> playState == Fixed && shownX == 30
      ensures trips == 0 ==> playState == old(playState) && shownX == old(shownX)
    {
      var i := 0;
      while i < trips
        invariant 0 <= i <= trips
        invariant Valid() && scrubberX == 0
        invariant frames == Frames(i) && clock == CycleMs * i
        invariant i > 0 ==> playState == Fixed && shownX == 30
        invariant i == 0 ==> playState == old(playState) && shownX == old(shownX)
      {
        // Phase 1: normal playback, 0 % -> 60 %
        SetPlayState(Playing);
        AnimateTo(60, 3000);
        // Phase 2: the error, held at 60 %
        SetPlayState(Error);
        Pause(1500);
        // Phase 3: rewind, 60 % -> 30 %
        SetPlayState(Rewinding);
        AnimateTo(30, 1000);
        Pause(500);
        // Phase 4: replay with the fix, 30 % -> 100 %, then reset
        SetPlayState(Fixed);
        AnimateTo(100, 4000);
        Pause(2000);
        ResetScrubber();
        i := i + 1;
      }
    }
  }
}
