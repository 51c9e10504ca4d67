/**
 * Animation.java and AnimationHandler.java: an animation cycles through its
 * frames, and the handler keeps the running animations, registers them on a
 * canvas and advances them on each tick, in list order, until an active
 * animation without frames ends the pass.
 */
module Animations {
  import opened Wrappers
  import opened Seqs
  import opened Rendering
  import JavaLang

  /** The frame index after one step: the next frame, or back to the first after the last. */
  function Advance(i: int, n: int): (r: int)
    ensures IndexOk(i, n) ==> IndexOk(r, n)
  {
    if i < n - 1 then i + 1 else 0
  }

  /** The frame index after `k` steps. */
  function AdvanceTimes(i: int, n: int, k: nat): (r: int)
    ensures IndexOk(i, n) ==> IndexOk(r, n)
  {
    if k == 0 then i else Advance(AdvanceTimes(i, n, k - 1), n)
  }

  /** A legal index: a frame position, or 0 when there are no frames at all. */
  predicate IndexOk(i: int, n: int) {
    0 <= i && (i < n || i == 0)
  }

  /** One step keeps a legal index legal; it names a frame exactly when there are frames. */
  lemma AdvanceKeepsIndexOk(i: int, n: nat)
    requires IndexOk(i, n)
    ensures IndexOk(Advance(i, n), n)
    ensures 0 <= Advance(i, n) < n <==> n > 0
  {
  }

  /** Division with remainder has one answer: `q * n + r` with `0 <= r < n` leaves remainder `r`. */
  lemma ModUnique(x: int, n: int, q: int, r: int)
    requires n > 0 && 0 <= r < n && x == q * n + r
    ensures x % n == r
  {
    var q', r' := x / n, x % n;
    assert (q - q') * n == r' - r;
    if q > q' {
      JavaLang.MulMonotone(1, q - q', n);
    } else if q < q' {
      JavaLang.MulMonotone(1, q' - q, n);
    }
  }

  lemma ModNext(m: nat, n: nat)
    requires n > 0
    ensures (m + 1) % n == if m % n < n - 1 then m % n + 1 else 0
  {
    var q, r := m / n, m % n;
    if r < n - 1 {
      ModUnique(m + 1, n, q, r + 1);
    } else {
      assert m + 1 == (q + 1) * n + 0;
      ModUnique(m + 1, n, q + 1, 0);
    }
  }

  /** Stepping `k` times from frame `i` lands on frame `(i + k) mod n`. */
  lemma {:induction false} AdvanceTimesIsModulo(i: int, n: int, k: nat)
    requires 0 <= i < n
    ensures AdvanceTimes(i, n, k) == (i + k) % n
  {
    if k > 0 {
      AdvanceTimesIsModulo(i, n, k - 1);
      ModNext(i + k - 1, n);
    }
  }

  /** After as many steps as there are frames, the animation is back where it started. */
  lemma FullCycle(i: int, n: int)
    requires 0 <= i < n
    ensures AdvanceTimes(i, n, n) == i
  {
    AdvanceTimesIsModulo(i, n, n);
    ModUnique(i + n, n, 1, i);
  }

  /** What one updateIndex (or reset) call ends with: nothing, onFrameChange for a frame, or the out-of-bounds exception. */
  datatype Outcome = Idle | Changed(frame: nat) | OutOfRange

  /**
   * An animation. What the subclass fixes (getFrames().length, getDelay(),
   * checkValidation(), its class and the renderable it puts on a canvas) is
   * constant; `index` and `paused` change, and `lastFrameChange` is a field no
   * code assigns.
   */
  class Animation {
    const frameCount: nat
    const delay: int
    const valid: bool
    const className: string
    const renderable: Renderable
    var index: int
    var paused: bool
    var lastFrameChange: int

    constructor (frameCount: nat, delay: int, valid: bool, className: string, renderable: Renderable)
      ensures this.frameCount == frameCount && this.delay == delay && this.valid == valid
      ensures this.className == className && this.renderable == renderable
      ensures index == 0 && !paused && lastFrameChange == 0
      ensures Valid()
    {
      this.frameCount := frameCount;
      this.delay := delay;
      this.valid := valid;
      this.className := className;
      this.renderable := renderable;
      index := 0;
      paused := false;
      lastFrameChange := 0;
    }

    /** The index names a frame, or is 0 for an animation without frames. */
    predicate Valid()
      reads this
    {
      IndexOk(index, frameCount)
    }

    /** Whether updateIndex advances at time `now`: valid, not paused, and the delay gate open. */
    predicate Active(now: int)
      reads this`paused, this`lastFrameChange
      ensures Active(now) ==> valid && !paused
    {
      valid && !paused && (lastFrameChange <= 0 || now - lastFrameChange >= delay)
    }

    /** updateIndex: one step when active; reading the new frame fails when it does not exist. */
    method UpdateIndex(now: int) returns (r: Outcome)
      requires Valid()
      modifies this`index
      ensures Valid()
      ensures r.OutOfRange? <==> Active(now) && frameCount == 0
      ensures !Active(now) ==> index == old(index) && r == Idle
      ensures Active(now) ==> index == Advance(old(index), frameCount)
      ensures Active(now) ==> r == if 0 <= index < frameCount then Changed(index) else OutOfRange
    {
      r := Idle;
      if valid && !paused {
        if lastFrameChange <= 0 || now - lastFrameChange >= delay {
          index := if index < frameCount - 1 then index + 1 else 0;
          r := if 0 <= index < frameCount then Changed(index) else OutOfRange;
        }
      }
    }

    /** jumpTo: moves to frame `i` when it exists, and otherwise does nothing. */
    method JumpTo(i: int) returns (r: Option<nat>)
      requires Valid()
      modifies this`index
      ensures Valid()
      ensures 0 <= i < frameCount ==> index == i && r == Some(i)
      ensures !(0 <= i < frameCount) ==> index == old(index) && r == None
    {
      r := None;
      if i >= 0 && i < frameCount {
        index := i;
        r := Some(i);
      }
    }

    /** reset: back to frame 0, which fails for an animation without frames. */
    method Reset() returns (r: Outcome)
      modifies this`index
      ensures index == 0 && Valid()
      ensures r == if frameCount > 0 then Changed(0) else OutOfRange
    {
      index := 0;
      r := if frameCount > 0 then Changed(0) else OutOfRange;
    }

    method Pause()
      modifies this`paused
      ensures paused
    {
      paused := true;
    }

    method Resume()
      modifies this`paused
      ensures !paused
    {
      paused := false;
    }
  }

  /** lastFrameChange is never assigned, so from its initial 0 the delay gate is always open. */
  lemma GateAlwaysOpen(a: Animation, now: int)
    requires a.lastFrameChange == 0
    ensures a.Active(now) <==> a.valid && !a.paused
  {
  }

  /** The canvas after stopping, in order, each animation of `xs` whose class is `c`. */
  function CanvasAfterStops(rs: seq<Renderable>, xs: seq<Animation>, c: string): seq<Renderable> {
    if xs == [] then rs
    else
      var prev := CanvasAfterStops(rs, xs[..|xs| - 1], c);
      var last := xs[|xs| - 1];
      if last.className == c then Arrange(RemoveFirst(prev, last.renderable)) else prev
  }

  function NotOfClass(c: string): Animation -> bool {
    (a: Animation) => a.className != c
  }

  /** One iteration of stopByClass on the list: the snapshot's next animation is removed exactly when it has class `c`. */
  lemma StopStep(snapshot: seq<Animation>, i: nat, c: string)
    requires i < |snapshot|
    ensures var cur := Filter(snapshot[..i], NotOfClass(c)) + snapshot[i..];
      var next := Filter(snapshot[..i + 1], NotOfClass(c)) + snapshot[i + 1..];
      if snapshot[i].className == c then snapshot[i] in cur && next == RemoveFirst(cur, snapshot[i])
      else next == cur
  {
    var x, kept := snapshot[i], Filter(snapshot[..i], NotOfClass(c));
    assert snapshot[i..] == [x] + snapshot[i + 1..];
    FilterPrefixStep(snapshot, i, NotOfClass(c));
    if x.className == c {
      assert x !in kept;
      RemoveFirstAt(kept, x, snapshot[i + 1..]);
      assert kept + snapshot[i..] == kept + [x] + snapshot[i + 1..];
    }
  }

  /** One iteration of stopByClass on the canvas. */
  lemma CanvasStopStep(rs: seq<Renderable>, snapshot: seq<Animation>, i: nat, c: string)
    requires i < |snapshot|
    ensures CanvasAfterStops(rs, snapshot[..i + 1], c)
      == if snapshot[i].className == c then Arrange(RemoveFirst(CanvasAfterStops(rs, snapshot[..i], c), snapshot[i].renderable))
         else CanvasAfterStops(rs, snapshot[..i], c)
  {
    assert snapshot[..i + 1][..i] == snapshot[..i] && snapshot[..i + 1][i] == snapshot[i];
  }

  /** The running animations, and the canvas they are drawn on. */
  class AnimationHandler {
    var animations: seq<Animation>
    const canvas: Canvas

    constructor (canvas: Canvas)
      ensures animations == [] && this.canvas == canvas
    {
      animations := [];
      this.canvas := canvas;
    }

    /**
     * play: appends the animation and adds it to the canvas whether or not it
     * validates; `warned` is the warning logged for one that does not.
     */
    method Play(a: Animation) returns (warned: bool)
      modifies this`animations, canvas`renderables
      ensures warned == !a.valid
      ensures animations == old(animations) + [a]
      ensures canvas.renderables == Arrange(old(canvas.renderables) + [a.renderable])
    {
      warned := !a.valid;
      animations := animations + [a];
      canvas.AddRenderable(a.renderable);
    }

    /** stop: removes one occurrence and takes it off the canvas, only if it is running. */
    method Stop(a: Animation)
      modifies this`animations, canvas`renderables
      ensures old(a in animations) ==>
        (animations == RemoveFirst(old(animations), a)
         && canvas.renderables == Arrange(RemoveFirst(old(canvas.renderables), a.renderable)))
      ensures old(a !in animations) ==> animations == old(animations) && canvas.renderables == old(canvas.renderables)
    {
      if a in animations {
        animations := RemoveFirst(animations, a);
        canvas.RemoveRenderable(a.renderable);
      }
    }

    /**
     * stopByClass: stops every animation of exactly class `c`, going through a
     * snapshot of the list; all others stay, in their order.
     */
    method StopByClass(c: string)
      modifies this`animations, canvas`renderables
      ensures animations == Filter(old(animations), NotOfClass(c))
      ensures canvas.renderables == CanvasAfterStops(old(canvas.renderables), old(animations), c)
    {
      var snapshot := animations;
      var i := 0;
      while i < |snapshot|
        invariant 0 <= i <= |snapshot|
        invariant animations == Filter(snapshot[..i], NotOfClass(c)) + snapshot[i..]
        invariant canvas.renderables == CanvasAfterStops(old(canvas.renderables), snapshot[..i], c)
      {
        var x := snapshot[i];
        StopStep(snapshot, i, c);
        CanvasStopStep(old(canvas.renderables), snapshot, i, c);
        if x.className == c {
          Stop(x);
        }
        i := i + 1;
      }
      assert snapshot[..i] == snapshot;
    }

    /** getAnimations: a copy of the list. */
    method GetAnimations() returns (copy: seq<Animation>)
      ensures copy == animations
    {
      copy := animations;
    }

    /**
     * tick: updateIndex on each animation in list order; the first exception
     * ends the pass (it is swallowed). `outcomes` has one entry per call made.
     * The exception is exactly an active animation without frames, so a pass
     * over animations that all have frames reaches every one of them.
     * Each animation that is active steps once per time it occurs in the part
     * of the list that was reached.
     */
    method Tick(now: int) returns (outcomes: seq<Outcome>)
      requires forall a :: a in animations ==> a.Valid()
      modifies animations
      ensures forall a :: a in animations ==> a.Valid()
      ensures |outcomes| <= |animations|
      ensures forall j :: 0 <= j < |outcomes| ==>
        (outcomes[j].OutOfRange? <==> old(animations[j].Active(now)) && animations[j].frameCount == 0)
      ensures (forall a :: a in animations ==> a.frameCount > 0) ==> |outcomes| == |animations|
      ensures forall j :: 0 <= j < |outcomes| ==> (outcomes[j].Idle? <==> !old(animations[j].Active(now)))
      ensures forall j :: 0 <= j < |outcomes| - 1 ==> !outcomes[j].OutOfRange?
      ensures |outcomes| < |animations| ==> |outcomes| > 0 && outcomes[|outcomes| - 1].OutOfRange?
      ensures forall a :: a in animations ==> a.paused == old(a.paused) && a.lastFrameChange == old(a.lastFrameChange)
      ensures forall a :: a in animations ==>
        a.index == AdvanceTimes(old(a.index), a.frameCount, if old(a.Active(now)) then multiset(animations[..|outcomes|])[a] else 0)
    {
      var list := animations;
      outcomes := [];
      var i := 0;
      var failed := false;
      while i < |list| && !failed
        invariant 0 <= i <= |list| && |outcomes| == i
        invariant failed ==> i > 0
        invariant forall a :: a in list ==> a.Valid()
        invariant forall j :: 0 <= j < i ==>
          (outcomes[j].OutOfRange? <==> old(list[j].Active(now)) && list[j].frameCount == 0)
        invariant forall j :: 0 <= j < i ==> (outcomes[j].Idle? <==> !old(list[j].Active(now)))
        invariant forall j :: 0 <= j < i ==> (outcomes[j].OutOfRange? <==> failed && j == i - 1)
        invariant forall a :: a in list ==> a.paused == old(a.paused) && a.lastFrameChange == old(a.lastFrameChange)
        invariant forall a :: a in list ==>
          a.index == AdvanceTimes(old(a.index), a.frameCount, if old(a.Active(now)) then multiset(list[..i])[a] else 0)
      {
        var x := list[i];
        assert list[..i + 1] == list[..i] + [x];
        var r := x.UpdateIndex(now);
        outcomes := outcomes + [r];
        failed := r.OutOfRange?;
        i := i + 1;
      }
      if failed {
        // the pass stopped at this animation, which therefore has no frames
        assert list[i - 1] in list && list[i - 1].frameCount == 0;
      }
    }
  }
}
