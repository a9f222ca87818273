/**
 * The full-screen fader of covetools' graphics package: an overlay that is held fully
 * opaque for a delay, then fades out over a fixed time, and draws nothing afterwards.
 *
 * The GPU side (quad mesh, shader program, blending state, draw calls) is abstracted to
 * a flag saying whether the shader exists, a ghost count of shader builds, a ghost count
 * of draw calls and a ghost count of shader disposals. The easing curve
 * (`Interpolation.fade` in the framework) is a parameter `curve` about whose values
 * nothing is assumed.
 */
module Graphics {

  /** An RGBA colour; only `a` ever changes after construction. */
  datatype Color = Color(r: real, g: real, b: real, a: real)

  /** Opaque black, the colour used when none is given. */
  const Black: Color := Color(0.0, 0.0, 0.0, 1.0)

  /** Everything a fader holds, as one value. */
  datatype FaderState = FaderState(
    delay: real,          // remaining hold time; may go negative
    fadeTime: real,       // length of the fade
    elapsed: real,        // fade clock
    color: Color,         // colour drawn on the last frame
    shaderBuilt: bool,    // the shader field is non-null
    shaderBuilds: nat,    // how many times a shader was built
    draws: nat,           // how many times the quad was drawn
    shaderDisposals: nat) // how many times the shader was disposed

  /** Sequences of frame times the precondition of every frame admits. */
  predicate NonNegative(dts: seq<real>)
  {
    forall i :: 0 <= i < |dts| ==> dts[i] >= 0.0
  }

  /** Sum of a sequence of frame times. */
  function Sum(dts: seq<real>): real
  {
    if dts == [] then 0.0 else dts[0] + Sum(dts[1..])
  }

  /**
   * What holds of every reachable state: the fade clock starts at zero and only ever
   * grows, and the shader exists exactly when it was built at least once.
   */
  predicate Consistent(s: FaderState)
  {
    s.elapsed >= 0.0 && (s.shaderBuilt <==> s.shaderBuilds > 0)
  }

  /** The fader is finished: it will never draw or change again. */
  predicate Finished(s: FaderState)
  {
    s.elapsed >= s.fadeTime
  }

  /** The state right after construction, for a given colour (its alpha is forced to 1). */
  function Initial(delay: real, fadeTime: real, initialColor: Color): (s: FaderState)
    ensures Consistent(s) && s.elapsed == 0.0 && !s.shaderBuilt
    ensures s.delay == delay && s.fadeTime == fadeTime
    ensures s.color == initialColor.(a := 1.0)
    ensures s.draws == 0 && s.shaderBuilds == 0 && s.shaderDisposals == 0
  {
    FaderState(delay, fadeTime, 0.0, initialColor.(a := 1.0), false, 0, 0, 0)
  }

  /**
   * The argument handed to the easing curve: the fraction of the fade already done.
   * On every frame that reaches the division, the fraction lies in [0, 1).
   */
  function FadeProgress(elapsed: real, fadeTime: real): (t: real)
    requires 0.0 <= elapsed < fadeTime
    ensures 0.0 <= t < 1.0
  {
    assert fadeTime > 0.0;
    var t := elapsed / fadeTime;
    assert t * fadeTime == elapsed;
    assert t < 1.0 by {
      if t >= 1.0 {
        ProductNonNegative(t - 1.0, fadeTime);
      }
    }
    t
  }

  /** The product of two non-negative reals is non-negative. */
  lemma ProductNonNegative(a: real, b: real)
    requires a >= 0.0 && b >= 0.0
    ensures a * b >= 0.0
  {
  }

  /** The alpha displayed on a frame, given the already-decremented delay. */
  function FrameAlpha(delay: real, elapsed: real, fadeTime: real, curve: real -> real): real
    requires 0.0 <= elapsed < fadeTime
  {
    if delay > 0.0 then 1.0 else 1.0 - curve(FadeProgress(elapsed, fadeTime))
  }

  /** One call of `render(deltaTime)`. */
  function Rendered(s: FaderState, deltaTime: real, curve: real -> real): (r: FaderState)
    requires Consistent(s) && deltaTime >= 0.0
    ensures Consistent(r)
    ensures r.fadeTime == s.fadeTime && r.shaderDisposals == s.shaderDisposals
    ensures r.elapsed >= s.elapsed
  {
    if Finished(s) then s
    else
      var delay := if s.delay > 0.0 then s.delay - deltaTime else s.delay;
      s.(delay := delay,
         color := s.color.(a := FrameAlpha(delay, s.elapsed, s.fadeTime, curve)),
         shaderBuilt := true,
         shaderBuilds := if s.shaderBuilt then s.shaderBuilds else s.shaderBuilds + 1,
         draws := s.draws + 1,
         elapsed := if delay <= 0.0 then s.elapsed + deltaTime else s.elapsed)
  }

  /** A sequence of frames, one `render` per entry of `dts`. */
  function Run(s: FaderState, dts: seq<real>, curve: real -> real): (r: FaderState)
    requires Consistent(s) && NonNegative(dts)
    ensures Consistent(r)
    ensures r.fadeTime == s.fadeTime && r.elapsed >= s.elapsed
    decreases |dts|
  {
    if dts == [] then s else Run(Rendered(s, dts[0], curve), dts[1..], curve)
  }

  /** `dispose()`: the shader is released only when it exists. */
  function Disposed(s: FaderState): (r: FaderState)
    ensures r.shaderDisposals == s.shaderDisposals + (if s.shaderBuilt then 1 else 0)
    ensures r.(shaderDisposals := s.shaderDisposals) == s
  {
    if s.shaderBuilt then s.(shaderDisposals := s.shaderDisposals + 1) else s
  }

  // ---------------------------------------------------------------------------------
  // Properties of a single frame

  /** A finished fader's frame changes nothing and draws nothing. */
  lemma FinishedFrameIsInert(s: FaderState, deltaTime: real, curve: real -> real)
    requires Consistent(s) && deltaTime >= 0.0 && Finished(s)
    ensures Rendered(s, deltaTime, curve) == s
  {
  }

  /**
   * The hold delay counts down only while it is positive, and an unfinished frame
   * always draws exactly once.
   */
  lemma DelayCountdown(s: FaderState, deltaTime: real, curve: real -> real)
    requires Consistent(s) && deltaTime >= 0.0 && !Finished(s)
    ensures var r := Rendered(s, deltaTime, curve);
      r.delay == (if s.delay > 0.0 then s.delay - deltaTime else s.delay) &&
      r.draws == s.draws + 1
  {
  }

  /**
   * While the decremented delay is still positive the overlay is fully opaque and the
   * fade clock stands still; once it is not, the clock advances by exactly the frame's
   * time (also on the frame where the delay runs out) and the alpha comes from the curve.
   */
  lemma DelayGatesFadeClock(s: FaderState, deltaTime: real, curve: real -> real)
    requires Consistent(s) && deltaTime >= 0.0 && !Finished(s)
    ensures var r := Rendered(s, deltaTime, curve);
      (r.delay > 0.0 ==> r.color.a == 1.0 && r.elapsed == s.elapsed) &&
      (r.delay <= 0.0 ==> r.elapsed == s.elapsed + deltaTime &&
                          r.color.a == 1.0 - curve(s.elapsed / s.fadeTime))
  {
  }

  /** The shader is built on the first unfinished frame and never rebuilt by a frame. */
  lemma ShaderBuiltLazily(s: FaderState, deltaTime: real, curve: real -> real)
    requires Consistent(s) && deltaTime >= 0.0
    ensures var r := Rendered(s, deltaTime, curve);
      (!Finished(s) ==> r.shaderBuilt) &&
      r.shaderBuilds == s.shaderBuilds + (if !s.shaderBuilt && !Finished(s) then 1 else 0)
  {
  }

  // ---------------------------------------------------------------------------------
  // Properties of runs of frames

  /** Once finished, a fader stays exactly as it is through any number of frames. */
  lemma {:induction false} FinishedRunIsInert(s: FaderState, dts: seq<real>, curve: real -> real)
    requires Consistent(s) && NonNegative(dts) && Finished(s)
    ensures Run(s, dts, curve) == s
    decreases |dts|
  {
    if dts != [] {
      FinishedFrameIsInert(s, dts[0], curve);
      FinishedRunIsInert(s, dts[1..], curve);
    }
  }

  /**
   * A fader built with a non-positive fade time is finished from the start, so every
   * frame is a no-op and the division by the fade time is never evaluated.
   */
  lemma NonPositiveFadeTimeIsInert(delay: real, fadeTime: real, initialColor: Color,
                                   dts: seq<real>, curve: real -> real)
    requires fadeTime <= 0.0 && NonNegative(dts)
    ensures Run(Initial(delay, fadeTime, initialColor), dts, curve) == Initial(delay, fadeTime, initialColor)
  {
    FinishedRunIsInert(Initial(delay, fadeTime, initialColor), dts, curve);
  }

  /**
   * While the frame times so far add up to less than the remaining delay, the overlay
   * stays fully opaque, the fade clock does not move and the delay is still positive.
   */
  lemma {:induction false} HoldWhileDelayRemains(s: FaderState, dts: seq<real>, curve: real -> real)
    requires Consistent(s) && NonNegative(dts)
    requires s.color.a == 1.0 && Sum(dts) < s.delay
    ensures var r := Run(s, dts, curve);
      r.elapsed == s.elapsed && r.color.a == 1.0 && r.delay > 0.0
    decreases |dts|
  {
    if dts != [] {
      var next := Rendered(s, dts[0], curve);
      NonNegativeTail(dts);
      SumNonNegative(dts[1..]);
      assert Sum(dts[1..]) < next.delay;
      HoldWhileDelayRemains(next, dts[1..], curve);
    }
  }

  /** Dropping the first frame keeps the frame times non-negative. */
  lemma NonNegativeTail(dts: seq<real>)
    requires NonNegative(dts) && dts != []
    ensures NonNegative(dts[1..])
  {
  }

  /** The sum of non-negative frame times is non-negative. */
  lemma {:induction false} SumNonNegative(dts: seq<real>)
    requires NonNegative(dts)
    ensures Sum(dts) >= 0.0
    decreases |dts|
  {
    if dts != [] {
      NonNegativeTail(dts);
      SumNonNegative(dts[1..]);
    }
  }

  /** Once the delay has run out it is never modified again. */
  lemma {:induction false} ExpiredDelayStaysPut(s: FaderState, dts: seq<real>, curve: real -> real)
    requires Consistent(s) && NonNegative(dts) && s.delay <= 0.0
    ensures Run(s, dts, curve).delay == s.delay
    decreases |dts|
  {
    if dts != [] {
      NonNegativeTail(dts);
      ExpiredDelayStaysPut(Rendered(s, dts[0], curve), dts[1..], curve);
    }
  }

  /** Frames change only the alpha channel of the colour. */
  lemma {:induction false} OnlyAlphaChanges(s: FaderState, dts: seq<real>, curve: real -> real)
    requires Consistent(s) && NonNegative(dts)
    ensures Run(s, dts, curve).color.(a := s.color.a) == s.color
    decreases |dts|
  {
    if dts != [] {
      NonNegativeTail(dts);
      OnlyAlphaChanges(Rendered(s, dts[0], curve), dts[1..], curve);
    }
  }

  /**
   * Starting from construction, frames build the shader at most once, and it exists
   * exactly when something has been drawn.
   */
  lemma {:induction false} ShaderBuiltAtMostOnce(s: FaderState, dts: seq<real>, curve: real -> real)
    requires Consistent(s) && NonNegative(dts)
    requires s.shaderBuilds <= 1 && (s.shaderBuilt <==> s.draws > 0)
    ensures var r := Run(s, dts, curve);
      r.shaderBuilds <= 1 && (r.shaderBuilt <==> r.draws > 0)
    decreases |dts|
  {
    if dts != [] {
      NonNegativeTail(dts);
      ShaderBuiltAtMostOnce(Rendered(s, dts[0], curve), dts[1..], curve);
    }
  }

  /** From construction, frames build the shader at most once, and only once something is drawn. */
  lemma ShaderBuiltAtMostOnceFromStart(delay: real, fadeTime: real, initialColor: Color,
                                       dts: seq<real>, curve: real -> real)
    requires NonNegative(dts)
    ensures var r := Run(Initial(delay, fadeTime, initialColor), dts, curve);
      r.shaderBuilds <= 1 && (r.shaderBuilt <==> r.draws > 0)
  {
    ShaderBuiltAtMostOnce(Initial(delay, fadeTime, initialColor), dts, curve);
  }

  /** Disposing a fader that never rendered releases nothing and is safe. */
  lemma DisposeBeforeRender(delay: real, fadeTime: real, initialColor: Color)
    ensures Disposed(Initial(delay, fadeTime, initialColor)) == Initial(delay, fadeTime, initialColor)
  {
  }

  // ---------------------------------------------------------------------------------
  // The object

  /** `FullScreenFader`: the per-frame state machine as a mutable object. */
  class FullScreenFader {
    var delay: real
    var fadeTime: real
    var elapsed: real
    var color: Color
    var shaderBuilt: bool
    ghost var shaderBuilds: nat
    ghost var draws: nat
    ghost var shaderDisposals: nat
    /** The framework's easing curve; nothing about it is assumed. */
    const curve: real -> real

    /** The object's fields as one value. */
    ghost function State(): FaderState
      reads this
    {
      FaderState(delay, fadeTime, elapsed, color, shaderBuilt, shaderBuilds, draws, shaderDisposals)
    }

    ghost predicate Valid()
      reads this
    {
      Consistent(State())
    }

    /** The three-argument constructor: the colour is copied and its alpha forced to 1. */
    constructor WithColor(delay: real, fadeTime: real, initialColor: Color, curve: real -> real)
      ensures Valid() && this.curve == curve
      ensures State() == Initial(delay, fadeTime, initialColor)
    {
      this.delay := delay;
      this.fadeTime := fadeTime;
      this.elapsed := 0.0;
      this.color := initialColor.(a := 1.0);
      this.shaderBuilt := false;
      this.shaderBuilds := 0;
      this.draws := 0;
      this.shaderDisposals := 0;
      this.curve := curve;
    }

    /** The two-argument constructor: the three-argument one with black. */
    constructor (delay: real, fadeTime: real, curve: real -> real)
      ensures Valid() && this.curve == curve
      ensures State() == Initial(delay, fadeTime, Black)
    {
      this.delay := delay;
      this.fadeTime := fadeTime;
      this.elapsed := 0.0;
      this.color := Black.(a := 1.0);
      this.shaderBuilt := false;
      this.shaderBuilds := 0;
      this.draws := 0;
      this.shaderDisposals := 0;
      this.curve := curve;
    }

    /** `createShader()`: builds a (new) shader program. */
    method CreateShader()
      modifies this
      ensures State() == old(State()).(shaderBuilt := true, shaderBuilds := old(shaderBuilds) + 1)
    {
      shaderBuilt := true;
      shaderBuilds := shaderBuilds + 1;
    }

    /** `render(deltaTime)`: one frame. */
    method Render(deltaTime: real)
      requires Valid() && deltaTime >= 0.0
      modifies this
      ensures Valid()
      ensures State() == Rendered(old(State()), deltaTime, curve)
    {
      if elapsed >= fadeTime {
        return;
      }
      if delay > 0.0 {
        delay := delay - deltaTime;
      }
      color := color.(a := FrameAlpha(delay, elapsed, fadeTime, curve));
      if !shaderBuilt {
        CreateShader();
      }
      draws := draws + 1;
      if delay <= 0.0 {
        elapsed := elapsed + deltaTime;
      }
    }

    /** `dispose()`: the shader is released only if it was ever built. */
    method Dispose()
      modifies this
      ensures State() == Disposed(old(State()))
    {
      if shaderBuilt {
        shaderDisposals := shaderDisposals + 1;
      }
    }
  }
}
