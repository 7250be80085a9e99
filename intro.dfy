/**
 The intro phase: a splash screen that plays a list of logos, each one
 fading in, staying on screen and fading out, and that asks to move to the
 menu once the list is exhausted.

 Time is an integer number of nanoseconds supplied by the caller (`now`)
 instead of the wall clock; the opacity `alpha` is an exact real.
 */
module Intro {
  import Phases

  const Second: int := 1_000_000_000
  const FadeInDuration: int := 2 * Second
  const FadeOutDuration: int := FadeInDuration
  const DisplayTime: int := 2 * Second

  datatype AnimationState = FadeInLogo | ShowLogo | FadeOutLogo

  /** The drawable parts of a logo (image and font) are not modelled; its
      caption and tint are. */
  datatype Color = RGBA(r: int, g: int, b: int, a: int)
  datatype Logo = Logo(name: string, color: Color)

  const EbitengineLogo: Logo := Logo("Ebitengine\U{2122}", RGBA(213, 65, 37, 255))
  const GmfLogo: Logo := Logo("Gabriel Moraga Figueroa", RGBA(21, 43, 56, 255))

  /** The value of every field of an intro phase at one instant. */
  datatype IntroState = IntroState(
    logos: seq<Logo>,
    logoIndex: int,
    stateStartTime: int,
    state: AnimationState,
    alpha: real,
    changePhase: bool,
    nextPhase: Phases.Index)

  /** The invariant every intro built by the constructor keeps: the index is
      not negative, a change is pending exactly when the logo list is
      exhausted, a pending change targets the menu, and a logo on show is
      fully opaque. */
  predicate Consistent(s: IntroState)
  {
    && s.logoIndex >= 0
    && (s.changePhase <==> s.logoIndex >= |s.logos|)
    && (s.changePhase ==> s.nextPhase == Phases.Menu)
    && (s.state == ShowLogo ==> s.alpha == 1.0)
  }

  /** A fresh intro: two logos, the first one about to fade in, fully opaque,
      no change pending (the next phase is the zero identity). */
  function Initial(now: int): (s: IntroState)
    ensures Consistent(s)
    ensures |s.logos| == 2 && s.logoIndex == 0 && s.stateStartTime == now
  {
    IntroState([EbitengineLogo, GmfLogo], 0, now, FadeInLogo, 1.0, false, Phases.Intro)
  }

  /** One frame of the intro at time `now`: the specification the class's
      Update method is proved against. */
  function Step(s: IntroState, now: int): (r: (IntroState, Phases.Status))
    ensures r.0.logos == s.logos
    ensures s.logoIndex < 0 ==> r == (s, Phases.Failed(Phases.NegativeLogoIndex))
    ensures s.logoIndex >= 0 ==> r.1 == Phases.Ok
    // the index never decreases and grows by at most one, and only on the
    // wrap from fading out back to fading in
    ensures s.logoIndex <= r.0.logoIndex <= s.logoIndex + 1
    ensures r.0.logoIndex == s.logoIndex + 1 <==>
              s.logoIndex >= 0 && s.state == FadeOutLogo && now - s.stateStartTime >= FadeOutDuration
    // a pending change is never withdrawn, and is raised once the list is exhausted
    ensures s.changePhase ==> r.0.changePhase
    ensures r.1 == Phases.Ok && r.0.logoIndex >= |s.logos| ==> r.0.changePhase && r.0.nextPhase == Phases.Menu
    ensures r.0.logoIndex < |s.logos| ==> r.0.changePhase == s.changePhase && r.0.nextPhase == s.nextPhase
    // with a clock that does not run backwards, the fades keep alpha in [0, 1]
    ensures s.logoIndex >= 0 && now >= s.stateStartTime && s.state != ShowLogo ==> 0.0 <= r.0.alpha <= 1.0
    ensures Consistent(s) ==> Consistent(r.0)
  {
    if s.logoIndex < 0 then (s, Phases.Failed(Phases.NegativeLogoIndex))
    else
      var animated := Animate(s, now);
      var flagged :=
        if animated.logoIndex >= |animated.logos|
        then animated.(changePhase := true, nextPhase := Phases.Menu)
        else animated;
      (flagged, Phases.Ok)
  }

  /** The switch on the animation state within one frame. */
  function Animate(s: IntroState, now: int): IntroState
  {
    var elapsed := now - s.stateStartTime;
    match s.state
    case FadeInLogo =>
      var alpha := elapsed as real / FadeInDuration as real;
      if alpha >= 1.0 then s.(alpha := 1.0, state := ShowLogo, stateStartTime := now)
      else s.(alpha := alpha)
    case ShowLogo =>
      if elapsed >= DisplayTime then s.(state := FadeOutLogo, stateStartTime := now)
      else s
    case FadeOutLogo =>
      var alpha := 1.0 - elapsed as real / FadeOutDuration as real;
      if alpha <= 0.0
      then s.(alpha := 0.0, state := FadeInLogo, logoIndex := s.logoIndex + 1, stateStartTime := now)
      else s.(alpha := alpha)
  }

  /** Fading in: alpha is the elapsed fraction of the fade-in time; once the
      whole fade-in time has elapsed alpha is exactly 1, the logo is shown
      and the state's clock restarts. */
  lemma FadeInStep(s: IntroState, now: int)
    requires s.logoIndex >= 0 && s.state == FadeInLogo
    ensures var r := Step(s, now).0; var elapsed := now - s.stateStartTime;
      && r.logoIndex == s.logoIndex
      && (if elapsed >= FadeInDuration
          then r.alpha == 1.0 && r.state == ShowLogo && r.stateStartTime == now
          else r.alpha == elapsed as real / FadeInDuration as real
               && r.state == FadeInLogo && r.stateStartTime == s.stateStartTime)
  {
  }

  /** Showing: alpha and the index are untouched; the fade-out starts (and
      the state's clock restarts) only once the display time has elapsed. */
  lemma ShowStep(s: IntroState, now: int)
    requires s.logoIndex >= 0 && s.state == ShowLogo
    ensures var r := Step(s, now).0;
      && r.alpha == s.alpha && r.logoIndex == s.logoIndex
      && (if now - s.stateStartTime >= DisplayTime
          then r.state == FadeOutLogo && r.stateStartTime == now
          else r.state == ShowLogo && r.stateStartTime == s.stateStartTime)
  {
  }

  /** Fading out: alpha is one minus the elapsed fraction of the fade-out
      time; once the whole fade-out time has elapsed alpha is exactly 0, the
      next logo starts fading in and the index grows by one. */
  lemma FadeOutStep(s: IntroState, now: int)
    requires s.logoIndex >= 0 && s.state == FadeOutLogo
    ensures var r := Step(s, now).0; var elapsed := now - s.stateStartTime;
      if elapsed >= FadeOutDuration
      then r.alpha == 0.0 && r.state == FadeInLogo && r.stateStartTime == now
           && r.logoIndex == s.logoIndex + 1
      else r.alpha == 1.0 - elapsed as real / FadeOutDuration as real
           && r.state == FadeOutLogo && r.stateStartTime == s.stateStartTime
           && r.logoIndex == s.logoIndex
  {
  }

  /** During a fade-in, a later frame never shows a less opaque logo. */
  lemma FadeInMonotone(s: IntroState, t1: int, t2: int)
    requires s.logoIndex >= 0 && s.state == FadeInLogo && t1 <= t2
    ensures Step(s, t1).0.alpha <= Step(s, t2).0.alpha
  {
  }

  /** The state after one frame per entry of `nows`, in order. */
  function Run(s: IntroState, nows: seq<int>): IntroState
    decreases |nows|
  {
    if nows == [] then s else Run(Step(s, nows[0]).0, nows[1..])
  }

  /** Over any run the index never decreases and grows by at most one per
      frame, and the logo list never changes. */
  lemma {:induction false} RunIndexBounds(s: IntroState, nows: seq<int>)
    ensures s.logoIndex <= Run(s, nows).logoIndex <= s.logoIndex + |nows|
    ensures Run(s, nows).logos == s.logos
    decreases |nows|
  {
    if nows != [] {
      RunIndexBounds(Step(s, nows[0]).0, nows[1..]);
    }
  }

  /** Every run keeps the invariant. */
  lemma {:induction false} RunConsistent(s: IntroState, nows: seq<int>)
    requires Consistent(s)
    ensures Consistent(Run(s, nows))
    decreases |nows|
  {
    if nows != [] {
      RunConsistent(Step(s, nows[0]).0, nows[1..]);
    }
  }

  /** Frame times that never go backwards, none of them before `t`. */
  predicate NonDecreasingFrom(t: int, nows: seq<int>)
    decreases |nows|
  {
    nows == [] || (t <= nows[0] && NonDecreasingFrom(nows[0], nows[1..]))
  }

  /** With a clock that never runs backwards, alpha stays within [0, 1] over
      every run: the fades compute it from a non-negative elapsed time and
      the show state leaves it alone. */
  lemma {:induction false} RunAlphaInRange(s: IntroState, t: int, nows: seq<int>)
    requires Consistent(s) && s.stateStartTime <= t && 0.0 <= s.alpha <= 1.0
    requires NonDecreasingFrom(t, nows)
    ensures 0.0 <= Run(s, nows).alpha <= 1.0
    decreases |nows|
  {
    if nows != [] {
      var now := nows[0];
      var next := Step(s, now).0;
      if s.state == ShowLogo {
        ShowStep(s, now);
      }
      assert next.stateStartTime == s.stateStartTime || next.stateStartTime == now;
      RunAlphaInRange(next, now, nows[1..]);
    }
  }

  /** An intro built by the constructor keeps alpha within [0, 1] on every
      run whose frame times never go backwards. */
  lemma InitialAlphaInRange(start: int, nows: seq<int>)
    requires NonDecreasingFrom(start, nows)
    ensures 0.0 <= Run(Initial(start), nows).alpha <= 1.0
  {
    RunAlphaInRange(Initial(start), start, nows);
  }

  /** A clock that runs backwards breaks the range: a frame one nanosecond
      before creation gives a negative alpha. */
  lemma BackwardsClockLeavesRange()
    ensures Step(Initial(0), -1).0.alpha < 0.0
  {
  }

  /** A pending change to the menu stays pending, with the same target, on
      every later frame. */
  lemma {:induction false} RunKeepsPending(s: IntroState, nows: seq<int>)
    requires s.changePhase && s.nextPhase == Phases.Menu
    ensures Run(s, nows).changePhase && Run(s, nows).nextPhase == Phases.Menu
    decreases |nows|
  {
    if nows != [] {
      var t := Step(s, nows[0]).0;
      assert t.logoIndex >= |t.logos| ==> t.nextPhase == Phases.Menu;
      RunKeepsPending(t, nows[1..]);
    }
  }

  /** Once a successful frame leaves the index at or past the end of the
      list, the intro reports a change to the menu after every later frame. */
  lemma PendingOnceExhausted(s: IntroState, now: int, later: seq<int>)
    requires Step(s, now).1 == Phases.Ok && Step(s, now).0.logoIndex >= |s.logos|
    ensures Run(Step(s, now).0, later).changePhase
    ensures Run(Step(s, now).0, later).nextPhase == Phases.Menu
  {
    RunKeepsPending(Step(s, now).0, later);
  }

  /** An intro built by the constructor never reports the negative-index
      error, whatever the frame times. */
  lemma NeverFailsFromInitial(start: int, nows: seq<int>, now: int)
    ensures Step(Run(Initial(start), nows), now).1 == Phases.Ok
  {
    RunConsistent(Initial(start), nows);
  }

  /** Running one more frame after a run is one more Step. */
  lemma {:induction false} RunSnoc(s: IntroState, nows: seq<int>, now: int)
    ensures Run(s, nows + [now]) == Step(Run(s, nows), now).0
    decreases |nows|
  {
    if nows == [] {
      assert [] + [now] == [now];
    } else {
      assert (nows + [now])[1..] == nows[1..] + [now];
      RunSnoc(Step(s, nows[0]).0, nows[1..], now);
    }
  }

  /** The frame times 2, 4, ..., 2n seconds after `start`. */
  function Frames(start: int, n: nat): (r: seq<int>)
    ensures |r| == n
    ensures forall k :: 0 <= k < n ==> r[k] == start + 2 * (k + 1) * Second
  {
    if n == 0 then [] else Frames(start, n - 1) + [start + 2 * n * Second]
  }

  /** Driven with a frame every two seconds from its creation, an intro
      spends exactly one frame in each animation state: after n frames the
      index is n / 3, and the change to the menu is pending exactly from the
      sixth frame on (two logos, three frames each). */
  lemma {:induction false} EveryTwoSeconds(start: int, n: nat)
    ensures var s := Run(Initial(start), Frames(start, n));
      && s.logos == Initial(start).logos
      && s.logoIndex == n / 3
      && s.stateStartTime == start + 2 * n * Second
      && s.state == (if n % 3 == 0 then FadeInLogo else if n % 3 == 1 then ShowLogo else FadeOutLogo)
      && (s.changePhase <==> n >= 6)
      && (s.changePhase ==> s.nextPhase == Phases.Menu)
  {
    if n > 0 {
      EveryTwoSeconds(start, n - 1);
      RunSnoc(Initial(start), Frames(start, n - 1), start + 2 * n * Second);
    }
  }

  /** With frames every two seconds, the change to the menu is not raised by
      the tenth second and is raised at the twelfth, with both logos done. */
  lemma TwoLogosFinishAfterTwelveSeconds(start: int)
    ensures !Run(Initial(start), Frames(start, 5)).changePhase
    ensures var s := Run(Initial(start), Frames(start, 6));
      s.changePhase && s.nextPhase == Phases.Menu && s.logoIndex == 2
  {
    EveryTwoSeconds(start, 5);
    EveryTwoSeconds(start, 6);
  }

  /** Nothing stops the animation at the end of the list: three frames after
      the change is raised, the index passes the number of logos. */
  lemma IndexPassesLogoCount(start: int)
    ensures Run(Initial(start), Frames(start, 9)).logoIndex == 3 > |Initial(start).logos|
  {
    EveryTwoSeconds(start, 9);
  }

  /** An intro phase: its fields change in place on every frame. */
  class Intro {
    const logos: seq<Logo>
    var logoIndex: int
    var stateStartTime: int
    var state: AnimationState
    var alpha: real
    var changePhase: bool
    var nextPhase: Phases.Index

    /** The current value of every field. */
    function State(): IntroState
      reads this
    {
      IntroState(logos, logoIndex, stateStartTime, state, alpha, changePhase, nextPhase)
    }

    ghost predicate Valid()
      reads this
    {
      Consistent(State())
    }

    constructor (now: int)
      ensures State() == Initial(now)
      ensures |logos| == 2 && logoIndex == 0 && state == FadeInLogo && alpha == 1.0
      ensures !changePhase && stateStartTime == now
      ensures Valid()
    {
      logos := [EbitengineLogo, GmfLogo];
      logoIndex := 0;
      stateStartTime := now;
      state := FadeInLogo;
      alpha := 1.0;
      changePhase := false;
      nextPhase := Phases.Intro;
    }

    function Identify(): (r: Phases.Index)
      ensures r == Phases.Intro
    {
      Phases.Intro
    }

    /** Advances the intro by one frame at time `now`. */
    method Update(now: int) returns (err: Phases.Status)
      modifies this
      ensures (State(), err) == Step(old(State()), now)
      ensures old(Valid()) ==> Valid()
    {
      if logoIndex < 0 {
        return Phases.Failed(Phases.NegativeLogoIndex);
      }
      var elapsed := now - stateStartTime;
      match state {
        case FadeInLogo =>
          alpha := elapsed as real / FadeInDuration as real;
          if alpha >= 1.0 {
            alpha := 1.0;
            state := ShowLogo;
            stateStartTime := now;
          }
        case ShowLogo =>
          if elapsed >= DisplayTime {
            state := FadeOutLogo;
            stateStartTime := now;
          }
        case FadeOutLogo =>
          alpha := 1.0 - elapsed as real / FadeOutDuration as real;
          if alpha <= 0.0 {
            alpha := 0.0;
            state := FadeInLogo;
            logoIndex := logoIndex + 1;
            stateStartTime := now;
          }
      }
      if logoIndex >= |logos| {
        changePhase := true;
        nextPhase := Phases.Menu;
      }
      err := Phases.Ok;
    }

    /** The intro renders at whatever size it is offered. */
    function Layout(width: int, height: int): (r: (int, int))
      ensures r == (width, height)
    {
      (width, height)
    }

    /** The pending change: on an intro that keeps the invariant, a change is
        pending exactly when the logo list is exhausted, and it targets the menu. */
    function ChangePhase(): (r: (bool, Phases.Index))
      reads this
      ensures Valid() ==> (r.0 <==> logoIndex >= |logos|)
      ensures Valid() && r.0 ==> r.1 == Phases.Menu
    {
      (changePhase, nextPhase)
    }
  }
}
