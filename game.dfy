/**
 The orchestrator: owns the one active phase and the fixed logical screen
 size, forwards every frame's Update and every Layout to the active phase,
 and lets a caller replace the active phase.
 */
module Game {
  import Phases
  import Intro
  import Menu

  /** The logical resolution the game renders at. */
  datatype Settings = Settings(width: int, height: int)

  /** The active phase: one of the closed set of phase kinds the engine's
      interface is implemented by. */
  datatype Phase = IntroPhase(intro: Intro.Intro) | MenuPhase(menu: Menu.Menu)

  /** What the host supplies for one frame: the time in nanoseconds, the
      cursor position and whether the left mouse button is pressed. */
  datatype Input = Input(now: int, cursorX: int, cursorY: int, pressed: bool)

  /** The objects one Update of phase `p` may change. */
  function PhaseFootprint(p: Phase): set<object>
  {
    match p
    case IntroPhase(i) => {i}
    case MenuPhase(m) => set b: object | b in m.buttons
  }

  /** What a phase needs before it can be updated. */
  ghost predicate PhaseValid(p: Phase)
    reads if p.MenuPhase? then {p.menu} else {}
  {
    p.MenuPhase? ==> p.menu.Valid()
  }

  class Game {
    var currentPhase: Phase
    const settings: Settings

    ghost predicate Valid()
      reads this, if currentPhase.MenuPhase? then {currentPhase.menu} else {}
    {
      PhaseValid(currentPhase)
    }

    /** A new game starts in a fresh intro, created at time `now`, with a
        1280 x 960 logical screen. */
    constructor (now: int)
      ensures currentPhase.IntroPhase? && fresh(currentPhase.intro)
      ensures currentPhase.intro.State() == Intro.Initial(now)
      ensures settings == Settings(1280, 960)
      ensures Valid()
    {
      var intro := new Intro.Intro(now);
      currentPhase := IntroPhase(intro);
      settings := Settings(1280, 960);
    }

    /** One frame: the active phase's Update, whose status is reported
        unchanged; the game's own fields stay as they are. */
    method Update(input: Input) returns (err: Phases.Status)
      requires Valid()
      modifies PhaseFootprint(currentPhase)
      ensures currentPhase == old(currentPhase) && Valid()
      ensures match currentPhase
        case IntroPhase(i) => (i.State(), err) == Intro.Step(old(i.State()), input.now)
        case MenuPhase(m) => m.UpdatedBy(input.cursorX, input.cursorY, input.pressed, err)
    {
      match currentPhase {
        case IntroPhase(i) =>
          err := i.Update(input.now);
        case MenuPhase(m) =>
          err := m.Update(input.cursorX, input.cursorY, input.pressed);
      }
    }

    /** The size the active phase chooses when offered the configured
        logical size; the host's outside size is ignored. Both phases accept
        the size they are offered, so this is always the configured size. */
    function Layout(outsideWidth: int, outsideHeight: int): (r: (int, int))
      reads this
      ensures r == (settings.width, settings.height)
    {
      match currentPhase
      case IntroPhase(i) => i.Layout(settings.width, settings.height)
      case MenuPhase(m) => m.Layout(settings.width, settings.height)
    }

    /** Replaces the active phase, with no check of any kind; the settings
        cannot change. */
    method SetPhase(phase: Phase)
      modifies this
      ensures currentPhase == phase
    {
      currentPhase := phase;
    }
  }

  /** A game made by the constructor lays out at 1280 x 960 whatever the
      host's window size. */
  lemma NewGameLayout(g: Game, outsideWidth: int, outsideHeight: int)
    requires g.settings == Settings(1280, 960)
    ensures g.Layout(outsideWidth, outsideHeight) == (1280, 960)
  {
  }

  /** A menu made active in a new game reports the termination signal on
      the very frame the mouse is pressed over Quit. */
  method QuitFromMenu(now: int) returns (err: Phases.Status)
    ensures err == Phases.Failed(Phases.Termination)
  {
    var g := new Game(now);
    var m := new Menu.Menu();
    g.SetPhase(MenuPhase(m));
    Menu.QuitClickTerminates(m, 120, 220);
    err := g.Update(Input(now, 120, 220, true));
  }

  /** A new game created at time 0 and driven with a frame every two
      seconds: after the frame at twelve seconds its intro asks to move to
      the menu. */
  method IntroFinishesAfterTwelveSeconds() returns (pending: bool, next: Phases.Index)
    ensures pending && next == Phases.Menu
  {
    var g := new Game(0);
    var intro := g.currentPhase.intro;
    var n := 0;
    while n < 6
      invariant 0 <= n <= 6
      invariant g.currentPhase == IntroPhase(intro) && g.Valid()
      invariant intro.State() == Intro.Run(Intro.Initial(0), Intro.Frames(0, n))
    {
      var err := g.Update(Input(2 * (n + 1) * Intro.Second, 0, 0, false));
      Intro.RunSnoc(Intro.Initial(0), Intro.Frames(0, n), 2 * (n + 1) * Intro.Second);
      n := n + 1;
    }
    Intro.TwoLogosFinishAfterTwelveSeconds(0);
    var change := intro.ChangePhase();
    pending, next := change.0, change.1;
  }
}
