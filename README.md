# Pong phase layer, modelled in Dafny

This project models the phase layer of a Pong game written in Go on the
Ebitengine engine. The phase layer decides which screen is active and advances
it one frame at a time. It has four parts:

- `Phases` (phases.dfy): the three phase identities (`Intro` = 0, `Menu` = 1,
  `Game` = 2, numbered in declaration order), the static table of permitted
  phase changes, and `ChangePermitted`. The lookup in the map and the search
  through the list are both pure functions. An identity is a plain `int`, as
  in the game, so values outside the table can be asked about. This module
  also defines the status a per-frame `Update` reports: `Ok` is Go's nil
  error, and `Failed` carries either the intro's negative-index error or the
  engine's termination signal.
- `Intro` (intro.dfy): the intro splash screen. It is the class `Intro.Intro`
  with the game's fields (`logos`, `logoIndex`, `stateStartTime`, `state`,
  `alpha`, `changePhase`, `nextPhase`). Its `Update` method changes them in
  place, and it is proved against the pure one-frame function `Intro.Step`.
  `Intro.Run` applies `Step` once per frame time. The lemmas about runs cover
  these properties:
  - the logo index is monotone;
  - the state invariant `Consistent` is preserved;
  - a pending change to the menu is never withdrawn;
  - two logos finish after twelve seconds of frames.
- `Menu` (menu.dfy): the class `Menu.Button`. Its bounds, caption (Go's `Label`; `label` is a Dafny keyword) and action
  are constants; its hover flag is a variable. The class `Menu.Menu` holds
  the two buttons. `Menu.Update` walks the buttons in declaration order and
  stops at the first error. The model gives two results for a frame:
  - the function `FirstFailing`: the position of the first button whose
    action fails;
  - the two-state predicate `UpdatedBy`: the hover flags afterwards, and the
    status reported.
- `Game` (game.dfy): the orchestrator, the class `Game.Game`. It owns one
  active phase and the fixed 1280 x 960 settings. It forwards `Update` and
  `Layout` to the phase and replaces the phase with `SetPhase`, with no check.
  Two client methods drive the scenarios end to end:
  - quitting from the menu;
  - the intro finishing after twelve seconds.

Time is an integer count of nanoseconds, and the caller passes the current
time `now` to `Update`. The durations are the game's own (2 s fade-in, 2 s
display, 2 s fade-out). `alpha` is an exact real, so "alpha >= 1" is exactly
"elapsed >= fade-in time". The cursor position and mouse-button state are
also parameters of the menu's `Update`.

Three behaviours of the code, which the model keeps:

- `Game` never consults `ChangePhase` or `ChangePermitted`. Its `Phase`
  interface (game/game.go:20-24) has neither method, and `SetPhase` swaps
  with no check.
- Nothing stops the intro at the end of its list. The animation keeps
  cycling, and three more frames take the index to 3
  (`Intro.IndexPassesLogoCount`).
- `ShowLogo` leaves `alpha` untouched. It is 1 on entry, which
  `Intro.Consistent` records.

## Model

| member | source | states |
|---|---|---|
| `Phases.Member` | game/phases/phases.go:32-37 | the search through a permissions list is true exactly when `to` occurs in the list |
| `Phases.ChangePermitted` | game/phases/phases.go:27-38 | true exactly when `from` has a table entry and `to` is in that entry; a `from` missing from the table gives false |
| `Phases.ChangePermittedIsEdgeSet` | game/phases/phases.go:21-25 | the permitted changes are exactly the three edges Intro->Menu, Menu->Game, Game->Menu |
| `Phases.UnknownSourceRefused` | game/phases/phases.go:28-31 | any `from` other than the three identities is refused whatever `to` is |
| `Phases.NoSelfChangeNoReturnToIntro` | game/phases/phases.go:21-25 | no phase may change to itself, and none may change to the intro |
| `Intro.Initial` | game/phases/intro/intro.go:54-69 | a fresh intro has two logos, index 0, its clock started now, and satisfies the invariant |
| `Intro.Step` | game/phases/intro/intro.go:123-162 | a negative index reports an error and changes nothing; otherwise the frame reports no error, the index grows by at most one and only on the fade-out wrap, a pending change is never withdrawn and is raised (to the menu) once the list is exhausted, alpha stays in [0,1] during fades if the clock does not run backwards, and the invariant is preserved |
| `Intro.FadeInStep` | game/phases/intro/intro.go:131-138 | fading in, alpha is elapsed / fade-in time; once that time has elapsed alpha is exactly 1, the state becomes ShowLogo and its clock restarts |
| `Intro.ShowStep` | game/phases/intro/intro.go:140-144 | on show, alpha and the index are untouched, and the fade-out starts only once the display time has elapsed |
| `Intro.FadeOutStep` | game/phases/intro/intro.go:146-153 | fading out, alpha is 1 - elapsed / fade-out time; once that time has elapsed alpha is exactly 0, the state becomes FadeInLogo and the index grows by exactly one |
| `Intro.FadeInMonotone` | game/phases/intro/intro.go:132-137 | during a fade-in a later frame never gives a smaller alpha |
| `Intro.RunIndexBounds` | game/phases/intro/intro.go:151 | over any run the index never decreases and grows by at most one per frame; the logo list never changes |
| `Intro.RunConsistent` | game/phases/intro/intro.go:123-162 | every run keeps the invariant: the index is not negative, a change is pending exactly when the list is exhausted, it targets the menu, and a shown logo is fully opaque |
| `Intro.RunAlphaInRange` | game/phases/intro/intro.go:130-154 | from a consistent state with alpha in [0, 1], alpha stays in [0, 1] over every run whose frame times never go backwards |
| `Intro.InitialAlphaInRange` | game/phases/intro/intro.go:54-62 | an intro built by the constructor keeps alpha in [0, 1] over every run whose frame times never go backwards |
| `Intro.BackwardsClockLeavesRange` | game/phases/intro/intro.go:132 | a frame before the state's start time gives a negative alpha, so the clock condition is needed |
| `Intro.RunKeepsPending` | game/phases/intro/intro.go:156-159 | once a change to the menu is pending it stays pending, to the menu, after every later frame |
| `Intro.PendingOnceExhausted` | game/phases/intro/intro.go:156-159 | after a successful frame that leaves the index at or past the end of the list, the intro reports a change to the menu after every later frame |
| `Intro.NeverFailsFromInitial` | game/phases/intro/intro.go:124-126 | an intro built by the constructor never reports the negative-index error |
| `Intro.EveryTwoSeconds` | game/phases/intro/intro.go:130-159 | with a frame every two seconds from creation, each frame moves to the next animation state: after n frames the index is n / 3, and the change to the menu is pending exactly from the sixth frame on |
| `Intro.TwoLogosFinishAfterTwelveSeconds` | game/phases/intro/intro.go:123-162 | with a frame every two seconds from creation, the change to the menu is not raised after ten seconds and is raised at twelve, with both logos done |
| `Intro.IndexPassesLogoCount` | game/phases/intro/intro.go:146-159 | with a frame every two seconds, three frames after the change is raised the index reaches 3 with two logos |
| `Intro.Intro.constructor` | game/phases/intro/intro.go:54-62 | a new intro has two logos, index 0, state FadeInLogo, alpha 1, its clock at now, and no change pending |
| `Intro.Intro.Identify` | game/phases/intro/intro.go:119-121 | the intro identifies as `Phases.Intro` |
| `Intro.Intro.Update` | game/phases/intro/intro.go:123-162 | the fields after the frame, and the status, are those Step gives for the fields before; the invariant is preserved |
| `Intro.Intro.Layout` | game/phases/intro/intro.go:202-204 | the intro accepts the size it is offered |
| `Intro.Intro.ChangePhase` | game/phases/intro/intro.go:206-208 | on an intro that keeps the invariant, a change is reported exactly when the list is exhausted, and it targets the menu |
| `Menu.Invoke` | game/phases/menu/menu.go:25-39 | an action reports an error exactly when it is Quit, and that error is the termination signal |
| `Menu.Button.constructor` | game/phases/menu/button.go:10-18 | a new button has the given bounds, caption and action, and is not hovered |
| `Menu.Button.Update` | game/phases/menu/button.go:24-30 | the hover flag becomes the inclusive hit test of the cursor; the action runs, and its status is returned, exactly when hovered and pressed; otherwise no error; `Contains` reads only constant fields, so nothing else changes |
| `Menu.FirstFailing` | game/phases/menu/menu.go:53-57 | the position of the first button, in order, whose action fails on this frame, or the count when none does |
| `Menu.ReleasedNeverFails` | game/phases/menu/button.go:26 | with the mouse button released no button fails |
| `Menu.Menu.constructor` | game/phases/menu/menu.go:16-43 | a new menu has "Start Game" at (100,100,150,50) then "Quit" at (100,200,150,50), fresh, not hovered, and no change pending |
| `Menu.Menu.Identify` | game/phases/menu/menu.go:45-47 | the menu identifies as `Phases.Menu` |
| `Menu.Menu.Update` | game/phases/menu/menu.go:49-60 | let k be the first failing button: every button up to k has its hover flag recomputed, later ones keep theirs, k's error (if any) is returned, otherwise no error; the phase-change flags are untouched |
| `Menu.Menu.Layout` | game/phases/menu/menu.go:68-70 | the menu accepts the size it is offered |
| `Menu.Menu.ChangePhase` | game/phases/menu/menu.go:72-74 | a menu that keeps its invariant never reports a pending change |
| `Menu.InclusiveBounds` | game/phases/menu/button.go:20-22 | for bounds (100,100,150,50), (100,100) and (250,150) hit, (99,100) and (251,100) do not |
| `Menu.InitialButtonsDisjoint` | game/phases/menu/menu.go:19-40 | no cursor position hovers both initial buttons, so at most one action runs per frame |
| `Menu.QuitClickTerminates` | game/phases/menu/menu.go:36-39 | pressing over Quit makes Quit the first failing button, with the termination signal |
| `Menu.OnlyQuitFails` | game/phases/menu/menu.go:25-28 | anywhere off Quit (over Start Game included) no button fails, whatever the mouse state |
| `Game.Game.constructor` | game/game.go:26-35 | a new game's phase is a fresh intro in its initial state, and its settings are 1280 x 960 |
| `Game.Game.Update` | game/game.go:37-39 | the active phase is unchanged, and the frame is exactly that phase's Update, with the status it reports |
| `Game.Game.Layout` | game/game.go:45-47 | the layout is the configured size whatever the host's size, since both phases accept what they are offered |
| `Game.Game.SetPhase` | game/game.go:49-51 | the active phase becomes the given one, unchecked; the settings are constant |
| `Game.NewGameLayout` | game/game.go:45-47 | a game with the constructor's settings lays out at 1280 x 960 |
| `Game.QuitFromMenu` | game/game.go:37-39 | a new game switched to a fresh menu reports the termination signal on the frame the mouse is pressed over Quit |
| `Game.IntroFinishesAfterTwelveSeconds` | game/game.go:37-39 | a new game driven with a frame every two seconds has its intro reporting a change to the menu after twelve seconds |

## Left out

- All `Draw` methods: they render through the engine. This includes `Button.Draw`, which reads fields the struct does not have, and `Intro.Draw`, which indexes the logo list even after the list is exhausted.
- `main.go`: the window size, the title and the engine's run loop.
- Asset loading (`initLogos`, `newEbitengineLogo`, `newGmfLogo`): embedded files, image and font decoding, and fatal logging. A logo keeps only its caption and tint.
- The wall clock: `time.Now` and `time.Since` become the `now` parameter. One `now` serves a frame both for the elapsed time and for restarting the state's clock.
- float32 rounding of `alpha`: the arithmetic is exact.
- Input polling: the cursor and mouse button become parameters, carried to `Game.Game.Update` in a `Game.Input` value along with the frame's time.
- The `println` calls in the click handlers.
- The menu reference passed to actions: both actions ignore it.
- The unused `coordinates`/`dimensions` function fields and the `Ratio` constant.
- The error's message text: the negative-index error is a datatype value.
- Animation-state values other than the three named ones: Go's integer type allows them, but nothing assigns them.
- A validated phase swap, or a fatal stop on an illegal change: the code has neither.
- Go's `Phase` interface: the model uses a closed datatype over the two phase classes.
- `Intro.Run`: it applies `Step` on every frame and ignores the status. The engine stops the game on the first error, but from the constructor's state no error occurs (`Intro.NeverFailsFromInitial`).
- Menu.Menu.Update: requires `Valid()`: the buttons are distinct objects, because in Go each button is its own value in a slice; and the phase-change flags keep their zero values (`!changePhase`, `nextPhase == Phases.Intro`), because Go never writes them. Every menu built by the constructor meets this requirement. `Game.Game.Update` requires it of the active phase, through `Game.PhaseValid`.
