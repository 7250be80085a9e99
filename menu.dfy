/**
 The menu phase: clickable buttons, each bound to an action. On every frame
 each button recomputes whether the cursor is over it, and a hovered button
 runs its action when the mouse button is pressed.

 The cursor position and the mouse-button state are parameters of Update
 instead of queries to the engine.
 */
module Menu {
  import Phases

  /** The actions the menu's buttons are bound to. */
  datatype Action = StartGame | Quit

  /** Runs a button's action: starting the game reports no error, quitting
      reports the engine's termination signal. */
  function Invoke(a: Action): (r: Phases.Status)
    ensures r.Failed? <==> a == Quit
    ensures r.Failed? ==> r.error == Phases.Termination
  {
    match a
    case StartGame => Phases.Ok
    case Quit => Phases.Failed(Phases.Termination)
  }

  /** A rectangular button. Only the hover flag changes after construction. */
  class Button {
    const x: int
    const y: int
    const width: int
    const height: int
    const caption: string
    const onClick: Action
    var hovered: bool

    constructor (x: int, y: int, width: int, height: int, caption: string, onClick: Action)
      ensures this.x == x && this.y == y && this.width == width && this.height == height
      ensures this.caption == caption && this.onClick == onClick && !hovered
    {
      this.x, this.y, this.width, this.height := x, y, width, height;
      this.caption, this.onClick := caption, onClick;
      hovered := false;
    }

    /** The hit test: both edges of the rectangle count as inside. */
    predicate Contains(mx: int, my: int)
    {
      mx >= x && mx <= x + width && my >= y && my <= y + height
    }

    /** Recomputes the hover flag from the cursor and, when the button is
        hovered and the mouse button is pressed, runs the action and reports
        what it reports. */
    method Update(mx: int, my: int, clicked: bool) returns (err: Phases.Status)
      modifies this
      ensures hovered == Contains(mx, my)
      ensures err == if hovered && clicked then Invoke(onClick) else Phases.Ok
      ensures !clicked ==> err == Phases.Ok
    {
      hovered := Contains(mx, my);
      if hovered && clicked {
        return Invoke(onClick);
      }
      return Phases.Ok;
    }
  }

  /** Does button `b` report an error on a frame with this cursor and mouse state? */
  predicate Fails(b: Button, mx: int, my: int, clicked: bool)
  {
    b.Contains(mx, my) && clicked && Invoke(b.onClick).Failed?
  }

  /** The position of the first button, in declaration order, whose action
      reports an error on this frame; |bs| when none does. */
  function FirstFailing(bs: seq<Button>, mx: int, my: int, clicked: bool): (k: nat)
    ensures k <= |bs|
    ensures forall j :: 0 <= j < k ==> !Fails(bs[j], mx, my, clicked)
    ensures k < |bs| ==> Fails(bs[k], mx, my, clicked)
  {
    if bs == [] then 0
    else if Fails(bs[0], mx, my, clicked) then 0
    else 1 + FirstFailing(bs[1..], mx, my, clicked)
  }

  /** With the mouse button released no action runs, so no button fails. */
  lemma ReleasedNeverFails(bs: seq<Button>, mx: int, my: int)
    ensures FirstFailing(bs, mx, my, false) == |bs|
  {
  }

  /** The menu phase. */
  class Menu {
    const buttons: seq<Button>
    var changePhase: bool
    var nextPhase: Phases.Index

    /** The buttons are distinct objects (each is its own value in the
        game), and the menu never asks for a phase change: both flags keep
        their zero values. */
    ghost predicate Valid()
      reads this
    {
      && (forall i, j :: 0 <= i < j < |buttons| ==> buttons[i] != buttons[j])
      && !changePhase && nextPhase == Phases.Intro
    }

    /** The two buttons the menu is built with, in this order. */
    predicate HasInitialButtons()
    {
      && |buttons| == 2
      && buttons[0].x == 100 && buttons[0].y == 100
      && buttons[0].width == 150 && buttons[0].height == 50
      && buttons[0].caption == "Start Game" && buttons[0].onClick == StartGame
      && buttons[1].x == 100 && buttons[1].y == 200
      && buttons[1].width == 150 && buttons[1].height == 50
      && buttons[1].caption == "Quit" && buttons[1].onClick == Quit
    }

    constructor ()
      ensures Valid() && HasInitialButtons()
      ensures fresh(buttons[0]) && fresh(buttons[1])
      ensures !buttons[0].hovered && !buttons[1].hovered
    {
      var start := new Button(100, 100, 150, 50, "Start Game", StartGame);
      var quit := new Button(100, 200, 150, 50, "Quit", Quit);
      buttons := [start, quit];
      changePhase := false;
      nextPhase := Phases.Intro;
    }

    function Identify(): (r: Phases.Index)
      ensures r == Phases.Menu
    {
      Phases.Menu
    }

    /** What one Update with this cursor and mouse state does: the buttons up
        to and including the first failing one have their hover flag
        recomputed, the later ones keep theirs, the error of the failing
        button (if any) is reported, and the phase-change flags stay. */
    twostate predicate UpdatedBy(mx: int, my: int, clicked: bool, err: Phases.Status)
      reads this, buttons
    {
      var k := FirstFailing(buttons, mx, my, clicked);
      && err == (if k < |buttons| then Invoke(buttons[k].onClick) else Phases.Ok)
      && (forall j :: 0 <= j < |buttons| ==>
            buttons[j].hovered == if j <= k then buttons[j].Contains(mx, my) else old(buttons[j].hovered))
      && changePhase == old(changePhase) && nextPhase == old(nextPhase)
    }

    /** Updates every button in declaration order and stops at the first
        one that reports an error. */
    method Update(mx: int, my: int, clicked: bool) returns (err: Phases.Status)
      requires Valid()
      modifies buttons
      ensures UpdatedBy(mx, my, clicked, err)
      ensures Valid()
    {
      var i := 0;
      while i < |buttons|
        invariant 0 <= i <= |buttons|
        invariant i <= FirstFailing(buttons, mx, my, clicked)
        invariant forall j :: 0 <= j < i ==> buttons[j].hovered == buttons[j].Contains(mx, my)
        invariant forall j :: i <= j < |buttons| ==> buttons[j].hovered == old(buttons[j].hovered)
      {
        err := buttons[i].Update(mx, my, clicked);
        if err.Failed? {
          return;
        }
        i := i + 1;
      }
      err := Phases.Ok;
    }

    /** The menu renders at whatever size it is offered. */
    function Layout(outsideWidth: int, outsideHeight: int): (r: (int, int))
      ensures r == (outsideWidth, outsideHeight)
    {
      (outsideWidth, outsideHeight)
    }

    /** A menu that keeps its invariant never reports a pending change. */
    function ChangePhase(): (r: (bool, Phases.Index))
      reads this
      ensures Valid() ==> !r.0
    {
      (changePhase, nextPhase)
    }
  }

  /** The hit test's edges: for a button at (100, 100) of size 150 x 50 the
      corners (100, 100) and (250, 150) are inside, (99, 100) and (251, 100)
      are not. */
  lemma InclusiveBounds(b: Button)
    requires b.x == 100 && b.y == 100 && b.width == 150 && b.height == 50
    ensures b.Contains(100, 100) && b.Contains(250, 150)
    ensures !b.Contains(99, 100) && !b.Contains(251, 100)
  {
  }

  /** The two initial buttons do not overlap: no cursor position hovers
      both, so at most one action runs per frame. */
  lemma InitialButtonsDisjoint(m: Menu, mx: int, my: int)
    requires m.HasInitialButtons()
    ensures !(m.buttons[0].Contains(mx, my) && m.buttons[1].Contains(mx, my))
  {
  }

  /** Pressing the mouse button over Quit makes the frame report the
      termination signal, from the second button. */
  lemma QuitClickTerminates(m: Menu, mx: int, my: int)
    requires m.HasInitialButtons() && m.buttons[1].Contains(mx, my)
    ensures FirstFailing(m.buttons, mx, my, true) == 1
    ensures Invoke(m.buttons[1].onClick) == Phases.Failed(Phases.Termination)
  {
    var bs := m.buttons;
    assert !Fails(bs[0], mx, my, true);
    assert bs[1..][0] == bs[1];
  }

  /** Away from Quit (over Start Game, say) no button fails, so the frame
      is error-free whatever the mouse state, and every hover flag is
      recomputed. */
  lemma OnlyQuitFails(m: Menu, mx: int, my: int, clicked: bool)
    requires m.HasInitialButtons() && !m.buttons[1].Contains(mx, my)
    ensures FirstFailing(m.buttons, mx, my, clicked) == 2
  {
    var bs := m.buttons;
    assert !Fails(bs[0], mx, my, clicked);
    assert bs[1..][0] == bs[1];
    assert bs[1..][1..] == [];
  }
}
