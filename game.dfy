/**
  The state of one game session as the game loop keeps it: local variables
  updated step by step and a body list changed in place by pushing a head
  at the front and popping the tail. Every method is proved to perform
  exactly the update the corresponding function of `Rules` describes, and
  to keep `Rules.Valid`.
*/
module Game {
  import opened Wrappers
  import opened Grid
  import opened Keys
  import Rules
  import Properties

  class Session {
    const w: int
    const h: int
    var snake: seq<Cell>
    var dir: Heading
    var food: Cell
    var score: nat
    var lastMove: int
    var mercyStart: Option<int>
    var inputAllowed: bool
    var status: Rules.Status

    /** The session's variables as one value. */
    function State(): (r: Rules.World)
      reads this
    {
      Rules.World(w, h, snake, dir, food, score, lastMove, mercyStart, inputAllowed, status)
    }

    ghost predicate Valid()
      reads this
    {
      Rules.Valid(State())
    }

    /**
      A new session on resolution `res`: one cell in the middle of the
      window, heading up, score 0, food at the drawn cell, the tick gate
      started at `now`, no mercy window and input open.
    */
    constructor (res: int, now: int, pick: (int, int))
      requires 0 <= res < |Resolutions|
      requires PickInRange(pick, Resolutions[res].0, Resolutions[res].1)
      ensures Valid()
      ensures State() == Rules.Start(res, now, pick)
    {
      var (width, height) := Resolutions[res];
      w, h := width, height;
      snake := [StartCell(width, height)];
      dir := Up;
      food := FoodCell(pick, width, height);
      score := 0;
      lastMove := now;
      mercyStart := None;
      inputAllowed := true;
      status := Rules.Running;
    }

    /** A key press during play: the four guarded heading changes, tried in order. */
    method KeyDown(k: Key)
      requires Valid()
      modifies this
      ensures Valid()
      ensures State() == Rules.Press(old(State()), k)
    {
      if inputAllowed {
        if k in {ArrowUp, KeyW} && dir != Down {
          dir := Up;
          inputAllowed := false;
        } else if k in {ArrowDown, KeyS} && dir != Up {
          dir := Down;
          inputAllowed := false;
        } else if k in {ArrowLeft, KeyA} && dir != Right {
          dir := Left;
          inputAllowed := false;
        } else if k in {ArrowRight, KeyD} && dir != Left {
          dir := Right;
          inputAllowed := false;
        }
      }
    }

    /** Back from the settings menu and its countdown, which ended at time `t`. */
    method ReturnFromSettings(t: int)
      requires Valid()
      modifies this
      ensures Valid()
      ensures State() == Rules.Resume(old(State()), t)
    {
      lastMove := t;
      mercyStart := None;
      inputAllowed := true;
    }

    /** The movement-and-mercy step of one frame; `pick` is the food draw used if the snake eats. */
    method Tick(now: int, pick: (int, int))
      requires Valid() && status == Rules.Running && PickInRange(pick, w, h)
      modifies this
      ensures Valid()
      ensures State() == Rules.Tick(old(State()), now, pick)
    {
      ghost var before := State();
      Properties.TickPreservesValid(before, now, pick);
      if now - lastMove >= Rules.MoveInterval {
        var next := NextHead(snake[0], dir);
        var collision := next.x < 0 || next.x >= w || next.y < 0 || next.y >= h || next in snake[1..];
        if collision {
          if mercyStart == None {
            mercyStart := Some(now);
          } else if now >= mercyStart.value + Rules.MercyDurationMs {
            status := Rules.GameOver;
          }
        } else {
          lastMove := lastMove + Rules.MoveInterval;
          snake := [next] + snake;
          if snake[0] == food {
            score := score + 1;
            food := FoodCell(pick, w, h);
          } else {
            snake := snake[..|snake| - 1];
          }
          mercyStart := None;
          inputAllowed := true;
        }
      }
    }

    /**
      One pass of the game loop: the frame's events in order, returning at
      once on a quit request, then the movement-and-mercy step.
    */
    method Frame(now: int, events: seq<Rules.Event>, pick: (int, int)) returns (quit: bool)
      requires Valid() && status == Rules.Running && PickInRange(pick, w, h)
      modifies this
      ensures Valid()
      ensures State() == Rules.Frame(old(State()), Rules.FrameInput(now, events, pick))
      ensures quit <==> status == Rules.Quit
    {
      var i := 0;
      while i < |events|
        invariant 0 <= i <= |events|
        invariant Valid() && status == Rules.Running
        invariant Rules.HandleAll(State(), events[i..]) == Rules.HandleAll(old(State()), events)
      {
        match events[i] {
          case QuitRequest =>
            status := Rules.Quit;
            return true;
          case KeyDown(k) =>
            KeyDown(k);
          case CogClick(t) =>
            ReturnFromSettings(t);
        }
        i := i + 1;
      }
      Tick(now, pick);
      quit := false;
    }

    /**
      The game loop over a sequence of frames, stopping at a quit request or
      when a collision outlasts the mercy window.
    */
    method Play(frames: seq<Rules.FrameInput>)
      requires Valid() && Rules.PicksInRange(frames, w, h)
      modifies this
      ensures Valid()
      ensures State() == Rules.Run(old(State()), frames)
    {
      var i := 0;
      while i < |frames| && status == Rules.Running
        invariant 0 <= i <= |frames|
        invariant Valid()
        invariant Rules.Run(State(), frames[i..]) == Rules.Run(old(State()), frames)
      {
        assert Rules.PicksInRange(frames[i..], w, h);
        assert frames[i..][0] == frames[i] && frames[i..][1..] == frames[i + 1..];
        var f := frames[i];
        var _ := Frame(f.now, f.events, f.pick);
        i := i + 1;
      }
    }
  }
}
