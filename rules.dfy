/**
  The rules of one game session as functions on a snapshot of its state:
  how a key press steers, what returning from the settings menu resets,
  how one frame's events are consumed, and how the tick gate, the
  collision test, the mercy window and the move/grow step update the state.
  The `Session` class performs the same updates in place and is proved
  against these functions.
*/
module Rules {
  import opened Wrappers
  import opened Grid
  import opened Keys

  /** Milliseconds between two moves: 1000 / MOVE_SPEED with MOVE_SPEED = 10, which is exact. */
  const MoveInterval: int := 100

  /** How long after the first collision the snake is spared (MERCY_DURATION_MS). */
  const MercyDurationMs: int := 50

  /** Still playing, stopped by a collision past the mercy window, or closed by a quit event. */
  datatype Status = Running | GameOver | Quit

  /** The locals of the game loop; `w` and `h` are the window size read when the session starts. */
  datatype World = World(
    w: int, h: int,
    snake: seq<Cell>,
    dir: Heading,
    food: Cell,
    score: nat,
    lastMove: int,
    mercyStart: Option<int>,
    inputAllowed: bool,
    status: Status)

  /**
    What holds of every state the game reaches: a board of whole cells, a
    well-formed body, food on an aligned board cell, and a body exactly one
    cell longer than the score (each point eaten is one cell grown).
  */
  predicate Valid(s: World) {
    BoardOk(s.w, s.h) &&
    ValidBody(s.snake, s.w, s.h) &&
    Aligned(s.food) && OnBoard(s.food, s.w, s.h) &&
    |s.snake| == s.score + 1
  }

  /** A fresh session on resolution `res`, started at time `now` with the food drawn as `pick`. */
  function Start(res: int, now: int, pick: (int, int)): (r: World)
    requires 0 <= res < |Resolutions|
    requires PickInRange(pick, Resolutions[res].0, Resolutions[res].1)
    ensures Valid(r)
    ensures (r.w, r.h) == Resolutions[res]
    ensures |r.snake| == 1 && r.score == 0 && r.dir == Up
    ensures r.lastMove == now && r.mercyStart == None && r.inputAllowed && r.status == Running
  {
    var (w, h) := Resolutions[res];
    ResolutionIsBoard(w, h);
    World(w, h, [StartCell(w, h)], Up, FoodCell(pick, w, h), 0, now, None, true, Running)
  }

  /** The heading rule for one key press. */
  function Press(s: World, k: Key): (r: World)
    // only the heading and the input lock can change
    ensures r == s.(dir := r.dir, inputAllowed := r.inputAllowed)
    // a press never turns the snake around
    ensures r.dir != Reverse(s.dir)
    // with input locked, every key is ignored
    ensures !s.inputAllowed ==> r == s
    // a change of heading is always to the heading the key asks for
    ensures r.dir != s.dir ==> Requested(k) == Some(r.dir)
    // an accepted press, even one for the current heading, locks input
    ensures s.inputAllowed && Requested(k).Some? && Requested(k).value != Reverse(s.dir) ==>
              r.dir == Requested(k).value && !r.inputAllowed
    // input stays open only when the press was ignored
    ensures r.inputAllowed ==> r == s
    // an ignored press (another key, or the reverse heading) leaves everything as it was
    ensures !(s.inputAllowed && Requested(k).Some? && Requested(k).value != Reverse(s.dir)) ==> r == s
  {
    if s.inputAllowed then
      match Requested(k)
      case Some(d) => if d != Reverse(s.dir) then s.(dir := d, inputAllowed := false) else s
      case None => s
    else s
  }

  /**
    Coming back from the settings menu: the countdown's end time `t`
    becomes the reference time of the tick gate, the mercy window is
    cleared and input is open again.
  */
  function Resume(s: World, t: int): (r: World)
    ensures r.lastMove == t && r.mercyStart == None && r.inputAllowed
    ensures r.(lastMove := s.lastMove, mercyStart := s.mercyStart, inputAllowed := s.inputAllowed) == s
  {
    s.(lastMove := t, mercyStart := None, inputAllowed := true)
  }

  /** An input event: a key press, a click on the settings cog, or a quit request. */
  datatype Event = KeyDown(key: Key) | CogClick(resumedAt: int) | QuitRequest

  /** One event: a key steers, a cog click goes through the settings menu, a quit ends the session. */
  function Handle(s: World, e: Event): (r: World)
    ensures r.snake == s.snake && r.food == s.food && r.score == s.score
    ensures r.w == s.w && r.h == s.h
    ensures r.status == (if e == QuitRequest then Quit else s.status)
    ensures r.mercyStart == s.mercyStart || r.mercyStart == None
    ensures !e.CogClick? ==> r.lastMove == s.lastMove && r.mercyStart == s.mercyStart
  {
    match e
    case KeyDown(k) => Press(s, k)
    case CogClick(t) => Resume(s, t)
    case QuitRequest => s.(status := Quit)
  }

  /**
    One frame's events, consumed in order until a quit request. Events
    never move the snake, feed it or change the score.
  */
  function HandleAll(s: World, es: seq<Event>): (r: World)
    ensures r.snake == s.snake && r.food == s.food && r.score == s.score
    ensures r.w == s.w && r.h == s.h
    ensures s.status != Running ==> r == s
    ensures r.status == Running || r.status == s.status || r.status == Quit
    // a quit request ends the session
    ensures s.status == Running && QuitRequest in es ==> r.status == Quit
    ensures s.status == Running && QuitRequest !in es ==> r.status == Running
    // only a settings visit clears the mercy window
    ensures r.mercyStart == s.mercyStart || r.mercyStart == None
    decreases |es|
  {
    if es == [] || s.status != Running then s
    else HandleAll(Handle(s, es[0]), es[1..])
  }

  /** The time gate: a move is attempted when a full interval has passed since `lastMove`. */
  predicate Due(s: World, now: int) {
    now - s.lastMove >= MoveInterval
  }

  /** The head the snake would have after this tick. */
  function Ahead(s: World): (r: Cell)
    requires |s.snake| > 0
  {
    NextHead(s.snake[0], s.dir)
  }

  /**
    The movement-and-mercy step run once per frame. `pick` is the random
    draw for a new food cell, used only when the snake eats.
  */
  function Tick(s: World, now: int, pick: (int, int)): (r: World)
    requires s.status == Running && |s.snake| > 0 && PickInRange(pick, s.w, s.h)
    // never changes the board or the heading
    ensures r.w == s.w && r.h == s.h && r.dir == s.dir
    // the gate: before a full interval, nothing happens
    ensures !Due(s, now) ==> r == s
    // a collision changes nothing but the mercy window or the status
    ensures Due(s, now) && Collides(Ahead(s), s.snake, s.w, s.h) ==>
              r == s.(mercyStart := r.mercyStart, status := r.status)
    // the first collision opens the mercy window and does not end the game
    ensures Due(s, now) && Collides(Ahead(s), s.snake, s.w, s.h) && s.mercyStart == None ==>
              r.mercyStart == Some(now) && r.status == Running
    // a later collision ends the game exactly when the window has run out
    ensures Due(s, now) && Collides(Ahead(s), s.snake, s.w, s.h) && s.mercyStart.Some? ==>
              r.mercyStart == s.mercyStart &&
              (r.status == GameOver <==> now >= s.mercyStart.value + MercyDurationMs) &&
              (r.status == Running || r.status == GameOver)
    // a safe move: one interval consumed, never past the clock, mercy cleared, input reopened
    ensures Due(s, now) && !Collides(Ahead(s), s.snake, s.w, s.h) ==>
              r.lastMove == s.lastMove + MoveInterval && r.lastMove <= now &&
              r.mercyStart == None && r.inputAllowed && r.status == Running
    // a safe move puts the new head in front and keeps the rest of the body in order
    ensures Due(s, now) && !Collides(Ahead(s), s.snake, s.w, s.h) ==>
              |r.snake| > 0 && r.snake[0] == Ahead(s) && r.snake[1..] <= s.snake
    // it grows by one cell and scores one point exactly when the new head is on the food
    ensures Due(s, now) && !Collides(Ahead(s), s.snake, s.w, s.h) ==>
              (|r.snake| == |s.snake| + 1 <==> Ahead(s) == s.food) &&
              (r.score == s.score + 1 <==> Ahead(s) == s.food) &&
              (Ahead(s) == s.food ==> r.food == FoodCell(pick, s.w, s.h)) &&
              (Ahead(s) != s.food ==> |r.snake| == |s.snake| && r.score == s.score && r.food == s.food)
    // at most one step per frame, and the score never goes down
    ensures |s.snake| <= |r.snake| <= |s.snake| + 1
    ensures r.score == s.score || r.score == s.score + 1
  {
    if !Due(s, now) then s
    else
      var next := Ahead(s);
      if Collides(next, s.snake, s.w, s.h) then
        match s.mercyStart
        case None => s.(mercyStart := Some(now))
        case Some(m) => if now >= m + MercyDurationMs then s.(status := GameOver) else s
      else
        var grown := [next] + s.snake;
        var moved := s.(lastMove := s.lastMove + MoveInterval, mercyStart := None, inputAllowed := true);
        if next == s.food then
          moved.(snake := grown, score := s.score + 1, food := FoodCell(pick, s.w, s.h))
        else
          assert grown[1..|grown| - 1] == s.snake[..|s.snake| - 1];
          moved.(snake := grown[..|grown| - 1])
  }

  /** What the loop receives in one frame: the clock reading, the events, and a food draw. */
  datatype FrameInput = FrameInput(now: int, events: seq<Event>, pick: (int, int))

  /** One pass of the game loop: all events first, then at most one tick unless a quit came in. */
  function Frame(s: World, f: FrameInput): (r: World)
    requires |s.snake| > 0 && PickInRange(f.pick, s.w, s.h)
    ensures r.w == s.w && r.h == s.h
    ensures |s.snake| <= |r.snake| <= |s.snake| + 1
    ensures r.score == s.score || r.score == s.score + 1
    ensures s.status != Running ==> r == s
    // at most one move: the body is unchanged, or it gained one head one step ahead of the old one
    ensures r.snake == s.snake || (r.snake[0] == NextHead(s.snake[0], r.dir) && r.snake[1..] <= s.snake)
    // a quit request skips the tick
    ensures QuitRequest in f.events ==> r == HandleAll(s, f.events)
    // the mercy window is kept, cleared, or opened at this frame's clock reading
    ensures r.mercyStart == s.mercyStart || r.mercyStart == None || r.mercyStart == Some(f.now)
  {
    var t := HandleAll(s, f.events);
    if t.status == Running then Tick(t, f.now, f.pick) else t
  }

  predicate PicksInRange(fs: seq<FrameInput>, w: int, h: int) {
    forall i :: 0 <= i < |fs| ==> PickInRange(fs[i].pick, w, h)
  }

  /** A sequence of frames, stopping once the game is over or quit. */
  function Run(s: World, fs: seq<FrameInput>): (r: World)
    requires |s.snake| > 0 && PicksInRange(fs, s.w, s.h)
    ensures r.w == s.w && r.h == s.h && |r.snake| > 0
    // a finished session is final
    ensures s.status != Running ==> r == s
    ensures r.status == s.status || s.status == Running
    decreases |fs|
  {
    if fs == [] || s.status != Running then s
    else Run(Frame(s, fs[0]), fs[1..])
  }

  /**
    The value left in the high-score store after a session that ends in a
    game over: the score is written only when it beats the stored value.
    A session closed by a quit request writes nothing.
  */
  function StoredHighScore(score: int, high: int): (r: int)
    ensures r >= high && r >= score
    ensures r == score || r == high
    ensures r != high <==> score > high
  {
    if score > high then score else high
  }
}
