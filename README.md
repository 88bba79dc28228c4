# Snake game core in Dafny

A model of the simulation core of a grid snake game (`snakegame.py`): the
state kept by one game session, the frame loop that consumes input events
and then attempts at most one move, the heading rule with its input lock,
the time gate of the move schedule, the collision test, the mercy window
before a collision ends the game, the move/grow step, the food formula,
and the index arithmetic of the settings and game-over menus.

Layout:

- `grid.dfy` (module `Grid`): pixel-aligned cells (`CellSize` = 20), the
  four headings and their reverses, `NextHead`, `OnBoard`, the food cell
  drawn from two cell indices, the start cell, the collision test and the
  body invariant `ValidBody` (aligned, on the board, pairwise distinct,
  consecutive cells one step apart).
- `keys.dfy` (module `Keys`): the keys the game reacts to and the heading
  each arrow/WASD key asks for.
- `rules.dfy` (module `Rules`): the session state as a value (`World`) and
  the rules as functions: `Press`, `Resume` (return from the settings
  menu), `HandleAll` (one frame's events), `Tick` (the movement-and-mercy
  step), `Frame`, `Run`, plus the high-score update.
- `properties.dfy` (module `Properties`): lemmas relating those rules.
- `game.dfy` (module `Game`): the class `Session` whose fields are the
  game loop's variables; its methods update them in place (the body is
  changed by pushing a head at the front and popping the tail) and are
  proved equal to the `Rules` functions and to keep `Rules.Valid`.
- `menus.dfy` (module `Menus`): the settings-menu and game-over-menu index
  updates as functions, and two small classes holding the menu state.

Time is an integer number of milliseconds: `MOVE_INTERVAL` is
`1000 / 10 = 100`, an exact value, so the reference time of the move
schedule stays integral. The clock reading of each frame, the end time of
the countdown after the settings menu, and the random food draw are
parameters; the food draw is a pair of cell indices in the range that
`randint(0, w//CELL_SIZE-1)` produces. Python's `%` with a positive divisor
agrees with Dafny's, so the menu index expressions are written as in the
source.

Points where this code differs from common variants of the game, and
which the model keeps as the code has them:

- The collision test checks `snake[1:]`, which includes the current tail.
  Moving into the cell the tail is about to leave is therefore a collision.
  A common variant exempts the cell the tail vacates; this code does not.
  `Properties.TailCellCountsAsOccupied` exhibits such a move.
- The schedule is an `if`, not a `while`: at most one move per frame, and
  a lagging game catches up one move per frame.
- The input lock is set by an accepted key press, even one for the current
  heading. It is cleared by a safe move or by returning from the settings
  menu. A collision does not set it.
- A return from the settings menu in the middle of a frame reopens input.
  Two presses around it can then reverse the snake within one frame
  (`Properties.SettingsVisitAllowsReversal`).
- The high score is written after the frame loop, which a quit request
  leaves by returning early; so only a session that ends in a game over
  updates the stored value.

## Model

| member | source | states |
|---|---|---|
| Grid.NextHead | snakegame.py:203 | the next head is one grid step from the current head, never equal to it, and aligned when the head is |
| Grid.FoodCell | snakegame.py:182 | every food draw lands on an aligned cell inside the board, at the drawn column and row |
| Grid.StartCell | snakegame.py:181 | the start cell `(w//2, h//2)` is aligned and on the board for every offered resolution |
| Grid.ResolutionIsBoard | snakegame.py:16-22 | every offered resolution is a whole number of cells, and so is half of it |
| Grid.Collides | snakegame.py:204 | a safe head is on the board and, unless it is the current head, on no body cell; the cell the tail is about to leave counts as occupied |
| Keys.Requested | snakegame.py:195-198 | each arrow key and its WASD alias ask for exactly one heading; every other key asks for none |
| Rules.Start | snakegame.py:181-187 | a new session satisfies the state invariant: one-cell body, heading up, score 0, schedule started at the current time, no mercy window, input open |
| Rules.Press | snakegame.py:194-198 | a press changes only the heading and the lock; it never reverses the heading; with input locked it does nothing; an accepted press (also one for the current heading) sets the requested heading and locks input; an ignored press (another key, or the reverse of the current heading) leaves the state unchanged |
| Rules.Handle | snakegame.py:192-200 | an event never moves the snake, feeds it or scores; only a quit request changes the status, to Quit; only a cog click moves the schedule or clears the mercy window |
| Rules.Resume | snakegame.py:199-200 | returning from the settings menu sets the schedule's reference time to the countdown's end, clears the mercy window, reopens input and changes nothing else |
| Rules.HandleAll | snakegame.py:191-200 | a frame's events never move the snake, change the food or the score; a finished session ignores them; a running session ends up quit iff a quit request is among the events; the mercy window is only ever kept or cleared |
| Rules.Tick | snakegame.py:202-213 | nothing happens before a full interval; a collision changes only the mercy window or the status; the first collision opens the window without ending the game; a later one ends it iff `now >= mercy_start + 50`; a safe move advances the reference time by exactly one interval, never past the current clock reading (leftover time kept), clears the window, reopens input, puts the new head in front, and grows the body and the score by one iff the head lands on the food (new food drawn), otherwise keeps both |
| Rules.Frame | snakegame.py:188-213 | one frame makes at most one move: the body is unchanged, or it has a new head one step ahead along the new heading followed by a prefix of the old body; length and score change by at most one; a quit request skips the tick; the mercy window is kept, cleared, or opened at this frame's clock reading; a finished session is unchanged |
| Rules.Run | snakegame.py:188-220 | the loop keeps the board; a finished session is final, and a running one can only stay running or finish |
| Rules.StoredHighScore | snakegame.py:222 | after a session that ends in a game over, the stored high score changes iff the session score beats it, and is then the session score |
| Properties.CollidesIffGrownInvalid | snakegame.py:203-204 | on a well-formed body, the collision test holds exactly when pushing the new head onto the whole body would break the body invariant |
| Properties.TailCellCountsAsOccupied | snakegame.py:204 | moving into the cell the tail is about to leave is reported as a collision, even though the body after that move would be well-formed |
| Properties.TickPreservesValid | snakegame.py:202-213 | every tick keeps the body well-formed, the food on an aligned board cell and the length equal to score + 1 |
| Properties.FramePreservesValid | snakegame.py:188-213 | every frame keeps the state invariant |
| Properties.RunPreservesValid | snakegame.py:188-213 | every sequence of frames keeps the state invariant |
| Properties.RunScoreNeverDecreases | snakegame.py:211 | within a session the score never decreases |
| Properties.LockedIgnoresKeys | snakegame.py:194 | while input is locked, a frame without a settings visit ignores every key |
| Properties.OneTurnPerFrame | snakegame.py:191-198 | over one frame without a settings visit, the heading is never reversed, and it changes only if input was open, which it then locks |
| Properties.OneMovePerFrame | snakegame.py:202-209 | a frame without a settings visit leaves the schedule's reference time unchanged or advances it by exactly one interval, scores only when it advances, and moves the body at most one step |
| Properties.OneTurnBetweenMoves | snakegame.py:194-209 | over any frames without a settings visit in which no safe move happens, the heading is never reversed; it changes only if input was open, and then input stays locked; with input locked the heading does not change |
| Properties.EndsOnlyAfterMercy | snakegame.py:204-207 | a frame ends the game only if the mercy window was already open before it and the frame's clock reading is at least 50 ms past the window's start |
| Properties.RunEndsOnlyAfterMercy | snakegame.py:204-207 | a session with no open mercy window ends in a game over only if, after some frame, the window is open since that frame's clock reading and a later frame reads the clock at least 50 ms after it |
| Properties.SettingsVisitAllowsReversal | snakegame.py:199-200 | a press, a settings visit and a second press in one frame can reverse the heading |
| Properties.RunAdvancesInWholeIntervals | snakegame.py:202-209 | without settings visits, the schedule's reference time only advances in whole intervals, and each interval brings at most one point |
| Properties.ScheduleNeverAhead | snakegame.py:202-209 | the schedule's reference time never passes the latest clock reading or countdown end the loop has seen |
| Game.Session.constructor | snakegame.py:181-187 | the session's variables start as `Rules.Start` says, and the invariant holds |
| Game.Session.KeyDown | snakegame.py:193-198 | the four guarded heading assignments, tried in order, perform exactly `Rules.Press` and keep the invariant |
| Game.Session.ReturnFromSettings | snakegame.py:199-200 | the assignments after the settings menu perform exactly `Rules.Resume` and keep the invariant |
| Game.Session.Tick | snakegame.py:201-213 | the in-place movement-and-mercy step (insert at the front, pop the tail) performs exactly `Rules.Tick` and keeps the invariant |
| Game.Session.Frame | snakegame.py:188-213 | the event loop with its early return on quit, followed by the tick, performs exactly `Rules.Frame`; it reports quit iff the status is Quit |
| Game.Session.Play | snakegame.py:188-220 | the frame loop, left on quit or game over, performs exactly `Rules.Run` and keeps the invariant |
| Menus.ShortcutAction | snakegame.py:168-172 | exactly the keys T, R, G and B select a settings action, each its own: T toggles borderless, R changes the resolution, G cycles the background, B goes back |
| Menus.NextResolution | snakegame.py:174 | the resolution index stays in range, moving to the next resolution and wrapping from the last to the first |
| Menus.NextBackground | snakegame.py:175 | with at least one file, the background index lands in range, goes from "none" (-1) to the first file, and wraps from the last to the first |
| Menus.CycleResolutionSteps | snakegame.py:174 | pressing the resolution shortcut k times from index i selects `(i + k) mod 4`, so every resolution is reachable |
| Menus.CycleResolutionPeriod | snakegame.py:174 | cycling four times returns to the starting resolution |
| Menus.SettingsMenu.constructor | snakegame.py:25-27 | the menu starts from the current resolution, borderless flag and background index |
| Menus.SettingsMenu.Apply | snakegame.py:173-176 | each action changes only its own setting; the resolution index stays in range; the background index changes only when there are files; Back closes the menu |
| Menus.SelectionUp | snakegame.py:235 | the selection stays in range, moving to the previous option and wrapping from the first to the last |
| Menus.SelectionDown | snakegame.py:236 | the selection stays in range, moving to the next option and wrapping from the last to the first; Up undoes Down |
| Menus.GameOverMenu.constructor | snakegame.py:227 | the selection starts on "Replay" |
| Menus.GameOverMenu.KeyDown | snakegame.py:232-237 | Up/W and Down/S move the selection within range; Return reports replay iff "Replay" is selected; other keys change nothing |

## Left out

- Drawing: the grid, the snake (including the eye geometry), the apple, the cog, the texts and the countdown digits. These are rendering calls into pygame.
- The interpolation factor `alpha` and the `prev` snapshot of the body. Both are used only for drawing, with floating-point arithmetic.
- Preference persistence (`load_prefs`, `save_prefs`) and `apply_display_settings`. These are file and display I/O. `Menus.SettingsMenu.constructor` takes the loaded values as parameters.
- The high-score file: it is read at session start and written only when the session ends in a game over (a quit request returns before the write). Only the comparison is modelled (`Rules.StoredHighScore`), with the stored value as a parameter.
- `random.randint`, `pygame.time.get_ticks`, `clock.tick` and event polling. They become parameters: a pair of drawn cell indices, an integer clock reading per frame, and a sequence of events per frame.
- `pause_and_countdown`: its three half-second pauses are a blocking call. Only the clock reading it returns is modelled, as the `resumedAt` field of a settings-cog click.
- Mouse hit-testing against the cog rectangle and the menu option rectangles. This is rectangle geometry in pygame; a click on the cog is the `CogClick` event, and a click on a settings option is an `Action`.
- The settings menu's own quit event (`sys.exit`), and the game-over menu's quit event (`return False`). These are process plumbing, like the outer `while run_game()` loop.
- The resolution changes the settings menu makes during a session. The running session keeps the window size it read at its start, as the source does (`w`, `h` are fixed when the session is created).
- Properties.RunAdvancesInWholeIntervals: stated only for frames without a settings visit, because returning from the settings menu resets the reference time to the end of the countdown.
- Properties.OneTurnPerFrame: stated only for frames without a settings visit, because that return reopens input (see `Properties.SettingsVisitAllowsReversal`).
