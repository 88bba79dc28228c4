/**
  Properties of the game rules: the body invariant and the score/length
  link are kept by every tick, frame and run; the collision test is exactly
  "the grown body would be malformed"; without a settings visit, one
  frame's key presses never turn the snake around and the tick schedule
  advances in whole intervals; the schedule never runs ahead of the clock;
  the score never decreases; the game ends only once the mercy window has
  run out.
*/
module Properties {
  import opened Wrappers
  import opened Grid
  import opened Keys
  import opened Rules

  /** Pushing a fresh, aligned, on-board head next to the old head keeps a body well-formed. */
  lemma PushHeadValid(next: Cell, body: seq<Cell>, w: int, h: int)
    requires ValidBody(body, w, h)
    requires Aligned(next) && OnBoard(next, w, h) && next !in body && Adjacent(next, body[0])
    ensures ValidBody([next] + body, w, h)
  {
    var t := [next] + body;
    forall i | 0 <= i < |t| ensures Aligned(t[i]) && OnBoard(t[i], w, h) {
      if i > 0 { assert t[i] == body[i - 1]; }
    }
    forall i, j | 0 <= i < j < |t| ensures t[i] != t[j] {
      assert t[j] == body[j - 1];
      if i > 0 { assert t[i] == body[i - 1]; }
    }
    forall i | 0 <= i < |t| - 1 ensures Adjacent(t[i], t[i + 1]) {
      if i > 0 { assert t[i] == body[i - 1] && t[i + 1] == body[i]; }
    }
  }

  /** Dropping cells from the tail end keeps a body well-formed. */
  lemma PrefixValid(body: seq<Cell>, k: int, w: int, h: int)
    requires ValidBody(body, w, h) && 0 < k <= |body|
    ensures ValidBody(body[..k], w, h)
  {
    var p := body[..k];
    forall i | 0 <= i < |p| - 1 ensures Adjacent(p[i], p[i + 1]) {
      assert p[i] == body[i] && p[i + 1] == body[i + 1];
    }
  }

  /**
    The collision test says exactly whether pushing the new head onto the
    whole body (the tail included) would break the body invariant.
  */
  lemma CollidesIffGrownInvalid(body: seq<Cell>, d: Heading, w: int, h: int)
    requires ValidBody(body, w, h)
    ensures Collides(NextHead(body[0], d), body, w, h) <==> !ValidBody([NextHead(body[0], d)] + body, w, h)
  {
    var next := NextHead(body[0], d);
    var t := [next] + body;
    if Collides(next, body, w, h) {
      if !OnBoard(next, w, h) {
        assert !OnBoard(t[0], w, h);
      } else {
        var i :| 0 <= i < |body[1..]| && body[1..][i] == next;
        assert t[0] == t[i + 2];
      }
    } else {
      PushHeadValid(next, body, w, h);
    }
  }

  /**
    The cell the tail is about to leave still counts as occupied: on this
    body the head turning left would move into the tail cell, which the
    test reports as a collision although the body after the move would be
    well-formed.
  */
  lemma TailCellCountsAsOccupied()
    ensures ValidBody(SquareBody(), 600, 400)
    ensures NextHead(SquareBody()[0], Left) == SquareBody()[3]
    ensures Collides(NextHead(SquareBody()[0], Left), SquareBody(), 600, 400)
    ensures ValidBody([NextHead(SquareBody()[0], Left)] + SquareBody()[..3], 600, 400)
  {
    var body := SquareBody();
    assert body[1..][2] == body[3];
    SquareBodyValid(body);
    SquareBodyValid([body[3]] + body[..3]);
  }

  /** A body curled into a 2 x 2 square, head at the top right and tail at the top left. */
  function SquareBody(): (r: seq<Cell>) {
    [Cell(20, 0), Cell(20, 20), Cell(0, 20), Cell(0, 0)]
  }

  lemma SquareBodyValid(body: seq<Cell>)
    requires body == SquareBody() || body == [Cell(0, 0), Cell(20, 0), Cell(20, 20), Cell(0, 20)]
    ensures ValidBody(body, 600, 400)
  {
    forall i, j | 0 <= i < j < |body| ensures body[i] != body[j] {
      assert body[i].x != body[j].x || body[i].y != body[j].y;
    }
  }

  /** Every tick keeps the state invariant. */
  lemma TickPreservesValid(s: World, now: int, pick: (int, int))
    requires Valid(s) && s.status == Running && PickInRange(pick, s.w, s.h)
    ensures Valid(Tick(s, now, pick))
  {
    if Due(s, now) && !Collides(Ahead(s), s.snake, s.w, s.h) {
      var next := Ahead(s);
      var grown := [next] + s.snake;
      PushHeadValid(next, s.snake, s.w, s.h);
      if next != s.food {
        PrefixValid(grown, |grown| - 1, s.w, s.h);
      }
    }
  }

  /** Handling events touches neither the body, the food, the score nor the board. */
  lemma HandleAllPreservesValid(s: World, es: seq<Event>)
    requires Valid(s)
    ensures Valid(HandleAll(s, es))
  {
  }

  /** Every frame keeps the state invariant. */
  lemma FramePreservesValid(s: World, f: FrameInput)
    requires Valid(s) && PickInRange(f.pick, s.w, s.h)
    ensures Valid(Frame(s, f))
  {
    var t := HandleAll(s, f.events);
    HandleAllPreservesValid(s, f.events);
    if t.status == Running {
      TickPreservesValid(t, f.now, f.pick);
    }
  }

  /** Every run of frames keeps the state invariant. */
  lemma {:induction false} RunPreservesValid(s: World, fs: seq<FrameInput>)
    requires Valid(s) && PicksInRange(fs, s.w, s.h)
    ensures Valid(Run(s, fs))
    decreases |fs|
  {
    if fs != [] && s.status == Running {
      FramePreservesValid(s, fs[0]);
      RunPreservesValid(Frame(s, fs[0]), fs[1..]);
    }
  }

  /** Within a session the score never decreases. */
  lemma {:induction false} RunScoreNeverDecreases(s: World, fs: seq<FrameInput>)
    requires |s.snake| > 0 && PicksInRange(fs, s.w, s.h)
    ensures Run(s, fs).score >= s.score
    decreases |fs|
  {
    if fs != [] && s.status == Running {
      RunScoreNeverDecreases(Frame(s, fs[0]), fs[1..]);
    }
  }

  /** No settings visit among a frame's events. */
  predicate NoClicks(es: seq<Event>) {
    forall i :: 0 <= i < |es| ==> !es[i].CogClick?
  }

  lemma NoClicksTail(es: seq<Event>)
    requires NoClicks(es) && es != []
    ensures NoClicks(es[1..])
  {
  }

  /** While input is locked, a frame without a settings visit ignores every key. */
  lemma {:induction false} LockedIgnoresKeys(s: World, es: seq<Event>)
    requires !s.inputAllowed && NoClicks(es)
    ensures HandleAll(s, es) == s.(status := HandleAll(s, es).status)
    decreases |es|
  {
    if es != [] && s.status == Running {
      assert !es[0].CogClick?;
      NoClicksTail(es);
      LockedIgnoresKeys(Handle(s, es[0]), es[1..]);
    }
  }

  /**
    However many keys are pressed in one frame (with no settings visit in
    between), the heading ends up either unchanged or turned by one
    accepted press: never reversed, and only if input was open, which the
    accepted press then locks.
  */
  lemma {:induction false} OneTurnPerFrame(s: World, es: seq<Event>)
    requires NoClicks(es)
    ensures HandleAll(s, es).dir != Reverse(s.dir)
    ensures HandleAll(s, es).dir != s.dir ==> s.inputAllowed && !HandleAll(s, es).inputAllowed
    decreases |es|
  {
    if es != [] && s.status == Running {
      var t := Handle(s, es[0]);
      NoClicksTail(es);
      if t.inputAllowed {
        OneTurnPerFrame(t, es[1..]);
      } else {
        LockedIgnoresKeys(t, es[1..]);
      }
    }
  }

  /**
    A settings visit reopens input in the middle of a frame, so two presses
    around it can reverse the snake within one frame.
  */
  lemma SettingsVisitAllowsReversal(s: World, t: int)
    requires s.status == Running && s.dir == Up && s.inputAllowed
    ensures HandleAll(s, [KeyDown(ArrowLeft), CogClick(t), KeyDown(ArrowDown)]).dir == Reverse(s.dir)
  {
    var es := [KeyDown(ArrowLeft), CogClick(t), KeyDown(ArrowDown)];
    var s1 := Press(s, ArrowLeft);
    assert s1.dir == Left && s1.status == Running;
    var s2 := Resume(s1, t);
    var s3 := Press(s2, ArrowDown);
    assert s3.dir == Down;
    assert es[1..] == [CogClick(t), KeyDown(ArrowDown)];
    assert es[1..][1..] == [KeyDown(ArrowDown)];
    assert HandleAll(s3, []) == s3;
    assert HandleAll(s2, [KeyDown(ArrowDown)]) == s3;
    assert HandleAll(s1, es[1..]) == s3;
  }

  /** Events other than a settings visit leave the tick reference time alone. */
  lemma {:induction false} NoClicksKeepClock(s: World, es: seq<Event>)
    requires NoClicks(es)
    ensures HandleAll(s, es).lastMove == s.lastMove
    decreases |es|
  {
    if es != [] && s.status == Running {
      NoClicksTail(es);
      NoClicksKeepClock(Handle(s, es[0]), es[1..]);
    }
  }

  /** No settings visit in any of the frames. */
  predicate NoSettingsVisits(fs: seq<FrameInput>) {
    forall i :: 0 <= i < |fs| ==> NoClicks(fs[i].events)
  }

  lemma NoSettingsVisitsTail(fs: seq<FrameInput>)
    requires NoSettingsVisits(fs) && fs != []
    ensures NoSettingsVisits(fs[1..]) && NoClicks(fs[0].events)
  {
  }

  /**
    Without settings visits, the tick reference time only moves forward in
    whole intervals, and each interval consumed brings at most one point.
  */
  lemma {:induction false} RunAdvancesInWholeIntervals(s: World, fs: seq<FrameInput>)
    requires |s.snake| > 0 && PicksInRange(fs, s.w, s.h) && NoSettingsVisits(fs)
    ensures Run(s, fs).lastMove >= s.lastMove
    ensures (Run(s, fs).lastMove - s.lastMove) % MoveInterval == 0
    ensures Run(s, fs).score - s.score <= (Run(s, fs).lastMove - s.lastMove) / MoveInterval
    decreases |fs|
  {
    if fs != [] && s.status == Running {
      var f := fs[0];
      NoSettingsVisitsTail(fs);
      OneMovePerFrame(s, f);
      var u := Frame(s, f);
      RunAdvancesInWholeIntervals(u, fs[1..]);
    }
  }

  /** Every clock reading and settings-return time in a frame is at most `t`. */
  predicate FrameNotAfter(f: FrameInput, t: int) {
    f.now <= t &&
    forall i :: 0 <= i < |f.events| && f.events[i].CogClick? ==> f.events[i].resumedAt <= t
  }

  lemma {:induction false} HandleAllNotAfter(s: World, es: seq<Event>, t: int)
    requires s.lastMove <= t
    requires forall i :: 0 <= i < |es| && es[i].CogClick? ==> es[i].resumedAt <= t
    ensures HandleAll(s, es).lastMove <= t
    decreases |es|
  {
    if es != [] && s.status == Running {
      HandleAllNotAfter(Handle(s, es[0]), es[1..], t);
    }
  }

  /**
    The schedule never runs ahead of the clock: if no reading the loop has
    seen exceeds `t`, the reference time of the tick gate does not either,
    because a move is made only once a whole interval has elapsed.
  */
  lemma {:induction false} ScheduleNeverAhead(s: World, fs: seq<FrameInput>, t: int)
    requires |s.snake| > 0 && PicksInRange(fs, s.w, s.h)
    requires s.lastMove <= t
    requires forall i :: 0 <= i < |fs| ==> FrameNotAfter(fs[i], t)
    ensures Run(s, fs).lastMove <= t
    decreases |fs|
  {
    if fs != [] && s.status == Running {
      assert FrameNotAfter(fs[0], t);
      HandleAllNotAfter(s, fs[0].events, t);
      ScheduleNeverAhead(Frame(s, fs[0]), fs[1..], t);
    }
  }

  /**
    A frame without a settings visit moves the snake at most once: the
    reference time of the schedule stays or advances by exactly one
    interval, and the body is unchanged or one step further along.
  */
  lemma OneMovePerFrame(s: World, f: FrameInput)
    requires |s.snake| > 0 && PickInRange(f.pick, s.w, s.h) && NoClicks(f.events)
    ensures Frame(s, f).lastMove == s.lastMove || Frame(s, f).lastMove == s.lastMove + MoveInterval
    ensures Frame(s, f).score > s.score ==> Frame(s, f).lastMove == s.lastMove + MoveInterval
    ensures Frame(s, f).snake == s.snake ||
            (Frame(s, f).snake[0] == NextHead(s.snake[0], Frame(s, f).dir) && Frame(s, f).snake[1..] <= s.snake)
  {
    NoClicksKeepClock(s, f.events);
  }

  /**
    Between two safe moves (a run of frames without a settings visit in
    which the schedule does not advance) the heading is never reversed; it
    changes at most once, only if input was open, and then stays locked.
  */
  lemma {:induction false} OneTurnBetweenMoves(s: World, fs: seq<FrameInput>)
    requires |s.snake| > 0 && PicksInRange(fs, s.w, s.h) && NoSettingsVisits(fs)
    requires Run(s, fs).lastMove == s.lastMove
    ensures Run(s, fs).dir != Reverse(s.dir)
    ensures Run(s, fs).dir != s.dir ==> s.inputAllowed && !Run(s, fs).inputAllowed
    ensures !s.inputAllowed ==> Run(s, fs).dir == s.dir && !Run(s, fs).inputAllowed
    decreases |fs|
  {
    if fs != [] && s.status == Running {
      var f := fs[0];
      NoSettingsVisitsTail(fs);
      var t := HandleAll(s, f.events);
      var u := Frame(s, f);
      NoClicksKeepClock(s, f.events);
      OneTurnPerFrame(s, f.events);
      if !s.inputAllowed {
        LockedIgnoresKeys(s, f.events);
      }
      RunAdvancesInWholeIntervals(u, fs[1..]);
      assert u.lastMove == s.lastMove;
      assert u.dir == t.dir && u.inputAllowed == t.inputAllowed;
      OneTurnBetweenMoves(u, fs[1..]);
    }
  }

  /**
    A frame ends the game only when the mercy window was already open
    before it, survived its events, and the frame's clock reading is at
    least MercyDurationMs past the window's start; the first colliding
    frame never ends the game.
  */
  lemma EndsOnlyAfterMercy(s: World, f: FrameInput)
    requires s.status == Running && |s.snake| > 0 && PickInRange(f.pick, s.w, s.h)
    ensures Frame(s, f).status == GameOver ==>
              s.mercyStart.Some? && Frame(s, f).mercyStart == s.mercyStart &&
              f.now >= s.mercyStart.value + MercyDurationMs
  {
  }

  /**
    The frames up to and including frame `i` leave the mercy window open
    since frame `i`'s clock reading, and a later frame `j` reads the clock
    at least MercyDurationMs after it.
  */
  predicate MercyOutlasted(s: World, fs: seq<FrameInput>, i: int, j: int) {
    0 <= i < j < |fs| && |s.snake| > 0 && PicksInRange(fs[..i + 1], s.w, s.h) &&
    Run(s, fs[..i + 1]).mercyStart == Some(fs[i].now) &&
    fs[j].now >= fs[i].now + MercyDurationMs
  }

  /** Running the first `k` frames is one frame followed by the next `k - 1`. */
  lemma RunPrefixStep(s: World, fs: seq<FrameInput>, k: int)
    requires s.status == Running && |s.snake| > 0 && PicksInRange(fs, s.w, s.h) && 0 < k <= |fs|
    ensures PicksInRange(fs[..k], s.w, s.h) && PicksInRange(fs[1..][..k - 1], s.w, s.h)
    ensures Run(s, fs[..k]) == Run(Frame(s, fs[0]), fs[1..][..k - 1])
  {
    assert fs[..k][0] == fs[0];
    assert fs[..k][1..] == fs[1..][..k - 1];
  }

  /**
    A session whose mercy window is closed ends in a game over only after
    two frames: one after which the window is open since its own clock
    reading, and a later one whose clock reading is at least
    MercyDurationMs after the first.
  */
  lemma RunEndsOnlyAfterMercy(s: World, fs: seq<FrameInput>)
    requires s.status == Running && s.mercyStart == None
    requires |s.snake| > 0 && PicksInRange(fs, s.w, s.h)
    ensures Run(s, fs).status == GameOver ==> exists i, j :: MercyOutlasted(s, fs, i, j)
  {
    RunEndsOnlyAfterMercyFrom(s, fs);
  }

  lemma {:induction false} RunEndsOnlyAfterMercyFrom(s: World, fs: seq<FrameInput>)
    requires |s.snake| > 0 && PicksInRange(fs, s.w, s.h)
    ensures Run(s, fs).status == GameOver && s.status == Running ==>
              (exists i, j :: MercyOutlasted(s, fs, i, j)) ||
              (s.mercyStart.Some? && exists j :: 0 <= j < |fs| && fs[j].now >= s.mercyStart.value + MercyDurationMs)
    decreases |fs|
  {
    if fs != [] && s.status == Running {
      var u := Frame(s, fs[0]);
      EndsOnlyAfterMercy(s, fs[0]);
      if u.status == GameOver {
        assert Run(s, fs) == u;
        assert fs[0].now >= s.mercyStart.value + MercyDurationMs;
      } else if Run(s, fs).status == GameOver {
        var rest := fs[1..];
        RunEndsOnlyAfterMercyFrom(u, rest);
        if exists i, j :: MercyOutlasted(u, rest, i, j) {
          var i, j :| MercyOutlasted(u, rest, i, j);
          RunPrefixStep(s, fs, i + 2);
          assert MercyOutlasted(s, fs, i + 1, j + 1);
        } else {
          var j :| 0 <= j < |rest| && rest[j].now >= u.mercyStart.value + MercyDurationMs;
          assert fs[j + 1] == rest[j];
          if u.mercyStart == Some(fs[0].now) {
            RunPrefixStep(s, fs, 1);
            assert MercyOutlasted(s, fs, 0, j + 1);
          } else {
            assert u.mercyStart == s.mercyStart;
          }
        }
      }
    }
  }
}
