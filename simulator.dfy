/** move_ball (bounce.c:126-147) and the per-tick loop of main that moves
    every ball in turn (bounce.c:198-200), acting on a shared Box. */
module Simulator {
  import opened Config
  import opened MinMax
  import opened Kinematics
  import opened Arena

  /** The erase at bounce.c:133 indexes the cell array with the ball's
      current position, so that position must lie inside the array. */
  predicate IndexInBox(b: Ball) {
    0 <= b.ypos < Height && 0 <= b.xpos <= Width
  }

  /** Whether moving `b` writes the cell at row `r`, column `c`: its old
      cell is erased and its new cell is drawn. */
  predicate Touches(b: Ball, r: int, c: int) {
    (r == b.ypos && c == b.xpos) || (r == Step(b).ypos && c == Step(b).xpos)
  }

  /** The cell at row `r`, column `c` after `b` is moved, given its value
      `prev` before: the new cell shows the ball, which wins when the ball
      stays where it was; the old cell is emptied. */
  function CellAfterMove(prev: char, r: int, c: int, b: Ball): char {
    var n := Step(b);
    if r == n.ypos && c == n.xpos then b.printable
    else if r == b.ypos && c == b.xpos then EmptyCell
    else prev
  }

  /** The cell after each ball of `bs` is moved in turn. */
  function CellAfterTick(prev: char, r: int, c: int, bs: seq<Ball>): char
    decreases |bs|
  {
    if bs == [] then prev
    else CellAfterMove(CellAfterTick(prev, r, c, bs[..|bs| - 1]), r, c, bs[|bs| - 1])
  }

  /** What the box shows is explained by the balls: every non-empty cell
      inside the walls is the current cell of some ball and holds its glyph. */
  predicate Shows(box: Box, bs: seq<Ball>)
    requires box.Valid()
    reads box, box.cells
  {
    forall r, c :: 0 < r < Height - 1 && 0 < c < Width - 1 && box.cells[r, c] != EmptyCell ==>
      exists k :: 0 <= k < |bs| && bs[k].ypos == r && bs[k].xpos == c && box.cells[r, c] == bs[k].printable
  }

  /** A cell no ball of the tick touches keeps its value. */
  lemma {:induction false} UntouchedCellKept(prev: char, r: int, c: int, bs: seq<Ball>)
    requires forall k :: 0 <= k < |bs| ==> !Touches(bs[k], r, c)
    ensures CellAfterTick(prev, r, c, bs) == prev
    decreases |bs|
  {
    if bs != [] {
      UntouchedCellKept(prev, r, c, bs[..|bs| - 1]);
    }
  }

  /** Balls inside the walls never write a wall cell or a terminator, so a
      tick leaves the frame drawn by init_box as it was. */
  lemma WallsSurvive(prev: char, r: int, c: int, bs: seq<Ball>)
    requires forall k :: 0 <= k < |bs| ==> InBounds(bs[k])
    requires OnBorder(r, c)
    ensures CellAfterTick(prev, r, c, bs) == prev
  {
    UntouchedCellKept(prev, r, c, bs);
  }

  /** If a cell's glyph was explained by the balls before the tick, it is
      explained by the moved balls after it: a non-empty cell is the new
      cell of some ball and holds that ball's glyph. A glyph left behind is
      always erased, because the ball that drew it erases its own old cell
      when it moves. */
  lemma {:induction false} TickShowsOnlyBalls(prev: char, r: int, c: int, bs: seq<Ball>)
    requires prev != EmptyCell ==> exists k :: 0 <= k < |bs| && bs[k].ypos == r && bs[k].xpos == c
    ensures CellAfterTick(prev, r, c, bs) != EmptyCell ==>
      exists k :: 0 <= k < |bs| && Step(bs[k]).ypos == r && Step(bs[k]).xpos == c &&
        CellAfterTick(prev, r, c, bs) == bs[k].printable
    decreases |bs|
  {
    if bs != [] {
      var n := |bs| - 1;
      var front := bs[..n];
      var m := bs[n];
      if r == Step(m).ypos && c == Step(m).xpos {
        assert CellAfterTick(prev, r, c, bs) == m.printable;
      } else if r == m.ypos && c == m.xpos {
      } else {
        if prev != EmptyCell {
          var k :| 0 <= k < |bs| && bs[k].ypos == r && bs[k].xpos == c;
          assert k < n && front[k] == bs[k];
        }
        TickShowsOnlyBalls(prev, r, c, front);
        if CellAfterTick(prev, r, c, bs) != EmptyCell {
          var k :| 0 <= k < |front| && Step(front[k]).ypos == r && Step(front[k]).xpos == c &&
            CellAfterTick(prev, r, c, front) == front[k].printable;
          assert bs[k] == front[k];
        }
      }
    }
  }

  /** A scenario of last-writer-wins overlap: ball 0 moves into the
      cell ball 1 is leaving, and ball 1, moved later, erases it, so for one
      frame ball 0 is not drawn. */
  lemma LaterEraseHidesBall()
    ensures var bs := [Ball(4, 1, 5, 1, BallGlyph), Ball(5, 1, 6, 1, BallGlyph)];
      Step(bs[0]).xpos == 5 && Step(bs[0]).ypos == 6 &&
      CellAfterTick(EmptyCell, 6, 5, bs) == EmptyCell
  {
  }

  /** move_ball(&balls[i], bounds): the ball takes its next state and
      exactly two cells of the box are written. */
  method MoveBall(balls: array<Ball>, i: int, bounds: Box)
    requires bounds.Valid() && 0 <= i < balls.Length && IndexInBox(balls[i])
    modifies balls, bounds.cells
    ensures balls[i] == Step(old(balls[i]))
    ensures forall k :: 0 <= k < balls.Length && k != i ==> balls[k] == old(balls[k])
    ensures forall r, c :: 0 <= r < Height && 0 <= c <= Width ==>
      bounds.cells[r, c] == CellAfterMove(old(bounds.cells[r, c]), r, c, old(balls[i]))
  {
    var x := balls[i].xpos + balls[i].xdir * BallSpeed;
    var y := balls[i].ypos + balls[i].ydir * BallSpeed;

    bounds.cells[balls[i].ypos, balls[i].xpos] := EmptyCell;

    balls[i] := balls[i].(xpos := Max(1, Min(x, MaxXPos)));
    balls[i] := balls[i].(ypos := Max(1, Min(y, MaxYPos)));

    bounds.cells[balls[i].ypos, balls[i].xpos] := balls[i].printable;

    if balls[i].xpos == 1 || balls[i].xpos == MaxXPos {
      balls[i] := balls[i].(xdir := balls[i].xdir * -1);
    }
    if balls[i].ypos == 1 || balls[i].ypos == MaxYPos {
      balls[i] := balls[i].(ydir := balls[i].ydir * -1);
    }
  }

  /** One tick of main's loop: move_ball on each of the first `ballsLen`
      balls, in array order, against the one shared box. */
  method Tick(balls: array<Ball>, ballsLen: int, scene: Box)
    requires scene.Valid() && 0 <= ballsLen <= balls.Length
    requires forall k :: 0 <= k < ballsLen ==> IndexInBox(balls[k])
    modifies balls, scene.cells
    ensures forall k :: 0 <= k < ballsLen ==> balls[k] == Step(old(balls[k]))
    ensures forall k :: ballsLen <= k < balls.Length ==> balls[k] == old(balls[k])
    ensures forall r, c :: 0 <= r < Height && 0 <= c <= Width ==>
      scene.cells[r, c] == CellAfterTick(old(scene.cells[r, c]), r, c, old(balls[..ballsLen]))
    ensures old(scene.WallsIntact()) && (forall k :: 0 <= k < ballsLen ==> InBounds(old(balls[k]))) ==>
      scene.WallsIntact()
    ensures old(Shows(scene, balls[..ballsLen])) ==> Shows(scene, balls[..ballsLen])
  {
    ghost var before := balls[..];
    for i := 0 to ballsLen
      invariant forall k :: 0 <= k < i ==> balls[k] == Step(before[k])
      invariant forall k :: i <= k < balls.Length ==> balls[k] == before[k]
      invariant forall r, c :: 0 <= r < Height && 0 <= c <= Width ==>
        scene.cells[r, c] == CellAfterTick(old(scene.cells[r, c]), r, c, before[..i])
    {
      MoveBall(balls, i, scene);
      assert before[..i + 1][..i] == before[..i];
    }
    ghost var moved := before[..ballsLen];
    assert moved == old(balls[..ballsLen]);
    if old(scene.WallsIntact()) && (forall k :: 0 <= k < ballsLen ==> InBounds(old(balls[k]))) {
      forall r, c | 0 <= r < Height && 0 <= c <= Width && OnBorder(r, c)
        ensures scene.cells[r, c] == old(scene.cells[r, c])
      {
        WallsSurvive(old(scene.cells[r, c]), r, c, moved);
      }
    }
    if old(Shows(scene, balls[..ballsLen])) {
      forall r, c | 0 < r < Height - 1 && 0 < c < Width - 1 && scene.cells[r, c] != EmptyCell
        ensures exists k :: 0 <= k < ballsLen && balls[k].ypos == r && balls[k].xpos == c
                              && scene.cells[r, c] == balls[k].printable
      {
        TickShowsOnlyBalls(old(scene.cells[r, c]), r, c, moved);
        var k :| 0 <= k < ballsLen && Step(moved[k]).ypos == r && Step(moved[k]).xpos == c &&
          scene.cells[r, c] == moved[k].printable;
        assert balls[k] == Step(moved[k]);
      }
    }
  }
}
