/** main of bounce.c without its I/O: the ball count taken from the command
    line, the random spawn of the balls, and a bounded run of the frame
    loop. */
module Driver {
  import opened Config
  import opened Kinematics
  import opened Arena
  import opened Simulator

  datatype Option<T> = None | Some(value: T)

  /** balls_len after the argument check (bounce.c:165-175). `arg` is
      atoi(argv[1]) when an argument is given, None otherwise. */
  function BallCount(arg: Option<int>): (n: int)
    ensures 1 <= n <= MaxBalls
    ensures arg.None? ==> n == 1
    ensures arg.Some? && 1 <= arg.value <= MaxBalls ==> n == arg.value
    ensures arg.Some? && arg.value <= 0 ==> n == 1
    ensures arg.Some? && arg.value > MaxBalls ==> n == MaxBalls
  {
    match arg
    case None => 1
    case Some(v) => if v <= 0 then 1 else if v > MaxBalls then MaxBalls else v
  }

  /** One ball from four consecutive values of random() (bounce.c:185-189):
      a position inside the walls, each direction +1 on an even value and
      -1 on an odd one, and the glyph 'o'. */
  function SpawnBall(rx: nat, rxdir: nat, ry: nat, rydir: nat): (b: Ball)
    ensures InBounds(b) && b.printable == BallGlyph
    ensures b.xdir == 1 <==> rxdir % 2 == 0
    ensures b.ydir == 1 <==> rydir % 2 == 0
  {
    Ball(rx % MaxXPos + 1, if rxdir % 2 == 0 then 1 else -1,
         ry % MaxYPos + 1, if rydir % 2 == 0 then 1 else -1,
         BallGlyph)
  }

  /** Every ball state inside the walls with the glyph 'o' can be spawned. */
  lemma SpawnReachesEveryBall(b: Ball)
    requires InBounds(b) && b.printable == BallGlyph
    ensures exists rx: nat, rxdir: nat, ry: nat, rydir: nat :: SpawnBall(rx, rxdir, ry, rydir) == b
  {
    var rx: nat, ry: nat := b.xpos - 1, b.ypos - 1;
    var rxdir: nat := if b.xdir == 1 then 0 else 1;
    var rydir: nat := if b.ydir == 1 then 0 else 1;
    assert SpawnBall(rx, rxdir, ry, rydir) == b;
  }

  /** The spawn loop of main: ball `k` is built from the values random()
      returns on its calls 4k to 4k+3. */
  method SpawnBalls(balls: array<Ball>, ballsLen: int, random: nat -> nat)
    requires 0 <= ballsLen <= balls.Length
    modifies balls
    ensures forall k :: 0 <= k < ballsLen ==>
      balls[k] == SpawnBall(random(4 * k), random(4 * k + 1), random(4 * k + 2), random(4 * k + 3))
    ensures forall k :: ballsLen <= k < balls.Length ==> balls[k] == old(balls[k])
  {
    for i := 0 to ballsLen
      invariant forall k :: 0 <= k < i ==>
        balls[k] == SpawnBall(random(4 * k), random(4 * k + 1), random(4 * k + 2), random(4 * k + 3))
      invariant forall k :: i <= k < balls.Length ==> balls[k] == old(balls[k])
    {
      balls[i] := SpawnBall(random(4 * i), random(4 * i + 1), random(4 * i + 2), random(4 * i + 3));
    }
  }

  /** The shape of every frame main prints: HEIGHT lines of exactly WIDTH
      characters, '-' along the top and bottom, '|' at both ends of every
      other line, and only empty cells and ball glyphs in between. */
  predicate IsFrame(lines: seq<seq<char>>) {
    |lines| == Height &&
    (forall r :: 0 <= r < Height ==> |lines[r]| == Width) &&
    (forall c :: 0 <= c < Width ==> lines[0][c] == HWall && lines[Height - 1][c] == HWall) &&
    (forall r :: 0 < r < Height - 1 ==> lines[r][0] == VWall && lines[r][Width - 1] == VWall) &&
    (forall r, c :: 0 < r < Height - 1 && 0 < c < Width - 1 ==>
      lines[r][c] == EmptyCell || lines[r][c] == BallGlyph)
  }

  /** A frame with no ball drawn. */
  predicate IsEmptyFrame(lines: seq<seq<char>>) {
    IsFrame(lines) &&
    forall r, c :: 0 < r < Height - 1 && 0 < c < Width - 1 ==> lines[r][c] == EmptyCell
  }

  /** main run for `ticks` iterations of its endless loop: the frames it
      prints. The balls are spawned before the box is initialised and are
      first drawn by move_ball, so the first frame is an empty box. */
  method Animate(arg: Option<int>, random: nat -> nat, ticks: nat) returns (frames: seq<seq<seq<char>>>)
    ensures |frames| == ticks
    ensures forall t :: 0 <= t < ticks ==> IsFrame(frames[t])
    ensures ticks > 0 ==> IsEmptyFrame(frames[0])
  {
    var scene := new Box();
    var balls := new Ball[MaxBalls];
    var ballsLen := BallCount(arg);

    SpawnBalls(balls, ballsLen, random);
    scene.Init();

    frames := [];
    for t := 0 to ticks
      invariant |frames| == t
      invariant scene.WallsIntact()
      invariant forall k :: 0 <= k < ballsLen ==> InBounds(balls[k]) && balls[k].printable == BallGlyph
      invariant Shows(scene, balls[..ballsLen])
      invariant forall s :: 0 <= s < t ==> IsFrame(frames[s])
      invariant t > 0 ==> IsEmptyFrame(frames[0])
      invariant t == 0 ==> scene.InteriorEmpty()
    {
      assert scene.RowsUnbroken() by {
        forall r, c | 0 <= r < Height && 0 <= c < Width
          ensures scene.cells[r, c] != Nul
        {
          if OnBorder(r, c) {
            assert scene.cells[r, c] == Blank(r, c);
          } else if scene.cells[r, c] != EmptyCell {
            var k :| 0 <= k < ballsLen && balls[k].ypos == r && balls[k].xpos == c
                     && scene.cells[r, c] == balls[k].printable;
          }
        }
      }
      var lines := scene.DrawScene();
      assert IsFrame(lines) by {
        forall r, c | 0 <= r < Height && 0 <= c < Width
          ensures lines[r][c] == scene.cells[r, c]
          ensures OnBorder(r, c) ==> lines[r][c] == Blank(r, c)
        {
          assert scene.PrintsAs(r, lines[r]);
        }
        forall r, c | 0 < r < Height - 1 && 0 < c < Width - 1 && scene.cells[r, c] != EmptyCell
          ensures scene.cells[r, c] == BallGlyph
        {
          var k :| 0 <= k < ballsLen && balls[k].ypos == r && balls[k].xpos == c
                   && scene.cells[r, c] == balls[k].printable;
        }
      }
      frames := frames + [lines];

      label BeforeTick:
      Tick(balls, ballsLen, scene);
      forall k | 0 <= k < ballsLen
        ensures InBounds(balls[k]) && balls[k].printable == BallGlyph
      {
        StepKeepsInBounds(old@BeforeTick(balls[k]));
      }
    }
  }
}
