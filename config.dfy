/** The compile-time constants of bounce.c: the box dimensions, the glyphs
    it is drawn with, the ball speed and the ball cap. */
module Config {
  const MaxBalls: int := 64
  const Height: int := 24
  const Width: int := 80
  /** Largest coordinate a ball may take on each axis: the last interior row
      and column, just inside the bottom and right walls. */
  const MaxYPos: int := Height - 2
  const MaxXPos: int := Width - 2

  const HWall: char := '-'
  const VWall: char := '|'
  const EmptyCell: char := ' '
  /** The terminator written after the last column of every row. */
  const Nul: char := '\0'
  /** The glyph every spawned ball is drawn with. */
  const BallGlyph: char := 'o'

  const BallSpeed: int := 1
}
