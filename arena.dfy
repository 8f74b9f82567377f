/** The Box of bounce.c: a fixed grid of HEIGHT rows, each WIDTH characters
    followed by a NUL, so that every row is a C string (bounce.c:54-56). */
module Arena {
  import opened Config

  class Box {
    const cells: array2<char>

    predicate Valid()
      reads this
    {
      cells.Length0 == Height && cells.Length1 == Width + 1
    }

    /** A Box is declared on the stack; its cells hold whatever was there
        until init_box fills them. */
    constructor ()
      ensures Valid() && fresh(cells)
    {
      cells := new char[Height, Width + 1];
    }

    /** The frame init_box draws is in place: every border cell and every
        terminator holds what Blank gives for it. */
    predicate WallsIntact()
      requires Valid()
      reads this, cells
    {
      forall r, c :: 0 <= r < Height && 0 <= c <= Width && OnBorder(r, c) ==> cells[r, c] == Blank(r, c)
    }

    /** Every cell strictly inside the walls holds the empty glyph. */
    predicate InteriorEmpty()
      requires Valid()
      reads this, cells
    {
      forall r, c :: 0 < r < Height - 1 && 0 < c < Width - 1 ==> cells[r, c] == EmptyCell
    }

    /** No row is cut short by a NUL before its last column. */
    predicate RowsUnbroken()
      requires Valid()
      reads this, cells
    {
      forall r, c :: 0 <= r < Height && 0 <= c < Width ==> cells[r, c] != Nul
    }

    /** `line` is what printf("%s") writes for row `r`: the characters of
        the row up to, and not including, its first NUL. */
    predicate PrintsAs(r: int, line: seq<char>)
      requires Valid() && 0 <= r < Height
      reads this, cells
    {
      |line| <= Width && cells[r, |line|] == Nul &&
      forall c :: 0 <= c < |line| ==> line[c] == cells[r, c] && cells[r, c] != Nul
    }

    /** init_box: walls on the border, empty cells inside, every row
        terminated. Together the two predicates fix every cell. */
    method Init()
      requires Valid()
      modifies cells
      ensures WallsIntact() && InteriorEmpty()
    {
      for i := 0 to Height
        invariant forall r, c :: 0 <= r < i && 0 <= c <= Width ==> cells[r, c] == Blank(r, c)
      {
        for j := 0 to Width
          invariant forall r, c :: 0 <= r < i && 0 <= c <= Width ==> cells[r, c] == Blank(r, c)
          invariant forall c :: 0 <= c < j ==> cells[i, c] == Blank(i, c)
        {
          if i == 0 || i == Height - 1 {
            cells[i, j] := HWall;
          } else if j == 0 || j == Width - 1 {
            cells[i, j] := VWall;
          } else {
            cells[i, j] := EmptyCell;
          }
        }
        cells[i, Width] := Nul;
      }
    }

    /** draw_scene: the rows it prints, top row first, as the lines of one
        frame (the trailing newline of each is left out). */
    method DrawScene() returns (lines: seq<seq<char>>)
      requires Valid()
      requires forall r :: 0 <= r < Height ==> cells[r, Width] == Nul
      ensures |lines| == Height
      ensures forall r :: 0 <= r < Height ==> PrintsAs(r, lines[r])
      ensures RowsUnbroken() ==> forall r :: 0 <= r < Height ==> |lines[r]| == Width
    {
      lines := [];
      for i := 0 to Height
        invariant |lines| == i
        invariant forall r :: 0 <= r < i ==> PrintsAs(r, lines[r])
      {
        var line := [];
        var j := 0;
        while cells[i, j] != Nul
          invariant 0 <= j <= Width && |line| == j
          invariant forall c :: 0 <= c < j ==> line[c] == cells[i, c] && cells[i, c] != Nul
          decreases Width - j
        {
          line := line + [cells[i, j]];
          j := j + 1;
        }
        lines := lines + [line];
      }
    }
  }

  /** Cells outside the interior: the top and bottom rows, the first and
      last columns, and the terminator column. */
  predicate OnBorder(r: int, c: int) {
    r == 0 || r == Height - 1 || c == 0 || c == Width - 1 || c == Width
  }

  /** The cell init_box writes at row `r`, column `c`. */
  function Blank(r: int, c: int): char {
    if c == Width then Nul
    else if r == 0 || r == Height - 1 then HWall
    else if c == 0 || c == Width - 1 then VWall
    else EmptyCell
  }

  /** The picture init_box draws: '-' across the top and bottom rows, '|'
      down the first and last columns of the rows between, blanks inside,
      and a NUL after the last column of every row, so that no row is cut
      short. */
  lemma BlankPicture(r: int, c: int)
    requires 0 <= r < Height && 0 <= c <= Width
    ensures c < Width && (r == 0 || r == Height - 1) ==> Blank(r, c) == HWall
    ensures c < Width && 0 < r < Height - 1 && (c == 0 || c == Width - 1) ==> Blank(r, c) == VWall
    ensures 0 < r < Height - 1 && 0 < c < Width - 1 ==> Blank(r, c) == EmptyCell
    ensures Blank(r, c) == Nul <==> c == Width
  {
  }
}
