/** The source keeps both grids as `String[][]`; here they are `array2<Mark>`,
    read as Grid values through GridOf. */
module Arrays {
  import opened Marks
  import opened Grids

  /** The contents of a 2D array as a grid value: `g[i][j] == a[i, j]`. */
  function GridOf(a: array2<Mark>): (g: Grid)
    reads a
    ensures |g| == a.Length0
    ensures forall i :: 0 <= i < a.Length0 ==> |g[i]| == a.Length1
    ensures forall i, j :: 0 <= i < a.Length0 && 0 <= j < a.Length1 ==> g[i][j] == a[i, j]
  {
    seq(a.Length0, i requires 0 <= i < a.Length0 reads a =>
      seq(a.Length1, j requires 0 <= j < a.Length1 reads a => a[i, j]))
  }

  /** Two grids of the same shape with the same cells are equal. */
  lemma GridExt(g: Grid, h: Grid)
    requires |g| == |h| && (forall i :: 0 <= i < |g| ==> |g[i]| == |h[i]|)
    requires forall i, j :: 0 <= i < |g| && 0 <= j < |g[i]| ==> g[i][j] == h[i][j]
    ensures g == h
  {
    forall i | 0 <= i < |g| ensures g[i] == h[i] {
      assert forall j :: 0 <= j < |g[i]| ==> g[i][j] == h[i][j];
    }
  }

  /** The assignment `a[x][y] = m`, stated on the grid value. */
  method SetCell(a: array2<Mark>, x: int, y: int, m: Mark)
    requires 0 <= x < a.Length0 && 0 <= y < a.Length1
    modifies a
    ensures GridOf(a) == Place(old(GridOf(a)), x, y, m)
  {
    ghost var g0 := GridOf(a);
    a[x, y] := m;
    GridExt(GridOf(a), Place(g0, x, y, m));
  }

  /** Copies every cell of src into dst. */
  method CopyGrid(dst: array2<Mark>, src: array2<Mark>)
    requires dst != src && dst.Length0 == src.Length0 && dst.Length1 == src.Length1
    modifies dst
    ensures GridOf(dst) == GridOf(src)
  {
    for i := 0 to dst.Length0
      invariant forall a, b :: 0 <= a < i && 0 <= b < dst.Length1 ==> dst[a, b] == src[a, b]
    {
      for k := 0 to dst.Length1
        invariant forall a, b :: 0 <= a < i && 0 <= b < dst.Length1 ==> dst[a, b] == src[a, b]
        invariant forall b :: 0 <= b < k ==> dst[i, b] == src[i, b]
      {
        dst[i, k] := src[i, k];
      }
    }
    GridExt(GridOf(dst), GridOf(src));
  }

  /** cloneBoard: a new array with the same cells; writing to it cannot
      touch the original. */
  method CloneBoard(board: array2<Mark>) returns (clonedBoard: array2<Mark>)
    ensures fresh(clonedBoard)
    ensures clonedBoard.Length0 == board.Length0 && clonedBoard.Length1 == board.Length1
    ensures GridOf(clonedBoard) == GridOf(board)
  {
    clonedBoard := new Mark[board.Length0, board.Length1];
    CopyGrid(clonedBoard, board);
  }
}
