/**
 * The matrix transposes of trans.c. `int A[N][M]` is an `array2<int>` with
 * N rows and M columns, `int B[M][N]` one with M rows and N columns; every
 * function writes B in place so that B[j][i] == A[i][j]. The caller always
 * passes two different arrays.
 */
module Trans {

  /** B is the transpose of A: the shapes match and B[j][i] == A[i][j] everywhere. */
  predicate IsTranspose(A: array2<int>, B: array2<int>)
    reads A, B
  {
    B.Length0 == A.Length1 && B.Length1 == A.Length0
    && forall i, j :: 0 <= i < A.Length0 && 0 <= j < A.Length1 ==> B[j, i] == A[i, j]
  }

  /** The shape `int A[N][M], int B[M][N]` of every transpose's arguments. */
  predicate Shapes(M: nat, N: nat, A: array2<int>, B: array2<int>) {
    A.Length0 == N && A.Length1 == M && B.Length0 == M && B.Length1 == N
  }

  /** A transpose of A is unique: two arrays that both are one hold the same values. */
  lemma TransposeUnique(A: array2<int>, B: array2<int>, C: array2<int>)
    requires IsTranspose(A, B) && IsTranspose(A, C)
    ensures B.Length0 == C.Length0 && B.Length1 == C.Length1
    ensures forall p, q :: 0 <= p < B.Length0 && 0 <= q < B.Length1 ==> B[p, q] == C[p, q]
  {
    forall p, q | 0 <= p < B.Length0 && 0 <= q < B.Length1
      ensures B[p, q] == C[p, q]
    {
      assert B[p, q] == A[q, p];
    }
  }

  // ---------------------------------------------------------------------
  // `is_transpose`
  // ---------------------------------------------------------------------

  /** `is_transpose`: 1 when B is the transpose of A, 0 at the first cell that differs. */
  method IsTransposeCheck(M: nat, N: nat, A: array2<int>, B: array2<int>) returns (r: int)
    requires Shapes(M, N, A, B)
    ensures r == 0 || r == 1
    ensures r == 1 <==> IsTranspose(A, B)
  {
    var i := 0;
    while i < N
      invariant 0 <= i <= N
      invariant forall p, q :: 0 <= p < i && 0 <= q < M ==> A[p, q] == B[q, p]
    {
      var j := 0;
      while j < M
        invariant 0 <= j <= M
        invariant forall p, q :: 0 <= p < i && 0 <= q < M ==> A[p, q] == B[q, p]
        invariant forall q :: 0 <= q < j ==> A[i, q] == B[q, i]
      {
        if A[i, j] != B[j, i] {
          return 0;
        }
        j := j + 1;
      }
      i := i + 1;
    }
    return 1;
  }

  // ---------------------------------------------------------------------
  // `trans` and `trans_61_67`: row-wise scans
  // ---------------------------------------------------------------------

  /** `trans`: the baseline row-by-row transpose. */
  method Trans(M: nat, N: nat, A: array2<int>, B: array2<int>)
    requires Shapes(M, N, A, B) && A != B
    modifies B
    ensures IsTranspose(A, B)
  {
    var i := 0;
    while i < N
      invariant 0 <= i <= N
      invariant forall p, q :: 0 <= p < i && 0 <= q < M ==> B[q, p] == A[p, q]
    {
      var j := 0;
      while j < M
        invariant 0 <= j <= M
        invariant forall p, q :: 0 <= p < i && 0 <= q < M ==> B[q, p] == A[p, q]
        invariant forall q :: 0 <= q < j ==> B[q, i] == A[i, q]
      {
        var tmp := A[i, j];
        B[j, i] := tmp;
        j := j + 1;
      }
      i := i + 1;
    }
  }

  /**
   * `trans_61_67`: strips of 8 columns of A, each scanned row by row; the
   * last strip stops at column M when M is not a multiple of 8.
   */
  method Trans61x67(M: nat, N: nat, A: array2<int>, B: array2<int>)
    requires Shapes(M, N, A, B) && A != B
    modifies B
    ensures IsTranspose(A, B)
  {
    var s := 0;
    while s < M
      invariant 0 <= s && s % 8 == 0
      invariant forall p, q :: 0 <= p < N && 0 <= q < M && q < s ==> B[q, p] == A[p, q]
    {
      var i := 0;
      while i < N
        invariant 0 <= i <= N
        invariant forall p, q :: 0 <= p < N && 0 <= q < M && (q < s || (q < s + 8 && p < i))
                    ==> B[q, p] == A[p, q]
      {
        var j := s;
        while j < s + 8 && j < M
          invariant s <= j <= s + 8 && j <= M
          invariant forall p, q :: 0 <= p < N && 0 <= q < M && (q < s || (q < s + 8 && p < i))
                      ==> B[q, p] == A[p, q]
          invariant forall q :: s <= q < j ==> B[q, i] == A[i, q]
        {
          var tmp := A[i, j];
          B[j, i] := tmp;
          j := j + 1;
        }
        i := i + 1;
      }
      s := s + 8;
    }
  }

  // ---------------------------------------------------------------------
  // `trans_32_32` and `trans_p4`: square blocks with a deferred diagonal
  // ---------------------------------------------------------------------

  /**
   * Cell (p, q) of A has been visited by the blocked scan whose current
   * block starts at row r0 and column c0 (blocks of k x k, row blocks
   * outermost), and which is now at row i, column j of that block.
   */
  predicate Visited(k: nat, r0: int, c0: int, i: int, j: int, p: int, q: int) {
    p < r0
    || (r0 <= p < r0 + k && q < c0)
    || (r0 <= p < i && c0 <= q < c0 + k)
    || (p == i && c0 <= q < j)
  }

  /**
   * The diagonal index the scan met last at that point (-1 before the
   * first): diagonal blocks lie on c0 == r0, so every earlier diagonal block
   * is complete, and inside a diagonal block row i has met its diagonal once
   * j is past it.
   */
  function LastDiagonal(k: nat, r0: int, c0: int, i: int, j: int): int {
    if c0 > r0 then r0 + k - 1
    else if c0 < r0 then r0 - 1
    else if j > i then i
    else i - 1
  }

  /** Every visited cell off the diagonal has been written. */
  ghost predicate OffDiagonalDone(A: array2<int>, B: array2<int>, k: nat, r0: int, c0: int, i: int, j: int)
    reads A, B
    requires A.Length0 == A.Length1 == B.Length0 == B.Length1
  {
    forall p, q :: 0 <= p < A.Length0 && 0 <= q < A.Length0 && p != q && Visited(k, r0, c0, i, j, p, q)
      ==> B[q, p] == A[p, q]
  }

  /** Every diagonal cell below `upto` has been written. */
  ghost predicate DiagonalDone(A: array2<int>, B: array2<int>, upto: int)
    reads A, B
    requires A.Length0 == A.Length1 == B.Length0 == B.Length1
  {
    forall d :: 0 <= d < upto && d < A.Length0 ==> B[d, d] == A[d, d]
  }

  /** `prev` holds the diagonal element met last, if any. */
  ghost predicate PrevHolds(A: array2<int>, prev: int, last: int)
    reads A
    requires A.Length0 == A.Length1
  {
    0 <= last < A.Length0 ==> prev == A[last, last]
  }

  /**
   * The scheme shared by `trans_32_32` (k = 8) and `trans_p4` (k = 4) on
   * an n x n matrix, n = k * blocks: blocks of k x k, row block by row block.
   * A diagonal element is kept in `prev` and written only when the scan
   * meets the next diagonal element; the last one is written at the end.
   */
  method DeferredDiagonalTranspose(blocks: nat, k: nat, A: array2<int>, B: array2<int>)
    requires blocks > 0 && k > 0
    requires A.Length0 == A.Length1 == B.Length0 == B.Length1 == k * blocks
    requires A != B
    modifies B
    ensures IsTranspose(A, B)
  {
    var n := k * blocks;
    var prev: int := *;
    var x := 0;
    var r0 := 0;
    while x < blocks
      invariant 0 <= x <= blocks && r0 == k * x && r0 <= n
      invariant OffDiagonalDone(A, B, k, r0, 0, r0, 0)
      invariant DiagonalDone(A, B, r0 - 1)
      invariant PrevHolds(A, prev, r0 - 1)
    {
      BlockStep(k, x, blocks);
      var y := 0;
      var c0 := 0;
      while y < blocks
        invariant 0 <= y <= blocks && c0 == k * y && c0 <= n
        invariant r0 + k <= n
        invariant OffDiagonalDone(A, B, k, r0, c0, r0, c0)
        invariant DiagonalDone(A, B, LastDiagonal(k, r0, c0, r0, c0))
        invariant PrevHolds(A, prev, LastDiagonal(k, r0, c0, r0, c0))
      {
        BlockStep(k, y, blocks);
        BlocksAligned(k, x, y);
        prev := TransposeBlock(k, A, B, r0, c0, prev);
        y := y + 1;
        c0 := c0 + k;
      }
      assert LastDiagonal(k, r0, c0, r0, c0) == r0 + k - 1;
      OffDiagonalDoneNextRowBlock(A, B, k, r0, c0);
      x := x + 1;
      r0 := r0 + k;
    }
    B[n - 1, n - 1] := A[n - 1, n - 1];
    forall p, q | 0 <= p < n && 0 <= q < n
      ensures B[q, p] == A[p, q]
    {
      assert Visited(k, r0, 0, r0, 0, p, q);
    }
  }

  /** The block after block x starts k further on and still fits. */
  lemma BlockStep(k: nat, x: nat, blocks: nat)
    requires x < blocks
    ensures k * (x + 1) == k * x + k <= k * blocks
  {
    MulMono(k, x + 1, blocks);
  }

  lemma MulMono(k: nat, x: nat, y: nat)
    requires x <= y
    ensures k * x <= k * y
  {
    assert k * y - k * x == k * (y - x);
  }

  /** Two blocks of a k x k grid are the same or do not overlap. */
  lemma BlocksAligned(k: nat, x: nat, y: nat)
    ensures k * x == k * y || k * x + k <= k * y || k * y + k <= k * x
  {
    if x < y {
      MulMono(k, x + 1, y);
    } else if y < x {
      MulMono(k, y + 1, x);
    }
  }

  /** Once a row block has been scanned to the last column, the next row block starts. */
  lemma OffDiagonalDoneNextRowBlock(A: array2<int>, B: array2<int>, k: nat, r0: int, c0: int)
    requires A.Length0 == A.Length1 == B.Length0 == B.Length1 <= c0
    requires OffDiagonalDone(A, B, k, r0, c0, r0, c0)
    ensures OffDiagonalDone(A, B, k, r0 + k, 0, r0 + k, 0)
  {
  }

  /**
   * One k x k block at rows r0.., columns c0.. of A (the two inner loops of
   * `trans_32_32` and `trans_p4`); `prev` comes in and goes out.
   */
  method TransposeBlock(k: nat, A: array2<int>, B: array2<int>, r0: int, c0: int, prevIn: int)
    returns (prev: int)
    requires A.Length0 == A.Length1 == B.Length0 == B.Length1 && A != B
    requires 0 <= r0 && r0 + k <= A.Length0 && 0 <= c0 && c0 + k <= A.Length0
    requires r0 == c0 || r0 + k <= c0 || c0 + k <= r0
    requires OffDiagonalDone(A, B, k, r0, c0, r0, c0)
    requires DiagonalDone(A, B, LastDiagonal(k, r0, c0, r0, c0))
    requires PrevHolds(A, prevIn, LastDiagonal(k, r0, c0, r0, c0))
    modifies B
    ensures OffDiagonalDone(A, B, k, r0, c0 + k, r0, c0 + k)
    ensures DiagonalDone(A, B, LastDiagonal(k, r0, c0 + k, r0, c0 + k))
    ensures PrevHolds(A, prev, LastDiagonal(k, r0, c0 + k, r0, c0 + k))
  {
    prev := prevIn;
    var i := r0;
    while i < r0 + k
      invariant r0 <= i <= r0 + k
      invariant OffDiagonalDone(A, B, k, r0, c0, i, c0)
      invariant DiagonalDone(A, B, LastDiagonal(k, r0, c0, i, c0))
      invariant PrevHolds(A, prev, LastDiagonal(k, r0, c0, i, c0))
    {
      prev := TransposeBlockRow(k, A, B, r0, c0, i, prev);
      i := i + 1;
    }
  }

  /** Row i of the block at rows r0.., columns c0.. (the innermost loop). */
  method TransposeBlockRow(k: nat, A: array2<int>, B: array2<int>, r0: int, c0: int, i: int, prevIn: int)
    returns (prev: int)
    requires A.Length0 == A.Length1 == B.Length0 == B.Length1 && A != B
    requires 0 <= r0 <= i < r0 + k <= A.Length0 && 0 <= c0 && c0 + k <= A.Length0
    requires r0 == c0 || r0 + k <= c0 || c0 + k <= r0
    requires OffDiagonalDone(A, B, k, r0, c0, i, c0)
    requires DiagonalDone(A, B, LastDiagonal(k, r0, c0, i, c0))
    requires PrevHolds(A, prevIn, LastDiagonal(k, r0, c0, i, c0))
    modifies B
    ensures OffDiagonalDone(A, B, k, r0, c0, i + 1, c0)
    ensures DiagonalDone(A, B, LastDiagonal(k, r0, c0, i + 1, c0))
    ensures PrevHolds(A, prev, LastDiagonal(k, r0, c0, i + 1, c0))
  {
    prev := prevIn;
    var j := c0;
    while j < c0 + k
      invariant c0 <= j <= c0 + k
      invariant OffDiagonalDone(A, B, k, r0, c0, i, j)
      invariant DiagonalDone(A, B, LastDiagonal(k, r0, c0, i, j))
      invariant PrevHolds(A, prev, LastDiagonal(k, r0, c0, i, j))
    {
      var tmp := A[i, j];
      if i == j {
        if i > 0 {
          B[j - 1, i - 1] := prev;
        }
        prev := tmp;
      } else {
        B[j, i] := tmp;
      }
      j := j + 1;
    }
  }

  /** `trans_32_32`: 8 x 8 blocks of a 32 x 32 matrix. */
  method Trans32x32(A: array2<int>, B: array2<int>)
    requires A.Length0 == A.Length1 == B.Length0 == B.Length1 == 32 && A != B
    modifies B
    ensures IsTranspose(A, B)
  {
    DeferredDiagonalTranspose(4, 8, A, B);
  }

  /** `trans_p4`: 4 x 4 blocks of a 64 x 64 matrix. */
  method TransP4(A: array2<int>, B: array2<int>)
    requires A.Length0 == A.Length1 == B.Length0 == B.Length1 == 64 && A != B
    modifies B
    ensures IsTranspose(A, B)
  {
    DeferredDiagonalTranspose(16, 4, A, B);
  }

  // ---------------------------------------------------------------------
  // `trans_64_64`: 8 x 8 blocks moved as four 4 x 4 quadrants
  // ---------------------------------------------------------------------

  /**
   * `trans_64_64`: 8 x 8 blocks, column block by column block. Inside a
   * block, A's upper-right quadrant first goes transposed into B's
   * upper-right quadrant (the wrong one); it is then carried to B's
   * lower-left quadrant through locals while B's upper-right is filled from
   * A's lower-left; B's lower-right comes last.
   */
  method Trans64x64(A: array2<int>, B: array2<int>)
    requires A.Length0 == A.Length1 == B.Length0 == B.Length1 == 64 && A != B
    modifies B
    ensures IsTranspose(A, B)
  {
    var j := 0;
    while j < 64
      invariant 0 <= j <= 64 && j % 8 == 0
      invariant forall p, q :: 0 <= p < 64 && 0 <= q < j ==> B[q, p] == A[p, q]
    {
      var i := 0;
      while i < 64
        invariant 0 <= i <= 64 && i % 8 == 0
        invariant forall p, q :: 0 <= p < 64 && 0 <= q < 64 && (q < j || (q < j + 8 && p < i))
                    ==> B[q, p] == A[p, q]
      {
        TransposeBlock8x8(A, B, i, j);
        i := i + 8;
      }
      j := j + 8;
    }
  }

  /**
   * The block of A at rows i..i+7, columns j..j+7 goes transposed into B
   * at rows j..j+7, columns i..i+7; the rest of B is left as it was.
   */
  method TransposeBlock8x8(A: array2<int>, B: array2<int>, i: int, j: int)
    requires A.Length0 == A.Length1 == B.Length0 == B.Length1 == 64 && A != B
    requires 0 <= i <= 56 && 0 <= j <= 56
    modifies B
    ensures forall p, q :: i <= p < i + 8 && j <= q < j + 8 ==> B[q, p] == A[p, q]
    ensures forall u, v :: 0 <= u < 64 && 0 <= v < 64 && !(j <= u < j + 8 && i <= v < i + 8)
              ==> B[u, v] == old(B[u, v])
  {
    UpperQuadrants(A, B, i, j);
    SwapQuadrants(A, B, i, j);
    LowerRightQuadrant(A, B, i, j);
  }

  /**
   * The first loop of a block: rows i..i+3 of A. Their left half goes
   * transposed into B's upper-left quadrant and their right half,
   * transposed, into B's upper-right quadrant, where it does not belong.
   */
  method UpperQuadrants(A: array2<int>, B: array2<int>, i: int, j: int)
    requires A.Length0 == A.Length1 == B.Length0 == B.Length1 == 64 && A != B
    requires 0 <= i <= 56 && 0 <= j <= 56
    modifies B
    ensures forall u, v :: j <= u < j + 4 && i <= v < i + 4 ==> B[u, v] == A[v, u]
    ensures forall u, v :: j <= u < j + 4 && i + 4 <= v < i + 8 ==> B[u, v] == A[v - 4, u + 4]
    ensures forall u, v :: 0 <= u < 64 && 0 <= v < 64 && !(j <= u < j + 4 && i <= v < i + 8)
              ==> B[u, v] == old(B[u, v])
  {
    var k := i;
    while k < i + 4
      invariant i <= k <= i + 4
      invariant forall u, v :: j <= u < j + 4 && i <= v < k ==> B[u, v] == A[v, u]
      invariant forall u, v :: j <= u < j + 4 && i + 4 <= v < k + 4 ==> B[u, v] == A[v - 4, u + 4]
      invariant forall u, v :: 0 <= u < 64 && 0 <= v < 64 && !(j <= u < j + 4 && i <= v < i + 8)
                  ==> B[u, v] == old(B[u, v])
    {
      PlaceRow(A, B, j, k);
      k := k + 1;
    }
  }

  /**
   * One pass of the first loop: row k of A, columns j..j+7, read into
   * locals; its left half goes to column k of B and its right half to
   * column k + 4, both in rows j..j+3.
   */
  method PlaceRow(A: array2<int>, B: array2<int>, j: int, k: int)
    requires A.Length0 == A.Length1 == B.Length0 == B.Length1 == 64 && A != B
    requires 0 <= j <= 56 && 0 <= k < 60
    modifies B
    ensures forall u, v :: j <= u < j + 4 && v == k ==> B[u, v] == A[v, u]
    ensures forall u, v :: j <= u < j + 4 && v == k + 4 ==> B[u, v] == A[v - 4, u + 4]
    ensures forall u, v :: 0 <= u < 64 && 0 <= v < 64 && !(j <= u < j + 4 && (v == k || v == k + 4))
              ==> B[u, v] == old(B[u, v])
  {
    var tmp1, tmp2, tmp3, tmp4 := A[k, j], A[k, j + 1], A[k, j + 2], A[k, j + 3];
    var tmp5, tmp6, tmp7, tmp8 := A[k, j + 4], A[k, j + 5], A[k, j + 6], A[k, j + 7];
    B[j, k] := tmp1; B[j, k + 4] := tmp5; B[j + 1, k] := tmp2; B[j + 1, k + 4] := tmp6;
    B[j + 2, k] := tmp3; B[j + 2, k + 4] := tmp7; B[j + 3, k] := tmp4; B[j + 3, k + 4] := tmp8;
  }

  /**
   * The second loop of a block: row k of B's upper-right quadrant moves
   * through locals to row k + 4, in the lower-left quadrant, and column k of
   * A's lower-left quadrant takes its place.
   */
  method SwapQuadrants(A: array2<int>, B: array2<int>, i: int, j: int)
    requires A.Length0 == A.Length1 == B.Length0 == B.Length1 == 64 && A != B
    requires 0 <= i <= 56 && 0 <= j <= 56
    requires forall u, v :: j <= u < j + 4 && i + 4 <= v < i + 8 ==> B[u, v] == A[v - 4, u + 4]
    modifies B
    ensures forall u, v :: j <= u < j + 4 && i + 4 <= v < i + 8 ==> B[u, v] == A[v, u]
    ensures forall u, v :: j + 4 <= u < j + 8 && i <= v < i + 4 ==> B[u, v] == A[v, u]
    ensures forall u, v :: j <= u < j + 4 && i <= v < i + 4 ==> B[u, v] == old(B[u, v])
    ensures forall u, v :: 0 <= u < 64 && 0 <= v < 64 && !(j <= u < j + 8 && i <= v < i + 8)
              ==> B[u, v] == old(B[u, v])
  {
    var k := j;
    while k < j + 4
      invariant j <= k <= j + 4
      invariant forall u, v :: j <= u < k && i + 4 <= v < i + 8 ==> B[u, v] == A[v, u]
      invariant forall u, v :: j + 4 <= u < k + 4 && i <= v < i + 4 ==> B[u, v] == A[v, u]
      invariant forall u, v :: k <= u < j + 4 && i + 4 <= v < i + 8 ==> B[u, v] == A[v - 4, u + 4]
      invariant forall u, v :: j <= u < j + 4 && i <= v < i + 4 ==> B[u, v] == old(B[u, v])
      invariant forall u, v :: 0 <= u < 64 && 0 <= v < 64 && !(j <= u < j + 8 && i <= v < i + 8)
                  ==> B[u, v] == old(B[u, v])
    {
      SwapRow(A, B, i, k);
      k := k + 1;
    }
  }

  /**
   * One pass of the second loop: B's row k, columns i+4..i+7, holds column
   * k + 4 of A's rows i..i+3 and goes to row k + 4, columns i..i+3, where it
   * belongs; column k of A's rows i+4..i+7 replaces it.
   */
  method SwapRow(A: array2<int>, B: array2<int>, i: int, k: int)
    requires A.Length0 == A.Length1 == B.Length0 == B.Length1 == 64 && A != B
    requires 0 <= i <= 56 && 0 <= k < 60
    requires forall v :: i + 4 <= v < i + 8 ==> B[k, v] == A[v - 4, k + 4]
    modifies B
    ensures forall v :: i + 4 <= v < i + 8 ==> B[k, v] == A[v, k]
    ensures forall u, v :: u == k + 4 && i <= v < i + 4 ==> B[u, v] == A[v, u]
    ensures forall u, v :: 0 <= u < 64 && 0 <= v < 64 && !(u == k && i + 4 <= v < i + 8)
                           && !(u == k + 4 && i <= v < i + 4)
              ==> B[u, v] == old(B[u, v])
  {
    var tmp1, tmp2, tmp3, tmp4 := B[k, i + 4], B[k, i + 5], B[k, i + 6], B[k, i + 7];
    var tmp5, tmp6, tmp7, tmp8 := A[i + 4, k], A[i + 5, k], A[i + 6, k], A[i + 7, k];
    B[k, i + 4] := tmp5; B[k, i + 5] := tmp6; B[k, i + 6] := tmp7; B[k, i + 7] := tmp8;
    B[k + 4, i] := tmp1; B[k + 4, i + 1] := tmp2; B[k + 4, i + 2] := tmp3; B[k + 4, i + 3] := tmp4;
  }

  /** The third loop of a block: A's lower-right quadrant into B's lower-right. */
  method LowerRightQuadrant(A: array2<int>, B: array2<int>, i: int, j: int)
    requires A.Length0 == A.Length1 == B.Length0 == B.Length1 == 64 && A != B
    requires 0 <= i <= 56 && 0 <= j <= 56
    modifies B
    ensures forall u, v :: j + 4 <= u < j + 8 && i + 4 <= v < i + 8 ==> B[u, v] == A[v, u]
    ensures forall u, v :: 0 <= u < 64 && 0 <= v < 64 && !(j + 4 <= u < j + 8 && i + 4 <= v < i + 8)
              ==> B[u, v] == old(B[u, v])
  {
    var k := j + 4;
    while k < j + 8
      invariant j + 4 <= k <= j + 8
      invariant forall u, v :: j + 4 <= u < k && i + 4 <= v < i + 8 ==> B[u, v] == A[v, u]
      invariant forall u, v :: 0 <= u < 64 && 0 <= v < 64 && !(j + 4 <= u < j + 8 && i + 4 <= v < i + 8)
                  ==> B[u, v] == old(B[u, v])
    {
      var tmp1, tmp2, tmp3, tmp4 := A[i + 4, k], A[i + 5, k], A[i + 6, k], A[i + 7, k];
      B[k, i + 4] := tmp1; B[k, i + 5] := tmp2; B[k, i + 6] := tmp3; B[k, i + 7] := tmp4;
      k := k + 1;
    }
  }

  // ---------------------------------------------------------------------
  // `transpose_submit`
  // ---------------------------------------------------------------------

  /**
   * `transpose_submit`: the 32 x 32 and 64 x 64 routines by the column
   * count M, `trans_61_67` for every other shape. The two square routines
   * assume that N equals M.
   */
  method TransposeSubmit(M: nat, N: nat, A: array2<int>, B: array2<int>)
    requires Shapes(M, N, A, B) && A != B
    requires M == 32 ==> N == 32
    requires M == 64 ==> N == 64
    modifies B
    ensures IsTranspose(A, B)
  {
    if M == 32 {
      Trans32x32(A, B);
    } else if M == 64 {
      Trans64x64(A, B);
    } else {
      Trans61x67(M, N, A, B);
    }
  }
}
