/** The legality rules of the engine: read-only questions about a 10x9 grid
    of cells (the board's `state`), answered from coordinates, the obstacle
    count between two squares and emptiness tests. */
module Rules {
  import opened Notation

  /** Ten ranks of nine cells each. */
  type Grid = g: seq<seq<Cell>> | |g| == 10 && forall r :: 0 <= r < 10 ==> |g[r]| == 9
    witness seq(10, _ => seq(9, _ => Empty))

  /** `getByPos`. */
  function At(g: Grid, p: Square): Cell { g[p.rank][p.file] }

  /** `setByPos`: one cell replaced, every other cell kept. */
  function Put(g: Grid, p: Square, c: Cell): (h: Grid)
    ensures At(h, p) == c
    ensures forall q: Square :: q != p ==> At(h, q) == At(g, q)
  {
    g[p.rank := g[p.rank][p.file := c]]
  }

  /** `getTeam`: the side of a piece, `None` (null) for a blank. */
  function TeamOf(c: Cell): Option<Side> { if c.Piece? then Some(c.side) else None }

  /** Why a move was refused: one constructor per message the rules throw,
      plus the crash that a malformed square name causes. */
  datatype MoveError =
    | MalformedSquare          // a square name strToPos rejects: getByPos(null) fails
    | NoChosenPiece            // the source square is blank
    | SameSide                 // source and target hold pieces of one side
    | AdvisorOutOfArea
    | AdvisorNotDiagonal
    | BishopCrossesRiver
    | BishopNotDiagonalLeap
    | BishopBlocked
    | CannonNotStraight
    | CannonNoScreen           // a capture with no piece in between
    | CannonNothingToEat       // one piece in between but a blank target
    | CannonTooManyScreens
    | KingsNotAligned
    | KingsBlocked
    | KingOutOfArea
    | KingNotOneStep
    | KnightBlocked
    | KnightPattern
    | PawnNotOneStep
    | PawnSidewaysBeforeRiver
    | PawnBackward
    | RookNotStraight
    | RookBlocked

  datatype Check = Pass | Fail(reason: MoveError)

  function Abs(x: int): nat { if x < 0 then -x else x }
  function Min(x: int, y: int): int { if x < y then x else y }
  function Max(x: int, y: int): int { if x > y then x else y }

  // ---------------------------------------------------------------------
  // Obstacles

  /** The number of pieces among `cells`. */
  function Occupied(cells: seq<Cell>): nat
  {
    if cells == [] then 0
    else Occupied(cells[..|cells| - 1]) + (if cells[|cells| - 1] != Empty then 1 else 0)
  }

  /** The cells of one file, rank 0 first. */
  function Column(g: Grid, f: int): (col: seq<Cell>)
    requires 0 <= f < 9
    ensures |col| == 10 && forall r :: 0 <= r < 10 ==> col[r] == g[r][f]
  {
    seq(10, r requires 0 <= r < 10 => g[r][f])
  }

  /** The number of pieces strictly between indices `i` and `j` of a line. */
  function Between(line: seq<Cell>, i: int, j: int): nat
    requires 0 <= i < |line| && 0 <= j < |line|
  {
    var lo, hi := Min(i, j), Max(i, j);
    if lo == hi then 0 else Occupied(line[lo + 1..hi])
  }

  /** `countObstacle`: the pieces strictly between two squares on one rank
      or one file, and -1 when the squares share neither. */
  function CountObstacles(g: Grid, a: Square, b: Square): int
  {
    if a.rank == b.rank then Between(g[a.rank], a.file, b.file)
    else if a.file == b.file then Between(Column(g, a.file), a.rank, b.rank)
    else -1
  }

  predicate Aligned(a: Square, b: Square) { a.rank == b.rank || a.file == b.file }

  /** `q` lies on the segment from `a` to `b`, neither end included. */
  predicate StrictlyBetween(a: Square, b: Square, q: Square)
  {
    (q.rank == a.rank == b.rank && Min(a.file, b.file) < q.file < Max(a.file, b.file)) ||
    (q.file == a.file == b.file && Min(a.rank, b.rank) < q.rank < Max(a.rank, b.rank))
  }

  /** No piece stands strictly between `a` and `b`. */
  ghost predicate Clear(g: Grid, a: Square, b: Square)
  {
    forall q: Square :: StrictlyBetween(a, b, q) ==> At(g, q) == Empty
  }

  /** The pieces of a segment `lo < k < hi` of a line, counted as a set. */
  lemma {:induction false} SegmentCount(line: seq<Cell>, lo: int, hi: int)
    requires 0 <= lo < hi <= |line|
    ensures Occupied(line[lo + 1..hi]) == |set k | lo < k < hi && line[k] != Empty|
    decreases hi - lo
  {
    var want := set k | lo < k < hi && line[k] != Empty;
    if hi == lo + 1 {
      assert want == {};
    } else {
      SegmentCount(line, lo, hi - 1);
      OccupiedStep(line, lo, hi);
      PiecesStep(line, lo, hi);
    }
  }

  lemma OccupiedStep(line: seq<Cell>, lo: int, hi: int)
    requires 0 <= lo && lo + 1 < hi <= |line|
    ensures Occupied(line[lo + 1..hi]) ==
      Occupied(line[lo + 1..hi - 1]) + (if line[hi - 1] != Empty then 1 else 0)
  {
    var seg := line[lo + 1..hi];
    assert seg[..|seg| - 1] == line[lo + 1..hi - 1];
  }

  lemma PiecesStep(line: seq<Cell>, lo: int, hi: int)
    requires 0 <= lo && lo + 1 < hi <= |line|
    ensures |set k | lo < k < hi && line[k] != Empty| ==
      |set k | lo < k < hi - 1 && line[k] != Empty| + (if line[hi - 1] != Empty then 1 else 0)
  {
    var want := set k | lo < k < hi && line[k] != Empty;
    var before := set k | lo < k < hi - 1 && line[k] != Empty;
    if line[hi - 1] != Empty {
      assert want == before + {hi - 1};
    } else {
      assert want == before;
    }
  }

  /** The pieces strictly between two indices of a line, counted as a set. */
  lemma BetweenCount(line: seq<Cell>, i: int, j: int)
    requires 0 <= i < |line| && 0 <= j < |line|
    ensures Between(line, i, j) == |set k | Min(i, j) < k < Max(i, j) && line[k] != Empty|
    ensures Between(line, i, j) == 0 <==> forall k :: Min(i, j) < k < Max(i, j) ==> line[k] == Empty
  {
    var lo, hi := Min(i, j), Max(i, j);
    var want := set k | lo < k < hi && line[k] != Empty;
    if lo == hi {
      assert want == {};
    } else {
      SegmentCount(line, lo, hi);
    }
    if Between(line, i, j) != 0 {
      assert want != {};
      var k :| k in want;
    } else {
      assert want == {};
      forall k | lo < k < hi ensures line[k] == Empty {
        assert k !in want;
      }
    }
  }

  /** What the obstacle count means: -1 exactly when the squares share neither
      rank nor file, the same from either end, 0 from a square to itself, and
      otherwise the number of occupied squares strictly between them. */
  lemma ObstaclesMeaning(g: Grid, a: Square, b: Square)
    ensures CountObstacles(g, a, b) == -1 <==> !Aligned(a, b)
    ensures CountObstacles(g, a, b) == CountObstacles(g, b, a)
    ensures a == b ==> CountObstacles(g, a, b) == 0
    ensures Aligned(a, b) ==> (CountObstacles(g, a, b) == 0 <==> Clear(g, a, b))
    ensures a.rank == b.rank ==>
      CountObstacles(g, a, b) ==
      |set f | Min(a.file, b.file) < f < Max(a.file, b.file) && g[a.rank][f] != Empty|
    ensures a.rank != b.rank && a.file == b.file ==>
      CountObstacles(g, a, b) ==
      |set r | Min(a.rank, b.rank) < r < Max(a.rank, b.rank) && g[r][a.file] != Empty|
  {
    if a.rank == b.rank {
      BetweenCount(g[a.rank], a.file, b.file);
      if CountObstacles(g, a, b) != 0 {
        var f :| Min(a.file, b.file) < f < Max(a.file, b.file) && g[a.rank][f] != Empty;
        assert StrictlyBetween(a, b, Pos(a.rank, f));
      }
    } else if a.file == b.file {
      var col := Column(g, a.file);
      BetweenCount(col, a.rank, b.rank);
      assert (set r | Min(a.rank, b.rank) < r < Max(a.rank, b.rank) && col[r] != Empty) ==
             (set r | Min(a.rank, b.rank) < r < Max(a.rank, b.rank) && g[r][a.file] != Empty);
      if CountObstacles(g, a, b) != 0 {
        var r :| Min(a.rank, b.rank) < r < Max(a.rank, b.rank) && col[r] != Empty;
        assert StrictlyBetween(a, b, Pos(r, a.file));
      }
    }
  }

  // ---------------------------------------------------------------------
  // The seven piece rules (ax, ay = source rank and file; bx, by = target)

  function AdvisorRule(a: Square, side: Side, b: Square): Check
  {
    if b.file < 3 || b.file > 5 || (side == White && b.rank <= 6) || (side == Black && b.rank >= 3) then
      Fail(AdvisorOutOfArea)
    else if Abs(a.rank - b.rank) != 1 || Abs(a.file - b.file) != 1 then Fail(AdvisorNotDiagonal)
    else Pass
  }

  function BishopRule(g: Grid, a: Square, side: Side, b: Square): Check
  {
    if (side == White && b.rank < 5) || (side == Black && b.rank > 4) then Fail(BishopCrossesRiver)
    else if Abs(a.rank - b.rank) != 2 || Abs(a.file - b.file) != 2 then Fail(BishopNotDiagonalLeap)
    else if g[(a.rank + b.rank) / 2][(a.file + b.file) / 2] != Empty then Fail(BishopBlocked)
    else Pass
  }

  function CannonRule(g: Grid, a: Square, b: Square, target: Cell): Check
  {
    var n := CountObstacles(g, a, b);
    if n < 0 then Fail(CannonNotStraight)
    else if n == 0 && target != Empty then Fail(CannonNoScreen)
    else if n == 1 && target == Empty then Fail(CannonNothingToEat)
    else if n > 1 then Fail(CannonTooManyScreens)
    else Pass
  }

  function KingRule(g: Grid, a: Square, side: Side, b: Square, target: Cell): Check
  {
    if target.Piece? && target.kind == King then
      var n := CountObstacles(g, a, b);
      if n < 0 then Fail(KingsNotAligned)
      else if n > 0 then Fail(KingsBlocked)
      else Pass
    else if b.file < 3 || b.file > 5 || (side == White && b.rank < 7) || (side == Black && b.rank > 2) then
      Fail(KingOutOfArea)
    else if Abs(a.rank - b.rank) + Abs(a.file - b.file) != 1 then Fail(KingNotOneStep)
    else Pass
  }

  function KnightRule(g: Grid, a: Square, b: Square): Check
  {
    if Abs(a.rank - b.rank) == 1 && Abs(a.file - b.file) == 2 then
      var offset := if b.file > a.file then 1 else -1;
      if g[a.rank][a.file + offset] != Empty then Fail(KnightBlocked) else Pass
    else if Abs(a.rank - b.rank) == 2 && Abs(a.file - b.file) == 1 then
      var offset := if b.rank > a.rank then 1 else -1;
      if g[a.rank + offset][a.file] != Empty then Fail(KnightBlocked) else Pass
    else Fail(KnightPattern)
  }

  function PawnRule(a: Square, side: Side, b: Square): Check
  {
    if Abs(a.rank - b.rank) + Abs(a.file - b.file) != 1 then Fail(PawnNotOneStep)
    else if a.rank - b.rank == 0 && ((side == White && a.rank > 4) || (side == Black && a.rank < 5)) then
      Fail(PawnSidewaysBeforeRiver)
    else if (side == White && a.rank - b.rank == -1) || (side == Black && a.rank - b.rank == 1) then
      Fail(PawnBackward)
    else Pass
  }

  function RookRule(g: Grid, a: Square, b: Square): Check
  {
    var n := CountObstacles(g, a, b);
    if n < 0 then Fail(RookNotStraight)
    else if n > 0 then Fail(RookBlocked)
    else Pass
  }

  /** `isValidMove(p_s, p_t)`: a square that did not parse crashes the lookup,
      then the source must hold a piece, the target must not hold a piece of
      the same side, and the moving piece's own rule decides. */
  function IsValidMove(g: Grid, ps: Option<Square>, pt: Option<Square>): (r: Check)
    ensures ps.None? ==> r == Fail(MalformedSquare)
    ensures ps.Some? && At(g, ps.value) == Empty ==> r == Fail(NoChosenPiece)
    ensures r.Pass? ==>
      ps.Some? && pt.Some? && At(g, ps.value).Piece? &&
      TeamOf(At(g, pt.value)) != Some(At(g, ps.value).side) && ps.value != pt.value
  {
    if ps.None? then Fail(MalformedSquare)
    else
      var s := ps.value;
      var cs := At(g, s);
      if cs == Empty then Fail(NoChosenPiece)
      else if pt.None? then Fail(MalformedSquare)
      else
        var t := pt.value;
        var ct := At(g, t);
        if TeamOf(cs) == TeamOf(ct) then Fail(SameSide)
        else
          match cs.kind
          case Advisor => AdvisorRule(s, cs.side, t)
          case Bishop => BishopRule(g, s, cs.side, t)
          case Cannon => CannonRule(g, s, t, ct)
          case King => KingRule(g, s, cs.side, t, ct)
          case Knight => KnightRule(g, s, t)
          case Pawn => PawnRule(s, cs.side, t)
          case Rook => RookRule(g, s, t)
  }

  // ---------------------------------------------------------------------
  // The rules restated square by square

  /** The target does not hold a piece of `side`. */
  predicate Enterable(g: Grid, t: Square, side: Side) { TeamOf(At(g, t)) != Some(side) }

  /** The palace of `side`: files 3-5, ranks 7-9 for white and 0-2 for black. */
  predicate InPalace(p: Square, side: Side)
  {
    3 <= p.file <= 5 && (if side == White then p.rank >= 7 else p.rank <= 2)
  }

  /** The half of the board on `side`'s side of the river. */
  predicate OwnHalf(p: Square, side: Side) { if side == White then p.rank >= 5 else p.rank <= 4 }

  function Sign(x: int): int { if x > 0 then 1 else -1 }

  lemma LegalRook(g: Grid, s: Square, t: Square, side: Side)
    requires At(g, s) == Piece(Rook, side)
    ensures IsValidMove(g, Some(s), Some(t)).Pass? <==>
      Enterable(g, t, side) && Aligned(s, t) && Clear(g, s, t)
  {
    ObstaclesMeaning(g, s, t);
  }

  lemma LegalCannon(g: Grid, s: Square, t: Square, side: Side)
    requires At(g, s) == Piece(Cannon, side)
    ensures IsValidMove(g, Some(s), Some(t)).Pass? <==>
      Enterable(g, t, side) && Aligned(s, t) &&
      ((Clear(g, s, t) && At(g, t) == Empty) || (CountObstacles(g, s, t) == 1 && At(g, t) != Empty))
  {
    ObstaclesMeaning(g, s, t);
  }

  lemma LegalKnight(g: Grid, s: Square, t: Square, side: Side)
    requires At(g, s) == Piece(Knight, side)
    ensures IsValidMove(g, Some(s), Some(t)).Pass? <==>
      Enterable(g, t, side) &&
      ((Abs(t.rank - s.rank) == 1 && Abs(t.file - s.file) == 2 &&
        g[s.rank][s.file + Sign(t.file - s.file)] == Empty) ||
       (Abs(t.rank - s.rank) == 2 && Abs(t.file - s.file) == 1 &&
        g[s.rank + Sign(t.rank - s.rank)][s.file] == Empty))
  {
  }

  lemma LegalBishop(g: Grid, s: Square, t: Square, side: Side)
    requires At(g, s) == Piece(Bishop, side)
    ensures IsValidMove(g, Some(s), Some(t)).Pass? <==>
      Enterable(g, t, side) && OwnHalf(t, side) &&
      Abs(t.rank - s.rank) == 2 && Abs(t.file - s.file) == 2 &&
      g[(s.rank + t.rank) / 2][(s.file + t.file) / 2] == Empty
  {
  }

  lemma LegalAdvisor(g: Grid, s: Square, t: Square, side: Side)
    requires At(g, s) == Piece(Advisor, side)
    ensures IsValidMove(g, Some(s), Some(t)).Pass? <==>
      Enterable(g, t, side) && InPalace(t, side) &&
      Abs(t.rank - s.rank) == 1 && Abs(t.file - s.file) == 1
  {
  }

  lemma LegalKing(g: Grid, s: Square, t: Square, side: Side)
    requires At(g, s) == Piece(King, side)
    ensures IsValidMove(g, Some(s), Some(t)).Pass? <==>
      Enterable(g, t, side) &&
      (if At(g, t) == Piece(King, Opponent(side)) then Aligned(s, t) && Clear(g, s, t)
       else InPalace(t, side) && Abs(t.rank - s.rank) + Abs(t.file - s.file) == 1)
  {
    ObstaclesMeaning(g, s, t);
    if At(g, t) == Piece(King, Opponent(side)) {
      assert KingRule(g, s, side, t, At(g, t)).Pass? <==> Aligned(s, t) && Clear(g, s, t);
    } else if At(g, t).Piece? && At(g, t).kind == King {
      assert At(g, t).side == side;
    }
  }

  function Opponent(side: Side): Side { if side == White then Black else White }

  /** A pawn on its own half of the board has not crossed the river. */
  lemma LegalPawn(g: Grid, s: Square, t: Square, side: Side)
    requires At(g, s) == Piece(Pawn, side)
    ensures IsValidMove(g, Some(s), Some(t)).Pass? <==>
      Enterable(g, t, side) &&
      Abs(t.rank - s.rank) + Abs(t.file - s.file) == 1 &&
      (t.rank == s.rank ==> !OwnHalf(s, side)) &&
      (if side == White then t.rank <= s.rank else t.rank >= s.rank)
  {
  }

  // ---------------------------------------------------------------------
  // Queries

  /** `getByStr`: `None` where the lookup of a malformed name crashes. */
  function GetByStr(g: Grid, s: string): (r: Option<Cell>)
    ensures r.Some? <==> StrToPos(s).Some?
  {
    var p := StrToPos(s);
    if p.Some? then Some(At(g, p.value)) else None
  }

  /** Looking up a square's own name yields the cell on that square. */
  lemma GetByStrNames(g: Grid)
    ensures forall p: Square :: GetByStr(g, SquareName(p)) == Some(At(g, p))
  {
    forall p: Square ensures GetByStr(g, SquareName(p)) == Some(At(g, p)) {
      SquareNameParses(p);
    }
  }

  /** `getTeam` asks whether the cell's character is in the white table, then
      the black one: white for the first, black for the second, null for a
      blank. */
  lemma TeamOfPieces(c: Cell)
    ensures TeamOf(c) == Some(White) <==> CharOf(c) in WhitePieces
    ensures TeamOf(c) == Some(Black) <==> CharOf(c) in BlackPieces
    ensures TeamOf(c) == None <==> CharOf(c) !in WhitePieces && CharOf(c) !in BlackPieces
  {
  }

  /** `isSameTeam`: answers for exactly the pairs of names that parse, and
      answers true exactly when both squares are blank (null === null) or
      both hold pieces of one side. */
  function IsSameTeam(g: Grid, a: string, b: string): (r: Option<bool>)
    ensures r.Some? <==> StrToPos(a).Some? && StrToPos(b).Some?
    ensures r == Some(true) <==>
      StrToPos(a).Some? && StrToPos(b).Some? &&
      var ca, cb := At(g, StrToPos(a).value), At(g, StrToPos(b).value);
      (ca == Empty && cb == Empty) || (ca.Piece? && cb.Piece? && ca.side == cb.side)
  {
    var ca := GetByStr(g, a);
    if ca.None? then None
    else
      var cb := GetByStr(g, b);
      if cb.None? then None else Some(TeamOf(ca.value) == TeamOf(cb.value))
  }

  /** A piece on a square of the same team as the source blocks every move
      there, whatever the piece; a blank source blocks every move. */
  lemma SameTeamRefused(g: Grid, a: string, b: string)
    requires IsSameTeam(g, a, b) == Some(true)
    ensures IsValidMove(g, StrToPos(a), StrToPos(b)).Fail?
    ensures GetByStr(g, a) == Some(Empty) ==> GetByStr(g, b) == Some(Empty)
  {
  }

  /** The index of a square in row-major order. */
  function Index(p: Square): (i: int)
    ensures 0 <= i < 90
  {
    p.rank * 9 + p.file
  }

  function SquareAt(i: int): (p: Square)
    requires 0 <= i < 90
    ensures Index(p) == i
  {
    Pos(i / 9, i % 9)
  }

  /** Row-major indices number the squares one to one. */
  lemma SquareAtIndex(p: Square)
    ensures SquareAt(Index(p)) == p
  {
  }

  /** The verdict of the rules on every target square, in row-major order. */
  function Verdicts(g: Grid, ps: Option<Square>): (pass: seq<bool>)
    ensures |pass| == 90
  {
    seq(90, i requires 0 <= i < 90 => IsValidMove(g, ps, Some(SquareAt(i))).Pass?)
  }

  lemma VerdictAt(g: Grid, ps: Option<Square>, q: Square)
    ensures Verdicts(g, ps)[Index(q)] == IsValidMove(g, ps, Some(q)).Pass?
  {
    SquareAtIndex(q);
  }

  /** The names of the squares of index below `n` whose verdict passes, in
      row-major order: the loop of `getPossibleMoves` after `n` steps. */
  function ScanBelow(pass: seq<bool>, n: int): seq<string>
    requires |pass| == 90 && 0 <= n <= 90
  {
    if n == 0 then []
    else ScanBelow(pass, n - 1) + (if pass[n - 1] then [SquareName(SquareAt(n - 1))] else [])
  }

  /** `getPossibleMoves(str)` on the square `ps` that `str` parses to. */
  function PossibleMoves(g: Grid, ps: Option<Square>): seq<string>
  {
    ScanBelow(Verdicts(g, ps), 90)
  }

  /** Every name in the list parses to a square below `n` that passes. */
  lemma {:induction false} ScanSound(pass: seq<bool>, n: int)
    requires |pass| == 90 && 0 <= n <= 90
    ensures forall i :: 0 <= i < |ScanBelow(pass, n)| ==>
      var p := StrToPos(ScanBelow(pass, n)[i]);
      p.Some? && Index(p.value) < n && pass[Index(p.value)]
  {
    if n > 0 {
      ScanSound(pass, n - 1);
      SquareNameParses(SquareAt(n - 1));
    }
  }

  /** Every square below `n` that passes is named in the list. */
  lemma {:induction false} ScanComplete(pass: seq<bool>, n: int)
    requires |pass| == 90 && 0 <= n <= 90
    ensures forall q: Square :: Index(q) < n && pass[Index(q)] ==> SquareName(q) in ScanBelow(pass, n)
  {
    if n > 0 {
      ScanComplete(pass, n - 1);
      var q := SquareAt(n - 1);
      var prev := ScanBelow(pass, n - 1);
      var cur := ScanBelow(pass, n);
      assert forall i :: 0 <= i < |prev| ==> cur[i] == prev[i];
      forall q': Square | Index(q') < n && pass[Index(q')]
        ensures SquareName(q') in cur
      {
        if Index(q') < n - 1 {
          assert SquareName(q') in prev;
        } else {
          SquareAtIndex(q');
          assert cur[|cur| - 1] == SquareName(q);
        }
      }
    }
  }

  /** The row-major index of the square a name parses to, -1 if none. */
  function NameIndex(name: string): int
  {
    var p := StrToPos(name);
    if p.Some? then Index(p.value) else -1
  }

  /** The row-major indices of the squares a list of names denotes. */
  function NameIndices(names: seq<string>): (xs: seq<int>)
    ensures |xs| == |names| && forall i :: 0 <= i < |names| ==> xs[i] == NameIndex(names[i])
  {
    seq(|names|, i requires 0 <= i < |names| => NameIndex(names[i]))
  }

  /** `xs` holds indices in `0..n`, in strictly increasing order. */
  ghost predicate IncreasingBelow(xs: seq<int>, n: int)
  {
    (forall i :: 0 <= i < |xs| ==> 0 <= xs[i] < n) &&
    forall i, j :: 0 <= i < j < |xs| ==> xs[i] < xs[j]
  }

  lemma IncreasingAppend(xs: seq<int>, n: nat, last: seq<int>)
    requires IncreasingBelow(xs, n)
    requires last == [] || last == [n]
    ensures IncreasingBelow(xs + last, n + 1)
  {
    var ys := xs + last;
    assert forall i :: 0 <= i < |xs| ==> ys[i] == xs[i];
  }

  lemma NameIndexOf(q: Square)
    ensures NameIndex(SquareName(q)) == Index(q)
  {
    SquareNameParses(q);
  }

  /** The list is in strictly increasing row-major order. */
  lemma {:induction false} ScanOrdered(pass: seq<bool>, n: int)
    requires |pass| == 90 && 0 <= n <= 90
    ensures IncreasingBelow(NameIndices(ScanBelow(pass, n)), n)
  {
    if n > 0 {
      ScanOrdered(pass, n - 1);
      var prev := ScanBelow(pass, n - 1);
      if pass[n - 1] {
        var q := SquareAt(n - 1);
        NameIndexOf(q);
        assert NameIndices(prev + [SquareName(q)]) == NameIndices(prev) + [n - 1];
        IncreasingAppend(NameIndices(prev), n - 1, [n - 1]);
      } else {
        IncreasingAppend(NameIndices(prev), n - 1, []);
        assert NameIndices(prev) + [] == NameIndices(prev);
      }
    }
  }

  /** One step of the row-major scan, at rank `r` and file `c`. */
  lemma ScanNext(pass: seq<bool>, r: int, c: int, list: seq<string>)
    requires |pass| == 90 && 0 <= r < 10 && 0 <= c < 9 && list == ScanBelow(pass, 9 * r + c)
    ensures ScanBelow(pass, 9 * r + c + 1) == if pass[9 * r + c] then list + [[Files[c], Ranks[r]]] else list
  {
    SquareAtIndex(Pos(r, c));
  }

  /** `getPossibleMoves` lists exactly the names of the squares the source
      may move to, each once, in row-major order. */
  lemma PossibleMovesExact(g: Grid, ps: Option<Square>, name: string)
    ensures name in PossibleMoves(g, ps) <==>
      StrToPos(name).Some? && IsValidMove(g, ps, StrToPos(name)).Pass?
    ensures forall i, j :: 0 <= i < j < |PossibleMoves(g, ps)| ==>
      0 <= NameIndex(PossibleMoves(g, ps)[i]) < NameIndex(PossibleMoves(g, ps)[j])
  {
    var pass := Verdicts(g, ps);
    ScanSound(pass, 90);
    ScanComplete(pass, 90);
    ScanOrdered(pass, 90);
    assert IncreasingBelow(NameIndices(PossibleMoves(g, ps)), 90);
    StrToPosNames(name);
    if name in PossibleMoves(g, ps) {
      var i :| 0 <= i < |PossibleMoves(g, ps)| && PossibleMoves(g, ps)[i] == name;
      VerdictAt(g, ps, StrToPos(name).value);
    } else if StrToPos(name).Some? {
      VerdictAt(g, ps, StrToPos(name).value);
    }
  }

  /** The list never holds the source itself nor a square of the moving
      side, and it is empty from a blank square or a malformed name. */
  lemma PossibleMovesExclude(g: Grid, ps: Option<Square>)
    ensures ps.Some? ==> SquareName(ps.value) !in PossibleMoves(g, ps)
    ensures ps.Some? && At(g, ps.value).Piece? ==> forall q: Square ::
      TeamOf(At(g, q)) == Some(At(g, ps.value).side) ==> SquareName(q) !in PossibleMoves(g, ps)
    ensures ps.None? || At(g, ps.value) == Empty ==> PossibleMoves(g, ps) == []
  {
    if ps.Some? {
      PossibleMovesExact(g, ps, SquareName(ps.value));
      SquareNameParses(ps.value);
      forall q: Square | At(g, ps.value).Piece? && TeamOf(At(g, q)) == Some(At(g, ps.value).side)
        ensures SquareName(q) !in PossibleMoves(g, ps)
      {
        PossibleMovesExact(g, ps, SquareName(q));
        SquareNameParses(q);
      }
    }
    if ps.None? || At(g, ps.value) == Empty {
      if PossibleMoves(g, ps) != [] {
        PossibleMovesExact(g, ps, PossibleMoves(g, ps)[0]);
      }
    }
  }

  /** One square of the matrix `getMatrix` builds for rendering. */
  datatype Tile = Tile(id: string, cell: Cell)

  /** `getMatrix(team)`: the grid from white's side (rank 0 on top) when
      `team` holds, else turned half a circle (rank 9 on top, file i first). */
  function Matrix(g: Grid, team: bool): seq<seq<Tile>>
  {
    seq(10, i requires 0 <= i < 10 =>
      seq(9, j requires 0 <= j < 9 =>
        var p: Square := if team then Pos(i, j) else Pos(9 - i, 8 - j);
        Tile(SquareName(p), At(g, p))))
  }

  lemma MatrixAt(g: Grid, team: bool, i: int, j: int)
    requires 0 <= i < 10 && 0 <= j < 9
    ensures |Matrix(g, team)| == 10 && |Matrix(g, team)[i]| == 9
    ensures team ==> Matrix(g, team)[i][j] == Tile([Files[j], Ranks[i]], g[i][j])
    ensures !team ==> Matrix(g, team)[i][j] == Tile([Files[8 - j], Ranks[9 - i]], g[9 - i][8 - j])
  {
    var p: Square := if team then Pos(i, j) else Pos(9 - i, 8 - j);
    assert Matrix(g, team)[i][j] == Tile(SquareName(p), At(g, p));
  }

  /** Every tile is labelled with the name of the square whose cell it
      shows, and the second view is the first one turned half a circle. */
  lemma MatrixMeaning(g: Grid, team: bool, i: int, j: int)
    requires 0 <= i < 10 && 0 <= j < 9
    ensures |Matrix(g, team)| == 10 && |Matrix(g, team)[i]| == 9
    ensures var tile := Matrix(g, team)[i][j];
      StrToPos(tile.id).Some? && tile.cell == At(g, StrToPos(tile.id).value)
    ensures Matrix(g, false)[i][j] == Matrix(g, true)[9 - i][8 - j]
  {
    var p: Square := if team then Pos(i, j) else Pos(9 - i, 8 - j);
    SquareNameParses(p);
  }
}
