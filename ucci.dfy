/** The board object of the library: its fields, the methods that change
    them, the queries that read them, and the entry point that validates a
    saved game and replays it. */
module Ucci {
  import opened Notation
  import opened Rules
  import opened History

  /** What `save` returns and the entry point accepts: the starting FEN and
      the moves applied since. */
  datatype SaveData = SaveData(fen: string, moves: seq<string>)

  /** What one call of `move` answers: `false`, the board itself, or an
      exception carrying the rules' reason. */
  datatype MoveReply = Declined | Applied | Raised(reason: MoveError)

  /** What the entry point yields: `null` for a FEN that does not validate,
      the exception of the first replayed move that throws, or the board. */
  datatype Opened = NoBoard(error: FenError) | ReplayThrew(index: nat, reason: MoveError) | Ready(board: Board)

  /** The saved game the entry point reads: the given one, or the standard
      opening with no moves when none is given. */
  function Requested(data: Option<SaveData>): SaveData
  {
    if data.Some? then data.value else SaveData(DefaultFen, [])
  }

  class Board {
    const initialState: string
    var state: Grid
    var player: Side
    var emptyStep: Counter
    var round: Counter
    var history: seq<Entry>

    /** The fields as one value. */
    function Current(): GameState
      reads this
    {
      GameState(state, player, emptyStep, round, history)
    }

    /** The starting FEN is valid, and replaying the recorded moves from it
        reproduces the current state. */
    ghost predicate Valid()
      reads this
    {
      Validate(initialState) == Accepted &&
      Replay(Start(initialState), MovesOf(history)) == Done(Current())
    }

    /** `init(fen, [])`: the ranks of the FEN expanded into rows, the side to
        move, the two counters, an empty history. */
    constructor Init(fen: string)
      requires Validate(fen) == Accepted
      ensures initialState == fen
      ensures Current() == Start(fen)
      ensures Valid()
    {
      ValidateAccepts(fen);
      var parts := Split(fen, ' ');
      var lines := Split(parts[0], '/');
      var rows: seq<seq<Cell>> := [];
      var i := 0;
      while i <= 9
        invariant 0 <= i <= 10
        invariant |rows| == i
        invariant forall r :: 0 <= r < i ==> rows[r] == ExpandRank(lines[r])
      {
        var temp := ExpandLine(lines[i]);
        rows := rows + [temp];
        i := i + 1;
      }
      initialState := fen;
      state := rows;
      player := if parts[1] == "b" then Black else White;
      emptyStep := ToNumber(parts[4]);
      round := ToNumber(parts[5]);
      history := [];
      new;
      assert state == Start(fen).grid;
      assert MovesOf(history) == [];
    }

    /** The innermost loop of `init`: a digit pushes that many blanks. */
    static method PushBlanks(cells: seq<Cell>, n: nat) returns (temp: seq<Cell>)
      ensures temp == cells + Blanks(n)
    {
      temp := cells;
      var j := 0;
      while j < n
        invariant 0 <= j <= n
        invariant temp == cells + Blanks(j)
      {
        BlanksNext(j);
        temp := temp + [Empty];
        j := j + 1;
      }
    }

    /** The inner loop of `init`: one rank of the layout, each digit pushed
        as that many blanks and each piece letter as its piece. */
    static method ExpandLine(line: string) returns (temp: seq<Cell>)
      requires forall k :: 0 <= k < |line| ==> IsRankChar(line[k])
      ensures temp == ExpandRank(line)
    {
      temp := [];
      var k := 0;
      while k < |line|
        invariant 0 <= k <= |line|
        invariant temp == ExpandRank(line[..k])
      {
        var c := line[k];
        ExpandPrefix(line, k);
        ExpandCharCases(c);
        ghost var before := temp;
        if '1' <= c <= '9' {
          temp := PushBlanks(temp, DigitValue(c));
        } else {
          temp := temp + [PieceOf(c).value];
        }
        assert temp == before + ExpandChar(c);
        k := k + 1;
      }
      assert line[..|line|] == line;
    }

    /** `move(str)`: the outcome `Apply` describes, carried out on the
        fields; a refused or declined move changes nothing, and a state that
        replays from its FEN still does. */
    method Move(str: string) returns (reply: MoveReply)
      modifies this
      ensures Apply(old(Current()), str) == Unchanged ==> reply == Declined && Current() == old(Current())
      ensures Apply(old(Current()), str).Moved? ==> reply == Applied && Current() == Apply(old(Current()), str).after
      ensures Apply(old(Current()), str).Refused? ==>
        reply == Raised(Apply(old(Current()), str).reason) && Current() == old(Current())
      ensures old(Valid()) ==> Valid()
    {
      ghost var before := Current();
      ghost var wasValid := Valid();
      var src := Substring(str, 0, 2);
      var tar := Substring(str, 2, 4);
      if src == tar {
        assert Apply(before, str) == Unchanged;
        return Declined;
      }
      ApplyChecked(before, str);
      var ps := Source(str);
      var pt := Target(str);
      var v := IsValidMove(state, ps, pt);
      if v.Fail? {
        assert Apply(before, str) == Refused(v.reason);
        return Raised(v.reason);
      }
      var s, t := ps.value, pt.value;
      var eaten := At(state, t);
      if eaten == Empty {
        emptyStep := Increment(emptyStep);
      } else {
        emptyStep := Num(0);
      }
      state := Put(state, t, At(state, s));
      state := Put(state, s, Empty);
      history := history + [Entry(str, eaten)];
      round := Num(RoundHalf(|history|));
      player := Opponent(player);
      reply := Applied;
      assert Current() == After(before, s, t, str);
      assert Apply(before, str) == Moved(After(before, s, t, str));
      if wasValid {
        ReplayStep(Start(initialState), before, str);
      }
    }

    /** `countObstacle`: the pieces strictly between two squares on one rank
        or one file, -1 otherwise. */
    method CountObstacle(a: Square, b: Square) returns (n: int)
      ensures n == CountObstacles(state, a, b)
    {
      n := 0;
      if a.rank == b.rank {
        var line := state[a.rank];
        var i, j := Min(a.file, b.file), Max(a.file, b.file);
        var k := i + 1;
        while k < j
          invariant i + 1 <= k <= Max(j, i + 1)
          invariant n == Occupied(line[i + 1..k])
        {
          OccupiedStep(line, i, k + 1);
          if line[k] != Empty {
            n := n + 1;
          }
          k := k + 1;
        }
      } else if a.file == b.file {
        ghost var column := Column(state, a.file);
        var i, j := Min(a.rank, b.rank), Max(a.rank, b.rank);
        var k := i + 1;
        while k < j
          invariant i + 1 <= k <= Max(j, i + 1)
          invariant n == Occupied(column[i + 1..k])
        {
          OccupiedStep(column, i, k + 1);
          if state[k][a.file] != Empty {
            n := n + 1;
          }
          k := k + 1;
        }
      } else {
        n := -1;
      }
    }

    /** `getPossibleMoves(str)`: the squares, in row-major order, that the
        piece on `str` may move to; every refusal is swallowed. */
    method GetPossibleMoves(str: string) returns (list: seq<string>)
      ensures list == PossibleMoves(state, StrToPos(str))
    {
      var ps := StrToPos(str);
      ghost var pass := Verdicts(state, ps);
      list := [];
      var r := 0;
      while r < 10
        invariant 0 <= r <= 10
        invariant list == ScanBelow(pass, 9 * r)
      {
        var c := 0;
        while c < 9
          invariant 0 <= c <= 9
          invariant list == ScanBelow(pass, 9 * r + c)
        {
          var v := IsValidMove(state, ps, Some(Pos(r, c)));
          VerdictAt(state, ps, Pos(r, c));
          ScanNext(pass, r, c, list);
          if v.Pass? {
            list := list + [[Files[c], Ranks[r]]];
          }
          c := c + 1;
        }
        r := r + 1;
      }
    }

    /** `getList`: a dictionary from every square name to its cell. */
    method GetList() returns (list: map<string, Cell>)
      ensures forall name :: name in list <==> StrToPos(name).Some?
      ensures forall name :: name in list ==> GetByStr(state, name) == Some(list[name])
    {
      list := map[];
      var r := 0;
      while r < 10
        invariant 0 <= r <= 10
        invariant Listed(list, state, 9 * r)
      {
        var c := 0;
        while c < 9
          invariant 0 <= c <= 9
          invariant Listed(list, state, 9 * r + c)
        {
          ListStep(list, state, r, c);
          list := list[[Files[c], Ranks[r]] := state[r][c]];
          c := c + 1;
        }
        r := r + 1;
      }
      forall name
        ensures name in list <==> StrToPos(name).Some?
        ensures name in list ==> GetByStr(state, name) == Some(list[name])
      {
        ListedAll(list, state, name);
      }
    }

    /** `getMatrix(team)`: the grid as rows of labelled tiles, seen from
        white's side or turned half a circle. */
    method GetMatrix(team: bool) returns (matrix: seq<seq<Tile>>)
      ensures matrix == Matrix(state, team)
    {
      ghost var m := Matrix(state, team);
      matrix := [];
      if team {
        var i := 0;
        while i < 10
          invariant 0 <= i <= 10
          invariant |matrix| == i && forall x :: 0 <= x < i ==> matrix[x] == m[x]
        {
          var temp: seq<Tile> := [];
          var j := 0;
          while j < 9
            invariant 0 <= j <= 9
            invariant |temp| == j && forall y :: 0 <= y < j ==> temp[y] == m[i][y]
          {
            MatrixAt(state, true, i, j);
            temp := temp + [Tile([Files[j], Ranks[i]], state[i][j])];
            j := j + 1;
          }
          matrix := matrix + [temp];
          i := i + 1;
        }
      } else {
        var i := 9;
        while i >= 0
          invariant -1 <= i <= 9
          invariant |matrix| == 9 - i && forall x :: 0 <= x < 9 - i ==> matrix[x] == m[x]
        {
          var temp: seq<Tile> := [];
          var j := 8;
          while j >= 0
            invariant -1 <= j <= 8
            invariant |temp| == 8 - j && forall y :: 0 <= y < 8 - j ==> temp[y] == m[9 - i][y]
          {
            MatrixAt(state, false, 9 - i, 8 - j);
            temp := temp + [Tile([Files[j], Ranks[i]], state[i][j])];
            j := j - 1;
          }
          matrix := matrix + [temp];
          i := i - 1;
        }
      }
    }

    /** `save`: the starting FEN and the notation of every applied move,
        which is enough to rebuild the current state. */
    method Save() returns (data: SaveData)
      ensures data.fen == initialState
      ensures |data.moves| == |history| && forall i :: 0 <= i < |history| ==> data.moves[i] == history[i].move
      ensures Valid() ==> Replay(Start(data.fen), data.moves) == Done(Current())
    {
      var moves: seq<string> := [];
      var i := 0;
      while i < |history|
        invariant 0 <= i <= |history|
        invariant moves == MovesOf(history[..i])
      {
        assert MovesOf(history[..i + 1]) == MovesOf(history[..i]) + [history[i].move];
        moves := moves + [history[i].move];
        i := i + 1;
      }
      assert history[..i] == history;
      data := SaveData(initialState, moves);
    }

    /** `ucci(data)`: validates the FEN (answering `null` when it fails),
        builds the board and replays the moves through `move`; the first
        move that throws ends construction with its exception. */
    static method Open(data: Option<SaveData>) returns (r: Opened)
      ensures Validate(Requested(data).fen).Rejected? ==>
        r == NoBoard(Validate(Requested(data).fen).error)
      ensures Validate(Requested(data).fen) == Accepted ==>
        var rp := Replay(Start(Requested(data).fen), Requested(data).moves);
        (rp.Threw? ==> r == ReplayThrew(rp.index, rp.reason)) &&
        (rp.Done? ==>
          r.Ready? && fresh(r.board) && r.board.initialState == Requested(data).fen &&
          r.board.Current() == rp.game && r.board.Valid())
    {
      r := Restore(Requested(data));
    }

    /** The body of `ucci(data)` once the default is filled in. */
    static method Restore(d: SaveData) returns (r: Opened)
      ensures Validate(d.fen).Rejected? ==> r == NoBoard(Validate(d.fen).error)
      ensures Validate(d.fen) == Accepted ==>
        var rp := Replay(Start(d.fen), d.moves);
        (rp.Threw? ==> r == ReplayThrew(rp.index, rp.reason)) &&
        (rp.Done? ==>
          r.Ready? && fresh(r.board) && r.board.initialState == d.fen &&
          r.board.Current() == rp.game && r.board.Valid())
    {
      var v := ValidateFen(d.fen);
      if v.Rejected? {
        return NoBoard(v.error);
      }
      var b := new Board.Init(d.fen);
      var rp := b.ReplayMoves(d.moves);
      if rp.Threw? {
        return ReplayThrew(rp.index, rp.reason);
      }
      r := Ready(b);
    }

    /** The loop at the end of `init`: each move is passed to `move` in turn,
        and the first one that throws ends the loop with its exception. */
    method ReplayMoves(moves: seq<string>) returns (rp: Replayed)
      modifies this
      ensures rp == Replay(old(Current()), moves)
      ensures rp.Done? ==> Current() == rp.game
      ensures old(Valid()) ==> Valid()
    {
      ghost var g0 := Current();
      ghost var wasValid := Valid();
      assert moves[..0] == [];
      var i := 0;
      while i < |moves|
        invariant 0 <= i <= |moves|
        invariant wasValid ==> Valid()
        invariant Replay(g0, moves[..i]) == Done(Current())
      {
        ghost var g := Current();
        var reply := Move(moves[i]);
        ReplayNext(g0, moves, i, g);
        if reply.Raised? {
          ReplayThrewStays(g0, moves, i + 1);
          return Threw(i, reply.reason);
        }
        i := i + 1;
      }
      assert moves[..i] == moves;
      rp := Done(Current());
    }
  }

  /** `list` maps the name of every square of index below `n` to that
      square's cell, and holds no other key. */
  ghost predicate Listed(list: map<string, Cell>, g: Grid, n: int)
  {
    ListedSquares(list, g, n) && KeysBelow(list, n)
  }

  ghost predicate ListedSquares(list: map<string, Cell>, g: Grid, n: int)
  {
    forall q: Square :: Index(q) < n ==> SquareName(q) in list && list[SquareName(q)] == At(g, q)
  }

  ghost predicate KeysBelow(list: map<string, Cell>, n: int)
  {
    forall name :: name in list ==> 0 <= NameIndex(name) < n
  }

  lemma ListStep(list: map<string, Cell>, g: Grid, r: int, c: int)
    requires 0 <= r < 10 && 0 <= c < 9 && Listed(list, g, 9 * r + c)
    ensures Listed(list[[Files[c], Ranks[r]] := g[r][c]], g, 9 * r + c + 1)
  {
    var p: Square := Pos(r, c);
    ListSquaresStep(list, g, p);
    NameIndexOf(p);
  }

  lemma ListSquaresStep(list: map<string, Cell>, g: Grid, p: Square)
    requires ListedSquares(list, g, Index(p))
    ensures ListedSquares(list[SquareName(p) := At(g, p)], g, Index(p) + 1)
  {
    var next := list[SquareName(p) := At(g, p)];
    forall q: Square | Index(q) < Index(p) + 1
      ensures SquareName(q) in next && next[SquareName(q)] == At(g, q)
    {
      if Index(q) == Index(p) {
        SquareAtIndex(q);
        SquareAtIndex(p);
      } else if SquareName(q) == SquareName(p) {
        SquareNameInjective(q, p);
      }
    }
  }

  /** Once every square is listed, the keys are exactly the square names. */
  lemma ListedAll(list: map<string, Cell>, g: Grid, name: string)
    requires Listed(list, g, 90)
    ensures name in list <==> StrToPos(name).Some?
    ensures name in list ==> GetByStr(g, name) == Some(list[name])
  {
    StrToPosNames(name);
    if StrToPos(name).Some? {
      assert SquareName(StrToPos(name).value) == name;
    }
  }
}
