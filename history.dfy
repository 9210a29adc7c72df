/** The whole state of a board as a value, and what `move` and `init` do to
    it: the grid, the side to move, the two counters and the move history. */
module History {
  import opened Notation
  import opened Rules

  /** One applied move: the notation as given and the cell it captured. */
  datatype Entry = Entry(move: string, eaten: Cell)

  datatype GameState = GameState(
    grid: Grid,
    player: Side,
    emptyStep: Counter,
    round: Counter,
    history: seq<Entry>)

  /** What one call of `move` does: returns false and changes nothing,
      applies the move, or throws. */
  datatype Outcome = Unchanged | Moved(after: GameState) | Refused(reason: MoveError)

  /** `s.substring(i, j)` for `i <= j`: both ends are clamped to the length. */
  function Substring(s: string, i: nat, j: nat): (r: string)
    requires i <= j
    ensures |r| == Min(j, |s|) - Min(i, |s|)
  {
    s[Min(i, |s|)..Min(j, |s|)]
  }

  /** `Math.round(n / 2)`: halves round up. */
  function RoundHalf(n: nat): int { (n + 1) / 2 }

  /** The source and target squares `move` reads from its argument. */
  function Source(str: string): Option<Square> { StrToPos(Substring(str, 0, 2)) }
  function Target(str: string): Option<Square> { StrToPos(Substring(str, 2, 4)) }

  /** `move(str)`. */
  function Apply(g: GameState, str: string): Outcome
  {
    if Substring(str, 0, 2) == Substring(str, 2, 4) then Unchanged
    else
      var ps, pt := Source(str), Target(str);
      var v := IsValidMove(g.grid, ps, pt);
      if v.Fail? then Refused(v.reason)
      else Moved(After(g, ps.value, pt.value, str))
  }

  /** The state after the piece on `s` moves to `t` by the notation `str`. */
  function After(g: GameState, s: Square, t: Square, str: string): GameState
  {
    var eaten := At(g.grid, t);
    var h := g.history + [Entry(str, eaten)];
    GameState(
      Put(Put(g.grid, t, At(g.grid, s)), s, Empty),
      Opponent(g.player),
      if eaten == Empty then Increment(g.emptyStep) else Num(0),
      Num(RoundHalf(|h|)),
      h)
  }

  /** `move` returns false exactly when the two halves of its argument are
      equal, and applies the move exactly when they differ and the move is
      legal; otherwise it throws the rules' reason. */
  lemma ApplyCases(g: GameState, str: string)
    ensures Apply(g, str) == Unchanged <==> Substring(str, 0, 2) == Substring(str, 2, 4)
    ensures Apply(g, str).Moved? <==>
      Substring(str, 0, 2) != Substring(str, 2, 4) && IsValidMove(g.grid, Source(str), Target(str)).Pass?
    ensures Apply(g, str).Refused? ==>
      Apply(g, str).reason == IsValidMove(g.grid, Source(str), Target(str)).reason
    ensures Apply(g, str).Moved? ==>
      Source(str).Some? && Target(str).Some? &&
      Apply(g, str).after == After(g, Source(str).value, Target(str).value, str)
  {
  }

  /** `move` once the two halves differ: the rules' verdict decides. */
  lemma ApplyChecked(g: GameState, str: string)
    requires Substring(str, 0, 2) != Substring(str, 2, 4)
    ensures var v := IsValidMove(g.grid, Source(str), Target(str));
      Apply(g, str) == if v.Fail? then Refused(v.reason) else Moved(After(g, Source(str).value, Target(str).value, str))
  {
  }

  /** A malformed square never moves anything: a string shorter than four
      characters either compares equal halves or fails to parse. */
  lemma ShortMoveRejected(g: GameState, str: string)
    requires |str| < 4
    ensures !Apply(g, str).Moved?
  {
    if |str| == 3 {
      assert |Substring(str, 2, 4)| == 1;
    }
  }

  /** What a successful move does: the target receives the piece that stood on
      the source, the source becomes blank, every other cell is kept, the
      history gains the move with the captured cell, the quiet-move counter
      restarts on a capture and counts up otherwise, the round is half the
      history rounded up, and the side to move changes. */
  lemma MoveEffects(g: GameState, str: string)
    requires Apply(g, str).Moved?
    ensures var n, s, t := Apply(g, str).after, Source(str).value, Target(str).value;
      s != t && At(g.grid, s).Piece? &&
      At(n.grid, t) == At(g.grid, s) && At(n.grid, s) == Empty &&
      (forall q: Square :: q != s && q != t ==> At(n.grid, q) == At(g.grid, q)) &&
      n.history == g.history + [Entry(str, At(g.grid, t))] &&
      n.emptyStep == (if At(g.grid, t) == Empty then Increment(g.emptyStep) else Num(0)) &&
      n.round.Num? && 2 * n.round.n - 1 <= |n.history| <= 2 * n.round.n &&
      n.player == Opponent(g.player)
  {
  }

  /** `move` does not look at whose turn it is: the same move on the same
      grid has the same effect on the grid whichever side is to move. */
  lemma MoveIgnoresTurn(g: GameState, str: string, side: Side)
    ensures Apply(g.(player := side), str).Moved? == Apply(g, str).Moved?
    ensures Apply(g, str).Moved? ==> Apply(g.(player := side), str).after.grid == Apply(g, str).after.grid
  {
  }

  /** `isCurrentPlayer`: `None` where the lookup of a malformed name crashes. */
  function IsCurrentPlayer(g: GameState, str: string): (r: Option<bool>)
    ensures r.Some? <==> StrToPos(str).Some?
    ensures r == Some(true) <==>
      StrToPos(str).Some? && At(g.grid, StrToPos(str).value) != Empty &&
      At(g.grid, StrToPos(str).value).side == g.player
  {
    var c := GetByStr(g.grid, str);
    if c.None? then None else Some(TeamOf(c.value) == Some(g.player))
  }

  // ---------------------------------------------------------------------
  // Construction

  /** The grid `init` builds: rank i of the layout, digits expanded. */
  function Layout(lines: seq<string>): (g: Grid)
    requires ValidLayout(lines)
    ensures forall i :: 0 <= i < 10 ==> g[i] == ExpandRank(lines[i])
  {
    seq(10, i requires 0 <= i < 10 => ExpandRank(lines[i]))
  }

  /** `ucci.init(fen, [])`: the layout, side 'b' only for a second field of
      exactly "b", the counters read from fields 5 and 6, no history. */
  function Start(fen: string): (g: GameState)
    requires Validate(fen) == Accepted
    ensures g.history == []
    ensures g.player == Black <==> Split(fen, ' ')[1] == "b"
    ensures forall i :: 0 <= i < 10 ==> g.grid[i] == ExpandRank(Split(Split(fen, ' ')[0], '/')[i])
  {
    ValidateAccepts(fen);
    var parts := Split(fen, ' ');
    GameState(
      Layout(Split(parts[0], '/')),
      if parts[1] == "b" then Black else White,
      ToNumber(parts[4]),
      ToNumber(parts[5]),
      [])
  }

  /** Replaying a move list: a move that returns false is skipped, the first
      move that throws ends the replay with its position and reason. */
  datatype Replayed = Done(game: GameState) | Threw(index: nat, reason: MoveError)

  function Replay(g0: GameState, moves: seq<string>): Replayed
  {
    if moves == [] then Done(g0)
    else
      var n := |moves| - 1;
      var prev := Replay(g0, moves[..n]);
      if prev.Threw? then prev
      else
        match Apply(prev.game, moves[n])
        case Unchanged => prev
        case Moved(after) => Done(after)
        case Refused(e) => Threw(n, e)
  }

  /** The move notations of a history, as `save` lists them. */
  function MovesOf(h: seq<Entry>): (ms: seq<string>)
    ensures |ms| == |h| && forall i :: 0 <= i < |h| ==> ms[i] == h[i].move
  {
    seq(|h|, i requires 0 <= i < |h| => h[i].move)
  }

  /** Once a replay has thrown, later moves do not matter. */
  lemma {:induction false} ReplayThrewStays(g0: GameState, moves: seq<string>, k: nat)
    requires k <= |moves| && Replay(g0, moves[..k]).Threw?
    ensures Replay(g0, moves) == Replay(g0, moves[..k])
    decreases |moves| - k
  {
    if k < |moves| {
      var next := moves[..k + 1];
      assert next[..k] == moves[..k];
      ReplayThrewStays(g0, moves, k + 1);
    } else {
      assert moves[..k] == moves;
    }
  }

  /** From a position with no history, the recorded history alone replays to
      the same state: it is a sufficient basis to rebuild the game. */
  lemma {:induction false} ReplayHistory(g0: GameState, moves: seq<string>)
    requires g0.history == [] && Replay(g0, moves).Done?
    ensures Replay(g0, MovesOf(Replay(g0, moves).game.history)) == Replay(g0, moves)
  {
    if moves != [] {
      var n := |moves| - 1;
      var prev := Replay(g0, moves[..n]);
      ReplayHistory(g0, moves[..n]);
      match Apply(prev.game, moves[n])
      case Unchanged =>
      case Refused(_) =>
      case Moved(after) =>
        ReplayStep(g0, prev.game, moves[n]);
    }
  }

  /** A replay that reached `g` and then applies one more move. */
  lemma ReplayExtend(g0: GameState, moves: seq<string>, g: GameState, m: string)
    requires Replay(g0, moves) == Done(g) && Apply(g, m).Moved?
    ensures Replay(g0, moves + [m]) == Done(Apply(g, m).after)
  {
    assert (moves + [m])[..|moves|] == moves;
  }

  /** A state that its history replays to still does after one more move. */
  lemma ReplayStep(g0: GameState, g: GameState, m: string)
    requires Replay(g0, MovesOf(g.history)) == Done(g) && Apply(g, m).Moved?
    ensures Replay(g0, MovesOf(Apply(g, m).after.history)) == Done(Apply(g, m).after)
  {
    ApplyCases(g, m);
    var a := After(g, Source(m).value, Target(m).value, m);
    assert Apply(g, m) == Moved(a);
    MovesOfAppend(g.history, Entry(m, At(g.grid, Target(m).value)));
    assert MovesOf(a.history) == MovesOf(g.history) + [m];
    ReplayExtend(g0, MovesOf(g.history), g, m);
  }

  lemma MovesOfAppend(h: seq<Entry>, e: Entry)
    ensures MovesOf(h + [e]) == MovesOf(h) + [e.move]
  {
  }

  /** One more step of a replay that has not thrown. */
  lemma ReplayNext(g0: GameState, moves: seq<string>, i: nat, g: GameState)
    requires i < |moves| && Replay(g0, moves[..i]) == Done(g)
    ensures Apply(g, moves[i]) == Unchanged ==> Replay(g0, moves[..i + 1]) == Done(g)
    ensures Apply(g, moves[i]).Moved? ==> Replay(g0, moves[..i + 1]) == Done(Apply(g, moves[i]).after)
    ensures Apply(g, moves[i]).Refused? ==>
      Replay(g0, moves[..i + 1]) == Threw(i, Apply(g, moves[i]).reason)
  {
    assert moves[..i + 1][..i] == moves[..i];
  }

  /** Along a replay from a position with no history, the side to move
      alternates: it equals the first side after an even number of applied
      moves, and the other side after an odd number. */
  lemma {:induction false} ReplayAlternates(g0: GameState, moves: seq<string>)
    requires g0.history == [] && Replay(g0, moves).Done?
    ensures Replay(g0, moves).game.player == Alternated(g0.player, |Replay(g0, moves).game.history|)
  {
    if moves != [] {
      var n := |moves| - 1;
      ReplayAlternates(g0, moves[..n]);
      var prev := Replay(g0, moves[..n]).game;
      match Apply(prev, moves[n])
      case Unchanged =>
      case Refused(_) =>
      case Moved(after) =>
        MoveEffects(prev, moves[n]);
        AlternatedStep(g0.player, |prev.history|);
    }
  }

  /** The side to move after `k` moves from `first`. */
  function Alternated(first: Side, k: nat): Side
  {
    if k % 2 == 0 then first else Opponent(first)
  }

  lemma AlternatedStep(first: Side, k: nat)
    ensures Alternated(first, k + 1) == Opponent(Alternated(first, k))
  {
  }
}
