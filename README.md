# Xiangqi board rules (ucci.js) in Dafny

This project models the rules engine of a small browser library for
Chinese chess (Xiangqi), `public/ucci.js`. The library does five things:

- It validates a position string in FEN style and builds a board from it.
- It replays a list of moves in four-character square notation (`h2e2`).
- It decides whether a move is legal for each of the seven piece kinds.
- It applies moves, keeping a half-move clock, a round counter and a history.
- It answers the queries a renderer needs, then saves the game as the
  starting FEN plus the list of moves.

The model has five modules, one per concern.

- `Notation` (`notation.dfy`) is the codec.
  - The piece alphabet is given both ways (`PieceOf`, `CharOf`).
  - `String.split` and its inverse, with both round trips.
  - JavaScript's `Number` on the counter fields is given as a `Counter`
    that is either a number or `NaN`.
  - `validate` is given as a function, `Validate`, and as a method with the
    source's loops, `ValidateFen`. Lemmas state exactly which strings it
    accepts.
  - Square names are parsed by `StrToPos` and printed by `SquareName`.
- `Rules` (`rules.dfy`) holds legality on a grid of ten ranks of nine cells.
  - `CountObstacles` and what it counts.
  - The seven piece rules, with one error constructor per message the
    source throws.
  - `IsValidMove`, with one lemma per piece kind saying exactly when that
    piece may move.
  - The functions that specify the queries `getByStr`, `isSameTeam`,
    `getPossibleMoves` and `getMatrix`.
- `History` (`history.dfy`) treats the whole board as a value.
  - `Apply` is what one call of `move` does.
  - `Start` is what `init` builds before it replays any moves.
  - `Replay` is `init` with its moves.
  - Lemmas say that the recorded history is enough to rebuild the state,
    and that the side to move alternates.
- `Ucci` (`ucci.dfy`) holds the board object.
  - Class `Board` has the fields the source mutates: `state`, `player`,
    `emptyStep`, `round` and `history`, plus the constant `initialState`.
  - Its loops are proved against the functions above.
  - The static method `Open` is the library's entry point `ucci(data)`.
  - The invariant `Valid` says that replaying the saved moves from the
    starting FEN gives the current fields. `Init` establishes it, `Move`
    keeps it, and `Save` relies on it.
- `Opening` (`opening.dfy`) writes out the default layout as a grid and
  proves what the rules allow there: a knight's first moves and a cannon's two
  captures down the b file.

Cells are a tagged value (`Empty` or `Piece(kind, side)`), not a
character. `PieceOf` and `CharOf` are the mapping at the notation
boundary. `White` is the side the source writes in upper case (`'w'`), and
`Black` the lower-case side (`'b'`). Squares are `Pos(rank, file)`: rank
is the first grid index (`x` in the source) and file the second. The
source's exceptions become values:

- `Check.Fail(reason)` and `Outcome.Refused(reason)` for the string thrown
  by a rule;
- `MalformedSquare` for the `TypeError` raised when `null` from `strToPos`
  is dereferenced;
- `Rejected(error)` for the string thrown by `validate`.

## Behaviour worth knowing

- `validate` never rejects the counter fields. It compares against
  `Number.NaN` with `===`, which is always false. `CountersNeverRejected`
  states this, and `BadRounds` is kept as the error the code names.
- `move` returns `false` only when the two halves of its argument are
  equal (`Declined`), although its comment at public/ucci.js:137 says it
  returns false whenever it is not successful. A move that breaks a rule
  throws from `isValidMove`, and `move` does not catch it. So `Move`
  answers `Raised(reason)` and changes nothing.
- A throwing move in the replay inside `init` ends the construction with
  that exception, because the entry point's `try` covers only `validate`.
  `Open` answers `ReplayThrew(index, reason)`.
- The library has no layout formatter; the board keeps the FEN it was
  given in `initialState`.

## Model

| member | source | states |
|---|---|---|
| Notation.PieceOf | public/ucci.js:71-73 | a character is a piece exactly when it is one of the fourteen letters, and it is white exactly when it is an upper-case one |
| Notation.CharOf | public/ucci.js:71-73 | the blank is the only cell written as a space, and a piece's letter reads back as that piece |
| Notation.JoinSplit | public/ucci.js:78 | joining the fields `split` produces gives back the string |
| Notation.SplitJoin | public/ucci.js:78 | splitting fields that hold no separator gives back exactly those fields |
| Notation.RankWidthExpands | public/ucci.js:90-105 | the count `validate` keeps for a rank exists exactly when every character is a digit or a piece letter, and it equals the number of cells `init` expands the rank into |
| Notation.ValidateAccepts | public/ucci.js:76-113 | a FEN is accepted exactly when it has six fields, ten ranks, only legal characters and nine cells per rank |
| Notation.CheckRanksRejects | public/ucci.js:90-106 | a reported bad character or bad width points at a rank that really has that fault, and no other error comes from the ranks |
| Notation.CountersNeverRejected | public/ucci.js:108-110 | the counter check never fires, whatever the counter fields hold |
| Notation.RankCount | public/ucci.js:91-102 | the loop over one rank's characters returns the width `RankWidth` defines, or `None` at a character that is neither a digit nor a piece letter |
| Notation.ValidateFen | public/ucci.js:76-113 | the loops over ranks and characters return the verdict `Validate` defines, the error included |
| Notation.StrToPosLookups | public/ucci.js:345-358 | parsing a square is the source's two `indexOf` lookups in the file and rank tables, with `null` for a wrong length, an unknown file or a non-digit rank |
| Notation.StrToPosNames | public/ucci.js:345-358 | a name parses exactly when it is a file letter a-i followed by a digit, and then printing the square gives the name back |
| Notation.SquareNameParses | public/ucci.js:368 | the name built from the tables parses back to the same square |
| Notation.SquareNameInjective | public/ucci.js:368 | two squares with the same name are the same square |
| Rules.Put | public/ucci.js:341-343 | `setByPos` changes the one cell and keeps every other |
| Rules.BetweenCount | public/ucci.js:309-331 | the loop's count is the number of occupied cells strictly between the two indices, and it is zero exactly when all of them are blank |
| Rules.ObstaclesMeaning | public/ucci.js:309-331 | -1 exactly when the squares share neither rank nor file; symmetric; 0 for a square and itself; on a line, 0 exactly when every square strictly between is blank, and the count is the number of occupied cells between |
| Rules.IsValidMove | public/ucci.js:181-213 | a malformed source or a blank source is refused with that reason, and a passed move has a piece on the source and no piece of its side on a different target |
| Rules.LegalAdvisor | public/ucci.js:215-223 | an advisor may move exactly one diagonal step onto a square of its own palace that holds no piece of its own side |
| Rules.LegalBishop | public/ucci.js:224-237 | a bishop may move exactly two diagonal steps within its own half, with the midpoint blank, onto a square without a piece of its own side |
| Rules.LegalCannon | public/ucci.js:238-253 | a cannon may move along a clear line onto a blank square, or capture an opposing piece over exactly one screen |
| Rules.LegalKing | public/ucci.js:254-269 | a king may capture the opposing king along a clear line, or take one orthogonal step inside its palace onto a square without a piece of its own side |
| Rules.LegalKnight | public/ucci.js:270-286 | a knight may make a one-by-two jump whose leg square next to it along the long axis is blank, onto a square without a piece of its own side |
| Rules.LegalPawn | public/ucci.js:287-298 | a pawn may take one orthogonal step that is not backward, and a sideways one only after crossing the river, onto a square without a piece of its own side |
| Rules.LegalRook | public/ucci.js:299-307 | a rook may move along a clear rank or file onto a square without a piece of its own side |
| Rules.GetByStr | public/ucci.js:336-339 | looking up a name yields a cell exactly when the name parses |
| Rules.GetByStrNames | public/ucci.js:336-339 | looking up a square's own name yields the cell on that square |
| Rules.TeamOfPieces | public/ucci.js:425-433 | `getTeam` answers white exactly for a character in the white table, black exactly for one in the black table, and null for anything in neither, the blank included |
| Rules.IsSameTeam | public/ucci.js:419-423 | answers exactly when both names parse, and answers true exactly when both squares are blank or both hold pieces of one side |
| Rules.SameTeamRefused | public/ucci.js:419-423 | when two named squares are on the same team, the move between them is refused and a blank first square means a blank second one |
| Rules.PossibleMovesExact | public/ucci.js:403-417 | a name is listed exactly when it parses and the move from the source to it passes, and the list is strictly increasing in grid order, so no name repeats |
| Rules.PossibleMovesExclude | public/ucci.js:184-195 | the list never holds the source or a square of the moving side, and it is empty for a blank or malformed source |
| Rules.MatrixMeaning | public/ucci.js:375-401 | each tile is labelled with the name of the square whose cell it carries, and the view for the second player is the first view turned half a circle |
| History.ApplyCases | public/ucci.js:138-178 | `move` returns false exactly when the two halves are equal, it moves exactly when the halves differ and the check passes, and a refusal carries the reason the check gives |
| History.ShortMoveRejected | public/ucci.js:141-152 | an argument shorter than four characters never moves |
| History.MoveEffects | public/ucci.js:155-177 | after a move: the target holds the moved piece, the source is blank, every other square is unchanged, the history gains the notation with the captured cell, the clock is reset on a capture and advanced otherwise, the round is half the history rounded up, and the other side is to move |
| History.MoveIgnoresTurn | public/ucci.js:138-178 | whether a move is applied, and the grid it leaves, do not depend on whose turn it is |
| History.IsCurrentPlayer | public/ucci.js:435-437 | answers for exactly the names that parse, and answers true exactly when the named square holds a piece of the side to move |
| History.Start | public/ucci.js:26-57 | the board `init` builds holds each FEN rank expanded into its row, black to move exactly when the second field is `b`, and an empty history |
| History.ReplayThrewStays | public/ucci.js:59-61 | once a replayed move throws, later moves do not change the outcome |
| History.ReplayHistory | public/ucci.js:59-61 | replaying the notations recorded in the history of a replayed game gives that game again |
| History.ReplayAlternates | public/ucci.js:59-61 | after a replay, the side to move is the first side flipped once per recorded move |
| Ucci.Board.Init | public/ucci.js:26-57 | builds a board whose fields are `Start(fen)`, whose FEN is kept verbatim and which satisfies the replay invariant |
| Ucci.Board.ExpandLine | public/ucci.js:32-43 | the loop over one rank string builds exactly the row `ExpandRank` defines |
| Ucci.Board.PushBlanks | public/ucci.js:36-38 | a digit appends exactly that many blanks to the row |
| Ucci.Board.ReplayMoves | public/ucci.js:59-61 | passing the moves to `move` in order ends exactly as `Replay` says, with the fields equal to the replayed state when no move throws, and it keeps the replay invariant |
| Ucci.Board.Move | public/ucci.js:138-178 | declines, applies or raises exactly as `Apply` says; declining and raising change nothing; the replay invariant is kept |
| Ucci.Board.CountObstacle | public/ucci.js:309-331 | the loops return `CountObstacles` |
| Ucci.Board.GetPossibleMoves | public/ucci.js:403-417 | the 90-square scan returns `PossibleMoves` |
| Ucci.Board.GetList | public/ucci.js:364-373 | the map's keys are exactly the square names, and each key maps to the cell `getByStr` finds there |
| Ucci.Board.GetMatrix | public/ucci.js:375-401 | both loop nests build `Matrix` |
| Ucci.Board.Save | public/ucci.js:447-456 | returns the starting FEN and the history's notations in order, and from a valid board replaying them gives the current state |
| Opening.KnightOpening | public/ucci.js:270-286 | in the default layout (the FEN at public/ucci.js:13, written out cell by cell as `Opening.Standard`), white's knight on b9 may move to a7 or c7 and to no other square |
| Opening.KnightOpeningList | public/ucci.js:403-417 | in the default layout, the possible moves of the knight on b9 are exactly a7 then c7 |
| Opening.CannonCaptures | public/ucci.js:238-253 | in the default layout, the black cannon on b2 is the one piece between white's cannon on b7 and black's knight on b0, so the capture b7-b0 passes |
| Opening.CannonNeedsScreen | public/ucci.js:238-253 | in the default layout, nothing stands between white's cannon on b7 and black's cannon on b2, so that capture fails for want of a screen |
| Ucci.Board.Open | public/ucci.js:11-15 | a missing argument means the standard opening with no moves, and the result is what `Restore` gives for that saved game |
| Ucci.Board.Restore | public/ucci.js:16-22 | an invalid FEN gives no board with the validation error; otherwise the first replayed move that throws is reported with its index and reason, or a fresh valid board holds the replayed state and keeps the FEN |

## Left out

- `revoke` (public/ucci.js:458-462) is not modelled. As written, it parses as `history.history.splice(...)` and always throws a `TypeError`. It becomes callable only once it is fixed, which would be guessing.
- `posToStr` is not modelled. No code calls it, and it prints the rank with the file table.
- `print`, `showState` and the `console.log` in the entry point are output only.
- The browser page and the server relay (`public/app.js`, `index.js`) are not part of this model.
- Counters: `Number` is modelled for the empty string and for decimal integers with an optional sign. Hexadecimal, exponent, fraction and whitespace forms become `NaN`, and so does anything else.
- Notation.ToNumber, Notation.Increment: the counters are exact integers, while JavaScript numbers are doubles. Above 2^53 the two differ: `Number` rounds a longer numeral to the nearest double, and `emptyStep++` (public/ucci.js:158) stops changing once the clock reaches 2^53. The model agrees with the source only for counters up to 2^53.
- Strings are sequences of Dafny characters, not UTF-16 code units.
- Ucci.Board.Init: requires a FEN that `Validate` accepts. Calling `init` directly on a ragged layout gives rows of other lengths, which the ten-by-nine `Grid` type cannot hold. The entry point always validates first.
- The unreachable `return true` after the kind switch in `isValidMove` has no counterpart: every cell has one of the seven kinds.
- Crashes in `getByStr`, `isSameTeam` and `isCurrentPlayer` on a malformed name are modelled as `None`. In `isValidMove` and `move` they are modelled as the error `MalformedSquare`.
- Ucci.Board.Open: it is not proved that the default FEN passes `validate` or that `init` builds the grid `Opening.Standard` from it. Expanding even one rank of that string literal is beyond the verifier's budget. So `Open` without an argument carries the same case split as any other FEN, and the facts in `Opening` are stated about the grid written out cell by cell.
- Check, checkmate, repetition and whose turn it is are not part of `move`: the source does not check them. `MoveIgnoresTurn` states the turn part.
- The iteration order of `for ... in` in `getList` plays no part, because the result is a map.
