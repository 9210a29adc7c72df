/** The text forms the engine reads: position strings in the Chinese-chess
    FEN (six space-separated fields, the first a '/'-separated layout of ten
    ranks), square names such as "b9", and the two counter fields. */
module Notation {

  datatype Option<+T> = None | Some(value: T)

  /** 'w' (upper-case letters) and 'b' (lower-case letters). */
  datatype Side = White | Black

  datatype Kind = Advisor | Bishop | Cannon | King | Knight | Pawn | Rook

  /** One cell of the grid: blank (' ' in the source) or a piece. */
  datatype Cell = Empty | Piece(kind: Kind, side: Side)

  /** A coordinate pair `[rank, file]`; rank 0 is black's home row. */
  datatype Pos = Pos(rank: int, file: int)

  /** A pair that lies on the 10x9 board. */
  type Square = p: Pos | 0 <= p.rank < 10 && 0 <= p.file < 9 witness Pos(0, 0)

  // The source's lookup tables: `col` for files and `row` for ranks.
  const Files: string := "abcdefghi"
  const Ranks: string := "0123456789"

  const WhitePieces: string := "RNBAKCP"
  const BlackPieces: string := "rnbakcp"

  /** The starting layout used when no saved game is supplied. */
  const DefaultFen: string := "rnbakabnr/9/1c5c1/p1p1p1p1p/9/9/P1P1P1P1P/1C5C1/9/RNBAKABNR w - - 0 1"

  // ---------------------------------------------------------------------
  // Piece letters

  /** The cell a piece letter stands for; `None` for any other character. */
  function PieceOf(c: char): (r: Option<Cell>)
    ensures r.Some? ==> r.value.Piece?
    ensures r.Some? <==> c in WhitePieces || c in BlackPieces
    ensures r.Some? ==> (r.value.side == White <==> c in WhitePieces)
  {
    match c
    case 'R' => Some(Piece(Rook, White))
    case 'N' => Some(Piece(Knight, White))
    case 'B' => Some(Piece(Bishop, White))
    case 'A' => Some(Piece(Advisor, White))
    case 'K' => Some(Piece(King, White))
    case 'C' => Some(Piece(Cannon, White))
    case 'P' => Some(Piece(Pawn, White))
    case 'r' => Some(Piece(Rook, Black))
    case 'n' => Some(Piece(Knight, Black))
    case 'b' => Some(Piece(Bishop, Black))
    case 'a' => Some(Piece(Advisor, Black))
    case 'k' => Some(Piece(King, Black))
    case 'c' => Some(Piece(Cannon, Black))
    case 'p' => Some(Piece(Pawn, Black))
    case _ => None
  }

  /** The notation character of a cell: its letter, or ' ' for a blank. */
  function CharOf(cell: Cell): (c: char)
    ensures cell.Empty? <==> c == ' '
    ensures cell.Piece? ==> PieceOf(c) == Some(cell)
  {
    match cell
    case Empty => ' '
    case Piece(k, White) =>
      (match k
       case Rook => 'R' case Knight => 'N' case Bishop => 'B' case Advisor => 'A'
       case King => 'K' case Cannon => 'C' case Pawn => 'P')
    case Piece(k, Black) =>
      (match k
       case Rook => 'r' case Knight => 'n' case Bishop => 'b' case Advisor => 'a'
       case King => 'k' case Cannon => 'c' case Pawn => 'p')
  }

  predicate IsRankDigit(c: char) { '1' <= c <= '9' }

  function DigitValue(c: char): int { c as int - '0' as int }

  /** A character a rank string may hold. */
  predicate IsRankChar(c: char) { IsRankDigit(c) || c in WhitePieces || c in BlackPieces }

  // ---------------------------------------------------------------------
  // String splitting, as JavaScript's `split` with a one-character separator

  function Split(s: string, sep: char): (parts: seq<string>)
    ensures |parts| >= 1
    ensures forall i :: 0 <= i < |parts| ==> sep !in parts[i]
    decreases |s|
  {
    if s == [] then [[]]
    else
      var rest := Split(s[1..], sep);
      if s[0] == sep then [[]] + rest
      else [[s[0]] + rest[0]] + rest[1..]
  }

  function Join(parts: seq<string>, sep: char): string
    requires |parts| >= 1
  {
    if |parts| == 1 then parts[0] else parts[0] + [sep] + Join(parts[1..], sep)
  }

  /** Joining the pieces with the separator gives the string back. */
  lemma {:induction false} JoinSplit(s: string, sep: char)
    ensures Join(Split(s, sep), sep) == s
    decreases |s|
  {
    if s != [] {
      JoinSplit(s[1..], sep);
      var rest := Split(s[1..], sep);
      if s[0] != sep {
        var parts := Split(s, sep);
        if |rest| > 1 {
          assert parts[1..] == rest[1..];
          assert Join(parts, sep) == [s[0]] + rest[0] + [sep] + Join(rest[1..], sep);
        }
      }
    }
  }

  lemma {:induction false} SplitNoSeparator(a: string, sep: char)
    requires sep !in a
    ensures Split(a, sep) == [a]
    decreases |a|
  {
    if a != [] {
      SplitNoSeparator(a[1..], sep);
      assert [a[0]] + a[1..] == a;
    }
  }

  lemma {:induction false} SplitAtSeparator(a: string, b: string, sep: char)
    requires sep !in a
    ensures Split(a + [sep] + b, sep) == [a] + Split(b, sep)
    decreases |a|
  {
    if a == [] {
      assert (a + [sep] + b)[1..] == b;
    } else {
      assert (a + [sep] + b)[1..] == a[1..] + [sep] + b;
      SplitAtSeparator(a[1..], b, sep);
      assert [a[0]] + a[1..] == a;
    }
  }

  /** Splitting a join of separator-free pieces gives the pieces back. */
  lemma {:induction false} SplitJoin(parts: seq<string>, sep: char)
    requires |parts| >= 1
    requires forall i :: 0 <= i < |parts| ==> sep !in parts[i]
    ensures Split(Join(parts, sep), sep) == parts
    decreases |parts|
  {
    if |parts| == 1 {
      SplitNoSeparator(parts[0], sep);
    } else {
      SplitJoin(parts[1..], sep);
      SplitAtSeparator(parts[0], Join(parts[1..], sep), sep);
      assert [parts[0]] + parts[1..] == parts;
    }
  }

  // ---------------------------------------------------------------------
  // Counters: the source reads fields 5 and 6 with JavaScript's `Number`

  /** A JavaScript number as the counters use it: an integer, or NaN. */
  datatype Counter = Num(n: int) | NaN

  /** JavaScript's `===` on numbers: NaN equals nothing, itself included. */
  predicate StrictEq(a: Counter, b: Counter) { a.Num? && b.Num? && a.n == b.n }

  /** `x++`: NaN stays NaN. */
  function Increment(x: Counter): Counter { if x.Num? then Num(x.n + 1) else NaN }

  predicate IsNumeral(s: string) { |s| > 0 && forall i :: 0 <= i < |s| ==> '0' <= s[i] <= '9' }

  /** The value of a string of decimal digits, most significant first. */
  function NumeralValue(s: string): int
  {
    if s == [] then 0 else 10 * NumeralValue(s[..|s| - 1]) + DigitValue(s[|s| - 1])
  }

  /** `Number(s)` for the empty string and for decimal integer numerals with
      an optional sign; every other string is taken as NaN. */
  function ToNumber(s: string): Counter
  {
    if s == [] then Num(0)
    else if IsNumeral(s) then Num(NumeralValue(s))
    else if |s| > 1 && s[0] == '-' && IsNumeral(s[1..]) then Num(-NumeralValue(s[1..]))
    else if |s| > 1 && s[0] == '+' && IsNumeral(s[1..]) then Num(NumeralValue(s[1..]))
    else NaN
  }

  // ---------------------------------------------------------------------
  // Position-string validation

  /** One constructor per message the validator throws. */
  datatype FenError =
    | BadPartCount       // 'invalid number of parts'
    | BadLineCount       // 'invalid number of lines'
    | BadPieceChar       // 'invalid piece character'
    | BadRankWidth       // 'invalid chess state string'
    | BadRounds          // 'invalid number of rounds'

  datatype Validation = Accepted | Rejected(error: FenError)

  /** The width a rank string adds up to (a digit counts its value, a letter
      one), or `None` if it holds any other character. */
  function RankWidth(l: string): Option<int>
  {
    if l == [] then Some(0)
    else if IsRankDigit(l[0]) then PlusOpt(DigitValue(l[0]), RankWidth(l[1..]))
    else if l[0] in WhitePieces || l[0] in BlackPieces then PlusOpt(1, RankWidth(l[1..]))
    else None
  }

  function PlusOpt(n: int, w: Option<int>): Option<int>
  {
    if w.Some? then Some(n + w.value) else None
  }

  /** The ranks checked in order: the first failing rank decides the error. */
  function CheckRanks(lines: seq<string>): Validation
  {
    if lines == [] then Accepted
    else
      var w := RankWidth(lines[0]);
      if w.None? then Rejected(BadPieceChar)
      else if w.value != 9 then Rejected(BadRankWidth)
      else CheckRanks(lines[1..])
  }

  /** What `ucci.validate` decides about a position string. */
  function Validate(fen: string): Validation
  {
    var parts := Split(fen, ' ');
    if |parts| != 6 then Rejected(BadPartCount)
    else
      var lines := Split(parts[0], '/');
      if |lines| != 10 then Rejected(BadLineCount)
      else
        var v := CheckRanks(lines);
        if v.Rejected? then v
        else if StrictEq(NaN, ToNumber(parts[4])) || StrictEq(NaN, ToNumber(parts[5])) then
          Rejected(BadRounds)
        else Accepted
  }

  /** The cells a rank string stands for, digits expanded to blanks. */
  function ExpandRank(l: string): seq<Cell>
  {
    if l == [] then [] else ExpandChar(l[0]) + ExpandRank(l[1..])
  }

  function ExpandChar(c: char): seq<Cell>
  {
    if IsRankDigit(c) then Blanks(DigitValue(c))
    else if PieceOf(c).Some? then [PieceOf(c).value]
    else []
  }

  function Blanks(n: nat): (r: seq<Cell>)
    ensures |r| == n && forall i :: 0 <= i < n ==> r[i] == Empty
  {
    seq(n, _ => Empty)
  }

  /** Expanding the first `k + 1` characters of a rank is expanding the
      first `k` and then the character at `k`. */
  lemma ExpandPrefix(line: string, k: int)
    requires 0 <= k < |line|
    ensures ExpandRank(line[..k + 1]) == ExpandRank(line[..k]) + ExpandChar(line[k])
  {
    assert line[..k + 1] == line[..k] + [line[k]];
    ExpandConcat(line[..k], [line[k]]);
    assert [line[k]][1..] == [];
  }

  /** Expansion distributes over concatenation. */
  lemma {:induction false} ExpandConcat(a: string, b: string)
    ensures ExpandRank(a + b) == ExpandRank(a) + ExpandRank(b)
  {
    if a == [] {
      assert a + b == b;
    } else {
      assert (a + b)[1..] == a[1..] + b;
      ExpandConcat(a[1..], b);
    }
  }

  /** A rank character expands to blanks when it is a digit, else to its piece. */
  lemma ExpandCharCases(c: char)
    requires IsRankChar(c)
    ensures '1' <= c <= '9' ==> ExpandChar(c) == Blanks(DigitValue(c))
    ensures !('1' <= c <= '9') ==> PieceOf(c).Some? && ExpandChar(c) == [PieceOf(c).value]
  {
  }

  lemma BlanksNext(j: nat)
    ensures Blanks(j + 1) == Blanks(j) + [Empty]
  {
  }

  /** A rank's width is defined exactly when all its characters are rank
      characters, and it is then the length of the expanded rank. */
  lemma {:induction false} RankWidthExpands(l: string)
    ensures RankWidth(l).Some? <==> forall k :: 0 <= k < |l| ==> IsRankChar(l[k])
    ensures RankWidth(l).Some? ==> RankWidth(l).value == |ExpandRank(l)|
  {
    if l != [] {
      RankWidthExpands(l[1..]);
      assert forall k :: 1 <= k < |l| ==> l[k] == l[1..][k - 1];
    }
  }

  /** A position string is accepted exactly when it has six fields, its
      layout has ten ranks, every rank uses only digits and piece letters,
      and every rank expands to nine cells; the counters play no part. */
  lemma ValidateAccepts(fen: string)
    ensures Validate(fen) == Accepted <==>
      var parts := Split(fen, ' ');
      |parts| == 6 && ValidLayout(Split(parts[0], '/'))
  {
    var parts := Split(fen, ' ');
    if |parts| == 6 {
      var lines := Split(parts[0], '/');
      if |lines| == 10 {
        CheckRanksAccepts(lines);
      }
    }
  }

  ghost predicate ValidLayout(lines: seq<string>)
  {
    |lines| == 10 &&
    forall i :: 0 <= i < 10 ==>
      (forall k :: 0 <= k < |lines[i]| ==> IsRankChar(lines[i][k])) && |ExpandRank(lines[i])| == 9
  }

  lemma {:induction false} CheckRanksAccepts(lines: seq<string>)
    ensures CheckRanks(lines) == Accepted <==>
      forall i :: 0 <= i < |lines| ==>
        (forall k :: 0 <= k < |lines[i]| ==> IsRankChar(lines[i][k])) && |ExpandRank(lines[i])| == 9
  {
    if lines != [] {
      RankWidthExpands(lines[0]);
      CheckRanksAccepts(lines[1..]);
      assert forall i :: 1 <= i < |lines| ==> lines[i] == lines[1..][i - 1];
    }
  }

  /** The counter check compares against NaN with `===`, so it never fires:
      no position string is rejected for its counters. */
  lemma CountersNeverRejected(fen: string)
    ensures Validate(fen) != Rejected(BadRounds)
  {
    var parts := Split(fen, ' ');
    if |parts| == 6 {
      CheckRanksRejects(Split(parts[0], '/'));
    }
  }

  /** When the layout (or the field count) is wrong, the matching error is
      reported: a bad character before a bad width within one rank. */
  lemma {:induction false} CheckRanksRejects(lines: seq<string>)
    ensures CheckRanks(lines) == Rejected(BadPieceChar) ==>
      exists i, k :: 0 <= i < |lines| && 0 <= k < |lines[i]| && !IsRankChar(lines[i][k])
    ensures CheckRanks(lines) == Rejected(BadRankWidth) ==>
      exists i :: 0 <= i < |lines| && |ExpandRank(lines[i])| != 9 &&
        forall k :: 0 <= k < |lines[i]| ==> IsRankChar(lines[i][k])
    ensures CheckRanks(lines).Rejected? ==>
      CheckRanks(lines).error == BadPieceChar || CheckRanks(lines).error == BadRankWidth
  {
    if lines != [] {
      RankWidthExpands(lines[0]);
      if RankWidth(lines[0]).Some? && RankWidth(lines[0]).value == 9 {
        CheckRanksRejects(lines[1..]);
        if CheckRanks(lines) == Rejected(BadPieceChar) {
          var i, k :| 0 <= i < |lines[1..]| && 0 <= k < |lines[1..][i]| && !IsRankChar(lines[1..][i][k]);
          assert lines[i + 1] == lines[1..][i];
        }
        if CheckRanks(lines) == Rejected(BadRankWidth) {
          var i :| 0 <= i < |lines[1..]| && |ExpandRank(lines[1..][i])| != 9 &&
            forall k :: 0 <= k < |lines[1..][i]| ==> IsRankChar(lines[1..][i][k]);
          assert lines[i + 1] == lines[1..][i];
        }
      }
    }
  }

  /** One step of the count: `n` plus the width from `k` on. */
  lemma RankWidthAt(l: string, k: int, n: int)
    requires 0 <= k < |l|
    ensures PlusOpt(n, RankWidth(l[k..])) ==
      if IsRankDigit(l[k]) then PlusOpt(n + DigitValue(l[k]), RankWidth(l[k + 1..]))
      else if l[k] in WhitePieces || l[k] in BlackPieces then PlusOpt(n + 1, RankWidth(l[k + 1..]))
      else None
  {
    assert l[k..][1..] == l[k + 1..];
  }

  /** The inner loop of `validate`: the width of one rank, or `None` at the
      first character that is neither a digit nor a piece letter. */
  method RankCount(l: string) returns (w: Option<int>)
    ensures w == RankWidth(l)
  {
    var count := 0;
    var k := 0;
    while k < |l|
      invariant 0 <= k <= |l|
      invariant RankWidth(l) == PlusOpt(count, RankWidth(l[k..]))
    {
      var c := l[k];
      RankWidthAt(l, k, count);
      if IsRankDigit(c) {
        count := count + DigitValue(c);
      } else if c in WhitePieces || c in BlackPieces {
        count := count + 1;
      } else {
        return None;
      }
      k := k + 1;
    }
    return Some(count);
  }

  /** `ucci.validate` as the source runs it: loops over the ranks and their
      characters, accumulating each rank's width. */
  method ValidateFen(fen: string) returns (v: Validation)
    ensures v == Validate(fen)
  {
    var parts := Split(fen, ' ');
    if |parts| != 6 {
      return Rejected(BadPartCount);
    }
    var lines := Split(parts[0], '/');
    if |lines| != 10 {
      return Rejected(BadLineCount);
    }
    var i := 0;
    while i < |lines|
      invariant 0 <= i <= |lines|
      invariant CheckRanks(lines) == CheckRanks(lines[i..])
    {
      var count := RankCount(lines[i]);
      assert lines[i..][1..] == lines[i + 1..];
      if count.None? {
        return Rejected(BadPieceChar);
      }
      if count.value != 9 {
        return Rejected(BadRankWidth);
      }
      i := i + 1;
    }
    if StrictEq(NaN, ToNumber(parts[4])) || StrictEq(NaN, ToNumber(parts[5])) {
      return Rejected(BadRounds);
    }
    return Accepted;
  }

  // ---------------------------------------------------------------------
  // Square names

  /** `indexOf`: the first index of `c` in `s`, or -1. */
  function IndexOf(s: string, c: char): (i: int)
    ensures -1 <= i < |s|
    ensures i >= 0 ==> s[i] == c && forall j :: 0 <= j < i ==> s[j] != c
    ensures i == -1 <==> c !in s
  {
    if s == [] then -1
    else if s[0] == c then 0
    else var j := IndexOf(s[1..], c); if j < 0 then -1 else j + 1
  }

  /** The file a letter names, -1 for a character that is not `a`-`i`. */
  function FileNumber(c: char): int
  {
    if 'a' <= c <= 'i' then c as int - 'a' as int else -1
  }

  /** `strToPos`: a file letter and a rank digit to `[rank, file]`. The
      lookups `col.indexOf` and `row.indexOf` are written out by their
      values, which `FileIndex` and `RankIndex` establish. */
  function StrToPos(s: string): Option<Square>
  {
    if |s| != 2 then None
    else if FileNumber(s[0]) < 0 then None
    else if s[1] < '0' || s[1] > '9' then None
    else Some(Pos(DigitValue(s[1]), FileNumber(s[0])))
  }

  /** `strToPos` exactly as written, with both table lookups. */
  lemma StrToPosLookups(s: string)
    ensures StrToPos(s) ==
      if |s| != 2 then None
      else if IndexOf(Files, s[0]) < 0 then None
      else if s[1] < '0' || s[1] > '9' then None
      else Some(Pos(IndexOf(Ranks, s[1]), IndexOf(Files, s[0])))
  {
    if |s| == 2 {
      FileIndex(s[0]);
      RankIndex(s[1]);
      var f, r := IndexOf(Files, s[0]), IndexOf(Ranks, s[1]);
      assert f == FileNumber(s[0]);
      if f >= 0 && '0' <= s[1] <= '9' {
        assert r == DigitValue(s[1]);
      }
    }
  }

  /** `col.indexOf(c)`: the file letters `a`-`i` index 0-8. */
  lemma FileIndex(c: char)
    ensures IndexOf(Files, c) == if 'a' <= c <= 'i' then c as int - 'a' as int else -1
  {
    if 'a' <= c <= 'i' {
      var d := c as int - 'a' as int;
      assert Files[d] == c by {
        if d == 0 {} else if d == 1 {} else if d == 2 {} else if d == 3 {} else if d == 4 {}
        else if d == 5 {} else if d == 6 {} else if d == 7 {} else {}
      }
    } else {
      assert c != 'a' && c != 'b' && c != 'c' && c != 'd' && c != 'e' && c != 'f' && c != 'g'
        && c != 'h' && c != 'i';
      assert c !in Files;
    }
  }

  /** `row.indexOf(r)`: the digits `0`-`9` index 0-9. */
  lemma RankIndex(c: char)
    ensures IndexOf(Ranks, c) == if '0' <= c <= '9' then DigitValue(c) else -1
  {
    if '0' <= c <= '9' {
      var d := DigitValue(c);
      assert Ranks[d] == c by {
        if d == 0 {} else if d == 1 {} else if d == 2 {} else if d == 3 {} else if d == 4 {}
        else if d == 5 {} else if d == 6 {} else if d == 7 {} else if d == 8 {} else {}
      }
    } else {
      assert c != '0' && c != '1' && c != '2' && c != '3' && c != '4' && c != '5' && c != '6'
        && c != '7' && c != '8' && c != '9';
      assert c !in Ranks;
    }
  }

  /** The name of a square, `col[file] + row[rank]`, as the listing, the
      matrix and the move enumeration write it. */
  function SquareName(p: Square): string
  {
    [Files[p.file], Ranks[p.rank]]
  }

  /** Every square name parses back to its square. */
  lemma SquareNameParses(p: Square)
    ensures StrToPos(SquareName(p)) == Some(p)
  {
    FilesAt(p.file);
    RanksAt(p.rank);
  }

  lemma FilesAt(i: int)
    requires 0 <= i < 9
    ensures Files[i] as int == 'a' as int + i
  {
    if i == 0 {} else if i == 1 {} else if i == 2 {} else if i == 3 {} else if i == 4 {}
    else if i == 5 {} else if i == 6 {} else if i == 7 {} else {}
  }

  lemma RanksAt(i: int)
    requires 0 <= i < 10
    ensures Ranks[i] as int == '0' as int + i
  {
    if i == 0 {} else if i == 1 {} else if i == 2 {} else if i == 3 {} else if i == 4 {}
    else if i == 5 {} else if i == 6 {} else if i == 7 {} else if i == 8 {} else {}
  }

  /** A string parses only if it is the name of the square it parses to:
      exactly two characters, a file letter `a`-`i` and a digit `0`-`9`. */
  lemma StrToPosNames(s: string)
    ensures StrToPos(s).Some? ==> SquareName(StrToPos(s).value) == s
    ensures StrToPos(s).Some? <==> |s| == 2 && 'a' <= s[0] <= 'i' && '0' <= s[1] <= '9'
  {
    if |s| == 2 {
      if StrToPos(s).Some? {
        var p := StrToPos(s).value;
        FilesAt(p.file);
        RanksAt(p.rank);
      }
    }
  }

  /** Different squares have different names. */
  lemma SquareNameInjective(p: Square, q: Square)
    requires SquareName(p) == SquareName(q)
    ensures p == q
  {
    SquareNameParses(p);
    SquareNameParses(q);
  }
}
