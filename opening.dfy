/** The standard Xiangqi opening layout and a few facts about how the rules
    treat it: what the library's default FEN describes. */
module Opening {
  import opened Notation
  import opened Rules

  /** The grid of the default FEN, cell by cell: rank 0 is black's back
      rank, rank 9 white's. */
  function Standard(): Grid
  {
    var e := Empty;
    [ [Piece(Rook, Black), Piece(Knight, Black), Piece(Bishop, Black), Piece(Advisor, Black), Piece(King, Black),
       Piece(Advisor, Black), Piece(Bishop, Black), Piece(Knight, Black), Piece(Rook, Black)],
      [e, e, e, e, e, e, e, e, e],
      [e, Piece(Cannon, Black), e, e, e, e, e, Piece(Cannon, Black), e],
      [Piece(Pawn, Black), e, Piece(Pawn, Black), e, Piece(Pawn, Black), e, Piece(Pawn, Black), e, Piece(Pawn, Black)],
      [e, e, e, e, e, e, e, e, e],
      [e, e, e, e, e, e, e, e, e],
      [Piece(Pawn, White), e, Piece(Pawn, White), e, Piece(Pawn, White), e, Piece(Pawn, White), e, Piece(Pawn, White)],
      [e, Piece(Cannon, White), e, e, e, e, e, Piece(Cannon, White), e],
      [e, e, e, e, e, e, e, e, e],
      [Piece(Rook, White), Piece(Knight, White), Piece(Bishop, White), Piece(Advisor, White), Piece(King, White),
       Piece(Advisor, White), Piece(Bishop, White), Piece(Knight, White), Piece(Rook, White)] ]
  }

  /** White's knight on b9 may go to a7 or c7 and nowhere else: its other
      leap, to d8, is blocked by the bishop beside it. */
  lemma KnightOpening(t: Square)
    ensures IsValidMove(Standard(), StrToPos("b9"), Some(t)).Pass? <==> t == Pos(7, 0) || t == Pos(7, 2)
  {
    assert StrToPos("b9") == Some(Pos(9, 1));
    LegalKnight(Standard(), Pos(9, 1), t, White);
  }

  /** The possible-moves list for that knight is a7 then c7. */
  lemma KnightOpeningList()
    ensures PossibleMoves(Standard(), StrToPos("b9")) == ["a7", "c7"]
  {
    forall t: Square
      ensures IsValidMove(Standard(), StrToPos("b9"), Some(t)).Pass? <==> t == Pos(7, 0) || t == Pos(7, 2)
    {
      KnightOpening(t);
    }
    ListOfTwo(Standard(), StrToPos("b9"));
  }

  /** A source whose moves go exactly to a7 and c7 lists those two names,
      in row-major order. */
  lemma ListOfTwo(g: Grid, ps: Option<Square>)
    requires forall t: Square :: IsValidMove(g, ps, Some(t)).Pass? <==> t == Pos(7, 0) || t == Pos(7, 2)
    ensures PossibleMoves(g, ps) == ["a7", "c7"]
  {
    var l := PossibleMoves(g, ps);
    assert StrToPos("a7") == Some(Pos(7, 0));
    assert StrToPos("c7") == Some(Pos(7, 2));
    PossibleMovesExact(g, ps, "a7");
    PossibleMovesExact(g, ps, "c7");
    forall i | 0 <= i < |l| ensures l[i] == "a7" || l[i] == "c7"
    {
      PossibleMovesExact(g, ps, l[i]);
      StrToPosNames(l[i]);
    }
    var i :| 0 <= i < |l| && l[i] == "a7";
    var j :| 0 <= j < |l| && l[j] == "c7";
    assert NameIndex("a7") == 63 && NameIndex("c7") == 65;
    assert i < j;
    forall k | 0 <= k < |l| ensures NameIndex(l[k]) == 63 || NameIndex(l[k]) == 65 { }
    if |l| >= 3 {
      FirstThree(l);
      assert false;
    }
    assert i == 0 && j == 1;
  }

  /** The first three names of a list in strictly increasing square order. */
  lemma FirstThree(l: seq<string>)
    ensures |l| >= 3 && (forall i, j :: 0 <= i < j < |l| ==> NameIndex(l[i]) < NameIndex(l[j])) ==>
      NameIndex(l[0]) < NameIndex(l[1]) < NameIndex(l[2])
  {
  }

  /** White's cannon on b7 takes black's knight on b0 over the black cannon
      on b2, the one piece between them. */
  lemma CannonCaptures()
    ensures (set r | 0 < r < 7 && Standard()[r][1] != Empty) == {2}
    ensures IsValidMove(Standard(), StrToPos("b7"), StrToPos("b0")) == Pass
  {
    var g := Standard();
    assert StrToPos("b7") == Some(Pos(7, 1));
    assert StrToPos("b0") == Some(Pos(0, 1));
    ObstaclesMeaning(g, Pos(7, 1), Pos(0, 1));
    var s := set r | 0 < r < 7 && g[r][1] != Empty;
    assert 2 in s;
    forall r | r in s ensures r == 2 { }
    assert s == {2};
  }

  /** The same cannon may not take the black cannon on b2: nothing stands
      between them to jump over. */
  lemma CannonNeedsScreen()
    ensures (set r | 2 < r < 7 && Standard()[r][1] != Empty) == {}
    ensures IsValidMove(Standard(), StrToPos("b7"), StrToPos("b2")) == Fail(CannonNoScreen)
  {
    var g := Standard();
    assert StrToPos("b7") == Some(Pos(7, 1));
    assert StrToPos("b2") == Some(Pos(2, 1));
    ObstaclesMeaning(g, Pos(7, 1), Pos(2, 1));
    var s := set r | 2 < r < 7 && g[r][1] != Empty;
    forall r | r in s ensures false { }
    assert s == {};
  }
}
