/**
  The check detection of `Player.move` as king_snake/figures/king.py writes it (`King.in_check`),
  beside the corrected `Game.KingInCheck` that the rest of the model uses.

  As written, `in_check` walks the opponent's roster in order and asks each figure for its legal
  moves. Rook, Bishop and Queen have no movement rules: asking them raises NotImplementedError.
  A roster set up by `Player.set_up_board` holds eight pawns and then a rook, so unless a pawn
  threatens the king the scan raises before it can answer "not in check", and no move can
  complete. The corrected detection lets a figure without movement rules threaten nothing.
 */
module CheckScan {
  import opened Wrappers
  import opened Geometry
  import opened Figures
  import opened Game
  import opened Setup

  /** Every index names a figure that is on the board or off it, never on a field outside it. */
  ghost predicate Scannable(arena: seq<Figure>, ids: seq<nat>)
  {
    forall k :: 0 <= k < |ids| ==> ids[k] < |arena| && Placed(arena[ids[k]])
  }

  /** The loop of `King.in_check` as written: the king's field `x` (None once captured) is looked
      up in each figure's legal moves in roster order; the first figure without movement rules
      raises NotImplementedError. */
  function ScanAsWritten(arena: seq<Figure>, occ: Occupancy, ids: seq<nat>, x: Option<Field>): (r: Result<bool, Error>)
    requires Scannable(arena, ids)
    ensures r.Ok? && r.value ==>
      x.Some? && exists k :: 0 <= k < |ids| && Threatens(arena[ids[k]], occ, x.value)
    ensures r.Err? ==> r.error == NotImplementedError
    decreases |ids|
  {
    if ids == [] then Ok(false)
    else
      match LegalMoves(arena[ids[0]], occ)
      case Unsupported => Err(NotImplementedError)
      case Dests(ds) =>
        if x.Some? && x.value in ds then Ok(true)
        else
          var r := ScanAsWritten(arena, occ, ids[1..], x);
          assert r.Ok? && r.value ==> exists k :: 0 <= k < |ids| && Threatens(arena[ids[k]], occ, x.value) by {
            if r.Ok? && r.value {
              var k :| 0 <= k < |ids[1..]| && Threatens(arena[ids[1..][k]], occ, x.value);
              assert ids[1..][k] == ids[k + 1];
            }
          }
          r
  }

  /** When the scan as written answers "not threatened", it has met no figure without movement
      rules and no figure threatening `x`. */
  lemma {:induction false} ScanClear(arena: seq<Figure>, occ: Occupancy, ids: seq<nat>, x: Option<Field>, j: int)
    requires Scannable(arena, ids) && ScanAsWritten(arena, occ, ids, x) == Ok(false)
    requires 0 <= j < |ids|
    ensures LegalMoves(arena[ids[j]], occ).Dests?
    ensures x.Some? ==> !Threatens(arena[ids[j]], occ, x.value)
    decreases |ids|
  {
    if j > 0 {
      ScanClear(arena, occ, ids[1..], x, j - 1);
      assert ids[1..][j - 1] == ids[j];
    }
  }

  /** A roster holding a rook, bishop or queen never lets the scan as written answer "not
      threatened". */
  lemma ScanNeverClears(arena: seq<Figure>, occ: Occupancy, ids: seq<nat>, x: Option<Field>, j: int)
    requires Scannable(arena, ids) && 0 <= j < |ids|
    requires Unruled(arena[ids[j]].kind)
    ensures ScanAsWritten(arena, occ, ids, x) != Ok(false)
  {
    if ScanAsWritten(arena, occ, ids, x) == Ok(false) {
      ScanClear(arena, occ, ids, x, j);
    }
  }

  /** `King.in_check` as written (with the opponent looked up as `Player.opponent` does). Whenever
      it answers, the answer is the corrected `KingInCheck`; otherwise it fails with
      NotImplementedError. */
  function InCheckAsWritten(g: GameState, c: Color): (r: Result<bool, Error>)
    requires Consistent(g) && c in g.players && Opponent(c) in g.players
    ensures r.Ok? ==> r.value == KingInCheck(g, c)
    ensures r.Err? ==> r.error == NotImplementedError
  {
    RosterScannable(g, Opponent(c));
    var ids := g.players[Opponent(c)].figures;
    var x := g.arena[g.players[c].king].position;
    var r := ScanAsWritten(g.arena, g.occupant, ids, x);
    assert r == Ok(false) ==> !KingInCheck(g, c) by {
      if r == Ok(false) && x.Some? {
        forall k | 0 <= k < |ids| ensures !Threatens(g.arena[ids[k]], g.occupant, x.value) {
          ScanClear(g.arena, g.occupant, ids, x, k);
        }
      }
    }
    r
  }

  /** `Player.move` with the check detection as written: an error from the scan propagates. The
      error carries the board the source leaves behind: the state before the move for every
      error raised before the figure moves and for the rolled-back check, and the state after
      the move when the scan raises, since the rollback is then never reached. */
  function PlayerMoveAsWritten(g: GameState, p: Color, start: string, goal: string): (r: Result<GameState, (Error, GameState)>)
    requires Consistent(g)
    ensures r.Ok? ==> PlayerMove(g, p, start, goal) == Ok(r.value)
    ensures r.Err? && r.error.0 != NotImplementedError ==>
      r.error.1 == g && PlayerMove(g, p, start, goal) == Err(r.error.0)
    ensures r.Err? ==> Consistent(r.error.1)
  {
    if g.current != Some(p) then Err((TurnError, g))
    else if FieldAt(start).None? || FieldAt(goal).None? then Err((KeyError, g))
    else
      var from, to := FieldAt(start).value, FieldAt(goal).value;
      assert p in g.players && Opponent(p) in g.players by { assert p == White || p == Black; }
      match Mover(g, p, from)
      case None => Err((IllegalMoveError, g))
      case Some(id) =>
        assert RosterOf(g.players[p], g.arena, p);
        PlayerMoveOwned(g, p, start, goal, id);
        MoveOwnedAsWritten(g, p, id, to)
  }

  /** Once the turn, the two names and the ownership check pass, `Player.move` as written is its
      second half. */
  lemma AsWrittenOwned(g: GameState, p: Color, start: string, goal: string, id: nat)
    requires Consistent(g) && g.current == Some(p) && FieldAt(start).Some? && FieldAt(goal).Some?
    requires p in g.players && Mover(g, p, FieldAt(start).value) == Some(id)
    ensures Opponent(p) in g.players && id < |g.arena|
    ensures PlayerMoveAsWritten(g, p, start, goal) == MoveOwnedAsWritten(g, p, id, FieldAt(goal).value)
  {
    assert p == White || p == Black;
    assert RosterOf(g.players[p], g.arena, p);
  }

  /** The second half of `Player.move` as written, once the player's own figure `id` is found. */
  function MoveOwnedAsWritten(g: GameState, p: Color, id: nat, to: Field): (r: Result<GameState, (Error, GameState)>)
    requires Consistent(g) && p in g.players && Opponent(p) in g.players
    requires id < |g.arena| && to.OnBoard()
    ensures r.Ok? ==> MoveOwned(g, p, id, to) == Ok(r.value)
    ensures r.Err? && r.error.0 != NotImplementedError ==> r.error.1 == g && MoveOwned(g, p, id, to) == Err(r.error.0)
    ensures Attempt(g, id, to).Ok? && r.Err? && r.error.0 == NotImplementedError ==>
      r.error.1 == Attempt(g, id, to).value.0
    ensures r.Err? ==> Consistent(r.error.1)
  {
    match Attempt(g, id, to)
    case Err(e) => Err((e, g))
    case Ok((h, victim)) =>
      match InCheckAsWritten(h, p)
      case Err(e) => Err((e, h))
      case Ok(inCheck) =>
        if inCheck then Err((IllegalMoveError, g))
        else
          CommitConsistent(h, id, victim);
          Ok(Commit(h, id, victim))
  }

  /** Kinds that have no movement rules in the source. */
  predicate Unruled(k: Kind)
  {
    k.Rook? || k.Bishop? || k.Queen?
  }

  /** Unfolds a successful `Player.move` as written into its steps: the position after the move
      keeps every figure's kind, and the scan of the opponent's roster answered "not threatened". */
  lemma AsWrittenSteps(g: GameState, p: Color, start: string, goal: string) returns (h: GameState)
    requires Consistent(g) && PlayerMoveAsWritten(g, p, start, goal).Ok?
    ensures p in g.players && Opponent(p) in g.players
    ensures SameRoles(g.arena, h.arena) && h.players == g.players
    ensures Scannable(h.arena, g.players[Opponent(p)].figures)
    ensures ScanAsWritten(h.arena, h.occupant, g.players[Opponent(p)].figures, h.arena[h.players[p].king].position) == Ok(false)
  {
    assert g.current == Some(p) && FieldAt(start).Some? && FieldAt(goal).Some?;
    assert p == White || p == Black;
    var from, to := FieldAt(start).value, FieldAt(goal).value;
    assert Mover(g, p, from).Some?;
    var id := Mover(g, p, from).value;
    AsWrittenOwned(g, p, start, goal, id);
    var r := Attempt(g, id, to);
    assert r.Ok?;
    h := r.value.0;
    AttemptKeepsRoles(g, id, to);
    RosterScannable(h, Opponent(p));
    assert InCheckAsWritten(h, p) == Ok(false);
  }

  lemma RosterScannable(h: GameState, c: Color)
    requires Consistent(h) && c in h.players
    ensures Scannable(h.arena, h.players[c].figures)
  {
    assert RosterOf(h.players[c], h.arena, c);
    forall k | 0 <= k < |h.players[c].figures| ensures Placed(h.arena[h.players[c].figures[k]]) {
      WellformedPlaced(h, h.players[c].figures[k]);
    }
  }

  /** As written, no move completes while the opponent still has a rook, bishop or queen in its
      roster. */
  lemma AsWrittenNeverMoves(g: GameState, p: Color, start: string, goal: string, j: int)
    requires Consistent(g) && Opponent(p) in g.players
    requires 0 <= j < |g.players[Opponent(p)].figures|
    requires Unruled(g.arena[g.players[Opponent(p)].figures[j]].kind)
    ensures PlayerMoveAsWritten(g, p, start, goal).Err?
  {
    if PlayerMoveAsWritten(g, p, start, goal).Ok? {
      var h := AsWrittenSteps(g, p, start, goal);
      var ids := g.players[Opponent(p)].figures;
      assert h.arena[ids[j]].kind == g.arena[ids[j]].kind;
      ScanNeverClears(h.arena, h.occupant, ids, h.arena[h.players[p].king].position, j);
    }
  }

  /** In a new game every move fails as written: black's roster holds a rook at index 8. */
  lemma NewGameAsWritten(g: GameState, start: string, goal: string)
    requires Unset(g)
    ensures Consistent(WithPlayers(g))
    ensures PlayerMoveAsWritten(WithPlayers(g), White, start, goal).Err?
  {
    NewGame(g);
    OpeningAsWritten(WithPlayers(g), start, goal);
  }

  lemma OpeningAsWritten(g: GameState, start: string, goal: string)
    requires Consistent(g) && Opening(g)
    ensures PlayerMoveAsWritten(g, White, start, goal).Err?
  {
    assert g.players[Black].figures[8] == 24;
    assert g.arena[16 + 8].kind == SetupOrder[8];
    AsWrittenNeverMoves(g, White, start, goal, 8);
  }

  /** As written, white's E2-E3 in the opening position raises NotImplementedError after the
      pawn has moved: the rollback is never reached, so the pawn is left on E3, E2 is empty and
      white is still to move. */
  lemma OpeningPawnStrandedAsWritten(g: GameState)
    requires Consistent(g) && Opening(g)
    ensures var r := PlayerMoveAsWritten(g, White, "E2", "E3");
      && r.Err? && r.error.0 == NotImplementedError
      && Sq('E', 2) !in r.error.1.occupant
      && Sq('E', 3) in r.error.1.occupant && r.error.1.occupant[Sq('E', 3)] == 4
      && r.error.1.current == Some(White)
  {
    OpeningFacts(g);
    PawnStranded(g);
  }

  /** E2-E3 as written on any consistent board that agrees with the opening position on E2, E3,
      the white king and the black figures. */
  lemma PawnStranded(g: GameState)
    requires Consistent(g) && g.current == Some(White) && White in g.players && Black in g.players
    requires |g.arena| == 32
    requires g.arena[4] == Figure(Pawn(false), White, Some(Sq('E', 2)), false, None)
    requires 4 in g.players[White].figures && g.players[White].king == 15
    requires g.arena[15].position == Some(Sq('E', 1)) && Sq('E', 3) !in g.occupant
    requires g.players[Black] == Player(Ids(16, 16), 31)
    requires forall k :: 0 <= k < 16 ==>
      g.arena[16 + k] == Figure(SetupOrder[k], Black, Some(Home(Black, k)), false, None)
    ensures var r := PlayerMoveAsWritten(g, White, "E2", "E3");
      && r.Err? && r.error.0 == NotImplementedError
      && Sq('E', 2) !in r.error.1.occupant
      && Sq('E', 3) in r.error.1.occupant && r.error.1.occupant[Sq('E', 3)] == 4
      && r.error.1.current == Some(White)
  {
    var h := OpeningPawnMove(g);
    OpeningNames();
    assert Mover(g, White, Sq('E', 2)) == Some(4);
    RookBlocksScan(h);
    assert MoveOwnedAsWritten(g, White, 4, Sq('E', 3)) == Err((NotImplementedError, h));
    AsWrittenOwned(g, White, "E2", "E3", 4);
  }

  /** With black's figures on their homes (a rook at roster index 8) and white's king safe, the
      scan as written raises. */
  lemma RookBlocksScan(h: GameState)
    requires Consistent(h) && White in h.players && Black in h.players && |h.arena| == 32
    requires h.players[Black] == Player(Ids(16, 16), 31)
    requires forall k :: 0 <= k < 16 ==>
      h.arena[16 + k] == Figure(SetupOrder[k], Black, Some(Home(Black, k)), false, None)
    requires !KingInCheck(h, White)
    ensures InCheckAsWritten(h, White) == Err(NotImplementedError)
  {
    assert h.arena[16 + 8].kind == SetupOrder[8];
    RosterScannable(h, Black);
    assert h.players[Black].figures[8] == 24;
    ScanNeverClears(h.arena, h.occupant, h.players[Black].figures, h.arena[h.players[White].king].position, 8);
  }

  // ---------------------------------------------------------------------------
  // The corrected detection on the same input
  // ---------------------------------------------------------------------------

  /** No black figure on its home threatens E1. */
  lemma BlackHomeSafe(occ: Occupancy, k: int)
    requires 0 <= k < 16
    ensures !Threatens(Figure(SetupOrder[k], Black, Some(Home(Black, k)), false, None), occ, Sq('E', 1))
  {
    var home := Home(Black, k);
    var fig := Figure(SetupOrder[k], Black, Some(home), false, None);
    if k < 8 {
      assert fig.kind.Pawn?;
      PawnMovesExact(occ, home);
    } else if k == 9 || k == 12 {
      assert fig.kind == Knight;
      KnightMovesExact(home, Sq('E', 1));
    } else if k == 15 {
      assert fig.kind == King;
      KingMovesExact(occ, home, Sq('E', 1));
    } else {
      assert Unruled(fig.kind);
    }
  }

  /** With the corrected detection, white's opening move E2-E3 completes. */
  lemma OpeningMove(g: GameState)
    requires Unset(g)
    ensures Consistent(WithPlayers(g))
    ensures PlayerMove(WithPlayers(g), White, "E2", "E3").Ok?
  {
    NewGame(g);
    OpeningMoveFrom(WithPlayers(g));
  }

  /** E3 is free in the opening position: every figure stands on a home, none on rank 3. */
  lemma OpeningE3Free(g: GameState)
    requires Consistent(g) && Opening(g)
    ensures Sq('E', 3) !in g.occupant
  {
    forall i | 0 <= i < |g.arena| ensures g.arena[i].position != Some(Sq('E', 3)) {
      if i < 16 {
        assert g.arena[i].position == Some(Home(White, i));
      } else {
        assert g.arena[16 + (i - 16)].position == Some(Home(Black, i - 16));
      }
    }
  }

  lemma {:induction false} OpeningMoveFrom(g: GameState)
    requires Consistent(g) && Opening(g)
    ensures PlayerMove(g, White, "E2", "E3").Ok?
  {
    OpeningFacts(g);
    PawnMoveCompletes(g);
  }

  /** E2-E3 completes on any consistent board that agrees with the opening position on E2, E3,
      the white king and the black figures. */
  lemma PawnMoveCompletes(g: GameState)
    requires Consistent(g) && g.current == Some(White) && White in g.players && Black in g.players
    requires |g.arena| == 32
    requires g.arena[4] == Figure(Pawn(false), White, Some(Sq('E', 2)), false, None)
    requires 4 in g.players[White].figures && g.players[White].king == 15
    requires g.arena[15].position == Some(Sq('E', 1)) && Sq('E', 3) !in g.occupant
    requires g.players[Black] == Player(Ids(16, 16), 31)
    requires forall k :: 0 <= k < 16 ==>
      g.arena[16 + k] == Figure(SetupOrder[k], Black, Some(Home(Black, k)), false, None)
    ensures PlayerMove(g, White, "E2", "E3").Ok?
  {
    var h := OpeningPawnMove(g);
    OpeningNames();
    assert Mover(g, White, Sq('E', 2)) == Some(4);
    PlayerMoveOwned(g, White, "E2", "E3", 4);
    assert MoveOwned(g, White, 4, Sq('E', 3)).Ok?;
  }

  lemma OpeningNames()
    ensures FieldAt("E2") == Some(Sq('E', 2)) && FieldAt("E3") == Some(Sq('E', 3))
  {
  }

  /** What the opening position says about E2, E3, the white king and the black figures. */
  lemma OpeningFacts(g: GameState)
    requires Consistent(g) && Opening(g)
    ensures g.current == Some(White) && White in g.players && Black in g.players && |g.arena| == 32
    ensures g.arena[4] == Figure(Pawn(false), White, Some(Sq('E', 2)), false, None)
    ensures 4 in g.players[White].figures && g.players[White].king == 15
    ensures g.arena[15].position == Some(Sq('E', 1)) && Sq('E', 3) !in g.occupant
    ensures g.players[Black] == Player(Ids(16, 16), 31)
    ensures forall k :: 0 <= k < 16 ==>
      g.arena[16 + k] == Figure(SetupOrder[k], Black, Some(Home(Black, k)), false, None)
  {
    OpeningE3Free(g);
    assert g.players[White].figures[4] == 4;
    assert g.arena[4] == Figure(SetupOrder[4], White, Some(Home(White, 4)), false, None);
    assert g.arena[15] == Figure(SetupOrder[15], White, Some(Home(White, 15)), false, None);
  }

  /** The white pawn on E2 moves to E3 without putting the white king in check. */
  lemma OpeningPawnMove(g: GameState) returns (h: GameState)
    requires Consistent(g) && White in g.players && Black in g.players && |g.arena| == 32
    requires g.arena[4] == Figure(Pawn(false), White, Some(Sq('E', 2)), false, None)
    requires g.players[White].king == 15
    requires g.arena[15].position == Some(Sq('E', 1)) && Sq('E', 3) !in g.occupant
    requires g.players[Black] == Player(Ids(16, 16), 31)
    requires forall k :: 0 <= k < 16 ==>
      g.arena[16 + k] == Figure(SetupOrder[k], Black, Some(Home(Black, k)), false, None)
    ensures Attempt(g, 4, Sq('E', 3)) == Ok((h, None))
    ensures Consistent(h) && !KingInCheck(h, White)
    ensures h.players == g.players && h.current == g.current && |h.arena| == 32
    ensures Sq('E', 2) !in h.occupant && Sq('E', 3) in h.occupant && h.occupant[Sq('E', 3)] == 4
    ensures forall k :: 0 <= k < 16 ==>
      h.arena[16 + k] == Figure(SetupOrder[k], Black, Some(Home(Black, k)), false, None)
  {
    var e3 := Sq('E', 3);
    PawnMovesExact(g.occupant, Sq('E', 2));
    assert Relocate(g, 4, e3).Ok?;
    h := Relocate(g, 4, e3).value;
    assert h.arena[15] == g.arena[15];
    forall k | 0 <= k < 16
      ensures h.arena[16 + k] == Figure(SetupOrder[k], Black, Some(Home(Black, k)), false, None)
    {
      assert h.arena[16 + k] == g.arena[16 + k];
    }
    OpeningNoCheck(h);
  }

  /** After E2-E3 no black figure on its home threatens the white king on E1. */
  lemma OpeningNoCheck(h: GameState)
    requires Consistent(h) && White in h.players && Black in h.players && |h.arena| == 32
    requires h.players[White].king == 15 && h.arena[15].position == Some(Sq('E', 1))
    requires h.players[Black] == Player(Ids(16, 16), 31)
    requires forall k :: 0 <= k < 16 ==>
      h.arena[16 + k] == Figure(SetupOrder[k], Black, Some(Home(Black, k)), false, None)
    ensures !KingInCheck(h, White)
  {
    forall k | 0 <= k < |h.players[Black].figures|
      ensures !Threatens(h.arena[h.players[Black].figures[k]], h.occupant, Sq('E', 1))
    {
      assert h.players[Black].figures[k] == 16 + k;
      BlackHomeSafe(h.occupant, k);
    }
  }
}
