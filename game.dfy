/**
  The state of a game and its transitions, as values (king_snake/chessboard.py,
  king_snake/figures/figure.py, king_snake/player.py).

  `GameState` gathers everything the source keeps in its objects: the `figure` attribute of every
  field (`occupant`), every Figure object ever created (`arena`, a figure is named by its index),
  each Player's `figures` list and `king` (`players`, a player is named by its colour),
  `Chessboard.current_player` and the move counter. The class in board.dfy holds the same state
  in fields and updates it in place; its methods are specified by the functions here.
 */
module Game {
  import opened Wrappers
  import opened Geometry
  import opened Figures

  /** The exceptions of king_snake/errors.py that the modelled code raises, and the two built-in
      exceptions that reach a caller: KeyError for an unknown field name, NotImplementedError from
      a figure class without `legal_moves`. */
  datatype Error =
    | IllegalMoveError
    | IllegalCaptureError
    | TurnError
    | FieldOccupiedError
    | KeyError
    | NotImplementedError

  /** A Player's `figures` list (arena indices, in creation order) and its `king`. */
  datatype Player = Player(figures: seq<nat>, king: nat)

  datatype GameState = GameState(
    occupant: Occupancy,
    arena: seq<Figure>,
    players: map<Color, Player>,
    current: Option<Color>,
    moveNumber: nat)

  /** Every occupied field and the figure on it point at each other. */
  ghost predicate Linked(occ: Occupancy, arena: seq<Figure>)
  {
    && (forall f :: f in occ ==> f.OnBoard() && occ[f] < |arena| && arena[occ[f]].position == Some(f))
    && (forall i :: 0 <= i < |arena| && arena[i].position.Some? ==>
          arena[i].position.value in occ && occ[arena[i].position.value] == i)
  }

  /** The player's figures exist and have its colour; its king is a King of its colour. */
  ghost predicate RosterOf(p: Player, arena: seq<Figure>, c: Color)
  {
    && (forall k :: 0 <= k < |p.figures| ==> p.figures[k] < |arena| && arena[p.figures[k]].color == c)
    && p.king < |arena| && arena[p.king].kind == King && arena[p.king].color == c
  }

  ghost predicate Rostered(players: map<Color, Player>, arena: seq<Figure>)
  {
    forall c :: c in players ==> RosterOf(players[c], arena, c)
  }

  /** Fields, figures and rosters agree with each other. */
  ghost predicate Wellformed(g: GameState)
  {
    Linked(g.occupant, g.arena) && Rostered(g.players, g.arena)
  }

  /** A well-formed state in which a side to move has an opponent. */
  ghost predicate Consistent(g: GameState)
  {
    Wellformed(g) && (g.current.Some? ==> White in g.players && Black in g.players)
  }

  lemma WellformedPlaced(g: GameState, i: int)
    requires Wellformed(g) && 0 <= i < |g.arena|
    ensures Placed(g.arena[i])
  {
  }

  /** Every figure in a roster exists and stands on the board or off it. */
  lemma RosterPlaced(g: GameState, c: Color)
    requires Wellformed(g) && c in g.players
    ensures forall k :: 0 <= k < |g.players[c].figures| ==>
      g.players[c].figures[k] < |g.arena| && Placed(g.arena[g.players[c].figures[k]])
  {
    assert RosterOf(g.players[c], g.arena, c);
    forall k | 0 <= k < |g.players[c].figures| ensures Placed(g.arena[g.players[c].figures[k]]) {
      WellformedPlaced(g, g.players[c].figures[k]);
    }
  }

  /** Two arenas that differ at most in the flags `already_moved` and `last_moved`. */
  ghost predicate SameFigures(a: seq<Figure>, b: seq<Figure>)
  {
    && |a| == |b|
    && forall i :: 0 <= i < |a| ==>
         a[i].kind == b[i].kind && a[i].color == b[i].color && a[i].position == b[i].position
  }

  /** Two arenas whose figures have the same kinds and colours, wherever they stand. */
  ghost predicate SameRoles(a: seq<Figure>, b: seq<Figure>)
  {
    && |a| == |b|
    && forall i :: 0 <= i < |a| ==> a[i].kind == b[i].kind && a[i].color == b[i].color
  }

  lemma SameFiguresConsistent(g: GameState, h: GameState)
    requires Consistent(g) && SameFigures(g.arena, h.arena)
    requires h.occupant == g.occupant && h.players == g.players
    requires h.current.Some? ==> White in h.players && Black in h.players
    ensures Consistent(h)
  {
  }

  /** `h` is `g` with figure `id` placed on field `f`: its former field is emptied and no other
      field and no other figure changes. */
  ghost predicate Relocated(g: GameState, h: GameState, id: nat, f: Field)
    requires id < |g.arena|
  {
    && |h.arena| == |g.arena|
    && h.arena[id] == g.arena[id].(position := Some(f))
    && (forall i :: 0 <= i < |g.arena| && i != id ==> h.arena[i] == g.arena[i])
    && f in h.occupant && h.occupant[f] == id
    && (g.arena[id].position.Some? ==> g.arena[id].position.value !in h.occupant)
    && (forall e :: e != f && Some(e) != g.arena[id].position ==>
          (e in h.occupant <==> e in g.occupant) && (e in h.occupant ==> h.occupant[e] == g.occupant[e]))
    && h.players == g.players && h.current == g.current && h.moveNumber == g.moveNumber
  }

  // ---------------------------------------------------------------------------
  // Field.receive_figure, Figure.move, Figure.capture
  // ---------------------------------------------------------------------------

  /** The placement `Field.receive_figure` makes once the field is known to be empty: the field
      takes the figure, the figure's former field is cleared and the figure records its field. */
  function Place(g: GameState, f: Field, id: nat): GameState
    requires id < |g.arena|
  {
    var fig := g.arena[id];
    var occ := g.occupant[f := id];
    g.(occupant := if fig.position.Some? then occ - {fig.position.value} else occ,
       arena := g.arena[id := fig.(position := Some(f))])
  }

  lemma PlaceRelocates(g: GameState, f: Field, id: nat)
    requires Wellformed(g) && f.OnBoard() && id < |g.arena| && f !in g.occupant
    ensures Relocated(g, Place(g, f, id), id, f)
  {
  }

  lemma PlaceWellformed(g: GameState, f: Field, id: nat)
    requires Wellformed(g) && f.OnBoard() && id < |g.arena| && f !in g.occupant
    ensures Wellformed(Place(g, f, id))
  {
    var h := Place(g, f, id);
    PlaceFieldsLinked(g, f, id);
    PlaceFiguresLinked(g, f, id);
    assert SameRoles(g.arena, h.arena);
    SameRolesRostered(g.players, g.arena, h.arena);
  }

  /** After a placement every occupied field holds a figure that names it. */
  lemma PlaceFieldsLinked(g: GameState, f: Field, id: nat)
    requires Wellformed(g) && f.OnBoard() && id < |g.arena| && f !in g.occupant
    ensures forall e :: e in Place(g, f, id).occupant ==>
      e.OnBoard() && Place(g, f, id).occupant[e] < |Place(g, f, id).arena|
      && Place(g, f, id).arena[Place(g, f, id).occupant[e]].position == Some(e)
  {
    var h := Place(g, f, id);
    forall e | e in h.occupant
      ensures e.OnBoard() && h.occupant[e] < |h.arena| && h.arena[h.occupant[e]].position == Some(e)
    {
      if e != f {
        assert e in g.occupant && h.occupant[e] == g.occupant[e];
      }
    }
  }

  /** After a placement every figure on the board stands on a field that names it. */
  lemma PlaceFiguresLinked(g: GameState, f: Field, id: nat)
    requires Wellformed(g) && f.OnBoard() && id < |g.arena| && f !in g.occupant
    ensures forall i :: 0 <= i < |Place(g, f, id).arena| && Place(g, f, id).arena[i].position.Some? ==>
      Place(g, f, id).arena[i].position.value in Place(g, f, id).occupant
      && Place(g, f, id).occupant[Place(g, f, id).arena[i].position.value] == i
  {
  }

  /** Rosters only depend on the kinds and colours of the figures. */
  lemma SameRolesRostered(players: map<Color, Player>, a: seq<Figure>, b: seq<Figure>)
    requires Rostered(players, a) && SameRoles(a, b)
    ensures Rostered(players, b)
  {
  }

  /** A figure coming from a field leaves the number of occupied fields alone; a new one adds one. */
  lemma PlaceCount(g: GameState, f: Field, id: nat)
    requires id < |g.arena| && f !in g.occupant
    requires g.arena[id].position.Some? ==> g.arena[id].position.value in g.occupant
    ensures |Place(g, f, id).occupant| == |g.occupant| + (if g.arena[id].position.Some? then 0 else 1)
  {
    var h := Place(g, f, id);
    match g.arena[id].position
    case None =>
      assert h.occupant.Keys == g.occupant.Keys + {f};
    case Some(p) =>
      assert p in g.occupant;
      assert h.occupant.Keys == (g.occupant.Keys + {f}) - {p};
  }

  lemma PlaceFacts(g: GameState, f: Field, id: nat)
    requires f.OnBoard() && id < |g.arena| && f !in g.occupant
    ensures Wellformed(g) ==> Relocated(g, Place(g, f, id), id, f) && Wellformed(Place(g, f, id))
    ensures Wellformed(g) ==>
      |Place(g, f, id).occupant| == |g.occupant| + (if g.arena[id].position.Some? then 0 else 1)
  {
    if Wellformed(g) {
      PlaceRelocates(g, f, id);
      PlaceWellformed(g, f, id);
      PlaceCount(g, f, id);
    }
  }

  /** `Field.receive_figure`: an occupied field (the figure's own included) refuses the figure. */
  function Receive(g: GameState, f: Field, id: nat): (r: Result<GameState, Error>)
    requires f.OnBoard() && id < |g.arena|
    ensures r.Err? <==> f in g.occupant
    ensures r.Err? ==> r.error == FieldOccupiedError
    ensures r.Ok? ==>
      && |r.value.arena| == |g.arena| && r.value.arena[id] == g.arena[id].(position := Some(f))
      && (forall i :: 0 <= i < |g.arena| && i != id ==> r.value.arena[i] == g.arena[i])
      && r.value.players == g.players && r.value.current == g.current
      && r.value.moveNumber == g.moveNumber
    ensures r.Ok? && g.arena[id].position.None? ==> r.value.occupant == g.occupant[f := id]
    ensures r.Ok? && Wellformed(g) ==> Relocated(g, r.value, id, f) && Wellformed(r.value)
    ensures r.Ok? && Consistent(g) ==> Consistent(r.value)
    ensures r.Ok? && Wellformed(g) ==>
      |r.value.occupant| == |g.occupant| + (if g.arena[id].position.Some? then 0 else 1)
  {
    if f in g.occupant then Err(FieldOccupiedError)
    else
      PlaceFacts(g, f, id);
      Ok(Place(g, f, id))
  }

  /** `Figure.move`: the field must be among the figure's legal moves; then it is received. */
  function Relocate(g: GameState, id: nat, f: Field): (r: Result<GameState, Error>)
    requires Consistent(g) && id < |g.arena| && f.OnBoard()
    ensures LegalMoves(g.arena[id], g.occupant).Unsupported? <==> r == Err(NotImplementedError)
    ensures r == Err(IllegalMoveError) <==>
      LegalMoves(g.arena[id], g.occupant).Dests? && f !in LegalMoves(g.arena[id], g.occupant).fields
    ensures r == Err(FieldOccupiedError) <==>
      LegalMoves(g.arena[id], g.occupant).Dests? && f in LegalMoves(g.arena[id], g.occupant).fields && f in g.occupant
    ensures r.Ok? ==> Relocated(g, r.value, id, f) && Consistent(r.value)
    ensures r.Ok? <==>
      LegalMoves(g.arena[id], g.occupant).Dests? && f in LegalMoves(g.arena[id], g.occupant).fields && f !in g.occupant
  {
    match LegalMoves(g.arena[id], g.occupant)
    case Unsupported => Err(NotImplementedError)
    case Dests(ds) => if f in ds then Receive(g, f, id) else Err(IllegalMoveError)
  }

  /** The first half of `Figure.capture`: the victim on `f` loses its position and `f` is emptied. */
  function Clear(g: GameState, f: Field): GameState
    requires f in g.occupant && g.occupant[f] < |g.arena|
  {
    var victim := g.occupant[f];
    g.(arena := g.arena[victim := g.arena[victim].(position := None)], occupant := g.occupant - {f})
  }

  lemma ClearFacts(g: GameState, f: Field)
    requires Consistent(g) && f in g.occupant
    ensures Consistent(Clear(g, f)) && f !in Clear(g, f).occupant
    ensures |Clear(g, f).occupant| == |g.occupant| - 1
  {
    var h := Clear(g, f);
    assert h.occupant.Keys == g.occupant.Keys - {f};
    ClearLinked(g, f);
    assert SameRoles(g.arena, h.arena);
    SameRolesRostered(g.players, g.arena, h.arena);
  }

  lemma ClearLinked(g: GameState, f: Field)
    requires Wellformed(g) && f in g.occupant
    ensures Linked(Clear(g, f).occupant, Clear(g, f).arena)
  {
    var h := Clear(g, f);
    forall e | e in h.occupant
      ensures e.OnBoard() && h.occupant[e] < |h.arena| && h.arena[h.occupant[e]].position == Some(e)
    {
      assert e in g.occupant && h.occupant[e] == g.occupant[e];
    }
  }

  /** `Figure.capture`: refuses a victim of the mover's colour; otherwise the field is cleared
      and then receives the mover. The result names the victim (the source's dictionary also
      returns the field, which the caller already has). */
  function Capture(g: GameState, id: nat, f: Field): (r: Result<(GameState, nat), Error>)
    requires Consistent(g) && id < |g.arena| && f in g.occupant
    ensures r.Err? <==> g.arena[g.occupant[f]].color == g.arena[id].color
    ensures r.Err? ==> r.error == IllegalCaptureError
    ensures r.Ok? ==> r.value.1 == g.occupant[f] && r.value.1 != id && |r.value.0.arena| == |g.arena|
    ensures r.Ok? ==> r.value.0.arena[r.value.1] == g.arena[r.value.1].(position := None)
    ensures r.Ok? ==> Relocated(Clear(g, f), r.value.0, id, f) && Consistent(r.value.0)
    ensures r.Ok? ==>
      |r.value.0.occupant| == |g.occupant| - (if g.arena[id].position.Some? then 1 else 0)
  {
    var victim := g.occupant[f];
    if g.arena[victim].color != g.arena[id].color then
      CaptureFacts(g, id, f);
      Ok((Receive(Clear(g, f), f, id).value, victim))
    else
      Err(IllegalCaptureError)
  }

  lemma CaptureFacts(g: GameState, id: nat, f: Field)
    requires Consistent(g) && id < |g.arena| && f in g.occupant
    requires g.arena[g.occupant[f]].color != g.arena[id].color
    ensures f.OnBoard() && id < |Clear(g, f).arena| && Receive(Clear(g, f), f, id).Ok?
    ensures |Receive(Clear(g, f), f, id).value.arena| == |g.arena|
    ensures Receive(Clear(g, f), f, id).value.arena[g.occupant[f]] == g.arena[g.occupant[f]].(position := None)
    ensures Relocated(Clear(g, f), Receive(Clear(g, f), f, id).value, id, f)
    ensures Consistent(Receive(Clear(g, f), f, id).value)
    ensures |Receive(Clear(g, f), f, id).value.occupant| ==
      |g.occupant| - (if g.arena[id].position.Some? then 1 else 0)
  {
    var victim := g.occupant[f];
    ClearFacts(g, f);
    var c := Clear(g, f);
    assert c.arena[id] == g.arena[id];
    var r := Receive(c, f, id);
    assert r.Ok?;
  }

  /** The try/except of `Player.move`: a plain move, and on FieldOccupiedError a capture. The
      result carries the captured figure, if any. */
  function Attempt(g: GameState, id: nat, f: Field): (r: Result<(GameState, Option<nat>), Error>)
    requires Consistent(g) && id < |g.arena| && f.OnBoard()
    ensures r.Ok? ==> Consistent(r.value.0) && |r.value.0.arena| == |g.arena|
    ensures r.Ok? ==> LegalMoves(g.arena[id], g.occupant).Dests? && f in LegalMoves(g.arena[id], g.occupant).fields
    ensures r.Ok? && f !in g.occupant ==> r.value.1 == None && Relocated(g, r.value.0, id, f)
    ensures r.Ok? && f in g.occupant ==>
      && r.value.1 == Some(g.occupant[f]) && g.occupant[f] != id
      && g.arena[g.occupant[f]].color != g.arena[id].color
      && r.value.0.arena[g.occupant[f]] == g.arena[g.occupant[f]].(position := None)
      && Relocated(Clear(g, f), r.value.0, id, f)
    ensures r.Ok? ==>
      |r.value.0.occupant| == |g.occupant| + (if g.arena[id].position.Some? then 0 else 1) - (if f in g.occupant then 1 else 0)
    ensures r.Ok? ==> r.value.0.players == g.players && r.value.0.current == g.current
    ensures r == Err(NotImplementedError) <==> LegalMoves(g.arena[id], g.occupant).Unsupported?
    ensures r == Err(IllegalMoveError) <==>
      LegalMoves(g.arena[id], g.occupant).Dests? && f !in LegalMoves(g.arena[id], g.occupant).fields
    ensures r == Err(IllegalCaptureError) <==>
      && LegalMoves(g.arena[id], g.occupant).Dests? && f in LegalMoves(g.arena[id], g.occupant).fields
      && f in g.occupant && g.arena[g.occupant[f]].color == g.arena[id].color
    ensures r.Ok? <==>
      && LegalMoves(g.arena[id], g.occupant).Dests? && f in LegalMoves(g.arena[id], g.occupant).fields
      && (f !in g.occupant || g.arena[g.occupant[f]].color != g.arena[id].color)
    ensures r.Err? ==> r.error in {NotImplementedError, IllegalMoveError, IllegalCaptureError}
  {
    match Relocate(g, id, f)
    case Ok(h) => Ok((h, None))
    case Err(e) =>
      if e == FieldOccupiedError then
        match Capture(g, id, f)
        case Ok((h, victim)) => Ok((h, Some(victim)))
        case Err(e') => Err(e')
      else Err(e)
  }

  /** A move or capture changes where figures stand, never what they are or who owns them. */
  lemma AttemptKeepsRoles(g: GameState, id: nat, f: Field)
    requires Consistent(g) && id < |g.arena| && f.OnBoard() && Attempt(g, id, f).Ok?
    ensures SameRoles(g.arena, Attempt(g, id, f).value.0.arena)
    ensures Attempt(g, id, f).value.0.players == g.players
  {
    var h := Attempt(g, id, f).value.0;
    if f in g.occupant {
      var c := Clear(g, f);
      assert Relocated(c, h, id, f);
      RelocatedRoles(c, h, id, f);
      ClearRoles(g, f);
    } else {
      assert Relocated(g, h, id, f);
      RelocatedRoles(g, h, id, f);
    }
  }

  /** Clearing a field changes no figure's kind or colour. */
  lemma ClearRoles(g: GameState, f: Field)
    requires f in g.occupant && g.occupant[f] < |g.arena|
    ensures SameRoles(g.arena, Clear(g, f).arena) && Clear(g, f).players == g.players
  {
  }

  /** Relocating a figure changes no figure's kind or colour. */
  lemma RelocatedRoles(g: GameState, h: GameState, id: nat, f: Field)
    requires id < |g.arena| && Relocated(g, h, id, f)
    ensures SameRoles(g.arena, h.arena) && h.players == g.players
  {
    forall i | 0 <= i < |g.arena| ensures h.arena[i].kind == g.arena[i].kind && h.arena[i].color == g.arena[i].color {
      if i != id {
        assert h.arena[i] == g.arena[i];
      }
    }
  }

  // ---------------------------------------------------------------------------
  // Field.threatened_by, King.in_check, Player.opponent, Chessboard.end_turn
  // ---------------------------------------------------------------------------

  /** `Player.opponent`. */
  function Opponent(c: Color): (r: Color)
    ensures r != c
  {
    if c == White then Black else White
  }

  lemma OpponentInvolutive(c: Color)
    ensures Opponent(Opponent(c)) == c
  {
  }

  /** `Field.threatened_by(player)`: `x` is among the legal moves of one of the player's figures.
      A figure without movement rules threatens nothing (see README, Findings). */
  predicate Threatened(g: GameState, x: Field, c: Color)
    requires Wellformed(g) && c in g.players
  {
    exists k :: 0 <= k < |g.players[c].figures| &&
      Threatens(g.arena[g.players[c].figures[k]], g.occupant, x)
  }

  /** `King.in_check`: the king's field is threatened by the opponent; a king without a field is
      in no field's legal moves. */
  predicate KingInCheck(g: GameState, c: Color)
    requires Wellformed(g) && c in g.players && Opponent(c) in g.players
  {
    match g.arena[g.players[c].king].position
    case None => false
    case Some(p) => Threatened(g, p, Opponent(c))
  }

  /** `Chessboard.end_turn`: the side to move passes to the other colour (to white while no side
      is set), nothing else changes. */
  function EndTurn(g: GameState): (h: GameState)
    requires White in g.players && Black in g.players
    ensures h == g.(current := h.current)
    ensures h.current.Some?
    ensures g.current.Some? ==> h.current == Some(Opponent(g.current.value))
    ensures g.current.None? ==> h.current == Some(White)
  {
    if g.current == Some(White) then g.(current := Some(Black)) else g.(current := Some(White))
  }

  lemma EndTurnTwice(g: GameState)
    requires White in g.players && Black in g.players && g.current.Some?
    ensures EndTurn(EndTurn(g)).current == g.current
  {
  }

  // ---------------------------------------------------------------------------
  // Player.move
  // ---------------------------------------------------------------------------

  /** The commit of `Player.move`: the mover is marked moved at the current move number, the
      captured figure gets the same `last_moved`, the move counter advances and the turn ends. */
  function Commit(h: GameState, id: nat, victim: Option<nat>): GameState
    requires id < |h.arena| && (victim.Some? ==> victim.value < |h.arena|)
    requires White in h.players && Black in h.players
  {
    EndTurn(Record(h, id, victim))
  }

  /** The mover is marked moved at move `n`, and the captured figure gets the same `last_moved`. */
  function Stamp(arena: seq<Figure>, id: nat, victim: Option<nat>, n: nat): seq<Figure>
    requires id < |arena| && (victim.Some? ==> victim.value < |arena|)
  {
    var marked := arena[id := arena[id].(alreadyMoved := true, lastMoved := Some(n))];
    if victim.Some? then marked[victim.value := marked[victim.value].(lastMoved := Some(n))]
    else marked
  }

  /** The move recorded on the figures, and the move counter advanced. */
  function Record(g: GameState, id: nat, victim: Option<nat>): GameState
    requires id < |g.arena| && (victim.Some? ==> victim.value < |g.arena|)
  {
    g.(arena := Stamp(g.arena, id, victim, g.moveNumber), moveNumber := g.moveNumber + 1)
  }

  lemma RecordWellformed(g: GameState, id: nat, victim: Option<nat>)
    requires Wellformed(g) && id < |g.arena| && (victim.Some? ==> victim.value < |g.arena|)
    ensures Wellformed(Record(g, id, victim))
  {
    assert SameFigures(g.arena, Stamp(g.arena, id, victim, g.moveNumber));
  }

  /** The commit changes no field and no roster: it only marks the figures and passes the turn. */
  lemma CommitFacts(h: GameState, id: nat, victim: Option<nat>)
    requires id < |h.arena| && (victim.Some? ==> victim.value < |h.arena|)
    requires White in h.players && Black in h.players
    ensures |Commit(h, id, victim).arena| == |h.arena|
    ensures Commit(h, id, victim).occupant == h.occupant && Commit(h, id, victim).players == h.players
    ensures Commit(h, id, victim).moveNumber == h.moveNumber + 1
    ensures Commit(h, id, victim).arena[id].alreadyMoved
    ensures Commit(h, id, victim).arena[id].lastMoved == Some(h.moveNumber)
    ensures victim.Some? ==> Commit(h, id, victim).arena[victim.value].lastMoved == Some(h.moveNumber)
    ensures SameFigures(h.arena, Commit(h, id, victim).arena)
  {
  }

  lemma CommitConsistent(h: GameState, id: nat, victim: Option<nat>)
    requires Consistent(h) && id < |h.arena| && (victim.Some? ==> victim.value < |h.arena|)
    requires White in h.players && Black in h.players
    ensures Consistent(Commit(h, id, victim))
  {
    CommitFacts(h, id, victim);
    SameFiguresConsistent(h, Commit(h, id, victim));
  }

  /** The figure `player` would move from `start`: the occupant of that field, if the player owns it. */
  function Mover(g: GameState, p: Color, from: Field): Option<nat>
    requires p in g.players
  {
    if from in g.occupant && g.occupant[from] in g.players[p].figures then Some(g.occupant[from])
    else None
  }

  /** `Player.move(start, goal)`: the turn check, the two field lookups, the ownership check, a
      plain move or else a capture, the rollback when the player's own king is then in check,
      and the commit. Every error leaves the state as it was. */
  function PlayerMove(g: GameState, p: Color, start: string, goal: string): (r: Result<GameState, Error>)
    requires Consistent(g)
    ensures r.Ok? ==> Consistent(r.value)
  {
    if g.current != Some(p) then Err(TurnError)
    else if FieldAt(start).None? || FieldAt(goal).None? then Err(KeyError)
    else
      var from, to := FieldAt(start).value, FieldAt(goal).value;
      assert p in g.players && Opponent(p) in g.players by { assert p == White || p == Black; }
      match Mover(g, p, from)
      case None => Err(IllegalMoveError)
      case Some(id) => MoveOwned(g, p, id, to)
  }

  /** The errors of `Player.move` before the figure moves: an unknown field name raises KeyError
      (and only then), a start field without one of the player's figures IllegalMoveError. */
  lemma PlayerMoveErrors(g: GameState, p: Color, start: string, goal: string)
    requires Consistent(g)
    ensures PlayerMove(g, p, start, goal) == Err(KeyError) <==>
      g.current == Some(p) && (FieldAt(start).None? || FieldAt(goal).None?)
    ensures g.current == Some(p) && FieldAt(start).Some? && FieldAt(goal).Some? ==>
      p in g.players && (Mover(g, p, FieldAt(start).value).None? ==> PlayerMove(g, p, start, goal) == Err(IllegalMoveError))
  {
    assert p == White || p == Black;
  }

  /** Past the turn, the names and the ownership check, a move or capture that leaves the
      player's king safe completes `Player.move` with the commit. */
  lemma SafeMoveCompletes(g: GameState, p: Color, start: string, goal: string, id: nat)
    requires Consistent(g) && g.current == Some(p) && FieldAt(start).Some? && FieldAt(goal).Some?
    requires p in g.players && Opponent(p) in g.players && Mover(g, p, FieldAt(start).value) == Some(id)
    requires id < |g.arena| && Attempt(g, id, FieldAt(goal).value).Ok?
    requires !KingInCheck(Attempt(g, id, FieldAt(goal).value).value.0, p)
    ensures var (h, victim) := Attempt(g, id, FieldAt(goal).value).value;
      && (victim.Some? ==> victim.value < |h.arena|) && Consistent(Commit(h, id, victim))
      && PlayerMove(g, p, start, goal) == Ok(Commit(h, id, victim))
  {
    var (h, victim) := Attempt(g, id, FieldAt(goal).value).value;
    CommitConsistent(h, id, victim);
    PlayerMoveOwned(g, p, start, goal, id);
  }

  /** Once the turn, the two names and the ownership check pass, `Player.move` is its second half. */
  lemma PlayerMoveOwned(g: GameState, p: Color, start: string, goal: string, id: nat)
    requires Consistent(g) && g.current == Some(p) && FieldAt(start).Some? && FieldAt(goal).Some?
    requires p in g.players && Mover(g, p, FieldAt(start).value) == Some(id)
    ensures Opponent(p) in g.players && id < |g.arena|
    ensures PlayerMove(g, p, start, goal) == MoveOwned(g, p, id, FieldAt(goal).value)
  {
    assert p == White || p == Black;
    assert RosterOf(g.players[p], g.arena, p);
  }

  /** The second half of `Player.move`, once the player's own figure `id` is found: a plain move
      or else a capture, the rollback when the player's king is then in check, and the commit. */
  function MoveOwned(g: GameState, p: Color, id: nat, to: Field): (r: Result<GameState, Error>)
    requires Consistent(g) && p in g.players && Opponent(p) in g.players
    requires id < |g.arena| && to.OnBoard()
    ensures r.Ok? ==> Consistent(r.value)
    ensures Attempt(g, id, to).Err? ==> r == Err(Attempt(g, id, to).error)
    ensures Attempt(g, id, to).Ok? ==>
      (r == Err(IllegalMoveError) <==> KingInCheck(Attempt(g, id, to).value.0, p))
    ensures r.Ok? <==> Attempt(g, id, to).Ok? && !KingInCheck(Attempt(g, id, to).value.0, p)
    ensures r.Err? ==> r.error in {NotImplementedError, IllegalMoveError, IllegalCaptureError}
  {
    match Attempt(g, id, to)
    case Err(e) => Err(e)
    case Ok((h, victim)) =>
      if KingInCheck(h, p) then Err(IllegalMoveError)
      else
        CommitConsistent(h, id, victim);
        Ok(Commit(h, id, victim))
  }

  /** Threats depend only on the kinds, colours and fields of the figures, not on their flags. */
  lemma ThreatenedSameFigures(g: GameState, h: GameState, x: Field, c: Color)
    requires Consistent(g) && Consistent(h) && SameFigures(g.arena, h.arena)
    requires h.occupant == g.occupant && h.players == g.players && c in g.players
    ensures Threatened(g, x, c) <==> Threatened(h, x, c)
  {
    var ids := g.players[c].figures;
    assert RosterOf(g.players[c], g.arena, c);
    forall k | 0 <= k < |ids|
      ensures Threatens(g.arena[ids[k]], g.occupant, x) <==> Threatens(h.arena[ids[k]], h.occupant, x)
    {
      WellformedPlaced(g, ids[k]);
      WellformedPlaced(h, ids[k]);
      assert LegalMoves(g.arena[ids[k]], g.occupant) == LegalMoves(h.arena[ids[k]], g.occupant);
    }
  }

  lemma {:induction false} CommitKeepsCheck(h: GameState, id: nat, victim: Option<nat>, c: Color)
    requires Consistent(h) && id < |h.arena| && (victim.Some? ==> victim.value < |h.arena|)
    requires White in h.players && Black in h.players
    ensures Consistent(Commit(h, id, victim))
    ensures c in h.players && Opponent(c) in h.players
    ensures KingInCheck(Commit(h, id, victim), c) <==> KingInCheck(h, c)
  {
    var h' := Commit(h, id, victim);
    CommitConsistent(h, id, victim);
    CommitFacts(h, id, victim);
    assert c == White || c == Black;
    var king := h.players[c].king;
    assert RosterOf(h.players[c], h.arena, c);
    assert h'.players[c].king == king && h'.arena[king].position == h.arena[king].position;
    if h.arena[king].position.Some? {
      var x := h.arena[king].position.value;
      ThreatenedSameFigures(h, h', x, Opponent(c));
      assert KingInCheck(h', c) == Threatened(h', x, Opponent(c));
      assert KingInCheck(h, c) == Threatened(h, x, Opponent(c));
    }
  }

  /** Only the side to move can move; a move hands the turn to the opponent and advances the
      move counter, and leaves the players' rosters alone. */
  lemma PlayerMoveTurn(g: GameState, p: Color, start: string, goal: string)
    requires Consistent(g)
    ensures PlayerMove(g, p, start, goal) == Err(TurnError) <==> g.current != Some(p)
    ensures PlayerMove(g, p, start, goal).Ok? ==>
      && FieldAt(start).Some? && FieldAt(goal).Some?
      && PlayerMove(g, p, start, goal).value.current == Some(Opponent(p))
      && PlayerMove(g, p, start, goal).value.moveNumber == g.moveNumber + 1
      && PlayerMove(g, p, start, goal).value.players == g.players
  {
  }

  /** The same player cannot move twice in a row. */
  lemma NoTwoMovesInARow(g: GameState, p: Color, start: string, goal: string, start': string, goal': string)
    requires Consistent(g) && PlayerMove(g, p, start, goal).Ok?
    ensures PlayerMove(PlayerMove(g, p, start, goal).value, p, start', goal') == Err(TurnError)
  {
    PlayerMoveTurn(g, p, start, goal);
    PlayerMoveTurn(PlayerMove(g, p, start, goal).value, p, start', goal');
  }

  /** Unfolds a successful `Player.move` into its steps. */
  lemma PlayerMoveSteps(g: GameState, p: Color, start: string, goal: string)
    returns (id: nat, h: GameState, victim: Option<nat>)
    requires Consistent(g) && PlayerMove(g, p, start, goal).Ok?
    ensures g.current == Some(p) && p in g.players && Opponent(p) in g.players
    ensures FieldAt(start).Some? && FieldAt(goal).Some?
    ensures FieldAt(start).value in g.occupant && g.occupant[FieldAt(start).value] == id
    ensures id in g.players[p].figures && id < |g.arena| && g.arena[id].color == p
    ensures Attempt(g, id, FieldAt(goal).value) == Ok((h, victim))
    ensures Consistent(h) && !KingInCheck(h, p)
    ensures victim.Some? ==> victim.value < |h.arena|
    ensures PlayerMove(g, p, start, goal) == Ok(Commit(h, id, victim))
  {
    assert p == White || p == Black;
    id := g.occupant[FieldAt(start).value];
    assert Mover(g, p, FieldAt(start).value) == Some(id);
    assert RosterOf(g.players[p], g.arena, p);
    var r := Attempt(g, id, FieldAt(goal).value).value;
    h, victim := r.0, r.1;
  }

  /** A move takes one of the player's own figures from `start` to a field among its legal moves;
      `start` is empty afterwards, the figure is marked moved at this move number, and the
      player's own king is not in check. */
  lemma {:induction false} PlayerMoveMoves(g: GameState, p: Color, start: string, goal: string, from: Field, to: Field)
    requires Consistent(g) && PlayerMove(g, p, start, goal).Ok?
    requires FieldAt(start) == Some(from) && FieldAt(goal) == Some(to)
    ensures from in g.occupant && g.occupant[from] in g.players[p].figures
    ensures LegalMoves(g.arena[g.occupant[from]], g.occupant).Dests?
    ensures to in LegalMoves(g.arena[g.occupant[from]], g.occupant).fields
    ensures var h := PlayerMove(g, p, start, goal).value;
      && |h.arena| == |g.arena|
      && to in h.occupant && h.occupant[to] == g.occupant[from] && from !in h.occupant
      && h.arena[g.occupant[from]].alreadyMoved
      && h.arena[g.occupant[from]].lastMoved == Some(g.moveNumber)
      && p in h.players && Opponent(p) in h.players
      && !KingInCheck(h, p)
  {
    var id, h, victim := PlayerMoveSteps(g, p, start, goal);
    CommitFacts(h, id, victim);
    assert Some(from) == g.arena[id].position;
    assert to in h.occupant && h.occupant[to] == id && from !in h.occupant by {
      if to in g.occupant {
        assert Relocated(Clear(g, to), h, id, to);
      } else {
        assert Relocated(g, h, id, to);
      }
    }
    CommitKeepsCheck(h, id, victim, p);
  }

  /** A move onto an occupied field captures an opponent's figure: the victim has no field
      afterwards, carries this move's number, and one figure fewer stands on the board. A move
      onto an empty field keeps the number of figures on the board. */
  lemma {:induction false} PlayerMoveCaptures(g: GameState, p: Color, start: string, goal: string, from: Field, to: Field)
    requires Consistent(g) && PlayerMove(g, p, start, goal).Ok?
    requires FieldAt(start) == Some(from) && FieldAt(goal) == Some(to)
    ensures to in g.occupant ==>
      var h := PlayerMove(g, p, start, goal).value;
      && g.arena[g.occupant[to]].color != p
      && |h.arena| == |g.arena|
      && h.arena[g.occupant[to]].position.None?
      && h.arena[g.occupant[to]].lastMoved == Some(g.moveNumber)
      && |h.occupant| == |g.occupant| - 1
    ensures to !in g.occupant ==> |PlayerMove(g, p, start, goal).value.occupant| == |g.occupant|
  {
    var id, h, victim := PlayerMoveSteps(g, p, start, goal);
    CommitFacts(h, id, victim);
    assert g.arena[id].position == Some(from);
  }
}
