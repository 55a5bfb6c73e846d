/**
  The chessboard as the source keeps it: one object whose fields `Player.move`, the figures and
  the fields of the board update in place (king_snake/chessboard.py, king_snake/player.py,
  king_snake/figures/figure.py, king_snake/figures/king.py).

  The Python program spreads its state over linked objects: each field knows its figure, each
  figure its field, its colour and its flags, each player its roster and its king. `Chessboard`
  holds the same links in the form `Game.GameState` gives them, so every method is specified
  by the function of the pure model that describes the same step; the properties of a whole
  game are proved about those functions.
 */
module Board {
  import opened Wrappers
  import opened Geometry
  import opened Figures
  import opened Game
  import opened Setup

  /** Fields ordered as the loops of `Chessboard.__init__` create them: by letter, then number. */
  predicate Before(f: Field, letter: int, number: int)
  {
    f.letter < letter || (f.letter == letter && f.number < number)
  }

  /** The dictionary of `Chessboard.__init__`: exactly the names of the 64 fields, each naming
      its own field. */
  ghost predicate Named(m: map<string, Field>)
  {
    && (forall s :: s in m <==> FieldAt(s).Some?)
    && (forall s :: s in m ==> m[s] == FieldAt(s).value)
  }

  lemma NamedLookup(m: map<string, Field>, s: string)
    requires Named(m)
    ensures s in m <==> FieldAt(s).Some?
    ensures s in m ==> m[s] == FieldAt(s).value
  {
  }

  /** `m` holds exactly the fields created before `Field(letter, number)`, under their names. */
  ghost predicate NamedUpTo(m: map<string, Field>, letter: int, number: int)
  {
    && (forall s :: s in m <==> FieldAt(s).Some? && Before(FieldAt(s).value, letter, number))
    && (forall s :: s in m ==> m[s] == FieldAt(s).value)
  }

  /** Adding the next field under its name adds a new key and keeps the dictionary in order. */
  lemma NameNext(m: map<string, Field>, f: Field)
    requires f.OnBoard() && NamedUpTo(m, f.letter, f.number)
    ensures f.Str() !in m && NamedUpTo(m[f.Str() := f], f.letter, f.number + 1)
  {
    var m' := m[f.Str() := f];
    forall s | FieldAt(s).Some? && Before(FieldAt(s).value, f.letter, f.number + 1)
      ensures s in m'
    {
      NameRoundTrip(s);
    }
  }

  /** After number 8 of a letter comes number 1 of the next letter. */
  lemma NextLetter(m: map<string, Field>, letter: int)
    requires NamedUpTo(m, letter, 9)
    ensures NamedUpTo(m, letter + 1, 1)
  {
  }

  /** The loop of `Chessboard.__init__` that creates the 64 fields, letter by letter and, within a
      letter, number by number, and files each under its name. */
  method NameFields() returns (m: map<string, Field>)
    ensures Named(m) && |m| == 64
    ensures forall f: Field :: f.OnBoard() ==> f.Str() in m && m[f.Str()] == f
  {
    m := map[];
    var letters := "ABCDEFGH";
    for i := 0 to 8
      invariant |m| == 8 * i && NamedUpTo(m, FirstLetter + i, 1)
    {
      for number := 1 to 9
        invariant |m| == 8 * i + number - 1 && NamedUpTo(m, FirstLetter + i, number)
      {
        LetterAt(letters, i);
        var f := Field(letters[i] as int, number);
        NameNext(m, f);
        m := m[f.Str() := f];
      }
      NextLetter(m, FirstLetter + i);
    }
    forall f: Field | f.OnBoard() ensures f.Str() in m && m[f.Str()] == f {
      assert FieldAt(f.Str()) == Some(f);
    }
  }

  /** `set_up_board` ends by enrolling the player's roster and king. */
  lemma SetUpEnrols(g: GameState, c: Color)
    requires Wellformed(g)
    ensures var a := AddFigures(g, c, SetupOrder);
      SetUp(g, c) == a.(players := a.players[c := Player(Ids(|g.arena|, 16), |g.arena| + 15)])
    ensures Wellformed(SetUp(g, c))
  {
    SetUpWellformed(g, c);
  }

  /** The letters of the board, in order. */
  lemma LetterAt(letters: string, i: int)
    requires letters == "ABCDEFGH" && 0 <= i < 8
    ensures letters[i] as int == FirstLetter + i
  {
  }

  class Chessboard {
    /** The dictionary from names such as "E2" to the fields of the board. */
    const fields: map<string, Field>
    /** `Field.figure` of every occupied field, as an index into `arena`. */
    var occupant: Occupancy
    /** Every figure ever created, in creation order; a captured figure stays with position None. */
    var arena: seq<Figure>
    var players: map<Color, Player>
    var current: Option<Color>
    /** The number the next completed move records in `last_moved`. */
    var moveNumber: nat

    function State(): GameState
      reads this
    {
      GameState(occupant, arena, players, current, moveNumber)
    }

    /** The dictionary names every field, and figures, fields and rosters point at each other. */
    ghost predicate Valid()
      reads this
    {
      Named(fields) && Wellformed(State())
    }

    /** `Chessboard.__init__`: the 64 fields, letter by letter and number by number; no player,
        no figure, nobody to move. */
    constructor()
      ensures Valid() && State() == Empty && |fields| == 64
      ensures forall f: Field :: f.OnBoard() ==> f.Str() in fields && fields[f.Str()] == f
    {
      var names := NameFields();
      fields := names;
      occupant, arena, players, current, moveNumber := map[], [], map[], None, 1;
    }

    /** `Field.receive_figure`: an occupied field refuses the figure; otherwise the figure leaves
        its former field, if it had one, and stands on `f`. */
    method ReceiveFigure(f: Field, id: nat) returns (outcome: Outcome<Error>)
      requires Valid() && f.OnBoard() && id < |arena|
      modifies this
      ensures Valid()
      ensures match Receive(old(State()), f, id)
        case Ok(h) => outcome == Pass && State() == h
        case Err(e) => outcome == Fail(e) && State() == old(State())
    {
      ghost var g0 := State();
      if f in occupant {
        return Fail(FieldOccupiedError);
      }
      PlaceFacts(g0, f, id);
      assert Receive(g0, f, id) == Ok(Place(g0, f, id));
      occupant := occupant[f := id];
      var fig := arena[id];
      if fig.position.Some? {
        occupant := occupant - {fig.position.value};
      }
      arena := arena[id := fig.(position := Some(f))];
      assert State() == Place(g0, f, id);
      outcome := Pass;
    }

    /** `Figure._set_start_position`: the start table of the figure's class is tried in order,
        and the first field that accepts the figure keeps it. */
    method SetStartPosition(id: nat)
      requires Valid() && id < |arena| && arena[id].position.None?
      modifies this
      ensures Valid()
      ensures State() == PlaceAtStart(old(State()), id)
    {
      var table := StartTable(arena[id].kind, arena[id].color);
      TakeFirstFree(id, table);
    }

    /** The loop of `_set_start_position` over the start table `table`: the figure ends on the
        first free field of the table, or stays without a field when every one is occupied. */
    method TakeFirstFree(id: nat, table: seq<Field>)
      requires Valid() && id < |arena| && arena[id].position.None?
      requires forall f :: f in table ==> f.OnBoard()
      modifies this
      ensures Valid()
      ensures FirstFree(old(occupant), table).None? ==> State() == old(State())
      ensures FirstFree(old(occupant), table).Some? ==>
        State() == Place(old(State()), FirstFree(old(occupant), table).value, id)
    {
      ghost var g0 := State();
      var k := 0;
      while k < |table|
        invariant 0 <= k <= |table| && Valid() && |arena| == |g0.arena|
        invariant arena[id].position == FirstFree(g0.occupant, table[..k])
        invariant FirstFree(g0.occupant, table[..k]).None? ==> State() == g0
        invariant FirstFree(g0.occupant, table[..k]).Some? ==>
          State() == Place(g0, FirstFree(g0.occupant, table[..k]).value, id)
      {
        FirstFreeSnoc(g0.occupant, table, k);
        TryStart(id, table[k]);
        k := k + 1;
      }
      assert table[..k] == table;
    }

    /** One round of the loop of `_set_start_position`: a figure without a field yet tries to
        take `f` and stays without one when `f` is occupied. */
    method TryStart(id: nat, f: Field)
      requires Valid() && id < |arena| && f.OnBoard()
      modifies this
      ensures Valid()
      ensures old(arena[id].position).None? && f !in old(occupant) ==> State() == Place(old(State()), f, id)
      ensures old(arena[id].position).Some? || f in old(occupant) ==> State() == old(State())
    {
      if arena[id].position.None? {
        var _ := ReceiveFigure(f, id);
      }
    }

    /** `Figure.__init__(player)`: a new unmoved figure of the player's colour, placed on its
        start field. */
    method AddFigure(kind: Kind, c: Color)
      requires Valid()
      modifies this
      ensures Valid()
      ensures State() == NewFigure(old(State()), kind, c)
    {
      arena := arena + [Figure(kind, c, None, false, None)];
      SetStartPosition(|arena| - 1);
    }

    /** `Player.set_up_board`: the player's sixteen figures, then its roster and its king. */
    method SetUpBoard(c: Color)
      requires Valid()
      modifies this
      ensures Valid()
      ensures State() == SetUp(old(State()), c)
    {
      ghost var g0 := State();
      var base := |arena|;
      AddFigureList(SetupOrder, c);
      SetUpEnrols(g0, c);
      ghost var a := State();
      players := players[c := Player(Ids(base, 16), base + 15)];
      assert State() == a.(players := a.players[c := Player(Ids(base, 16), base + 15)]);
    }

    /** The figures of `kinds` are created one after the other, as `set_up_board` does. */
    method AddFigureList(kinds: seq<Kind>, c: Color)
      requires Valid()
      modifies this
      ensures Valid()
      ensures State() == AddFigures(old(State()), c, kinds)
    {
      ghost var g0 := State();
      var i := 0;
      while i < |kinds|
        invariant 0 <= i <= |kinds| && Valid()
        invariant State() == AddFigures(g0, c, kinds[..i])
      {
        AddFigure(kinds[i], c);
        AddFiguresSnoc(g0, c, kinds, i);
        i := i + 1;
      }
      assert kinds[..i] == kinds;
    }

    /** `Chessboard.add_players`: white sets up, then black; white is to move. */
    method AddPlayers()
      requires Valid()
      modifies this
      ensures Valid()
      ensures State() == WithPlayers(old(State())) && Consistent(State())
    {
      ghost var g0 := State();
      var order := [White, Black];
      for i := 0 to 2
        invariant Valid()
        invariant i == 0 ==> State() == g0
        invariant i == 1 ==> State() == SetUp(g0, White).(current := Some(White))
        invariant i == 2 ==> State() == WithPlayers(g0)
      {
        ghost var mid := SetUp(State(), order[i]);
        SetUpBoard(order[i]);
        current := Some(White);
        assert State() == mid.(current := Some(White));
      }
      WithPlayersConsistent(g0);
    }

    /** `Chessboard.end_turn`: the other player is to move. */
    method EndTurn()
      requires Valid() && White in players && Black in players
      modifies this
      ensures Valid()
      ensures State() == Game.EndTurn(old(State()))
    {
      if current == Some(White) {
        current := Some(Black);
      } else {
        current := Some(White);
      }
    }

    /** `Field.threatened_by`: some figure of the player's roster can move to `x`. */
    method ThreatenedBy(x: Field, c: Color) returns (b: bool)
      requires Valid() && c in players
      ensures b == Threatened(State(), x, c)
    {
      ghost var g := State();
      RosterPlaced(g, c);
      var ids := players[c].figures;
      for k := 0 to |ids|
        invariant forall j :: 0 <= j < k ==> !Threatens(g.arena[g.players[c].figures[j]], g.occupant, x)
      {
        if Threatens(arena[ids[k]], occupant, x) {
          return true;
        }
      }
      return false;
    }

    /** `King.in_check`: the king's field is threatened by the opponent; a captured king is not
        in check. */
    method InCheck(c: Color) returns (b: bool)
      requires Valid() && c in players && Opponent(c) in players
      ensures b == KingInCheck(State(), c)
    {
      assert RosterOf(players[c], arena, c);
      var at := arena[players[c].king].position;
      if at.None? {
        return false;
      }
      b := ThreatenedBy(at.value, Opponent(c));
    }

    /** `Figure.move`: a figure with movement rules moves to one of its legal fields, and only
        to a free one. */
    method MoveFigure(id: nat, f: Field) returns (outcome: Outcome<Error>)
      requires Valid() && Consistent(State()) && id < |arena| && f.OnBoard()
      modifies this
      ensures Valid()
      ensures match Relocate(old(State()), id, f)
        case Ok(h) => outcome == Pass && State() == h
        case Err(e) => outcome == Fail(e) && State() == old(State())
    {
      WellformedPlaced(State(), id);
      match LegalMoves(arena[id], occupant)
      case Unsupported =>
        return Fail(NotImplementedError);
      case Dests(ds) =>
        if f in ds {
          outcome := ReceiveFigure(f, id);
        } else {
          outcome := Fail(IllegalMoveError);
        }
    }

    /** `Figure.capture`: the figure on `f` must be of the other colour; it leaves the board and
        the capturing figure takes its field. */
    method Capture(id: nat, f: Field) returns (r: Result<nat, Error>)
      requires Valid() && Consistent(State()) && id < |arena| && f in occupant
      modifies this
      ensures Valid()
      ensures match Game.Capture(old(State()), id, f)
        case Ok((h, victim)) => r == Ok(victim) && State() == h
        case Err(e) => r == Err(e) && State() == old(State())
    {
      ghost var g0 := State();
      var victim := occupant[f];
      if arena[victim].color == arena[id].color {
        return Err(IllegalCaptureError);
      }
      ClearFacts(g0, f);
      arena := arena[victim := arena[victim].(position := None)];
      occupant := occupant - {f};
      assert State() == Clear(g0, f);
      var _ := ReceiveFigure(f, id);
      r := Ok(victim);
    }

    /** The snapshot `Player.move` takes before it changes anything. */
    method StartMove() returns (snapshot: GameState)
      ensures snapshot == State()
    {
      snapshot := State();
    }

    /** Puts back the snapshot taken by `StartMove`. */
    method Rollback(snapshot: GameState)
      requires Named(fields) && Wellformed(snapshot)
      modifies this
      ensures Valid()
      ensures State() == snapshot
    {
      occupant, arena, players := snapshot.occupant, snapshot.arena, snapshot.players;
      current, moveNumber := snapshot.current, snapshot.moveNumber;
    }

    /** `Player.move`: a move by player `p` from the field named `start` to the field named
        `goal`, which either completes and passes the turn or fails with the error the source
        raises and leaves the board as it was. */
    method PlayerMove(p: Color, start: string, goal: string) returns (outcome: Outcome<Error>)
      requires Valid() && Consistent(State())
      modifies this
      ensures Valid()
      ensures match Game.PlayerMove(old(State()), p, start, goal)
        case Ok(h) => outcome == Pass && State() == h
        case Err(e) => outcome == Fail(e) && State() == old(State())
    {
      var snapshot := StartMove();
      if current != Some(p) {
        return Fail(TurnError);
      }
      NamedLookup(fields, start);
      NamedLookup(fields, goal);
      if start !in fields || goal !in fields {
        return Fail(KeyError);
      }
      var from, to := fields[start], fields[goal];
      assert p in players && Opponent(p) in players by { assert p == White || p == Black; }
      if from !in occupant || occupant[from] !in players[p].figures {
        assert Mover(snapshot, p, from).None?;
        return Fail(IllegalMoveError);
      }
      var id := occupant[from];
      assert Mover(snapshot, p, from) == Some(id);
      assert RosterOf(players[p], arena, p);
      outcome := MoveOwned(p, id, to, snapshot);
    }

    /** `Player.move` once the player's own figure is found: the figure moves or captures, the
        move is rolled back to `snapshot` when the player's king is then in check, and otherwise
        it is recorded and the turn passes. */
    method MoveOwned(p: Color, id: nat, to: Field, snapshot: GameState) returns (outcome: Outcome<Error>)
      requires Valid() && Consistent(State()) && p in players && Opponent(p) in players
      requires snapshot == State()
      requires id < |arena| && to.OnBoard()
      modifies this
      ensures Valid()
      ensures match Game.MoveOwned(old(State()), p, id, to)
        case Ok(h) => outcome == Pass && State() == h
        case Err(e) => outcome == Fail(e) && State() == old(State())
    {
      var attempt := MoveOrCapture(id, to);
      if attempt.Err? {
        return Fail(attempt.error);
      }
      var victim := attempt.value;
      var inCheck := InCheck(p);
      if inCheck {
        Rollback(snapshot);
        return Fail(IllegalMoveError);
      }
      FinishMove(id, victim);
      outcome := Pass;
    }

    /** The `try` block of `Player.move`: the figure moves to `f`, or, when `f` is occupied,
        captures the figure there, which is returned. */
    method MoveOrCapture(id: nat, f: Field) returns (r: Result<Option<nat>, Error>)
      requires Valid() && Consistent(State()) && id < |arena| && f.OnBoard()
      modifies this
      ensures Valid()
      ensures match Attempt(old(State()), id, f)
        case Ok((h, victim)) => r == Ok(victim) && State() == h
        case Err(e) => r == Err(e) && State() == old(State())
    {
      var moved := MoveFigure(id, f);
      if moved == Fail(FieldOccupiedError) {
        var captured := Capture(id, f);
        if captured.Err? {
          return Err(captured.error);
        }
        return Ok(Some(captured.value));
      } else if moved.Fail? {
        return Err(moved.error);
      }
      return Ok(None);
    }

    /** The end of `Player.move`: the moved figure (and the captured one) record the move number,
        the turn passes, and the move counter advances. */
    method FinishMove(id: nat, victim: Option<nat>)
      requires Valid() && Consistent(State()) && White in players && Black in players
      requires id < |arena| && (victim.Some? ==> victim.value < |arena|)
      modifies this
      ensures Valid()
      ensures State() == Commit(old(State()), id, victim)
    {
      RecordMove(id, victim);
      EndTurn();
    }

    /** Records the move on the moved and the captured figure, and advances the move counter. */
    method RecordMove(id: nat, victim: Option<nat>)
      requires Valid() && id < |arena| && (victim.Some? ==> victim.value < |arena|)
      modifies this
      ensures Valid()
      ensures State() == Record(old(State()), id, victim)
    {
      RecordWellformed(State(), id, victim);
      var n := moveNumber;
      arena := arena[id := arena[id].(alreadyMoved := true, lastMoved := Some(n))];
      if victim.Some? {
        arena := arena[victim.value := arena[victim.value].(lastMoved := Some(n))];
      }
      moveNumber := n + 1;
    }
  }
}
