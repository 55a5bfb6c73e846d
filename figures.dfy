/**
  Chess figures and the fields they may move to (king_snake/figures/).

  A figure is a value here; the game keeps every figure ever created in an arena and names it
  by its index there. `Occupancy` is the `figure` attribute of all 64 fields at once: a field
  without an entry holds no figure.
 */
module Figures {
  import opened Wrappers
  import opened Geometry

  datatype Color = White | Black

  /** The figure classes; a pawn carries the `already_captured` flag that only Pawn defines. */
  datatype Kind = Pawn(alreadyCaptured: bool) | Rook | Knight | Bishop | Queen | King

  datatype Figure = Figure(
    kind: Kind,
    color: Color,
    position: Option<Field>,
    alreadyMoved: bool,
    lastMoved: Option<nat>)

  type Occupancy = map<Field, nat>

  /** A figure is on the board or has been captured (position `None`). */
  predicate Placed(fig: Figure)
  {
    fig.position.Some? ==> fig.position.value.OnBoard()
  }

  // ---------------------------------------------------------------------------
  // Ray casting (Figure._fields_in_directions)
  // ---------------------------------------------------------------------------

  /** The fields one direction contributes: walk up to `perimeter` steps, stop at the board's edge,
      and stop just after the first occupied field, which is included. Each step is the lookup
      `getattr(position, direction)()`, which `Field.Go` proves equal to `Neighbour`. */
  function Ray(occ: Occupancy, from: Field, d: Direction, perimeter: nat): seq<Field>
    requires from.OnBoard()
    decreases perimeter
  {
    if perimeter == 0 then []
    else
      match Neighbour(from, d)
      case None => []
      case Some(next) =>
        if next in occ then [next] else [next] + Ray(occ, next, d, perimeter - 1)
  }

  /** `_fields_in_directions(directions, perimeter)`: the rays of all directions, in order. */
  function FieldsInDirections(occ: Occupancy, from: Field, dirs: seq<Direction>, perimeter: nat): seq<Field>
    requires from.OnBoard()
  {
    if dirs == [] then []
    else Ray(occ, from, dirs[0], perimeter) + FieldsInDirections(occ, from, dirs[1..], perimeter)
  }

  /** A ray holds at most `perimeter` fields. */
  lemma {:induction false} RayLength(occ: Occupancy, from: Field, d: Direction, perimeter: nat)
    requires from.OnBoard()
    ensures |Ray(occ, from, d, perimeter)| <= perimeter
    decreases perimeter
  {
    if perimeter > 0 && Neighbour(from, d).Some? && Neighbour(from, d).value !in occ {
      RayLength(occ, Neighbour(from, d).value, d, perimeter - 1);
    }
  }

  /** The i-th field of a ray is the on-board field i + 1 steps out. */
  lemma {:induction false} RayFields(occ: Occupancy, from: Field, d: Direction, perimeter: nat)
    requires from.OnBoard()
    ensures forall i :: 0 <= i < |Ray(occ, from, d, perimeter)| ==>
      Ray(occ, from, d, perimeter)[i] == Offset(from, d, i + 1) && Ray(occ, from, d, perimeter)[i].OnBoard()
    decreases perimeter
  {
    var r := Ray(occ, from, d, perimeter);
    if perimeter > 0 && Neighbour(from, d).Some? && Neighbour(from, d).value !in occ {
      var next := Neighbour(from, d).value;
      RayFields(occ, next, d, perimeter - 1);
      var rest := Ray(occ, next, d, perimeter - 1);
      assert r == [next] + rest;
      assert next == Offset(from, d, 1);
      forall i | 0 <= i < |r| ensures r[i] == Offset(from, d, i + 1) && r[i].OnBoard() {
        if i > 0 {
          assert r[i] == rest[i - 1] == Offset(next, d, i);
          OffsetSucc(from, d, i);
        }
      }
    }
  }

  /** Every field of a ray before its last one is empty. */
  lemma {:induction false} RayOpen(occ: Occupancy, from: Field, d: Direction, perimeter: nat)
    requires from.OnBoard()
    ensures forall i :: 0 <= i < |Ray(occ, from, d, perimeter)| - 1 ==> Ray(occ, from, d, perimeter)[i] !in occ
    decreases perimeter
  {
    var r := Ray(occ, from, d, perimeter);
    if perimeter > 0 && Neighbour(from, d).Some? && Neighbour(from, d).value !in occ {
      var next := Neighbour(from, d).value;
      RayOpen(occ, next, d, perimeter - 1);
      var rest := Ray(occ, next, d, perimeter - 1);
      assert r == [next] + rest;
      forall i | 0 <= i < |r| - 1 ensures r[i] !in occ {
        if i > 0 {
          assert r[i] == rest[i - 1] && rest[i - 1] !in occ;
        }
      }
    }
  }

  /** A ray shorter than `perimeter` ends on an occupied field or at the board's edge. */
  lemma {:induction false} RayEnd(occ: Occupancy, from: Field, d: Direction, perimeter: nat)
    requires from.OnBoard()
    ensures var r := Ray(occ, from, d, perimeter);
      |r| < perimeter ==> (0 < |r| && r[|r| - 1] in occ) || !Offset(from, d, |r| + 1).OnBoard()
    decreases perimeter
  {
    var r := Ray(occ, from, d, perimeter);
    if perimeter > 0 && Neighbour(from, d).Some? && Neighbour(from, d).value !in occ {
      var next := Neighbour(from, d).value;
      assert next == Offset(from, d, 1);
      RayEnd(occ, next, d, perimeter - 1);
      var rest := Ray(occ, next, d, perimeter - 1);
      assert r == [next] + rest;
      if |r| < perimeter {
        if 0 < |rest| {
          assert r[|r| - 1] == rest[|rest| - 1];
        }
        OffsetSucc(from, d, |rest| + 1);
      }
    } else if perimeter > 0 && Neighbour(from, d).Some? {
      assert r == [Neighbour(from, d).value];
    } else {
      assert r == [];
    }
  }

  /** A ray is the run of consecutive fields at distances 1, 2, ... in its direction; at most
      `perimeter` of them; all but the last are empty; and it ends early only on an occupied
      field or at the board's edge. */
  lemma RayShape(occ: Occupancy, from: Field, d: Direction, perimeter: nat)
    requires from.OnBoard()
    ensures var r := Ray(occ, from, d, perimeter);
      && |r| <= perimeter
      && (forall i :: 0 <= i < |r| ==> r[i] == Offset(from, d, i + 1) && r[i].OnBoard())
      && (forall i :: 0 <= i < |r| - 1 ==> r[i] !in occ)
      && (|r| < perimeter ==> (0 < |r| && r[|r| - 1] in occ) || !Offset(from, d, |r| + 1).OnBoard())
  {
    RayLength(occ, from, d, perimeter);
    RayFields(occ, from, d, perimeter);
    RayOpen(occ, from, d, perimeter);
    RayEnd(occ, from, d, perimeter);
  }

  /** Completeness and soundness along one ray: the field at distance `k <= perimeter` is
      returned exactly when it is on the board and every field before it is empty. */
  lemma RayMembership(occ: Occupancy, from: Field, d: Direction, perimeter: nat, k: int)
    requires from.OnBoard() && 1 <= k <= perimeter
    ensures Offset(from, d, k) in Ray(occ, from, d, perimeter) <==>
      Offset(from, d, k).OnBoard() && forall j :: 1 <= j < k ==> Offset(from, d, j) !in occ
  {
    var r := Ray(occ, from, d, perimeter);
    RayShape(occ, from, d, perimeter);
    if Offset(from, d, k).OnBoard() && forall j :: 1 <= j < k ==> Offset(from, d, j) !in occ {
      OffsetBetween(from, d, |r| + 1, k);
      assert r[k - 1] == Offset(from, d, k);
    }
    if Offset(from, d, k) in r {
      var i :| 0 <= i < |r| && r[i] == Offset(from, d, k);
      OffsetInjective(from, d, i + 1, k);
      forall j | 1 <= j < k ensures Offset(from, d, j) !in occ {
        assert r[j - 1] == Offset(from, d, j);
      }
    }
  }

  /** Every field found lies on one of the given rays. */
  lemma {:induction false} FieldsInDirectionsMembership(occ: Occupancy, from: Field, dirs: seq<Direction>, perimeter: nat, x: Field)
    requires from.OnBoard()
    ensures x in FieldsInDirections(occ, from, dirs, perimeter) <==>
      exists i :: 0 <= i < |dirs| && x in Ray(occ, from, dirs[i], perimeter)
  {
    if dirs != [] {
      FieldsInDirectionsMembership(occ, from, dirs[1..], perimeter, x);
      if x in Ray(occ, from, dirs[0], perimeter) {
        assert 0 < |dirs| && x in Ray(occ, from, dirs[0], perimeter);
      }
      if exists i :: 0 <= i < |dirs| && x in Ray(occ, from, dirs[i], perimeter) {
        var i :| 0 <= i < |dirs| && x in Ray(occ, from, dirs[i], perimeter);
        if i > 0 {
          assert dirs[1..][i - 1] == dirs[i];
        }
      }
    }
  }

  /** No direction contributes more than `perimeter` fields. */
  lemma {:induction false} FieldsInDirectionsLength(occ: Occupancy, from: Field, dirs: seq<Direction>, perimeter: nat)
    requires from.OnBoard()
    ensures |FieldsInDirections(occ, from, dirs, perimeter)| <= |dirs| * perimeter
  {
    if dirs != [] {
      RayLength(occ, from, dirs[0], perimeter);
      FieldsInDirectionsLength(occ, from, dirs[1..], perimeter);
      var n := |dirs[1..]|;
      assert |dirs| == n + 1;
      assert (n + 1) * perimeter == n * perimeter + perimeter;
    }
  }

  /** With perimeter 1 a ray is just the neighbour, occupied or not. */
  lemma RayOfOne(occ: Occupancy, from: Field, d: Direction)
    requires from.OnBoard()
    ensures Ray(occ, from, d, 1) ==
      if Offset(from, d, 1).OnBoard() then [Offset(from, d, 1)] else []
  {
  }

  function Abs(n: int): nat
  {
    if n < 0 then -n else n
  }

  predicate Distinct(fs: seq<Field>)
  {
    forall i, j :: 0 <= i < j < |fs| ==> fs[i] != fs[j]
  }

  // ---------------------------------------------------------------------------
  // Knight (king_snake/figures/knight.py)
  // ---------------------------------------------------------------------------

  /** The (first step, second step) pairs of `Knight.legal_moves`: one orthogonal step and then
      one diagonal step away from it. Python 2 iterates the `steps` dictionary in an order of its
      own choosing; the order below is one such order. */
  const KnightSteps: seq<(Direction, Direction)> :=
    [ (Above, AboveLeft), (Above, AboveRight),
      (Below, BelowLeft), (Below, BelowRight),
      (ToLeft, AboveLeft), (ToLeft, BelowLeft),
      (ToRight, AboveRight), (ToRight, BelowRight) ]

  /** The field both steps lead to, on the board or not. */
  function Shift(from: Field, step: (Direction, Direction)): Field
  {
    Offset(Offset(from, step.0, 1), step.1, 1)
  }

  /** One pair of steps, each a neighbour lookup (`Field.Go`): `None` when either step leaves the
      board. */
  function Jump(from: Field, step: (Direction, Direction)): Option<Field>
    requires from.OnBoard()
  {
    match Neighbour(from, step.0)
    case None => None
    case Some(first) => Neighbour(first, step.1)
  }

  function Jumps(from: Field, steps: seq<(Direction, Direction)>): seq<Field>
    requires from.OnBoard()
  {
    if steps == [] then []
    else
      (match Jump(from, steps[0]) case None => [] case Some(x) => [x]) + Jumps(from, steps[1..])
  }

  /** `Knight.legal_moves`: it reads no field's occupant. */
  function KnightMoves(from: Field): seq<Field>
    requires from.OnBoard()
  {
    Jumps(from, KnightSteps)
  }

  predicate KnightOffset(from: Field, to: Field)
  {
    var dl, dn := Abs(to.letter - from.letter), Abs(to.number - from.number);
    (dl == 1 && dn == 2) || (dl == 2 && dn == 1)
  }

  /** Each of the eight pairs reaches its target exactly when the target is on the board: the
      intermediate field lies between the start and the target. */
  lemma JumpOfKnightStep(from: Field, step: (Direction, Direction))
    requires from.OnBoard() && step in KnightSteps
    ensures Jump(from, step) == if Shift(from, step).OnBoard() then Some(Shift(from, step)) else None
    ensures KnightOffset(from, Shift(from, step))
  {
  }

  lemma {:induction false} JumpsMembership(from: Field, steps: seq<(Direction, Direction)>, x: Field)
    requires from.OnBoard()
    ensures x in Jumps(from, steps) <==> exists s :: s in steps && Jump(from, s) == Some(x)
  {
    if steps != [] {
      JumpsMembership(from, steps[1..], x);
      if exists s :: s in steps && Jump(from, s) == Some(x) {
        var s :| s in steps && Jump(from, s) == Some(x);
        if s != steps[0] {
          assert s in steps[1..];
        }
      }
    }
  }

  lemma {:induction false} JumpsLength(from: Field, steps: seq<(Direction, Direction)>)
    requires from.OnBoard()
    ensures |Jumps(from, steps)| <= |steps|
  {
    if steps != [] {
      JumpsLength(from, steps[1..]);
    }
  }

  /** A field not in a duplicate-free list can be put in front of it. */
  lemma DistinctCons(h: Field, tail: seq<Field>)
    requires Distinct(tail) && h !in tail
    ensures Distinct([h] + tail)
  {
    var r := [h] + tail;
    forall i, j | 0 <= i < j < |r| ensures r[i] != r[j] {
      assert r[j] == tail[j - 1];
      if i > 0 {
        assert r[i] == tail[i - 1];
      }
    }
  }

  /** A knight step whose offset differs from those of the other steps lands on a field none of
      them reaches. */
  lemma JumpApart(from: Field, s: (Direction, Direction), rest: seq<(Direction, Direction)>)
    requires from.OnBoard() && s in KnightSteps && Jump(from, s).Some?
    requires forall t :: t in rest ==> t in KnightSteps && Shift(from, t) != Shift(from, s)
    ensures Jump(from, s).value !in Jumps(from, rest)
  {
    var h := Jump(from, s).value;
    JumpOfKnightStep(from, s);
    if h in Jumps(from, rest) {
      JumpsMembership(from, rest, h);
      var t :| t in rest && Jump(from, t) == Some(h);
      JumpOfKnightStep(from, t);
    }
  }

  lemma {:induction false} JumpsDistinct(from: Field, steps: seq<(Direction, Direction)>)
    requires from.OnBoard()
    requires forall s :: s in steps ==> s in KnightSteps
    requires forall i, j :: 0 <= i < j < |steps| ==> Shift(from, steps[i]) != Shift(from, steps[j])
    ensures Distinct(Jumps(from, steps))
  {
    if steps != [] {
      var rest := steps[1..];
      assert forall i, j :: 0 <= i < j < |rest| ==> rest[i] == steps[i + 1] && rest[j] == steps[j + 1];
      JumpsDistinct(from, rest);
      var tail := Jumps(from, rest);
      if Jump(from, steps[0]).Some? {
        forall t | t in rest ensures t in KnightSteps && Shift(from, t) != Shift(from, steps[0]) {
          var k :| 0 <= k < |rest| && rest[k] == t;
          assert steps[k + 1] == t;
        }
        JumpApart(from, steps[0], rest);
        DistinctCons(Jump(from, steps[0]).value, tail);
      }
    }
  }

  /** Soundness and completeness of the knight: its destinations are exactly the on-board fields
      at an L-shaped offset, whoever stands on them or in between. */
  lemma KnightMovesExact(from: Field, x: Field)
    requires from.OnBoard()
    ensures x in KnightMoves(from) <==> x.OnBoard() && KnightOffset(from, x)
  {
    JumpsMembership(from, KnightSteps, x);
    if x in KnightMoves(from) {
      var s :| s in KnightSteps && Jump(from, s) == Some(x);
      JumpOfKnightStep(from, s);
    }
    if x.OnBoard() && KnightOffset(from, x) {
      var s := KnightStepTo(from, x);
      JumpOfKnightStep(from, s);
    }
  }

  /** The pair of steps that leads from `from` to a field at an L-shaped offset. */
  lemma KnightStepTo(from: Field, x: Field) returns (s: (Direction, Direction))
    requires KnightOffset(from, x)
    ensures s in KnightSteps && Shift(from, s) == x
  {
    var dl, dn := x.letter - from.letter, x.number - from.number;
    if dn == 2 {
      s := if dl < 0 then (Above, AboveLeft) else (Above, AboveRight);
    } else if dn == -2 {
      s := if dl < 0 then (Below, BelowLeft) else (Below, BelowRight);
    } else if dl == -2 {
      s := if dn > 0 then (ToLeft, AboveLeft) else (ToLeft, BelowLeft);
    } else {
      s := if dn > 0 then (ToRight, AboveRight) else (ToRight, BelowRight);
    }
  }

  /** At most eight destinations, none twice: the eight pairs lead to eight different offsets. */
  lemma KnightMovesDistinct(from: Field)
    requires from.OnBoard()
    ensures |KnightMoves(from)| <= 8 && Distinct(KnightMoves(from))
  {
    JumpsLength(from, KnightSteps);
    JumpsDistinct(from, KnightSteps);
  }

  // ---------------------------------------------------------------------------
  // King and pawn (king_snake/figures/king.py, pawn.py)
  // ---------------------------------------------------------------------------

  /** `King.legal_moves`: all eight directions, perimeter 1. */
  function KingMoves(occ: Occupancy, from: Field): seq<Field>
    requires from.OnBoard()
  {
    FieldsInDirections(occ, from, AllDirections, 1)
  }

  /** `Pawn.legal_moves`: the single direction `above`, perimeter 1, for either colour. */
  function PawnMoves(occ: Occupancy, from: Field): seq<Field>
    requires from.OnBoard()
  {
    FieldsInDirections(occ, from, [Above], 1)
  }

  predicate Adjacent(from: Field, to: Field)
  {
    to != from && Abs(to.letter - from.letter) <= 1 && Abs(to.number - from.number) <= 1
  }

  /** The king's destinations are exactly the on-board neighbours, empty or occupied by either
      colour; so never its own field and never a field two letters away (no castling). */
  lemma KingMovesExact(occ: Occupancy, from: Field, x: Field)
    requires from.OnBoard()
    ensures x in KingMoves(occ, from) <==> x.OnBoard() && Adjacent(from, x)
  {
    FieldsInDirectionsMembership(occ, from, AllDirections, 1, x);
    if x.OnBoard() && Adjacent(from, x) {
      var i := AdjacentDirection(from, x);
      RayOfOne(occ, from, AllDirections[i]);
      assert x in Ray(occ, from, AllDirections[i], 1);
    }
    if x in KingMoves(occ, from) {
      var i :| 0 <= i < |AllDirections| && x in Ray(occ, from, AllDirections[i], 1);
      InRayOfOne(occ, from, AllDirections[i], x);
    }
  }

  /** The direction in which a neighbouring field lies. */
  lemma AdjacentDirection(from: Field, x: Field) returns (i: int)
    requires Adjacent(from, x)
    ensures 0 <= i < |AllDirections| && x == Offset(from, AllDirections[i], 1)
  {
    var dl, dn := x.letter - from.letter, x.number - from.number;
    i :=
      if dn == 0 then (if dl < 0 then 0 else 1)
      else if dl == 0 then (if dn > 0 then 2 else 3)
      else if dl > 0 then (if dn > 0 then 4 else 5)
      else (if dn > 0 then 6 else 7);
  }

  /** A ray of length one holds only a neighbouring field on the board. */
  lemma InRayOfOne(occ: Occupancy, from: Field, d: Direction, x: Field)
    requires from.OnBoard() && x in Ray(occ, from, d, 1)
    ensures x.OnBoard() && Adjacent(from, x)
  {
    RayOfOne(occ, from, d);
    assert x == Offset(from, d, 1);
  }

  lemma KingMovesCount(occ: Occupancy, from: Field)
    requires from.OnBoard()
    ensures |KingMoves(occ, from)| <= 8
    ensures from !in KingMoves(occ, from)
  {
    FieldsInDirectionsLength(occ, from, AllDirections, 1);
    KingMovesExact(occ, from, from);
  }

  /** A pawn is offered at most the field directly above it, occupied or not, whatever its
      colour: nothing diagonal, no double step, nothing from the last rank. */
  lemma PawnMovesExact(occ: Occupancy, from: Field)
    requires from.OnBoard()
    ensures PawnMoves(occ, from) ==
      if from.number < 8 then [Field(from.letter, from.number + 1)] else []
  {
    RayOfOne(occ, from, Above);
    assert [Above][1..] == [];
    assert PawnMoves(occ, from) == Ray(occ, from, Above, 1) + FieldsInDirections(occ, from, [], 1);
  }

  // ---------------------------------------------------------------------------
  // Dispatch on the figure class (Figure.legal_moves and its overrides)
  // ---------------------------------------------------------------------------

  /** Rook, Bishop and Queen do not override `legal_moves`, so asking them raises
      NotImplementedError: `Unsupported`. */
  datatype Moves = Unsupported | Dests(fields: seq<Field>)

  /** The legal moves of a figure; a captured figure (no position) has none. */
  function LegalMoves(fig: Figure, occ: Occupancy): Moves
    requires Placed(fig)
  {
    match fig.kind
    case Rook => Unsupported
    case Bishop => Unsupported
    case Queen => Unsupported
    case Pawn(_) => Dests(if fig.position.Some? then PawnMoves(occ, fig.position.value) else [])
    case Knight => Dests(if fig.position.Some? then KnightMoves(fig.position.value) else [])
    case King => Dests(if fig.position.Some? then KingMoves(occ, fig.position.value) else [])
  }

  /** Only rook, bishop and queen lack movement rules, and a figure without a field has no
      destinations. */
  lemma LegalMovesCases(fig: Figure, occ: Occupancy)
    requires Placed(fig)
    ensures LegalMoves(fig, occ).Unsupported? <==> fig.kind.Rook? || fig.kind.Bishop? || fig.kind.Queen?
    ensures LegalMoves(fig, occ).Dests? && fig.position.None? ==> LegalMoves(fig, occ).fields == []
  {
  }

  /** The figure's legal moves contain `x`; a figure without movement rules threatens nothing. */
  predicate Threatens(fig: Figure, occ: Occupancy, x: Field)
    requires Placed(fig)
  {
    match LegalMoves(fig, occ)
    case Unsupported => false
    case Dests(ds) => x in ds
  }

  // ---------------------------------------------------------------------------
  // Start positions (the start_position tables and Figure._set_start_position)
  // ---------------------------------------------------------------------------

  function BackRank(c: Color): int
  {
    if c == White then 1 else 8
  }

  function PawnRank(c: Color): int
  {
    if c == White then 2 else 7
  }

  function Sq(letter: char, number: int): Field
  {
    Field(letter as int, number)
  }

  /** The `start_position` table of each figure class, in table order. */
  function StartTable(kind: Kind, c: Color): (t: seq<Field>)
    ensures forall f :: f in t ==> f.OnBoard()
  {
    match kind
    case Pawn(_) => seq(8, j => Field(FirstLetter + j, PawnRank(c)))
    case Rook => [Sq('A', BackRank(c)), Sq('H', BackRank(c))]
    case Knight => [Sq('B', BackRank(c)), Sq('G', BackRank(c))]
    case Bishop => [Sq('C', BackRank(c)), Sq('F', BackRank(c))]
    case Queen => [Sq('D', BackRank(c))]
    case King => [Sq('E', BackRank(c))]
  }

  /** The field `_set_start_position` takes: the first free one in table order, if any. */
  function FirstFree(occ: Occupancy, table: seq<Field>): (r: Option<Field>)
    ensures r.Some? ==> r.value in table && r.value !in occ
  {
    if table == [] then None
    else
      match FirstFree(occ, table[..|table| - 1])
      case Some(f) => Some(f)
      case None =>
        var last := table[|table| - 1];
        if last in occ then None else Some(last)
  }

  /** Trying one more entry of the table: the field already found stays, and otherwise the new
      entry is taken when it is free. */
  lemma FirstFreeSnoc(occ: Occupancy, table: seq<Field>, k: int)
    requires 0 <= k < |table|
    ensures FirstFree(occ, table[..k + 1]) ==
      if FirstFree(occ, table[..k]).Some? then FirstFree(occ, table[..k])
      else if table[k] in occ then None else Some(table[k])
  {
    assert table[..k + 1][..k] == table[..k];
  }

  /** The field taken is the first free entry of the table: every earlier entry is occupied. */
  lemma {:induction false} FirstFreeAt(occ: Occupancy, table: seq<Field>, i: int)
    requires 0 <= i < |table| && table[i] !in occ
    requires forall j :: 0 <= j < i ==> table[j] in occ
    ensures FirstFree(occ, table) == Some(table[i])
  {
    var init := table[..|table| - 1];
    if i < |table| - 1 {
      FirstFreeAt(occ, init, i);
    } else {
      FirstFreeNone(occ, init);
    }
  }

  /** No field is taken exactly when every field of the table is occupied. */
  lemma {:induction false} FirstFreeNone(occ: Occupancy, table: seq<Field>)
    ensures FirstFree(occ, table).None? <==> forall j :: 0 <= j < |table| ==> table[j] in occ
  {
    if table != [] {
      var init := table[..|table| - 1];
      FirstFreeNone(occ, init);
      assert forall j :: 0 <= j < |init| ==> init[j] == table[j];
    }
  }
}
