/**
  The fields of the chessboard and their neighbour lookups (king_snake/chessboard.py, class Field).

  A field stores the character code of its letter ('A'..'H', as `ord` gives it) and its
  number (1..8). The board's dictionary maps the name `chr(letter) + str(number)` to the field;
  `FieldAt` is that dictionary's `get`, and the neighbour lookups build the name of the
  neighbouring field and look it up, exactly as the source does.
 */
module Geometry {
  import opened Wrappers

  const FirstLetter: int := 'A' as int
  const LastLetter: int := 'H' as int

  /** The eight direction methods of Field, by the names the source passes to `getattr`. */
  datatype Direction = ToLeft | ToRight | Above | Below | AboveRight | BelowRight | AboveLeft | BelowLeft

  const AllDirections: seq<Direction> :=
    [ToLeft, ToRight, Above, Below, AboveRight, BelowRight, AboveLeft, BelowLeft]

  /** `chr(letter) + str(number)` for the letters and numbers a neighbour lookup can produce. */
  function Name(letter: int, number: int): string
    requires FirstLetter - 1 <= letter <= LastLetter + 1 && 0 <= number <= 9
  {
    [letter as char, ('0' as int + number) as char]
  }

  /** `fields.get(name)`: the dictionary holds exactly the 64 names "A1".."H8". */
  function FieldAt(s: string): Option<Field>
  {
    if |s| == 2 && 'A' <= s[0] <= 'H' && '1' <= s[1] <= '8'
    then Some(Field(s[0] as int, s[1] as int - '0' as int))
    else None
  }

  datatype Field = Field(letter: int, number: int)
  {
    predicate OnBoard()
    {
      FirstLetter <= letter <= LastLetter && 1 <= number <= 8
    }

    /** `__str__`: the name is the field's own key in the board's dictionary. */
    function Str(): (s: string)
      requires OnBoard()
      ensures FieldAt(s) == Some(this)
      ensures |s| == 2 && s[0] as int == letter && s[1] as int - '0' as int == number
    {
      Name(letter, number)
    }

    function ToRight(): (r: Option<Field>)
      requires OnBoard()
      ensures r.Some? <==> letter < LastLetter
      ensures r.Some? ==> r.value == Field(letter + 1, number)
    {
      FieldAt(Name(letter + 1, number))
    }

    function ToLeft(): (r: Option<Field>)
      requires OnBoard()
      ensures r.Some? <==> FirstLetter < letter
      ensures r.Some? ==> r.value == Field(letter - 1, number)
    {
      FieldAt(Name(letter - 1, number))
    }

    function Above(): (r: Option<Field>)
      requires OnBoard()
      ensures r.Some? <==> number < 8
      ensures r.Some? ==> r.value == Field(letter, number + 1)
    {
      FieldAt(Name(letter, number + 1))
    }

    function Below(): (r: Option<Field>)
      requires OnBoard()
      ensures r.Some? <==> 1 < number
      ensures r.Some? ==> r.value == Field(letter, number - 1)
    {
      FieldAt(Name(letter, number - 1))
    }

    function AboveRight(): (r: Option<Field>)
      requires OnBoard()
      ensures r.Some? <==> letter < LastLetter && number < 8
      ensures r.Some? ==> r.value == Field(letter + 1, number + 1)
    {
      match Above()
      case None => None
      case Some(above) => above.ToRight()
    }

    function AboveLeft(): (r: Option<Field>)
      requires OnBoard()
      ensures r.Some? <==> FirstLetter < letter && number < 8
      ensures r.Some? ==> r.value == Field(letter - 1, number + 1)
    {
      match Above()
      case None => None
      case Some(above) => above.ToLeft()
    }

    function BelowRight(): (r: Option<Field>)
      requires OnBoard()
      ensures r.Some? <==> letter < LastLetter && 1 < number
      ensures r.Some? ==> r.value == Field(letter + 1, number - 1)
    {
      match Below()
      case None => None
      case Some(below) => below.ToRight()
    }

    function BelowLeft(): (r: Option<Field>)
      requires OnBoard()
      ensures r.Some? <==> FirstLetter < letter && 1 < number
      ensures r.Some? ==> r.value == Field(letter - 1, number - 1)
    {
      match Below()
      case None => None
      case Some(below) => below.ToLeft()
    }

    /** `getattr(field, direction)()`: the neighbour lookup named by the direction; it finds the
        on-board field one step away, as `Neighbour` computes it. */
    function Go(d: Direction): (r: Option<Field>)
      requires OnBoard()
      ensures r == Neighbour(this, d)
    {
      match d
      case ToLeft => ToLeft()
      case ToRight => ToRight()
      case Above => Above()
      case Below => Below()
      case AboveRight => AboveRight()
      case BelowRight => BelowRight()
      case AboveLeft => AboveLeft()
      case BelowLeft => BelowLeft()
    }
  }

  /** The field `k` steps from `f` in direction `d`, whether or not it is on the board. */
  function Offset(f: Field, d: Direction, k: int): Field
  {
    match d
    case ToLeft => Field(f.letter - k, f.number)
    case ToRight => Field(f.letter + k, f.number)
    case Above => Field(f.letter, f.number + k)
    case Below => Field(f.letter, f.number - k)
    case AboveRight => Field(f.letter + k, f.number + k)
    case BelowRight => Field(f.letter + k, f.number - k)
    case AboveLeft => Field(f.letter - k, f.number + k)
    case BelowLeft => Field(f.letter - k, f.number - k)
  }

  /** The field one step from `f` in direction `d`, if it is on the board: what the neighbour
      lookups compute, stated on coordinates (see `Field.Go`). */
  function Neighbour(f: Field, d: Direction): Option<Field>
  {
    if Offset(f, d, 1).OnBoard() then Some(Offset(f, d, 1)) else None
  }

  /** The dictionary lookup by name and `__str__` are inverse to each other. */
  lemma NameRoundTrip(s: string)
    requires FieldAt(s).Some?
    ensures FieldAt(s).value.OnBoard() && FieldAt(s).value.Str() == s
  {
    var f := FieldAt(s).value;
    assert f.Str() == [s[0], s[1]];
  }

  /** Stepping right and then left returns to the start; the same holds up and down. */
  lemma {:induction false} StepsInvert(f: Field)
    requires f.OnBoard()
    ensures f.ToRight().Some? ==> f.ToRight().value.ToLeft() == Some(f)
    ensures f.ToLeft().Some? ==> f.ToLeft().value.ToRight() == Some(f)
    ensures f.Above().Some? ==> f.Above().value.Below() == Some(f)
    ensures f.Below().Some? ==> f.Below().value.Above() == Some(f)
  {
  }

  /** Going `k` steps in one direction is going `k - 1` steps and then one more. */
  lemma OffsetSucc(f: Field, d: Direction, k: int)
    ensures Offset(Offset(f, d, 1), d, k) == Offset(f, d, k + 1)
  {
  }

  /** Distinct distances give distinct fields: no direction stands still. */
  lemma OffsetInjective(f: Field, d: Direction, j: int, k: int)
    requires Offset(f, d, j) == Offset(f, d, k)
    ensures j == k
  {
  }

  /** The board is convex: every field between two on-board fields of a ray is on the board. */
  lemma OffsetBetween(f: Field, d: Direction, m: int, k: int)
    requires f.OnBoard() && Offset(f, d, k).OnBoard()
    ensures 0 <= m <= k ==> Offset(f, d, m).OnBoard()
  {
  }
}
