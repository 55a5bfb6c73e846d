/**
  Setting up a game: `Chessboard.__init__` and `Chessboard.add_players` (king_snake/chessboard.py),
  `Player.set_up_board` (king_snake/player.py), `Figure.__init__` and
  `Figure._set_start_position` (king_snake/figures/figure.py).
 */
module Setup {
  import opened Wrappers
  import opened Geometry
  import opened Figures
  import opened Game

  /** The order in which `Player.set_up_board` creates a player's figures: eight pawns, then
      rook, knight and bishop twice, then the queen and last the king. */
  const SetupOrder: seq<Kind> :=
    [Pawn(false), Pawn(false), Pawn(false), Pawn(false), Pawn(false), Pawn(false), Pawn(false), Pawn(false),
     Rook, Knight, Bishop, Rook, Knight, Bishop, Queen, King]

  /** The board of `Chessboard.__init__`: no figure, no player, no side to move; the move counter
      starts at one. */
  const Empty: GameState := GameState(map[], [], map[], None, 1)

  /** The state `Chessboard()` leaves; `Empty` is the only one. */
  predicate Unset(g: GameState)
  {
    g.occupant == map[] && g.arena == [] && g.players == map[] && g.current.None? && g.moveNumber == 1
  }

  /** `Figure._set_start_position`: the figure takes the first field of its class's table that is
      still free, and stays off the board when every one is taken. */
  function PlaceAtStart(g: GameState, id: nat): (h: GameState)
    requires id < |g.arena| && g.arena[id].position.None?
    ensures |h.arena| == |g.arena|
    ensures h.arena[id] ==
      g.arena[id].(position := FirstFree(g.occupant, StartTable(g.arena[id].kind, g.arena[id].color)))
    ensures forall i :: 0 <= i < |g.arena| && i != id ==> h.arena[i] == g.arena[i]
    ensures h.arena[id].position.None? ==> h == g
    ensures h.arena[id].position.Some? ==> h.occupant == g.occupant[h.arena[id].position.value := id]
    ensures h.players == g.players && h.current == g.current && h.moveNumber == g.moveNumber
    ensures Wellformed(g) ==> Wellformed(h)
  {
    match FirstFree(g.occupant, StartTable(g.arena[id].kind, g.arena[id].color))
    case None => g
    case Some(f) => Receive(g, f, id).value
  }

  /** `Figure.__init__(player)` without a position: a new unmoved figure of the player's colour,
      placed on its start field. */
  function NewFigure(g: GameState, kind: Kind, c: Color): (h: GameState)
    ensures |h.arena| == |g.arena| + 1
    ensures forall i :: 0 <= i < |g.arena| ==> h.arena[i] == g.arena[i]
    ensures h.arena[|g.arena|] == Figure(kind, c, FirstFree(g.occupant, StartTable(kind, c)), false, None)
    ensures FirstFree(g.occupant, StartTable(kind, c)).None? ==> h.occupant == g.occupant
    ensures FirstFree(g.occupant, StartTable(kind, c)).Some? ==>
      h.occupant == g.occupant[FirstFree(g.occupant, StartTable(kind, c)).value := |g.arena|]
    ensures h.players == g.players && h.current == g.current && h.moveNumber == g.moveNumber
  {
    var added := g.(arena := g.arena + [Figure(kind, c, None, false, None)]);
    PlaceAtStart(added, |g.arena|)
  }

  lemma NewFigureWellformed(g: GameState, kind: Kind, c: Color)
    requires Wellformed(g)
    ensures Wellformed(NewFigure(g, kind, c))
  {
    var added := g.(arena := g.arena + [Figure(kind, c, None, false, None)]);
    assert Wellformed(added);
  }

  /** A figure of the given kind and colour that has not moved yet. */
  predicate Unmoved(fig: Figure, kind: Kind, c: Color)
  {
    fig.kind == kind && fig.color == c && !fig.alreadyMoved && fig.lastMoved.None?
  }

  /** The figures of `kinds`, created one after the other. */
  function AddFigures(g: GameState, c: Color, kinds: seq<Kind>): (h: GameState)
    ensures |h.arena| == |g.arena| + |kinds|
    ensures forall i :: 0 <= i < |g.arena| ==> h.arena[i] == g.arena[i]
    ensures forall k :: 0 <= k < |kinds| ==> Unmoved(h.arena[|g.arena| + k], kinds[k], c)
    ensures forall e :: e in g.occupant ==> e in h.occupant && h.occupant[e] == g.occupant[e]
    ensures h.players == g.players && h.current == g.current && h.moveNumber == g.moveNumber
    decreases |kinds|
  {
    if kinds == [] then g
    else
      var init := kinds[..|kinds| - 1];
      var prev := AddFigures(g, c, init);
      AddFigureStep(g, c, init, kinds, prev);
      NewFigure(prev, kinds[|kinds| - 1], c)
  }

  /** One more figure keeps what `AddFigures` promises about the figures before it. */
  lemma AddFigureStep(g: GameState, c: Color, init: seq<Kind>, kinds: seq<Kind>, prev: GameState)
    requires kinds != [] && init == kinds[..|kinds| - 1]
    requires |prev.arena| == |g.arena| + |kinds| - 1
    requires forall i :: 0 <= i < |g.arena| ==> prev.arena[i] == g.arena[i]
    requires forall k :: 0 <= k < |kinds| - 1 ==> Unmoved(prev.arena[|g.arena| + k], init[k], c)
    requires forall e :: e in g.occupant ==> e in prev.occupant && prev.occupant[e] == g.occupant[e]
    requires prev.players == g.players && prev.current == g.current && prev.moveNumber == g.moveNumber
    ensures var h := NewFigure(prev, kinds[|kinds| - 1], c);
      && |h.arena| == |g.arena| + |kinds|
      && (forall i :: 0 <= i < |g.arena| ==> h.arena[i] == g.arena[i])
      && (forall k :: 0 <= k < |kinds| ==> Unmoved(h.arena[|g.arena| + k], kinds[k], c))
      && (forall e :: e in g.occupant ==> e in h.occupant && h.occupant[e] == g.occupant[e])
      && h.players == g.players && h.current == g.current && h.moveNumber == g.moveNumber
  {
    var h := NewFigure(prev, kinds[|kinds| - 1], c);
    forall k | 0 <= k < |kinds|
      ensures Unmoved(h.arena[|g.arena| + k], kinds[k], c)
    {
      if k < |kinds| - 1 {
        assert init[k] == kinds[k];
      }
    }
  }

  /** Creating one more figure extends the figures created so far. */
  lemma AddFiguresSnoc(g: GameState, c: Color, kinds: seq<Kind>, i: int)
    requires 0 <= i < |kinds|
    ensures AddFigures(g, c, kinds[..i + 1]) == NewFigure(AddFigures(g, c, kinds[..i]), kinds[i], c)
  {
    assert kinds[..i + 1][..i] == kinds[..i];
  }

  lemma {:induction false} AddFiguresWellformed(g: GameState, c: Color, kinds: seq<Kind>)
    requires Wellformed(g)
    ensures Wellformed(AddFigures(g, c, kinds))
    decreases |kinds|
  {
    if kinds != [] {
      AddFiguresWellformed(g, c, kinds[..|kinds| - 1]);
      NewFigureWellformed(AddFigures(g, c, kinds[..|kinds| - 1]), kinds[|kinds| - 1], c);
    }
  }

  /** The arena indices `base`, `base + 1`, ..., `base + n - 1`. */
  function Ids(base: nat, n: nat): (ids: seq<nat>)
    ensures |ids| == n && forall k :: 0 <= k < n ==> ids[k] == base + k
  {
    seq(n, k => base + k)
  }

  /** `Player.set_up_board`: the player's sixteen figures are created in `SetupOrder`; its roster
      lists them in that order and its king is the last of them. */
  function SetUp(g: GameState, c: Color): (h: GameState)
    ensures |h.arena| == |g.arena| + 16
    ensures forall i :: 0 <= i < |g.arena| ==> h.arena[i] == g.arena[i]
    ensures forall k :: 0 <= k < 16 ==> Unmoved(h.arena[|g.arena| + k], SetupOrder[k], c)
    ensures c in h.players && h.players[c].figures == Ids(|g.arena|, 16)
    ensures h.players[c].king == h.players[c].figures[15]
    ensures forall d :: d != c ==> (d in h.players <==> d in g.players)
    ensures forall d :: d != c && d in g.players ==> h.players[d] == g.players[d]
    ensures h.current == g.current && h.moveNumber == g.moveNumber
  {
    assert |SetupOrder| == 16;
    var h := AddFigures(g, c, SetupOrder);
    var base := |g.arena|;
    h.(players := h.players[c := Player(Ids(base, 16), base + 15)])
  }

  lemma SetUpWellformed(g: GameState, c: Color)
    requires Wellformed(g)
    ensures Wellformed(SetUp(g, c))
  {
    AddFiguresWellformed(g, c, SetupOrder);
    var a := AddFigures(g, c, SetupOrder);
    var h := SetUp(g, c);
    assert h.arena == a.arena && h.occupant == a.occupant;
    assert RosterOf(h.players[c], h.arena, c) by {
      assert SetupOrder[15] == King;
      assert Unmoved(h.arena[|g.arena| + 15], King, c);
      forall k | 0 <= k < 16 ensures h.arena[h.players[c].figures[k]].color == c {
        assert Unmoved(h.arena[|g.arena| + k], SetupOrder[k], c);
      }
    }
    forall d | d in h.players ensures RosterOf(h.players[d], h.arena, d) {
      if d != c {
        assert h.players[d] == a.players[d];
      }
    }
  }

  /** `Chessboard.add_players`: white and then black set up their figures, and white moves first. */
  function WithPlayers(g: GameState): (h: GameState)
    ensures h.current == Some(White) && White in h.players && Black in h.players
  {
    var w := SetUp(g, White).(current := Some(White));
    SetUp(w, Black).(current := Some(White))
  }

  /** `add_players` leaves a consistent game. */
  lemma WithPlayersConsistent(g: GameState)
    requires Wellformed(g)
    ensures Consistent(WithPlayers(g))
  {
    SetUpWellformed(g, White);
    var w := SetUp(g, White).(current := Some(White));
    SetUpWellformed(w, Black);
  }

  // ---------------------------------------------------------------------------
  // The standard opening position
  // ---------------------------------------------------------------------------

  function PieceLetter(k: int): char
  {
    if k == 8 then 'A' else if k == 9 then 'B' else if k == 10 then 'C' else if k == 11 then 'H'
    else if k == 12 then 'G' else if k == 13 then 'F' else if k == 14 then 'D' else 'E'
  }

  /** The start field of the `k`-th figure a player of colour `c` creates. */
  function Home(c: Color, k: int): (f: Field)
    requires 0 <= k < 16
    ensures f.OnBoard()
  {
    if k < 8 then Field(FirstLetter + k, PawnRank(c)) else Sq(PieceLetter(k), BackRank(c))
  }

  /** The start fields of the first `n` figures. */
  ghost function Homes(c: Color, n: int): set<Field>
    requires 0 <= n <= 16
  {
    set k | 0 <= k < n :: Home(c, k)
  }

  /** Figure `i` finds its home free once the first `i` figures stand on theirs: its home sits
      in its class's table at `s`, and every earlier entry is the home of an earlier figure. */
  lemma HomeSlot(c: Color, i: int) returns (s: nat)
    requires 0 <= i < 16
    ensures s < |StartTable(SetupOrder[i], c)| && StartTable(SetupOrder[i], c)[s] == Home(c, i)
    ensures forall j :: 0 <= j < s ==> StartTable(SetupOrder[i], c)[j] in Homes(c, i)
  {
    if i < 8 {
      s := i;
      forall j | 0 <= j < s ensures StartTable(SetupOrder[i], c)[j] in Homes(c, i) {
        assert StartTable(SetupOrder[i], c)[j] == Home(c, j);
      }
    } else if 11 <= i <= 13 {
      s := 1;
      assert StartTable(SetupOrder[i], c)[0] == Home(c, i - 3);
    } else {
      s := 0;
    }
  }

  /** No two figures of one colour share a home. */
  lemma HomeFresh(c: Color, i: int)
    requires 0 <= i < 16
    ensures Home(c, i) !in Homes(c, i)
  {
    if Home(c, i) in Homes(c, i) {
      var k :| 0 <= k < i && Home(c, k) == Home(c, i);
      assert false;
    }
  }

  /** On a board whose sixteen home fields of colour `c` are free, the first `i` figures created
      stand on their homes, and nothing else on the board changes. */
  lemma {:induction false} AddFiguresStandard(g: GameState, c: Color, i: nat)
    requires i <= 16
    requires forall k :: 0 <= k < 16 ==> Home(c, k) !in g.occupant
    ensures StandardPrefix(g, AddFigures(g, c, SetupOrder[..i]), c, i)
  {
    if i > 0 {
      AddFiguresStandard(g, c, i - 1);
      AddFiguresSnoc(g, c, SetupOrder, i - 1);
      AddFigureStandard(g, AddFigures(g, c, SetupOrder[..i - 1]), c, i - 1);
    } else {
      assert SetupOrder[..0] == [];
      assert Homes(c, 0) == {};
    }
  }

  /** After the first `i` figures of colour `c` were added to `g`, they stand on their homes. */
  ghost predicate StandardPrefix(g: GameState, h: GameState, c: Color, i: nat)
    requires i <= 16
  {
    && |h.arena| == |g.arena| + i
    && (forall k :: 0 <= k < i ==> h.arena[|g.arena| + k].position == Some(Home(c, k)))
    && HomesOccupied(g, h, c, i)
  }

  /** The fields occupied after the first `i` figures of colour `c` were added to `g`. */
  ghost predicate HomesOccupied(g: GameState, h: GameState, c: Color, i: nat)
    requires i <= 16
  {
    h.occupant.Keys == g.occupant.Keys + Homes(c, i) && |h.occupant| == |g.occupant| + i
  }

  lemma AddFigureStandard(g: GameState, h0: GameState, c: Color, i: nat)
    requires i < 16 && StandardPrefix(g, h0, c, i)
    requires forall k :: 0 <= k < 16 ==> Home(c, k) !in g.occupant
    ensures StandardPrefix(g, NewFigure(h0, SetupOrder[i], c), c, i + 1)
  {
    HomeFresh(c, i);
    NewFigureAtHome(h0, c, i);
    StandardStep(g, h0, NewFigure(h0, SetupOrder[i], c), c, i);
  }

  /** A new figure standing on its home extends the figures on their homes by one. */
  lemma StandardStep(g: GameState, h0: GameState, h: GameState, c: Color, i: nat)
    requires i < 16 && StandardPrefix(g, h0, c, i) && Home(c, i) !in h0.occupant
    requires |h.arena| == |h0.arena| + 1 && forall j :: 0 <= j < |h0.arena| ==> h.arena[j] == h0.arena[j]
    requires h.arena[|h0.arena|].position == Some(Home(c, i))
    requires h.occupant == h0.occupant[Home(c, i) := |h0.arena|]
    ensures StandardPrefix(g, h, c, i + 1)
  {
    forall k | 0 <= k < i + 1 ensures h.arena[|g.arena| + k].position == Some(Home(c, k)) {
      if k < i {
        assert h.arena[|g.arena| + k] == h0.arena[|g.arena| + k];
      }
    }
    HomesOccupiedStep(g, h0, h, c, i);
  }

  lemma HomesOccupiedStep(g: GameState, h0: GameState, h: GameState, c: Color, i: nat)
    requires i < 16 && HomesOccupied(g, h0, c, i) && Home(c, i) !in h0.occupant
    requires h.occupant == h0.occupant[Home(c, i) := |h0.arena|]
    ensures HomesOccupied(g, h, c, i + 1)
  {
    HomesSucc(c, i);
    UpdateKeys(h0.occupant, Home(c, i), |h0.arena|);
  }

  /** Figure `i` takes its home when the homes of the earlier figures are occupied and its own
      is free. */
  lemma NewFigureAtHome(h0: GameState, c: Color, i: nat)
    requires i < 16 && Homes(c, i) <= h0.occupant.Keys && Home(c, i) !in h0.occupant
    ensures NewFigure(h0, SetupOrder[i], c).arena[|h0.arena|].position == Some(Home(c, i))
    ensures NewFigure(h0, SetupOrder[i], c).occupant == h0.occupant[Home(c, i) := |h0.arena|]
  {
    var s := HomeSlot(c, i);
    FirstFreeAt(h0.occupant, StartTable(SetupOrder[i], c), s);
  }

  lemma UpdateKeys(m: Occupancy, x: Field, v: nat)
    requires x !in m
    ensures m[x := v].Keys == m.Keys + {x} && |m[x := v]| == |m| + 1
  {
  }

  lemma HomesSucc(c: Color, n: int)
    requires 0 <= n < 16
    ensures Homes(c, n + 1) == Homes(c, n) + {Home(c, n)}
  {
  }

  /** White's home fields are all on ranks 1 and 2, so black's are free of them. */
  lemma HomesApart(k: int)
    requires 0 <= k < 16
    ensures Home(Black, k) !in Homes(White, 16)
  {
  }

  /** `Player.set_up_board` on a board whose sixteen homes of colour `c` are free puts every new
      figure, unmoved, on its home and occupies exactly those fields in addition. */
  lemma SetUpStandard(g: GameState, c: Color)
    requires forall k :: 0 <= k < 16 ==> Home(c, k) !in g.occupant
    ensures forall k :: 0 <= k < 16 ==>
      SetUp(g, c).arena[|g.arena| + k] == Figure(SetupOrder[k], c, Some(Home(c, k)), false, None)
    ensures SetUp(g, c).occupant.Keys == g.occupant.Keys + Homes(c, 16)
    ensures |SetUp(g, c).occupant| == |g.occupant| + 16
  {
    assert SetupOrder[..16] == SetupOrder;
    AddFiguresStandard(g, c, 16);
    var h := SetUp(g, c);
    forall k | 0 <= k < 16
      ensures h.arena[|g.arena| + k] == Figure(SetupOrder[k], c, Some(Home(c, k)), false, None)
    {
      assert Unmoved(h.arena[|g.arena| + k], SetupOrder[k], c);
    }
  }

  /** The position of a new game: white's figures stand on their homes on ranks 1 and 2 and
      black's on ranks 7 and 8, none has moved, 32 fields are occupied, the rosters list the
      figures in creation order with the king last, and white moves first. */
  ghost predicate Opening(h: GameState)
  {
    && h.current == Some(White) && h.moveNumber == 1
    && |h.arena| == 32 && |h.occupant| == 32
    && White in h.players && h.players[White] == Player(Ids(0, 16), 15)
    && Black in h.players && h.players[Black] == Player(Ids(16, 16), 31)
    && (forall k :: 0 <= k < 16 ==>
          h.arena[k] == Figure(SetupOrder[k], White, Some(Home(White, k)), false, None))
    && (forall k :: 0 <= k < 16 ==>
          h.arena[16 + k] == Figure(SetupOrder[k], Black, Some(Home(Black, k)), false, None))
  }

  /** `Chessboard()` followed by `add_players` gives the opening position. */
  lemma {:induction false} NewGame(g: GameState)
    requires Unset(g)
    ensures Opening(WithPlayers(g)) && Consistent(WithPlayers(g))
  {
    WithPlayersConsistent(g);
    var s := SetUp(g, White);
    WhiteHalf(g, s);
    var b := SetUp(s.(current := Some(White)), Black);
    BlackHalf(s, b);
    OpeningOfHalves(s, b);
  }

  /** White's figures on their homes, as `add_players` leaves them before black sets up. */
  ghost predicate WhiteSetUp(s: GameState)
  {
    && |s.arena| == 16 && |s.occupant| == 16
    && (forall k :: 0 <= k < 16 ==> Home(Black, k) !in s.occupant)
    && White in s.players && s.players[White] == Player(Ids(0, 16), 15) && Black !in s.players
    && s.moveNumber == 1
    && forall k :: 0 <= k < 16 ==> s.arena[k] == Figure(SetupOrder[k], White, Some(Home(White, k)), false, None)
  }

  /** White's half of `add_players` on an empty board. */
  lemma WhiteHalf(g: GameState, s: GameState)
    requires Unset(g) && s == SetUp(g, White)
    ensures WhiteSetUp(s)
  {
    WhiteRoster(g, s);
    WhiteHomes(g, s);
    BlackHomesFree(g.occupant, s.occupant);
  }

  lemma WhiteRoster(g: GameState, s: GameState)
    requires Unset(g) && s == SetUp(g, White)
    ensures |s.arena| == 16 && |s.occupant| == 16 && s.moveNumber == 1
    ensures White in s.players && s.players[White] == Player(Ids(0, 16), 15) && Black !in s.players
    ensures s.occupant.Keys == g.occupant.Keys + Homes(White, 16)
  {
    SetUpStandard(g, White);
  }

  lemma WhiteHomes(g: GameState, s: GameState)
    requires Unset(g) && s == SetUp(g, White)
    ensures forall k :: 0 <= k < 16 ==> s.arena[k] == Figure(SetupOrder[k], White, Some(Home(White, k)), false, None)
  {
    SetUpStandard(g, White);
  }

  /** Black's half of `add_players`, after white's. */
  lemma BlackHalf(s: GameState, b: GameState)
    requires WhiteSetUp(s) && b == SetUp(s.(current := Some(White)), Black)
    ensures |b.arena| == 32 && |b.occupant| == 32 && b.moveNumber == 1
    ensures White in b.players && b.players[White] == s.players[White]
    ensures Black in b.players && b.players[Black] == Player(Ids(16, 16), 31)
    ensures forall i :: 0 <= i < 16 ==> b.arena[i] == s.arena[i]
    ensures forall k :: 0 <= k < 16 ==> b.arena[16 + k] == Figure(SetupOrder[k], Black, Some(Home(Black, k)), false, None)
  {
    SetUpStandard(s.(current := Some(White)), Black);
  }

  lemma OpeningOfHalves(s: GameState, b: GameState)
    requires WhiteSetUp(s)
    requires |b.arena| == 32 && |b.occupant| == 32 && b.moveNumber == 1
    requires White in b.players && b.players[White] == s.players[White]
    requires Black in b.players && b.players[Black] == Player(Ids(16, 16), 31)
    requires forall i :: 0 <= i < 16 ==> b.arena[i] == s.arena[i]
    requires forall k :: 0 <= k < 16 ==> b.arena[16 + k] == Figure(SetupOrder[k], Black, Some(Home(Black, k)), false, None)
    ensures Opening(b.(current := Some(White)))
  {
  }

  /** Once white has set up on an empty board, black's homes are still free. */
  lemma BlackHomesFree(before: Occupancy, occ: Occupancy)
    requires before == map[] && occ.Keys == before.Keys + Homes(White, 16)
    ensures forall k :: 0 <= k < 16 ==> Home(Black, k) !in occ
  {
    forall k | 0 <= k < 16 ensures Home(Black, k) !in occ {
      HomesApart(k);
    }
  }
}
