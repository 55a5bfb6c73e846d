# KingSnake board and move executor in Dafny

KingSnake is a small Python chess engine. This project models its board-and-piece state machine
and proves properties of it:

- the 64 fields, their names and their eight neighbour lookups (`Field` in
  `king_snake/chessboard.py`);
- the ray walk `_fields_in_directions`, and the destinations of the king, the knight and the pawn
  built from it;
- the placement steps that keep fields and figures pointing at each other:
  `Field.receive_figure`, `Figure._set_start_position`, `Figure.move` and `Figure.capture`;
- setting up a game: `Chessboard.__init__`, `Chessboard.add_players` and `Player.set_up_board`;
- the turn executor `Player.move`, with its check test and rollback, and `Chessboard.end_turn`.

Layout:

- `wrappers.dfy` holds `Option`, `Result` and `Outcome`. A raised exception becomes `Err`/`Fail`
  carrying a `Game.Error` value. Those values mirror `king_snake/errors.py`, plus `KeyError` and
  `NotImplementedError`.
- `geometry.dfy` holds fields as letter code and number, `FieldAt` (the board's name→field
  dictionary) and the neighbour lookups. Each lookup builds the neighbour's name and looks it up,
  as the source does.
- `figures.dfy` holds figures, rays, destination lists, start tables and the first free start
  field.
- `game.dfy` holds the whole board state as a value (`GameState`) and every step as a function
  on it:
  - figures live in an arena; a figure's index is its identity;
  - a field's figure is `occupant[field]`;
  - a player is its colour, its roster of arena indices and its king.

  The invariant `Wellformed` says fields and figures point at each other and rosters name
  figures of their own colour. `Consistent` adds that both players exist once a side is to move.
- `setup.dfy` covers setting up a game and proves what the opening position is.
- `check_scan.dfy` compares the check test as the source writes it with the corrected one (see
  Findings).
- `board.dfy` holds the class `Chessboard`. Its fields are updated in place the way the Python
  objects are. Every method is proved to perform the step its function in `game.dfy` or
  `setup.dfy` describes: `State() == F(old(State()))`, or "error and nothing changed".

## Model

| member | source | states |
|---|---|---|
| Geometry.Field.Str | king_snake/chessboard.py:16-17 | a field's name is two characters, its letter and its number, and looking the name up in the board's dictionary gives the field back |
| Geometry.NameRoundTrip | king_snake/chessboard.py:107-109 | every key of the dictionary names an on-board field whose name is that key |
| Geometry.Field.ToRight | king_snake/chessboard.py:47-50 | the field one letter to the right, None exactly on letter H |
| Geometry.Field.ToLeft | king_snake/chessboard.py:52-55 | the field one letter to the left, None exactly on letter A |
| Geometry.Field.Above | king_snake/chessboard.py:57-60 | the field one number up, None exactly on number 8 |
| Geometry.Field.Below | king_snake/chessboard.py:62-65 | the field one number down, None exactly on number 1 |
| Geometry.Field.AboveRight | king_snake/chessboard.py:67-71 | the diagonal neighbour up and right, None exactly when either orthogonal step leaves the board |
| Geometry.Field.AboveLeft | king_snake/chessboard.py:73-77 | the diagonal neighbour up and left, None exactly when either step leaves the board |
| Geometry.Field.BelowRight | king_snake/chessboard.py:79-83 | the diagonal neighbour down and right, None exactly when either step leaves the board |
| Geometry.Field.BelowLeft | king_snake/chessboard.py:85-89 | the diagonal neighbour down and left, None exactly when either step leaves the board |
| Geometry.Field.Go | king_snake/figures/figure.py:85 | looking a direction up by name gives the field one step along it, or None off the board |
| Geometry.StepsInvert | king_snake/chessboard.py:47-65 | a step right and then left returns to the start, and so do left-right, up-down and down-up |
| Figures.RayShape | king_snake/figures/figure.py:83-92 | a ray holds at most `perimeter` fields; its i-th field is i+1 steps out and on the board; all fields before the last are empty; a ray ends early only just after an occupied field or at the board edge |
| Figures.RayMembership | king_snake/figures/figure.py:84-92 | the field k steps out (k ≤ perimeter) is in the ray iff it is on the board and every field before it is empty |
| Figures.FieldsInDirectionsMembership | king_snake/figures/figure.py:82-93 | a field is in the result iff it is in the ray of one of the given directions |
| Figures.FieldsInDirectionsLength | king_snake/figures/figure.py:82-93 | the result holds at most `perimeter` fields per direction |
| Figures.RayOfOne | king_snake/figures/figure.py:85-88 | with perimeter 1 a ray is the neighbour in that direction, occupied or not, if it is on the board |
| Figures.JumpOfKnightStep | king_snake/figures/knight.py:23-27 | each of the two-step jumps lands on the field at its (±1,±2) or (±2,±1) offset, and on nothing when that field is off the board |
| Figures.JumpsMembership | king_snake/figures/knight.py:21-28 | a field is a knight destination iff one of the step pairs lands on it |
| Figures.JumpsLength | king_snake/figures/knight.py:21-28 | there is at most one destination per step pair |
| Figures.JumpsDistinct | king_snake/figures/knight.py:17-22 | step pairs with distinct offsets give a list without duplicates |
| Figures.KnightStepTo | king_snake/figures/knight.py:17-20 | every knight offset is reached by one of the eight step pairs |
| Figures.KnightMovesExact | king_snake/figures/knight.py:13-28 | the knight's destinations are exactly the on-board fields at a knight offset; occupancy plays no part |
| Figures.KnightMovesDistinct | king_snake/figures/knight.py:13-28 | the knight has at most 8 destinations and none twice |
| Figures.KingMovesExact | king_snake/figures/king.py:17-23 | the king's destinations are exactly the on-board fields adjacent to it, occupied or not; no field two letters away, so no castling |
| Figures.KingMovesCount | king_snake/figures/king.py:17-23 | the king has at most 8 destinations and never its own field |
| Figures.PawnMovesExact | king_snake/figures/pawn.py:18-20 | a pawn's destination, for either colour, is the field above it, occupied or not; there is none on number 8 |
| Figures.Ray | king_snake/figures/figure.py:83-92 | the fields one direction contributes; `Figures.RayShape` and `Figures.RayMembership` state its bound, order and stopping rules |
| Figures.FieldsInDirections | king_snake/figures/figure.py:68-93 | the rays of the given directions in order; `Figures.FieldsInDirectionsMembership` and `Figures.FieldsInDirectionsLength` state its contents and size |
| Figures.KnightMoves | king_snake/figures/knight.py:13-28 | the jumps of the eight step pairs; `Figures.KnightMovesExact` and `Figures.KnightMovesDistinct` state which fields they are |
| Figures.KingMoves | king_snake/figures/king.py:17-23 | the eight directions at perimeter 1; `Figures.KingMovesExact` and `Figures.KingMovesCount` state which fields they are |
| Figures.PawnMoves | king_snake/figures/pawn.py:18-20 | the direction `above` at perimeter 1; `Figures.PawnMovesExact` states which field it is |
| Figures.LegalMoves | king_snake/figures/figure.py:95-102 | dispatches on the kind: the base property's NotImplementedError (`Unsupported`) for rook, bishop and queen, the knight's, king's and pawn's own destinations otherwise; `Figures.LegalMovesCases` states its cases |
| Figures.LegalMovesCases | king_snake/figures/figure.py:95-102 | NotImplementedError (`Unsupported`) exactly for rook, bishop and queen, which inherit the base property; a figure without a field has no destinations |
| Figures.StartTable | king_snake/figures/figure.py:59 | every field of a start table is on the board |
| Figures.FirstFree | king_snake/figures/figure.py:52-66 | a start field that is found is a free field of the table |
| Figures.FirstFreeAt | king_snake/figures/figure.py:59-66 | the field found is the first free one in table order |
| Figures.FirstFreeNone | king_snake/figures/figure.py:59-66 | no field is found iff every field of the table is taken |
| Game.Receive | king_snake/chessboard.py:31-45 | an occupied field (the figure's own included) refuses with FieldOccupiedError; otherwise the field holds the figure, the figure holds the field, its former field is empty, nothing else changes, and the board stays consistent |
| Game.Relocate | king_snake/figures/figure.py:104-114 | NotImplementedError iff the figure has no movement rules; IllegalMoveError iff the field is not among its legal moves; FieldOccupiedError iff it is legal but occupied; it succeeds iff the field is legal and empty, and then the figure is relocated there and the board stays consistent |
| Game.ClearFacts | king_snake/figures/figure.py:124-127 | removing the captured figure keeps the board consistent, empties its field and frees one field |
| Game.CaptureFacts | king_snake/figures/figure.py:124-131 | after the victim is removed its field is free, so receiving the capturer succeeds; the victim has no field, the capturer is relocated, the board stays consistent and one field fewer is occupied when the capturer came from a field |
| Game.Capture | king_snake/figures/figure.py:116-131 | IllegalCaptureError iff the occupant has the capturer's colour; otherwise the occupant is returned, loses its field, and the capturer takes that field and leaves its own |
| Game.Attempt | king_snake/player.py:84-90 | NotImplementedError iff the figure has no movement rules; IllegalMoveError iff the field is not among its legal moves; IllegalCaptureError iff the field is legal and held by a figure of the mover's colour; it succeeds iff the field is legal and empty or held by the opponent. To an empty field it relocates the figure and captures nothing, to an occupied field it captures the opponent's figure; the number of occupied fields changes accordingly and the players and the side to move stay |
| Game.AttemptKeepsRoles | king_snake/player.py:84-90 | moving or capturing changes no figure's kind or colour and no roster |
| Game.Opponent | king_snake/player.py:36-42 | the opponent of a colour is the other colour |
| Game.OpponentInvolutive | king_snake/player.py:36-42 | the opponent's opponent is the player itself |
| Game.EndTurn | king_snake/chessboard.py:118-123 | white passes the turn to black and black (or nobody) to white; nothing else changes |
| Game.EndTurnTwice | king_snake/chessboard.py:118-123 | two ends of turn restore the side to move |
| Game.CommitConsistent | king_snake/player.py:96-100 | recording the move on the figures and passing the turn keeps the board consistent |
| Game.CommitFacts | king_snake/player.py:96-100 | recording the move sets `already_moved` and `last_moved` on the mover and `last_moved` on the captured figure, advances the move counter, and changes no field, no roster and no figure's kind, colour or position |
| Game.RecordWellformed | king_snake/player.py:96-99 | marking the figures keeps the board well formed |
| Game.CommitKeepsCheck | king_snake/player.py:92-100 | recording the move changes nobody's check status, so the check test before it is the check test of the result |
| Game.ThreatenedSameFigures | king_snake/chessboard.py:91-95 | whether a field is threatened depends only on kinds, colours, positions and rosters, not on the move flags |
| Game.PlayerMove | king_snake/player.py:58-100 | a completed move leaves a consistent board |
| Game.PlayerMoveTurn | king_snake/player.py:72-74 | TurnError iff it is not the player's turn; a completed move used two valid field names, passes the turn to the opponent, advances the move counter and keeps the players |
| Game.NoTwoMovesInARow | king_snake/player.py:73-74 | after a completed move the same player's next move fails with TurnError |
| Game.PlayerMoveSteps | king_snake/player.py:76-100 | a completed move starts from the player's own figure on the start field, is a successful move or capture, leaves the player's king out of check and is then committed |
| Game.PlayerMoveOwned | king_snake/player.py:72-83 | once it is the player's turn, both names are valid and the start field holds the player's own figure, the outcome is decided by the move itself, the check test and the commit alone |
| Game.MoveOwned | king_snake/player.py:84-100 | a failed move or capture fails with its own error; a successful one fails with IllegalMoveError iff the player's king is then in check; the move completes iff the move or capture succeeds and the king is then not in check, and leaves a consistent board; no other error arises |
| Game.PlayerMoveMoves | king_snake/player.py:79-99 | a completed move moved the player's own figure to one of its legal fields, left the start field empty, set `already_moved` and `last_moved` on it and left the player's king out of check |
| Game.PlayerMoveCaptures | king_snake/player.py:84-99 | a move onto an occupied field captured an opponent's figure: it has no field, records the move number and one field fewer is occupied; a move onto an empty field keeps the number of occupied fields |
| Game.PlayerMoveErrors | king_snake/player.py:72-82 | on the player's turn, KeyError iff one of the two names is not a field; a start field that does not hold one of the player's own figures fails with IllegalMoveError |
| Game.SafeMoveCompletes | king_snake/player.py:84-100 | when the player's own figure moves or captures successfully and the king is then not in check, the move completes with the committed state, which is consistent |
| Game.Place | king_snake/chessboard.py:39-43 | the placement onto an empty field; `Game.PlaceRelocates` and `Game.PlaceFacts` state that the field takes the figure, the figure takes the field, its former field is freed and nothing else changes |
| Game.Clear | king_snake/figures/figure.py:125-127 | the captured figure loses its field and the field is emptied; `Game.ClearFacts` states that the board stays consistent and one field fewer is occupied |
| Game.Record | king_snake/player.py:96-99 | marks the mover moved at the current move number and stamps the captured figure; `Game.CommitFacts` and `Game.RecordWellformed` state what it changes and that the board stays well formed |
| Game.Commit | king_snake/player.py:96-100 | the record followed by the end of turn; `Game.CommitFacts`, `Game.CommitConsistent` and `Game.CommitKeepsCheck` state its effect |
| Game.Mover | king_snake/player.py:79-82 | the figure on the start field if the player's roster holds it, and nothing otherwise; `Game.PlayerMoveErrors` states that nothing means IllegalMoveError |
| Game.Threatened | king_snake/chessboard.py:91-95 | some figure of the player's roster has the field among its legal moves; `Board.Chessboard.ThreatenedBy` computes it with the roster loop and `Game.ThreatenedSameFigures` states what it depends on |
| Game.KingInCheck | king_snake/figures/king.py:25-30 | the king stands on a field threatened by the opponent, and a captured king is not in check; `Board.Chessboard.InCheck` computes it and `CheckScan.InCheckAsWritten` compares it with the test as written |
| Setup.PlaceAtStart | king_snake/figures/figure.py:52-66 | the figure takes the first free field of its start table, or stays off the board with nothing changed; the board stays well formed |
| Setup.NewFigure | king_snake/figures/figure.py:26-50 | a new figure of the player's colour, not moved and with no last move, standing on the first free field of its table |
| Setup.NewFigureWellformed | king_snake/figures/figure.py:26-50 | creating a figure keeps the board well formed |
| Setup.AddFigures | king_snake/player.py:51-56 | the figures are created in the given order with the player's colour, unmoved; earlier figures and occupied fields stay |
| Setup.AddFiguresSnoc | king_snake/player.py:51-56 | creating one more figure extends the figures created so far |
| Setup.AddFiguresWellformed | king_snake/player.py:51-56 | creating any sequence of figures keeps the board well formed |
| Setup.SetUp | king_snake/player.py:44-56 | sixteen unmoved figures of the player's colour in the order 8 pawns, rook, knight, bishop, rook, knight, bishop, queen, king; the roster lists them in that order and the king is its last entry; other players are untouched |
| Setup.SetUpWellformed | king_snake/player.py:44-56 | setting up a player keeps the board well formed |
| Setup.AddFiguresStandard | king_snake/figures/figure.py:59-66 | on a board where a player's home fields are free, the k-th figure created takes its home field: the k-th pawn the k-th field of its rank |
| Setup.SetUpStandard | king_snake/player.py:44-56 | on such a board every one of the sixteen figures stands on its home field and exactly those sixteen fields become occupied |
| Setup.WithPlayers | king_snake/chessboard.py:111-116 | after adding the players both colours are present and white is to move |
| Setup.WithPlayersConsistent | king_snake/chessboard.py:111-116 | adding the players to a well-formed board gives a consistent one |
| Setup.NewGame | king_snake/chessboard.py:111-116 | a new game holds 32 unmoved figures on 32 distinct fields, pawns on ranks 2 and 7, pieces on their back-rank fields, kings on E1 and E8, white to move |
| Setup.WhiteHalf | king_snake/chessboard.py:113-115 | after white sets up on an empty board its sixteen figures stand on their homes, its roster lists them with the king last, and black's homes are still free |
| Setup.BlackHalf | king_snake/chessboard.py:113-116 | black then sets up on its own homes; the board holds 32 figures on 32 fields and white's figures and roster are untouched |
| CheckScan.ScanAsWritten | king_snake/figures/king.py:25-30 | the scan as written answers "threatened" only when some figure of the roster threatens the king's field, and fails only with NotImplementedError |
| CheckScan.ScanClear | king_snake/figures/king.py:28-30 | when the scan as written answers "not threatened", every figure of the roster has movement rules and none threatens the field |
| CheckScan.ScanNeverClears | king_snake/figures/king.py:28-30 | a roster holding a rook, bishop or queen never lets the scan as written answer "not threatened" |
| CheckScan.AsWrittenNeverMoves | king_snake/player.py:92-94 | with the check test as written, no move completes while the opponent's roster holds a rook, bishop or queen |
| CheckScan.NewGameAsWritten | king_snake/player.py:92-94 | with the check test as written, white's first move in a new game fails whatever the fields |
| CheckScan.OpeningAsWritten | king_snake/player.py:92-94 | the same for any board in the opening position |
| CheckScan.BlackHomeSafe | king_snake/figures/king.py:25-30 | no black figure on its home field threatens E1 |
| CheckScan.OpeningMove | king_snake/player.py:58-100 | with the corrected check test, white's move E2-E3 in a new game completes |
| CheckScan.OpeningMoveFrom | king_snake/player.py:58-100 | the same for any board in the opening position |
| CheckScan.OpeningFacts | king_snake/chessboard.py:111-116 | in the opening position white moves, white's fifth figure is the unmoved pawn on E2, white's king is on E1, E3 is free and black's figures stand on their homes |
| CheckScan.OpeningPawnMove | king_snake/figures/figure.py:104-114 | in such a position the pawn on E2 moves to E3 without capturing, and afterwards white's king is not in check |
| CheckScan.OpeningNoCheck | king_snake/figures/king.py:25-30 | with black's figures on their homes, white's king on E1 is not in check under the corrected test |
| CheckScan.PawnMoveCompletes | king_snake/player.py:58-100 | in such a position white's move "E2" to "E3" completes |
| CheckScan.AsWrittenSteps | king_snake/player.py:84-94 | a move that completes under the check test as written left the rosters and the figures' kinds and colours alone, and the scan as written answered "not threatened" over the opponent's whole roster |
| CheckScan.InCheckAsWritten | king_snake/figures/king.py:25-30 | the check test as written: an answer it gives is the corrected `Game.KingInCheck`, and it fails only with NotImplementedError |
| CheckScan.MoveOwnedAsWritten | king_snake/player.py:84-100 | the move of the player's own figure with the check test as written: a completed move is the corrected one; an error other than NotImplementedError is the corrected move's error and leaves the state as it was; NotImplementedError from the check test carries the board with the move applied, as it is left when the error escapes before the rollback |
| CheckScan.PlayerMoveAsWritten | king_snake/player.py:58-100 | `Player.move` with the check test as written: a completed move is the corrected move's result; an error other than NotImplementedError is the corrected move's error and leaves the state as it was; every state it leaves is consistent |
| CheckScan.AsWrittenOwned | king_snake/player.py:72-83 | once it is the player's turn, both names are valid and the start field holds the player's own figure, the outcome is that of the move of that figure |
| CheckScan.RookBlocksScan | king_snake/figures/king.py:28-29 | with black's figures on their homes and white's king not in check, the check test as written raises NotImplementedError at black's rook |
| CheckScan.PawnStranded | king_snake/player.py:84-94 | in the opening position white's "E2" to "E3" with the check test as written fails with NotImplementedError, leaving the pawn on E3, E2 empty and white still to move |
| CheckScan.OpeningPawnStrandedAsWritten | king_snake/player.py:84-94 | the same for every consistent board in the opening position: the error escapes with the move applied and not rolled back |
| Board.Chessboard.constructor | king_snake/chessboard.py:102-109 | exactly 64 fields, each under its own name, no figure, no player and nobody to move |
| Board.NameFields | king_snake/chessboard.py:105-109 | the two nested loops create 64 fields, each under its own name, and every on-board field under its name |
| Board.NamedLookup | king_snake/player.py:76-77 | a name is a key of the board's dictionary iff it names a field, and the lookup gives that field |
| Board.Chessboard.ReceiveFigure | king_snake/chessboard.py:31-45 | performs `Game.Receive` in place: the same result, and on failure nothing changes |
| Board.Chessboard.SetStartPosition | king_snake/figures/figure.py:52-66 | the loop over the start table performs `Setup.PlaceAtStart` |
| Board.Chessboard.TakeFirstFree | king_snake/figures/figure.py:59-66 | the loop over the table places the figure on the first free field, or changes nothing when every field is taken |
| Board.Chessboard.TryStart | king_snake/figures/figure.py:60-66 | a figure without a field is placed on a free field; an occupied field or a placed figure leaves everything as it was |
| Board.Chessboard.AddFigure | king_snake/figures/figure.py:26-50 | performs `Setup.NewFigure` in place |
| Board.Chessboard.SetUpBoard | king_snake/player.py:44-56 | the loop over the sixteen kinds performs `Setup.SetUp` in place |
| Board.Chessboard.AddFigureList | king_snake/player.py:51-56 | creating the figures one after the other performs `Setup.AddFigures` |
| Board.SetUpEnrols | king_snake/player.py:44-56 | setting up a player is creating its figures and then enrolling the roster, and keeps the board well formed |
| Board.Chessboard.AddPlayers | king_snake/chessboard.py:111-116 | the loop over the two colours performs `Setup.WithPlayers` and leaves a consistent board |
| Board.Chessboard.EndTurn | king_snake/chessboard.py:118-123 | performs `Game.EndTurn` in place |
| Board.Chessboard.ThreatenedBy | king_snake/chessboard.py:91-95 | the loop over the roster answers true iff some figure of the player has the field among its legal moves |
| Board.Chessboard.InCheck | king_snake/figures/king.py:25-30 | answers true iff the player's king stands on a field some opposing figure can move to |
| Board.Chessboard.MoveFigure | king_snake/figures/figure.py:104-114 | performs `Game.Relocate` in place: the same error, and on error nothing changes |
| Board.Chessboard.Capture | king_snake/figures/figure.py:116-131 | performs `Game.Capture` in place and returns the captured figure |
| Board.Chessboard.StartMove | king_snake/player.py:72 | the snapshot is the whole board state |
| Board.Chessboard.Rollback | king_snake/player.py:92-94 | restores the snapshot exactly |
| Board.Chessboard.MoveOrCapture | king_snake/player.py:84-90 | performs `Game.Attempt` in place; on error nothing changes |
| Board.Chessboard.MoveOwned | king_snake/player.py:84-100 | performs `Game.MoveOwned` in place: a completed move gives its state, and every error, the rolled-back check case included, leaves the board as it was |
| Board.Chessboard.FinishMove | king_snake/player.py:96-100 | performs `Game.Commit` in place and keeps the board well formed |
| Board.Chessboard.RecordMove | king_snake/player.py:96-99 | performs `Game.Record` in place and keeps the board well formed |
| Board.Chessboard.PlayerMove | king_snake/player.py:58-100 | performs `Game.PlayerMove` in place: a completed move gives its state; any error leaves the board exactly as it was, the rolled-back check case included |

## Left out

- `Chessboard.start_move`, `Chessboard.rollback` and `Chessboard.current_move` are called by
  `Player.move` (king_snake/player.py:72, 93, 97) but defined nowhere. They are modelled as a
  snapshot, its restoration and a move counter that starts at 1 and advances with each completed
  move.
- `Pawn.legal_moves` is a plain method, not a property (king_snake/figures/pawn.py:18). Taken
  literally, `Figure.move` and `Field.threatened_by` would fail with a type error on every pawn.
  The model reads it as the property the other figures define.
- `King.in_check` names `self.player.other_player`, which `Player` does not define, and calls
  `legal_moves()`. The model reads these as `Player.opponent` and the `legal_moves` property. What
  remains is a real finding (below).
- `Figure.capture` returns a dictionary, yet `Player.move` sets `last_moved` on it
  (king_snake/player.py:98-99). The model returns the captured figure and stamps the figure, as
  evidently intended.
- Rook, Bishop and Queen define no `legal_moves`. Asking them raises NotImplementedError. The
  model keeps that error in `Figure.move` (`Game.Relocate`, `Game.Attempt`) and in the check
  test as written (`CheckScan.ScanAsWritten`), but not in `Game.Threatened` (see below). No
  sliding moves are invented.
- Board.Chessboard.ThreatenedBy and Game.Threatened answer "not threatened" for a rook, bishop or
  queen and go on with the roster. `Field.threatened_by` (king_snake/chessboard.py:93-95) raises
  NotImplementedError at the first such figure before a hit; nothing in the source calls it.
- Figures.LegalMoves and CheckScan.ScanAsWritten give a captured pawn, knight or king no
  destinations. In the source such a figure has no field, so its `legal_moves` raises
  AttributeError on `getattr(None, direction)` (king_snake/figures/figure.py:85,
  king_snake/figures/knight.py:23). A captured figure stays in its owner's roster, so in the
  source a later check test over that roster would raise instead of answering.
- Castling (`King.castle`), promotion (`Pawn.become_queen`) and en passant are empty or absent in
  the source. `FieldMustBeCastledError` and `PawnMustCaptureError` are never raised, so the
  `castle` branch of `Player.move` cannot be reached and is not modelled.
- `Pawn.already_captured` is kept as the flag of the pawn kind; nothing reads it.
- The optional `position` argument of `Figure.__init__` is never passed by the code that creates
  figures, so only the start-table placement is modelled.
- Fields are values, not objects, and a player is its colour. Their back references to the board
  (`Field.chessboard`, `Player.chessboard`, `Figure.player`) are implied by the single board
  state.
- Knight destinations come in the order the step pairs are listed. The source walks a dictionary
  whose iteration order depends on the Python version. The set of destinations, and their number,
  are the same either way.
- `__repr__` and `__str__` of `Player` and `Figure` (text rendering), the console program in
  `bin/`, `setup.py` and the unused `king_snake/exceptions.py` are not part of this model.

## Findings

| source | as written | input that shows it | evidently intended | confidence | as-written member | corrected member |
|---|---|---|---|---|---|---|
| king_snake/figures/king.py:28-29 | `in_check` asks every opposing figure for its legal moves, in roster order. A rook, bishop or queen raises NotImplementedError there. Black's roster holds a rook at index 8, and no pawn can threaten E1, so the scan raises before it can answer "not in check". `Player.move` propagates the error after the move is applied and before any rollback, so the board keeps the pawn on E3 with white still to move (`CheckScan.OpeningPawnStrandedAsWritten`). | a new game, white plays any move, e.g. "E2" to "E3" | figures without movement rules threaten nothing, so E2-E3 completes and passes the turn to black | not executed | CheckScan.NewGameAsWritten | CheckScan.OpeningMove |
