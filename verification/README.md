# Hitwicket game server — a Dafny model

Hitwicket's server (`Hitwicket/server.js`) runs a two-player board game on a
5x5 grid. Player A starts on row 0 and player B on row 4, each with three
pawns (P1, P2, P3) and two heroes (H1, H2). Clients connect over a WebSocket
and ask the server to create a game, join one, or play a move written as
`"<kind>:<direction>"`, for example `"H1:F"`.

The server does three things with a move:
- It validates the move for the player whose turn it is. It scans the board
  row by row for that player's piece, steps 1 cell for a pawn and 2 for a
  hero, and refuses a target that is off the board or holds one of the
  mover's own pieces.
- It applies a legal move in place, capturing whatever stood on the target.
- It counts the opponent's pieces: none left is a win. Otherwise the turn
  passes.

The model has four files:

- `board.dfy` (modules `Wrappers`, `BoardModel`): pieces, cells and boards as
  values, the start position, piece counting, and single-cell updates.
- `moves.dfy` (module `Moves`): the move rules as functions on board values.
  - `Check` is move validation, verdict by verdict.
  - `Applied` is the effect of applying a move.
  - `Permits` is an independent, typed statement of the rule the code
    enforces.
  - Lemmas tie these together, and concrete opening moves are worked out.
- `game.dfy` (module `Games`): a game session as a class. Its board is an
  `array2` updated in place. Its methods scan, validate, apply and count with
  loops, and each method is proved against the functions of `Moves`.
- `server.dfy` (module `Sessions`): the server's registry and the handlers
  for connect, create, join and play.
  - `clients` and `games` are maps on a `Server` object.
  - Every message the server sends is appended to `outbox` as
    (recipient, message).
  - Ids that the server draws at random are passed in as parameters that
    must not already be in use.
  - A lookup that would throw in the server ends the handler with status
    `Crashed(...)`. Whatever was changed or sent before that point is kept.
    For example, a broadcast stops at the first client id that has no
    connection.

Behaviour of the code worth noting, which the model keeps:
- "F" (forward) always decreases the row, for both players. A's opening
  `P1:F` therefore leaves the board (`Moves.OpeningForwardLeavesBoard`).
- The comment at `Hitwicket/server.js:235` says H1 moves two steps
  horizontally or vertically, and the one at line 246 says H2 moves two
  steps diagonally. The checks under them only look at distance, and the
  distance is already fixed by the piece's kind. So every kind moves in all
  eight directions (`Moves.KindChecksNeverRefuse`, `Moves.CheckComplete`,
  `Moves.OpeningHero1Diagonal`, `Moves.OpeningHero2Straight`).
- A move is split on `:` and only its first two fields are kept.
  `"H1:F:F"` is judged exactly as `"H1:F"` (`Moves.ExtraFieldsIgnored`,
  `Moves.OpeningTrailingFieldsIgnored`).
- There is no terminal "won" state. After a win the turn does not pass, and
  further plays are handled as before (`Sessions.Server.Played`).
- The comment at `Hitwicket/server.js:72` speaks of starting the game once
  two players have joined, but only the turn and update messages wait for
  that. A third join is accepted and appended, moves are accepted before two
  clients have joined, and nothing checks who sent a move.

## Model

| member | source | states |
|---|---|---|
| BoardModel.StartPosition | Hitwicket/server.js:130-138 | row 0 is A-P1, A-H1, A-H2, A-P2, A-P3; rows 1-3 are empty; row 4 is B's pieces in the same order; no piece stands twice; each side has five pieces |
| BoardModel.OwnedByOwner | Hitwicket/server.js:218 | the startsWith test on a piece name holds exactly when the piece belongs to that player |
| BoardModel.PieceName | Hitwicket/server.js:302 | a piece's string is four characters: the owner's letter, a hyphen, and the kind's two-character name |
| BoardModel.PieceNameInjective | Hitwicket/server.js:176 | two pieces have the same string exactly when they are the same piece, so comparing strings compares pieces |
| BoardModel.CountRow | Hitwicket/server.js:314-318 | the count of a row never exceeds its number of cells |
| BoardModel.Count | Hitwicket/server.js:313-320 | the count of a board of at most five-cell rows never exceeds five per row; `CountZero` and `CountSetCell` state what it counts |
| BoardModel.CountZero | Hitwicket/server.js:313-322 | a player's count is zero exactly when no cell holds one of their pieces |
| BoardModel.SetCell | Hitwicket/server.js:301-302 | writing one cell sets that cell and leaves every other cell unchanged |
| BoardModel.CountSetCell | Hitwicket/server.js:313-322 | overwriting one cell changes a player's count by that cell's old and new share only |
| BoardModel.Other | Hitwicket/server.js:311 | the opposing player differs from the given one |
| Moves.FirstField | Hitwicket/server.js:168 | the piece field is a colon-free prefix of the move, ending at the first colon if there is one |
| Moves.SplitMove | Hitwicket/server.js:168 | the piece field is a colon-free prefix of the move; a direction field exists exactly when the move has a colon, and it is the colon-free text right after the first colon |
| Moves.SplitMoveFields | Hitwicket/server.js:168 | a move with no colon has no direction; "a:d" and "a:d:rest" both split into piece a and direction d |
| Moves.DirNames | Hitwicket/server.js:197-209 | a direction token is accepted exactly when it is one of the eight names L, R, F, B, FL, FR, BL, BR |
| Moves.KindNames | Hitwicket/server.js:224-255 | a kind token is recognised exactly when it is one of P1, P2, P3, H1, H2 |
| Moves.DecodeMoveText | Hitwicket/server.js:168 | writing a kind and direction as "kind:dir" and reading it back gives them back |
| Moves.StepOfKind | Hitwicket/server.js:195 | the step is 1 for the three pawns and 2 for the two heroes |
| Moves.Shift | Hitwicket/server.js:197-205 | the target is the origin plus the direction's row and column deltas times the step, with F and FL/FR going to a smaller row |
| Moves.HoldsPiece | Hitwicket/server.js:176 | a cell matches "<player>-<tok>" exactly when it holds that player's piece whose kind is named tok |
| Moves.LocateFrom | Hitwicket/server.js:172-183 | the scan from a cell onward returns the first matching cell in row-major order, or none if no later cell matches |
| Moves.Locate | Hitwicket/server.js:172-183 | the scan returns a cell holding the named piece with no matching cell before it, or none when no cell matches |
| Moves.LocateFirst | Hitwicket/server.js:172-183 | a matching cell with no match before it is what the scan returns |
| Moves.LocateUnique | Hitwicket/server.js:172-183 | when no piece stands twice, the scan finds the piece's only cell |
| Moves.Check | Hitwicket/server.js:167-259 | validation is the verdict on the move's first two fields, and an accepted move has its origin and target on the board; `CheckSound`, `CheckComplete` and `AcceptedSteps` state what an acceptance means |
| Moves.CheckFields | Hitwicket/server.js:170-221 | the verdict is "piece not found" exactly when the scan finds no piece, and an accepted move has its origin and target on the board |
| Moves.KindRule | Hitwicket/server.js:224-255 | the per-kind checks either accept the computed origin and target unchanged or refuse; they report an unknown piece exactly when the kind text is none of the five names |
| Moves.KindRuleAccepts | Hitwicket/server.js:224-255 | for each of the five kinds, the per-kind checks accept every step of that kind's length in every direction |
| Moves.KindChecksNeverRefuse | Hitwicket/server.js:224-255 | validation never fails at the pawn, H1, H2 or unknown-piece checks |
| Moves.RefusesMissingPieceOrDirection | Hitwicket/server.js:185-188 | a move is refused when the mover has no piece of the named kind, or when the direction is missing or not one of the eight |
| Moves.CheckSound | Hitwicket/server.js:167-259 | every accepted move decodes to a kind and direction, and the rule permits it: the piece is the mover's, the target is one step of the kind's length away, on the board, and not the mover's own |
| Moves.AcceptedSteps | Hitwicket/server.js:190-221 | an accepted move's origin is where the scan found the piece, and its target is the shift of the origin by the parsed direction and the kind's step |
| Moves.CheckComplete | Hitwicket/server.js:167-259 | on a board where no piece stands twice, every permitted move is accepted with exactly that origin and target |
| Moves.ExtraFieldsIgnored | Hitwicket/server.js:168 | text after a second colon never changes the verdict |
| Moves.Applied | Hitwicket/server.js:300-302 | applying a move keeps the board 5x5 |
| Moves.AppliedCells | Hitwicket/server.js:300-302 | a permitted move empties the origin, puts the mover's piece on the target, and changes no other cell |
| Moves.AppliedCounts | Hitwicket/server.js:300-302 | the mover's count is kept; the opponent's drops by one exactly when the target held an opponent piece |
| Moves.AppliedUnique | Hitwicket/server.js:300-302 | if no piece stood twice before the move, none does after it |
| Moves.WinByCapture | Hitwicket/server.js:306-323 | after a move the opponent has no piece exactly when it had none before, or had one and it stood on the target |
| Moves.StartLocate | Hitwicket/server.js:172-183 | on the start board the scan finds each piece on its home cell |
| Moves.CheckMoveText | Hitwicket/server.js:167-221 | the verdict on "kind:dir" is decided by the piece's cell, the shifted target's bounds, and the owner of the target cell |
| Moves.OpeningForwardLeavesBoard | Hitwicket/server.js:200 | A's opening "P1:F" is refused as off the board |
| Moves.OpeningBackEntersBoard | Hitwicket/server.js:201 | A's opening "P1:B" moves the pawn from (0,0) to (1,0) |
| Moves.OpeningHero1Diagonal | Hitwicket/server.js:234-244 | A's opening "H1:BR" is accepted, from (0,1) to (2,3) |
| Moves.OpeningHero2Straight | Hitwicket/server.js:245-251 | A's opening "H2:B" is accepted, from (0,2) to (2,2) |
| Moves.OpeningTrailingFieldsIgnored | Hitwicket/server.js:168 | B's opening "H1:F:" followed by anything is accepted, from (4,1) to (2,1) |
| Games.Game.Cells | Hitwicket/server.js:169 | the board value is 5x5 and agrees with the array cell by cell |
| Games.Game.constructor | Hitwicket/server.js:38-44 | a new game has the start board, no clients, A to move, and a board no piece stands on twice |
| Games.Game.FindPiece | Hitwicket/server.js:172-183 | the nested scan returns exactly the scan specification's cell |
| Games.Game.Validate | Hitwicket/server.js:167-259 | the result is true exactly when the verdict for the current player is an acceptance |
| Games.Game.ApplyMove | Hitwicket/server.js:262-303 | the board becomes the applied board of the accepted origin and target, and no piece stands twice afterwards |
| Games.Game.CheckWin | Hitwicket/server.js:306-323 | the result is true exactly when the player not to move has a count of zero |
| Sessions.ViewOfBoard | Hitwicket/server.js:143-146 | the game sent in a message carries the game's id, clients and turn, and a 5x5 board equal cell by cell to the game's board |
| Sessions.Fanout | Hitwicket/server.js:68-70 | a send to each client goes out in order, one message per client, and stops at the first client with no connection; all are served exactly when all are registered |
| Sessions.FanoutDetermined | Hitwicket/server.js:68-70 | any delivery list with those properties is the fan-out |
| Sessions.AnnounceOrder | Hitwicket/server.js:99-101 | after a second join (lines 73-76) and after a move that does not win: with every client connected, the turn notice goes to each client in order and then the game to each client in order; otherwise only the turn notices before the first unconnected client go out |
| Sessions.InvalidNotice | Hitwicket/server.js:105-110 | the illegal-move notice is a send to the game's first client alone, with nothing sent when there is no client |
| Sessions.StaysValid | Hitwicket/server.js:80-112 | a game whose board was not written keeps a board on which no piece stands twice |
| Sessions.Server.constructor | Hitwicket/server.js:14-15 | the server starts with no clients, no games and nothing sent |
| Sessions.Server.Connect | Hitwicket/server.js:116-126 | the new id is registered with its connection and is sent back to that connection only |
| Sessions.Server.Broadcast | Hitwicket/server.js:68-70 | the outbox grows by exactly the fan-out, and the result says whether every client was reached |
| Sessions.Server.NotifyTurn | Hitwicket/server.js:154-164 | every client of the game is told whose turn it is, as a fan-out |
| Sessions.Server.UpdateGameState | Hitwicket/server.js:141-151 | every client of the game is sent the game as it stands, as a fan-out |
| Sessions.Server.Create | Hitwicket/server.js:35-53 | a fresh game with the start board, no clients and A to move is stored under the new id; the requester is answered, or the handler crashes before answering when the requester has no connection |
| Sessions.Server.Join | Hitwicket/server.js:56-77 | the client is appended whatever the list's length and all clients are told; exactly when the list reaches two, a turn notice and then an update follow; an unknown game id crashes with nothing changed |
| Sessions.Server.FinishTurn | Hitwicket/server.js:88-102 | if the opponent has no piece, a win for the mover is sent and the turn stays; otherwise the turn passes to the other player and is announced |
| Sessions.Server.RejectMove | Hitwicket/server.js:103-111 | an illegal move is reported to the game's first client only |
| Sessions.Server.Played | Hitwicket/server.js:86-111 | what "play" does to a game and the outbox; in every case it only appends to the outbox, never reports an unknown game, and changes the turn only after a legal move |
| Sessions.Server.PlayIn | Hitwicket/server.js:86-111 | an illegal move leaves the board and turn alone and notifies the first client; a legal move is applied, then a win is announced without passing the turn, or the turn passes exactly once and is announced; no piece ever stands twice |
| Sessions.Server.Play | Hitwicket/server.js:80-112 | an unknown game id crashes with nothing changed; otherwise the game behaves as above, and every stored game keeps a board on which no piece stands twice |

## Left out

- Transport is not modelled. This covers the Express static route, the HTTP
  and WebSocket listeners, accepting connections and open/close logging
  (lines 1-28). A connection is an opaque value in the `clients` map.
- `JSON.parse`, `JSON.stringify` and the dispatch on the `method` field are
  not modelled. A request arrives as a call to one handler with its fields
  as typed parameters, and a sent message is a `Message` value in the
  outbox.
- `guid` draws on `Math.random`. The ids it would produce are parameters of
  `Connect` and `Create`, which require them to be unused.
- The `console.log` diagnostics are left out. The reasons `validateMove`
  logs are kept as the `Verdict` datatype.
- A thrown exception in the server ends the message handler. Here it ends
  the handler with status `Crashed(UnknownGame)` or
  `Crashed(UnregisteredClient)` and keeps earlier effects. What the Node
  process or the websocket library then does is not modelled.
- Object-key quirks of JavaScript lookups are not modelled. Examples are a
  client id such as `"constructor"` that names an inherited property, and
  the key `"undefined"` looked up for an empty client list. Any id that is
  not a key of the map counts as unregistered.
- Messages whose fields are missing or are not strings cannot be
  expressed, because parameters are typed. This covers a missing `move`, a
  non-string `gameId` and a non-string `clientId`.
- Games.Game.ApplyMove: requires an accepted move. Its only call site runs
  after validation, and the source's early return for a missing piece is
  never taken there.
- Sessions.Server.Connect: requires the new id to be unused, which is what
  `guid` is relied on to provide.
- Sessions.Server.Create: requires the new game id to be unused, for the
  same reason.
