/**
 * The session registry and message handling of the game server: a map from
 * client id to connection, a map from game id to game, and the handlers for
 * a new connection and for the "create", "join" and "play" requests. Every
 * message the server sends is appended to `outbox` as (recipient, message).
 * Where the server would throw (an unknown game id, a client id with no
 * connection), the handler stops there and reports a `Crashed` status; what
 * it changed and sent before that point stays.
 */
module Sessions {
  import opened Wrappers
  import opened BoardModel
  import opened Moves
  import opened Games

  /** An open connection; only its identity matters here. */
  datatype Connection = Connection(handle: nat)

  /** A game as the server serialises it into a message. */
  datatype GameView = GameView(id: GameId, clients: seq<ClientId>, state: Board, currentPlayer: Player)

  datatype Message =
    | ConnectMsg(clientId: ClientId)
    | CreateMsg(game: GameView)
    | JoinMsg(game: GameView)
    | TurnMsg(currentPlayer: Player)
    | UpdateMsg(game: GameView)
    | WinMsg(winner: Player)
    | InvalidMoveMsg

  datatype Delivery = Delivery(to: ClientId, msg: Message)

  datatype Fault = UnknownGame | UnregisteredClient
  datatype Status = Handled | Crashed(fault: Fault)

  /** The game as it is sent in a message. */
  function ViewOf(g: Game): GameView
    requires g.Shaped()
    reads g, g.board
  {
    GameView(g.id, g.clients, g.Cells(), g.currentPlayer)
  }

  /** The view carries the game's id, clients and turn, and its 5x5 board cell by cell. */
  lemma ViewOfBoard(g: Game)
    requires g.Shaped()
    ensures var v := ViewOf(g);
      && v.id == g.id && v.clients == g.clients && v.currentPlayer == g.currentPlayer
      && WellFormed(v.state)
      && forall r, c :: 0 <= r < Size && 0 <= c < Size ==> v.state[r][c] == g.board[r, c]
  {
  }

  predicate AllRegistered(ids: seq<ClientId>, registered: set<ClientId>) {
    forall i :: 0 <= i < |ids| ==> ids[i] in registered
  }

  /**
   * What sending `msg` to each of `ids` in turn delivers: one message per
   * client, in order, up to the first client with no connection, where the
   * send throws.
   */
  function Fanout(ids: seq<ClientId>, msg: Message, registered: set<ClientId>): (out: seq<Delivery>)
    ensures |out| <= |ids|
    ensures forall i {:trigger out[i]} :: 0 <= i < |out| ==> out[i] == Delivery(ids[i], msg) && ids[i] in registered
    ensures |out| < |ids| ==> ids[|out|] !in registered
    ensures |out| == |ids| <==> AllRegistered(ids, registered)
  {
    if ids == [] || ids[0] !in registered then []
    else
      var rest := Fanout(ids[1..], msg, registered);
      var out := [Delivery(ids[0], msg)] + rest;
      assert forall i :: 1 <= i < |out| ==> out[i] == rest[i - 1] && ids[i] == ids[1..][i - 1];
      out
  }

  /** The deliveries of a send to each of `ids` are determined by the three facts above. */
  lemma {:induction false} FanoutDetermined(ids: seq<ClientId>, msg: Message, registered: set<ClientId>, out: seq<Delivery>)
    requires |out| <= |ids|
    requires forall i :: 0 <= i < |out| ==> out[i] == Delivery(ids[i], msg) && ids[i] in registered
    requires |out| < |ids| ==> ids[|out|] !in registered
    ensures out == Fanout(ids, msg, registered)
  {
    if out != [] {
      assert out[0] == Delivery(ids[0], msg);
      FanoutDetermined(ids[1..], msg, registered, out[1..]);
      assert out == [out[0]] + out[1..];
    }
  }

  /** A turn notice to every client, then, if none of those sends threw, an updated game. */
  function Announce(ids: seq<ClientId>, next: Player, view: GameView, registered: set<ClientId>): seq<Delivery> {
    Fanout(ids, TurnMsg(next), registered)
    + (if AllRegistered(ids, registered) then Fanout(ids, UpdateMsg(view), registered) else [])
  }

  /**
   * When every client is connected the announcement is a turn notice to each
   * client in order, then the game to each client in the same order; when one
   * is not, only the turn notices before it go out.
   */
  lemma AnnounceOrder(ids: seq<ClientId>, next: Player, view: GameView, registered: set<ClientId>)
    ensures var out := Announce(ids, next, view, registered);
      AllRegistered(ids, registered) ==>
        && |out| == 2 * |ids|
        && (forall i :: 0 <= i < |ids| ==> out[i] == Delivery(ids[i], TurnMsg(next)))
        && (forall i :: |ids| <= i < |out| ==> out[i] == Delivery(ids[i - |ids|], UpdateMsg(view)))
    ensures var out := Announce(ids, next, view, registered);
      !AllRegistered(ids, registered) ==>
        && |out| < |ids|
        && (forall i :: 0 <= i < |out| ==> out[i] == Delivery(ids[i], TurnMsg(next)))
  {
  }

  /** The notice of an illegal move, sent to the game's first client only. */
  function InvalidNotice(ids: seq<ClientId>, registered: set<ClientId>): (out: seq<Delivery>)
    ensures out == if ids == [] then [] else Fanout(ids[..1], InvalidMoveMsg, registered)
  {
    if |ids| > 0 && ids[0] in registered then [Delivery(ids[0], InvalidMoveMsg)] else []
  }

  /** A game whose board no one wrote to is still valid. */
  twostate lemma StaysValid(h: Game)
    requires old(h.Valid()) && unchanged(h.board)
    ensures h.Valid()
  {
    assert h.Cells() == old(h.Cells());
  }

  class Server {
    var clients: map<ClientId, Connection>
    var games: map<GameId, Game>
    var outbox: seq<Delivery>

    ghost function Boards(): set<array2<Cell>>
      reads this`games
    {
      set gid | gid in games :: games[gid].board
    }

    /** Each game is stored under its own id, has a valid board, and no two games share a board. */
    ghost predicate Valid()
      reads this`games, Boards()
    {
      && (forall gid :: gid in games ==> games[gid].id == gid && games[gid].Valid())
      && (forall g1, g2 :: g1 in games && g2 in games && g1 != g2 ==> games[g1].board != games[g2].board)
    }

    constructor()
      ensures Valid()
      ensures clients == map[] && games == map[] && outbox == []
    {
      clients, games, outbox := map[], map[], [];
    }

    /** A new connection is registered under the fresh id `cid`, which is sent back to it. */
    method Connect(cid: ClientId, conn: Connection)
      requires Valid() && cid !in clients
      modifies this`clients, this`outbox
      ensures Valid()
      ensures clients == old(clients)[cid := conn] && games == old(games)
      ensures outbox == old(outbox) + [Delivery(cid, ConnectMsg(cid))]
    {
      clients := clients[cid := conn];
      outbox := outbox + [Delivery(cid, ConnectMsg(cid))];
    }

    /**
     * Sends `msg` to each of `ids` in order; `ok` is false when a client has
     * no connection, where the send throws and the remaining clients get nothing.
     */
    method Broadcast(ids: seq<ClientId>, msg: Message) returns (ok: bool)
      modifies this`outbox
      ensures ok == AllRegistered(ids, clients.Keys)
      ensures outbox == old(outbox) + Fanout(ids, msg, clients.Keys)
    {
      ghost var sent: seq<Delivery> := [];
      var i := 0;
      ok := true;
      while i < |ids|
        invariant 0 <= i <= |ids| && |sent| == i
        invariant outbox == old(outbox) + sent
        invariant forall j :: 0 <= j < i ==> sent[j] == Delivery(ids[j], msg) && ids[j] in clients
        invariant ok
      {
        if ids[i] !in clients {
          ok := false;
          break;
        }
        outbox := outbox + [Delivery(ids[i], msg)];
        sent := sent + [Delivery(ids[i], msg)];
        i := i + 1;
      }
      FanoutDetermined(ids, msg, clients.Keys, sent);
    }

    /** Tells every client of `g` whose turn it is. */
    method NotifyTurn(g: Game) returns (ok: bool)
      modifies this`outbox
      ensures ok == AllRegistered(g.clients, clients.Keys)
      ensures outbox == old(outbox) + Fanout(g.clients, TurnMsg(g.currentPlayer), clients.Keys)
    {
      ok := Broadcast(g.clients, TurnMsg(g.currentPlayer));
    }

    /** Sends every client of `g` the game as it now stands. */
    method UpdateGameState(g: Game) returns (ok: bool)
      requires g.Shaped()
      modifies this`outbox
      ensures ok == AllRegistered(g.clients, clients.Keys)
      ensures outbox == old(outbox) + Fanout(g.clients, UpdateMsg(ViewOf(g)), clients.Keys)
    {
      ok := Broadcast(g.clients, UpdateMsg(ViewOf(g)));
    }

    /**
     * "create": stores a new game under the fresh id `gid`, then answers the
     * requesting client, which throws when `cid` has no connection.
     */
    method Create(cid: ClientId, gid: GameId) returns (status: Status)
      requires Valid() && gid !in games
      modifies this`games, this`outbox
      ensures Valid()
      ensures clients == old(clients)
      ensures gid in games && games == old(games)[gid := games[gid]]
      ensures fresh(games[gid]) && fresh(games[gid].board)
      ensures var g := games[gid];
        && g.Shaped() && g.id == gid && g.clients == [] && g.currentPlayer == A
        && g.Cells() == StartBoard()
      ensures cid in clients ==>
        status == Handled && outbox == old(outbox) + [Delivery(cid, CreateMsg(ViewOf(games[gid])))]
      ensures cid !in clients ==> status == Crashed(UnregisteredClient) && outbox == old(outbox)
    {
      var g := new Game(gid);
      games := games[gid := g];
      if cid !in clients {
        return Crashed(UnregisteredClient);
      }
      outbox := outbox + [Delivery(cid, CreateMsg(ViewOf(g)))];
      status := Handled;
    }

    /**
     * "join": appends `cid` to the game's clients, whatever their number,
     * tells them all, and when the list has just reached two starts the game
     * with a turn notice and an update.
     */
    method Join(cid: ClientId, gid: GameId) returns (status: Status)
      requires Valid()
      modifies this`outbox, if gid in games then {games[gid]} else {}
      ensures Valid()
      ensures clients == old(clients) && games == old(games)
      ensures gid !in games ==> status == Crashed(UnknownGame) && outbox == old(outbox)
      ensures gid in games ==>
        var g := games[gid];
        && g.clients == old(g.clients) + [cid]
        && g.currentPlayer == old(g.currentPlayer)
        && outbox == old(outbox) + Fanout(g.clients, JoinMsg(ViewOf(g)), clients.Keys)
                     + (if AllRegistered(g.clients, clients.Keys) && |g.clients| == 2
                        then Announce(g.clients, g.currentPlayer, ViewOf(g), clients.Keys) else [])
        && status == if AllRegistered(g.clients, clients.Keys) then Handled else Crashed(UnregisteredClient)
    {
      if gid !in games {
        return Crashed(UnknownGame);
      }
      var g := games[gid];
      g.clients := g.clients + [cid];
      ghost var before := outbox;
      var ok := Broadcast(g.clients, JoinMsg(ViewOf(g)));
      ghost var joined := outbox;
      if ok && |g.clients| == 2 {
        ok := NotifyTurn(g);
        if ok {
          ok := UpdateGameState(g);
        }
        assert outbox == joined + Announce(g.clients, g.currentPlayer, ViewOf(g), clients.Keys);
      }
      status := if ok then Handled else Crashed(UnregisteredClient);
    }

    /**
     * What follows an applied move: if the player not to move has no piece
     * left, every client is told that the mover won and the turn stays;
     * otherwise the turn passes and is announced.
     */
    method FinishTurn(g: Game) returns (ok: bool)
      requires g.Shaped()
      modifies this`outbox, g`currentPlayer
      ensures ok == AllRegistered(g.clients, clients.Keys)
      ensures Count(g.Cells(), Other(old(g.currentPlayer))) == 0 ==>
        && g.currentPlayer == old(g.currentPlayer)
        && outbox == old(outbox) + Fanout(g.clients, WinMsg(g.currentPlayer), clients.Keys)
      ensures Count(g.Cells(), Other(old(g.currentPlayer))) != 0 ==>
        && g.currentPlayer == Other(old(g.currentPlayer))
        && outbox == old(outbox) + Announce(g.clients, g.currentPlayer, ViewOf(g), clients.Keys)
    {
      var won := g.CheckWin();
      if won {
        ok := Broadcast(g.clients, WinMsg(g.currentPlayer));
      } else {
        g.currentPlayer := if g.currentPlayer == A then B else A;
        ghost var before := outbox;
        ghost var turn := Fanout(g.clients, TurnMsg(g.currentPlayer), clients.Keys);
        ghost var update := Fanout(g.clients, UpdateMsg(ViewOf(g)), clients.Keys);
        ok := NotifyTurn(g);
        if ok {
          ok := UpdateGameState(g);
          assert Announce(g.clients, g.currentPlayer, ViewOf(g), clients.Keys) == turn + update;
          assert outbox == before + (turn + update);
        } else {
          assert Announce(g.clients, g.currentPlayer, ViewOf(g), clients.Keys) == turn;
        }
      }
    }

    /** The answer to an illegal move: a notice to the game's first client, which throws if it has no connection. */
    method RejectMove(g: Game) returns (status: Status)
      modifies this`outbox
      ensures outbox == old(outbox) + InvalidNotice(g.clients, clients.Keys)
      ensures status == if |g.clients| > 0 && g.clients[0] in clients then Handled else Crashed(UnregisteredClient)
    {
      if |g.clients| > 0 && g.clients[0] in clients {
        outbox := outbox + [Delivery(g.clients[0], InvalidMoveMsg)];
        status := Handled;
      } else {
        status := Crashed(UnregisteredClient);
      }
    }

    /**
     * What "play" does to game `g` and to the outbox, from the state before
     * to the state after. An illegal move changes nothing and is reported to
     * the game's first client. A legal move is applied; if the other player
     * then has no piece left the mover is announced as winner and keeps the
     * turn, otherwise the turn passes and is announced. The clients stay.
     */
    twostate predicate Played(g: Game, move: string, status: Status)
      requires g.Shaped()
      reads this, g, g.board
      ensures Played(g, move, status) ==>
        && old(outbox) <= outbox
        && status != Crashed(UnknownGame)
        && (g.currentPlayer != old(g.currentPlayer) ==> old(g.Judge(move)).Accept?)
    {
      && g.clients == old(g.clients)
      && (!old(g.Judge(move)).Accept? ==>
        && g.Cells() == old(g.Cells())
        && g.currentPlayer == old(g.currentPlayer)
        && outbox == old(outbox) + InvalidNotice(g.clients, clients.Keys)
        && status == if |g.clients| > 0 && g.clients[0] in clients then Handled else Crashed(UnregisteredClient))
      && (old(g.Judge(move)).Accept? ==>
        var v := old(g.Judge(move));
        var mover := old(g.currentPlayer);
        && g.Cells() == Applied(old(g.Cells()), v.from, v.to)
        && (Count(g.Cells(), Other(mover)) == 0 ==>
              && g.currentPlayer == mover
              && outbox == old(outbox) + Fanout(g.clients, WinMsg(mover), clients.Keys))
        && (Count(g.Cells(), Other(mover)) != 0 ==>
              && g.currentPlayer == Other(mover)
              && outbox == old(outbox) + Announce(g.clients, Other(mover), ViewOf(g), clients.Keys))
        && status == if AllRegistered(g.clients, clients.Keys) then Handled else Crashed(UnregisteredClient))
    }

    /** "play" on a game that exists; see `Played`. */
    method PlayIn(g: Game, move: string) returns (status: Status)
      requires g.Valid()
      modifies this`outbox, g`currentPlayer, g.board
      ensures g.Valid()
      ensures Played(g, move, status)
    {
      var legal := g.Validate(move);
      if legal {
        g.ApplyMove(move);
        var ok := FinishTurn(g);
        status := if ok then Handled else Crashed(UnregisteredClient);
      } else {
        status := RejectMove(g);
      }
    }

    /** "play": the game is looked up by id, which throws when there is none. */
    method Play(gid: GameId, move: string) returns (status: Status)
      requires Valid()
      modifies this`outbox, if gid in games then {games[gid]} else {}
      modifies if gid in games then {games[gid].board} else {}
      ensures Valid()
      ensures clients == old(clients) && games == old(games)
      ensures gid !in games ==> status == Crashed(UnknownGame) && outbox == old(outbox)
      ensures gid in games ==> Played(games[gid], move, status)
    {
      if gid !in games {
        return Crashed(UnknownGame);
      }
      var g := games[gid];
      status := PlayIn(g, move);
      assert unchanged(this`clients, this`games);
      forall k | k in games && k != gid ensures games[k].Valid() {
        assert games[k].board != g.board;
        StaysValid(games[k]);
      }
    }
  }
}
