/**
 * One game session: its id, the ids of the clients that joined (the first
 * plays A, the second B), the 5x5 board it updates in place, and whose turn
 * it is. The methods are the server's move validation, move application and
 * win check, each proved against the functions of module Moves.
 */
module Games {
  import opened Wrappers
  import opened BoardModel
  import opened Moves

  type ClientId = string
  type GameId = string

  class Game {
    const id: GameId
    const board: array2<Cell>
    var clients: seq<ClientId>
    var currentPlayer: Player

    predicate Shaped() {
      board.Length0 == Size && board.Length1 == Size
    }

    /** The board is 5x5 and no piece stands on two cells. */
    ghost predicate Valid()
      reads board
    {
      Shaped() && Unique(Cells())
    }

    /** The board's contents as a value. */
    function Cells(): (b: Board)
      requires Shaped()
      reads board
      ensures WellFormed(b)
      ensures forall r, c :: 0 <= r < Size && 0 <= c < Size ==> b[r][c] == board[r, c]
    {
      seq(Size, r requires 0 <= r < Size reads board =>
        seq(Size, c requires 0 <= c < Size reads board => board[r, c]))
    }

    /** The verdict on `move` for the player whose turn it is. */
    function Judge(move: string): Verdict
      requires Shaped()
      reads this, board
    {
      Check(Cells(), currentPlayer, move)
    }

    /** A new game: the start board, no clients yet, A to move. */
    constructor(id: GameId)
      ensures Valid() && fresh(board)
      ensures this.id == id && clients == [] && currentPlayer == A
      ensures Cells() == StartBoard()
    {
      this.id := id;
      board := new Cell[Size, Size]((r, c) => StartCell(r, c));
      clients := [];
      currentPlayer := A;
      new;
      SameCells(Cells(), StartBoard());
      StartUnique();
    }

    /**
     * The row-major scan for the cell holding "<currentPlayer>-<tok>",
     * stopping at the first one.
     */
    method FindPiece(tok: string) returns (pos: Option<Pos>)
      requires Shaped()
      ensures pos == Locate(Cells(), currentPlayer, tok)
    {
      var name := PlayerName(currentPlayer) + "-" + tok;
      ghost var b := Cells();
      pos := None;
      var row := 0;
      while row < Size
        invariant 0 <= row <= Size
        invariant pos.None?
        invariant forall p :: InBounds(p) && p.row < row ==> !Holds(At(b, p), currentPlayer, tok)
      {
        var col := 0;
        while col < Size
          invariant 0 <= col <= Size
          invariant pos.None?
          invariant forall p :: InBounds(p) && Before(p, Pos(row, col)) ==> !Holds(At(b, p), currentPlayer, tok)
        {
          if board[row, col].Some? && PieceName(board[row, col].value) == name {
            pos := Some(Pos(row, col));
            LocateFirst(b, currentPlayer, tok, Pos(row, col));
            break;
          }
          col := col + 1;
        }
        if pos.Some? {
          break;
        }
        row := row + 1;
      }
    }

    /** Whether `move` is legal for the player whose turn it is. */
    method Validate(move: string) returns (legal: bool)
      requires Shaped()
      ensures legal <==> Judge(move).Accept?
    {
      var fields := SplitMove(move);
      var found := FindPiece(fields.piece);
      if found.None? {
        return false;
      }
      var from := found.value;
      var step := StepOf(fields.piece);
      var dir := ParseDir(fields.direction);
      if dir.None? {
        return false;
      }
      var to := Shift(from, dir.value, step);
      if !InBounds(to) {
        return false;
      }
      if OwnedBy(board[to.row, to.col], currentPlayer) {
        return false;
      }
      legal := KindRule(fields.piece, dir.value, from, to).Accept?;
    }

    /**
     * Carries out a move that validation accepted: empties the origin and
     * writes the mover's piece on the target, over whatever stood there.
     */
    method ApplyMove(move: string)
      requires Valid() && Judge(move).Accept?
      modifies board
      ensures Valid()
      ensures Cells() == Applied(old(Cells()), old(Judge(move)).from, old(Judge(move)).to)
    {
      ghost var before := Cells();
      ghost var v := Judge(move);
      AcceptedSteps(before, currentPlayer, move);
      var fields := SplitMove(move);
      var found := FindPiece(fields.piece);
      var from := found.value;
      var dir := ParseDir(fields.direction).value;
      var to := Shift(from, dir, StepOf(fields.piece));
      var kind := ParseKind(fields.piece).value;
      board[from.row, from.col] := None;
      board[to.row, to.col] := Some(Piece(currentPlayer, kind));
      AppliedCells(before, currentPlayer, kind, dir, from, to);
      SameCells(Cells(), Applied(before, from, to));
      AppliedUnique(before, currentPlayer, kind, dir, from, to);
    }

    /** Whether the player who is not to move has no piece left on the board. */
    method CheckWin() returns (won: bool)
      requires Shaped()
      ensures won <==> Count(Cells(), Other(currentPlayer)) == 0
    {
      var opposing := if currentPlayer == A then B else A;
      ghost var b := Cells();
      var count := 0;
      var row := 0;
      while row < Size
        invariant 0 <= row <= Size
        invariant count == Count(b[..row], opposing)
      {
        var col := 0;
        while col < Size
          invariant 0 <= col <= Size
          invariant count == Count(b[..row], opposing) + CountRow(b[row][..col], opposing)
        {
          assert b[row][..col + 1][..col] == b[row][..col];
          if OwnedBy(board[row, col], opposing) {
            count := count + 1;
          }
          col := col + 1;
        }
        assert b[row][..Size] == b[row];
        assert b[..row + 1][..row] == b[..row];
        row := row + 1;
      }
      assert b[..Size] == b;
      won := count == 0;
    }
  }
}
