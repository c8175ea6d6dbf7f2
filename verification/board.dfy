/** The optional value used for board cells and look-ups. */
module Wrappers {
  datatype Option<+T> = None | Some(value: T)
}

/**
 * The board model of the game server: two players, five piece kinds each,
 * a 5x5 grid whose cells are empty or hold one piece. Pieces travel on the
 * wire (and are compared by the server) as strings "<owner>-<kind>"; here a
 * piece is a typed value and `PieceName` gives its string.
 */
module BoardModel {
  import opened Wrappers

  /** Number of rows and of columns. */
  const Size := 5

  datatype Player = A | B
  datatype Kind = P1 | P2 | P3 | H1 | H2
  datatype Piece = Piece(owner: Player, kind: Kind)
  datatype Pos = Pos(row: int, col: int)

  type Cell = Option<Piece>
  type Board = seq<seq<Cell>>

  /** The player who is not `p`. */
  function Other(p: Player): (q: Player)
    ensures q != p
  {
    if p == A then B else A
  }

  function PlayerName(p: Player): string {
    if p == A then "A" else "B"
  }

  function KindName(k: Kind): string {
    match k
    case P1 => "P1"
    case P2 => "P2"
    case P3 => "P3"
    case H1 => "H1"
    case H2 => "H2"
  }

  /**
   * The string the server stores in a cell for piece `p`: the owner's
   * letter, a hyphen, then the kind's two-character name.
   */
  function PieceName(p: Piece): (s: string)
    ensures |s| == 4 && s[1] == '-'
    ensures PlayerName(p.owner) <= s && s[2..] == KindName(p.kind)
  {
    PlayerName(p.owner) + "-" + KindName(p.kind)
  }

  /** Distinct pieces are stored under distinct strings. */
  lemma PieceNameInjective(p: Piece, q: Piece)
    ensures PieceName(p) == PieceName(q) <==> p == q
  {
    if PieceName(p) == PieceName(q) {
      assert PieceName(p)[0] == PieceName(q)[0];
      assert PieceName(p)[2..] == PieceName(q)[2..];
    }
  }

  predicate IsPawn(k: Kind) {
    k == P1 || k == P2 || k == P3
  }

  predicate WellFormed(b: Board) {
    |b| == Size && forall r :: 0 <= r < Size ==> |b[r]| == Size
  }

  predicate InBounds(p: Pos) {
    0 <= p.row < Size && 0 <= p.col < Size
  }

  function At(b: Board, p: Pos): Cell
    requires WellFormed(b) && InBounds(p)
  {
    b[p.row][p.col]
  }

  /**
   * A cell belongs to `pl` when it holds a piece whose name starts with the
   * player's name (the test the server uses for own-piece blocking and for
   * counting the opponent's pieces).
   */
  predicate OwnedBy(c: Cell, pl: Player) {
    c.Some? && PlayerName(pl) <= PieceName(c.value)
  }

  lemma OwnedByOwner(c: Cell, pl: Player)
    ensures OwnedBy(c, pl) <==> c.Some? && c.value.owner == pl
  {
    if c.Some? && PlayerName(pl) <= PieceName(c.value) {
      assert PlayerName(pl)[0] == PieceName(c.value)[0];
    }
  }

  /** No piece stands on two cells. */
  ghost predicate Unique(b: Board)
    requires WellFormed(b)
  {
    forall p, q :: InBounds(p) && InBounds(q) && At(b, p).Some? && At(b, p) == At(b, q) ==> p == q
  }

  // ---------------------------------------------------------------------
  // The start position

  /** Home-rank order, left to right: P1, H1, H2, P2, P3. */
  function HomeKind(col: int): Kind {
    if col == 0 then P1
    else if col == 1 then H1
    else if col == 2 then H2
    else if col == 3 then P2
    else P3
  }

  function StartCell(row: int, col: int): Cell {
    if row == 0 then Some(Piece(A, HomeKind(col)))
    else if row == Size - 1 then Some(Piece(B, HomeKind(col)))
    else None
  }

  /** The start layout, cell by cell; its rows are spelled out in `StartPosition`. */
  function StartBoard(): (b: Board)
    ensures WellFormed(b)
    ensures forall r, c :: 0 <= r < Size && 0 <= c < Size ==> b[r][c] == StartCell(r, c)
  {
    seq(Size, r => seq(Size, c => StartCell(r, c)))
  }

  // ---------------------------------------------------------------------
  // Counting pieces, row by row and cell by cell as the win check does

  function Ind(c: Cell, pl: Player): nat {
    if OwnedBy(c, pl) then 1 else 0
  }

  /** The number of cells of `row` holding a piece of `pl`: at most one per cell. */
  function CountRow(row: seq<Cell>, pl: Player): (n: nat)
    ensures n <= |row|
  {
    if row == [] then 0 else CountRow(row[..|row| - 1], pl) + Ind(row[|row| - 1], pl)
  }

  /** The number of cells of `b` holding a piece of `pl`, summed row by row. */
  function Count(b: Board, pl: Player): (n: nat)
    ensures (forall r :: 0 <= r < |b| ==> |b[r]| <= Size) ==> n <= |b| * Size
  {
    if b == [] then 0 else Count(b[..|b| - 1], pl) + CountRow(b[|b| - 1], pl)
  }

  lemma {:induction false} CountRowZero(row: seq<Cell>, pl: Player)
    ensures CountRow(row, pl) == 0 <==> forall c :: 0 <= c < |row| ==> !OwnedBy(row[c], pl)
  {
    if row != [] {
      var init := row[..|row| - 1];
      CountRowZero(init, pl);
      assert forall c :: 0 <= c < |init| ==> init[c] == row[c];
    }
  }

  /** A player has no piece left exactly when no cell belongs to them. */
  lemma {:induction false} CountZero(b: Board, pl: Player)
    ensures Count(b, pl) == 0 <==>
            forall r, c :: 0 <= r < |b| && 0 <= c < |b[r]| ==> !OwnedBy(b[r][c], pl)
  {
    if b != [] {
      var init := b[..|b| - 1];
      CountZero(init, pl);
      CountRowZero(b[|b| - 1], pl);
      assert forall r :: 0 <= r < |init| ==> init[r] == b[r];
    }
  }

  /** Writing `x` into one cell of a row changes its count by the two cells' shares. */
  lemma {:induction false} CountRowUpdate(row: seq<Cell>, c: nat, x: Cell, pl: Player)
    requires c < |row|
    ensures CountRow(row[c := x], pl) == CountRow(row, pl) - Ind(row[c], pl) + Ind(x, pl)
  {
    var n := |row|;
    var row' := row[c := x];
    assert CountRow(row', pl) == CountRow(row'[..n - 1], pl) + Ind(row'[n - 1], pl);
    assert CountRow(row, pl) == CountRow(row[..n - 1], pl) + Ind(row[n - 1], pl);
    if c == n - 1 {
      assert row'[..n - 1] == row[..n - 1];
    } else {
      assert row'[..n - 1] == row[..n - 1][c := x];
      assert row'[n - 1] == row[n - 1];
      CountRowUpdate(row[..n - 1], c, x, pl);
    }
  }

  lemma {:induction false} CountRowsUpdate(b: Board, r: nat, row: seq<Cell>, pl: Player)
    requires r < |b|
    ensures Count(b[r := row], pl) == Count(b, pl) - CountRow(b[r], pl) + CountRow(row, pl)
  {
    var n := |b|;
    var b' := b[r := row];
    if r == n - 1 {
      assert b'[..n - 1] == b[..n - 1];
    } else {
      assert b'[..n - 1] == b[..n - 1][r := row];
      CountRowsUpdate(b[..n - 1], r, row, pl);
    }
  }

  /** Two boards with the same cells are the same board. */
  lemma SameCells(b1: Board, b2: Board)
    requires WellFormed(b1) && WellFormed(b2)
    requires forall p :: InBounds(p) ==> At(b1, p) == At(b2, p)
    ensures b1 == b2
  {
    forall r | 0 <= r < Size ensures b1[r] == b2[r] {
      forall c | 0 <= c < Size ensures b1[r][c] == b2[r][c] {
        assert At(b1, Pos(r, c)) == At(b2, Pos(r, c));
      }
    }
  }

  /** The board with cell `p` replaced by `x`. */
  function SetCell(b: Board, p: Pos, x: Cell): (b': Board)
    requires WellFormed(b) && InBounds(p)
    ensures WellFormed(b')
    ensures At(b', p) == x
    ensures forall q :: InBounds(q) && q != p ==> At(b', q) == At(b, q)
  {
    b[p.row := b[p.row][p.col := x]]
  }

  /** Replacing one cell changes a player's count by that cell's old and new share. */
  lemma CountSetCell(b: Board, p: Pos, x: Cell, pl: Player)
    requires WellFormed(b) && InBounds(p)
    ensures Count(SetCell(b, p, x), pl) == Count(b, pl) - Ind(At(b, p), pl) + Ind(x, pl)
  {
    CountRowUpdate(b[p.row], p.col, x, pl);
    CountRowsUpdate(b, p.row, b[p.row][p.col := x], pl);
  }

  lemma {:induction false} CountRowFull(row: seq<Cell>, pl: Player)
    requires forall c :: 0 <= c < |row| ==> OwnedBy(row[c], pl)
    ensures CountRow(row, pl) == |row|
  {
    if row != [] {
      CountRowFull(row[..|row| - 1], pl);
    }
  }

  lemma StartUnique()
    ensures Unique(StartBoard())
  {
  }

  /** Each player starts with five pieces. */
  lemma StartCounts(pl: Player)
    ensures Count(StartBoard(), pl) == 5
  {
    var b := StartBoard();
    var home := if pl == A then 0 else 4;
    forall r | 0 <= r < Size ensures CountRow(b[r], pl) == if r == home then 5 else 0 {
      forall c | 0 <= c < Size ensures OwnedBy(b[r][c], pl) <==> r == home {
        OwnedByOwner(b[r][c], pl);
      }
      if r == home {
        CountRowFull(b[r], pl);
      } else {
        CountRowZero(b[r], pl);
      }
    }
    assert b[..5][..4] == b[..4];
    assert b[..4][..3] == b[..3];
    assert b[..3][..2] == b[..2];
    assert b[..2][..1] == b[..1];
    assert b[..1][..0] == [];
    assert b == b[..5];
    assert Count(b[..1], pl) == CountRow(b[0], pl);
    assert Count(b[..2], pl) == Count(b[..1], pl) + CountRow(b[1], pl);
    assert Count(b[..3], pl) == Count(b[..2], pl) + CountRow(b[2], pl);
    assert Count(b[..4], pl) == Count(b[..3], pl) + CountRow(b[3], pl);
  }

  /**
   * The start position: row 0 holds A's P1, H1, H2, P2, P3 from left to
   * right, rows 1 to 3 are empty, row 4 holds B's pieces in the same order;
   * no piece appears twice and each player has five pieces.
   */
  lemma StartPosition()
    ensures var b := StartBoard();
      && b[0] == [Some(Piece(A, P1)), Some(Piece(A, H1)), Some(Piece(A, H2)), Some(Piece(A, P2)), Some(Piece(A, P3))]
      && b[1] == b[2] == b[3] == [None, None, None, None, None]
      && b[4] == [Some(Piece(B, P1)), Some(Piece(B, H1)), Some(Piece(B, H2)), Some(Piece(B, P2)), Some(Piece(B, P3))]
      && Unique(b)
      && Count(b, A) == 5 && Count(b, B) == 5
  {
    var b := StartBoard();
    assert b[0] == [Some(Piece(A, P1)), Some(Piece(A, H1)), Some(Piece(A, H2)), Some(Piece(A, P2)), Some(Piece(A, P3))];
    assert b[4] == [Some(Piece(B, P1)), Some(Piece(B, H1)), Some(Piece(B, H2)), Some(Piece(B, P2)), Some(Piece(B, P3))];
    assert b[1] == b[2] == b[3] == [None, None, None, None, None];
    StartUnique();
    StartCounts(A);
    StartCounts(B);
  }
}
