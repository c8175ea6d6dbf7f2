/**
 * The move rules of the game server. A move is the text "<kind>:<dir>",
 * relative to the player whose turn it is: it names one of that player's
 * piece kinds and a direction. `Check` is the verdict the server's move
 * validation reaches on a board, `Permits` the rule it enforces stated on
 * decoded tokens, and `Applied` the board after the move is carried out.
 */
module Moves {
  import opened Wrappers
  import opened BoardModel

  datatype Dir = Left | Right | Forward | Back | ForwardLeft | ForwardRight | BackLeft | BackRight

  /** The first two ':'-separated fields of a move; the second may be missing. */
  datatype Fields = Fields(piece: string, direction: Option<string>)

  /** Why a move is refused, one constructor per refusing branch, or where it goes. */
  datatype Verdict =
    | Accept(from: Pos, to: Pos)
    | PieceNotFound
    | InvalidDirection
    | OutOfBounds
    | BlockedByOwnPiece
    | PawnRuleBroken
    | Hero1RuleBroken
    | Hero2RuleBroken
    | UnknownPiece

  // ---------------------------------------------------------------------
  // Splitting and decoding the move text

  /** The text before the first ':' (all of `s` when it has none). */
  function FirstField(s: string): (f: string)
    ensures f <= s && ':' !in f
    ensures |f| < |s| ==> s[|f|] == ':'
  {
    if s == [] || s[0] == ':' then [] else [s[0]] + FirstField(s[1..])
  }

  /**
   * The first two ':'-separated fields of `move`: the piece text, and the
   * direction text when there is a colon at all.
   */
  function SplitMove(move: string): (f: Fields)
    ensures f.piece <= move && ':' !in f.piece
    ensures f.direction.None? <==> ':' !in move
    ensures f.direction.Some? ==>
      var rest := move[|f.piece| + 1..];
      move[|f.piece|] == ':' && f.direction.value <= rest && ':' !in f.direction.value
      && (|f.direction.value| < |rest| ==> rest[|f.direction.value|] == ':')
  {
    var piece := FirstField(move);
    if |piece| == |move| then Fields(piece, None)
    else Fields(piece, Some(FirstField(move[|piece| + 1..])))
  }

  lemma {:induction false} FirstFieldOf(a: string, rest: string)
    requires ':' !in a
    ensures FirstField(a) == a
    ensures FirstField(a + [':'] + rest) == a
  {
    if a != [] {
      assert (a + [':'] + rest)[1..] == a[1..] + [':'] + rest;
      FirstFieldOf(a[1..], rest);
    }
  }

  /**
   * Splitting recovers the fields a move was written from, and everything
   * after a second ':' is ignored.
   */
  lemma SplitMoveFields(a: string, d: string, rest: string)
    requires ':' !in a && ':' !in d
    ensures SplitMove(a) == Fields(a, None)
    ensures SplitMove(a + ":" + d) == Fields(a, Some(d))
    ensures SplitMove(a + ":" + d + ":" + rest) == Fields(a, Some(d))
  {
    FirstFieldOf(a, []);
    FirstFieldOf(a, d);
    FirstFieldOf(d, []);
    var m := a + ":" + d;
    assert m == a + [':'] + d;
    assert m[|a| + 1..] == d;
    FirstFieldOf(a, d + ":" + rest);
    var m' := a + ":" + d + ":" + rest;
    assert m' == a + [':'] + (d + ":" + rest);
    assert m'[|a| + 1..] == d + [':'] + rest;
    FirstFieldOf(d, rest);
  }

  function DirName(d: Dir): string {
    match d
    case Left => "L"
    case Right => "R"
    case Forward => "F"
    case Back => "B"
    case ForwardLeft => "FL"
    case ForwardRight => "FR"
    case BackLeft => "BL"
    case BackRight => "BR"
  }

  /** The direction a field names; a missing field or any other text names none. */
  function ParseDir(tok: Option<string>): Option<Dir> {
    match tok
    case None => None
    case Some(t) =>
      if t == "L" then Some(Left)
      else if t == "R" then Some(Right)
      else if t == "F" then Some(Forward)
      else if t == "B" then Some(Back)
      else if t == "FL" then Some(ForwardLeft)
      else if t == "FR" then Some(ForwardRight)
      else if t == "BL" then Some(BackLeft)
      else if t == "BR" then Some(BackRight)
      else None
  }

  function ParseKind(tok: string): Option<Kind> {
    if tok == "P1" then Some(P1)
    else if tok == "P2" then Some(P2)
    else if tok == "P3" then Some(P3)
    else if tok == "H1" then Some(H1)
    else if tok == "H2" then Some(H2)
    else None
  }

  /** Exactly the eight direction names parse, each to its own direction. */
  lemma DirNames(t: Option<string>, d: Dir)
    ensures ParseDir(t) == Some(d) <==> t == Some(DirName(d))
  {
  }

  lemma KindNames(tok: string, k: Kind)
    ensures ParseKind(tok) == Some(k) <==> tok == KindName(k)
  {
  }

  /** The kind and direction a move names, when both fields decode. */
  function Decode(move: string): Option<(Kind, Dir)> {
    var f := SplitMove(move);
    match (ParseKind(f.piece), ParseDir(f.direction))
    case (Some(k), Some(d)) => Some((k, d))
    case _ => None
  }

  /** The text of a move as a client writes it. */
  function MoveText(k: Kind, d: Dir): string {
    KindName(k) + ":" + DirName(d)
  }

  /** Decoding a move's text gives back the kind and direction it was written from. */
  lemma DecodeMoveText(k: Kind, d: Dir)
    ensures Decode(MoveText(k, d)) == Some((k, d))
  {
    SplitMoveFields(KindName(k), DirName(d), "");
    KindNames(KindName(k), k);
    DirNames(Some(DirName(d)), d);
  }

  // ---------------------------------------------------------------------
  // Geometry

  /** Pawns step one cell, every other kind two: decided by a leading 'P'. */
  function StepOf(tok: string): int {
    if |tok| > 0 && tok[0] == 'P' then 1 else 2
  }

  function Step(k: Kind): int {
    if IsPawn(k) then 1 else 2
  }

  lemma StepOfKind(k: Kind)
    ensures StepOf(KindName(k)) == Step(k)
  {
  }

  /** Row change of one unit step: forward is towards row 0, for both players. */
  function RowDelta(d: Dir): int {
    match d
    case Forward | ForwardLeft | ForwardRight => -1
    case Back | BackLeft | BackRight => 1
    case Left | Right => 0
  }

  function ColDelta(d: Dir): int {
    match d
    case Left | ForwardLeft | BackLeft => -1
    case Right | ForwardRight | BackRight => 1
    case Forward | Back => 0
  }

  /** The cell `step` cells away from `from` in direction `d`. */
  function Shift(from: Pos, d: Dir, step: int): (to: Pos)
    ensures to == Pos(from.row + step * RowDelta(d), from.col + step * ColDelta(d))
  {
    match d
    case Left => Pos(from.row, from.col - step)
    case Right => Pos(from.row, from.col + step)
    case Forward => Pos(from.row - step, from.col)
    case Back => Pos(from.row + step, from.col)
    case ForwardLeft => Pos(from.row - step, from.col - step)
    case ForwardRight => Pos(from.row - step, from.col + step)
    case BackLeft => Pos(from.row + step, from.col - step)
    case BackRight => Pos(from.row + step, from.col + step)
  }

  predicate Diagonal(d: Dir) {
    d == ForwardLeft || d == ForwardRight || d == BackLeft || d == BackRight
  }

  function Abs(x: int): nat {
    if x < 0 then -x else x
  }

  // ---------------------------------------------------------------------
  // Locating the moving piece

  /** Cell `c` holds the piece the server looks for: "<pl>-<tok>". */
  predicate Holds(c: Cell, pl: Player, tok: string) {
    c.Some? && PieceName(c.value) == PlayerName(pl) + "-" + tok
  }

  /** The string comparison matches exactly the piece of `pl` whose kind is named `tok`. */
  lemma HoldsPiece(c: Cell, pl: Player, tok: string)
    ensures Holds(c, pl, tok) <==> c.Some? && c.value.owner == pl && tok == KindName(c.value.kind)
  {
    if c.Some? && Holds(c, pl, tok) {
      var s := PieceName(c.value);
      var t := PlayerName(pl) + "-" + tok;
      assert s[0] == t[0];
      assert s[2..] == KindName(c.value.kind);
      assert t[2..] == tok;
    }
  }

  predicate Before(p: Pos, q: Pos) {
    p.row < q.row || (p.row == q.row && p.col < q.col)
  }

  /** The row-major scan from (row, col) for a cell holding "<pl>-<tok>". */
  function LocateFrom(b: Board, pl: Player, tok: string, row: nat, col: nat): (pos: Option<Pos>)
    requires WellFormed(b)
    decreases Size - row, Size - col
    ensures pos.Some? ==> InBounds(pos.value) && Holds(At(b, pos.value), pl, tok)
                          && !Before(pos.value, Pos(row, col))
    ensures forall p :: InBounds(p) && !Before(p, Pos(row, col)) && (pos.None? || Before(p, pos.value))
                        ==> !Holds(At(b, p), pl, tok)
  {
    if row >= Size then None
    else if col >= Size then LocateFrom(b, pl, tok, row + 1, 0)
    else if Holds(b[row][col], pl, tok) then Some(Pos(row, col))
    else LocateFrom(b, pl, tok, row, col + 1)
  }

  /** The first cell, in row-major order, holding "<pl>-<tok>". */
  function Locate(b: Board, pl: Player, tok: string): (pos: Option<Pos>)
    requires WellFormed(b)
    ensures pos.Some? ==> InBounds(pos.value) && Holds(At(b, pos.value), pl, tok)
    ensures forall p :: InBounds(p) && (pos.None? || Before(p, pos.value)) ==> !Holds(At(b, p), pl, tok)
  {
    LocateFrom(b, pl, tok, 0, 0)
  }

  /** Any cell that holds the piece and has no holding cell before it is the one found. */
  lemma LocateFirst(b: Board, pl: Player, tok: string, p: Pos)
    requires WellFormed(b) && InBounds(p) && Holds(At(b, p), pl, tok)
    requires forall q :: InBounds(q) && Before(q, p) ==> !Holds(At(b, q), pl, tok)
    ensures Locate(b, pl, tok) == Some(p)
  {
    var pos := Locate(b, pl, tok);
    assert !Before(p, p);
  }

  // ---------------------------------------------------------------------
  // The verdict of move validation

  /**
   * The server's move validation, branch by branch: find the mover's piece,
   * take the step of its kind in the named direction, then refuse a target off
   * the board or holding one of the mover's pieces, then run the per-kind checks.
   */
  function Check(b: Board, pl: Player, move: string): (v: Verdict)
    requires WellFormed(b)
    ensures v.Accept? ==> InBounds(v.from) && InBounds(v.to)
  {
    CheckFields(b, pl, SplitMove(move))
  }

  /** The verdict on a move already split into its piece and direction fields. */
  function CheckFields(b: Board, pl: Player, f: Fields): (v: Verdict)
    requires WellFormed(b)
    ensures v.Accept? ==> InBounds(v.from) && InBounds(v.to)
    ensures v.PieceNotFound? <==> Locate(b, pl, f.piece).None?
  {
    match Locate(b, pl, f.piece)
    case None => PieceNotFound
    case Some(from) =>
      match ParseDir(f.direction)
      case None => InvalidDirection
      case Some(d) =>
        var to := Shift(from, d, StepOf(f.piece));
        if !InBounds(to) then OutOfBounds
        else if OwnedBy(At(b, to), pl) then BlockedByOwnPiece
        else KindRule(f.piece, d, from, to)
  }

  /** The per-kind checks, switching on the kind text of the move. */
  function KindRule(tok: string, d: Dir, from: Pos, to: Pos): (v: Verdict)
    ensures v.Accept? ==> v == Accept(from, to)
    ensures v.UnknownPiece? <==> ParseKind(tok).None?
  {
    var dr, dc := Abs(to.row - from.row), Abs(to.col - from.col);
    if tok == "P1" || tok == "P2" || tok == "P3" then
      if dr > 1 || dc > 1 then PawnRuleBroken else Accept(from, to)
    else if tok == "H1" then
      if (d == Left || d == Right) && dc != 2 then Hero1RuleBroken
      else if (d == Forward || d == Back) && dr != 2 then Hero1RuleBroken
      else Accept(from, to)
    else if tok == "H2" then
      if Diagonal(d) && (dr != 2 || dc != 2) then Hero2RuleBroken else Accept(from, to)
    else UnknownPiece
  }

  /** For the five kind names, the per-kind checks accept every step of the kind's length. */
  lemma KindRuleAccepts(k: Kind, d: Dir, from: Pos)
    ensures KindRule(KindName(k), d, from, Shift(from, d, Step(k))) == Accept(from, Shift(from, d, Step(k)))
  {
  }

  /**
   * The rule validation enforces, on decoded tokens: `pl`'s piece of kind
   * `k` stands on `from`, `to` lies `Step(k)` cells away in direction `d`, on
   * the board, and does not hold a piece of `pl`. Any kind may go in any of
   * the eight directions.
   */
  ghost predicate Permits(b: Board, pl: Player, k: Kind, d: Dir, from: Pos, to: Pos)
    requires WellFormed(b)
  {
    && InBounds(from) && At(b, from) == Some(Piece(pl, k))
    && to == Shift(from, d, Step(k))
    && InBounds(to) && !(At(b, to).Some? && At(b, to).value.owner == pl)
  }

  /** The per-kind checks never refuse: a found piece's kind is one of the five names. */
  lemma KindChecksNeverRefuse(b: Board, pl: Player, move: string)
    requires WellFormed(b)
    ensures !Check(b, pl, move).PawnRuleBroken?
    ensures !Check(b, pl, move).Hero1RuleBroken?
    ensures !Check(b, pl, move).Hero2RuleBroken?
    ensures !Check(b, pl, move).UnknownPiece?
  {
    var f := SplitMove(move);
    var pos := Locate(b, pl, f.piece);
    if pos.Some? && ParseDir(f.direction).Some? {
      var c := At(b, pos.value);
      HoldsPiece(c, pl, f.piece);
      StepOfKind(c.value.kind);
      KindRuleAccepts(c.value.kind, ParseDir(f.direction).value, pos.value);
    }
  }

  /** Every accepted move is one the rule permits. */
  lemma CheckSound(b: Board, pl: Player, move: string)
    requires WellFormed(b) && Check(b, pl, move).Accept?
    ensures Decode(move).Some?
    ensures var v := Check(b, pl, move);
            Permits(b, pl, Decode(move).value.0, Decode(move).value.1, v.from, v.to)
  {
    var f := SplitMove(move);
    var from := Locate(b, pl, f.piece).value;
    var c := At(b, from);
    HoldsPiece(c, pl, f.piece);
    KindNames(f.piece, c.value.kind);
    StepOfKind(c.value.kind);
    var to := Check(b, pl, move).to;
    OwnedByOwner(At(b, to), pl);
  }

  /** How an accepted verdict was reached, field by field. */
  lemma AcceptedSteps(b: Board, pl: Player, move: string)
    requires WellFormed(b) && Check(b, pl, move).Accept?
    ensures var f, v := SplitMove(move), Check(b, pl, move);
      && Locate(b, pl, f.piece) == Some(v.from)
      && ParseDir(f.direction).Some? && ParseKind(f.piece).Some?
      && v.to == Shift(v.from, ParseDir(f.direction).value, StepOf(f.piece))
      && Permits(b, pl, ParseKind(f.piece).value, ParseDir(f.direction).value, v.from, v.to)
  {
    CheckSound(b, pl, move);
  }

  /** On a board where no piece appears twice, every permitted move is accepted. */
  lemma CheckComplete(b: Board, pl: Player, move: string, k: Kind, d: Dir, from: Pos, to: Pos)
    requires WellFormed(b) && Unique(b)
    requires Decode(move) == Some((k, d)) && Permits(b, pl, k, d, from, to)
    ensures Check(b, pl, move) == Accept(from, to)
  {
    var f := SplitMove(move);
    KindNames(f.piece, k);
    LocateUnique(b, Piece(pl, k), from);
    StepOfKind(k);
    OwnedByOwner(At(b, to), pl);
    KindRuleAccepts(k, d, from);
  }

  /** On a board where no piece appears twice, the scan finds the piece's only cell. */
  lemma LocateUnique(b: Board, p: Piece, at: Pos)
    requires WellFormed(b) && Unique(b) && InBounds(at) && At(b, at) == Some(p)
    ensures Locate(b, p.owner, KindName(p.kind)) == Some(at)
  {
    var tok := KindName(p.kind);
    HoldsPiece(At(b, at), p.owner, tok);
    forall q | InBounds(q) && Before(q, at) ensures !Holds(At(b, q), p.owner, tok) {
      HoldsPiece(At(b, q), p.owner, tok);
    }
    LocateFirst(b, p.owner, tok, at);
  }

  /**
   * The text after a second ':' plays no part in validation: "H1:F:F" is
   * judged exactly as "H1:F".
   */
  lemma ExtraFieldsIgnored(b: Board, pl: Player, a: string, d: string, rest: string)
    requires WellFormed(b) && ':' !in a && ':' !in d
    ensures Check(b, pl, a + ":" + d + ":" + rest) == Check(b, pl, a + ":" + d)
  {
    SplitMoveFields(a, d, rest);
  }

  /** A move naming no piece of the mover, or no valid direction, is refused. */
  lemma RefusesMissingPieceOrDirection(b: Board, pl: Player, move: string)
    requires WellFormed(b)
    requires (forall p :: InBounds(p) ==> !Holds(At(b, p), pl, SplitMove(move).piece))
             || ParseDir(SplitMove(move).direction).None?
    ensures !Check(b, pl, move).Accept?
  {
  }

  // ---------------------------------------------------------------------
  // Carrying out a move

  /** The board after the piece on `from` moves to `to`, removing whatever stood there. */
  function Applied(b: Board, from: Pos, to: Pos): (b': Board)
    requires WellFormed(b) && InBounds(from) && InBounds(to)
    ensures WellFormed(b')
  {
    SetCell(SetCell(b, from, None), to, At(b, from))
  }

  /**
   * A permitted move empties its origin, puts the mover's piece on the target
   * and changes no other cell.
   */
  lemma AppliedCells(b: Board, pl: Player, k: Kind, d: Dir, from: Pos, to: Pos)
    requires WellFormed(b) && Permits(b, pl, k, d, from, to)
    ensures from != to
    ensures At(Applied(b, from, to), from) == None
    ensures At(Applied(b, from, to), to) == Some(Piece(pl, k))
    ensures forall q :: InBounds(q) && q != from && q != to ==> At(Applied(b, from, to), q) == At(b, q)
  {
  }

  /**
   * A permitted move keeps the mover's piece count and lowers the opponent's
   * by one exactly when the target held an opponent piece.
   */
  lemma AppliedCounts(b: Board, pl: Player, k: Kind, d: Dir, from: Pos, to: Pos)
    requires WellFormed(b) && Permits(b, pl, k, d, from, to)
    ensures Count(Applied(b, from, to), pl) == Count(b, pl)
    ensures Count(Applied(b, from, to), Other(pl))
            == Count(b, Other(pl)) - (if OwnedBy(At(b, to), Other(pl)) then 1 else 0)
  {
    var b1 := SetCell(b, from, None);
    var mover := At(b, from);
    assert from != to;
    forall who: Player
      ensures Count(Applied(b, from, to), who) == Count(b, who) - Ind(mover, who) + Ind(mover, who) - Ind(At(b, to), who)
    {
      CountSetCell(b, from, None, who);
      CountSetCell(b1, to, mover, who);
    }
    OwnedByOwner(mover, pl);
    OwnedByOwner(mover, Other(pl));
    OwnedByOwner(At(b, to), pl);
  }

  /** A permitted move keeps every piece on at most one cell. */
  lemma AppliedUnique(b: Board, pl: Player, k: Kind, d: Dir, from: Pos, to: Pos)
    requires WellFormed(b) && Unique(b) && Permits(b, pl, k, d, from, to)
    ensures Unique(Applied(b, from, to))
  {
    var b' := Applied(b, from, to);
    AppliedCells(b, pl, k, d, from, to);
    forall p, q | InBounds(p) && InBounds(q) && At(b', p).Some? && At(b', p) == At(b', q)
      ensures p == q
    {
      // a cell of b' is empty at `from`, holds b's piece from `from` at `to`, else as in b
      var src := (x: Pos) requires InBounds(x) => if x == to then from else x;
      assert At(b', p) == At(b, src(p)) && At(b', q) == At(b, src(q));
      assert src(p) == src(q);
    }
  }

  /**
   * The win check counts the mover's opponent: it can only newly succeed on
   * a capture of the opponent's last piece, and once the opponent has no
   * piece every further permitted move of the same player succeeds again.
   */
  lemma WinByCapture(b: Board, pl: Player, k: Kind, d: Dir, from: Pos, to: Pos)
    requires WellFormed(b) && Permits(b, pl, k, d, from, to)
    ensures Count(Applied(b, from, to), Other(pl)) == 0 <==>
            Count(b, Other(pl)) == 0 || (Count(b, Other(pl)) == 1 && OwnedBy(At(b, to), Other(pl)))
  {
    AppliedCounts(b, pl, k, d, from, to);
  }

  // ---------------------------------------------------------------------
  // Opening moves: the forward direction, hero directions and trailing fields at work

  /** On the start board every piece is found on its home cell. */
  lemma StartLocate(p: Piece)
    ensures Locate(StartBoard(), p.owner, KindName(p.kind))
            == Some(Pos(if p.owner == A then 0 else Size - 1, match p.kind case P1 => 0 case H1 => 1 case H2 => 2 case P2 => 3 case P3 => 4))
  {
    StartUnique();
    var home := Pos(if p.owner == A then 0 else Size - 1, match p.kind case P1 => 0 case H1 => 1 case H2 => 2 case P2 => 3 case P3 => 4);
    LocateUnique(StartBoard(), p, home);
  }

  /** A well-formed move's verdict, with the per-kind checks (which always pass) left out. */
  lemma CheckMoveText(b: Board, pl: Player, k: Kind, d: Dir)
    requires WellFormed(b)
    ensures Check(b, pl, MoveText(k, d)) ==
            match Locate(b, pl, KindName(k))
            case None => PieceNotFound
            case Some(from) =>
              var to := Shift(from, d, Step(k));
              if !InBounds(to) then OutOfBounds
              else if OwnedBy(At(b, to), pl) then BlockedByOwnPiece
              else Accept(from, to)
  {
    assert SplitMove(MoveText(k, d)) == Fields(KindName(k), Some(DirName(d))) by {
      SplitMoveFields(KindName(k), DirName(d), "");
    }
    assert ParseDir(Some(DirName(d))) == Some(d) by {
      DirNames(Some(DirName(d)), d);
    }
    StepOfKind(k);
    var pos := Locate(b, pl, KindName(k));
    if pos.Some? {
      KindRuleAccepts(k, d, pos.value);
    }
  }

  /** On the start board A's P1 stands on (0, 0) and forward leaves the board. */
  lemma OpeningForwardLeavesBoard()
    ensures Check(StartBoard(), A, "P1:F") == OutOfBounds
  {
    assert "P1:F" == MoveText(P1, Forward);
    StartLocate(Piece(A, P1));
    CheckMoveText(StartBoard(), A, P1, Forward);
  }

  /** A's pawn steps towards the middle with "P1:B". */
  lemma OpeningBackEntersBoard()
    ensures Check(StartBoard(), A, "P1:B") == Accept(Pos(0, 0), Pos(1, 0))
  {
    assert "P1:B" == MoveText(P1, Back);
    StartLocate(Piece(A, P1));
    CheckMoveText(StartBoard(), A, P1, Back);
  }

  /** H1 is accepted on a diagonal, against its comment "horizontally or vertically". */
  lemma OpeningHero1Diagonal()
    ensures Check(StartBoard(), A, "H1:BR") == Accept(Pos(0, 1), Pos(2, 3))
  {
    assert "H1:BR" == MoveText(H1, BackRight);
    StartLocate(Piece(A, H1));
    assert Shift(Pos(0, 1), BackRight, Step(H1)) == Pos(2, 3);
    assert !OwnedBy(At(StartBoard(), Pos(2, 3)), A);
    CheckMoveText(StartBoard(), A, H1, BackRight);
  }

  /** H2 is accepted straight ahead, against its comment "diagonally". */
  lemma OpeningHero2Straight()
    ensures Check(StartBoard(), A, "H2:B") == Accept(Pos(0, 2), Pos(2, 2))
  {
    assert "H2:B" == MoveText(H2, Back);
    assert Locate(StartBoard(), A, KindName(H2)) == Some(Pos(0, 2)) by {
      StartLocate(Piece(A, H2));
    }
    assert !OwnedBy(At(StartBoard(), Pos(2, 2)), A);
    CheckMoveText(StartBoard(), A, H2, Back);
  }

  /** B's "H1:F:F", and "H1:F:" followed by anything, is judged as "H1:F": two rows towards row 0. */
  lemma OpeningTrailingFieldsIgnored(rest: string)
    ensures Check(StartBoard(), B, "H1:F:" + rest) == Accept(Pos(4, 1), Pos(2, 1))
  {
    var m := MoveText(H1, Forward);
    assert "H1:F:" + rest == m + ":" + rest;
    ExtraFieldsIgnored(StartBoard(), B, KindName(H1), DirName(Forward), rest);
    StartLocate(Piece(B, H1));
    assert Shift(Pos(4, 1), Forward, Step(H1)) == Pos(2, 1);
    assert !OwnedBy(At(StartBoard(), Pos(2, 1)), B);
    CheckMoveText(StartBoard(), B, H1, Forward);
  }
}
