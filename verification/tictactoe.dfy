/** The client-side tic-tac-toe engine: a nine-cell board, the player whose
    turn it is, and a flag that freezes the board once someone has won. */
module TicTacToe {

  datatype Player = None | X | O

  /** Cell 3 * r + c is row r, column c. */
  type Board = b: seq<Player> | |b| == 9
    witness [None, None, None, None, None, None, None, None, None]

  type Index = i: int | 0 <= i < 9

  datatype Game = Game(board: Board, currentPlayer: Player, gameEnded: bool)

  /** What MakeMove leaves behind, and whether the move won the game. */
  datatype MoveResult = MoveResult(game: Game, won: bool)

  /* ---------------------------------------------------------------------
     Reference definition of a winning line, by board geometry
     --------------------------------------------------------------------- */

  predicate RowOf(b: Board, p: Player, r: int)
    requires 0 <= r < 3
  {
    b[3 * r] == p && b[3 * r + 1] == p && b[3 * r + 2] == p
  }

  predicate ColumnOf(b: Board, p: Player, c: int)
    requires 0 <= c < 3
  {
    b[c] == p && b[c + 3] == p && b[c + 6] == p
  }

  predicate DiagonalOf(b: Board, p: Player) {
    b[0] == p && b[4] == p && b[8] == p
  }

  predicate AntiDiagonalOf(b: Board, p: Player) {
    b[2] == p && b[4] == p && b[6] == p
  }

  /** p (a real mark) fills a whole row, column or diagonal. */
  predicate HasLine(b: Board, p: Player) {
    && p != None
    && (|| (exists r :: 0 <= r < 3 && RowOf(b, p, r))
        || (exists c :: 0 <= c < 3 && ColumnOf(b, p, c))
        || DiagonalOf(b, p)
        || AntiDiagonalOf(b, p))
  }

  predicate HasWinner(b: Board) {
    HasLine(b, X) || HasLine(b, O)
  }

  /** Number of cells of b holding p. */
  function Count(b: seq<Player>, p: Player): (n: nat)
    ensures n <= |b|
  {
    if |b| == 0 then 0 else (if b[0] == p then 1 else 0) + Count(b[1..], p)
  }

  /* ---------------------------------------------------------------------
     The engine
     --------------------------------------------------------------------- */

  /** The index triples the engine scans, in its scan order. */
  const WinningCombos: seq<(Index, Index, Index)> :=
    [(0, 1, 2), (3, 4, 5), (6, 7, 8),
     (0, 3, 6), (1, 4, 7), (2, 5, 8),
     (0, 4, 8), (2, 4, 6)]

  predicate ComboHolds(b: Board, t: (Index, Index, Index)) {
    b[t.0] != None && b[t.0] == b[t.1] && b[t.0] == b[t.2]
  }

  /** ResetBoard: every field is overwritten, so the result does not depend on g. */
  function ResetBoard(g: Game): (r: Game)
    ensures forall i :: 0 <= i < 9 ==> r.board[i] == None
    ensures r.currentPlayer == X
    ensures !r.gameEnded
  {
    Game([None, None, None, None, None, None, None, None, None], X, false)
  }

  function SwitchPlayer(p: Player): (q: Player)
    ensures q != None && q != p
    ensures p == None ==> q == X
  {
    if p == X then O else X
  }

  /** The scan of combos i, i+1, ... of WinningCombos: true at the first triple that holds. */
  function ScanCombos(b: Board, i: nat): (won: bool)
    requires i <= |WinningCombos|
    ensures won <==> exists k :: i <= k < |WinningCombos| && ComboHolds(b, WinningCombos[k])
    decreases |WinningCombos| - i
  {
    if i == |WinningCombos| then false
    else ComboHolds(b, WinningCombos[i]) || ScanCombos(b, i + 1)
  }

  function CheckForWinner(b: Board): (won: bool)
    ensures won <==> HasWinner(b)
  {
    CombosAreLines(b);
    ScanCombos(b, 0)
  }

  function MakeMove(g: Game, index: int): (r: MoveResult)
    requires 0 <= index < 9
    ensures g.board[index] != None || g.gameEnded ==> r == MoveResult(g, false)
    ensures g.board[index] == None && !g.gameEnded ==>
      && (forall j :: 0 <= j < 9 && j != index ==> r.game.board[j] == g.board[j])
      && r.game.board[index] == g.currentPlayer
      && (r.won <==> HasWinner(r.game.board))
      && r.game.gameEnded == r.won
      && r.game.currentPlayer == (if r.won then g.currentPlayer else SwitchPlayer(g.currentPlayer))
  {
    if g.board[index] == None && !g.gameEnded then
      var board := g.board[index := g.currentPlayer];
      if CheckForWinner(board) then MoveResult(Game(board, g.currentPlayer, true), true)
      else MoveResult(Game(board, SwitchPlayer(g.currentPlayer), false), false)
    else
      MoveResult(g, false)
  }

  /** The game after a sequence of MakeMove calls. */
  function Play(g: Game, moves: seq<Index>): Game
    decreases |moves|
  {
    if |moves| == 0 then g else Play(MakeMove(g, moves[0]).game, moves[1..])
  }

  /* ---------------------------------------------------------------------
     Invariant of every state reachable from ResetBoard
     --------------------------------------------------------------------- */

  /** X moves first and the players alternate, so X is never behind and at
      most one mark ahead; X is to move exactly when the counts are equal,
      except after a win, when the winner stays current. */
  predicate Valid(g: Game) {
    var xs := Count(g.board, X);
    var os := Count(g.board, O);
    && g.currentPlayer != None
    && (xs == os || xs == os + 1)
    && (g.currentPlayer == X <==> xs == os + (if g.gameEnded then 1 else 0))
    && (g.gameEnded ==> HasLine(g.board, g.currentPlayer))
    && (!g.gameEnded ==> !HasWinner(g.board))
  }

  /* ---------------------------------------------------------------------
     Lemmas
     --------------------------------------------------------------------- */

  lemma CombosAreLines(b: Board)
    ensures (exists k :: 0 <= k < |WinningCombos| && ComboHolds(b, WinningCombos[k])) <==> HasWinner(b)
  {
    if exists k :: 0 <= k < |WinningCombos| && ComboHolds(b, WinningCombos[k]) {
      var k :| 0 <= k < |WinningCombos| && ComboHolds(b, WinningCombos[k]);
      var p := b[WinningCombos[k].0];
      if k == 0 { assert RowOf(b, p, 0); }
      else if k == 1 { assert RowOf(b, p, 1); }
      else if k == 2 { assert RowOf(b, p, 2); }
      else if k == 3 { assert ColumnOf(b, p, 0); }
      else if k == 4 { assert ColumnOf(b, p, 1); }
      else if k == 5 { assert ColumnOf(b, p, 2); }
      assert HasLine(b, p);
    }
    if HasWinner(b) {
      var p := if HasLine(b, X) then X else O;
      if exists r :: 0 <= r < 3 && RowOf(b, p, r) {
        var r :| 0 <= r < 3 && RowOf(b, p, r);
        assert ComboHolds(b, WinningCombos[r]);
      } else if exists c :: 0 <= c < 3 && ColumnOf(b, p, c) {
        var c :| 0 <= c < 3 && ColumnOf(b, p, c);
        assert ComboHolds(b, WinningCombos[c + 3]);
      } else if DiagonalOf(b, p) {
        assert ComboHolds(b, WinningCombos[6]);
      } else {
        assert ComboHolds(b, WinningCombos[7]);
      }
    }
  }

  lemma ResetBoardIdempotent(g: Game)
    ensures ResetBoard(ResetBoard(g)) == ResetBoard(g)
    ensures Valid(ResetBoard(g))
  {
  }

  lemma SwitchPlayerInvolution(p: Player)
    requires p != None
    ensures SwitchPlayer(SwitchPlayer(p)) == p
  {
  }

  /** Writing p into cell i adds one to p's count and removes one from the count of the old content. */
  lemma {:induction false} CountAfterWrite(b: seq<Player>, i: int, p: Player, q: Player)
    requires 0 <= i < |b|
    ensures Count(b[i := p], q) == Count(b, q) + (if p == q then 1 else 0) - (if b[i] == q then 1 else 0)
  {
    if i == 0 {
      assert b[i := p][1..] == b[1..];
    } else {
      CountAfterWrite(b[1..], i - 1, p, q);
      assert b[i := p][1..] == b[1..][i - 1 := p];
    }
  }

  /** A line of q in b2 is a line of q in b when every q-cell of b2 is a q-cell of b. */
  lemma LineCarriesOver(b: Board, b2: Board, q: Player)
    requires forall j :: 0 <= j < 9 && b2[j] == q ==> b[j] == q
    requires HasLine(b2, q)
    ensures HasLine(b, q)
  {
    if exists r :: 0 <= r < 3 && RowOf(b2, q, r) {
      var r :| 0 <= r < 3 && RowOf(b2, q, r);
      assert RowOf(b, q, r);
    } else if exists c :: 0 <= c < 3 && ColumnOf(b2, q, c) {
      var c :| 0 <= c < 3 && ColumnOf(b2, q, c);
      assert ColumnOf(b, q, c);
    }
  }

  /** A line that a single write creates belongs to the player who wrote. */
  lemma NewLineIsMover(b: Board, i: Index, p: Player, q: Player)
    requires HasLine(b[i := p], q)
    requires !HasLine(b, q)
    ensures q == p
  {
    if q != p {
      LineCarriesOver(b, b[i := p], q);
    }
  }

  /** MakeMove keeps the reachable-state invariant. */
  lemma MakeMovePreservesValid(g: Game, index: Index)
    requires Valid(g)
    ensures Valid(MakeMove(g, index).game)
  {
    var r := MakeMove(g, index);
    if g.board[index] == None && !g.gameEnded {
      var p := g.currentPlayer;
      assert r.game.board == g.board[index := p];
      CountAfterWrite(g.board, index, p, X);
      CountAfterWrite(g.board, index, p, O);
      if r.won {
        var q := if HasLine(r.game.board, X) then X else O;
        NewLineIsMover(g.board, index, p, q);
      }
    }
  }

  /** Every state reached by moves from a reset satisfies the invariant. */
  lemma {:induction false} PlayPreservesValid(g: Game, moves: seq<Index>)
    requires Valid(g)
    ensures Valid(Play(g, moves))
    decreases |moves|
  {
    if |moves| > 0 {
      MakeMovePreservesValid(g, moves[0]);
      PlayPreservesValid(MakeMove(g, moves[0]).game, moves[1..]);
    }
  }

  /** Reachable from a reset: the mark counts differ by 0 or 1, X moves
      when they are equal, and an ended game has a winning line of the
      current player. */
  lemma ReachableFromReset(g: Game, moves: seq<Index>)
    ensures var h := Play(ResetBoard(g), moves);
      && Count(h.board, X) - Count(h.board, O) in {0, 1}
      && (!h.gameEnded ==> (h.currentPlayer == X <==> Count(h.board, X) == Count(h.board, O)))
      && (!h.gameEnded ==> !HasWinner(h.board))
      && (h.gameEnded ==> HasLine(h.board, h.currentPlayer))
  {
    ResetBoardIdempotent(g);
    PlayPreservesValid(ResetBoard(g), moves);
  }

  /** A legal move fills exactly one empty cell with the mark of the player to move. */
  lemma LegalMoveFillsOneCell(g: Game, index: Index)
    requires Valid(g)
    requires g.board[index] == None && !g.gameEnded
    ensures Count(MakeMove(g, index).game.board, None) == Count(g.board, None) - 1
    ensures Count(MakeMove(g, index).game.board, g.currentPlayer) == Count(g.board, g.currentPlayer) + 1
  {
    CountAfterWrite(g.board, index, g.currentPlayer, None);
    CountAfterWrite(g.board, index, g.currentPlayer, g.currentPlayer);
  }

  /** There is no draw detection: a full board without a winner is not
      ended, and it accepts no further move. */
  lemma FullBoardIsFrozen(g: Game, index: Index)
    requires Valid(g)
    requires forall j :: 0 <= j < 9 ==> g.board[j] != None
    requires !HasWinner(g.board)
    ensures !g.gameEnded
    ensures MakeMove(g, index) == MoveResult(g, false)
  {
  }
}
