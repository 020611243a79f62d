/** One move of the game as pure functions on a snapshot of its state: relocation and capture,
    promotion, resolution and re-marking of isolation, the event counter, the position key
    and the termination checks, composed in the order `executeMove` performs them. */
module TethariRules {
  import opened TethariBoard
  import opened TethariMoves

  /** `winner`: unset while the game runs, then a side or a draw. */
  datatype Verdict = Undecided | Won(side: Player) | Drawn

  /** The fields `saveState()` copies and `restoreState` writes back. */
  datatype GameState = GameState(
    board: Board,
    active: Player,
    moveCount: nat,
    movesWithoutEvent: nat,
    gameOver: bool,
    winner: Verdict,
    capturedWhite: seq<Kind>,
    capturedBlack: seq<Kind>,
    history: seq<string>)

  /** An entry of the deaths list: where an own piece died and what it was. */
  datatype Death = Death(file: int, rank: int, kind: Kind)

  /** `lastMove`: the move with its capture and promotion flags. */
  datatype MoveRecord = MoveRecord(move: Move, captured: bool, capturedKind: Option<Kind>, promoted: bool)

  /** Everything one call of `executeMove` produces: the new state, `lastMove`,
      `lastDeaths` and `lastEndangered`. */
  datatype Outcome = Outcome(state: GameState, record: MoveRecord, deaths: seq<Death>, endangered: seq<Square>)

  /** The lost-list of side p: `capturedWhite` holds the pieces White lost. */
  function LostBy(s: GameState, p: Player): seq<Kind> {
    if p == White then s.capturedWhite else s.capturedBlack
  }

  /** Append kinds to the lost-list of side `owner`; nothing else changes. */
  function Lose(s: GameState, owner: Player, ks: seq<Kind>): (s': GameState)
    ensures LostBy(s', owner) == LostBy(s, owner) + ks
    ensures LostBy(s', Opposite(owner)) == LostBy(s, Opposite(owner))
    ensures s'.(capturedWhite := s.capturedWhite, capturedBlack := s.capturedBlack) == s
  {
    if owner == White then s.(capturedWhite := s.capturedWhite + ks)
    else s.(capturedBlack := s.capturedBlack + ks)
  }

  // ---------------------------------------------------------------------------
  // `_resolveEndangered(player)`

  /** The first loop of `_resolveEndangered` over a pieces list: the marked pieces that are
      isolated die, in list order. */
  function DyingAmong(b: Board, p: Player, ps: seq<Located>): seq<Death>
  {
    if ps == [] then []
    else
      var x := ps[|ps| - 1];
      DyingAmong(b, p, ps[..|ps| - 1]) +
        (if x.endangered && Isolated(b, x.file, x.rank, p) then [Death(x.file, x.rank, x.kind)] else [])
  }

  /** The deaths `_resolveEndangered` reports; a side with one piece or none loses nothing. */
  function Deaths(b: Board, p: Player): seq<Death> {
    if PieceCount(b, p) <= 1 then [] else DyingAmong(b, p, PiecesOf(b, p))
  }

  function DeathKinds(ds: seq<Death>): (ks: seq<Kind>)
    ensures |ks| == |ds| && forall i :: 0 <= i < |ds| ==> ks[i] == ds[i].kind
  {
    seq(|ds|, i requires 0 <= i < |ds| => ds[i].kind)
  }

  /** One square after resolution. With two or more own pieces a marked own piece that is
      isolated is removed and any other marked own piece loses its mark; with one or none
      every own mark is cleared. Other squares keep their content. */
  function ResolvedCell(b: Board, p: Player, many: bool, file: int, rank: int): Cell
    requires InBounds(file, rank)
  {
    match b[file][rank]
    case None => None
    case Some(pc) =>
      if pc.owner != p || !pc.endangered then Some(pc)
      else if many && Isolated(b, file, rank, p) then None
      else Some(pc.(endangered := false))
  }

  /** The board `_resolveEndangered(p)` leaves; isolation is judged on the board as it stood
      before any removal, so all deaths happen at once. */
  function ResolvedBoard(b: Board, p: Player): (b': Board)
    ensures forall f, r {:trigger b'[f][r]} :: InBounds(f, r) ==> b'[f][r] == ResolvedCell(b, p, PieceCount(b, p) > 1, f, r)
  {
    ResolvedFiles(b, p, PieceCount(b, p) > 1, Size)
  }

  /** The first n files of the resolved board. */
  function ResolvedFiles(b: Board, p: Player, many: bool, n: nat): (fs: seq<seq<Cell>>)
    requires n <= Size
    ensures |fs| == n
    ensures forall f :: 0 <= f < n ==> |fs[f]| == Size
    ensures forall f, r :: 0 <= f < n && 0 <= r < Size ==> fs[f][r] == ResolvedCell(b, p, many, f, r)
  {
    if n == 0 then [] else ResolvedFiles(b, p, many, n - 1) + [ResolvedRanks(b, p, many, n - 1, Size)]
  }

  /** The first n squares of one file of the resolved board. */
  function ResolvedRanks(b: Board, p: Player, many: bool, file: int, n: nat): (rs: seq<Cell>)
    requires 0 <= file < Size && n <= Size
    ensures |rs| == n
    ensures forall r :: 0 <= r < n ==> rs[r] == ResolvedCell(b, p, many, file, r)
  {
    if n == 0 then [] else ResolvedRanks(b, p, many, file, n - 1) + [ResolvedCell(b, p, many, file, n - 1)]
  }

  lemma {:induction false} DyingAmongMember(b: Board, p: Player, ps: seq<Located>, d: Death)
    ensures d in DyingAmong(b, p, ps) <==>
      exists x :: x in ps && x.endangered && Isolated(b, x.file, x.rank, p) && d == Death(x.file, x.rank, x.kind)
  {
    if ps != [] {
      var front := ps[..|ps| - 1];
      DyingAmongMember(b, p, front, d);
      assert ps == front + [ps[|ps| - 1]];
    }
  }

  /** The deaths are exactly the marked own pieces that are isolated, and there are none
      unless the side has two or more pieces. */
  lemma DeathsMember(b: Board, p: Player, d: Death)
    ensures d in Deaths(b, p) <==>
      PieceCount(b, p) > 1 && InBounds(d.file, d.rank) &&
      b[d.file][d.rank] == Some(Piece(p, d.kind, true)) && Isolated(b, d.file, d.rank, p)
  {
    if PieceCount(b, p) > 1 {
      DyingAmongMember(b, p, PiecesOf(b, p), d);
      PiecesOfMember(b, p, Located(d.file, d.rank, d.kind, true));
    }
  }

  /** Resolution square by square: a square is emptied exactly when it held a piece or one
      of the reported deaths stood on it; a survivor of the resolved side loses its mark and
      every other piece is untouched. */
  lemma ResolvedSquare(b: Board, p: Player, file: int, rank: int)
    requires InBounds(file, rank)
    ensures ResolvedBoard(b, p)[file][rank].None? <==>
      b[file][rank].None? || exists k :: Death(file, rank, k) in Deaths(b, p)
    ensures ResolvedBoard(b, p)[file][rank].Some? ==>
      var pc := b[file][rank].value;
      ResolvedBoard(b, p)[file][rank] == Some(pc.(endangered := pc.endangered && pc.owner != p))
  {
    if b[file][rank].Some? {
      var pc := b[file][rank].value;
      DeathsMember(b, p, Death(file, rank, pc.kind));
      forall k | Death(file, rank, k) in Deaths(b, p)
        ensures ResolvedBoard(b, p)[file][rank].None?
      {
        DeathsMember(b, p, Death(file, rank, k));
      }
    }
  }

  /** The last-man exception: a side with one piece or none loses nothing to isolation and
      ends with no marks. */
  lemma ResolveLastMan(b: Board, p: Player, file: int, rank: int)
    requires PieceCount(b, p) <= 1 && InBounds(file, rank)
    ensures Deaths(b, p) == []
    ensures ResolvedBoard(b, p)[file][rank].Some? == b[file][rank].Some?
    ensures Friendly(ResolvedBoard(b, p), file, rank, p) ==> !ResolvedBoard(b, p)[file][rank].value.endangered
  {
    ResolvedSquare(b, p, file, rank);
  }

  /** Resolution changes no owner except by removing pieces of the resolved side. */
  lemma ResolvedOwners(b: Board, p: Player, file: int, rank: int)
    requires InBounds(file, rank)
    ensures Friendly(ResolvedBoard(b, p), file, rank, p) ==> Friendly(b, file, rank, p)
    ensures Friendly(b, file, rank, Opposite(p)) <==> Friendly(ResolvedBoard(b, p), file, rank, Opposite(p))
  {
    ResolvedSquare(b, p, file, rank);
  }

  // ---------------------------------------------------------------------------
  // `_markEndangered(player)`

  /** One square after marking: an own piece's mark becomes "isolated", or false when the
      side has one piece or none; other squares keep their content. */
  function MarkedCell(b: Board, p: Player, many: bool, file: int, rank: int): Cell
    requires InBounds(file, rank)
  {
    match b[file][rank]
    case None => None
    case Some(pc) =>
      if pc.owner != p then Some(pc)
      else Some(pc.(endangered := many && Isolated(b, file, rank, p)))
  }

  function MarkedBoard(b: Board, p: Player): (b': Board)
    ensures forall f, r {:trigger b'[f][r]} :: InBounds(f, r) ==> b'[f][r] == MarkedCell(b, p, PieceCount(b, p) > 1, f, r)
  {
    MarkedFiles(b, p, PieceCount(b, p) > 1, Size)
  }

  /** The first n files of the marked board. */
  function MarkedFiles(b: Board, p: Player, many: bool, n: nat): (fs: seq<seq<Cell>>)
    requires n <= Size
    ensures |fs| == n
    ensures forall f :: 0 <= f < n ==> |fs[f]| == Size
    ensures forall f, r :: 0 <= f < n && 0 <= r < Size ==> fs[f][r] == MarkedCell(b, p, many, f, r)
  {
    if n == 0 then [] else MarkedFiles(b, p, many, n - 1) + [MarkedRanks(b, p, many, n - 1, Size)]
  }

  /** The first n squares of one file of the marked board. */
  function MarkedRanks(b: Board, p: Player, many: bool, file: int, n: nat): (rs: seq<Cell>)
    requires 0 <= file < Size && n <= Size
    ensures |rs| == n
    ensures forall r :: 0 <= r < n ==> rs[r] == MarkedCell(b, p, many, file, r)
  {
    if n == 0 then [] else MarkedRanks(b, p, many, file, n - 1) + [MarkedCell(b, p, many, file, n - 1)]
  }

  /** The loop of `_markEndangered` collecting the pieces whose mark goes from false to true. */
  function NewlyAmong(b: Board, p: Player, ps: seq<Located>): seq<Square>
  {
    if ps == [] then []
    else
      var x := ps[|ps| - 1];
      NewlyAmong(b, p, ps[..|ps| - 1]) +
        (if !x.endangered && Isolated(b, x.file, x.rank, p) then [Square(x.file, x.rank)] else [])
  }

  /** The list `_markEndangered` returns. */
  function NewlyEndangered(b: Board, p: Player): seq<Square> {
    if PieceCount(b, p) <= 1 then [] else NewlyAmong(b, p, PiecesOf(b, p))
  }

  lemma MarkedSameOwners(b: Board, p: Player)
    ensures SameOwners(b, MarkedBoard(b, p))
  {
  }

  /** After marking, each own piece is marked exactly when it is isolated on the resulting
      board and its side has two or more pieces; every other square is untouched. */
  lemma MarkedSquare(b: Board, p: Player, file: int, rank: int)
    requires InBounds(file, rank)
    ensures !Friendly(b, file, rank, p) ==> MarkedBoard(b, p)[file][rank] == b[file][rank]
    ensures Friendly(b, file, rank, p) ==>
      MarkedBoard(b, p)[file][rank] ==
        Some(b[file][rank].value.(endangered := PieceCount(b, p) > 1 && Isolated(MarkedBoard(b, p), file, rank, p)))
  {
    MarkedSameOwners(b, p);
    IsolatedSameOwners(b, MarkedBoard(b, p), file, rank, p);
  }

  lemma {:induction false} NewlyAmongMember(b: Board, p: Player, ps: seq<Located>, sq: Square)
    ensures sq in NewlyAmong(b, p, ps) <==>
      exists x :: x in ps && !x.endangered && Isolated(b, x.file, x.rank, p) && sq == Square(x.file, x.rank)
  {
    if ps != [] {
      var front := ps[..|ps| - 1];
      NewlyAmongMember(b, p, front, sq);
      assert ps == front + [ps[|ps| - 1]];
    }
  }

  /** The returned list holds exactly the own pieces whose mark went from false to true. */
  lemma NewlyEndangeredMember(b: Board, p: Player, sq: Square)
    ensures sq in NewlyEndangered(b, p) <==>
      Friendly(b, sq.file, sq.rank, p) && !b[sq.file][sq.rank].value.endangered &&
      MarkedBoard(b, p)[sq.file][sq.rank].value.endangered
  {
    if PieceCount(b, p) > 1 {
      NewlyAmongMember(b, p, PiecesOf(b, p), sq);
      if Friendly(b, sq.file, sq.rank, p) {
        var pc := b[sq.file][sq.rank].value;
        PiecesOfMember(b, p, Located(sq.file, sq.rank, pc.kind, pc.endangered));
      }
    }
  }

  // ---------------------------------------------------------------------------
  // `_hash()`

  /** One square of the position key: '.' or colour initial, kind letter and 'E' if marked. */
  function Token(c: Cell): (t: string)
    ensures 1 <= |t| <= 3
  {
    match c
    case None => "."
    case Some(pc) => [Initial(pc.owner), Letter(pc.kind)] + (if pc.endangered then "E" else "")
  }

  /** The tokens of the first n squares of the scan. */
  function HashUpTo(b: Board, n: nat): string
    requires n <= Size * Size
  {
    if n == 0 then ""
    else
      var sq := SquareAt(n - 1);
      IndexOfSquareAt(n - 1);
      HashUpTo(b, n - 1) + Token(b[sq.file][sq.rank])
  }

  /** Scanning one more square appends that square's token. */
  lemma HashUpToStep(b: Board, file: int, rank: int)
    requires InBounds(file, rank)
    ensures Index(file, rank) < Size * Size
    ensures HashUpTo(b, Index(file, rank) + 1) == HashUpTo(b, Index(file, rank)) + Token(b[file][rank])
  {
    IndexStep(file, rank);
    SquareAtIndex(file, rank);
  }

  /** `_hash()`: the initial of the side to move followed by the 36 tokens. */
  function HashOf(p: Player, b: Board): string {
    [Initial(p)] + HashUpTo(b, Size * Size)
  }

  /** A token's last character tells its length: '.' stands alone, a kind letter ends an
      unmarked piece and 'E', which is no kind letter, ends a marked one. */
  function TokenLength(last: char): nat {
    if last == '.' then 1 else if last == 'E' then 3 else 2
  }

  lemma TokenEnd(c: Cell)
    ensures |Token(c)| == TokenLength(Token(c)[|Token(c)| - 1])
  {
  }

  lemma TokenInjective(c1: Cell, c2: Cell)
    requires Token(c1) == Token(c2)
    ensures c1 == c2
  {
    if c1.Some? && c2.Some? {
      assert Token(c1)[0] == Token(c2)[0] && Token(c1)[1] == Token(c2)[1];
      assert c1.value.owner == c2.value.owner;
    }
  }

  /** Tokens are read back from the end: equal strings ending in a token agree on that token
      and on everything before it. */
  lemma TokenSplit(x1: string, c1: Cell, x2: string, c2: Cell)
    requires x1 + Token(c1) == x2 + Token(c2)
    ensures x1 == x2 && c1 == c2
  {
    var t1, t2 := Token(c1), Token(c2);
    var w := x1 + t1;
    TokenEnd(c1);
    TokenEnd(c2);
    assert t1[|t1| - 1] == w[|w| - 1] == t2[|t2| - 1];
    assert x1 == w[..|w| - |t1|] == x2;
    assert t1 == w[|w| - |t1|..] == t2;
    TokenInjective(c1, c2);
  }

  /** Equal keys of the first n squares agree on the last of them and on all before it. */
  lemma HashUpToLast(b1: Board, b2: Board, n: nat)
    requires 0 < n <= Size * Size
    requires HashUpTo(b1, n) == HashUpTo(b2, n)
    ensures InBounds(SquareAt(n - 1).file, SquareAt(n - 1).rank)
    ensures HashUpTo(b1, n - 1) == HashUpTo(b2, n - 1)
    ensures b1[SquareAt(n - 1).file][SquareAt(n - 1).rank] == b2[SquareAt(n - 1).file][SquareAt(n - 1).rank]
  {
    var sq := SquareAt(n - 1);
    IndexOfSquareAt(n - 1);
    TokenSplit(HashUpTo(b1, n - 1), b1[sq.file][sq.rank], HashUpTo(b2, n - 1), b2[sq.file][sq.rank]);
  }

  /** Equal keys of the first n squares agree on each of those squares. */
  lemma {:induction false} HashUpToInjective(b1: Board, b2: Board, n: nat, f: int, r: int)
    requires n <= Size * Size
    requires HashUpTo(b1, n) == HashUpTo(b2, n)
    requires InBounds(f, r) && Index(f, r) < n
    ensures b1[f][r] == b2[f][r]
  {
    HashUpToLast(b1, b2, n);
    if Index(f, r) == n - 1 {
      SquareAtIndex(f, r);
    } else {
      HashUpToInjective(b1, b2, n - 1, f, r);
    }
  }

  /** Two positions share a key exactly when the side to move and every square, mark
      included, agree. */
  lemma HashIdentifiesPosition(p1: Player, b1: Board, p2: Player, b2: Board)
    ensures HashOf(p1, b1) == HashOf(p2, b2) <==> p1 == p2 && b1 == b2
  {
    if HashOf(p1, b1) == HashOf(p2, b2) {
      assert HashOf(p1, b1)[0] == Initial(p1) && HashOf(p2, b2)[0] == Initial(p2);
      assert HashOf(p1, b1)[1..] == HashUpTo(b1, Size * Size);
      assert HashOf(p2, b2)[1..] == HashUpTo(b2, Size * Size);
      forall f, r {:trigger b2[f][r]} {:trigger b1[f][r]} | InBounds(f, r)
        ensures b1[f][r] == b2[f][r]
      {
        IndexStep(f, r);
        HashUpToInjective(b1, b2, Size * Size, f, r);
      }
      BoardsEqual(b1, b2);
    }
  }

  /** How often a key occurs in the history (`filter(...).length`). */
  function Occurrences(h: seq<string>, x: string): (n: nat)
    ensures n <= |h|
  {
    if h == [] then 0
    else Occurrences(h[..|h| - 1], x) + (if h[|h| - 1] == x then 1 else 0)
  }

  lemma {:induction false} OccurrencesPositive(h: seq<string>, x: string)
    ensures Occurrences(h, x) > 0 <==> x in h
  {
    if h != [] {
      OccurrencesPositive(h[..|h| - 1], x);
      assert h == h[..|h| - 1] + [h[|h| - 1]];
    }
  }

  // ---------------------------------------------------------------------------
  // `executeMove(move)`

  /** Steps 1 and 2: the mover goes to the destination and leaves its origin; a captured
      piece's kind goes on its own side's lost-list; a capturing Tuemmler is replaced by a
      fresh, unmarked Orca. */
  function Relocate(s: GameState, m: Move): (GameState, MoveRecord)
    requires Playable(s.board, m)
  {
    var mover := s.board[m.from.file][m.from.rank].value;
    var target := s.board[m.to.file][m.to.rank];
    var b1 := Put(Put(s.board, m.to.file, m.to.rank, Some(mover)), m.from.file, m.from.rank, None);
    var captured := target.Some?;
    var s1 := if captured then Lose(s, target.value.owner, [target.value.kind]) else s;
    var promoted := mover.kind == Tuemmler && captured;
    var b2 := if promoted then Put(b1, m.to.file, m.to.rank, Some(Piece(mover.owner, Orca, false))) else b1;
    (s1.(board := b2), MoveRecord(m, captured, if captured then Some(target.value.kind) else None, promoted))
  }

  /** The closing checks, for a mover of side p: elimination of White, then of Black, which
      leave the side to move and the history alone; otherwise the turn passes, the new key is
      recorded, and threefold repetition or the 100-half-move rule draws, and a side to move
      without moves loses. */
  function Settle(s: GameState, p: Player): GameState {
    if PieceCount(s.board, White) == 0 then s.(gameOver := true, winner := Won(Black))
    else if PieceCount(s.board, Black) == 0 then s.(gameOver := true, winner := Won(White))
    else
      var next := Opposite(p);
      var key := HashOf(next, s.board);
      var s' := s.(active := next, history := s.history + [key]);
      if Occurrences(s'.history, key) >= 3 || s.movesWithoutEvent >= 100 then
        s'.(gameOver := true, winner := Drawn)
      else if |AllMovesOf(s.board, next)| == 0 then
        s'.(gameOver := true, winner := Won(Opposite(next)))
      else s'
  }

  function Mover(s: GameState, m: Move): Player
    requires Playable(s.board, m)
  {
    s.board[m.from.file][m.from.rank].value.owner
  }

  /** The closing checks touch only the side to move, the history and the result. */
  lemma SettleKeeps(c: GameState, p: Player)
    ensures Settle(c, p) == c.(active := Settle(c, p).active, history := Settle(c, p).history,
      gameOver := Settle(c, p).gameOver, winner := Settle(c, p).winner)
  {
  }

  /** The closing checks when both sides still have pieces. */
  lemma SettleContinues(c: GameState, p: Player)
    requires PieceCount(c.board, White) > 0 && PieceCount(c.board, Black) > 0
    ensures var o := Settle(c, p); var key := HashOf(Opposite(p), c.board);
      && o.active == Opposite(p)
      && o.history == c.history + [key]
      && (Occurrences(o.history, key) >= 3 || c.movesWithoutEvent >= 100 ==> o.gameOver && o.winner == Drawn)
      && (Occurrences(o.history, key) < 3 && c.movesWithoutEvent < 100 && AllMovesOf(c.board, Opposite(p)) == [] ==>
            o.gameOver && o.winner == Won(p))
      && (Occurrences(o.history, key) < 3 && c.movesWithoutEvent < 100 && AllMovesOf(c.board, Opposite(p)) != [] ==>
            o.gameOver == c.gameOver && o.winner == c.winner)
  {
  }

  /** Steps 1 to 5: relocate and capture, promote, resolve the mover's marks, re-mark and
      count; what the closing checks start from. */
  function Counted(s: GameState, m: Move): GameState
    requires Playable(s.board, m)
  {
    var (s1, rec) := Relocate(s, m);
    var p := Mover(s, m);
    var deaths := Deaths(s1.board, p);
    var s2 := Lose(s1, p, DeathKinds(deaths)).(board := ResolvedBoard(s1.board, p));
    var event := rec.captured || |deaths| > 0;
    s2.(board := MarkedBoard(s2.board, p),
        movesWithoutEvent := if event then 0 else s.movesWithoutEvent + 1,
        moveCount := s.moveCount + 1)
  }

  /** Steps 1 to 5 leave the side to move, the history and the result alone. */
  lemma CountedKeeps(s: GameState, m: Move)
    requires Playable(s.board, m)
    ensures var c := Counted(s, m);
      c.active == s.active && c.history == s.history && c.gameOver == s.gameOver && c.winner == s.winner
  {
    var (s1, rec) := Relocate(s, m);
    assert s1.active == s.active && s1.history == s.history && s1.gameOver == s.gameOver && s1.winner == s.winner;
  }

  /** What steps 1 to 5 produce: the resolved and re-marked board, the deaths appended to
      the mover's lost-list, and the two counters. */
  lemma CountedParts(s: GameState, m: Move)
    requires Playable(s.board, m)
    ensures var c := Counted(s, m); var (s1, rec) := Relocate(s, m); var p := Mover(s, m);
      var deaths := Deaths(s1.board, p);
      && c.board == MarkedBoard(ResolvedBoard(s1.board, p), p)
      && LostBy(c, p) == LostBy(s1, p) + DeathKinds(deaths)
      && LostBy(c, Opposite(p)) == LostBy(s1, Opposite(p))
      && c.movesWithoutEvent == (if rec.captured || |deaths| > 0 then 0 else s.movesWithoutEvent + 1)
      && c.moveCount == s.moveCount + 1
  {
    var (s1, rec) := Relocate(s, m);
    var p := Mover(s, m);
    var deaths := Deaths(s1.board, p);
    var s2 := Lose(s1, p, DeathKinds(deaths));
    assert Counted(s, m) == s2.(board := MarkedBoard(ResolvedBoard(s1.board, p), p),
      movesWithoutEvent := if rec.captured || |deaths| > 0 then 0 else s.movesWithoutEvent + 1,
      moveCount := s.moveCount + 1);
  }

  /** Steps 1 to 5 taken one at a time add up to `Counted`. */
  lemma CountedSteps(s: GameState, m: Move, s1: GameState, rec: MoveRecord, s3: GameState)
    requires Playable(s.board, m)
    requires (s1, rec) == Relocate(s, m)
    requires var p := Mover(s, m); var deaths := Deaths(s1.board, p);
      s3 == Lose(s1, p, DeathKinds(deaths)).(board := MarkedBoard(ResolvedBoard(s1.board, p), p),
        movesWithoutEvent := if rec.captured || |deaths| > 0 then 0 else s1.movesWithoutEvent + 1,
        moveCount := s1.moveCount + 1)
    ensures s3 == Counted(s, m)
  {
  }

  /** `executeMove(move)` as a whole: steps 1 to 5, then the closing checks. */
  function Apply(s: GameState, m: Move): Outcome
    requires Playable(s.board, m)
  {
    var (s1, rec) := Relocate(s, m);
    var p := Mover(s, m);
    var deaths := Deaths(s1.board, p);
    var marks := NewlyEndangered(ResolvedBoard(s1.board, p), p);
    Outcome(Settle(Counted(s, m), p), rec, deaths, marks)
  }

  /** The parts of `Apply`, each named on its own. */
  lemma ApplyParts(s: GameState, m: Move)
    requires Playable(s.board, m)
    ensures var o := Apply(s, m); var p := Mover(s, m); var b1 := Relocate(s, m).0.board;
      && o.state == Settle(Counted(s, m), p)
      && o.record == Relocate(s, m).1
      && o.deaths == Deaths(b1, p)
      && o.endangered == NewlyEndangered(ResolvedBoard(b1, p), p)
  {
  }

  /** The board right after steps 1 and 2. */
  function Relocated(s: GameState, m: Move): Board
    requires Playable(s.board, m)
  {
    Relocate(s, m).0.board
  }

  // ---------------------------------------------------------------------------
  // What a move does.

  /** The destination receives the mover (a fresh unmarked Orca if a Tuemmler captured),
      the origin is emptied, nothing else on the board changes; a capture is recorded on the
      captured piece's own lost-list and nowhere else. */
  lemma RelocateMovesPiece(s: GameState, m: Move)
    requires Playable(s.board, m) && m.from != m.to
    ensures var (s1, rec) := Relocate(s, m);
      var mover := s.board[m.from.file][m.from.rank].value;
      var target := s.board[m.to.file][m.to.rank];
      && rec.captured == target.Some?
      && rec.promoted == (mover.kind == Tuemmler && target.Some?)
      && s1.board[m.to.file][m.to.rank] == (if rec.promoted then Some(Piece(mover.owner, Orca, false)) else Some(mover))
      && s1.board[m.from.file][m.from.rank].None?
      && (forall f, r {:trigger s.board[f][r]} {:trigger s1.board[f][r]} {:trigger Square(f, r)} :: InBounds(f, r) && Square(f, r) != m.from && Square(f, r) != m.to ==>
            s1.board[f][r] == s.board[f][r])
      && (target.Some? ==>
            rec.capturedKind == Some(target.value.kind) &&
            LostBy(s1, target.value.owner) == LostBy(s, target.value.owner) + [target.value.kind] &&
            LostBy(s1, Opposite(target.value.owner)) == LostBy(s, Opposite(target.value.owner)))
      && (target.None? ==> rec.capturedKind.None? && s1 == s.(board := s1.board))
  {
  }

  /** `moveCount` always grows by one; `movesWithoutEvent` restarts at 0 after a capture or a
      death and grows by one otherwise. */
  lemma ApplyCounters(s: GameState, m: Move)
    requires Playable(s.board, m)
    ensures Apply(s, m).state.moveCount == s.moveCount + 1
    ensures Apply(s, m).state.movesWithoutEvent ==
      if Apply(s, m).record.captured || Apply(s, m).deaths != [] then 0 else s.movesWithoutEvent + 1
  {
    var c, p := Counted(s, m), Mover(s, m);
    ApplyParts(s, m);
    SettleKeeps(c, p);
    CountedParts(s, m);
  }

  /** Elimination is checked first, White before Black, and leaves the side to move and the
      history as they were. */
  lemma ApplyElimination(s: GameState, m: Move)
    requires Playable(s.board, m)
    ensures var o := Apply(s, m).state;
      PieceCount(o.board, White) == 0 ==>
        o.gameOver && o.winner == Won(Black) && o.active == s.active && o.history == s.history
    ensures var o := Apply(s, m).state;
      PieceCount(o.board, White) > 0 && PieceCount(o.board, Black) == 0 ==>
        o.gameOver && o.winner == Won(White) && o.active == s.active && o.history == s.history
  {
    var c, p := Counted(s, m), Mover(s, m);
    assert Apply(s, m).state == Settle(c, p);
    SettleKeeps(c, p);
    CountedKeeps(s, m);
  }

  /** When both sides survive, the turn passes to the mover's opponent, the new key is
      appended, and the game ends exactly on a third occurrence of the key, on the 100th
      half-move without event, or when the new side to move has no moves. */
  lemma ApplyContinues(s: GameState, m: Move)
    requires Playable(s.board, m)
    ensures var o := Apply(s, m).state;
      var next := Opposite(Mover(s, m));
      var key := HashOf(next, o.board);
      PieceCount(o.board, White) > 0 && PieceCount(o.board, Black) > 0 ==>
        && o.active == next
        && o.history == s.history + [key]
        && (Occurrences(o.history, key) >= 3 || o.movesWithoutEvent >= 100 ==> o.gameOver && o.winner == Drawn)
        && (Occurrences(o.history, key) < 3 && o.movesWithoutEvent < 100 && AllMovesOf(o.board, next) == [] ==>
              o.gameOver && o.winner == Won(Mover(s, m)))
        && (Occurrences(o.history, key) < 3 && o.movesWithoutEvent < 100 && AllMovesOf(o.board, next) != [] ==>
              o.gameOver == s.gameOver && o.winner == s.winner)
  {
    var c, p := Counted(s, m), Mover(s, m);
    assert Apply(s, m).state == Settle(c, p);
    SettleKeeps(c, p);
    if PieceCount(c.board, White) > 0 && PieceCount(c.board, Black) > 0 {
      CountedKeeps(s, m);
      SettleContinues(c, p);
    }
  }

  /** The 100-half-move rule fires on the move that reaches 100: a quiet move at 99 with
      both sides still on the board is a draw. */
  lemma QuietMoveAt99Draws(s: GameState, m: Move)
    requires Playable(s.board, m)
    requires s.movesWithoutEvent == 99
    requires !Apply(s, m).record.captured && Apply(s, m).deaths == []
    requires PieceCount(Apply(s, m).state.board, White) > 0 && PieceCount(Apply(s, m).state.board, Black) > 0
    ensures Apply(s, m).state.gameOver && Apply(s, m).state.winner == Drawn
  {
    ApplyCounters(s, m);
  }

  /** When a move leaves both sides without pieces, Black is declared the winner whoever
      moved, because White's count is checked first. */
  lemma BothEliminatedBlackWins(s: GameState, m: Move)
    requires Playable(s.board, m)
    requires PieceCount(Apply(s, m).state.board, White) == 0 && PieceCount(Apply(s, m).state.board, Black) == 0
    ensures Apply(s, m).state.winner == Won(Black)
  {
  }

  // ---------------------------------------------------------------------------
  // Isolation across a move.

  /** After the closing checks the board is the relocated board, resolved and re-marked for
      the mover's side, and the deaths are those of the resolution. */
  lemma ApplyBoard(s: GameState, m: Move)
    requires Playable(s.board, m)
    ensures Apply(s, m).state.board ==
      MarkedBoard(ResolvedBoard(Relocated(s, m), Mover(s, m)), Mover(s, m))
    ensures Apply(s, m).deaths == Deaths(Relocated(s, m), Mover(s, m))
    ensures LostBy(Apply(s, m).state, Mover(s, m)) ==
      LostBy(Relocate(s, m).0, Mover(s, m)) + DeathKinds(Apply(s, m).deaths)
    ensures LostBy(Apply(s, m).state, Opposite(Mover(s, m))) == LostBy(Relocate(s, m).0, Opposite(Mover(s, m)))
  {
    var c, p := Counted(s, m), Mover(s, m);
    ApplyParts(s, m);
    SettleKeeps(c, p);
    CountedParts(s, m);
  }

  /** A marked piece of the mover's side that is still isolated after the relocation dies,
      unless it is its side's last piece: the square is empty afterwards and the death is
      reported. */
  lemma UnrescuedPieceDies(s: GameState, m: Move, file: int, rank: int, k: Kind)
    requires Playable(s.board, m) && InBounds(file, rank)
    requires Relocated(s, m)[file][rank] == Some(Piece(Mover(s, m), k, true))
    requires Isolated(Relocated(s, m), file, rank, Mover(s, m))
    requires PieceCount(Relocated(s, m), Mover(s, m)) > 1
    ensures Death(file, rank, k) in Apply(s, m).deaths
    ensures Apply(s, m).state.board[file][rank].None?
  {
    var b1, p := Relocated(s, m), Mover(s, m);
    ApplyBoard(s, m);
    DeathsMember(b1, p, Death(file, rank, k));
    ResolvedSquare(b1, p, file, rank);
  }

  /** A marked piece of the mover's side with a friendly neighbour after the relocation is
      rescued: it survives and ends the move unmarked. */
  lemma RescueClearsMark(s: GameState, m: Move, file: int, rank: int, k: Kind)
    requires Playable(s.board, m) && InBounds(file, rank)
    requires Relocated(s, m)[file][rank] == Some(Piece(Mover(s, m), k, true))
    requires !Isolated(Relocated(s, m), file, rank, Mover(s, m))
    ensures Apply(s, m).state.board[file][rank] == Some(Piece(Mover(s, m), k, false))
  {
    var b1, p := Relocated(s, m), Mover(s, m);
    var b2 := ResolvedBoard(b1, p);
    ApplyBoard(s, m);
    IsolatedMeansNoFriendlyNeighbour(b1, file, rank, p);
    var g, h :| Adjacent(file, rank, g, h) && Friendly(b1, g, h, p);
    IsolatedMeansNoFriendlyNeighbour(b1, g, h, p);
    assert Adjacent(g, h, file, rank);
    ResolvedSquare(b1, p, g, h);
    forall j | Death(g, h, j) in Deaths(b1, p)
      ensures false
    {
      DeathsMember(b1, p, Death(g, h, j));
    }
    ResolvedSquare(b1, p, file, rank);
    forall j | Death(file, rank, j) in Deaths(b1, p)
      ensures false
    {
      DeathsMember(b1, p, Death(file, rank, j));
    }
    assert Friendly(b2, g, h, p);
    IsolatedMeansNoFriendlyNeighbour(b2, file, rank, p);
    MarkedSquare(b2, p, file, rank);
  }

  /** The last-man exception across a move: when the mover's side is down to one piece or
      none after the relocation, nobody dies and no piece of that side ends the move marked. */
  lemma LastManNeverMarked(s: GameState, m: Move, file: int, rank: int)
    requires Playable(s.board, m) && InBounds(file, rank)
    requires PieceCount(Relocated(s, m), Mover(s, m)) <= 1
    ensures Apply(s, m).deaths == []
    ensures Friendly(Apply(s, m).state.board, file, rank, Mover(s, m)) ==>
      !Apply(s, m).state.board[file][rank].value.endangered
  {
    var b1, p := Relocated(s, m), Mover(s, m);
    var b2 := ResolvedBoard(b1, p);
    ApplyBoard(s, m);
    assert Deaths(b1, p) == [];
    forall f, r {:trigger b1[f][r]} {:trigger b2[f][r]} | InBounds(f, r)
      ensures b2[f][r].Some? == b1[f][r].Some? && (b2[f][r].Some? ==> b2[f][r].value.owner == b1[f][r].value.owner)
    {
      ResolvedSquare(b1, p, f, r);
    }
    PieceCountSameOwners(b1, b2, p);
    MarkedSquare(b2, p, file, rank);
  }

  /** After a move every piece of the mover's side is marked exactly when it is isolated on
      the final board and its side has two or more pieces. */
  lemma MarksMatchIsolation(s: GameState, m: Move, file: int, rank: int)
    requires Playable(s.board, m) && InBounds(file, rank)
    ensures var b := Apply(s, m).state.board;
      Friendly(b, file, rank, Mover(s, m)) ==>
        b[file][rank].value.endangered == (PieceCount(b, Mover(s, m)) > 1 && Isolated(b, file, rank, Mover(s, m)))
  {
    var b1, p := Relocated(s, m), Mover(s, m);
    var b2 := ResolvedBoard(b1, p);
    ApplyBoard(s, m);
    MarkedSameOwners(b2, p);
    PieceCountSameOwners(b2, MarkedBoard(b2, p), p);
    MarkedSquare(b2, p, file, rank);
  }

  /** Resolution and marking touch only the mover's pieces: every other square ends the move
      as the relocation left it. */
  lemma OpponentUntouched(s: GameState, m: Move, file: int, rank: int)
    requires Playable(s.board, m) && InBounds(file, rank)
    requires !Friendly(Relocated(s, m), file, rank, Mover(s, m))
    ensures Apply(s, m).state.board[file][rank] == Relocated(s, m)[file][rank]
  {
    var b1, p := Relocated(s, m), Mover(s, m);
    ApplyBoard(s, m);
    ResolvedSquare(b1, p, file, rank);
    MarkedSquare(ResolvedBoard(b1, p), p, file, rank);
  }

  // ---------------------------------------------------------------------------
  // `_notation(...)`

  predicate DeathsOnBoard(ds: seq<Death>) {
    forall i :: 0 <= i < |ds| ==> InBounds(ds[i].file, ds[i].rank)
  }

  predicate SquaresOnBoard(sqs: seq<Square>) {
    forall i :: 0 <= i < |sqs| ==> InBounds(sqs[i].file, sqs[i].rank)
  }

  /** " †" and the square, for each death in order. */
  function DeathTags(ds: seq<Death>): string
    requires DeathsOnBoard(ds)
  {
    if ds == [] then ""
    else
      var d := ds[|ds| - 1];
      DeathTags(ds[..|ds| - 1]) + " \U{2020}" + CoordStr(d.file, d.rank)
  }

  /** " !" and the square, for each newly marked piece in order. */
  function MarkTags(sqs: seq<Square>): string
    requires SquaresOnBoard(sqs)
  {
    if sqs == [] then ""
    else
      var q := sqs[|sqs| - 1];
      MarkTags(sqs[..|sqs| - 1]) + " !" + CoordStr(q.file, q.rank)
  }

  /** The move-log text of a move: kind letter, origin, 'x' for a capture or '-', destination,
      "=O" after a promotion, then the deaths and the newly marked pieces. */
  function NotationOf(k: Kind, m: Move, captured: bool, promoted: bool, deaths: seq<Death>, marks: seq<Square>): string
    requires InBounds(m.from.file, m.from.rank) && InBounds(m.to.file, m.to.rank)
    requires DeathsOnBoard(deaths) && SquaresOnBoard(marks)
  {
    [Letter(k)] + CoordStr(m.from.file, m.from.rank) + (if captured then "x" else "-") +
      CoordStr(m.to.file, m.to.rank) + (if promoted then "=O" else "") + DeathTags(deaths) + MarkTags(marks)
  }

  lemma {:induction false} DeathTagsLength(ds: seq<Death>)
    requires DeathsOnBoard(ds)
    ensures |DeathTags(ds)| == 4 * |ds|
  {
    if ds != [] {
      DeathTagsLength(ds[..|ds| - 1]);
    }
  }

  lemma {:induction false} MarkTagsLength(sqs: seq<Square>)
    requires SquaresOnBoard(sqs)
    ensures |MarkTags(sqs)| == 4 * |sqs|
  {
    if sqs != [] {
      MarkTagsLength(sqs[..|sqs| - 1]);
    }
  }

  /** Death i of the list is written as " †" and its square at characters 4i to 4i + 4. */
  lemma {:induction false} DeathTagsAt(ds: seq<Death>, i: int)
    requires DeathsOnBoard(ds) && 0 <= i < |ds|
    ensures |DeathTags(ds)| == 4 * |ds|
    ensures DeathTags(ds)[4 * i..4 * i + 4] == " \U{2020}" + CoordStr(ds[i].file, ds[i].rank)
  {
    var front := ds[..|ds| - 1];
    DeathTagsLength(ds);
    DeathTagsLength(front);
    if i < |ds| - 1 {
      DeathTagsAt(front, i);
      assert DeathTags(ds)[..4 * |front|] == DeathTags(front);
    }
  }

  /** Newly marked square i is written as " !" and the square at characters 4i to 4i + 4. */
  lemma {:induction false} MarkTagsAt(sqs: seq<Square>, i: int)
    requires SquaresOnBoard(sqs) && 0 <= i < |sqs|
    ensures |MarkTags(sqs)| == 4 * |sqs|
    ensures MarkTags(sqs)[4 * i..4 * i + 4] == " !" + CoordStr(sqs[i].file, sqs[i].rank)
  {
    var front := sqs[..|sqs| - 1];
    MarkTagsLength(sqs);
    MarkTagsLength(front);
    if i < |sqs| - 1 {
      MarkTagsAt(front, i);
      assert MarkTags(sqs)[..4 * |front|] == MarkTags(front);
    }
  }

  /** Four characters at position j of a text: their first two and last two. */
  lemma SplitFour(s: string, j: nat, tag: string, c: string)
    requires j + 4 <= |s| && |tag| == 2 && |c| == 2 && s[j..j + 4] == tag + c
    ensures s[j..j + 2] == tag && s[j + 2..j + 4] == c
  {
    assert s[j..j + 2] == (tag + c)[..2];
    assert s[j + 2..j + 4] == (tag + c)[2..];
  }

  /** Entry i of a list of four-character tags t, found at position `at` of a text. */
  lemma TagAt(s: string, at: nat, t: string, n: nat, i: nat, tag: string, c: string)
    requires at + 4 * n <= |s| && i < n && |tag| == 2 && |c| == 2
    requires s[at..at + 4 * n] == t && t[4 * i..4 * i + 4] == tag + c
    ensures s[at + 4 * i..at + 4 * i + 2] == tag && s[at + 4 * i + 2..at + 4 * i + 4] == c
  {
    var j := at + 4 * i;
    forall q | j <= q < j + 4
      ensures s[q] == t[q - at]
    {
      assert s[at..at + 4 * n][q - at] == s[q];
    }
    assert s[j..j + 4] == t[4 * i..4 * i + 4];
    SplitFour(s, j, tag, c);
  }

  /** The tag of death i, found at position `at` + 4i of a text. */
  lemma DeathReadBackAt(s: string, at: nat, deaths: seq<Death>, i: int)
    requires DeathsOnBoard(deaths) && at + 4 * |deaths| <= |s| && 0 <= i < |deaths|
    requires s[at..at + 4 * |deaths|] == DeathTags(deaths)
    ensures s[at + 4 * i..at + 4 * i + 2] == " \U{2020}"
    ensures s[at + 4 * i + 2..at + 4 * i + 4] == CoordStr(deaths[i].file, deaths[i].rank)
  {
    DeathTagsAt(deaths, i);
    TagAt(s, at, DeathTags(deaths), |deaths|, i, " \U{2020}", CoordStr(deaths[i].file, deaths[i].rank));
  }

  /** The death tags, found at position `at` of a text, read back death by death. */
  lemma DeathsReadBack(s: string, at: nat, deaths: seq<Death>)
    requires DeathsOnBoard(deaths) && at + 4 * |deaths| <= |s|
    requires s[at..at + 4 * |deaths|] == DeathTags(deaths)
    ensures forall i :: 0 <= i < |deaths| ==>
      s[at + 4 * i..at + 4 * i + 2] == " \U{2020}" &&
      ParseCoord(s[at + 4 * i + 2..at + 4 * i + 4]) == Some(Square(deaths[i].file, deaths[i].rank))
  {
    forall i | 0 <= i < |deaths|
      ensures s[at + 4 * i..at + 4 * i + 2] == " \U{2020}"
      ensures ParseCoord(s[at + 4 * i + 2..at + 4 * i + 4]) == Some(Square(deaths[i].file, deaths[i].rank))
    {
      DeathReadBackAt(s, at, deaths, i);
    }
  }

  /** The tag of marked square i, found at position `at` + 4i of a text. */
  lemma MarkReadBackAt(s: string, at: nat, marks: seq<Square>, i: int)
    requires SquaresOnBoard(marks) && at + 4 * |marks| <= |s| && 0 <= i < |marks|
    requires s[at..at + 4 * |marks|] == MarkTags(marks)
    ensures s[at + 4 * i..at + 4 * i + 2] == " !"
    ensures s[at + 4 * i + 2..at + 4 * i + 4] == CoordStr(marks[i].file, marks[i].rank)
  {
    MarkTagsAt(marks, i);
    TagAt(s, at, MarkTags(marks), |marks|, i, " !", CoordStr(marks[i].file, marks[i].rank));
  }

  /** The mark tags, found at position `at` of a text, read back square by square. */
  lemma MarksReadBack(s: string, at: nat, marks: seq<Square>)
    requires SquaresOnBoard(marks) && at + 4 * |marks| <= |s|
    requires s[at..at + 4 * |marks|] == MarkTags(marks)
    ensures forall i :: 0 <= i < |marks| ==>
      s[at + 4 * i..at + 4 * i + 2] == " !" &&
      ParseCoord(s[at + 4 * i + 2..at + 4 * i + 4]) == Some(Square(marks[i].file, marks[i].rank))
  {
    forall i | 0 <= i < |marks|
      ensures s[at + 4 * i..at + 4 * i + 2] == " !"
      ensures ParseCoord(s[at + 4 * i + 2..at + 4 * i + 4]) == Some(Square(marks[i].file, marks[i].rank))
    {
      MarkReadBackAt(s, at, marks, i);
    }
  }

  /** After the six characters of the move and the promotion suffix come the death tags,
      then the mark tags. */
  lemma NotationTail(k: Kind, m: Move, captured: bool, promoted: bool, deaths: seq<Death>, marks: seq<Square>)
    requires InBounds(m.from.file, m.from.rank) && InBounds(m.to.file, m.to.rank)
    requires DeathsOnBoard(deaths) && SquaresOnBoard(marks)
    ensures var s := NotationOf(k, m, captured, promoted, deaths, marks);
      var at := 6 + (if promoted then 2 else 0);
      && |s| == at + 4 * |deaths| + 4 * |marks|
      && s[at..at + 4 * |deaths|] == DeathTags(deaths)
      && s[at + 4 * |deaths|..at + 4 * |deaths| + 4 * |marks|] == MarkTags(marks)
  {
    DeathTagsLength(deaths);
    MarkTagsLength(marks);
    var head := [Letter(k)] + CoordStr(m.from.file, m.from.rank) + (if captured then "x" else "-") +
      CoordStr(m.to.file, m.to.rank) + (if promoted then "=O" else "");
    var ds, ms := DeathTags(deaths), MarkTags(marks);
    var s := head + ds + ms;
    assert s == NotationOf(k, m, captured, promoted, deaths, marks);
    assert s[|head|..|head| + |ds|] == ds;
    assert s[|head| + |ds|..|head| + |ds| + |ms|] == ms;
  }

  /** The first six characters of the notation give the kind, both squares and whether the
      move captured; "=O" follows for a promotion. */
  lemma NotationHead(k: Kind, m: Move, captured: bool, promoted: bool, deaths: seq<Death>, marks: seq<Square>)
    requires InBounds(m.from.file, m.from.rank) && InBounds(m.to.file, m.to.rank)
    requires DeathsOnBoard(deaths) && SquaresOnBoard(marks)
    ensures var s := NotationOf(k, m, captured, promoted, deaths, marks);
      && |s| == 6 + (if promoted then 2 else 0) + 4 * |deaths| + 4 * |marks|
      && s[0] == Letter(k)
      && ParseCoord(s[1..3]) == Some(m.from)
      && (s[3] == 'x' <==> captured)
      && ParseCoord(s[4..6]) == Some(m.to)
      && (promoted ==> s[6..8] == "=O")
  {
    var s := NotationOf(k, m, captured, promoted, deaths, marks);
    DeathTagsLength(deaths);
    MarkTagsLength(marks);
    assert s[1..3] == CoordStr(m.from.file, m.from.rank);
    assert s[4..6] == CoordStr(m.to.file, m.to.rank);
  }

  /** After the move and the promotion suffix, each death reads back as " †" and its square. */
  lemma NotationDeaths(k: Kind, m: Move, captured: bool, promoted: bool, deaths: seq<Death>, marks: seq<Square>)
    requires InBounds(m.from.file, m.from.rank) && InBounds(m.to.file, m.to.rank)
    requires DeathsOnBoard(deaths) && SquaresOnBoard(marks)
    ensures |NotationOf(k, m, captured, promoted, deaths, marks)| == 6 + (if promoted then 2 else 0) + 4 * |deaths| + 4 * |marks|
    ensures var s := NotationOf(k, m, captured, promoted, deaths, marks);
      var at := 6 + (if promoted then 2 else 0);
      forall i :: 0 <= i < |deaths| ==>
        s[at + 4 * i..at + 4 * i + 2] == " \U{2020}" &&
        ParseCoord(s[at + 4 * i + 2..at + 4 * i + 4]) == Some(Square(deaths[i].file, deaths[i].rank))

  {
    var s := NotationOf(k, m, captured, promoted, deaths, marks);
    NotationTail(k, m, captured, promoted, deaths, marks);
    DeathsReadBack(s, 6 + (if promoted then 2 else 0), deaths);
  }

  /** After the deaths, each newly marked piece reads back as " !" and its square. */
  lemma NotationMarks(k: Kind, m: Move, captured: bool, promoted: bool, deaths: seq<Death>, marks: seq<Square>)
    requires InBounds(m.from.file, m.from.rank) && InBounds(m.to.file, m.to.rank)
    requires DeathsOnBoard(deaths) && SquaresOnBoard(marks)
    ensures |NotationOf(k, m, captured, promoted, deaths, marks)| == 6 + (if promoted then 2 else 0) + 4 * |deaths| + 4 * |marks|
    ensures var s := NotationOf(k, m, captured, promoted, deaths, marks);
      var at := 6 + (if promoted then 2 else 0) + 4 * |deaths|;
      forall i :: 0 <= i < |marks| ==>
        s[at + 4 * i..at + 4 * i + 2] == " !" &&
        ParseCoord(s[at + 4 * i + 2..at + 4 * i + 4]) == Some(Square(marks[i].file, marks[i].rank))
  {
    var s := NotationOf(k, m, captured, promoted, deaths, marks);
    NotationTail(k, m, captured, promoted, deaths, marks);
    MarksReadBack(s, 6 + (if promoted then 2 else 0) + 4 * |deaths|, marks);
  }

  /** The notation reads back: its first six characters give the kind, both squares and
      whether the move captured, "=O" follows exactly for a promotion, then each death as
      " †" and its square and each new mark as " !" and its square, in order. */
  lemma NotationReadsBack(k: Kind, m: Move, captured: bool, promoted: bool, deaths: seq<Death>, marks: seq<Square>)
    requires InBounds(m.from.file, m.from.rank) && InBounds(m.to.file, m.to.rank)
    requires DeathsOnBoard(deaths) && SquaresOnBoard(marks)
    ensures var s := NotationOf(k, m, captured, promoted, deaths, marks);
      && |s| == 6 + (if promoted then 2 else 0) + 4 * |deaths| + 4 * |marks|
      && s[0] == Letter(k)
      && ParseCoord(s[1..3]) == Some(m.from)
      && (s[3] == 'x' <==> captured)
      && ParseCoord(s[4..6]) == Some(m.to)
      && (promoted ==> s[6..8] == "=O")
    ensures var s := NotationOf(k, m, captured, promoted, deaths, marks);
      var at := 6 + (if promoted then 2 else 0);
      forall i :: 0 <= i < |deaths| ==>
        s[at + 4 * i..at + 4 * i + 2] == " \U{2020}" &&
        ParseCoord(s[at + 4 * i + 2..at + 4 * i + 4]) == Some(Square(deaths[i].file, deaths[i].rank))
    ensures var s := NotationOf(k, m, captured, promoted, deaths, marks);
      var at := 6 + (if promoted then 2 else 0) + 4 * |deaths|;
      forall i :: 0 <= i < |marks| ==>
        s[at + 4 * i..at + 4 * i + 2] == " !" &&
        ParseCoord(s[at + 4 * i + 2..at + 4 * i + 4]) == Some(Square(marks[i].file, marks[i].rank))
  {
    NotationHead(k, m, captured, promoted, deaths, marks);
    NotationDeaths(k, m, captured, promoted, deaths, marks);
    NotationMarks(k, m, captured, promoted, deaths, marks);
  }



}
