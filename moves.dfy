/** Movement tables and the move generator: steps, the Tuemmler's forward step,
    sliding rays and Springer leaps. */
module TethariMoves {
  import opened TethariBoard

  datatype Move = Move(from: Square, to: Square)

  /** Fixed single-step offsets per kind; "forward" flips with the side. Springer leaps are
      listed here too: a step offset is checked only at its landing square. */
  function StepDeltas(k: Kind, p: Player): seq<(int, int)>
  {
    var fwd := Forward(p);
    match k
    case Hauptmann => [(-1, -1), (0, -1), (1, -1), (-1, 0), (1, 0), (-1, 1), (0, 1), (1, 1)]
    case Waechter => [(0, fwd), (0, -fwd), (-1, 0), (1, 0), (-1, -fwd), (1, -fwd)]
    case Klinge => [(0, fwd), (-1, fwd), (1, fwd), (-1, -fwd), (1, -fwd)]
    case Springer => [(-2, -1), (-2, 1), (-1, -2), (-1, 2), (1, -2), (1, 2), (2, -1), (2, 1)]
    case Orca => [(-1, -1), (-1, 1), (1, -1), (1, 1)]
    case _ => []
  }

  /** No step offset stays on the square; the Turm and the Tuemmler have none. */
  lemma StepDeltasFacts(k: Kind, p: Player)
    ensures (0, 0) !in StepDeltas(k, p)
    ensures k == Turm || k == Tuemmler ==> StepDeltas(k, p) == []
  {
  }

  /** Movement is colour-symmetric: Black's offsets are White's with the rank reversed. */
  lemma StepDeltasMirror(k: Kind, d: (int, int))
    ensures d in StepDeltas(k, Black) <==> (d.0, -d.1) in StepDeltas(k, White)
  {
  }

  predicate UnitOrth(df: int, dr: int) {
    (df == 0 && (dr == 1 || dr == -1)) || (dr == 0 && (df == 1 || df == -1))
  }

  /** Directions along which a kind slides until blocked. */
  function SlideDirections(k: Kind): (ds: seq<(int, int)>)
    ensures forall i :: 0 <= i < |ds| ==> UnitOrth(ds[i].0, ds[i].1)
    ensures k == Tuemmler ==> ds == [(1, 0), (-1, 0)]
    ensures k != Turm && k != Orca && k != Tuemmler ==> ds == []
  {
    match k
    case Turm => [(0, 1), (0, -1), (1, 0), (-1, 0)]
    case Orca => [(0, 1), (0, -1), (1, 0), (-1, 0)]
    case Tuemmler => [(1, 0), (-1, 0)]
    case _ => []
  }

  /** A square a piece of side p may land on: in bounds and not holding a piece of its own side. */
  predicate CanLand(b: Board, p: Player, file: int, rank: int) {
    InBounds(file, rank) && (b[file][rank].None? || b[file][rank].value.owner != p)
  }

  /** The step loop of `movesFor` over a list of offsets, in list order. */
  function StepMoves(b: Board, file: int, rank: int, p: Player, ds: seq<(int, int)>): seq<Move>
  {
    if ds == [] then []
    else
      var rest := StepMoves(b, file, rank, p, ds[..|ds| - 1]);
      var d := ds[|ds| - 1];
      if CanLand(b, p, file + d.0, rank + d.1) then
        rest + [Move(Square(file, rank), Square(file + d.0, rank + d.1))]
      else rest
  }

  /** A step move depends only on its offset and the landing square, never on squares in between. */
  lemma {:induction false} StepMovesMember(b: Board, file: int, rank: int, p: Player, ds: seq<(int, int)>, m: Move)
    ensures m in StepMoves(b, file, rank, p, ds) <==>
      m.from == Square(file, rank) && (m.to.file - file, m.to.rank - rank) in ds &&
      CanLand(b, p, m.to.file, m.to.rank)
  {
    if ds != [] {
      StepMovesMember(b, file, rank, p, ds[..|ds| - 1], m);
      assert ds == ds[..|ds| - 1] + [ds[|ds| - 1]];
    }
  }

  /** The Tuemmler's one square forward. */
  function PawnStep(b: Board, file: int, rank: int, p: Player): seq<Move> {
    var toRank := rank + Forward(p);
    if CanLand(b, p, file, toRank) then [Move(Square(file, rank), Square(file, toRank))] else []
  }

  /** Squares left before the edge when moving by d from x. */
  function RoomAhead(d: int, x: int): int {
    if d == 1 then Size - 1 - x else if d == -1 then x else 0
  }

  /** A step along a ray from an in-bounds square leaves less room ahead. */
  lemma RayShrinks(df: int, dr: int, tf: int, tr: int)
    requires UnitOrth(df, dr) && InBounds(tf, tr)
    ensures 0 <= RoomAhead(df, tf) + RoomAhead(dr, tr)
    ensures RoomAhead(df, tf + df) + RoomAhead(dr, tr + dr) < RoomAhead(df, tf) + RoomAhead(dr, tr)
  {
  }

  /** The inner `while` of `movesFor`: walk from (tf, tr) in direction (df, dr), collecting
      empty squares, then the first occupied square if it holds an enemy, and stop there. */
  function Ray(b: Board, file: int, rank: int, p: Player, df: int, dr: int, tf: int, tr: int): seq<Move>
    requires UnitOrth(df, dr)
    decreases RoomAhead(df, tf) + RoomAhead(dr, tr)
  {
    if !InBounds(tf, tr) then []
    else if b[tf][tr].None? then
      [Move(Square(file, rank), Square(tf, tr))] + Ray(b, file, rank, p, df, dr, tf + df, tr + dr)
    else if b[tf][tr].value.owner != p then [Move(Square(file, rank), Square(tf, tr))]
    else []
  }

  /** The slide loop of `movesFor` over a list of directions. */
  function SlideMoves(b: Board, file: int, rank: int, p: Player, dirs: seq<(int, int)>): seq<Move>
    requires forall i :: 0 <= i < |dirs| ==> UnitOrth(dirs[i].0, dirs[i].1)
  {
    if dirs == [] then []
    else
      var d := dirs[|dirs| - 1];
      SlideMoves(b, file, rank, p, dirs[..|dirs| - 1]) + Ray(b, file, rank, p, d.0, d.1, file + d.0, rank + d.1)
  }

  /** `movesFor(file, rank)`: steps, then the Tuemmler forward step, then slides. */
  function MovesFrom(b: Board, file: int, rank: int): seq<Move>
    requires InBounds(file, rank)
  {
    match b[file][rank]
    case None => []
    case Some(pc) =>
      StepMoves(b, file, rank, pc.owner, StepDeltas(pc.kind, pc.owner))
      + (if pc.kind == Tuemmler then PawnStep(b, file, rank, pc.owner) else [])
      + SlideMoves(b, file, rank, pc.owner, SlideDirections(pc.kind))
  }

  // ---------------------------------------------------------------------------
  // Rays stop at the first occupied square.

  /** (x, y) lies strictly further than (af, ar) along direction (df, dr). */
  predicate Ahead(df: int, dr: int, af: int, ar: int, x: int, y: int) {
    (if df == 0 then x == af else if df > 0 then x > af else x < af) &&
    (if dr == 0 then y == ar else if dr > 0 then y > ar else y < ar)
  }

  /** Every square strictly between (af, ar) and (tf, tr) along the direction is empty. */
  ghost predicate ClearBetween(b: Board, df: int, dr: int, af: int, ar: int, tf: int, tr: int) {
    forall x, y {:trigger b[x][y]} {:trigger Ahead(df, dr, x, y, tf, tr)} {:trigger Ahead(df, dr, af, ar, x, y)} :: InBounds(x, y) && Ahead(df, dr, af, ar, x, y) && Ahead(df, dr, x, y, tf, tr) ==> b[x][y].None?
  }

  /** (x, y) is (af, ar) itself or lies further along the direction. */
  predicate AtOrAhead(df: int, dr: int, af: int, ar: int, x: int, y: int) {
    (x == af && y == ar) || Ahead(df, dr, af, ar, x, y)
  }

  lemma {:induction false} RayMember(b: Board, file: int, rank: int, p: Player, df: int, dr: int, tf: int, tr: int, m: Move)
    requires InBounds(file, rank) && UnitOrth(df, dr)
    requires Ahead(df, dr, file, rank, tf, tr)
    requires ClearBetween(b, df, dr, file, rank, tf, tr)
    ensures m in Ray(b, file, rank, p, df, dr, tf, tr) <==>
      m.from == Square(file, rank) && AtOrAhead(df, dr, tf, tr, m.to.file, m.to.rank) &&
      CanLand(b, p, m.to.file, m.to.rank) && ClearBetween(b, df, dr, file, rank, m.to.file, m.to.rank)
    decreases RoomAhead(df, tf) + RoomAhead(dr, tr)
  {
    var t := m.to;
    if InBounds(tf, tr) {
      if b[tf][tr].None? {
        assert ClearBetween(b, df, dr, file, rank, tf + df, tr + dr);
        RayMember(b, file, rank, p, df, dr, tf + df, tr + dr, m);
        assert AtOrAhead(df, dr, tf + df, tr + dr, t.file, t.rank) <==> Ahead(df, dr, tf, tr, t.file, t.rank);
      } else {
        var c := b[tf][tr];
        assert ClearBetween(b, df, dr, file, rank, t.file, t.rank) && Ahead(df, dr, tf, tr, t.file, t.rank) ==> c.None?;
      }
    }
  }

  /** A slide reaches exactly the squares along its direction up to and including the first
      occupied one, and that one only when it holds an enemy piece. */
  lemma SlideStopsAtFirstPiece(b: Board, file: int, rank: int, p: Player, df: int, dr: int, m: Move)
    requires InBounds(file, rank) && UnitOrth(df, dr)
    ensures m in Ray(b, file, rank, p, df, dr, file + df, rank + dr) <==>
      m.from == Square(file, rank) && Ahead(df, dr, file, rank, m.to.file, m.to.rank) &&
      CanLand(b, p, m.to.file, m.to.rank) && ClearBetween(b, df, dr, file, rank, m.to.file, m.to.rank)
  {
    RayMember(b, file, rank, p, df, dr, file + df, rank + dr, m);
    assert AtOrAhead(df, dr, file + df, rank + dr, m.to.file, m.to.rank) <==> Ahead(df, dr, file, rank, m.to.file, m.to.rank);
  }

  /** Target t is reached from (file, rank) by an unobstructed slide in direction d. */
  ghost predicate SlideReaches(b: Board, file: int, rank: int, d: (int, int), t: Square) {
    Ahead(d.0, d.1, file, rank, t.file, t.rank) && ClearBetween(b, d.0, d.1, file, rank, t.file, t.rank)
  }

  lemma {:induction false} SlideMovesMember(b: Board, file: int, rank: int, p: Player, dirs: seq<(int, int)>, m: Move)
    requires InBounds(file, rank)
    requires forall i :: 0 <= i < |dirs| ==> UnitOrth(dirs[i].0, dirs[i].1)
    ensures m in SlideMoves(b, file, rank, p, dirs) <==>
      m.from == Square(file, rank) && CanLand(b, p, m.to.file, m.to.rank) &&
      exists d :: d in dirs && SlideReaches(b, file, rank, d, m.to)
  {
    if dirs != [] {
      var n := |dirs| - 1;
      var d := dirs[n];
      SlideMovesMember(b, file, rank, p, dirs[..n], m);
      SlideStopsAtFirstPiece(b, file, rank, p, d.0, d.1, m);
      SlideMovesSnoc(b, file, rank, p, dirs, m);
      SlideReachesSnoc(b, file, rank, dirs, m.to);
    }
  }

  lemma SlideMovesSnoc(b: Board, file: int, rank: int, p: Player, dirs: seq<(int, int)>, m: Move)
    requires dirs != []
    requires forall i :: 0 <= i < |dirs| ==> UnitOrth(dirs[i].0, dirs[i].1)
    ensures var d := dirs[|dirs| - 1];
      m in SlideMoves(b, file, rank, p, dirs) <==>
        m in SlideMoves(b, file, rank, p, dirs[..|dirs| - 1]) || m in Ray(b, file, rank, p, d.0, d.1, file + d.0, rank + d.1)
  {
  }

  lemma SlideReachesSnoc(b: Board, file: int, rank: int, dirs: seq<(int, int)>, t: Square)
    requires dirs != []
    ensures (exists e :: e in dirs && SlideReaches(b, file, rank, e, t)) <==>
      (exists e :: e in dirs[..|dirs| - 1] && SlideReaches(b, file, rank, e, t)) ||
      SlideReaches(b, file, rank, dirs[|dirs| - 1], t)
  {
    var front, d := dirs[..|dirs| - 1], dirs[|dirs| - 1];
    assert dirs == front + [d];
    if e :| e in dirs && SlideReaches(b, file, rank, e, t) {
      if e != d {
        assert e in front;
      }
    }
    if e :| e in front && SlideReaches(b, file, rank, e, t) {
      assert e in dirs;
    }
    assert d in dirs;
  }

  // ---------------------------------------------------------------------------
  // What `movesFor` returns.

  /** The full movement rule: a move from an occupied square lands on a square the piece may
      land on, reached by one of its step offsets, by the Tuemmler's forward step, or by an
      unobstructed slide. An empty square has no moves. */
  lemma MovesFromMember(b: Board, file: int, rank: int, m: Move)
    requires InBounds(file, rank)
    ensures b[file][rank].None? ==> MovesFrom(b, file, rank) == []
    ensures b[file][rank].Some? ==> var pc := b[file][rank].value;
      (m in MovesFrom(b, file, rank) <==>
        m.from == Square(file, rank) && CanLand(b, pc.owner, m.to.file, m.to.rank) &&
        ((m.to.file - file, m.to.rank - rank) in StepDeltas(pc.kind, pc.owner) ||
         (pc.kind == Tuemmler && m.to == Square(file, rank + Forward(pc.owner))) ||
         exists d :: d in SlideDirections(pc.kind) && SlideReaches(b, file, rank, d, m.to)))
  {
    if b[file][rank].Some? {
      var pc := b[file][rank].value;
      StepMovesMember(b, file, rank, pc.owner, StepDeltas(pc.kind, pc.owner), m);
      SlideMovesMember(b, file, rank, pc.owner, SlideDirections(pc.kind), m);
    }
  }

  /** Every generated move starts at the given square, leaves it, lands in bounds and never on
      a piece of the mover's side. */
  lemma MovesFromSound(b: Board, file: int, rank: int, m: Move)
    requires InBounds(file, rank)
    requires m in MovesFrom(b, file, rank)
    ensures b[file][rank].Some?
    ensures m.from == Square(file, rank) && m.to != m.from
    ensures CanLand(b, b[file][rank].value.owner, m.to.file, m.to.rank)
  {
    MovesFromMember(b, file, rank, m);
    var pc := b[file][rank].value;
    StepDeltasFacts(pc.kind, pc.owner);
    assert forall d :: d in SlideDirections(pc.kind) ==> !SlideReaches(b, file, rank, d, m.from);
  }

  /** A Springer's moves are exactly the in-bounds L-shaped leaps not landing on a friend,
      whatever stands on the squares it passes. */
  lemma SpringerLeapsOver(b: Board, file: int, rank: int, m: Move)
    requires InBounds(file, rank) && b[file][rank].Some? && b[file][rank].value.kind == Springer
    ensures m in MovesFrom(b, file, rank) <==>
      m.from == Square(file, rank) && CanLand(b, b[file][rank].value.owner, m.to.file, m.to.rank) &&
      (m.to.file - file, m.to.rank - rank) in [(-2, -1), (-2, 1), (-1, -2), (-1, 2), (1, -2), (1, 2), (2, -1), (2, 1)]
  {
    MovesFromMember(b, file, rank, m);
  }

  // ---------------------------------------------------------------------------
  // `allMoves(player)`.

  function AllMovesUpTo(b: Board, p: Player, n: nat): seq<Move>
    requires n <= Size * Size
  {
    if n == 0 then []
    else
      var sq := SquareAt(n - 1);
      IndexOfSquareAt(n - 1);
      AllMovesUpTo(b, p, n - 1) + (if Friendly(b, sq.file, sq.rank, p) then MovesFrom(b, sq.file, sq.rank) else [])
  }

  /** Scanning one more square appends the moves of the piece standing there, if it is p's. */
  lemma AllMovesUpToStep(b: Board, p: Player, file: int, rank: int)
    requires InBounds(file, rank)
    ensures Index(file, rank) < Size * Size
    ensures AllMovesUpTo(b, p, Index(file, rank) + 1) ==
      AllMovesUpTo(b, p, Index(file, rank)) + (if Friendly(b, file, rank, p) then MovesFrom(b, file, rank) else [])
  {
    IndexStep(file, rank);
    SquareAtIndex(file, rank);
  }

  function AllMovesOf(b: Board, p: Player): seq<Move> {
    AllMovesUpTo(b, p, Size * Size)
  }

  lemma {:induction false} AllMovesUpToMember(b: Board, p: Player, n: nat, m: Move)
    requires n <= Size * Size
    ensures m in AllMovesUpTo(b, p, n) <==>
      InBounds(m.from.file, m.from.rank) && Index(m.from.file, m.from.rank) < n &&
      Friendly(b, m.from.file, m.from.rank, p) && m in MovesFrom(b, m.from.file, m.from.rank)
  {
    if n > 0 {
      AllMovesUpToMember(b, p, n - 1, m);
      var sq := SquareAt(n - 1);
      AllMovesUpToSnoc(b, p, n, m);
      if Friendly(b, sq.file, sq.rank, p) && m in MovesFrom(b, sq.file, sq.rank) {
        MovesFromSound(b, sq.file, sq.rank, m);
      }
      if InBounds(m.from.file, m.from.rank) && Index(m.from.file, m.from.rank) == n - 1 {
        SquareAtIndex(m.from.file, m.from.rank);
      }
    }
  }

  /** Scanning one more square appends that square's moves when it holds a p piece. */
  lemma AllMovesUpToSnoc(b: Board, p: Player, n: nat, m: Move)
    requires 0 < n <= Size * Size
    ensures InBounds(SquareAt(n - 1).file, SquareAt(n - 1).rank)
    ensures Index(SquareAt(n - 1).file, SquareAt(n - 1).rank) == n - 1
    ensures var sq := SquareAt(n - 1);
      m in AllMovesUpTo(b, p, n) <==>
        m in AllMovesUpTo(b, p, n - 1) || (Friendly(b, sq.file, sq.rank, p) && m in MovesFrom(b, sq.file, sq.rank))
  {
    IndexOfSquareAt(n - 1);
  }

  /** `allMoves(player)` holds exactly the moves `movesFor` yields from squares of that side. */
  lemma AllMovesMember(b: Board, p: Player, m: Move)
    ensures m in AllMovesOf(b, p) <==>
      Friendly(b, m.from.file, m.from.rank, p) && m in MovesFrom(b, m.from.file, m.from.rank)
  {
    AllMovesUpToMember(b, p, Size * Size, m);
  }

  /** What move execution needs of a move: both squares on the board and a piece on the
      origin (move execution reads the mover's side from it). */
  predicate Playable(b: Board, m: Move) {
    InBounds(m.from.file, m.from.rank) && InBounds(m.to.file, m.to.rank) &&
    b[m.from.file][m.from.rank].Some?
  }

  /** Every move of `allMoves(player)` is a legal move of a p piece onto a non-friendly square. */
  lemma AllMovesPlayable(b: Board, p: Player, m: Move)
    requires m in AllMovesOf(b, p)
    ensures Playable(b, m) && m.from != m.to
    ensures b[m.from.file][m.from.rank].value.owner == p
    ensures CanLand(b, p, m.to.file, m.to.rank)
  {
    AllMovesMember(b, p, m);
    MovesFromSound(b, m.from.file, m.from.rank, m);
  }
}
