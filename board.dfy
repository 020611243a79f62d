/** Board, pieces and coordinates of the 6x6 Tethari game. */
module TethariBoard {

  datatype Option<T> = None | Some(value: T)

  datatype Player = White | Black

  /** The seven piece kinds, named after their one-letter codes H, W, K, S, T, P and O.
      Tuemmler (P) is the ranged pawn-like piece, Orca (O) its promoted form. */
  datatype Kind = Hauptmann | Waechter | Klinge | Springer | Turm | Tuemmler | Orca

  /** A piece is a value: owner, kind, and the "endangered" mark set when it was isolated
      at the end of its own side's last move. */
  datatype Piece = Piece(owner: Player, kind: Kind, endangered: bool)

  type Cell = Option<Piece>

  const Size := 6
  const Files := "abcdef"

  predicate IsGrid(b: seq<seq<Cell>>) {
    |b| == Size && forall f :: 0 <= f < Size ==> |b[f]| == Size
  }

  function EmptyGrid(): (b: seq<seq<Cell>>)
    ensures IsGrid(b)
  {
    seq(Size, _ => seq(Size, _ => None))
  }

  /** board[file][rank], indexed as in the source: the outer index is the file (a..f),
      the inner one the rank (1..6). */
  type Board = b: seq<seq<Cell>> | IsGrid(b) witness EmptyGrid()

  datatype Square = Square(file: int, rank: int)

  /** One entry of the list `pieces(player)` builds: square, kind and mark of an own piece. */
  datatype Located = Located(file: int, rank: int, kind: Kind, endangered: bool)

  predicate InBounds(file: int, rank: int) {
    0 <= file < Size && 0 <= rank < Size
  }

  function Opposite(p: Player): (q: Player)
    ensures q != p
  {
    if p == White then Black else White
  }

  /** The rank direction in which a side advances. */
  function Forward(p: Player): (d: int)
    ensures d == 1 || d == -1
    ensures p == White <==> d == 1
  {
    if p == White then 1 else -1
  }

  /** First letter of the side's name ('white' / 'black'). */
  function Initial(p: Player): char {
    if p == White then 'w' else 'b'
  }

  function Letter(k: Kind): char {
    match k
    case Hauptmann => 'H'
    case Waechter => 'W'
    case Klinge => 'K'
    case Springer => 'S'
    case Turm => 'T'
    case Tuemmler => 'P'
    case Orca => 'O'
  }

  predicate IsFileChar(c: char) {
    'a' <= c <= 'f' || 'A' <= c <= 'F'
  }

  predicate IsRankChar(c: char) {
    '1' <= c <= '6'
  }

  function FileIndex(c: char): int
    requires IsFileChar(c)
  {
    if 'a' <= c <= 'f' then c as int - 'a' as int else c as int - 'A' as int
  }

  function RankChar(rank: int): char
    requires 0 <= rank < Size
  {
    ('1' as int + rank) as char
  }

  /** Text form of a square, file letter then rank digit; it parses back to the same square. */
  function CoordStr(file: int, rank: int): (s: string)
    requires InBounds(file, rank)
    ensures |s| == 2 && s[0] == Files[file] && IsRankChar(s[1])
    ensures ParseCoord(s) == Some(Square(file, rank))
  {
    [Files[file], RankChar(rank)]
  }

  /** Accepts exactly a letter a-f in either case followed by a digit 1-6, and nothing else. */
  function ParseCoord(s: string): (r: Option<Square>)
    ensures r.Some? <==> |s| == 2 && IsFileChar(s[0]) && IsRankChar(s[1])
    ensures r.Some? ==> InBounds(r.value.file, r.value.rank)
    ensures r.Some? ==> Files[r.value.file] == s[0] || Files[r.value.file] as int == s[0] as int + 32
    ensures r.Some? ==> RankChar(r.value.rank) == s[1]
  {
    if |s| == 2 && IsFileChar(s[0]) && IsRankChar(s[1]) then
      Some(Square(FileIndex(s[0]), s[1] as int - '1' as int))
    else
      None
  }

  predicate Occupied(b: Board, file: int, rank: int)
    requires InBounds(file, rank)
  {
    b[file][rank].Some?
  }

  /** An in-bounds square holding a piece of side p. */
  predicate Friendly(b: Board, file: int, rank: int, p: Player) {
    InBounds(file, rank) && b[file][rank].Some? && b[file][rank].value.owner == p
  }

  /** Write one square. */
  function Put(b: Board, file: int, rank: int, c: Cell): (b': Board)
    requires InBounds(file, rank)
    ensures b'[file][rank] == c
    ensures forall f, r {:trigger b[f][r]} {:trigger b'[f][r]} :: InBounds(f, r) && (f != file || r != rank) ==> b'[f][r] == b[f][r]
  {
    b[file := b[file][rank := c]]
  }

  lemma BoardsEqual(b1: Board, b2: Board)
    requires forall f, r {:trigger b2[f][r]} {:trigger b1[f][r]} :: InBounds(f, r) ==> b1[f][r] == b2[f][r]
    ensures b1 == b2
  {
    forall f | 0 <= f < Size
      ensures b1[f] == b2[f]
    {
      assert forall r :: 0 <= r < Size ==> b1[f][r] == b2[f][r];
    }
  }

  // ---------------------------------------------------------------------------
  // Scanning order: the source visits file 0..5 and, inside each file, rank 0..5.

  function Index(file: int, rank: int): int {
    file * Size + rank
  }

  function SquareAt(i: int): Square {
    Square(i / Size, i % Size)
  }

  lemma SquareAtIndex(file: int, rank: int)
    requires InBounds(file, rank)
    ensures SquareAt(Index(file, rank)) == Square(file, rank)
  {
  }

  /** The scan index of a square is in range, and the next index is the next square of the scan. */
  lemma IndexStep(file: int, rank: int)
    requires InBounds(file, rank)
    ensures 0 <= Index(file, rank) < Size * Size
    ensures Index(file, rank) + 1 == if rank + 1 < Size then Index(file, rank + 1) else Index(file + 1, 0)
  {
  }

  lemma IndexOfSquareAt(i: int)
    requires 0 <= i < Size * Size
    ensures InBounds(SquareAt(i).file, SquareAt(i).rank)
    ensures Index(SquareAt(i).file, SquareAt(i).rank) == i
  {
  }

  /** The own pieces among the first n squares of the scan, in scan order. */
  function PiecesUpTo(b: Board, p: Player, n: nat): (ps: seq<Located>)
    requires n <= Size * Size
    ensures |ps| <= n
    ensures forall i :: 0 <= i < |ps| ==>
      InBounds(ps[i].file, ps[i].rank) && Index(ps[i].file, ps[i].rank) < n &&
      b[ps[i].file][ps[i].rank] == Some(Piece(p, ps[i].kind, ps[i].endangered))
  {
    if n == 0 then []
    else
      var rest := PiecesUpTo(b, p, n - 1);
      var sq := SquareAt(n - 1);
      IndexOfSquareAt(n - 1);
      if Friendly(b, sq.file, sq.rank, p) then
        var pc := b[sq.file][sq.rank].value;
        rest + [Located(sq.file, sq.rank, pc.kind, pc.endangered)]
      else rest
  }

  /** Scanning one more square adds one entry exactly when it holds a p piece. */
  lemma PiecesUpToLength(b: Board, p: Player, n: nat)
    requires 0 < n <= Size * Size
    ensures InBounds(SquareAt(n - 1).file, SquareAt(n - 1).rank)
    ensures |PiecesUpTo(b, p, n)| ==
      |PiecesUpTo(b, p, n - 1)| + (if Friendly(b, SquareAt(n - 1).file, SquareAt(n - 1).rank, p) then 1 else 0)
  {
    IndexOfSquareAt(n - 1);
  }

  /** Scanning square (file, rank) appends its piece when it is p's. */
  lemma PiecesUpToStep(b: Board, p: Player, file: int, rank: int)
    requires InBounds(file, rank)
    ensures Index(file, rank) < Size * Size
    ensures PiecesUpTo(b, p, Index(file, rank) + 1) == PiecesUpTo(b, p, Index(file, rank)) +
      (if Friendly(b, file, rank, p)
       then [Located(file, rank, b[file][rank].value.kind, b[file][rank].value.endangered)] else [])
  {
    IndexStep(file, rank);
    SquareAtIndex(file, rank);
  }

  /** `pieces(player)`: every piece of side p, in scan order. */
  function PiecesOf(b: Board, p: Player): seq<Located> {
    PiecesUpTo(b, p, Size * Size)
  }

  /** A square appears in the first n entries of the scan exactly when it holds an own piece. */
  lemma {:induction false} PiecesUpToComplete(b: Board, p: Player, n: nat, file: int, rank: int)
    requires n <= Size * Size
    requires InBounds(file, rank) && Friendly(b, file, rank, p) && Index(file, rank) < n
    ensures Located(file, rank, b[file][rank].value.kind, b[file][rank].value.endangered) in PiecesUpTo(b, p, n)
  {
    if Index(file, rank) < n - 1 {
      PiecesUpToComplete(b, p, n - 1, file, rank);
    } else {
      SquareAtIndex(file, rank);
    }
  }

  /** Membership in `pieces(player)`, both directions. */
  lemma PiecesOfMember(b: Board, p: Player, x: Located)
    ensures x in PiecesOf(b, p) <==>
      InBounds(x.file, x.rank) && b[x.file][x.rank] == Some(Piece(p, x.kind, x.endangered))
  {
    if InBounds(x.file, x.rank) && b[x.file][x.rank] == Some(Piece(p, x.kind, x.endangered)) {
      PiecesUpToComplete(b, p, Size * Size, x.file, x.rank);
    }
  }

  /** Entries listed in strictly increasing scan order. */
  predicate InScanOrder(ps: seq<Located>) {
    forall i, j :: 0 <= i < j < |ps| ==> Index(ps[i].file, ps[i].rank) < Index(ps[j].file, ps[j].rank)
  }

  /** The scan lists the pieces in scan order. */
  lemma {:induction false} PiecesUpToSorted(b: Board, p: Player, n: nat)
    requires n <= Size * Size
    ensures InScanOrder(PiecesUpTo(b, p, n))
  {
    if n > 0 {
      PiecesUpToSorted(b, p, n - 1);
      var rest := PiecesUpTo(b, p, n - 1);
      var sq := SquareAt(n - 1);
      IndexOfSquareAt(n - 1);
      if Friendly(b, sq.file, sq.rank, p) {
        var pc := b[sq.file][sq.rank].value;
        var ps := rest + [Located(sq.file, sq.rank, pc.kind, pc.endangered)];
        forall i, j | 0 <= i < j < |ps|
          ensures Index(ps[i].file, ps[i].rank) < Index(ps[j].file, ps[j].rank)
        {
          if j < |rest| {
            assert ps[i] == rest[i] && ps[j] == rest[j];
          } else {
            assert ps[i] == rest[i];
          }
        }
      }
    }
  }

  /** The scan lists each square at most once. */
  lemma PiecesOfDistinct(b: Board, p: Player, i: int, j: int)
    requires 0 <= i < j < |PiecesOf(b, p)|
    ensures Square(PiecesOf(b, p)[i].file, PiecesOf(b, p)[i].rank) != Square(PiecesOf(b, p)[j].file, PiecesOf(b, p)[j].rank)
  {
    PiecesUpToSorted(b, p, Size * Size);
  }

  function PieceCount(b: Board, p: Player): nat {
    |PiecesOf(b, p)|
  }

  /** A side with a piece somewhere has a positive count, and a side with none has count zero. */
  lemma PieceCountPositive(b: Board, p: Player)
    ensures PieceCount(b, p) > 0 <==> exists f, r :: Friendly(b, f, r, p)
  {
    if exists f, r :: Friendly(b, f, r, p) {
      var f, r :| Friendly(b, f, r, p);
      PiecesOfMember(b, p, Located(f, r, b[f][r].value.kind, b[f][r].value.endangered));
    }
    if PieceCount(b, p) > 0 {
      var x := PiecesOf(b, p)[0];
      assert Friendly(b, x.file, x.rank, p);
    }
  }

  // ---------------------------------------------------------------------------
  // Isolation: no friendly piece on any of the eight neighbouring squares.

  const AllDirs: seq<(int, int)> := [(0, 1), (0, -1), (1, 0), (-1, 0), (-1, -1), (-1, 1), (1, -1), (1, 1)]

  predicate Adjacent(f1: int, r1: int, f2: int, r2: int) {
    (f1 != f2 || r1 != r2) && -1 <= f1 - f2 <= 1 && -1 <= r1 - r2 <= 1
  }

  /** The loop of `_isIsolated` over a list of directions: true unless some direction
      reaches an in-bounds square holding a piece of side p. */
  function IsolatedAlong(b: Board, file: int, rank: int, p: Player, dirs: seq<(int, int)>): (iso: bool)
    ensures iso <==> forall i :: 0 <= i < |dirs| ==> !Friendly(b, file + dirs[i].0, rank + dirs[i].1, p)
  {
    if dirs == [] then true
    else if Friendly(b, file + dirs[0].0, rank + dirs[0].1, p) then false
    else IsolatedAlong(b, file, rank, p, dirs[1..])
  }

  predicate Isolated(b: Board, file: int, rank: int, p: Player) {
    IsolatedAlong(b, file, rank, p, AllDirs)
  }

  /** Isolation stated over squares: no adjacent square holds a friendly piece. */
  lemma IsolatedMeansNoFriendlyNeighbour(b: Board, file: int, rank: int, p: Player)
    ensures Isolated(b, file, rank, p) <==>
      forall f, r :: Adjacent(file, rank, f, r) ==> !Friendly(b, f, r, p)
  {
    if Isolated(b, file, rank, p) {
      forall f, r | Adjacent(file, rank, f, r)
        ensures !Friendly(b, f, r, p)
      {
        var d := (f - file, r - rank);
        assert d in AllDirs;
        var i :| 0 <= i < |AllDirs| && AllDirs[i] == d;
        assert file + AllDirs[i].0 == f && rank + AllDirs[i].1 == r;
      }
    }
    if forall f, r :: Adjacent(file, rank, f, r) ==> !Friendly(b, f, r, p) {
      forall i | 0 <= i < |AllDirs|
        ensures !Friendly(b, file + AllDirs[i].0, rank + AllDirs[i].1, p)
      {
        assert Adjacent(file, rank, file + AllDirs[i].0, rank + AllDirs[i].1);
      }
    }
  }

  /** Boards with the same owner on every square agree on isolation. */
  ghost predicate SameOwners(b1: Board, b2: Board) {
    forall f, r {:trigger b2[f][r]} {:trigger b1[f][r]} :: InBounds(f, r) ==>
      b1[f][r].Some? == b2[f][r].Some? &&
      (b1[f][r].Some? ==> b1[f][r].value.owner == b2[f][r].value.owner)
  }

  lemma {:induction false} PiecesUpToSameOwners(b1: Board, b2: Board, p: Player, n: nat)
    requires SameOwners(b1, b2) && n <= Size * Size
    ensures |PiecesUpTo(b1, p, n)| == |PiecesUpTo(b2, p, n)|
  {
    if n > 0 {
      PiecesUpToSameOwners(b1, b2, p, n - 1);
      IndexOfSquareAt(n - 1);
    }
  }

  /** Boards with the same owner on every square have the same piece counts. */
  lemma PieceCountSameOwners(b1: Board, b2: Board, p: Player)
    requires SameOwners(b1, b2)
    ensures PieceCount(b1, p) == PieceCount(b2, p)
  {
    PiecesUpToSameOwners(b1, b2, p, Size * Size);
  }

  lemma IsolatedSameOwners(b1: Board, b2: Board, file: int, rank: int, p: Player)
    requires SameOwners(b1, b2)
    ensures Isolated(b1, file, rank, p) == Isolated(b2, file, rank, p)
  {
    assert forall f, r :: Friendly(b1, f, r, p) == Friendly(b2, f, r, p);
  }
}
