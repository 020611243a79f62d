/** `TethariAI._evaluate(game)`: the integer score of a position, positive when it favours
    White. Each piece adds a signed term (material, an isolation penalty, friendly
    neighbours, central ranks, supported advance and, for a Tuemmler, its advance and the
    enemies beside and in front of it), and each side adds a term for how many groups its
    pieces form. */
module TethariEval {
  import opened TethariBoard
  import opened TethariGroups
  import TethariEngine

  /** `MATERIAL`: the value of each kind. */
  function Material(k: Kind): (m: nat)
    ensures m % 5 == 0 && 150 <= m <= 750
  {
    match k
    case Tuemmler => 150
    case Klinge => 280
    case Waechter => 320
    case Hauptmann => 380
    case Springer => 450
    case Turm => 500
    case Orca => 750
  }

  /** `Math.round(MATERIAL[type] * 0.4)`: since every value is a multiple of five, two fifths
      of it is a whole number and no rounding happens. */
  function Penalty(k: Kind): (pen: nat)
    ensures 5 * pen == 2 * Material(k)
    ensures 0 < pen < Material(k)
  {
    2 * Material(k) / 5
  }

  /** +1 for White, -1 for Black. */
  function Sign(p: Player): (s: int)
    ensures s == 1 || s == -1
  {
    if p == White then 1 else -1
  }

  /** `sign * v`, written without multiplication. */
  function Signed(p: Player, v: int): (t: int)
    ensures t == Sign(p) * v
  {
    if p == White then v else -v
  }

  /** How far a piece of side p on the given rank has come from its own back rank. */
  function Advancement(p: Player, rank: int): int {
    if p == White then rank else Size - 1 - rank
  }

  /** The neighbour count of `_evaluate` over a list of directions: the in-bounds squares
      the directions reach that hold a piece of side p. */
  function NeighboursAlong(b: Board, file: int, rank: int, p: Player, dirs: seq<(int, int)>): (n: nat)
    ensures n <= |dirs|
    ensures n == 0 <==> IsolatedAlong(b, file, rank, p, dirs)
  {
    if dirs == [] then 0
    else
      var here := if Friendly(b, file + dirs[0].0, rank + dirs[0].1, p) then 1 else 0;
      here + NeighboursAlong(b, file, rank, p, dirs[1..])
  }

  /** The friendly pieces on the eight squares around (file, rank). */
  function Neighbours(b: Board, file: int, rank: int, p: Player): nat {
    NeighboursAlong(b, file, rank, p, AllDirs)
  }

  /** A piece has no friendly neighbour exactly when `_isIsolated` holds for it. */
  lemma NeighboursZeroIffIsolated(b: Board, file: int, rank: int, p: Player)
    ensures Neighbours(b, file, rank, p) <= 8
    ensures Neighbours(b, file, rank, p) == 0 <==> Isolated(b, file, rank, p)
  {
  }

  /** An in-bounds square holding a piece of the other side from p. */
  predicate Enemy(b: Board, file: int, rank: int, p: Player) {
    InBounds(file, rank) && b[file][rank].Some? && b[file][rank].value.owner != p
  }

  /** The Tuemmler's extra term: 40 per rank of advance, and 80 for each enemy on the squares
      beside it and for one on the square in front of it. */
  function TuemmlerBonus(b: Board, file: int, rank: int, p: Player): int {
    Advancement(p, rank) * 40 +
    (if Enemy(b, file - 1, rank, p) then 80 else 0) +
    (if Enemy(b, file + 1, rank, p) then 80 else 0) +
    (if Enemy(b, file, rank + Forward(p), p) then 80 else 0)
  }

  /** The score of one piece, before its side's sign is applied. */
  function PieceValue(b: Board, file: int, rank: int, pc: Piece): int
    requires InBounds(file, rank)
  {
    var n := Neighbours(b, file, rank, pc.owner);
    Material(pc.kind) -
    (if pc.endangered then Penalty(pc.kind) else 0) +
    25 * n +
    (if 2 <= rank <= 3 then 15 else 0) +
    (if Advancement(pc.owner, rank) >= 3 && n > 0 then 20 else 0) +
    (if pc.kind == Tuemmler then TuemmlerBonus(b, file, rank, pc.owner) else 0)
  }

  /** What the square (file, rank) adds to the score: nothing when empty, otherwise the
      piece's value with its side's sign. */
  function SquareTerm(b: Board, file: int, rank: int): int
    requires InBounds(file, rank)
  {
    match b[file][rank]
    case None => 0
    case Some(pc) => Signed(pc.owner, PieceValue(b, file, rank, pc))
  }

  function Sum(s: seq<int>): int {
    if s == [] then 0 else Sum(s[..|s| - 1]) + s[|s| - 1]
  }

  lemma SumStep(s: seq<int>, k: int)
    requires 0 <= k < |s|
    ensures Sum(s[..k + 1]) == Sum(s[..k]) + s[k]
  {
    assert s[..k + 1][..k] == s[..k];
  }

  /** Two lists that agree except at position i have sums that differ by what differs there. */
  lemma {:induction false} SumDiffer(s1: seq<int>, s2: seq<int>, i: int)
    requires |s1| == |s2| && 0 <= i < |s1|
    requires forall j :: 0 <= j < |s1| && j != i ==> s1[j] == s2[j]
    ensures Sum(s2) - Sum(s1) == s2[i] - s1[i]
  {
    var n := |s1| - 1;
    if n == i {
      assert s1[..n] == s2[..n];
    } else {
      SumDiffer(s1[..n], s2[..n], i);
    }
  }

  /** The terms of the six squares of a file, in rank order. */
  function RankTerms(b: Board, file: int): (ts: seq<int>)
    requires 0 <= file < Size
    ensures |ts| == Size
  {
    seq(Size, r requires 0 <= r < Size => SquareTerm(b, file, r))
  }

  /** The sum of each file's terms, in file order. */
  function FileSums(b: Board): (ts: seq<int>)
    ensures |ts| == Size
  {
    seq(Size, f requires 0 <= f < Size => Sum(RankTerms(b, f)))
  }

  /** The piece terms of the whole board. */
  function PieceSum(b: Board): int {
    Sum(FileSums(b))
  }

  /** A side in one group (or none) earns 50; each extra group costs 40. */
  function GroupTerm(groups: nat, p: Player): (t: int)
    ensures groups <= 1 ==> t == Sign(p) * 50
    ensures groups > 1 ==> Sign(p) * t < 0
  {
    if groups <= 1 then Sign(p) * 50 else -(Sign(p) * (groups - 1) * 40)
  }

  /** What one more group costs the side: going from one group to two loses the 50 and
      costs 40, every further group costs another 40. */
  lemma GroupTermPerGroup(groups: nat, p: Player)
    requires groups >= 1
    ensures Sign(p) * GroupTerm(groups + 1, p) == Sign(p) * GroupTerm(groups, p) - (if groups == 1 then 90 else 40)
  {
  }

  /** For the side itself, fewer groups are never worse, and strictly better once the larger
      count exceeds one. */
  lemma {:induction false} GroupTermMonotone(g1: nat, g2: nat, p: Player)
    requires g1 <= g2
    ensures Sign(p) * GroupTerm(g2, p) <= Sign(p) * GroupTerm(g1, p)
    ensures g1 < g2 && g2 > 1 ==> Sign(p) * GroupTerm(g2, p) < Sign(p) * GroupTerm(g1, p)
    decreases g2
  {
    if g1 < g2 {
      if g2 - 1 >= 1 {
        GroupTermMonotone(g1, g2 - 1, p);
        GroupTermPerGroup(g2 - 1, p);
      }
    }
  }

  /** The value `_evaluate` returns for a board. */
  ghost function Score(b: Board): int {
    PieceSum(b) + GroupTerm(GroupCount(b, White), White) + GroupTerm(GroupCount(b, Black), Black)
  }

  // ---------------------------------------------------------------------------
  // The evaluator.

  /** The `for (const [df, dr] of ALL_DIRS)` loop counting friendly neighbours. */
  method CountNeighbours(b: Board, file: int, rank: int, p: Player) returns (n: nat)
    ensures n == Neighbours(b, file, rank, p)
  {
    n := 0;
    for i := |AllDirs| downto 0
      invariant n == NeighboursAlong(b, file, rank, p, AllDirs[i..])
    {
      assert AllDirs[i..][1..] == AllDirs[i + 1..];
      var nearFile, nearRank := file + AllDirs[i].0, rank + AllDirs[i].1;
      if InBounds(nearFile, nearRank) {
        var near := b[nearFile][nearRank];
        if near.Some? && near.value.owner == p {
          n := n + 1;
        }
      }
    }
  }

  /** The Tuemmler block of the square loop of `_evaluate`: the advance, then the two
      squares beside it, then the square in front of it. */
  method ScoreTuemmler(b: Board, file: int, rank: int, p: Player) returns (bonus: int)
    ensures bonus == TuemmlerBonus(b, file, rank, p)
  {
    bonus := Advancement(p, rank) * 40;
    var sides := [-1, 1];
    for i := 0 to |sides|
      invariant bonus == Advancement(p, rank) * 40 +
        (if 0 < i && Enemy(b, file - 1, rank, p) then 80 else 0) +
        (if 1 < i && Enemy(b, file + 1, rank, p) then 80 else 0)
    {
      var sideFile := file + sides[i];
      if InBounds(sideFile, rank) {
        var side := b[sideFile][rank];
        if side.Some? && side.value.owner != p {
          bonus := bonus + 80;
        }
      }
    }
    var frontRank := rank + Forward(p);
    if InBounds(file, frontRank) {
      var front := b[file][frontRank];
      if front.Some? && front.value.owner != p {
        bonus := bonus + 80;
      }
    }
  }

  /** The body of the square loop of `_evaluate` for one square. */
  method ScoreSquare(b: Board, file: int, rank: int) returns (t: int)
    requires InBounds(file, rank)
    ensures t == SquareTerm(b, file, rank)
  {
    var piece := b[file][rank];
    if piece.None? {
      return 0;
    }
    var pc := piece.value;
    var value := Material(pc.kind);
    if pc.endangered {
      value := value - Penalty(pc.kind);
    }
    var neighbours := CountNeighbours(b, file, rank, pc.owner);
    value := value + neighbours * 25;
    if 2 <= rank <= 3 {
      value := value + 15;
    }
    var advancement := Advancement(pc.owner, rank);
    if advancement >= 3 && neighbours > 0 {
      value := value + 20;
    }
    if pc.kind == Tuemmler {
      var bonus := ScoreTuemmler(b, file, rank, pc.owner);
      value := value + bonus;
    }
    t := Signed(pc.owner, value);
  }

  /** `_evaluate(game)`: the square terms in file-major order, then each side's group term. */
  method Evaluate(game: TethariEngine.TethariGame) returns (score: int)
    ensures score == Score(game.board)
  {
    var b := game.board;
    score := 0;
    for file := 0 to Size
      invariant score == Sum(FileSums(b)[..file])
    {
      for rank := 0 to Size
        invariant score == Sum(FileSums(b)[..file]) + Sum(RankTerms(b, file)[..rank])
      {
        var t := ScoreSquare(b, file, rank);
        SumStep(RankTerms(b, file), rank);
        score := score + t;
      }
      SumStep(FileSums(b), file);
      assert RankTerms(b, file)[..Size] == RankTerms(b, file);
    }
    assert FileSums(b)[..Size] == FileSums(b);
    var players := [White, Black];
    for i := 0 to |players|
      invariant score == PieceSum(b) +
        (if 0 < i then GroupTerm(GroupCount(b, White), White) else 0) +
        (if 1 < i then GroupTerm(GroupCount(b, Black), Black) else 0)
    {
      var player := players[i];
      var groups := CountGroups(b, player);
      var sign := Sign(player);
      if groups <= 1 {
        score := score + sign * 50;
      } else {
        score := score - sign * (groups - 1) * 40;
      }
    }
  }

  // ---------------------------------------------------------------------------
  // Properties of the score.

  /** A piece's value depends on the owners around it, not on their kinds or flags. */
  lemma PieceValueSameOwners(b1: Board, b2: Board, file: int, rank: int, pc: Piece)
    requires SameOwners(b1, b2) && InBounds(file, rank)
    ensures PieceValue(b1, file, rank, pc) == PieceValue(b2, file, rank, pc)
  {
    IsolatedSameOwners(b1, b2, file, rank, pc.owner);
    NeighboursSame(b1, b2, file, rank, pc.owner, AllDirs);
  }

  lemma {:induction false} NeighboursSame(b1: Board, b2: Board, file: int, rank: int, p: Player, dirs: seq<(int, int)>)
    requires SameOwners(b1, b2)
    ensures NeighboursAlong(b1, file, rank, p, dirs) == NeighboursAlong(b2, file, rank, p, dirs)
  {
    if dirs != [] {
      NeighboursSame(b1, b2, file, rank, p, dirs[1..]);
    }
  }

  /** Marking one unmarked piece as endangered lowers its side's score by exactly two fifths
      of its material and changes nothing else: groups, neighbours and the Tuemmler terms
      look only at where each side's pieces stand. */
  lemma MarkingCostsPenalty(b: Board, file: int, rank: int)
    requires InBounds(file, rank) && b[file][rank].Some? && !b[file][rank].value.endangered
    ensures var pc := b[file][rank].value;
      Score(Put(b, file, rank, Some(pc.(endangered := true)))) == Score(b) - Sign(pc.owner) * Penalty(pc.kind)
  {
    var pc := b[file][rank].value;
    var b2 := Put(b, file, rank, Some(pc.(endangered := true)));
    assert SameOwners(b, b2);
    forall f, r {:trigger SquareTerm(b2, f, r)} {:trigger SquareTerm(b, f, r)} | InBounds(f, r)
      ensures (f != file || r != rank) ==> SquareTerm(b, f, r) == SquareTerm(b2, f, r)
      ensures f == file && r == rank ==> SquareTerm(b2, f, r) == SquareTerm(b, f, r) - Sign(pc.owner) * Penalty(pc.kind)
    {
      if b[f][r].Some? {
        PieceValueSameOwners(b, b2, f, r, b[f][r].value);
        PieceValueSameOwners(b, b2, f, r, pc.(endangered := true));
      }
    }
    SumDiffer(RankTerms(b, file), RankTerms(b2, file), rank);
    forall f | 0 <= f < Size && f != file
      ensures Sum(RankTerms(b, f)) == Sum(RankTerms(b2, f))
    {
      assert RankTerms(b, f) == RankTerms(b2, f);
    }
    SumDiffer(FileSums(b), FileSums(b2), file);
    GroupCountSameOwners(b, b2, White);
    GroupCountSameOwners(b, b2, Black);
  }
}
