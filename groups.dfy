/** `_countGroups(board, player)`: the number of groups a side's pieces form, two pieces
    being in one group when a chain of the side's own pieces, each on one of the eight
    squares around the last, links them. */
module TethariGroups {
  import opened TethariBoard

  // ---------------------------------------------------------------------------
  // Groups, defined by walks over own pieces.

  /** A walk over squares holding pieces of side p, each square next to the one before. */
  ghost predicate Walk(b: Board, p: Player, w: seq<Square>) {
    (forall i :: 0 <= i < |w| ==> Friendly(b, w[i].file, w[i].rank, p)) &&
    (forall i :: 0 <= i < |w| - 1 ==> Adjacent(w[i].file, w[i].rank, w[i + 1].file, w[i + 1].rank))
  }

  /** Square c is reached from square a by a walk over own pieces. */
  ghost predicate Connected(b: Board, p: Player, a: Square, c: Square) {
    exists w {:trigger Walk(b, p, w)} :: Walk(b, p, w) && |w| > 0 && w[0] == a && w[|w| - 1] == c
  }

  lemma ConnectedEnds(b: Board, p: Player, a: Square, c: Square)
    requires Connected(b, p, a, c)
    ensures Friendly(b, a.file, a.rank, p) && Friendly(b, c.file, c.rank, p)
  {
    var w: seq<Square> :| Walk(b, p, w) && |w| > 0 && w[0] == a && w[|w| - 1] == c;
  }

  lemma ConnectedRefl(b: Board, p: Player, a: Square)
    requires Friendly(b, a.file, a.rank, p)
    ensures Connected(b, p, a, a)
  {
    assert Walk(b, p, [a]);
  }

  /** A walk extends by one step onto a neighbouring own piece. */
  lemma ConnectedStep(b: Board, p: Player, a: Square, c: Square, d: Square)
    requires Connected(b, p, a, c)
    requires Adjacent(c.file, c.rank, d.file, d.rank) && Friendly(b, d.file, d.rank, p)
    ensures Connected(b, p, a, d)
  {
    var w: seq<Square> :| Walk(b, p, w) && |w| > 0 && w[0] == a && w[|w| - 1] == c;
    var w' := w + [d];
    assert Walk(b, p, w') by {
      forall i | 0 <= i < |w'| - 1
        ensures Adjacent(w'[i].file, w'[i].rank, w'[i + 1].file, w'[i + 1].rank)
      {
        if i < |w| - 1 {
          assert w'[i] == w[i] && w'[i + 1] == w[i + 1];
        }
      }
    }
    assert w'[0] == a && w'[|w'| - 1] == d;
  }

  /** Walks join end to start. */
  lemma ConnectedTrans(b: Board, p: Player, a: Square, c: Square, d: Square)
    requires Connected(b, p, a, c) && Connected(b, p, c, d)
    ensures Connected(b, p, a, d)
  {
    var w1: seq<Square> :| Walk(b, p, w1) && |w1| > 0 && w1[0] == a && w1[|w1| - 1] == c;
    var w2: seq<Square> :| Walk(b, p, w2) && |w2| > 0 && w2[0] == c && w2[|w2| - 1] == d;
    var w := w1 + w2[1..];
    assert Walk(b, p, w) by {
      forall i | 0 <= i < |w|
        ensures Friendly(b, w[i].file, w[i].rank, p)
      {
        if i >= |w1| {
          assert w[i] == w2[i - |w1| + 1];
        }
      }
      forall i | 0 <= i < |w| - 1
        ensures Adjacent(w[i].file, w[i].rank, w[i + 1].file, w[i + 1].rank)
      {
        if i < |w1| - 1 {
          assert w[i] == w1[i] && w[i + 1] == w1[i + 1];
        } else {
          assert w[i] == w2[i - |w1| + 1] && w[i + 1] == w2[i - |w1| + 2];
        }
      }
    }
    assert w[|w| - 1] == d;
  }

  // ---------------------------------------------------------------------------
  // Counting groups: each group is counted at its first square in scan order.

  /** Some own piece among the first n squares of the scan reaches x. */
  ghost predicate Reached(b: Board, p: Player, n: int, x: Square) {
    exists j :: 0 <= j < n && Connected(b, p, SquareAt(j), x)
  }

  /** Square i of the scan holds an own piece that no earlier own piece reaches: it is the
      first square of its group. */
  ghost predicate Leads(b: Board, p: Player, i: int) {
    Friendly(b, SquareAt(i).file, SquareAt(i).rank, p) && !Reached(b, p, i, SquareAt(i))
  }

  /** The groups whose first square is among the first n squares of the scan. */
  ghost function LeadersUpTo(b: Board, p: Player, n: nat): nat {
    if n == 0 then 0 else LeadersUpTo(b, p, n - 1) + (if Leads(b, p, n - 1) then 1 else 0)
  }

  /** The number of groups of side p. */
  ghost function GroupCount(b: Board, p: Player): nat {
    LeadersUpTo(b, p, Size * Size)
  }

  // ---------------------------------------------------------------------------
  // The visited grid of the flood fill.

  predicate IsMarks(v: seq<seq<bool>>) {
    |v| == Size && forall f :: 0 <= f < Size ==> |v[f]| == Size
  }

  type Marks = v: seq<seq<bool>> | IsMarks(v) witness seq(Size, _ => seq(Size, _ => false))

  function Mark(v: Marks, file: int, rank: int): (v': Marks)
    requires InBounds(file, rank)
    ensures v'[file][rank]
    ensures forall f, r {:trigger v[f][r]} {:trigger v'[f][r]} :: InBounds(f, r) && (f != file || r != rank) ==> v'[f][r] == v[f][r]
  {
    v[file := v[file][rank := true]]
  }

  /** The squares not yet visited. */
  ghost function Unvisited(v: Marks): set<Square> {
    set f, r | 0 <= f < Size && 0 <= r < Size && !v[f][r] :: Square(f, r)
  }

  lemma MarkShrinks(v: Marks, file: int, rank: int)
    requires InBounds(file, rank) && !v[file][rank]
    ensures |Unvisited(Mark(v, file, rank))| < |Unvisited(v)|
  {
    var v' := Mark(v, file, rank);
    assert Unvisited(v) == Unvisited(v') + {Square(file, rank)};
    assert Square(file, rank) !in Unvisited(v');
  }

  /** Every visited square holds an own piece, and its own neighbours are visited too. */
  ghost predicate Closed(b: Board, p: Player, v: Marks) {
    forall x: Square, y: Square ::
      (InBounds(x.file, x.rank) && v[x.file][x.rank] && Adjacent(x.file, x.rank, y.file, y.rank) &&
       Friendly(b, y.file, y.rank, p)) ==> v[y.file][y.rank]
  }

  /** A closed set of visited squares holds everything reachable from any of its squares. */
  lemma ClosedHoldsReach(b: Board, p: Player, v: Marks, a: Square, c: Square)
    requires Closed(b, p, v) && InBounds(a.file, a.rank) && v[a.file][a.rank]
    requires Connected(b, p, a, c)
    ensures v[c.file][c.rank]
  {
    var w: seq<Square> :| Walk(b, p, w) && |w| > 0 && w[0] == a && w[|w| - 1] == c;
    for i := 0 to |w|
      invariant forall k :: 0 <= k < i ==> v[w[k].file][w[k].rank]
    {
      if i > 0 {
        assert Adjacent(w[i - 1].file, w[i - 1].rank, w[i].file, w[i].rank);
      }
    }
  }

  /** Every neighbour of a square is one of the eight directions away. */
  lemma AdjacentIsDirection(f1: int, r1: int, f2: int, r2: int)
    requires Adjacent(f1, r1, f2, r2)
    ensures exists i :: 0 <= i < |AllDirs| && f2 == f1 + AllDirs[i].0 && r2 == r1 + AllDirs[i].1
  {
    var d := (f2 - f1, r2 - r1);
    assert d in AllDirs;
    var i :| 0 <= i < |AllDirs| && AllDirs[i] == d;
  }

  // ---------------------------------------------------------------------------
  // The flood fill.

  /** The `while (queue.length > 0)` loop of `_countGroups` started from square s: it visits
      exactly the squares reached from s, on top of those visited before. */
  method Flood(b: Board, p: Player, v: Marks, s: Square) returns (v': Marks)
    requires Friendly(b, s.file, s.rank, p) && !v[s.file][s.rank]
    requires Closed(b, p, v)
    ensures forall f, r {:trigger Square(f, r)} {:trigger v[f][r]} {:trigger v'[f][r]} :: InBounds(f, r) ==> (v'[f][r] <==> v[f][r] || Connected(b, p, s, Square(f, r)))
    ensures Closed(b, p, v')
  {
    v' := Mark(v, s.file, s.rank);
    var queue := [s];
    ConnectedRefl(b, p, s);
    while |queue| > 0
      invariant forall f, r {:trigger Square(f, r)} {:trigger v[f][r]} {:trigger v'[f][r]} :: InBounds(f, r) && v'[f][r] ==> v[f][r] || Connected(b, p, s, Square(f, r))
      invariant forall f, r {:trigger v'[f][r]} {:trigger v[f][r]} :: InBounds(f, r) && v[f][r] ==> v'[f][r]
      invariant v'[s.file][s.rank]
      invariant forall k :: 0 <= k < |queue| ==>
        InBounds(queue[k].file, queue[k].rank) && v'[queue[k].file][queue[k].rank] && Connected(b, p, s, queue[k])
      invariant ClosedOutside(b, p, v', queue)
      decreases |Unvisited(v')|, |queue|
    {
      ghost var waiting := queue;
      var current := queue[0];
      queue := queue[1..];
      ghost var rest := queue;
      assert waiting == [current] + rest;
      ghost var before := v';
      v', queue := VisitNeighbours(b, p, v, s, v', queue, current);
      FloodStep(b, p, before, v', current, rest, queue);
    }
    ClosedHoldsAll(b, p, v', s);
  }

  /** The `for (const [df, dr] of ALL_DIRS)` loop of the flood fill: every own neighbour of
      `current` not yet visited is visited and queued. */
  method VisitNeighbours(b: Board, p: Player, ghost v: Marks, ghost s: Square, v0: Marks, queue0: seq<Square>, current: Square)
    returns (v': Marks, queue: seq<Square>)
    requires InBounds(current.file, current.rank) && Connected(b, p, s, current)
    requires forall f, r {:trigger Square(f, r)} {:trigger v[f][r]} {:trigger v0[f][r]} :: InBounds(f, r) && v0[f][r] ==> v[f][r] || Connected(b, p, s, Square(f, r))
    requires forall k :: 0 <= k < |queue0| ==>
      InBounds(queue0[k].file, queue0[k].rank) && v0[queue0[k].file][queue0[k].rank] && Connected(b, p, s, queue0[k])
    ensures forall f, r {:trigger Square(f, r)} {:trigger v[f][r]} {:trigger v'[f][r]} :: InBounds(f, r) && v'[f][r] ==> v[f][r] || Connected(b, p, s, Square(f, r))
    ensures forall f, r {:trigger v'[f][r]} {:trigger v0[f][r]} :: InBounds(f, r) && v0[f][r] ==> v'[f][r]
    ensures forall f, r {:trigger Square(f, r)} {:trigger v0[f][r]} {:trigger v'[f][r]} :: InBounds(f, r) && v'[f][r] && !v0[f][r] ==> Square(f, r) in queue
    ensures forall k :: 0 <= k < |queue| ==>
      InBounds(queue[k].file, queue[k].rank) && v'[queue[k].file][queue[k].rank] && Connected(b, p, s, queue[k])
    ensures forall j :: 0 <= j < |AllDirs| ==> NearVisited(b, p, v', current, j)
    ensures |queue0| <= |queue| && queue[..|queue0|] == queue0
    ensures (v' == v0 && queue == queue0) || |Unvisited(v')| < |Unvisited(v0)|
  {
    v', queue := v0, queue0;
    for i := 0 to |AllDirs|
      invariant Visiting(b, p, v, s, v0, queue0, v', queue, current, i)
    {
      var nearFile, nearRank := current.file + AllDirs[i].0, current.rank + AllDirs[i].1;
      if InBounds(nearFile, nearRank) && !v'[nearFile][nearRank] && b[nearFile][nearRank].Some? &&
         b[nearFile][nearRank].value.owner == p
      {
        VisitMark(b, p, v, s, v0, queue0, v', queue, current, i, nearFile, nearRank);
        v' := Mark(v', nearFile, nearRank);
        queue := queue + [Square(nearFile, nearRank)];
      } else {
        VisitSkip(b, p, v, s, v0, queue0, v', queue, current, i, nearFile, nearRank);
      }
    }
  }

  /** The invariant of the loop over the eight directions, after the first i of them. */
  ghost predicate Visiting(b: Board, p: Player, v: Marks, s: Square, v0: Marks, queue0: seq<Square>,
                           v': Marks, queue: seq<Square>, current: Square, i: int)
  {
    0 <= i <= |AllDirs| &&
    (forall f, r {:trigger Square(f, r)} {:trigger v[f][r]} {:trigger v'[f][r]} :: InBounds(f, r) && v'[f][r] ==> v[f][r] || Connected(b, p, s, Square(f, r))) &&
    (forall f, r {:trigger v'[f][r]} {:trigger v0[f][r]} :: InBounds(f, r) && v0[f][r] ==> v'[f][r]) &&
    (forall f, r {:trigger Square(f, r)} {:trigger v0[f][r]} {:trigger v'[f][r]} :: InBounds(f, r) && v'[f][r] && !v0[f][r] ==> Square(f, r) in queue) &&
    (forall k :: 0 <= k < |queue| ==>
       InBounds(queue[k].file, queue[k].rank) && v'[queue[k].file][queue[k].rank] && Connected(b, p, s, queue[k])) &&
    (forall j :: 0 <= j < i ==> NearVisited(b, p, v', current, j)) &&
    |queue0| <= |queue| && queue[..|queue0|] == queue0 &&
    ((v' == v0 && queue == queue0) || |Unvisited(v')| < |Unvisited(v0)|)
  }

  /** Direction i leads off the board, to a visited square or to a square without an own piece. */
  lemma VisitSkip(b: Board, p: Player, v: Marks, s: Square, v0: Marks, queue0: seq<Square>,
                  v': Marks, queue: seq<Square>, current: Square, i: int, f: int, r: int)
    requires Visiting(b, p, v, s, v0, queue0, v', queue, current, i) && i < |AllDirs|
    requires f == current.file + AllDirs[i].0 && r == current.rank + AllDirs[i].1
    requires !(InBounds(f, r) && !v'[f][r] && b[f][r].Some? && b[f][r].value.owner == p)
    ensures Visiting(b, p, v, s, v0, queue0, v', queue, current, i + 1)
  {
    NearVisitedAt(b, p, v', current, i, f, r);
  }

  /** Direction i leads to an unvisited own piece, which is visited and queued. */
  lemma VisitMark(b: Board, p: Player, v: Marks, s: Square, v0: Marks, queue0: seq<Square>,
                  v': Marks, queue: seq<Square>, current: Square, i: int, f: int, r: int)
    requires Visiting(b, p, v, s, v0, queue0, v', queue, current, i) && i < |AllDirs|
    requires InBounds(current.file, current.rank) && Connected(b, p, s, current)
    requires f == current.file + AllDirs[i].0 && r == current.rank + AllDirs[i].1
    requires InBounds(f, r) && !v'[f][r] && b[f][r].Some? && b[f][r].value.owner == p
    ensures Visiting(b, p, v, s, v0, queue0, Mark(v', f, r), queue + [Square(f, r)], current, i + 1)
  {
    DirectionIsAdjacent(current.file, current.rank, i);
    ConnectedStep(b, p, s, current, Square(f, r));
    MarkShrinks(v', f, r);
    var w, q := Mark(v', f, r), queue + [Square(f, r)];
    forall g, h {:trigger Square(g, h)} {:trigger v[g][h]} {:trigger w[g][h]} | InBounds(g, h) && w[g][h]
      ensures v[g][h] || Connected(b, p, s, Square(g, h))
    {
      if g != f || h != r {
        assert v'[g][h];
      }
    }
    forall g, h {:trigger Square(g, h)} {:trigger v0[g][h]} {:trigger w[g][h]} | InBounds(g, h) && w[g][h] && !v0[g][h]
      ensures Square(g, h) in q
    {
      if g != f || h != r {
        assert Square(g, h) in queue;
      }
    }
    forall k | 0 <= k < |q|
      ensures InBounds(q[k].file, q[k].rank) && w[q[k].file][q[k].rank] && Connected(b, p, s, q[k])
    {
      if k < |queue| {
        assert q[k] == queue[k];
      }
    }
    NearVisitedAt(b, p, w, current, i, f, r);
    NearVisitedGrows(b, p, v', w, current, i);
    assert q[..|queue0|] == queue[..|queue0|];
  }

  lemma NearVisitedAt(b: Board, p: Player, v: Marks, x: Square, i: int, f: int, r: int)
    requires 0 <= i < |AllDirs| && f == x.file + AllDirs[i].0 && r == x.rank + AllDirs[i].1
    requires !Friendly(b, f, r, p) || v[f][r]
    ensures NearVisited(b, p, v, x, i)
  {
  }

  lemma NearVisitedGrows(b: Board, p: Player, v: Marks, v': Marks, x: Square, n: int)
    requires forall f, r {:trigger v'[f][r]} {:trigger v[f][r]} :: InBounds(f, r) && v[f][r] ==> v'[f][r]
    requires 0 <= n < |AllDirs|
    requires forall j :: 0 <= j < n ==> NearVisited(b, p, v, x, j)
    requires NearVisited(b, p, v', x, n)
    ensures forall j :: 0 <= j <= n ==> NearVisited(b, p, v', x, j)
  {
    forall j | 0 <= j < n
      ensures NearVisited(b, p, v', x, j)
    {
      assert NearVisited(b, p, v, x, j);
    }
  }

  lemma DirectionIsAdjacent(file: int, rank: int, i: int)
    requires 0 <= i < |AllDirs|
    ensures Adjacent(file, rank, file + AllDirs[i].0, rank + AllDirs[i].1)
  {
  }

  /** The own piece one direction away from x, if any, is visited. */
  ghost predicate NearVisited(b: Board, p: Player, v: Marks, x: Square, i: int)
    requires 0 <= i < |AllDirs|
  {
    Friendly(b, x.file + AllDirs[i].0, x.rank + AllDirs[i].1, p) ==> v[x.file + AllDirs[i].0][x.rank + AllDirs[i].1]
  }

  /** The flood-fill invariant: a visited square that is not waiting in the queue has all of
      its own neighbours visited. */
  ghost predicate ClosedOutside(b: Board, p: Player, v: Marks, queue: seq<Square>) {
    forall x: Square, y: Square ::
      (InBounds(x.file, x.rank) && v[x.file][x.rank] && x !in queue &&
       Adjacent(x.file, x.rank, y.file, y.rank) && Friendly(b, y.file, y.rank, p)) ==> v[y.file][y.rank]
  }

  /** Taking `current` off the queue and visiting its own neighbours keeps the invariant. */
  lemma FloodStep(b: Board, p: Player, before: Marks, after: Marks, current: Square, rest: seq<Square>, queue: seq<Square>)
    requires ClosedOutside(b, p, before, [current] + rest)
    requires forall f, r {:trigger after[f][r]} {:trigger before[f][r]} :: InBounds(f, r) && before[f][r] ==> after[f][r]
    requires forall f, r {:trigger Square(f, r)} {:trigger before[f][r]} {:trigger after[f][r]} :: InBounds(f, r) && after[f][r] && !before[f][r] ==> Square(f, r) in queue
    requires forall j :: 0 <= j < |AllDirs| ==> NearVisited(b, p, after, current, j)
    requires |rest| <= |queue| && queue[..|rest|] == rest
    ensures ClosedOutside(b, p, after, queue)
  {
    forall x: Square, y: Square |
      InBounds(x.file, x.rank) && after[x.file][x.rank] && x !in queue &&
      Adjacent(x.file, x.rank, y.file, y.rank) && Friendly(b, y.file, y.rank, p)
      ensures after[y.file][y.rank]
    {
      if x == current {
        AdjacentIsDirection(x.file, x.rank, y.file, y.rank);
        var i :| 0 <= i < |AllDirs| && y.file == x.file + AllDirs[i].0 && y.rank == x.rank + AllDirs[i].1;
        assert NearVisited(b, p, after, current, i);
      } else {
        assert x !in rest;
        assert before[x.file][x.rank];
        assert x !in [current] + rest;
      }
    }
  }

  /** When the queue is empty the visited squares are closed, so they hold every square
      reached from s. */
  lemma ClosedHoldsAll(b: Board, p: Player, v: Marks, s: Square)
    requires ClosedOutside(b, p, v, []) && InBounds(s.file, s.rank) && v[s.file][s.rank]
    ensures Closed(b, p, v)
    ensures forall f, r {:trigger v[f][r]} {:trigger Square(f, r)} :: InBounds(f, r) && Connected(b, p, s, Square(f, r)) ==> v[f][r]
  {
    forall x: Square, y: Square |
      InBounds(x.file, x.rank) && v[x.file][x.rank] && Adjacent(x.file, x.rank, y.file, y.rank) &&
      Friendly(b, y.file, y.rank, p)
      ensures v[y.file][y.rank]
    {
      assert x !in [];
    }
    forall f, r {:trigger v[f][r]} {:trigger Square(f, r)} | InBounds(f, r) && Connected(b, p, s, Square(f, r))
      ensures v[f][r]
    {
      ClosedHoldsReach(b, p, v, s, Square(f, r));
    }
  }

  // ---------------------------------------------------------------------------
  // The scan.

  /** One more square of the scan reaches what the square itself reaches. */
  lemma ReachedStep(b: Board, p: Player, n: int, y: Square)
    requires 0 <= n
    ensures Reached(b, p, n + 1, y) <==> Reached(b, p, n, y) || Connected(b, p, SquareAt(n), y)
  {
    if Reached(b, p, n + 1, y) && !Connected(b, p, SquareAt(n), y) {
      var j :| 0 <= j < n + 1 && Connected(b, p, SquareAt(j), y);
      assert j < n;
    }
  }

  /** The visited grid after the scan has passed the first n squares, from scan index n on. */
  ghost predicate ScanVisited(b: Board, p: Player, n: int, v: Marks) {
    Closed(b, p, v) && forall f, r {:trigger Square(f, r)} {:trigger v[f][r]} :: InBounds(f, r) ==> (v[f][r] <==> Reached(b, p, n, Square(f, r)))
  }

  /** Square n of the scan holds no own piece, or one reached before: nothing new is reached. */
  lemma ScanSkip(b: Board, p: Player, n: int, v: Marks, file: int, rank: int)
    requires InBounds(file, rank) && n == Index(file, rank) && ScanVisited(b, p, n, v)
    requires !Friendly(b, file, rank, p) || v[file][rank]
    ensures ScanVisited(b, p, n + 1, v) && LeadersUpTo(b, p, n + 1) == LeadersUpTo(b, p, n)
  {
    SquareAtIndex(file, rank);
    var x := Square(file, rank);
    forall f, r {:trigger Square(f, r)} {:trigger v[f][r]} | InBounds(f, r)
      ensures v[f][r] <==> Reached(b, p, n + 1, Square(f, r))
    {
      ReachedStep(b, p, n, Square(f, r));
      if Connected(b, p, x, Square(f, r)) {
        ConnectedEnds(b, p, x, Square(f, r));
        var j :| 0 <= j < n && Connected(b, p, SquareAt(j), x);
        ConnectedTrans(b, p, SquareAt(j), x, Square(f, r));
      }
    }
  }

  /** Square n of the scan holds an own piece not reached before: it leads a new group, and
      the flood from it visits exactly what it reaches. */
  lemma ScanFlood(b: Board, p: Player, n: int, v: Marks, v': Marks, file: int, rank: int)
    requires InBounds(file, rank) && n == Index(file, rank) && ScanVisited(b, p, n, v)
    requires Friendly(b, file, rank, p) && !v[file][rank]
    requires forall f, r {:trigger Square(f, r)} {:trigger v[f][r]} {:trigger v'[f][r]} :: InBounds(f, r) ==> (v'[f][r] <==> v[f][r] || Connected(b, p, Square(file, rank), Square(f, r)))
    requires Closed(b, p, v')
    ensures ScanVisited(b, p, n + 1, v') && LeadersUpTo(b, p, n + 1) == LeadersUpTo(b, p, n) + 1
  {
    SquareAtIndex(file, rank);
    forall f, r {:trigger Square(f, r)} {:trigger v'[f][r]} | InBounds(f, r)
      ensures v'[f][r] <==> Reached(b, p, n + 1, Square(f, r))
    {
      ReachedStep(b, p, n, Square(f, r));
    }
  }

  /** `_countGroups(board, player)`: scans the board in file-major order and floods from every
      own piece not yet visited, counting the floods. */
  method CountGroups(b: Board, p: Player) returns (groups: nat)
    ensures groups == GroupCount(b, p)
  {
    var v: Marks := seq(Size, _ => seq(Size, _ => false));
    groups := 0;
    ghost var n := 0;
    assert ScanVisited(b, p, 0, v);
    for file := 0 to Size
      invariant n == Index(file, 0)
      invariant groups == LeadersUpTo(b, p, n) && ScanVisited(b, p, n, v)
    {
      for rank := 0 to Size
        invariant n == Index(file, rank)
        invariant groups == LeadersUpTo(b, p, n) && ScanVisited(b, p, n, v)
      {
        IndexStep(file, rank);
        groups, v := ScanSquare(b, p, n, groups, v, file, rank);
        n := n + 1;
      }
    }
  }

  /** One square of the scan: an own piece not yet visited starts a new group and a flood. */
  method ScanSquare(b: Board, p: Player, ghost n: nat, groups: nat, v: Marks, file: int, rank: int)
    returns (groups': nat, v': Marks)
    requires InBounds(file, rank) && n == Index(file, rank)
    requires groups == LeadersUpTo(b, p, n) && ScanVisited(b, p, n, v)
    ensures groups' == LeadersUpTo(b, p, n + 1) && ScanVisited(b, p, n + 1, v')
  {
    if b[file][rank].None? || b[file][rank].value.owner != p || v[file][rank] {
      ScanSkip(b, p, n, v, file, rank);
      groups', v' := groups, v;
    } else {
      v' := Flood(b, p, v, Square(file, rank));
      ScanFlood(b, p, n, v, v', file, rank);
      groups' := groups + 1;
    }
  }

  // ---------------------------------------------------------------------------
  // What the count says about the pieces.

  /** Only a square holding an own piece can lead a group. */
  lemma {:induction false} LeadersAtMostPieces(b: Board, p: Player, n: nat)
    requires n <= Size * Size
    ensures LeadersUpTo(b, p, n) <= |PiecesUpTo(b, p, n)|
  {
    if n > 0 {
      LeadersAtMostPieces(b, p, n - 1);
    }
  }

  /** An own piece with no own piece before it in the scan leads a group. */
  lemma FirstPieceLeads(b: Board, p: Player, n: nat)
    requires n < Size * Size && |PiecesUpTo(b, p, n)| == 0
    requires Friendly(b, SquareAt(n).file, SquareAt(n).rank, p)
    ensures Leads(b, p, n)
  {
    var x := SquareAt(n);
    if Reached(b, p, n, x) {
      var j :| 0 <= j < n && Connected(b, p, SquareAt(j), x);
      ConnectedEnds(b, p, SquareAt(j), x);
      IndexOfSquareAt(j);
      var y := SquareAt(j);
      PiecesUpToComplete(b, p, n, y.file, y.rank);
    }
  }

  /** The first own piece of the scan leads a group, so any own piece gives at least one. */
  lemma {:induction false} LeadersPositive(b: Board, p: Player, n: nat)
    requires n <= Size * Size && |PiecesUpTo(b, p, n)| > 0
    ensures LeadersUpTo(b, p, n) > 0
  {
    if |PiecesUpTo(b, p, n - 1)| > 0 {
      LeadersPositive(b, p, n - 1);
    } else {
      FirstPieceLeads(b, p, n - 1);
    }
  }

  /** A side has no groups exactly when it has no pieces, and never more groups than pieces. */
  lemma GroupCountBounds(b: Board, p: Player)
    ensures GroupCount(b, p) <= PieceCount(b, p)
    ensures GroupCount(b, p) == 0 <==> PieceCount(b, p) == 0
  {
    LeadersAtMostPieces(b, p, Size * Size);
    if PieceCount(b, p) > 0 {
      LeadersPositive(b, p, Size * Size);
    }
  }

  /** A walk leaving an isolated piece never reaches another square. */
  lemma IsolatedReachesItself(b: Board, p: Player, a: Square, c: Square)
    requires Connected(b, p, a, c) && Isolated(b, a.file, a.rank, p)
    ensures a == c
  {
    var w: seq<Square> :| Walk(b, p, w) && |w| > 0 && w[0] == a && w[|w| - 1] == c;
    if |w| > 1 {
      assert Adjacent(a.file, a.rank, w[1].file, w[1].rank) && Friendly(b, w[1].file, w[1].rank, p);
      IsolatedMeansNoFriendlyNeighbour(b, a.file, a.rank, p);
    }
  }

  ghost predicate AllIsolated(b: Board, p: Player) {
    forall f, r {:trigger Isolated(b, f, r, p)} :: Friendly(b, f, r, p) ==> Isolated(b, f, r, p)
  }

  /** With every piece isolated, every own piece leads its own group. */
  lemma IsolatedLeads(b: Board, p: Player, n: nat)
    requires n < Size * Size && AllIsolated(b, p)
    ensures Leads(b, p, n) == Friendly(b, SquareAt(n).file, SquareAt(n).rank, p)
  {
    var x := SquareAt(n);
    if Friendly(b, x.file, x.rank, p) && Reached(b, p, n, x) {
      var j :| 0 <= j < n && Connected(b, p, SquareAt(j), x);
      ConnectedEnds(b, p, SquareAt(j), x);
      IsolatedReachesItself(b, p, SquareAt(j), x);
      IndexOfSquareAt(j);
      IndexOfSquareAt(n);
    }
  }

  lemma {:induction false} LeadersAllIsolated(b: Board, p: Player, n: nat)
    requires n <= Size * Size && AllIsolated(b, p)
    ensures LeadersUpTo(b, p, n) == |PiecesUpTo(b, p, n)|
  {
    if n > 0 {
      LeadersAllIsolated(b, p, n - 1);
      PiecesUpToLength(b, p, n);
      IsolatedLeads(b, p, n - 1);
    }
  }

  /** When no piece of the side touches another, every piece is a group of its own. */
  lemma GroupCountAllIsolated(b: Board, p: Player)
    requires AllIsolated(b, p)
    ensures GroupCount(b, p) == PieceCount(b, p)
  {
    LeadersAllIsolated(b, p, Size * Size);
  }

  lemma ConnectedSameOwners(b1: Board, b2: Board, p: Player, a: Square, c: Square)
    requires SameOwners(b1, b2) && Connected(b1, p, a, c)
    ensures Connected(b2, p, a, c)
  {
    var w: seq<Square> :| Walk(b1, p, w) && |w| > 0 && w[0] == a && w[|w| - 1] == c;
    assert forall f, r :: Friendly(b1, f, r, p) == Friendly(b2, f, r, p);
    assert Walk(b2, p, w);
  }

  lemma ReachedSameOwners(b1: Board, b2: Board, p: Player, n: int, x: Square)
    requires SameOwners(b1, b2) && Reached(b1, p, n, x)
    ensures Reached(b2, p, n, x)
  {
    var j :| 0 <= j < n && Connected(b1, p, SquareAt(j), x);
    ConnectedSameOwners(b1, b2, p, SquareAt(j), x);
  }

  lemma LeadsSameOwners(b1: Board, b2: Board, p: Player, i: int)
    requires SameOwners(b1, b2)
    ensures Leads(b1, p, i) == Leads(b2, p, i)
  {
    var x := SquareAt(i);
    assert Friendly(b1, x.file, x.rank, p) == Friendly(b2, x.file, x.rank, p);
    if Reached(b1, p, i, x) {
      ReachedSameOwners(b1, b2, p, i, x);
    }
    if Reached(b2, p, i, x) {
      ReachedSameOwners(b2, b1, p, i, x);
    }
  }

  lemma {:induction false} LeadersSameOwners(b1: Board, b2: Board, p: Player, n: nat)
    requires SameOwners(b1, b2)
    ensures LeadersUpTo(b1, p, n) == LeadersUpTo(b2, p, n)
  {
    if n > 0 {
      LeadersSameOwners(b1, b2, p, n - 1);
      LeadsSameOwners(b1, b2, p, n - 1);
    }
  }

  /** Groups depend only on where each side's pieces stand: kinds and isolation flags do
      not matter. */
  lemma GroupCountSameOwners(b1: Board, b2: Board, p: Player)
    requires SameOwners(b1, b2)
    ensures GroupCount(b1, p) == GroupCount(b2, p)
  {
    LeadersSameOwners(b1, b2, p, Size * Size);
  }
}
