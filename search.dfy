/** `TethariAI`: move ordering, fail-soft alpha-beta search and the choice of a best move.
    The search plays candidate moves on the game object itself, bracketing each with
    `saveState()` and `restoreState(saved)`. */
module TethariAI {
  import opened TethariBoard
  import opened TethariMoves
  import opened TethariRules
  import opened TethariEval
  import TethariEngine

  // ---------------------------------------------------------------------------
  // `_orderMoves(game, moves)`

  function Abs(x: int): nat {
    if x < 0 then -x else x
  }

  /** The material of the piece standing on the destination, 0 when it is empty. */
  function Gain(b: Board, m: Move): nat
    requires InBounds(m.to.file, m.to.rank)
  {
    match b[m.to.file][m.to.rank]
    case None => 0
    case Some(pc) => Material(pc.kind)
  }

  /** Twice the distance of the destination from the centre (2.5, 2.5), so that it is whole. */
  function Centre(m: Move): nat {
    Abs(2 * m.to.file - 5) + Abs(2 * m.to.rank - 5)
  }

  predicate Targets(ms: seq<Move>) {
    forall m :: m in ms ==> InBounds(m.to.file, m.to.rank)
  }

  /** The comparator does not put y before x: x gains more, or gains as much and lands at
      least as close to the centre. */
  predicate Before(b: Board, x: Move, y: Move)
    requires InBounds(x.to.file, x.to.rank) && InBounds(y.to.file, y.to.rank)
  {
    Gain(b, x) > Gain(b, y) || (Gain(b, x) == Gain(b, y) && Centre(x) <= Centre(y))
  }

  ghost predicate Sorted(b: Board, ms: seq<Move>)
    requires Targets(ms)
  {
    forall i, j :: 0 <= i < j < |ms| ==> Before(b, ms[i], ms[j])
  }

  /** Puts x after every element that the comparator does not put after it. */
  function InsertLast(b: Board, sorted: seq<Move>, x: Move): (r: seq<Move>)
    requires Targets(sorted) && InBounds(x.to.file, x.to.rank)
    ensures multiset(r) == multiset(sorted) + multiset{x}
    ensures Targets(r)
    ensures Sorted(b, sorted) ==> Sorted(b, r)
  {
    if sorted == [] then [x]
    else
      var last := sorted[|sorted| - 1];
      if Before(b, last, x) then
        InsertedAfter(b, sorted, x);
        sorted + [x]
      else
        var front := sorted[..|sorted| - 1];
        assert sorted == front + [last];
        var r := InsertLast(b, front, x) + [last];
        InsertedBefore(b, sorted, x, r);
        r
  }

  lemma InsertedAfter(b: Board, sorted: seq<Move>, x: Move)
    requires Targets(sorted) && InBounds(x.to.file, x.to.rank) && |sorted| > 0
    requires Before(b, sorted[|sorted| - 1], x)
    ensures Sorted(b, sorted) ==> Sorted(b, sorted + [x])
  {
    var r := sorted + [x];
    if Sorted(b, sorted) {
      forall i, j | 0 <= i < j < |r|
        ensures Before(b, r[i], r[j])
      {
        if j == |sorted| && i < |sorted| - 1 {
          assert Before(b, sorted[i], sorted[|sorted| - 1]);
        }
      }
    }
  }

  lemma InsertedBefore(b: Board, sorted: seq<Move>, x: Move, r: seq<Move>)
    requires Targets(sorted) && InBounds(x.to.file, x.to.rank) && |sorted| > 0
    requires !Before(b, sorted[|sorted| - 1], x)
    requires var front := sorted[..|sorted| - 1];
      Targets(front) &&
      r == InsertLast(b, front, x) + [sorted[|sorted| - 1]]
    ensures Sorted(b, sorted) ==> Sorted(b, r)
  {
    var front := sorted[..|sorted| - 1];
    var last := sorted[|sorted| - 1];
    var inner := InsertLast(b, front, x);
    if Sorted(b, sorted) {
      assert Sorted(b, front);
      forall i, j | 0 <= i < j < |r|
        ensures Before(b, r[i], r[j])
      {
        if j == |inner| {
          assert r[i] in multiset(inner);
          assert r[i] == x || r[i] in front;
        }
      }
    }
  }

  /** `moves.sort(...)` with the comparator of `_orderMoves`: captures of the most valuable
      piece first, then destinations nearer the centre; the sort is stable. */
  function OrderMoves(b: Board, ms: seq<Move>): (r: seq<Move>)
    requires Targets(ms)
    ensures multiset(r) == multiset(ms)
    ensures Targets(r) && Sorted(b, r)
  {
    if ms == [] then []
    else
      var front := ms[..|ms| - 1];
      assert ms == front + [ms[|ms| - 1]];
      InsertLast(b, OrderMoves(b, front), ms[|ms| - 1])
  }

  /** Ordering keeps exactly the same moves. */
  lemma OrderMovesMembers(b: Board, ms: seq<Move>)
    requires Targets(ms)
    ensures forall m :: m in OrderMoves(b, ms) <==> m in ms
    ensures |OrderMoves(b, ms)| == |ms|
  {
    var r := OrderMoves(b, ms);
    assert |r| == |multiset(r)| == |multiset(ms)| == |ms|;
    forall m
      ensures m in r <==> m in ms
    {
      assert m in r <==> m in multiset(r);
      assert m in ms <==> m in multiset(ms);
    }
  }

  lemma AllMovesTargets(b: Board, p: Player)
    ensures Targets(AllMovesOf(b, p))
  {
    forall m | m in AllMovesOf(b, p)
      ensures InBounds(m.to.file, m.to.rank)
    {
      AllMovesPlayable(b, p, m);
    }
  }

  // ---------------------------------------------------------------------------
  // The minimax value the search computes.

  /** `Infinity` and `-Infinity` around the whole numbers. */
  datatype Bound = NegInf | Finite(n: int) | PosInf

  predicate Le(x: Bound, y: Bound) {
    x.NegInf? || y.PosInf? || (x.Finite? && y.Finite? && x.n <= y.n)
  }

  predicate Lt(x: Bound, y: Bound) {
    !Le(y, x)
  }

  function MaxB(x: Bound, y: Bound): Bound {
    if Le(x, y) then y else x
  }

  function MinB(x: Bound, y: Bound): Bound {
    if Le(x, y) then x else y
  }

  /** The moves of ms are all moves of the side to move in s. */
  ghost predicate Children(s: GameState, ms: seq<Move>) {
    forall m :: m in ms ==> m in AllMovesOf(s.board, s.active)
  }

  /** The better of two values for the side maximizing or minimizing. */
  function Better(max: bool, x: int, y: int): (r: int)
    ensures r == x || r == y
    ensures max ==> r >= x && r >= y
    ensures !max ==> r <= x && r <= y
  {
    if max then (if x > y then x else y) else (if x < y then x else y)
  }

  /** The best of a non-empty list of values, folded from the front. */
  function Best(vals: seq<int>, max: bool): int
    requires |vals| > 0
  {
    if |vals| == 1 then vals[0] else Better(max, vals[|vals| - 1], Best(vals[..|vals| - 1], max))
  }

  /** The best value is one of the values, and none is better. */
  lemma {:induction false} BestAttained(vals: seq<int>, max: bool)
    requires |vals| > 0
    ensures Best(vals, max) in vals
    ensures forall k :: 0 <= k < |vals| ==> if max then vals[k] <= Best(vals, max) else vals[k] >= Best(vals, max)
  {
    var n := |vals| - 1;
    if n > 0 {
      var front := vals[..n];
      BestAttained(front, max);
      assert forall k :: 0 <= k < n ==> vals[k] == front[k];
    }
  }

  /** Lists holding the same values have the same best. */
  lemma BestSameValues(vals1: seq<int>, vals2: seq<int>, max: bool)
    requires |vals1| > 0 && |vals2| > 0
    requires forall x :: x in vals1 <==> x in vals2
    ensures Best(vals1, max) == Best(vals2, max)
  {
    BestAttained(vals1, max);
    BestAttained(vals2, max);
  }

  /** A prefix is never better than the whole list. */
  lemma BestPrefix(vals: seq<int>, i: int, max: bool)
    requires 0 < i <= |vals|
    ensures max ==> Best(vals[..i], max) <= Best(vals, max)
    ensures !max ==> Best(vals[..i], max) >= Best(vals, max)
  {
    BestAttained(vals[..i], max);
    BestAttained(vals, max);
  }

  lemma BestStep(vals: seq<int>, i: int, max: bool)
    requires 0 < i < |vals|
    ensures Best(vals[..i + 1], max) == Better(max, vals[i], Best(vals[..i], max))
  {
    assert vals[..i + 1][..i] == vals[..i];
  }

  /** The value of the position after m, searched one ply shallower by the other side. */
  ghost function ChildValue(s: GameState, m: Move, depth: nat, max: bool): int
    requires depth >= 1 && m in AllMovesOf(s.board, s.active)
    decreases depth, 0, 0
  {
    AllMovesPlayable(s.board, s.active, m);
    Value(Apply(s, m).state, depth - 1, !max)
  }

  /** The child values of a list of moves, in list order. */
  ghost function ChildValues(s: GameState, ms: seq<Move>, depth: nat, max: bool): (vals: seq<int>)
    requires depth >= 1 && Children(s, ms)
    ensures |vals| == |ms|
    decreases depth, 0, 1
  {
    seq(|ms|, i requires 0 <= i < |ms| => ChildValue(s, ms[i], depth, max))
  }

  /** Entry i of the child values is the child value of move i. */
  lemma ChildValuesAt(s: GameState, ms: seq<Move>, depth: nat, max: bool, i: int)
    requires depth >= 1 && Children(s, ms) && 0 <= i < |ms|
    ensures ChildValues(s, ms, depth, max)[i] == ChildValue(s, ms[i], depth, max)
  {
  }

  /** Plain minimax with the scoring of `_minimax`: a finished game scores 100000 plus the
      depth left for a White win and minus that for a Black win, 0 for a draw; the horizon
      scores `_evaluate`; a side without moves scores as lost for the side maximizing or
      minimizing; otherwise the best child value. */
  ghost function Value(s: GameState, depth: nat, max: bool): int
    decreases depth, 1, 0
  {
    if s.gameOver then
      (if s.winner == Won(White) then 100000 + depth
       else if s.winner == Won(Black) then -100000 - depth
       else 0)
    else if depth == 0 then Score(s.board)
    else
      var ms := AllMovesOf(s.board, s.active);
      if |ms| == 0 then (if max then -100000 else 100000)
      else Best(ChildValues(s, ms, depth, max), max)
  }

  /** Listing the same moves in another order lists the same child values. */
  lemma ChildValuesSameMoves(s: GameState, ms1: seq<Move>, ms2: seq<Move>, depth: nat, max: bool)
    requires depth >= 1 && Children(s, ms1)
    requires forall m :: m in ms1 <==> m in ms2
    ensures Children(s, ms2)
    ensures forall x :: x in ChildValues(s, ms1, depth, max) <==> x in ChildValues(s, ms2, depth, max)
  {
    var vals1, vals2 := ChildValues(s, ms1, depth, max), ChildValues(s, ms2, depth, max);
    forall x | x in vals1
      ensures x in vals2
    {
      var k :| 0 <= k < |vals1| && vals1[k] == x;
      assert ms1[k] in ms2;
      var j :| 0 <= j < |ms2| && ms2[j] == ms1[k];
      ChildValuesAt(s, ms1, depth, max, k);
      ChildValuesAt(s, ms2, depth, max, j);
    }
    forall x | x in vals2
      ensures x in vals1
    {
      var k :| 0 <= k < |vals2| && vals2[k] == x;
      assert ms2[k] in ms1;
      var j :| 0 <= j < |ms1| && ms1[j] == ms2[k];
      ChildValuesAt(s, ms2, depth, max, k);
      ChildValuesAt(s, ms1, depth, max, j);
    }
  }

  // ---------------------------------------------------------------------------
  // What a fail-soft alpha-beta result tells about the true value.

  /** A result v of a search with window (alpha, beta) against the true value t: at or below
      alpha it is an upper bound, at or above beta a lower bound, and inside the window exact. */
  predicate FailSoft(t: int, alpha: Bound, beta: Bound, v: int) {
    (Le(Finite(v), alpha) ==> t <= v) &&
    (Le(beta, Finite(v)) ==> t >= v) &&
    (Lt(alpha, Finite(v)) && Lt(Finite(v), beta) ==> t == v)
  }

  /** With the full window the result is the true value. */
  lemma FullWindowExact(t: int, v: int)
    requires FailSoft(t, NegInf, PosInf, v)
    ensures t == v
  {
  }

  /** The invariant of the maximizing loop after some moves: what the best result so far
      says about the best true value so far, v0 being the alpha the node was called with. */
  predicate MaxSoFar(t: int, a0: Bound, beta: Bound, best: int) {
    (Lt(Finite(best), beta) ==> t <= best) &&
    (Le(beta, Finite(best)) ==> t >= best) &&
    (Lt(a0, Finite(best)) && Lt(Finite(best), beta) ==> t >= best)
  }

  predicate MinSoFar(t: int, alpha: Bound, b0: Bound, best: int) {
    (Lt(alpha, Finite(best)) ==> t >= best) &&
    (Le(Finite(best), alpha) ==> t <= best) &&
    (Lt(alpha, Finite(best)) && Lt(Finite(best), b0) ==> t <= best)
  }

  lemma MaxFirst(t: int, a0: Bound, beta: Bound, v: int)
    requires Lt(a0, beta) && FailSoft(t, a0, beta, v)
    ensures MaxSoFar(t, a0, beta, v)
  {
  }

  lemma MaxNext(t: int, a0: Bound, beta: Bound, best: int, tv: int, v: int)
    requires Lt(a0, beta) && Lt(MaxB(a0, Finite(best)), beta)
    requires MaxSoFar(t, a0, beta, best) && FailSoft(tv, MaxB(a0, Finite(best)), beta, v)
    ensures MaxSoFar(if tv > t then tv else t, a0, beta, if v > best then v else best)
  {
  }

  lemma MaxDone(t: int, a0: Bound, beta: Bound, best: int)
    requires Lt(a0, beta) && MaxSoFar(t, a0, beta, best)
    ensures FailSoft(t, a0, beta, best)
  {
  }

  lemma MinFirst(t: int, alpha: Bound, b0: Bound, v: int)
    requires Lt(alpha, b0) && FailSoft(t, alpha, b0, v)
    ensures MinSoFar(t, alpha, b0, v)
  {
  }

  lemma MinNext(t: int, alpha: Bound, b0: Bound, best: int, tv: int, v: int)
    requires Lt(alpha, b0) && Lt(alpha, MinB(b0, Finite(best)))
    requires MinSoFar(t, alpha, b0, best) && FailSoft(tv, alpha, MinB(b0, Finite(best)), v)
    ensures MinSoFar(if tv < t then tv else t, alpha, b0, if v < best then v else best)
  {
  }

  lemma MinDone(t: int, alpha: Bound, b0: Bound, best: int)
    requires Lt(alpha, b0) && MinSoFar(t, alpha, b0, best)
    ensures FailSoft(t, alpha, b0, best)
  {
  }

  /** One child of a maximizing node: the running best over the first i + 1 child values
      keeps the fail-soft relation to the window. */
  lemma MaxStep(vals: seq<int>, i: int, a0: Bound, beta: Bound, best: Bound, v: int)
    requires 0 <= i < |vals| && Lt(a0, beta)
    requires i == 0 <==> best == NegInf
    requires i > 0 ==> best.Finite? && Lt(MaxB(a0, best), beta) && MaxSoFar(Best(vals[..i], true), a0, beta, best.n)
    requires FailSoft(vals[i], MaxB(a0, best), beta, v)
    ensures MaxSoFar(Best(vals[..i + 1], true), a0, beta, if Lt(best, Finite(v)) then v else best.n)
  {
    if i == 0 {
      assert vals[..1] == [vals[0]];
      MaxFirst(vals[0], a0, beta, v);
    } else {
      BestStep(vals, i, true);
      MaxNext(Best(vals[..i], true), a0, beta, best.n, vals[i], v);
    }
  }

  /** One child of a minimizing node, the mirror image of `MaxStep`. */
  lemma MinStep(vals: seq<int>, i: int, alpha: Bound, b0: Bound, best: Bound, v: int)
    requires 0 <= i < |vals| && Lt(alpha, b0)
    requires i == 0 <==> best == PosInf
    requires i > 0 ==> best.Finite? && Lt(alpha, MinB(b0, best)) && MinSoFar(Best(vals[..i], false), alpha, b0, best.n)
    requires FailSoft(vals[i], alpha, MinB(b0, best), v)
    ensures MinSoFar(Best(vals[..i + 1], false), alpha, b0, if Lt(Finite(v), best) then v else best.n)
  {
    if i == 0 {
      assert vals[..1] == [vals[0]];
      MinFirst(vals[0], alpha, b0, v);
    } else {
      BestStep(vals, i, false);
      MinNext(Best(vals[..i], false), alpha, b0, best.n, vals[i], v);
    }
  }

  /** A maximizing node that has seen all children, or has been cut off at beta, has found
      the fail-soft value of all of them. */
  lemma MaxFinish(vals: seq<int>, i: int, a0: Bound, beta: Bound, best: Bound)
    requires 0 < i <= |vals| && Lt(a0, beta) && best.Finite?
    requires MaxSoFar(Best(vals[..i], true), a0, beta, best.n)
    requires i == |vals| || Le(beta, MaxB(a0, best))
    ensures FailSoft(Best(vals, true), a0, beta, best.n)
  {
    MaxDone(Best(vals[..i], true), a0, beta, best.n);
    BestPrefix(vals, i, true);
    if i == |vals| {
      assert vals[..i] == vals;
    }
  }

  /** The mirror image of `MaxFinish` for a minimizing node, cut off at alpha. */
  lemma MinFinish(vals: seq<int>, i: int, alpha: Bound, b0: Bound, best: Bound)
    requires 0 < i <= |vals| && Lt(alpha, b0) && best.Finite?
    requires MinSoFar(Best(vals[..i], false), alpha, b0, best.n)
    requires i == |vals| || Le(MinB(b0, best), alpha)
    ensures FailSoft(Best(vals, false), alpha, b0, best.n)
  {
    MinDone(Best(vals[..i], false), alpha, b0, best.n);
    BestPrefix(vals, i, false);
    if i == |vals| {
      assert vals[..i] == vals;
    }
  }

  // ---------------------------------------------------------------------------
  // `_minimax(game, depth, alpha, beta, maximizing)`

  /** `_minimax`: leaves the snapshot state of the game as it found it, and returns a
      fail-soft bound on the minimax value of the position. */
  method Minimax(game: TethariEngine.TethariGame, depth: nat, alpha: Bound, beta: Bound, max: bool)
    returns (v: int)
    modifies game
    decreases depth, 2
    ensures game.State() == old(game.State())
    ensures Lt(alpha, beta) ==> FailSoft(Value(old(game.State()), depth, max), alpha, beta, v)
  {
    ghost var s := game.State();
    if game.gameOver {
      if game.winner == Won(White) {
        return 100000 + depth;
      }
      if game.winner == Won(Black) {
        return -100000 - depth;
      }
      return 0;
    }
    if depth == 0 {
      v := Evaluate(game);
      return;
    }
    var moves := game.AllMoves(game.activePlayer);
    if |moves| == 0 {
      return if max then -100000 else 100000;
    }
    AllMovesTargets(game.board, game.activePlayer);
    var ordered := OrderMoves(game.board, moves);
    OrderMovesMembers(game.board, moves);
    ChildValuesSameMoves(s, moves, ordered, depth, max);
    BestSameValues(ChildValues(s, moves, depth, max), ChildValues(s, ordered, depth, max), max);
    if max {
      v := MaxNode(game, s, ordered, depth, alpha, beta);
    } else {
      v := MinNode(game, s, ordered, depth, alpha, beta);
    }
  }

  /** One iteration of either loop of `_minimax`: save, play move i, search the reply,
      restore. */
  method SearchChild(game: TethariEngine.TethariGame, ghost s: GameState, ms: seq<Move>, i: int, depth: nat,
                     alpha: Bound, beta: Bound, max: bool)
    returns (value: int)
    requires game.State() == s && depth >= 1 && Children(s, ms) && 0 <= i < |ms|
    modifies game
    decreases depth, 0, 1
    ensures game.State() == s
    ensures Lt(alpha, beta) ==> FailSoft(ChildValues(s, ms, depth, max)[i], alpha, beta, value)
  {
    value := SearchMove(game, s, ms[i], depth, alpha, beta, max);
    ChildValuesAt(s, ms, depth, max, i);
  }

  /** Save, play one move, search the reply, restore. */
  method SearchMove(game: TethariEngine.TethariGame, ghost s: GameState, move: Move, depth: nat,
                    alpha: Bound, beta: Bound, max: bool)
    returns (value: int)
    requires game.State() == s && depth >= 1 && move in AllMovesOf(s.board, s.active)
    modifies game
    decreases depth, 0, 0
    ensures game.State() == s
    ensures Lt(alpha, beta) ==> FailSoft(ChildValue(s, move, depth, max), alpha, beta, value)
  {
    AllMovesPlayable(s.board, s.active, move);
    var saved := game.SaveState();
    game.ExecuteMove(move);
    value := Minimax(game, depth - 1, alpha, beta, !max);
    game.RestoreState(saved);
  }

  /** The maximizing branch of `_minimax`: raises alpha as results come in and stops once
      beta <= alpha. */
  method MaxNode(game: TethariEngine.TethariGame, ghost s: GameState, ms: seq<Move>, depth: nat, alpha0: Bound, beta: Bound)
    returns (v: int)
    requires game.State() == s && depth >= 1 && |ms| > 0 && Children(s, ms)
    modifies game
    decreases depth, 1
    ensures game.State() == s
    ensures Lt(alpha0, beta) ==> FailSoft(Best(ChildValues(s, ms, depth, true), true), alpha0, beta, v)
  {
    ghost var vals := ChildValues(s, ms, depth, true);
    var alpha := alpha0;
    var best: Bound := NegInf;
    var i := 0;
    while i < |ms|
      invariant 0 <= i <= |ms| && game.State() == s
      invariant i == 0 <==> best == NegInf
      invariant i > 0 ==> best.Finite? && Lt(alpha, beta)
      invariant alpha == MaxB(alpha0, best)
      invariant i > 0 && Lt(alpha0, beta) ==> MaxSoFar(Best(vals[..i], true), alpha0, beta, best.n)
      decreases |ms| - i
    {
      var value := SearchChild(game, s, ms, i, depth, alpha, beta, true);
      ghost var before := best;
      if Lt(best, Finite(value)) {
        best := Finite(value);
      }
      if Lt(alpha, Finite(value)) {
        alpha := Finite(value);
      }
      if Lt(alpha0, beta) {
        MaxStep(vals, i, alpha0, beta, before, value);
      }
      i := i + 1;
      if Le(beta, alpha) {
        break;
      }
    }
    v := best.n;
    if Lt(alpha0, beta) {
      MaxFinish(vals, i, alpha0, beta, best);
    }
  }

  /** The minimizing branch of `_minimax`: lowers beta as results come in and stops once
      beta <= alpha. */
  method MinNode(game: TethariEngine.TethariGame, ghost s: GameState, ms: seq<Move>, depth: nat, alpha: Bound, beta0: Bound)
    returns (v: int)
    requires game.State() == s && depth >= 1 && |ms| > 0 && Children(s, ms)
    modifies game
    decreases depth, 1
    ensures game.State() == s
    ensures Lt(alpha, beta0) ==> FailSoft(Best(ChildValues(s, ms, depth, false), false), alpha, beta0, v)
  {
    ghost var vals := ChildValues(s, ms, depth, false);
    var beta := beta0;
    var best: Bound := PosInf;
    var i := 0;
    while i < |ms|
      invariant 0 <= i <= |ms| && game.State() == s
      invariant i == 0 <==> best == PosInf
      invariant i > 0 ==> best.Finite? && Lt(alpha, beta)
      invariant beta == MinB(beta0, best)
      invariant i > 0 && Lt(alpha, beta0) ==> MinSoFar(Best(vals[..i], false), alpha, beta0, best.n)
      decreases |ms| - i
    {
      var value := SearchChild(game, s, ms, i, depth, alpha, beta, false);
      ghost var before := best;
      if Lt(Finite(value), best) {
        best := Finite(value);
      }
      if Lt(Finite(value), beta) {
        beta := Finite(value);
      }
      if Lt(alpha, beta0) {
        MinStep(vals, i, alpha, beta0, before, value);
      }
      i := i + 1;
      if Le(beta, alpha) {
        break;
      }
    }
    v := best.n;
    if Lt(alpha, beta0) {
      MinFinish(vals, i, alpha, beta0, best);
    }
  }

  // ---------------------------------------------------------------------------
  // `findBestMove(game, depth)`

  /** `findBestMove`: no move when the side to move has none; otherwise one of its moves
      whose value, searched with the full window, is the best for that side (largest for
      White, smallest for Black) and equals the minimax value of the position. The random
      choice among the tied moves is the index `pick` reduced modulo their number. */
  method FindBestMove(game: TethariEngine.TethariGame, depth: nat, pick: nat) returns (r: Option<Move>)
    requires depth >= 1
    modifies game
    ensures game.State() == old(game.State())
    ensures var s := old(game.State());
      r.None? <==> |AllMovesOf(s.board, s.active)| == 0
    ensures var s := old(game.State()); var max := s.active == White;
      r.Some? ==>
        (r.value in AllMovesOf(s.board, s.active) &&
         forall m :: m in AllMovesOf(s.board, s.active) ==>
           if max then ChildValue(s, m, depth, max) <= ChildValue(s, r.value, depth, max)
           else ChildValue(s, m, depth, max) >= ChildValue(s, r.value, depth, max))
    ensures var s := old(game.State()); var max := s.active == White;
      r.Some? && !s.gameOver ==> ChildValue(s, r.value, depth, max) == Value(s, depth, max)
  {
    ghost var s := game.State();
    var moves := game.AllMoves(game.activePlayer);
    if |moves| == 0 {
      return None;
    }
    var maximizing := game.activePlayer == White;
    AllMovesTargets(game.board, game.activePlayer);
    var ordered := OrderMoves(game.board, moves);
    OrderMovesMembers(game.board, moves);
    var bestMoves, where := RootMoves(game, s, ordered, depth, maximizing);
    var chosen := pick % |bestMoves|;
    r := Some(bestMoves[chosen]);
    ChosenIsBest(s, moves, ordered, where[chosen], depth, maximizing);
  }

  /** The loop of `findBestMove`: every move is searched with the full window, and the moves
      tied for the best value so far are kept, in order. */
  method RootMoves(game: TethariEngine.TethariGame, ghost s: GameState, ordered: seq<Move>, depth: nat, maximizing: bool)
    returns (bestMoves: seq<Move>, ghost where: seq<int>)
    requires game.State() == s && depth >= 1 && |ordered| > 0 && Children(s, ordered)
    modifies game
    ensures game.State() == s
    ensures |bestMoves| > 0
    ensures var vals := ChildValues(s, ordered, depth, maximizing);
      Tied(ordered, vals, bestMoves, where, Finite(Best(vals, maximizing)))
  {
    var bestValue: Bound := if maximizing then NegInf else PosInf;
    bestMoves := [];
    ghost var vals := ChildValues(s, ordered, depth, maximizing);
    where := [];
    var i := 0;
    while i < |ordered|
      invariant 0 <= i <= |ordered| && game.State() == s
      invariant i == 0 ==> bestMoves == [] && bestValue == (if maximizing then NegInf else PosInf)
      invariant i > 0 ==> bestValue == Finite(Best(vals[..i], maximizing)) && |bestMoves| > 0
      invariant Tied(ordered, vals, bestMoves, where, bestValue)
    {
      var move := ordered[i];
      var value := SearchChild(game, s, ordered, i, depth, NegInf, PosInf, maximizing);
      FullWindowExact(vals[i], value);
      RootStep(vals, i, maximizing, bestValue);
      if (maximizing && Lt(bestValue, Finite(value))) || (!maximizing && Lt(Finite(value), bestValue)) {
        bestValue := Finite(value);
        bestMoves := [move];
        where := [i];
      } else if bestValue == Finite(value) {
        TiedAppend(ordered, vals, bestMoves, where, bestValue, i);
        bestMoves := bestMoves + [move];
        where := where + [i];
      }
      i := i + 1;
    }
    assert vals[..i] == vals;
  }

  /** The moves kept as tied, with the positions in the ordered list they came from, all
      have the best value so far. */
  ghost predicate Tied(ordered: seq<Move>, vals: seq<int>, tied: seq<Move>, where: seq<int>, best: Bound) {
    |where| == |tied| && |vals| == |ordered| &&
    forall k :: 0 <= k < |where| ==>
      0 <= where[k] < |ordered| && tied[k] == ordered[where[k]] && best == Finite(vals[where[k]])
  }

  lemma TiedAppend(ordered: seq<Move>, vals: seq<int>, tied: seq<Move>, where: seq<int>, best: Bound, i: int)
    requires Tied(ordered, vals, tied, where, best) && 0 <= i < |ordered| && best == Finite(vals[i])
    ensures Tied(ordered, vals, tied + [ordered[i]], where + [i], best)
  {
  }

  /** How the best value so far changes when `findBestMove` meets the value of move i. */
  lemma RootStep(vals: seq<int>, i: int, max: bool, bestValue: Bound)
    requires 0 <= i < |vals|
    requires i == 0 ==> bestValue == (if max then NegInf else PosInf)
    requires i > 0 ==> bestValue == Finite(Best(vals[..i], max))
    ensures var v := vals[i];
      if (max && Lt(bestValue, Finite(v))) || (!max && Lt(Finite(v), bestValue)) || bestValue == Finite(v) then
        Best(vals[..i + 1], max) == v
      else
        i > 0 && Best(vals[..i + 1], max) == bestValue.n
  {
    if i == 0 {
      assert vals[..1] == [vals[0]];
    } else {
      BestStep(vals, i, max);
    }
  }

  /** A move of the ordered list with the best value dominates every move of the side and,
      in a running game, has the minimax value of the position. */
  lemma ChosenIsBest(s: GameState, moves: seq<Move>, ordered: seq<Move>, k: int, depth: nat, max: bool)
    requires depth >= 1 && moves == AllMovesOf(s.board, s.active) && |moves| > 0
    requires forall m :: m in ordered <==> m in moves
    requires Children(s, ordered) && 0 <= k < |ordered|
    requires ChildValues(s, ordered, depth, max)[k] == Best(ChildValues(s, ordered, depth, max), max)
    ensures ordered[k] in moves
    ensures forall m :: m in moves ==>
      if max then ChildValue(s, m, depth, max) <= ChildValue(s, ordered[k], depth, max)
      else ChildValue(s, m, depth, max) >= ChildValue(s, ordered[k], depth, max)
    ensures !s.gameOver ==> ChildValue(s, ordered[k], depth, max) == Value(s, depth, max)
  {
    var vals := ChildValues(s, ordered, depth, max);
    BestAttained(vals, max);
    ChildValuesAt(s, ordered, depth, max, k);
    forall m | m in moves
      ensures if max then ChildValue(s, m, depth, max) <= ChildValue(s, ordered[k], depth, max)
        else ChildValue(s, m, depth, max) >= ChildValue(s, ordered[k], depth, max)
    {
      var j :| 0 <= j < |ordered| && ordered[j] == m;
      ChildValuesAt(s, ordered, depth, max, j);
    }
    ChildValuesSameMoves(s, moves, ordered, depth, max);
    BestSameValues(ChildValues(s, moves, depth, max), vals, max);
  }
}
