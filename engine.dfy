/** `TethariGame`: the mutable game object. Its methods update the board, counters and lists
    in place, and each is proved to produce what the pure rules say. */
module TethariEngine {
  import opened TethariBoard
  import opened TethariMoves
  import opened TethariRules

  /** An entry of the list `loadPosition` takes: square text, side, kind and mark. */
  datatype Placement = Placement(square: string, owner: Player, kind: Kind, endangered: bool)

  // ---------------------------------------------------------------------------
  // The two ways a game starts.

  /** Back-rank kinds by file, a to f: Klinge, Waechter, Hauptmann, Turm, Waechter, Klinge. */
  function BackRank(file: int): Kind
    requires 0 <= file < Size
  {
    [Klinge, Waechter, Hauptmann, Turm, Waechter, Klinge][file]
  }

  /** The default layout: White on ranks 1 and 2, Black mirrored on ranks 6 and 5, with
      Tuemmler on files b and f and the Springer on file d of the second rank. */
  function DefaultCell(file: int, rank: int): Cell
    requires InBounds(file, rank)
  {
    if rank == 0 then Some(Piece(White, BackRank(file), false))
    else if rank == Size - 1 then Some(Piece(Black, BackRank(file), false))
    else if (rank == 1 || rank == Size - 2) && (file == 1 || file == 3 || file == 5) then
      Some(Piece(if rank == 1 then White else Black, if file == 3 then Springer else Tuemmler, false))
    else None
  }

  function DefaultBoard(): (b: Board)
    ensures forall f, r {:trigger DefaultCell(f, r)} {:trigger b[f][r]} :: InBounds(f, r) ==> b[f][r] == DefaultCell(f, r)
  {
    seq(Size, f requires 0 <= f < Size => seq(Size, r requires 0 <= r < Size => DefaultCell(f, r)))
  }

  function InitialState(): GameState {
    GameState(DefaultBoard(), White, 0, 0, false, Undecided, [], [], [HashOf(White, DefaultBoard())])
  }

  /** The placement loop of `loadPosition`: entries whose square does not parse are skipped,
      and a later entry for the same square overwrites an earlier one. */
  function PlaceAll(b: Board, ps: seq<Placement>): Board
  {
    if ps == [] then b
    else
      var rest := PlaceAll(b, ps[..|ps| - 1]);
      var x := ps[|ps| - 1];
      match ParseCoord(x.square)
      case None => rest
      case Some(sq) => Put(rest, sq.file, sq.rank, Some(Piece(x.owner, x.kind, x.endangered)))
  }

  function LoadedState(ps: seq<Placement>, active: Player): GameState {
    var b := PlaceAll(EmptyGrid(), ps);
    GameState(b, active, 0, 0, false, Undecided, [], [], [HashOf(active, b)])
  }

  /** Placement i names the square (file, rank). */
  predicate Places(ps: seq<Placement>, i: int, file: int, rank: int)
    requires 0 <= i < |ps|
  {
    ParseCoord(ps[i].square) == Some(Square(file, rank))
  }

  /** The index of the last placement naming (file, rank), or -1 when none does. */
  function LastPlacing(ps: seq<Placement>, file: int, rank: int): (i: int)
    ensures -1 <= i < |ps|
    ensures i >= 0 ==> Places(ps, i, file, rank)
    ensures forall j :: i < j < |ps| ==> !Places(ps, j, file, rank)
  {
    if ps == [] then -1
    else if Places(ps, |ps| - 1, file, rank) then |ps| - 1
    else
      var front := ps[..|ps| - 1];
      assert forall j :: 0 <= j < |front| ==> Places(front, j, file, rank) == Places(ps, j, file, rank);
      LastPlacing(front, file, rank)
  }

  /** After loading, a square holds the piece of the last entry naming it, and is empty when
      no entry names it. */
  lemma {:induction false} PlaceAllSquare(ps: seq<Placement>, file: int, rank: int)
    requires InBounds(file, rank)
    ensures var i := LastPlacing(ps, file, rank);
      PlaceAll(EmptyGrid(), ps)[file][rank] ==
        if i < 0 then None else Some(Piece(ps[i].owner, ps[i].kind, ps[i].endangered))
  {
    if ps != [] {
      var front := ps[..|ps| - 1];
      PlaceAllSquare(front, file, rank);
    }
  }

  /** The default layout is symmetric: Black's pieces are White's reflected across the middle
      of the board, and no piece starts marked. */
  lemma DefaultMirrored(file: int, rank: int)
    requires InBounds(file, rank)
    ensures DefaultBoard()[file][rank].Some? == DefaultBoard()[file][Size - 1 - rank].Some?
    ensures DefaultBoard()[file][rank].Some? ==>
      var a, b := DefaultBoard()[file][rank].value, DefaultBoard()[file][Size - 1 - rank].value;
      a.kind == b.kind && a.owner == Opposite(b.owner) && !a.endangered
    ensures DefaultBoard()[file][rank].Some? ==> (DefaultBoard()[file][rank].value.owner == White <==> rank < Size / 2)
  {
  }

  // ---------------------------------------------------------------------------
  // Helpers for the square-by-square loops.

  /** Some entry of the list stands on (file, rank). */
  ghost predicate Names(ps: seq<Located>, file: int, rank: int) {
    exists x :: x in ps && x.file == file && x.rank == rank
  }

  /** Some death of the list stands on (file, rank). */
  ghost predicate DiesAt(ds: seq<Death>, file: int, rank: int) {
    exists d :: d in ds && d.file == file && d.rank == rank
  }

  function Unmarked(c: Cell): Cell {
    match c
    case None => None
    case Some(pc) => Some(pc.(endangered := false))
  }

  lemma NamesSnoc(ps: seq<Located>, i: int)
    requires 0 <= i < |ps|
    ensures forall f, r :: Names(ps[..i + 1], f, r) <==> Names(ps[..i], f, r) || (f == ps[i].file && r == ps[i].rank)
  {
    assert ps[..i + 1] == ps[..i] + [ps[i]];
    forall f, r
      ensures Names(ps[..i + 1], f, r) <==> Names(ps[..i], f, r) || (f == ps[i].file && r == ps[i].rank)
    {
      if Names(ps[..i + 1], f, r) {
        var x :| x in ps[..i + 1] && x.file == f && x.rank == r;
        assert x in ps[..i] || x == ps[i];
      }
      if f == ps[i].file && r == ps[i].rank {
        assert ps[i] in ps[..i + 1];
      }
    }
  }

  lemma DiesAtSnoc(ds: seq<Death>, i: int)
    requires 0 <= i < |ds|
    ensures forall f, r :: DiesAt(ds[..i + 1], f, r) <==> DiesAt(ds[..i], f, r) || (f == ds[i].file && r == ds[i].rank)
  {
    assert ds[..i + 1] == ds[..i] + [ds[i]];
    forall f, r
      ensures DiesAt(ds[..i + 1], f, r) <==> DiesAt(ds[..i], f, r) || (f == ds[i].file && r == ds[i].rank)
    {
      if DiesAt(ds[..i + 1], f, r) {
        var d :| d in ds[..i + 1] && d.file == f && d.rank == r;
        assert d in ds[..i] || d == ds[i];
      }
      if f == ds[i].file && r == ds[i].rank {
        assert ds[i] in ds[..i + 1];
      }
    }
  }

  /** The pieces list names exactly the squares of the side's pieces. */
  lemma NamesOwn(b: Board, p: Player, file: int, rank: int)
    ensures Names(PiecesOf(b, p), file, rank) <==> Friendly(b, file, rank, p)
  {
    if Friendly(b, file, rank, p) {
      var pc := b[file][rank].value;
      PiecesOfMember(b, p, Located(file, rank, pc.kind, pc.endangered));
    }
  }

  /** An entry of the pieces list stands on no square named by an earlier entry. */
  lemma PiecesOfFresh(b: Board, p: Player, i: int)
    requires 0 <= i < |PiecesOf(b, p)|
    ensures !Names(PiecesOf(b, p)[..i], PiecesOf(b, p)[i].file, PiecesOf(b, p)[i].rank)
  {
    var ps := PiecesOf(b, p);
    forall y | y in ps[..i]
      ensures y.file != ps[i].file || y.rank != ps[i].rank
    {
      var j :| 0 <= j < i && ps[j] == y;
      PiecesOfDistinct(b, p, j, i);
    }
  }

  /** Deaths listed in strictly increasing scan order. */
  predicate DeathsInScanOrder(ds: seq<Death>) {
    forall i, j :: 0 <= i < j < |ds| ==> Index(ds[i].file, ds[i].rank) < Index(ds[j].file, ds[j].rank)
  }

  lemma {:induction false} DyingAmongSorted(b: Board, p: Player, ps: seq<Located>)
    requires InScanOrder(ps)
    ensures DeathsInScanOrder(DyingAmong(b, p, ps))
  {
    if ps != [] {
      var front := ps[..|ps| - 1];
      var last := ps[|ps| - 1];
      DyingAmongSorted(b, p, front);
      var ds := DyingAmong(b, p, front);
      forall i | 0 <= i < |ds|
        ensures Index(ds[i].file, ds[i].rank) < Index(last.file, last.rank)
      {
        DyingAmongMember(b, p, front, ds[i]);
        var x :| x in front && x.endangered && Isolated(b, x.file, x.rank, p) && ds[i] == Death(x.file, x.rank, x.kind);
        var k :| 0 <= k < |front| && front[k] == x;
        assert ps[k] == x && k < |ps| - 1;
      }
      var tail := if last.endangered && Isolated(b, last.file, last.rank, p) then [Death(last.file, last.rank, last.kind)] else [];
      assert DyingAmong(b, p, ps) == ds + tail;
    }
  }

  /** The deaths list names each square once. */
  lemma DeathsFresh(b: Board, p: Player, i: int)
    requires 0 <= i < |Deaths(b, p)|
    ensures !DiesAt(Deaths(b, p)[..i], Deaths(b, p)[i].file, Deaths(b, p)[i].rank)
  {
    var ds := Deaths(b, p);
    var ps := PiecesOf(b, p);
    assert ds == DyingAmong(b, p, ps);
    PiecesUpToSorted(b, p, Size * Size);
    DyingAmongSorted(b, p, ps);
    assert DeathsInScanOrder(ds);
    forall e | e in ds[..i]
      ensures e.file != ds[i].file || e.rank != ds[i].rank
    {
      var j :| 0 <= j < i && ds[..i][j] == e;
      assert ds[j] == e;
      assert Index(ds[j].file, ds[j].rank) < Index(ds[i].file, ds[i].rank);
    }
  }

  /** The pieces whose mark `_resolveEndangered` clears stand on own marked squares that are
      not isolated, so none of them is a death square. */
  lemma ClearedSquares(b: Board, p: Player, clearMarks: seq<Located>)
    requires forall x :: x in clearMarks <==> x in PiecesOf(b, p) && x.endangered && !Isolated(b, x.file, x.rank, p)
    ensures forall i :: 0 <= i < |clearMarks| ==> InBounds(clearMarks[i].file, clearMarks[i].rank)
    ensures forall f, r {:trigger Isolated(b, f, r, p)} {:trigger b[f][r]} {:trigger Names(clearMarks, f, r)} :: Names(clearMarks, f, r) ==>
      InBounds(f, r) && b[f][r].Some? && b[f][r].value.owner == p && b[f][r].value.endangered && !Isolated(b, f, r, p)
  {
    forall i | 0 <= i < |clearMarks|
      ensures InBounds(clearMarks[i].file, clearMarks[i].rank)
    {
      PiecesOfMember(b, p, clearMarks[i]);
    }
    forall f, r {:trigger Isolated(b, f, r, p)} {:trigger b[f][r]} {:trigger Names(clearMarks, f, r)} | Names(clearMarks, f, r)
      ensures InBounds(f, r) && b[f][r].Some? && b[f][r].value.owner == p && b[f][r].value.endangered && !Isolated(b, f, r, p)
    {
      var x :| x in clearMarks && x.file == f && x.rank == r;
      PiecesOfMember(b, p, x);
    }
  }

  /** With one own piece or none, clearing every own mark is the whole resolution. */
  lemma ResolvedLastMan(b0: Board, p: Player, b1: Board)
    requires PieceCount(b0, p) <= 1
    requires forall f, r {:trigger b0[f][r]} {:trigger Names(PiecesOf(b0, p), f, r)} {:trigger b1[f][r]} :: InBounds(f, r) ==>
      b1[f][r] == if Names(PiecesOf(b0, p), f, r) then Unmarked(b0[f][r]) else b0[f][r]
    ensures b1 == ResolvedBoard(b0, p)
  {
    forall f, r {:trigger ResolvedBoard(b0, p)[f][r]} {:trigger b1[f][r]} | InBounds(f, r)
      ensures b1[f][r] == ResolvedBoard(b0, p)[f][r]
    {
      NamesOwn(b0, p, f, r);
    }
    BoardsEqual(b1, ResolvedBoard(b0, p));
  }

  /** After the marks are cleared every death square still holds its marked piece, and the
      deaths list names each square once. */
  lemma DeathsSurviveClearing(b0: Board, p: Player, clearMarks: seq<Located>, bc: Board)
    requires forall x :: x in clearMarks <==> x in PiecesOf(b0, p) && x.endangered && !Isolated(b0, x.file, x.rank, p)
    requires forall f, r {:trigger b0[f][r]} {:trigger Names(clearMarks, f, r)} {:trigger bc[f][r]} :: InBounds(f, r) ==>
      bc[f][r] == if Names(clearMarks, f, r) then Unmarked(b0[f][r]) else b0[f][r]
    ensures var ds := Deaths(b0, p); forall i :: 0 <= i < |ds| ==>
      InBounds(ds[i].file, ds[i].rank) && bc[ds[i].file][ds[i].rank] == Some(Piece(p, ds[i].kind, true))
    ensures var ds := Deaths(b0, p); forall i :: 0 <= i < |ds| ==> !DiesAt(ds[..i], ds[i].file, ds[i].rank)
  {
    ClearedSquares(b0, p, clearMarks);
    var ds := Deaths(b0, p);
    forall i | 0 <= i < |ds|
      ensures InBounds(ds[i].file, ds[i].rank) && bc[ds[i].file][ds[i].rank] == Some(Piece(p, ds[i].kind, true))
      ensures !DiesAt(ds[..i], ds[i].file, ds[i].rank)
    {
      DeathsFresh(b0, p, i);
      DeathsMember(b0, p, ds[i]);
    }
  }

  /** Clearing the marks of the non-isolated marked pieces and then emptying the death
      squares leaves exactly the resolved board. */
  lemma ResolvedAfterBurial(b0: Board, p: Player, clearMarks: seq<Located>, bc: Board, b1: Board)
    requires PieceCount(b0, p) > 1
    requires forall x :: x in clearMarks <==> x in PiecesOf(b0, p) && x.endangered && !Isolated(b0, x.file, x.rank, p)
    requires forall f, r {:trigger b0[f][r]} {:trigger Names(clearMarks, f, r)} {:trigger bc[f][r]} :: InBounds(f, r) ==>
      bc[f][r] == if Names(clearMarks, f, r) then Unmarked(b0[f][r]) else b0[f][r]
    requires forall f, r {:trigger bc[f][r]} {:trigger DiesAt(Deaths(b0, p), f, r)} {:trigger b1[f][r]} :: InBounds(f, r) ==>
      b1[f][r] == if DiesAt(Deaths(b0, p), f, r) then None else bc[f][r]
    ensures b1 == ResolvedBoard(b0, p)
  {
    ClearedSquares(b0, p, clearMarks);
    forall f, r {:trigger ResolvedBoard(b0, p)[f][r]} {:trigger b1[f][r]} | InBounds(f, r)
      ensures b1[f][r] == ResolvedBoard(b0, p)[f][r]
    {
      if DiesAt(Deaths(b0, p), f, r) {
        var e :| e in Deaths(b0, p) && e.file == f && e.rank == r;
        DeathsMember(b0, p, e);
      } else if b0[f][r].Some? {
        var pc := b0[f][r].value;
        DeathsMember(b0, p, Death(f, r, pc.kind));
        if pc.owner == p && pc.endangered && !Isolated(b0, f, r, p) {
          PiecesOfMember(b0, p, Located(f, r, pc.kind, pc.endangered));
          assert Located(f, r, pc.kind, pc.endangered) in clearMarks;
        }
      }
    }
    BoardsEqual(b1, ResolvedBoard(b0, p));
  }

  /** The second loop of `_resolveEndangered`: the kind of each dying piece, in order, and
      the board with every death square emptied. */
  method Bury(b: Board, p: Player, deaths: seq<Death>) returns (b': Board, lost: seq<Kind>)
    requires forall i :: 0 <= i < |deaths| ==>
      InBounds(deaths[i].file, deaths[i].rank) && b[deaths[i].file][deaths[i].rank] == Some(Piece(p, deaths[i].kind, true))
    requires forall i :: 0 <= i < |deaths| ==> !DiesAt(deaths[..i], deaths[i].file, deaths[i].rank)
    ensures forall f, r {:trigger b[f][r]} {:trigger DiesAt(deaths, f, r)} {:trigger b'[f][r]} :: InBounds(f, r) ==> b'[f][r] == if DiesAt(deaths, f, r) then None else b[f][r]
    ensures lost == DeathKinds(deaths)
  {
    b' := b;
    lost := [];
    for i := 0 to |deaths|
      invariant forall f, r {:trigger b[f][r]} {:trigger DiesAt(deaths[..i], f, r)} {:trigger b'[f][r]} :: InBounds(f, r) ==> b'[f][r] == if DiesAt(deaths[..i], f, r) then None else b[f][r]
      invariant lost == DeathKinds(deaths[..i])
    {
      var d := deaths[i];
      DiesAtSnoc(deaths, i);
      var dying := b'[d.file][d.rank];
      assert dying == Some(Piece(p, d.kind, true));
      assert DeathKinds(deaths[..i + 1]) == DeathKinds(deaths[..i]) + [d.kind];
      lost := lost + [dying.value.kind];
      b' := Put(b', d.file, d.rank, None);
    }
    assert deaths[..|deaths|] == deaths;
  }

  /** `_isIsolated(file, rank, player)`: looks for a friendly neighbour, stopping at the first. */
  method IsIsolated(b: Board, file: int, rank: int, p: Player) returns (iso: bool)
    ensures iso == Isolated(b, file, rank, p)
  {
    for i := 0 to |AllDirs|
      invariant forall j :: 0 <= j < i ==> !Friendly(b, file + AllDirs[j].0, rank + AllDirs[j].1, p)
    {
      var nearFile, nearRank := file + AllDirs[i].0, rank + AllDirs[i].1;
      if !InBounds(nearFile, nearRank) {
        continue;
      }
      var near := b[nearFile][nearRank];
      if near.Some? && near.value.owner == p {
        return false;
      }
    }
    return true;
  }

  /** b' is b with the pieces of ps marked as `_markEndangered` marks them. */
  ghost predicate MarkedWhere(b: Board, p: Player, ps: seq<Located>, b': Board) {
    forall f, r {:trigger b[f][r]} {:trigger MarkedCell(b, p, true, f, r)} {:trigger Names(ps, f, r)} {:trigger b'[f][r]} :: InBounds(f, r) ==>
      b'[f][r] == if Names(ps, f, r) then MarkedCell(b, p, true, f, r) else b[f][r]
  }

  /** The loop of `_markEndangered` over the pieces list: each piece is marked when isolated
      on the board as it currently stands and unmarked otherwise. */
  method MarkPieces(b: Board, p: Player, own: seq<Located>) returns (b': Board, marked: seq<Square>)
    requires own == PiecesOf(b, p)
    ensures MarkedWhere(b, p, own, b')
    ensures marked == NewlyAmong(b, p, own)
  {
    b' := b;
    marked := [];
    for i := 0 to |own|
      invariant marked == NewlyAmong(b, p, own[..i])
      invariant MarkedWhere(b, p, own[..i], b')
      invariant SameOwners(b, b')
    {
      var x := own[i];
      MarkStepCell(b, p, i, b');
      var cell := b'[x.file][x.rank];
      var isolated := IsIsolated(b', x.file, x.rank, p);
      IsolatedSameOwners(b, b', x.file, x.rank, p);
      if isolated && !cell.value.endangered {
        marked := marked + [Square(x.file, x.rank)];
      }
      var b2 := Put(b', x.file, x.rank, Some(cell.value.(endangered := isolated)));
      MarkStep(b, p, i, b', b2);
      b' := b2;
    }
    assert own[..|own|] == own;
  }

  /** The piece the marking loop reaches next still stands unchanged on its square. */
  lemma MarkStepCell(b: Board, p: Player, i: int, b': Board)
    requires 0 <= i < |PiecesOf(b, p)|
    requires MarkedWhere(b, p, PiecesOf(b, p)[..i], b')
    ensures var x := PiecesOf(b, p)[i];
      InBounds(x.file, x.rank) && b'[x.file][x.rank] == Some(Piece(p, x.kind, x.endangered))
  {
    var x := PiecesOf(b, p)[i];
    PiecesOfFresh(b, p, i);
    PiecesOfMember(b, p, x);
  }

  /** One step of the marking loop extends the marked prefix by one piece. */
  lemma MarkStep(b: Board, p: Player, i: int, b': Board, b2: Board)
    requires 0 <= i < |PiecesOf(b, p)|
    requires MarkedWhere(b, p, PiecesOf(b, p)[..i], b')
    requires var x := PiecesOf(b, p)[i];
      InBounds(x.file, x.rank) &&
      b2 == Put(b', x.file, x.rank, Some(Piece(p, x.kind, Isolated(b, x.file, x.rank, p))))
    ensures MarkedWhere(b, p, PiecesOf(b, p)[..i + 1], b2)
    ensures SameOwners(b', b2)
    ensures var x := PiecesOf(b, p)[i];
      NewlyAmong(b, p, PiecesOf(b, p)[..i + 1]) == NewlyAmong(b, p, PiecesOf(b, p)[..i]) +
        (if !x.endangered && Isolated(b, x.file, x.rank, p) then [Square(x.file, x.rank)] else [])
  {
    var own := PiecesOf(b, p);
    assert own[..i + 1] == own[..i] + [own[i]];
    assert own[..i + 1][..i] == own[..i];
    NamesSnoc(own, i);
    PiecesOfMember(b, p, own[i]);
  }

  /** With one own piece or none, clearing every own mark is the whole marking pass. */
  lemma MarkedLastMan(b0: Board, p: Player, b1: Board)
    requires PieceCount(b0, p) <= 1
    requires forall f, r {:trigger b0[f][r]} {:trigger Names(PiecesOf(b0, p), f, r)} {:trigger b1[f][r]} :: InBounds(f, r) ==>
      b1[f][r] == if Names(PiecesOf(b0, p), f, r) then Unmarked(b0[f][r]) else b0[f][r]
    ensures b1 == MarkedBoard(b0, p)
  {
    forall f, r {:trigger MarkedBoard(b0, p)[f][r]} {:trigger b1[f][r]} | InBounds(f, r)
      ensures b1[f][r] == MarkedBoard(b0, p)[f][r]
    {
      NamesOwn(b0, p, f, r);
    }
    BoardsEqual(b1, MarkedBoard(b0, p));
  }

  /** With two or more own pieces, marking every listed piece is the whole marking pass. */
  lemma MarkedAll(b0: Board, p: Player, b1: Board)
    requires PieceCount(b0, p) > 1
    requires MarkedWhere(b0, p, PiecesOf(b0, p), b1)
    ensures b1 == MarkedBoard(b0, p)
  {
    forall f, r {:trigger MarkedBoard(b0, p)[f][r]} {:trigger b1[f][r]} | InBounds(f, r)
      ensures b1[f][r] == MarkedBoard(b0, p)[f][r]
    {
      NamesOwn(b0, p, f, r);
    }
    BoardsEqual(b1, MarkedBoard(b0, p));
  }

  /** `_notation(...)`: the move-log text of a move. */
  method Notation(k: Kind, m: Move, captured: bool, promoted: bool, deaths: seq<Death>, marks: seq<Square>)
    returns (s: string)
    requires InBounds(m.from.file, m.from.rank) && InBounds(m.to.file, m.to.rank)
    requires DeathsOnBoard(deaths) && SquaresOnBoard(marks)
    ensures s == NotationOf(k, m, captured, promoted, deaths, marks)
  {
    var from := CoordStr(m.from.file, m.from.rank);
    var to := CoordStr(m.to.file, m.to.rank);
    s := [Letter(k)] + from + (if captured then "x" else "-") + to;

    if promoted {
      s := s + "=O";
    }
    var tags := "";
    for i := 0 to |deaths|
      invariant tags == DeathTags(deaths[..i])
    {
      assert deaths[..i + 1][..i] == deaths[..i];
      tags := tags + " \U{2020}" + CoordStr(deaths[i].file, deaths[i].rank);
    }
    assert deaths[..|deaths|] == deaths;
    s := s + tags;
    tags := "";
    for i := 0 to |marks|
      invariant tags == MarkTags(marks[..i])
    {
      assert marks[..i + 1][..i] == marks[..i];
      tags := tags + " !" + CoordStr(marks[i].file, marks[i].rank);
    }
    assert marks[..|marks|] == marks;
    s := s + tags;
  }

  // ---------------------------------------------------------------------------

  /** The step loop of `movesFor`: every in-bounds target not held by a friend. */
  method StepTargets(b: Board, file: int, rank: int, p: Player, deltas: seq<(int, int)>)
    returns (ms: seq<Move>)
    requires InBounds(file, rank)
    ensures ms == StepMoves(b, file, rank, p, deltas)
  {
    ms := [];
    for i := 0 to |deltas|
      invariant ms == StepMoves(b, file, rank, p, deltas[..i])
    {
      assert deltas[..i + 1][..i] == deltas[..i];
      var toFile, toRank := file + deltas[i].0, rank + deltas[i].1;
      if !InBounds(toFile, toRank) {
        continue;
      }
      var target := b[toFile][toRank];
      if target.None? || target.value.owner != p {
        ms := ms + [Move(Square(file, rank), Square(toFile, toRank))];
      }
    }
    assert deltas[..|deltas|] == deltas;
  }

  lemma AppendAssoc<T>(a: seq<T>, b: seq<T>, c: seq<T>)
    ensures (a + b) + c == a + (b + c)
  {
  }

  /** One ray of the slide loop of `movesFor`: empty squares, then a first enemy. */
  method WalkRay(b: Board, file: int, rank: int, p: Player, df: int, dr: int) returns (ms: seq<Move>)
    requires InBounds(file, rank) && UnitOrth(df, dr)
    ensures ms == Ray(b, file, rank, p, df, dr, file + df, rank + dr)
  {
    ms := [];
    ghost var whole := Ray(b, file, rank, p, df, dr, file + df, rank + dr);
    var toFile, toRank := file + df, rank + dr;
    assert [] + whole == whole;
    while InBounds(toFile, toRank)
      invariant ms + Ray(b, file, rank, p, df, dr, toFile, toRank) == whole
      decreases RoomAhead(df, toFile) + RoomAhead(dr, toRank)
    {
      var target := b[toFile][toRank];
      var move := Move(Square(file, rank), Square(toFile, toRank));
      ghost var rest := Ray(b, file, rank, p, df, dr, toFile + df, toRank + dr);
      if target.None? {
        assert Ray(b, file, rank, p, df, dr, toFile, toRank) == [move] + rest;
        AppendAssoc(ms, [move], rest);
        ms := ms + [move];
      } else {
        if target.value.owner != p {
          assert Ray(b, file, rank, p, df, dr, toFile, toRank) == [move];
          ms := ms + [move];
        } else {
          assert Ray(b, file, rank, p, df, dr, toFile, toRank) == [];
          assert ms + [] == ms;
        }
        return;
      }
      RayShrinks(df, dr, toFile, toRank);
      toFile, toRank := toFile + df, toRank + dr;
    }
    assert ms + [] == ms;
  }

  /** The slide loop of `movesFor`: the rays in the order of `dirs`. */
  method SlideTargets(b: Board, file: int, rank: int, p: Player, dirs: seq<(int, int)>)
    returns (ms: seq<Move>)
    requires InBounds(file, rank)
    requires forall k :: 0 <= k < |dirs| ==> UnitOrth(dirs[k].0, dirs[k].1)
    ensures ms == SlideMoves(b, file, rank, p, dirs)
  {
    ms := [];
    for j := 0 to |dirs|
      invariant ms == SlideMoves(b, file, rank, p, dirs[..j])
    {
      assert dirs[..j + 1][..j] == dirs[..j];
      var ray := WalkRay(b, file, rank, p, dirs[j].0, dirs[j].1);
      ms := ms + ray;
    }
    assert dirs[..|dirs|] == dirs;
  }

  class TethariGame {
    var board: Board
    var activePlayer: Player
    var moveCount: nat
    var movesWithoutEvent: nat
    var positionHistory: seq<string>
    var capturedWhite: seq<Kind>
    var capturedBlack: seq<Kind>
    var gameOver: bool
    var winner: Verdict
    var lastMove: Option<MoveRecord>
    var lastDeaths: seq<Death>
    var lastEndangered: seq<Square>

    /** The snapshot `saveState()` takes. */
    function State(): GameState
      reads this
    {
      GameState(board, activePlayer, moveCount, movesWithoutEvent, gameOver, winner,
                capturedWhite, capturedBlack, positionHistory)
    }

    /** The record of the last move, which snapshots leave alone. */
    function LastRecord(): (Option<MoveRecord>, seq<Death>, seq<Square>)
      reads this
    {
      (lastMove, lastDeaths, lastEndangered)
    }

    constructor()
      ensures State() == InitialState()
      ensures LastRecord() == (None, [], [])
    {
      board := EmptyGrid();
      activePlayer := White;
      moveCount := 0;
      movesWithoutEvent := 0;
      positionHistory := [];
      capturedWhite := [];
      capturedBlack := [];
      gameOver := false;
      winner := Undecided;
      lastMove := None;
      lastDeaths := [];
      lastEndangered := [];
      new;
      Reset();
    }

    /** A fresh game in the default layout, White to move, its key the only history entry. */
    method Reset()
      modifies this
      ensures State() == InitialState()
      ensures LastRecord() == (None, [], [])
    {
      board := EmptyGrid();
      activePlayer := White;
      moveCount := 0;
      movesWithoutEvent := 0;
      positionHistory := [];
      capturedWhite := [];
      capturedBlack := [];
      gameOver := false;
      winner := Undecided;
      lastMove := None;
      lastDeaths := [];
      lastEndangered := [];
      SetupDefaultPosition();
      var h := Hash();
      positionHistory := positionHistory + [h];
    }

    /** Places the eighteen pieces of the default layout on an empty board. */
    method SetupDefaultPosition()
      requires board == EmptyGrid()
      modifies this
      ensures board == DefaultBoard()
      ensures State() == old(State()).(board := board)
      ensures LastRecord() == old(LastRecord())
    {
      var b := board;
      b := Put(b, 0, 0, Some(Piece(White, Klinge, false)));
      b := Put(b, 1, 0, Some(Piece(White, Waechter, false)));
      b := Put(b, 2, 0, Some(Piece(White, Hauptmann, false)));
      b := Put(b, 3, 0, Some(Piece(White, Turm, false)));
      b := Put(b, 4, 0, Some(Piece(White, Waechter, false)));
      b := Put(b, 5, 0, Some(Piece(White, Klinge, false)));

      b := Put(b, 1, 1, Some(Piece(White, Tuemmler, false)));
      b := Put(b, 3, 1, Some(Piece(White, Springer, false)));
      b := Put(b, 5, 1, Some(Piece(White, Tuemmler, false)));

      b := Put(b, 1, 4, Some(Piece(Black, Tuemmler, false)));
      b := Put(b, 3, 4, Some(Piece(Black, Springer, false)));
      b := Put(b, 5, 4, Some(Piece(Black, Tuemmler, false)));

      b := Put(b, 0, 5, Some(Piece(Black, Klinge, false)));
      b := Put(b, 1, 5, Some(Piece(Black, Waechter, false)));
      b := Put(b, 2, 5, Some(Piece(Black, Hauptmann, false)));
      b := Put(b, 3, 5, Some(Piece(Black, Turm, false)));
      b := Put(b, 4, 5, Some(Piece(Black, Waechter, false)));
      b := Put(b, 5, 5, Some(Piece(Black, Klinge, false)));

      forall f, r {:trigger DefaultBoard()[f][r]} {:trigger b[f][r]} | InBounds(f, r)
        ensures b[f][r] == DefaultBoard()[f][r]
      {
      }
      BoardsEqual(b, DefaultBoard());
      board := b;
    }

    /** A game from an arbitrary list of placements with the given side to move. */
    method LoadPosition(pieces: seq<Placement>, active: Player)
      modifies this
      ensures State() == LoadedState(pieces, active)
      ensures LastRecord() == (None, [], [])
    {
      board := EmptyGrid();
      activePlayer := active;
      moveCount := 0;
      movesWithoutEvent := 0;
      positionHistory := [];
      capturedWhite := [];
      capturedBlack := [];
      gameOver := false;
      winner := Undecided;
      lastMove := None;
      lastDeaths := [];
      lastEndangered := [];

      for i := 0 to |pieces|
        invariant board == PlaceAll(EmptyGrid(), pieces[..i])
        invariant activePlayer == active && positionHistory == []
        invariant State() == LoadedState([], active).(board := board, history := [])
        invariant LastRecord() == (None, [], [])
      {
        assert pieces[..i + 1][..i] == pieces[..i];
        var piece := pieces[i];
        var coord := ParseCoord(piece.square);
        if coord.None? || !InBounds(coord.value.file, coord.value.rank) {
          continue;
        }
        board := Put(board, coord.value.file, coord.value.rank, Some(Piece(piece.owner, piece.kind, piece.endangered)));
      }
      assert pieces[..|pieces|] == pieces;

      var h := Hash();
      positionHistory := positionHistory + [h];
    }

    method SaveState() returns (s: GameState)
      ensures s == State()
    {
      s := GameState(board, activePlayer, moveCount, movesWithoutEvent, gameOver, winner,
                     capturedWhite, capturedBlack, positionHistory);
    }

    /** Writes a snapshot back; the record of the last move is not part of it. */
    method RestoreState(s: GameState)
      modifies this
      ensures State() == s
      ensures LastRecord() == old(LastRecord())
    {
      board := s.board;
      activePlayer := s.active;
      moveCount := s.moveCount;
      movesWithoutEvent := s.movesWithoutEvent;
      gameOver := s.gameOver;
      winner := s.winner;
      capturedWhite := s.capturedWhite;
      capturedBlack := s.capturedBlack;
      positionHistory := s.history;
    }

    // -------------------------------------------------------------------------
    // Queries.

    /** `pieces(player)`: the side's pieces in scan order. */
    method Pieces(p: Player) returns (ps: seq<Located>)
      ensures ps == PiecesOf(board, p)
    {
      var b := board;
      ps := [];
      for file := 0 to Size
        invariant ps == PiecesUpTo(b, p, Index(file, 0))
      {
        for rank := 0 to Size
          invariant ps == PiecesUpTo(b, p, Index(file, rank))
        {
          IndexStep(file, rank);
          PiecesUpToStep(b, p, file, rank);
          var piece := b[file][rank];
          if piece.Some? && piece.value.owner == p {
            ps := ps + [Located(file, rank, piece.value.kind, piece.value.endangered)];
          }
        }
      }
    }

    /** `movesFor(file, rank)`. */
    method MovesFor(file: int, rank: int) returns (ms: seq<Move>)
      requires InBounds(file, rank)
      ensures ms == MovesFrom(board, file, rank)
    {
      var b := board;
      var piece := b[file][rank];
      if piece.None? {
        return [];
      }
      var p := piece.value.owner;
      ms := StepTargets(b, file, rank, p, StepDeltas(piece.value.kind, p));
      if piece.value.kind == Tuemmler {
        var toRank := rank + Forward(p);
        if InBounds(file, toRank) {
          var target := b[file][toRank];
          if target.None? || target.value.owner != p {
            ms := ms + [Move(Square(file, rank), Square(file, toRank))];
          }
        }
      }
      var slides := SlideTargets(b, file, rank, p, SlideDirections(piece.value.kind));
      ms := ms + slides;
    }

    /** `allMoves(player)`: the moves of the side's pieces in scan order. */
    method AllMoves(p: Player) returns (ms: seq<Move>)
      ensures ms == AllMovesOf(board, p)
    {
      var b := board;
      ms := [];
      for file := 0 to Size
        invariant ms == AllMovesUpTo(b, p, Index(file, 0))
      {
        for rank := 0 to Size
          invariant ms == AllMovesUpTo(b, p, Index(file, rank))
        {
          IndexStep(file, rank);
          AllMovesUpToStep(b, p, file, rank);
          var piece := b[file][rank];
          if piece.None? || piece.value.owner != p {
            continue;
          }
          var own := MovesFor(file, rank);
          ms := ms + own;
        }
      }
    }

    /** `_hash()`. */
    method Hash() returns (h: string)
      ensures h == HashOf(activePlayer, board)
    {
      var b := board;
      var tokens := "";
      ghost var n := 0;
      for file := 0 to Size
        invariant n == Index(file, 0) && tokens == HashUpTo(b, n)
      {
        for rank := 0 to Size
          invariant n == Index(file, rank) && tokens == HashUpTo(b, n)
        {
          IndexStep(file, rank);
          HashUpToStep(b, file, rank);
          tokens := tokens + Token(b[file][rank]);
          n := n + 1;
        }
      }
      h := [Initial(activePlayer)] + tokens;
    }

    // -------------------------------------------------------------------------
    // Isolation.

    /** The clearing loop `_resolveEndangered` and `_markEndangered` share: every listed
        square that holds a piece loses its mark. */
    method ClearMarks(ps: seq<Located>)
      requires forall i :: 0 <= i < |ps| ==> InBounds(ps[i].file, ps[i].rank)
      modifies this
      ensures forall f, r {:trigger old(board)[f][r]} {:trigger Names(ps, f, r)} {:trigger board[f][r]} :: InBounds(f, r) ==>
        board[f][r] == if Names(ps, f, r) then Unmarked(old(board)[f][r]) else old(board)[f][r]
      ensures State() == old(State()).(board := board)
      ensures LastRecord() == old(LastRecord())
    {
      var b := board;
      for i := 0 to |ps|
        invariant forall f, r {:trigger board[f][r]} {:trigger Names(ps[..i], f, r)} {:trigger b[f][r]} :: InBounds(f, r) ==>
          b[f][r] == if Names(ps[..i], f, r) then Unmarked(board[f][r]) else board[f][r]
        invariant unchanged(this)
      {
        var x := ps[i];
        NamesSnoc(ps, i);
        if b[x.file][x.rank].Some? {
          b := Put(b, x.file, x.rank, Some(b[x.file][x.rank].value.(endangered := false)));
        }
      }
      assert ps[..|ps|] == ps;
      board := b;
    }

    /** The first loop of `_resolveEndangered`: the marked pieces split into the isolated ones,
        which die, and the others, whose mark is to be cleared. */
    method Sweep(p: Player, own: seq<Located>) returns (deaths: seq<Death>, clearMarks: seq<Located>)
      ensures deaths == DyingAmong(board, p, own)
      ensures forall x :: x in clearMarks <==> x in own && x.endangered && !Isolated(board, x.file, x.rank, p)
    {
      deaths := [];
      clearMarks := [];
      for i := 0 to |own|
        invariant deaths == DyingAmong(board, p, own[..i])
        invariant forall x :: x in clearMarks <==> x in own[..i] && x.endangered && !Isolated(board, x.file, x.rank, p)
      {
        assert own[..i + 1] == own[..i] + [own[i]];
        var x := own[i];
        if !x.endangered {
          continue;
        }
        var iso := IsIsolated(board, x.file, x.rank, p);
        if iso {
          deaths := deaths + [Death(x.file, x.rank, x.kind)];
        } else {
          clearMarks := clearMarks + [x];
        }
      }
      assert own[..|own|] == own;
    }

    /** `_resolveEndangered(player)`. */
    method ResolveEndangered(p: Player) returns (deaths: seq<Death>)
      modifies this
      ensures deaths == Deaths(old(board), p)
      ensures State() == Lose(old(State()), p, DeathKinds(deaths)).(board := ResolvedBoard(old(board), p))
      ensures LastRecord() == old(LastRecord())
    {
      ghost var b0 := board;
      var own := Pieces(p);
      if |own| <= 1 {
        ClearMarks(own);
        ResolvedLastMan(b0, p, board);
        return [];
      }

      var clearMarks;
      deaths, clearMarks := Sweep(p, own);
      assert deaths == Deaths(b0, p);
      ClearedSquares(b0, p, clearMarks);
      ClearMarks(clearMarks);
      ghost var bc := board;
      DeathsSurviveClearing(b0, p, clearMarks, bc);
      var b1, lost := Bury(board, p, deaths);
      // Every dying piece belongs to p, so all of them go to p's lost list.
      board := b1;
      if p == White {
        capturedWhite := capturedWhite + lost;
      } else {
        capturedBlack := capturedBlack + lost;
      }
      ResolvedAfterBurial(b0, p, clearMarks, bc, board);
    }

    /** `_markEndangered(player)`. */
    method MarkEndangered(p: Player) returns (marked: seq<Square>)
      modifies this
      ensures marked == NewlyEndangered(old(board), p)
      ensures board == MarkedBoard(old(board), p)
      ensures State() == old(State()).(board := board)
      ensures LastRecord() == old(LastRecord())
    {
      ghost var b0 := board;
      var own := Pieces(p);
      if |own| <= 1 {
        ClearMarks(own);
        MarkedLastMan(b0, p, board);
        return [];
      }
      var b1;
      b1, marked := MarkPieces(board, p, own);
      board := b1;
      MarkedAll(b0, p, b1);
    }

    // -------------------------------------------------------------------------
    // Moves.

    /** Steps 1 and 2 of `executeMove`: the mover lands, its origin empties, a capture goes
        on the captured side's lost list, and a capturing Tuemmler becomes an Orca. */
    method Displace(m: Move) returns (record: MoveRecord)
      requires Playable(board, m)
      modifies this
      ensures (State(), record) == Relocate(old(State()), m)
      ensures LastRecord() == old(LastRecord())
    {
      var movingPiece := board[m.from.file][m.from.rank].value;
      var target := board[m.to.file][m.to.rank];
      var player := movingPiece.owner;
      var captured := false;
      var capturedKind: Option<Kind> := None;
      var promoted := false;

      var b := Put(board, m.to.file, m.to.rank, Some(movingPiece));
      b := Put(b, m.from.file, m.from.rank, None);

      if target.Some? {
        captured := true;
        capturedKind := Some(target.value.kind);
        if target.value.owner == White {
          capturedWhite := capturedWhite + [target.value.kind];
        } else {
          capturedBlack := capturedBlack + [target.value.kind];
        }
      }

      if movingPiece.kind == Tuemmler && captured {
        b := Put(b, m.to.file, m.to.rank, Some(Piece(player, Orca, false)));
        promoted := true;
      }
      board := b;
      record := MoveRecord(m, captured, capturedKind, promoted);
    }

    /** The closing checks of `executeMove` for a mover of side p: elimination, then the
        turn passes and the key is recorded, then repetition, the 100-half-move rule and a
        side left without moves. */
    method CloseChecks(p: Player)
      modifies this
      ensures State() == Settle(old(State()), p)
      ensures LastRecord() == old(LastRecord())
    {
      var whitePieces := Pieces(White);
      var blackPieces := Pieces(Black);

      if |whitePieces| == 0 {
        gameOver := true;
        winner := Won(Black);
        return;
      }

      if |blackPieces| == 0 {
        gameOver := true;
        winner := Won(White);
        return;
      }

      activePlayer := Opposite(p);
      var hash := Hash();
      positionHistory := positionHistory + [hash];

      var repetitions := Occurrences(positionHistory, hash);
      if repetitions >= 3 || movesWithoutEvent >= 100 {
        gameOver := true;
        winner := Drawn;
        return;
      }

      var replies := AllMoves(activePlayer);
      if |replies| == 0 {
        gameOver := true;
        winner := Won(Opposite(activePlayer));
      }
    }

    /** Steps 3 to 5 of `executeMove` for a mover of side p: resolve and re-mark p's pieces,
        then count the half-move, which is an event when it captured or killed. */
    method Aftermath(p: Player, captured: bool) returns (deaths: seq<Death>, newEndangered: seq<Square>)
      modifies this
      ensures deaths == Deaths(old(board), p)
      ensures newEndangered == NewlyEndangered(ResolvedBoard(old(board), p), p)
      ensures State() == Lose(old(State()), p, DeathKinds(deaths)).(
        board := MarkedBoard(ResolvedBoard(old(board), p), p),
        movesWithoutEvent := if captured || |deaths| > 0 then 0 else old(movesWithoutEvent) + 1,
        moveCount := old(moveCount) + 1)
      ensures LastRecord() == old(LastRecord())
    {
      deaths := ResolveEndangered(p);
      newEndangered := MarkEndangered(p);

      var eventOccurred := captured || |deaths| > 0;
      movesWithoutEvent := if eventOccurred then 0 else movesWithoutEvent + 1;
      moveCount := moveCount + 1;
    }

    /** `executeMove(move)`: the rules applied in order, the record of the move kept. The
        caller guarantees the move: it is not checked for legality, nor against a finished
        game. */
    method ExecuteMove(m: Move)
      requires Playable(board, m)
      modifies this
      ensures State() == Apply(old(State()), m).state
      ensures LastRecord() ==
        (Some(Apply(old(State()), m).record), Apply(old(State()), m).deaths, Apply(old(State()), m).endangered)
    {
      ghost var s0 := State();
      var player := board[m.from.file][m.from.rank].value.owner;
      var record := Displace(m);
      ghost var s1 := State();
      var deaths, newEndangered := Aftermath(player, record.captured);

      lastMove := Some(record);
      lastDeaths := deaths;
      lastEndangered := newEndangered;
      CountedSteps(s0, m, s1, record, State());

      CloseChecks(player);
      ApplyParts(s0, m);
    }
  }
}
