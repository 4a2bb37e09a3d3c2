/**
 Global alignment by dynamic programming: the score matrix holds the best score of every pair of prefixes, and
 walking the traceback matrix down from the far corner spells an alignment that reaches it.
 */
module NeedlemanWunsch {

  const GAP := '-'

  /** The symbols of the traceback matrix: both sequences advance, the first one does, the second one does. */
  datatype Move = D | U | L

  /** Moves from left to right; the traceback finds the last one first. */
  datatype Moves = Start | Then(before: Moves, last: Move)

  datatype Scoring = Scoring(same: int, different: int, gap: int)

  function Pair(s: Scoring, a: char, b: char): int {
    if a == b then s.same else s.different
  }

  function Max(a: int, b: int): int {
    if a >= b then a else b
  }

  // ----- Alignments as moves -----

  /** The moves consume exactly i symbols of the first sequence and j of the second. */
  ghost predicate Aligns(moves: Moves, i: nat, j: nat) {
    if moves.Start? then i == 0 && j == 0
    else
      var before := moves.before;
      match moves.last
      case D => i > 0 && j > 0 && Aligns(before, i - 1, j - 1)
      case U => i > 0 && Aligns(before, i - 1, j)
      case L => j > 0 && Aligns(before, i, j - 1)
  }

  ghost function Score(s: Scoring, x: string, y: string, moves: Moves, i: nat, j: nat): int
    requires i <= |x| && j <= |y| && Aligns(moves, i, j)
  {
    if moves.Start? then 0
    else
      var before := moves.before;
      match moves.last
      case D => Score(s, x, y, before, i - 1, j - 1) + Pair(s, x[i - 1], y[j - 1])
      case U => Score(s, x, y, before, i - 1, j) + s.gap
      case L => Score(s, x, y, before, i, j - 1) + s.gap
  }

  // ----- The matrices -----

  /** The entry of the score matrix. */
  function Best(s: Scoring, x: string, y: string, i: nat, j: nat): int
    requires i <= |x| && j <= |y|
    decreases i + j, 0
  {
    if j == 0 then s.gap * i
    else if i == 0 then s.gap * j
    else Max(Max(Diagonal(s, x, y, i, j), Best(s, x, y, i - 1, j) + s.gap), Best(s, x, y, i, j - 1) + s.gap)
  }

  function Diagonal(s: Scoring, x: string, y: string, i: nat, j: nat): int
    requires 0 < i <= |x| && 0 < j <= |y|
    decreases i + j - 1, 1
  {
    Best(s, x, y, i - 1, j - 1) + Pair(s, x[i - 1], y[j - 1])
  }

  /** The entry of the traceback matrix: a tie prefers D over U and U over L. */
  function Choice(s: Scoring, x: string, y: string, i: nat, j: nat): Move
    requires i <= |x| && j <= |y|
  {
    if i == 0 then L
    else if j == 0 then U
    else if Best(s, x, y, i, j) == Diagonal(s, x, y, i, j) then D
    else if Best(s, x, y, i, j) == Best(s, x, y, i - 1, j) + s.gap then U
    else L
  }

  function Trace(s: Scoring, x: string, y: string, i: nat, j: nat): (moves: Moves)
    requires i <= |x| && j <= |y|
    ensures Aligns(moves, i, j)
    decreases i + j
  {
    if i == 0 && j == 0 then Start
    else
      match Choice(s, x, y, i, j)
      case D => Then(Trace(s, x, y, i - 1, j - 1), D)
      case U => Then(Trace(s, x, y, i - 1, j), U)
      case L => Then(Trace(s, x, y, i, j - 1), L)
  }

  // ----- Optimality -----

  lemma {:induction false} NoAlignmentBeatsBest(s: Scoring, x: string, y: string, moves: Moves, i: nat, j: nat)
    requires i <= |x| && j <= |y| && Aligns(moves, i, j)
    ensures Score(s, x, y, moves, i, j) <= Best(s, x, y, i, j)
    decreases moves
  {
    if !moves.Start? {
      var before := moves.before;
      match moves.last
      case D => NoAlignmentBeatsBest(s, x, y, before, i - 1, j - 1);
      case U => NoAlignmentBeatsBest(s, x, y, before, i - 1, j); BestOfGap(s, x, y, i - 1, j);
      case L => NoAlignmentBeatsBest(s, x, y, before, i, j - 1); BestOfGap(s, x, y, i, j - 1);
    }
  }

  /** Entering a gap never scores more than the entry it leads to. */
  lemma BestOfGap(s: Scoring, x: string, y: string, i: nat, j: nat)
    requires i <= |x| && j <= |y|
    ensures i < |x| ==> Best(s, x, y, i, j) + s.gap <= Best(s, x, y, i + 1, j)
    ensures j < |y| ==> Best(s, x, y, i, j) + s.gap <= Best(s, x, y, i, j + 1)
  {
  }

  lemma {:induction false} TraceReachesBest(s: Scoring, x: string, y: string, i: nat, j: nat)
    requires i <= |x| && j <= |y|
    ensures Score(s, x, y, Trace(s, x, y, i, j), i, j) == Best(s, x, y, i, j)
    decreases i + j
  {
    if i > 0 || j > 0 {
      match Choice(s, x, y, i, j)
      case D => TraceReachesBest(s, x, y, i - 1, j - 1);
      case U => TraceReachesBest(s, x, y, i - 1, j);
      case L => TraceReachesBest(s, x, y, i, j - 1);
    }
  }

  predicate Preferred(a: Move, b: Move) {
    (a.D? && !b.D?) || (a.U? && b.L?)
  }

  /** Read from the end, the first difference is in favour of `a`. */
  ghost predicate PreferredFromEnd(a: Moves, b: Moves) {
    if a.Start? || b.Start? then false
    else if a.last == b.last then PreferredFromEnd(a.before, b.before)
    else Preferred(a.last, b.last)
  }

  /** Among all alignments with the best score, the traced one is the first, read from the end, in the order D, U, L. */
  lemma {:induction false} TraceIsPreferred(s: Scoring, x: string, y: string, moves: Moves, i: nat, j: nat)
    requires i <= |x| && j <= |y| && Aligns(moves, i, j)
    requires Score(s, x, y, moves, i, j) == Best(s, x, y, i, j) && moves != Trace(s, x, y, i, j)
    ensures PreferredFromEnd(Trace(s, x, y, i, j), moves)
    decreases moves
  {
    var trace := Trace(s, x, y, i, j);
    match moves.last
    case D =>
      NoAlignmentBeatsBest(s, x, y, moves.before, i - 1, j - 1);
      TraceIsPreferred(s, x, y, moves.before, i - 1, j - 1);
    case U =>
      NoAlignmentBeatsBest(s, x, y, moves.before, i - 1, j);
      BestOfGap(s, x, y, i - 1, j);
      if trace.last == U {
        TraceIsPreferred(s, x, y, moves.before, i - 1, j);
      }
    case L =>
      NoAlignmentBeatsBest(s, x, y, moves.before, i, j - 1);
      BestOfGap(s, x, y, i, j - 1);
      if trace.last == L {
        TraceIsPreferred(s, x, y, moves.before, i, j - 1);
      }
  }

  // ----- Alignments as strings -----

  /** The first aligned string: the consumed symbols of x, with a gap where only y advances. */
  function Top(x: string, moves: Moves, i: nat, j: nat): string
    requires i <= |x| && Aligns(moves, i, j)
  {
    if moves.Start? then ""
    else
      var before := moves.before;
      match moves.last
      case D => Top(x, before, i - 1, j - 1) + [x[i - 1]]
      case U => Top(x, before, i - 1, j) + [x[i - 1]]
      case L => Top(x, before, i, j - 1) + [GAP]
  }

  function Bottom(y: string, moves: Moves, i: nat, j: nat): string
    requires j <= |y| && Aligns(moves, i, j)
  {
    if moves.Start? then ""
    else
      var before := moves.before;
      match moves.last
      case D => Bottom(y, before, i - 1, j - 1) + [y[j - 1]]
      case U => Bottom(y, before, i - 1, j) + [GAP]
      case L => Bottom(y, before, i, j - 1) + [y[j - 1]]
  }

  function Erase(a: string): string {
    if a == "" then ""
    else
      var before := Erase(a[..|a| - 1]);
      if a[|a| - 1] == GAP then before else before + [a[|a| - 1]]
  }

  /** The score of two strings of equal length, column by column. */
  function ColumnScore(s: Scoring, a: string, b: string): int
    requires |a| == |b|
  {
    if a == "" then 0
    else
      var n := |a| - 1;
      ColumnScore(s, a[..n], b[..n]) + if a[n] == GAP || b[n] == GAP then s.gap else Pair(s, a[n], b[n])
  }

  /** How many columns hold two equal symbols, two different ones, and a gap. */
  function Columns(a: string, b: string): (c: (nat, nat, nat))
    requires |a| == |b|
    ensures c.0 + c.1 + c.2 == |a|
  {
    if a == "" then (0, 0, 0)
    else
      var n := |a| - 1;
      var c := Columns(a[..n], b[..n]);
      if a[n] == GAP || b[n] == GAP then (c.0, c.1, c.2 + 1)
      else if a[n] == b[n] then (c.0 + 1, c.1, c.2)
      else (c.0, c.1 + 1, c.2)
  }

  function Weighted(s: Scoring, c: (nat, nat, nat)): int {
    s.same * c.0 + s.different * c.1 + s.gap * c.2
  }

  lemma WeightedNext(s: Scoring, c: (nat, nat, nat))
    ensures Weighted(s, (c.0 + 1, c.1, c.2)) == Weighted(s, c) + s.same
    ensures Weighted(s, (c.0, c.1 + 1, c.2)) == Weighted(s, c) + s.different
    ensures Weighted(s, (c.0, c.1, c.2 + 1)) == Weighted(s, c) + s.gap
  {
  }

  /** The score counts columns: equal symbols, different symbols and gaps, each times its weight. */
  lemma {:induction false} ScoreCountsColumns(s: Scoring, a: string, b: string)
    requires |a| == |b|
    ensures ColumnScore(s, a, b) == Weighted(s, Columns(a, b))
    decreases |a|
  {
    if a != "" {
      var n := |a| - 1;
      ScoreCountsColumns(s, a[..n], b[..n]);
      WeightedNext(s, Columns(a[..n], b[..n]));
    }
  }

  /** `a` and `b` align x and y: erasing gaps gives them back, and no column consists of gaps only. */
  ghost predicate AlignedStrings(a: string, b: string, x: string, y: string) {
    && |a| == |b| && Erase(a) == x && Erase(b) == y
    && forall k :: 0 <= k < |a| ==> a[k] != GAP || b[k] != GAP
  }

  lemma EraseSnoc(a: string, c: char)
    ensures Erase(a + [c]) == if c == GAP then Erase(a) else Erase(a) + [c]
  {
    assert (a + [c])[..|a|] == a;
  }

  lemma ColumnSnoc(s: Scoring, a: string, b: string, c: char, d: char)
    requires |a| == |b|
    ensures ColumnScore(s, a + [c], b + [d])
            == ColumnScore(s, a, b) + if c == GAP || d == GAP then s.gap else Pair(s, c, d)
  {
    assert (a + [c])[..|a|] == a && (b + [d])[..|b|] == b;
  }

  lemma {:induction false} RenderedLengths(x: string, y: string, moves: Moves, i: nat, j: nat)
    requires i <= |x| && j <= |y| && Aligns(moves, i, j)
    ensures |Top(x, moves, i, j)| == |Bottom(y, moves, i, j)|
    decreases moves
  {
    if !moves.Start? {
      RenderedLengths(x, y, moves.before, if moves.last.L? then i else i - 1, if moves.last.U? then j else j - 1);
    }
  }

  lemma {:induction false} EraseTop(x: string, moves: Moves, i: nat, j: nat)
    requires i <= |x| && Aligns(moves, i, j)
    ensures Erase(Top(x, moves, i, j)) == Erase(x[..i])
    decreases moves
  {
    if !moves.Start? {
      var k, l := if moves.last.L? then i else i - 1, if moves.last.U? then j else j - 1;
      EraseTop(x, moves.before, k, l);
      EraseSnoc(Top(x, moves.before, k, l), if moves.last.L? then GAP else x[i - 1]);
      if !moves.last.L? {
        assert x[..i] == x[..i - 1] + [x[i - 1]];
        EraseSnoc(x[..i - 1], x[i - 1]);
      }
    }
  }

  lemma {:induction false} EraseBottom(y: string, moves: Moves, i: nat, j: nat)
    requires j <= |y| && Aligns(moves, i, j)
    ensures Erase(Bottom(y, moves, i, j)) == Erase(y[..j])
    decreases moves
  {
    if !moves.Start? {
      var k, l := if moves.last.L? then i else i - 1, if moves.last.U? then j else j - 1;
      EraseBottom(y, moves.before, k, l);
      EraseSnoc(Bottom(y, moves.before, k, l), if moves.last.U? then GAP else y[j - 1]);
      if !moves.last.U? {
        assert y[..j] == y[..j - 1] + [y[j - 1]];
        EraseSnoc(y[..j - 1], y[j - 1]);
      }
    }
  }

  lemma {:induction false} EraseIsIdentityIff(a: string)
    ensures Erase(a) == a <==> GAP !in a
    ensures |Erase(a)| <= |a| && GAP !in Erase(a)
  {
    if a != "" {
      var n := |a| - 1;
      EraseIsIdentityIff(a[..n]);
      assert a == a[..n] + [a[n]];
    }
  }

  lemma {:induction false} RenderedColumns(x: string, y: string, moves: Moves, i: nat, j: nat)
    requires i <= |x| && j <= |y| && Aligns(moves, i, j) && GAP !in x && GAP !in y
    ensures var a, b := Top(x, moves, i, j), Bottom(y, moves, i, j);
            |a| == |b| && forall k :: 0 <= k < |a| ==> a[k] != GAP || b[k] != GAP
    decreases moves
  {
    RenderedLengths(x, y, moves, i, j);
    if !moves.Start? {
      var q := moves.last;
      RenderedColumns(x, y, moves.before, if q.L? then i else i - 1, if q.U? then j else j - 1);
      assert q.L? || x[i - 1] in x;
      assert q.U? || y[j - 1] in y;
    }
  }

  /** What the last move adds to the strings and to the score. */
  lemma LastMove(s: Scoring, x: string, y: string, moves: Moves, i: nat, j: nat)
      returns (k: nat, l: nat, c: char, d: char)
    requires i <= |x| && j <= |y| && Aligns(moves, i, j) && GAP !in x && GAP !in y && !moves.Start?
    ensures k <= |x| && l <= |y| && Aligns(moves.before, k, l)
    ensures Top(x, moves, i, j) == Top(x, moves.before, k, l) + [c]
    ensures Bottom(y, moves, i, j) == Bottom(y, moves.before, k, l) + [d]
    ensures Score(s, x, y, moves, i, j)
         == Score(s, x, y, moves.before, k, l) + if c == GAP || d == GAP then s.gap else Pair(s, c, d)
  {
    k, l := if moves.last.L? then i else i - 1, if moves.last.U? then j else j - 1;
    c, d := if moves.last.L? then GAP else x[i - 1], if moves.last.U? then GAP else y[j - 1];
    assert moves.last.L? || x[i - 1] in x;
    assert moves.last.U? || y[j - 1] in y;
  }

  /** The strings of an alignment score, column by column, what its moves score, if no input symbol is a gap. */
  lemma {:induction false} RenderedScores(s: Scoring, x: string, y: string, moves: Moves, i: nat, j: nat)
    requires i <= |x| && j <= |y| && Aligns(moves, i, j) && GAP !in x && GAP !in y
    ensures |Top(x, moves, i, j)| == |Bottom(y, moves, i, j)|
    ensures ColumnScore(s, Top(x, moves, i, j), Bottom(y, moves, i, j)) == Score(s, x, y, moves, i, j)
    decreases moves
  {
    if !moves.Start? {
      var k, l, c, d := LastMove(s, x, y, moves, i, j);
      RenderedScores(s, x, y, moves.before, k, l);
      ColumnSnoc(s, Top(x, moves.before, k, l), Bottom(y, moves.before, k, l), c, d);
    }
  }

  /** Every pair of aligned strings is spelled by moves of the same score. */
  lemma {:induction false} StringsAreMoves(s: Scoring, x: string, y: string, a: string, b: string, i: nat, j: nat)
      returns (moves: Moves)
    requires i <= |x| && j <= |y| && AlignedStrings(a, b, x[..i], y[..j])
    ensures Aligns(moves, i, j) && Score(s, x, y, moves, i, j) == ColumnScore(s, a, b)
    decreases |a|
  {
    if a == "" {
      moves := Start;
    } else {
      var n := |a| - 1;
      if i > 0 {
        assert x[..i] == x[..i - 1] + [x[i - 1]];
      }
      if j > 0 {
        assert y[..j] == y[..j - 1] + [y[j - 1]];
      }
      if a[n] == GAP {
        moves := StringsAreMoves(s, x, y, a[..n], b[..n], i, j - 1);
        moves := Then(moves, L);
      } else if b[n] == GAP {
        moves := StringsAreMoves(s, x, y, a[..n], b[..n], i - 1, j);
        moves := Then(moves, U);
      } else {
        moves := StringsAreMoves(s, x, y, a[..n], b[..n], i - 1, j - 1);
        moves := Then(moves, D);
      }
    }
  }

  function Align1(s: Scoring, x: string, y: string): string {
    Top(x, Trace(s, x, y, |x|, |y|), |x|, |y|)
  }

  function Align2(s: Scoring, x: string, y: string): string {
    Bottom(y, Trace(s, x, y, |x|, |y|), |x|, |y|)
  }

  /** No pair of aligned strings, of any length, scores more than the last entry of the score matrix. */
  lemma ScoreIsMaximal(s: Scoring, x: string, y: string, a: string, b: string)
    requires AlignedStrings(a, b, x, y)
    ensures ColumnScore(s, a, b) <= Best(s, x, y, |x|, |y|)
  {
    assert x[..|x|] == x && y[..|y|] == y;
    var moves := StringsAreMoves(s, x, y, a, b, |x|, |y|);
    NoAlignmentBeatsBest(s, x, y, moves, |x|, |y|);
  }

  /** If no input symbol is a gap, the strings returned align the inputs and have the score returned. */
  lemma ResultIsAlignment(s: Scoring, x: string, y: string)
    requires GAP !in x && GAP !in y
    ensures AlignedStrings(Align1(s, x, y), Align2(s, x, y), x, y)
    ensures ColumnScore(s, Align1(s, x, y), Align2(s, x, y)) == Best(s, x, y, |x|, |y|)
  {
    var moves := Trace(s, x, y, |x|, |y|);
    assert x[..|x|] == x && y[..|y|] == y;
    RenderedLengths(x, y, moves, |x|, |y|);
    EraseTop(x, moves, |x|, |y|);
    EraseBottom(y, moves, |x|, |y|);
    EraseIsIdentityIff(x);
    EraseIsIdentityIff(y);
    RenderedScores(s, x, y, moves, |x|, |y|);
    RenderedColumns(x, y, moves, |x|, |y|);
    TraceReachesBest(s, x, y, |x|, |y|);
  }

  /** Erasing the gaps of the result gives the inputs back exactly when they contain no gap symbol themselves. */
  lemma InputsComeBackIff(s: Scoring, x: string, y: string)
    ensures |Align1(s, x, y)| == |Align2(s, x, y)|
    ensures Erase(Align1(s, x, y)) == x <==> GAP !in x
    ensures Erase(Align2(s, x, y)) == y <==> GAP !in y
  {
    assert x[..|x|] == x && y[..|y|] == y;
    RenderedLengths(x, y, Trace(s, x, y, |x|, |y|), |x|, |y|);
    EraseTop(x, Trace(s, x, y, |x|, |y|), |x|, |y|);
    EraseBottom(y, Trace(s, x, y, |x|, |y|), |x|, |y|);
    EraseIsIdentityIff(x);
    EraseIsIdentityIff(y);
  }

  // ----- The algorithm -----

  method InitMatrices(s: Scoring, x: string, y: string, score: array2<int>, traceback: array2<Move>)
    requires score.Length0 == traceback.Length0 == |x| + 1 && score.Length1 == traceback.Length1 == |y| + 1
    modifies score, traceback
    ensures forall i {:trigger score[i, 0]} :: 0 <= i <= |x| ==> score[i, 0] == Best(s, x, y, i, 0)
    ensures forall j {:trigger score[0, j]} :: 0 <= j <= |y| ==> score[0, j] == Best(s, x, y, 0, j)
    ensures forall i :: 0 < i <= |x| ==> traceback[i, 0] == U
    ensures forall j :: 0 <= j <= |y| ==> traceback[0, j] == L
  {
    for i := 0 to |x| + 1
      invariant forall k {:trigger score[k, 0]} {:trigger traceback[k, 0]} :: 0 <= k < i ==>
          score[k, 0] == Best(s, x, y, k, 0) && traceback[k, 0] == U
    {
      score[i, 0] := s.gap * i;
      traceback[i, 0] := U;
    }
    for j := 0 to |y| + 1
      invariant forall k {:trigger score[k, 0]} :: 0 <= k <= |x| ==> score[k, 0] == Best(s, x, y, k, 0)
      invariant forall k :: 0 < k <= |x| ==> traceback[k, 0] == U
      invariant forall k {:trigger score[0, k]} {:trigger traceback[0, k]} :: 0 <= k < j ==>
          score[0, k] == Best(s, x, y, 0, k) && traceback[0, k] == L
    {
      score[0, j] := s.gap * j;
      traceback[0, j] := L;
    }
  }

  /** The body of the inner loop: one entry of each matrix, and nothing else. */
  method FillCell(s: Scoring, x: string, y: string, score: array2<int>, traceback: array2<Move>, i: nat, j: nat)
    requires score.Length0 == traceback.Length0 == |x| + 1 && score.Length1 == traceback.Length1 == |y| + 1
    requires 0 < i <= |x| && 0 < j <= |y|
    requires score[i - 1, j - 1] == Best(s, x, y, i - 1, j - 1)
    requires score[i - 1, j] == Best(s, x, y, i - 1, j) && score[i, j - 1] == Best(s, x, y, i, j - 1)
    modifies score, traceback
    ensures score[i, j] == Best(s, x, y, i, j) && traceback[i, j] == Choice(s, x, y, i, j)
    ensures forall k, l :: 0 <= k <= |x| && 0 <= l <= |y| && (k, l) != (i, j) ==> score[k, l] == old(score[k, l])
    ensures forall k, l :: 0 <= k <= |x| && 0 <= l <= |y| && (k, l) != (i, j) ==>
        traceback[k, l] == old(traceback[k, l])
  {
    var pair := if x[i - 1] == y[j - 1] then s.same else s.different;
    var diagonal := score[i - 1, j - 1] + pair;
    var up := score[i - 1, j] + s.gap;
    var left := score[i, j - 1] + s.gap;
    var maximum := Max(Max(diagonal, up), left);
    if maximum == diagonal {
      traceback[i, j] := D;
    } else if maximum == up {
      traceback[i, j] := U;
    } else {
      traceback[i, j] := L;
    }
    score[i, j] := maximum;
  }

  /** The inner loop: from the rows above, row i. */
  method FillRow(s: Scoring, x: string, y: string, score: array2<int>, traceback: array2<Move>, i: nat)
    requires score.Length0 == traceback.Length0 == |x| + 1 && score.Length1 == traceback.Length1 == |y| + 1
    requires 0 < i <= |x|
    requires forall k, l {:trigger score[k, l]} :: 0 <= k < i && 0 <= l <= |y| ==> score[k, l] == Best(s, x, y, k, l)
    requires score[i, 0] == Best(s, x, y, i, 0) && traceback[i, 0] == U
    modifies score, traceback
    ensures forall l {:trigger score[i, l]} :: 0 <= l <= |y| ==> score[i, l] == Best(s, x, y, i, l)
    ensures forall l {:trigger traceback[i, l]} :: 0 <= l <= |y| ==> traceback[i, l] == Choice(s, x, y, i, l)
    ensures forall k, l :: 0 <= k <= |x| && 0 <= l <= |y| && k != i ==> score[k, l] == old(score[k, l])
    ensures forall k, l :: 0 <= k <= |x| && 0 <= l <= |y| && k != i ==> traceback[k, l] == old(traceback[k, l])
  {
    for j := 1 to |y| + 1
      invariant forall l {:trigger score[i, l]} :: 0 <= l < j ==> score[i, l] == Best(s, x, y, i, l)
      invariant forall l {:trigger traceback[i, l]} :: 0 <= l < j ==> traceback[i, l] == Choice(s, x, y, i, l)
      invariant forall k, l :: 0 <= k <= |x| && 0 <= l <= |y| && k != i ==> score[k, l] == old(score[k, l])
      invariant forall k, l :: 0 <= k <= |x| && 0 <= l <= |y| && k != i ==> traceback[k, l] == old(traceback[k, l])
    {
      FillCell(s, x, y, score, traceback, i, j);
    }
  }

  method FillMatrices(s: Scoring, x: string, y: string, score: array2<int>, traceback: array2<Move>)
    requires score.Length0 == traceback.Length0 == |x| + 1 && score.Length1 == traceback.Length1 == |y| + 1
    modifies score, traceback
    ensures forall i, j {:trigger score[i, j]} :: 0 <= i <= |x| && 0 <= j <= |y| ==> score[i, j] == Best(s, x, y, i, j)
    ensures forall i, j {:trigger traceback[i, j]} :: 0 <= i <= |x| && 0 <= j <= |y| ==>
        traceback[i, j] == Choice(s, x, y, i, j) || i == j == 0
  {
    InitMatrices(s, x, y, score, traceback);
    for i := 1 to |x| + 1
      invariant forall k, l {:trigger score[k, l]} :: 0 <= k < i && 0 <= l <= |y| ==> score[k, l] == Best(s, x, y, k, l)
      invariant forall k, l {:trigger traceback[k, l]} :: 0 <= k < i && 0 <= l <= |y| ==>
          traceback[k, l] == Choice(s, x, y, k, l)
      invariant forall k {:trigger score[k, 0]} {:trigger traceback[k, 0]} :: i <= k <= |x| ==>
          score[k, 0] == Best(s, x, y, k, 0) && traceback[k, 0] == U
    {
      FillRow(s, x, y, score, traceback, i);
    }
  }

  /** One step of the traceback: a symbol, or a gap, moves from the prefix still to spell to what is spelled. */
  lemma StepBack(a: string, c: char, done: string)
    ensures a + ([c] + done) == (a + [c]) + done
  {
  }

  method TraceBack(s: Scoring, x: string, y: string, traceback: array2<Move>) returns (align1: string, align2: string)
    requires traceback.Length0 == |x| + 1 && traceback.Length1 == |y| + 1
    requires forall i, j {:trigger traceback[i, j]} :: 0 <= i <= |x| && 0 <= j <= |y| ==>
        traceback[i, j] == Choice(s, x, y, i, j) || i == j == 0
    ensures align1 == Align1(s, x, y) && align2 == Align2(s, x, y)
  {
    align1, align2 := "", "";
    var i, j := |x|, |y|;
    assert Align1(s, x, y) + "" == Align1(s, x, y) && Align2(s, x, y) + "" == Align2(s, x, y);
    while i > 0 || j > 0
      invariant 0 <= i <= |x| && 0 <= j <= |y|
      invariant Top(x, Trace(s, x, y, i, j), i, j) + align1 == Align1(s, x, y)
      invariant Bottom(y, Trace(s, x, y, i, j), i, j) + align2 == Align2(s, x, y)
      decreases i + j
    {
      var move := traceback[i, j];
      var c, d := if move == L then GAP else x[i - 1], if move == U then GAP else y[j - 1];
      i, j := if move == L then i else i - 1, if move == U then j else j - 1;
      StepBack(Top(x, Trace(s, x, y, i, j), i, j), c, align1);
      StepBack(Bottom(y, Trace(s, x, y, i, j), i, j), d, align2);
      align1, align2 := [c] + align1, [d] + align2;
    }
  }

  method NeedlemanWunsch(s: Scoring, x: string, y: string) returns (align1: string, align2: string, score: int)
    ensures score == Best(s, x, y, |x|, |y|)
    ensures align1 == Align1(s, x, y) && align2 == Align2(s, x, y)
  {
    var scores := new int[|x| + 1, |y| + 1]((_, _) => 0);
    var traceback := new Move[|x| + 1, |y| + 1]((_, _) => L);
    FillMatrices(s, x, y, scores, traceback);
    align1, align2 := TraceBack(s, x, y, traceback);
    score := scores[|x|, |y|];
  }
}
