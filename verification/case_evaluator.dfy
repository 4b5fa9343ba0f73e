/**
 CASE over vectors. Alternatives are evaluated one after the other and fill the rows
 that no earlier one has filled; the rows left take the ELSE value. Which rows an
 alternative fills is read from a selection vector of its own, in which evaluating its
 WHEN is to leave the rows that are true. What is left there depends on the WHEN's kind.
*/
module CaseEvaluator {

  /** A vector of values: one row for all, or a row per position. */
  datatype Column<V> = Flat(value: V) | Unflat(values: seq<V>)

  /** A boolean row. */
  datatype Truth = Unknown | Known(value: bool)

  /** A selection vector: its buffer counts only when it is filtered, otherwise it stands for 0, 1, 2, ... */
  datatype Selection = Selection(filtered: bool, buffer: seq<nat>, size: nat)

  /**
   The kinds of WHEN: a literal or parameter, a function with or without a select of its own, a
   bare boolean column, another CASE.
  */
  datatype When =
    | Literal(holds: bool)
    | Function(selects: bool, truth: Column<Truth>)
    | Reference(truth: Column<Truth>)
    | Nested(inner: Case<Truth>)

  datatype Case<V> = Case(alternatives: seq<Alternative<V>>, otherwise: Column<V>)

  datatype Alternative<V> = Alternative(when: When, thenValue: Column<V>, whenSel: Selection)

  // ---- Shapes over n rows. ----

  predicate ColumnFits<V>(c: Column<V>, n: nat) {
    c.Unflat? ==> |c.values| == n
  }

  predicate SelectionFits(s: Selection, n: nat) {
    |s.buffer| == n && s.size <= n && forall i :: 0 <= i < n ==> s.buffer[i] < n
  }

  /** What evaluating keeps: nothing is ever written to a column's buffer or counted for a nested CASE. */
  predicate WhenFits(w: When, whenSel: Selection, n: nat)
    decreases w, 1
  {
    && SelectionFits(whenSel, n) && whenSel.filtered
    && match w
       case Literal(_) => true
       case Function(_, truth) => ColumnFits(truth, n)
       case Reference(truth) => ColumnFits(truth, n) && forall i :: 0 <= i < n ==> whenSel.buffer[i] == 0
       case Nested(inner) => whenSel.size == 0 && AllFit(inner.alternatives, n) && ColumnFits(inner.otherwise, n)
  }

  predicate AlternativeFits<V>(a: Alternative<V>, n: nat)
    decreases a, 2
  {
    WhenFits(a.when, a.whenSel, n) && ColumnFits(a.thenValue, n)
  }

  predicate AllFit<V>(alts: seq<Alternative<V>>, n: nat)
    decreases alts, 0
  {
    alts == [] || (AlternativeFits(alts[0], n) && AllFit(alts[1..], n))
  }

  function At(s: Selection, i: nat): nat
    requires i < |s.buffer|
  {
    if s.filtered then s.buffer[i] else i
  }

  /** The selected positions, in order. */
  function Positions(s: Selection): (r: seq<nat>)
    requires s.size <= |s.buffer|
    ensures |r| == s.size
  {
    seq(s.size, i requires 0 <= i < s.size => At(s, i))
  }

  function ValueAt<V>(c: Column<V>, p: nat): V
    requires c.Unflat? ==> p < |c.values|
  {
    if c.Flat? then c.value else c.values[p]
  }

  // ---- The reference: CASE of one row. ----

  predicate Holds<V>(a: Alternative<V>, n: nat, p: nat)
    requires AlternativeFits(a, n) && p < n
    decreases a, 2
  {
    Satisfied(a.when, a.whenSel, n, p)
  }

  predicate Satisfied(w: When, whenSel: Selection, n: nat, p: nat)
    requires WhenFits(w, whenSel, n) && p < n
    decreases w, 1
  {
    match w
    case Literal(holds) => holds
    case Function(_, truth) => ValueAt(truth, p) == Known(true)
    case Reference(truth) => ValueAt(truth, p) == Known(true)
    case Nested(inner) => RowCase(inner.alternatives, inner.otherwise, n, p) == Known(true)
  }

  /** The THEN of the first alternative whose WHEN holds for the row, else the ELSE. */
  function RowCase<V>(alts: seq<Alternative<V>>, otherwise: Column<V>, n: nat, p: nat): V
    requires p < n && ColumnFits(otherwise, n) && AllFit(alts, n)
    decreases alts, 0
  {
    if alts == [] then ValueAt(otherwise, p)
    else if Holds(alts[0], n, p) then ValueAt(alts[0].thenValue, p)
    else RowCase(alts[1..], otherwise, n, p)
  }

  lemma {:induction false} FirstHolds<V>(alts: seq<Alternative<V>>, otherwise: Column<V>, n: nat, p: nat, k: nat)
    requires p < n && ColumnFits(otherwise, n) && AllFit(alts, n) && k <= |alts|
    requires k < |alts| ==> AlternativeFits(alts[k], n) && Holds(alts[k], n, p)
    requires forall i :: 0 <= i < k ==> AlternativeFits(alts[i], n) && !Holds(alts[i], n, p)
    ensures k < |alts| ==> AlternativeFits(alts[k], n)
    ensures RowCase(alts, otherwise, n, p) == ValueAt(if k < |alts| then alts[k].thenValue else otherwise, p)
    decreases k
  {
    if k > 0 {
      FirstHolds(alts[1..], otherwise, n, p, k - 1);
    }
  }

  // ---- Compacting. ----

  /** The positions at which the flag is set, in order. */
  function Chosen(positions: seq<nat>, flags: seq<bool>): (r: seq<nat>)
    requires |positions| == |flags|
    ensures |r| <= |positions|
  {
    if positions == [] then []
    else
      var m := |positions| - 1;
      Chosen(positions[..m], flags[..m]) + if flags[m] then [positions[m]] else []
  }

  lemma {:induction false} ChosenIs(positions: seq<nat>, flags: seq<bool>, p: nat)
    requires |positions| == |flags|
    ensures p in Chosen(positions, flags) <==> exists i :: 0 <= i < |positions| && positions[i] == p && flags[i]
    decreases |positions|
  {
    if positions != [] {
      var m := |positions| - 1;
      ChosenIs(positions[..m], flags[..m], p);
      if i :| 0 <= i < |positions| && positions[i] == p && flags[i] && i < m {
        assert positions[..m][i] == p && flags[..m][i];
      }
      if i :| 0 <= i < m && positions[..m][i] == p && flags[..m][i] {
        assert positions[i] == p && flags[i];
      }
    }
  }

  /** The buffer after each position was written behind the ones kept so far. */
  function Compacted(buffer: seq<nat>, positions: seq<nat>, flags: seq<bool>): (r: seq<nat>)
    requires |positions| == |flags| <= |buffer|
    ensures |r| == |buffer|
  {
    if positions == [] then buffer
    else
      var m := |positions| - 1;
      Compacted(buffer, positions[..m], flags[..m])[|Chosen(positions[..m], flags[..m])| := positions[m]]
  }

  lemma {:induction false} CompactedIs(buffer: seq<nat>, positions: seq<nat>, flags: seq<bool>)
    requires |positions| == |flags| <= |buffer|
    ensures var r, c := Compacted(buffer, positions, flags), Chosen(positions, flags);
      r[..|c|] == c && r[|positions|..] == buffer[|positions|..]
    decreases |positions|
  {
    if positions != [] {
      var m := |positions| - 1;
      CompactedIs(buffer, positions[..m], flags[..m]);
      PutBehind(buffer, Compacted(buffer, positions[..m], flags[..m]), Chosen(positions[..m], flags[..m]), positions[m], m);
    }
  }

  lemma PutBehind(buffer: seq<nat>, b: seq<nat>, kept: seq<nat>, pos: nat, m: nat)
    requires |kept| <= m < |b| == |buffer| && b[..|kept|] == kept && b[m..] == buffer[m..]
    ensures var r := b[|kept| := pos];
      r[..|kept|] == kept && r[..|kept| + 1] == kept + [pos] && r[m + 1..] == buffer[m + 1..]
  {
    assert forall j :: m < j < |b| ==> b[j] == b[m..][j - m] == buffer[m..][j - m] == buffer[j];
  }

  lemma {:induction false} CompactedWithin(buffer: seq<nat>, positions: seq<nat>, flags: seq<bool>, n: nat)
    requires |positions| == |flags| <= |buffer|
    requires (forall i :: 0 <= i < |buffer| ==> buffer[i] < n) && forall i :: 0 <= i < |positions| ==> positions[i] < n
    ensures forall i :: 0 <= i < |buffer| ==> Compacted(buffer, positions, flags)[i] < n
    decreases |positions|
  {
    if positions != [] {
      var m := |positions| - 1;
      CompactedWithin(buffer, positions[..m], flags[..m], n);
    }
  }

  /** Per position whether the row there is a non-null true. */
  function TrueAt(rows: seq<Truth>, positions: seq<nat>): (r: seq<bool>)
    requires forall i :: 0 <= i < |positions| ==> positions[i] < |rows|
    ensures |r| == |positions| && forall i :: 0 <= i < |positions| ==> r[i] == (rows[positions[i]] == Known(true))
  {
    seq(|positions|, i requires 0 <= i < |positions| => rows[positions[i]] == Known(true))
  }

  /** A selection vector into which the flagged positions were compacted. */
  function Kept(s: Selection, positions: seq<nat>, flags: seq<bool>): Selection
    requires |positions| == |flags| <= |s.buffer|
  {
    s.(buffer := Compacted(s.buffer, positions, flags), size := |Chosen(positions, flags)|)
  }

  lemma PositionsWithin(s: Selection, n: nat)
    requires SelectionFits(s, n)
    ensures forall i :: 0 <= i < s.size ==> Positions(s)[i] < n
  {
  }

  lemma KeptFits(s: Selection, positions: seq<nat>, flags: seq<bool>, n: nat)
    requires SelectionFits(s, n) && |positions| == |flags| <= n
    requires forall i :: 0 <= i < |positions| ==> positions[i] < n
    ensures SelectionFits(Kept(s, positions, flags), n)
    ensures s.filtered ==> Positions(Kept(s, positions, flags)) == Chosen(positions, flags)
  {
    CompactedWithin(s.buffer, positions, flags, n);
    CompactedIs(s.buffer, positions, flags);
    var k := Kept(s, positions, flags);
    if s.filtered {
      assert forall i :: 0 <= i < k.size ==> Positions(k)[i] == k.buffer[..k.size][i];
    }
  }

  // ---- What evaluating leaves. ----

  /** What selecting by a WHEN leaves: whether it reports a true row, the selection vectors, the WHEN's own state. */
  datatype Picked = Picked(any: bool, when: When, whenSel: Selection, sel: Selection)

  datatype Evaluated<V> = Evaluated(alternatives: seq<Alternative<V>>, sel: Selection, result: seq<V>, filled: set<nat>)

  predicate IsFlat(w: When)
    decreases w, 1
  {
    match w
    case Literal(_) => true
    case Function(_, truth) => truth.Flat?
    case Reference(truth) => truth.Flat?
    case Nested(inner) => inner.otherwise.Flat? && AllFlat(inner.alternatives)
  }

  predicate FlatAlternative<V>(a: Alternative<V>)
    decreases a, 2
  {
    IsFlat(a.when) && a.thenValue.Flat?
  }

  predicate AllFlat<V>(alts: seq<Alternative<V>>)
    decreases alts, 0
  {
    alts == [] || (FlatAlternative(alts[0]) && AllFlat(alts[1..]))
  }

  /** Rows that are true among the selected ones, compacted into `into`. */
  function KeepTrue(into: Selection, rows: seq<Truth>, sel: Selection, n: nat): (r: Selection)
    requires SelectionFits(into, n) && SelectionFits(sel, n) && |rows| == n
    ensures SelectionFits(r, n) && r.filtered == into.filtered
  {
    PositionsWithin(sel, n);
    KeptFits(into, Positions(sel), TrueAt(rows, Positions(sel)), n);
    Kept(into, Positions(sel), TrueAt(rows, Positions(sel)))
  }

  function SelectedBy(w: When, whenSel: Selection, sel: Selection, n: nat): (r: Picked)
    requires WhenFits(w, whenSel, n) && SelectionFits(sel, n) && n > 0
    ensures WhenFits(r.when, r.whenSel, n)
    ensures SelectionFits(r.sel, n) && r.sel.size == sel.size && r.sel.filtered == sel.filtered
    decreases w, 1
  {
    match w
    case Literal(holds) => Picked(holds, w, whenSel, sel)
    case Function(_, Flat(t)) => Picked(t == Known(true), w, whenSel, sel)
    case Function(selects, Unflat(rows)) =>
      if selects || sel.size > 1 then
        var kept := KeepTrue(whenSel, rows, sel, n);
        Picked(kept.size > 0, w, kept, sel)
      else
        // One row: its truth is reported, the selection vector is left alone.
        Picked(rows[At(sel, 0)] == Known(true), w, whenSel, sel)
    case Reference(Flat(t)) =>
      Picked(t == Known(true), w, whenSel.(size := if t == Known(true) then 1 else 0), sel)
    case Reference(Unflat(rows)) =>
      // The positions go to the column's own selection vector, only the size to the one passed in.
      var kept := KeepTrue(sel, rows, sel, n);
      Picked(kept.size > 0, w, whenSel.(size := kept.size), sel.(buffer := kept.buffer))
    case Nested(inner) =>
      // The loop runs over the vector passed in, which is empty.
      var e := Evaluation(inner.alternatives, inner.otherwise, sel, Unknowns(n), {}, n);
      Picked(false, Nested(Case(e.alternatives, inner.otherwise)), whenSel, e.sel)
  }

  function Unknowns(n: nat): (r: seq<Truth>)
    ensures |r| == n
  {
    seq(n, _ => Unknown)
  }

  function Pick<V>(a: Alternative<V>, sel: Selection, n: nat): (r: Picked)
    requires AlternativeFits(a, n) && SelectionFits(sel, n) && n > 0
    ensures AlternativeFits(Alternative(r.when, a.thenValue, r.whenSel), n) && SelectionFits(r.whenSel, n)
    ensures SelectionFits(r.sel, n) && r.sel.size == sel.size && r.sel.filtered == sel.filtered
    decreases a, 2
  {
    SelectedBy(a.when, a.whenSel, sel, n)
  }

  function PositionsOf(rows: seq<nat>): set<nat> {
    set i | 0 <= i < |rows| :: rows[i]
  }

  /** Every row listed that is still open takes its value. */
  function Filled<V>(result: seq<V>, filled: set<nat>, rows: seq<nat>, src: Column<V>): (r: seq<V>)
    requires ColumnFits(src, |result|)
    ensures |r| == |result|
  {
    seq(|result|, p requires 0 <= p < |result| => if p in rows && p !in filled then ValueAt(src, p) else result[p])
  }

  /** The rows an alternative fills. */
  function RowsFor(w: When, s: Picked): seq<nat>
    requires s.sel.size <= |s.sel.buffer| && s.whenSel.size <= |s.whenSel.buffer|
  {
    if IsFlat(w) then Positions(s.sel) else Positions(s.whenSel)
  }

  function Evaluation<V>(alts: seq<Alternative<V>>, otherwise: Column<V>, sel: Selection, result: seq<V>, filled: set<nat>,
                       n: nat): (r: Evaluated<V>)
    requires AllFit(alts, n) && ColumnFits(otherwise, n) && SelectionFits(sel, n) && |result| == n > 0
    ensures |r.alternatives| == |alts| && AllFit(r.alternatives, n) && |r.result| == n
    ensures SelectionFits(r.sel, n) && r.sel.size == sel.size && r.sel.filtered == sel.filtered
    decreases alts, 0
  {
    if alts == [] then
      Evaluated([], sel, Filled(result, filled, Positions(sel), otherwise), filled + PositionsOf(Positions(sel)))
    else
      var a := alts[0];
      var s := Pick(a, sel, n);
      var after := [Alternative(s.when, a.thenValue, s.whenSel)];
      if !s.any then
        var rest := Evaluation(alts[1..], otherwise, s.sel, result, filled, n);
        rest.(alternatives := after + rest.alternatives)
      else
        var rows := RowsFor(a.when, s);
        var result', filled' := Filled(result, filled, rows, a.thenValue), filled + PositionsOf(rows);
        if |filled'| == s.sel.size then Evaluated(after + alts[1..], s.sel, result', filled')
        else
          var rest := Evaluation(alts[1..], otherwise, s.sel, result', filled', n);
          rest.(alternatives := after + rest.alternatives)
  }

  // ---- When evaluating is right. ----

  ghost predicate Distinct(sel: Selection)
    requires sel.size <= |sel.buffer|
  {
    forall i, j :: 0 <= i < j < sel.size ==> At(sel, i) != At(sel, j)
  }

  /**
   The WHENs that leave the right rows behind, told from their kind, their flatness and the selection: not
   an unflat column, unless row 0 is all that is selected; not an unflat function without a select of its
   own on a single row; not a CASE.
  */
  predicate Exact(w: When, sel: Selection)
    requires sel.size <= |sel.buffer|
  {
    match w
    case Literal(_) => true
    case Function(selects, truth) => truth.Flat? || selects || sel.size != 1
    case Reference(truth) => truth.Flat? || forall i :: 0 <= i < sel.size ==> At(sel, i) == 0
    case Nested(_) => sel.size == 0
  }

  predicate AllExact<V>(alts: seq<Alternative<V>>, sel: Selection)
    requires sel.size <= |sel.buffer|
  {
    forall k :: 0 <= k < |alts| ==> Exact(alts[k].when, sel)
  }

  /** Every selected row gets its CASE value. */
  ghost predicate Right<V>(alts: seq<Alternative<V>>, otherwise: Column<V>, sel: Selection, before: seq<V>, n: nat)
    requires AllFit(alts, n) && ColumnFits(otherwise, n) && SelectionFits(sel, n) && |before| == n > 0
  {
    forall i :: 0 <= i < sel.size ==>
      Evaluation(alts, otherwise, sel, before, {}, n).result[At(sel, i)] == RowCase(alts, otherwise, n, At(sel, i))
  }

  lemma KeptTrueAre(into: Selection, rows: seq<Truth>, sel: Selection, n: nat, p: nat)
    requires SelectionFits(into, n) && SelectionFits(sel, n) && |rows| == n && into.filtered && p < n
    ensures p in Positions(KeepTrue(into, rows, sel, n)) <==> p in Positions(sel) && rows[p] == Known(true)
  {
    PositionsWithin(sel, n);
    var positions := Positions(sel);
    var flags := TrueAt(rows, positions);
    KeptFits(into, positions, flags, n);
    ChosenIs(positions, flags, p);
    if p in positions && rows[p] == Known(true) {
      var i :| 0 <= i < |positions| && positions[i] == p;
      assert flags[i];
    }
  }

  // A row 0 alone stays selected, and counted if it is true.
  lemma ZeroAlone(rows: seq<Truth>, sel: Selection, n: nat)
    requires SelectionFits(sel, n) && |rows| == n > 0 && sel.size == 1 && At(sel, 0) == 0
    ensures var kept := KeepTrue(sel, rows, sel, n);
      && kept.size == (if rows[0] == Known(true) then 1 else 0)
      && Positions(sel.(buffer := kept.buffer)) == Positions(sel) == [0]
  {
    var positions := Positions(sel);
    var flags := TrueAt(rows, positions);
    assert positions == [0] && positions[..0] == [] && flags[..0] == [];
    assert Chosen([], []) == [] && Compacted(sel.buffer, [], []) == sel.buffer;
  }

  lemma SelectColumn(rows: seq<Truth>, whenSel: Selection, sel: Selection, n: nat)
    requires WhenFits(Reference(Unflat(rows)), whenSel, n) && SelectionFits(sel, n) && n > 0
    ensures var kept := KeepTrue(sel, rows, sel, n);
      SelectedBy(Reference(Unflat(rows)), whenSel, sel, n) ==
        Picked(kept.size > 0, Reference(Unflat(rows)), whenSel.(size := kept.size), sel.(buffer := kept.buffer))
  {
  }

  lemma ColumnExact<V>(a: Alternative<V>, sel: Selection, n: nat, p: nat)
    requires AlternativeFits(a, n) && SelectionFits(sel, n) && a.when.Reference? && a.when.truth.Unflat?
    requires sel.size == 1 && At(sel, 0) == 0 && p < n
    ensures Positions(Pick(a, sel, n).sel) == Positions(sel)
    ensures Pick(a, sel, n).any && p in RowsFor(a.when, Pick(a, sel, n)) <==> p in Positions(sel) && Holds(a, n, p)
  {
    hide KeepTrue;
    var rows := a.when.truth.values;
    ZeroAlone(rows, sel, n);
    var s, kept := Pick(a, sel, n), KeepTrue(sel, rows, sel, n);
    assert a.when == Reference(Unflat(rows));
    SelectColumn(rows, a.whenSel, sel, n);
    if s.any {
      assert Positions(s.whenSel) == [0];
    }
  }

  lemma TwoDiffer(sel: Selection)
    requires sel.size <= |sel.buffer| && Distinct(sel) && sel.size > 1
    ensures exists i :: 0 <= i < sel.size && At(sel, i) != 0
  {
    assert At(sel, 0) != At(sel, 1);
  }

  lemma PickExact<V>(a: Alternative<V>, sel: Selection, n: nat, p: nat)
    requires AlternativeFits(a, n) && SelectionFits(sel, n) && Distinct(sel) && 0 < sel.size && Exact(a.when, sel) && p < n
    ensures Positions(Pick(a, sel, n).sel) == Positions(sel)
    ensures Pick(a, sel, n).any && p in RowsFor(a.when, Pick(a, sel, n)) <==> p in Positions(sel) && Holds(a, n, p)
  {
    hide KeepTrue;
    match a.when
    case Literal(_) =>
    case Function(_, Flat(_)) =>
    case Function(_, Unflat(rows)) =>
      KeptTrueAre(a.whenSel, rows, sel, n, p);
    case Reference(Flat(_)) =>
    case Reference(Unflat(_)) =>
      if sel.size > 1 {
        TwoDiffer(sel);
      }
      ColumnExact(a, sel, n, p);
  }

  // ---- Sizes of position sets. ----

  lemma {:induction false} DistinctSize(rows: seq<nat>)
    requires forall i, j :: 0 <= i < j < |rows| ==> rows[i] != rows[j]
    ensures |PositionsOf(rows)| == |rows|
    decreases |rows|
  {
    if rows != [] {
      var m := |rows| - 1;
      DistinctSize(rows[..m]);
      assert PositionsOf(rows) == PositionsOf(rows[..m]) + {rows[m]};
      assert rows[m] !in PositionsOf(rows[..m]);
    } else {
      assert PositionsOf(rows) == {};
    }
  }

  lemma SubsetOfSameSize(a: set<nat>, b: set<nat>)
    requires a <= b && |a| == |b|
    ensures a == b
  {
    if x :| x in b && x !in a {
      assert a <= b - {x};
      SubsetSize(a, b - {x});
    }
  }

  lemma {:induction false} SubsetSize(a: set<nat>, b: set<nat>)
    requires a <= b
    ensures |a| <= |b|
    decreases |a|
  {
    if a != {} {
      var x :| x in a;
      SubsetSize(a - {x}, b - {x});
    }
  }

  // As many filled rows as selected ones: none is left.
  lemma AllFilled(sel: Selection, filled: set<nat>)
    requires sel.size <= |sel.buffer| && Distinct(sel)
    requires (forall p :: p in filled ==> p in Positions(sel)) && |filled| == sel.size
    ensures forall p :: p in Positions(sel) ==> p in filled
  {
    var rows := Positions(sel);
    assert forall i, j :: 0 <= i < j < |rows| ==> rows[i] != rows[j];
    DistinctSize(rows);
    assert filled <= PositionsOf(rows);
    SubsetOfSameSize(filled, PositionsOf(rows));
  }

  /** Row p after evaluating: filled rows and rows not selected stay, open ones take their CASE value. */
  ghost predicate RowDone<V>(alts: seq<Alternative<V>>, otherwise: Column<V>, sel: Selection, result: seq<V>, filled: set<nat>,
                             n: nat, p: nat)
    requires AllFit(alts, n) && ColumnFits(otherwise, n) && SelectionFits(sel, n) && |result| == n > 0 && p < n
  {
    Evaluation(alts, otherwise, sel, result, filled, n).result[p] ==
      if p in Positions(sel) && p !in filled then RowCase(alts, otherwise, n, p) else result[p]
  }

  lemma SamePositions(a: Selection, b: Selection)
    requires a.size <= |a.buffer| && b.size <= |b.buffer| && Positions(a) == Positions(b)
    ensures a.size == b.size && (Distinct(a) <==> Distinct(b)) && forall w :: Exact(w, a) <==> Exact(w, b)
  {
    assert |Positions(a)| == |Positions(b)|;
    assert forall i :: 0 <= i < a.size ==> At(a, i) == Positions(a)[i] == At(b, i);
  }

  lemma RowsWithin(w: When, s: Picked, n: nat)
    requires SelectionFits(s.sel, n) && SelectionFits(s.whenSel, n)
    ensures forall p :: p in RowsFor(w, s) ==> p < n
  {
    PositionsWithin(s.sel, n);
    PositionsWithin(s.whenSel, n);
  }

  lemma {:induction false} EvaluateExact<V>(alts: seq<Alternative<V>>, otherwise: Column<V>, sel: Selection, result: seq<V>,
                                            filled: set<nat>, n: nat, p: nat)
    requires AllFit(alts, n) && ColumnFits(otherwise, n) && SelectionFits(sel, n) && |result| == n > 0 && p < n
    requires Distinct(sel) && 0 < sel.size && AllExact(alts, sel) && forall q :: q in filled ==> q in Positions(sel)
    ensures RowDone(alts, otherwise, sel, result, filled, n, p)
    decreases |alts|
  {
    if alts != [] {
      var a := alts[0];
      var s := Pick(a, sel, n);
      assert Exact(a.when, sel);
      forall q: nat | q < n
        ensures Positions(s.sel) == Positions(sel)
        ensures s.any && q in RowsFor(a.when, s) <==> q in Positions(sel) && Holds(a, n, q)
      {
        PickExact(a, sel, n, q);
      }
      PickExact(a, sel, n, p);
      SamePositions(sel, s.sel);
      assert AllExact(alts[1..], s.sel);
      if !s.any {
        EvaluateExact(alts[1..], otherwise, s.sel, result, filled, n, p);
      } else {
        var rows := RowsFor(a.when, s);
        var result', filled' := Filled(result, filled, rows, a.thenValue), filled + PositionsOf(rows);
        RowsWithin(a.when, s, n);
        forall q | q in filled'
          ensures q in Positions(s.sel)
        {
          if q !in filled {
            assert q in rows && q < n;
          }
        }
        if |filled'| == s.sel.size {
          AllFilled(s.sel, filled');
        } else {
          EvaluateExact(alts[1..], otherwise, s.sel, result', filled', n, p);
        }
      }
    }
  }

  // ---- Contents on which it is wrong. ----

  predicate SameWhen(w: When, v: When)
    decreases w, 1
  {
    match w
    case Literal(_) => v.Literal?
    case Function(selects, truth) => v.Function? && v.selects == selects && v.truth.Flat? == truth.Flat?
    case Reference(truth) => v.Reference? && v.truth.Flat? == truth.Flat?
    case Nested(inner) =>
      v.Nested? && v.inner.otherwise.Flat? == inner.otherwise.Flat? && SameShape(inner.alternatives, v.inner.alternatives)
  }

  predicate SameAlternative<V>(a: Alternative<V>, b: Alternative<V>)
    decreases a, 2
  {
    SameWhen(a.when, b.when) && a.thenValue.Flat? == b.thenValue.Flat?
  }

  /** The same kinds of WHEN and the same columns flat, with any contents. */
  predicate SameShape<V>(alts: seq<Alternative<V>>, others: seq<Alternative<V>>)
    decreases alts, 0
  {
    |alts| == |others| && (alts == [] || (SameAlternative(alts[0], others[0]) && SameShape(alts[1..], others[1..])))
  }

  function Spread<U, V>(like: Column<U>, v: V, n: nat): (r: Column<V>)
    ensures r.Flat? == like.Flat? && ColumnFits(r, n) && forall p: nat :: p < n ==> ValueAt(r, p) == v
  {
    if like.Flat? then Flat(v) else Unflat(seq(n, _ => v))
  }

  /** A selection vector as it is set up: filtered, zeros, empty. */
  function Fresh(n: nat): (r: Selection)
    ensures SelectionFits(r, n) || n == 0
    ensures |r.buffer| == n && r.size == 0 && r.filtered && forall i :: 0 <= i < n ==> r.buffer[i] == 0
  {
    Selection(true, seq(n, _ => 0), 0)
  }

  /** A WHEN of the same shape that holds for every row, or for none. */
  function Constant(w: When, holds: bool, n: nat): When
    decreases w, 1
  {
    match w
    case Literal(_) => Literal(holds)
    case Function(selects, truth) => Function(selects, Spread(truth, Known(holds), n))
    case Reference(truth) => Reference(Spread(truth, Known(holds), n))
    case Nested(inner) => Nested(Case(Idle(inner.alternatives, Unknown, n), Spread(inner.otherwise, Known(holds), n)))
  }

  function IdleOne<V>(a: Alternative<V>, v: V, n: nat): Alternative<V>
    decreases a, 2
  {
    Alternative(Constant(a.when, false, n), Spread(a.thenValue, v, n), Fresh(n))
  }

  /** Alternatives of the same shape that never hold. */
  function Idle<V>(alts: seq<Alternative<V>>, v: V, n: nat): (r: seq<Alternative<V>>)
    ensures |r| == |alts|
    decreases alts, 0
  {
    if alts == [] then [] else [IdleOne(alts[0], v, n)] + Idle(alts[1..], v, n)
  }

  lemma {:induction false} ConstantIs(w: When, holds: bool, n: nat, p: nat)
    requires p < n
    ensures WhenFits(Constant(w, holds, n), Fresh(n), n) && SameWhen(w, Constant(w, holds, n))
    ensures Satisfied(Constant(w, holds, n), Fresh(n), n, p) == holds
    decreases w, 1
  {
    if w.Nested? {
      IdleIs(w.inner.alternatives, Unknown, w.inner.otherwise, Known(holds), n, p);
    }
  }

  lemma {:induction false} IdleOneIs<V>(a: Alternative<V>, v: V, n: nat, p: nat)
    requires p < n
    ensures AlternativeFits(IdleOne(a, v, n), n) && SameAlternative(a, IdleOne(a, v, n)) && !Holds(IdleOne(a, v, n), n, p)
    decreases a, 2
  {
    ConstantIs(a.when, false, n, p);
  }

  lemma {:induction false} IdleIs<V>(alts: seq<Alternative<V>>, v: V, otherwise: Column<V>, u: V, n: nat, p: nat)
    requires p < n
    ensures AllFit(Idle(alts, v, n), n) && SameShape(alts, Idle(alts, v, n))
    ensures RowCase(Idle(alts, v, n), Spread(otherwise, u, n), n, p) == u
    decreases alts, 0
  {
    if alts != [] {
      IdleOneIs(alts[0], v, n, p);
      IdleIs(alts[1..], v, otherwise, u, n, p);
      assert Idle(alts, v, n)[1..] == Idle(alts[1..], v, n);
    }
  }

  /** The alternative cannot fill the row, true or not. */
  predicate Misses<V>(a: Alternative<V>, size: nat, q: nat) {
    match a.when
    case Literal(_) => false
    case Function(selects, truth) => truth.Unflat? && !selects && size == 1 && a.whenSel.size == 0
    case Reference(truth) => truth.Unflat? && q != 0
    case Nested(_) => true
  }

  lemma MissesRow<V>(a: Alternative<V>, sel: Selection, n: nat, q: nat)
    requires AlternativeFits(a, n) && SelectionFits(sel, n) && n > 0 && Misses(a, sel.size, q)
    ensures Pick(a, sel, n).any ==> q !in RowsFor(a.when, Pick(a, sel, n))
  {
    hide KeepTrue;
    if a.when.Reference? {
      SelectColumn(a.when.truth.values, a.whenSel, sel, n);
      assert a.when == Reference(Unflat(a.when.truth.values));
    }
  }

  // A row that only alternatives with value b can fill does not become anything else.
  lemma {:induction false} StaysAt<V>(alts: seq<Alternative<V>>, otherwise: Column<V>, sel: Selection, result: seq<V>,
                                      filled: set<nat>, n: nat, q: nat, b: V)
    requires AllFit(alts, n) && ColumnFits(otherwise, n) && SelectionFits(sel, n) && |result| == n > 0 && q < n
    requires forall k :: 0 <= k < |alts| ==>
      Misses(alts[k], sel.size, q) || (ColumnFits(alts[k].thenValue, n) && ValueAt(alts[k].thenValue, q) == b)
    requires ValueAt(otherwise, q) == b && result[q] == b
    ensures Evaluation(alts, otherwise, sel, result, filled, n).result[q] == b
    decreases |alts|
  {
    if alts != [] {
      var a := alts[0];
      var s := Pick(a, sel, n);
      if Misses(a, sel.size, q) {
        MissesRow(a, sel, n, q);
      }
      if !s.any {
        StaysAt(alts[1..], otherwise, s.sel, result, filled, n, q, b);
      } else {
        var rows := RowsFor(a.when, s);
        var result', filled' := Filled(result, filled, rows, a.thenValue), filled + PositionsOf(rows);
        if |filled'| != s.sel.size {
          StaysAt(alts[1..], otherwise, s.sel, result', filled', n, q, b);
        }
      }
    }
  }

  /** Alternatives of the same shape of which only number k holds, for every row, with THEN a and everything else b. */
  function OnlyHolds<V>(alts: seq<Alternative<V>>, k: nat, a: V, b: V, n: nat): (r: seq<Alternative<V>>)
    requires k < |alts|
    ensures |r| == |alts|
    decreases k
  {
    if k == 0 then
      [Alternative(Constant(alts[0].when, true, n), Spread(alts[0].thenValue, a, n), Fresh(n))] + Idle(alts[1..], b, n)
    else [IdleOne(alts[0], b, n)] + OnlyHolds(alts[1..], k - 1, a, b, n)
  }

  lemma {:induction false} IdleHas<V>(alts: seq<Alternative<V>>, v: V, n: nat)
    ensures forall j :: 0 <= j < |alts| ==> Idle(alts, v, n)[j].thenValue == Spread(alts[j].thenValue, v, n)
    decreases |alts|
  {
    if alts != [] {
      IdleHas(alts[1..], v, n);
    }
  }

  lemma {:induction false} OnlyHoldsIs<V>(alts: seq<Alternative<V>>, otherwise: Column<V>, k: nat, a: V, b: V, n: nat, p: nat)
    requires k < |alts| && p < n && ColumnFits(otherwise, n)
    ensures var r := OnlyHolds(alts, k, a, b, n);
      && AllFit(r, n) && SameShape(alts, r) && RowCase(r, otherwise, n, p) == a
      && r[k].when == Constant(alts[k].when, true, n) && r[k].whenSel == Fresh(n)
      && (forall j :: 0 <= j < |alts| && j != k ==> r[j].thenValue == Spread(alts[j].thenValue, b, n))
    decreases k
  {
    var r := OnlyHolds(alts, k, a, b, n);
    if k == 0 {
      ConstantIs(alts[0].when, true, n, p);
      IdleIs(alts[1..], b, otherwise, b, n, p);
      IdleHas(alts[1..], b, n);
      assert r[1..] == Idle(alts[1..], b, n);
    } else {
      IdleOneIs(alts[0], b, n, p);
      OnlyHoldsIs(alts[1..], otherwise, k - 1, a, b, n, p);
      assert r[1..] == OnlyHolds(alts[1..], k - 1, a, b, n);
    }
  }

  /** A selected row that a WHEN which is not exact misses. */
  lemma MissedRow(w: When, sel: Selection, n: nat) returns (i: nat)
    requires SelectionFits(sel, n) && !Exact(w, sel)
    ensures i < sel.size
    ensures Misses(Alternative(Constant(w, true, n), Flat(Unknown), Fresh(n)), sel.size, At(sel, i))
  {
    i := 0;
    if w.Reference? {
      i :| 0 <= i < sel.size && At(sel, i) != 0;
    }
  }

  lemma WrongAt<V>(alts: seq<Alternative<V>>, otherwise: Column<V>, sel: Selection, n: nat, a: V, b: V, k: nat)
    requires SelectionFits(sel, n) && n > 0 && a != b && k < |alts| && !Exact(alts[k].when, sel)
    ensures var others := OnlyHolds(alts, k, a, b, n);
      && AllFit(others, n) && SameShape(alts, others)
      && !Right(others, Spread(otherwise, b, n), sel, seq(n, _ => b), n)
  {
    hide Evaluation, RowCase, AllFit, SameShape, OnlyHolds, Constant, Exact, Misses;
    var i := MissedRow(alts[k].when, sel, n);
    var q := At(sel, i);
    var others, other, before := OnlyHolds(alts, k, a, b, n), Spread(otherwise, b, n), seq(n, _ => b);
    OnlyHoldsIs(alts, other, k, a, b, n, q);
    forall j | 0 <= j < |others|
      ensures Misses(others[j], sel.size, q) || (ColumnFits(others[j].thenValue, n) && ValueAt(others[j].thenValue, q) == b)
    {
      if j == k {
        MissesAnyThen(others[k], alts[k].when, sel, n, i);
      }
    }
    StaysAt(others, other, sel, before, {}, n, q, b);
    assert Evaluation(others, other, sel, before, {}, n).result[At(sel, i)] != RowCase(others, other, n, At(sel, i));
  }

  lemma MissesAnyThen<V>(x: Alternative<V>, w: When, sel: Selection, n: nat, i: nat)
    requires SelectionFits(sel, n) && i < sel.size
    requires Misses(Alternative(Constant(w, true, n), Flat(Unknown), Fresh(n)), sel.size, At(sel, i))
    requires x.when == Constant(w, true, n) && x.whenSel == Fresh(n)
    ensures Misses(x, sel.size, At(sel, i))
  {
  }

  /**
   Every selected row gets its CASE value for all contents of columns and selection vectors if and only if
   every WHEN is exact, which shows in its kind, its flatness and the selection before the call.
  */
  lemma EvaluateRightIff<V(!new)>(alts: seq<Alternative<V>>, otherwise: Column<V>, sel: Selection, n: nat, a: V, b: V)
    requires AllFit(alts, n) && ColumnFits(otherwise, n) && SelectionFits(sel, n) && Distinct(sel) && n > 0 && a != b
    ensures AllExact(alts, sel) <==>
      forall others: seq<Alternative<V>>, other: Column<V>, before: seq<V> ::
        AllFit(others, n) && ColumnFits(other, n) && |before| == n && SameShape(alts, others) && other.Flat? == otherwise.Flat? ==>
          Right(others, other, sel, before, n)
  {
    if AllExact(alts, sel) {
      forall others: seq<Alternative<V>>, other: Column<V>, before: seq<V> |
        AllFit(others, n) && ColumnFits(other, n) && |before| == n && SameShape(alts, others)
        ensures Right(others, other, sel, before, n)
      {
        SameExact(alts, others, sel);
        ExactIsRight(others, other, sel, before, n);
      }
    } else {
      var k :| 0 <= k < |alts| && !Exact(alts[k].when, sel);
      WrongAt(alts, otherwise, sel, n, a, b, k);
    }
  }

  lemma SameWhenExact(w: When, v: When, sel: Selection)
    requires SameWhen(w, v) && sel.size <= |sel.buffer|
    ensures Exact(w, sel) <==> Exact(v, sel)
  {
  }

  lemma {:induction false} ExactKeepsSelection<V>(alts: seq<Alternative<V>>, otherwise: Column<V>, sel: Selection,
                                                  result: seq<V>, filled: set<nat>, n: nat)
    requires AllFit(alts, n) && ColumnFits(otherwise, n) && SelectionFits(sel, n) && |result| == n > 0
    requires Distinct(sel) && AllExact(alts, sel)
    ensures Positions(Evaluation(alts, otherwise, sel, result, filled, n).sel) == Positions(sel)
    decreases |alts|
  {
    hide Filled, PositionsOf;
    if alts != [] && sel.size > 0 {
      EvaluationStep(alts, otherwise, sel, result, filled, n);
      var s := Pick(alts[0], sel, n);
      assert Exact(alts[0].when, sel);
      PickExact(alts[0], sel, n, 0);
      SamePositions(sel, s.sel);
      ExactSplits(alts, sel);
      var rows := if s.any then RowsFor(alts[0].when, s) else [];
      ExactKeepsSelection(alts[1..], otherwise, s.sel, Filled(result, filled, rows, alts[0].thenValue),
                          filled + PositionsOf(rows), n);
    }
  }

  lemma {:induction false} SameExact<V>(alts: seq<Alternative<V>>, others: seq<Alternative<V>>, sel: Selection)
    requires SameShape(alts, others) && sel.size <= |sel.buffer|
    ensures AllExact(alts, sel) <==> AllExact(others, sel)
    decreases |alts|
  {
    if alts != [] {
      SameExact(alts[1..], others[1..], sel);
      SameWhenExact(alts[0].when, others[0].when, sel);
      ExactSplits(alts, sel);
      ExactSplits(others, sel);
    }
  }

  lemma ExactSplits<V>(alts: seq<Alternative<V>>, sel: Selection)
    requires alts != [] && sel.size <= |sel.buffer|
    ensures AllExact(alts, sel) <==> Exact(alts[0].when, sel) && AllExact(alts[1..], sel)
  {
    if AllExact(alts[1..], sel) && Exact(alts[0].when, sel) {
      forall k | 0 <= k < |alts|
        ensures Exact(alts[k].when, sel)
      {
        if k > 0 {
          assert alts[k] == alts[1..][k - 1];
        }
      }
    }
  }

  lemma ExactIsRight<V>(alts: seq<Alternative<V>>, otherwise: Column<V>, sel: Selection, before: seq<V>, n: nat)
    requires AllFit(alts, n) && ColumnFits(otherwise, n) && SelectionFits(sel, n) && |before| == n > 0
    requires Distinct(sel) && AllExact(alts, sel)
    ensures Right(alts, otherwise, sel, before, n)
    ensures 0 < sel.size ==> forall p: nat :: p < n && p !in Positions(sel) ==>
      Evaluation(alts, otherwise, sel, before, {}, n).result[p] == before[p]
  {
    hide Evaluation, AllExact;
    if 0 < sel.size {
      forall p: nat | p < n && p !in Positions(sel)
        ensures Evaluation(alts, otherwise, sel, before, {}, n).result[p] == before[p]
      {
        EvaluateExact(alts, otherwise, sel, before, {}, n, p);
      }
    }
    forall i | 0 <= i < sel.size
      ensures Evaluation(alts, otherwise, sel, before, {}, n).result[At(sel, i)] == RowCase(alts, otherwise, n, At(sel, i))
    {
      PositionsWithin(sel, n);
      assert Positions(sel)[i] == At(sel, i);
      EvaluateExact(alts, otherwise, sel, before, {}, n, At(sel, i));
    }
  }

  // ---- Inputs on which it is wrong. ----

  lemma TwoRows(buffer: seq<nat>, p: nat, q: nat)
    requires |buffer| >= 2
    ensures Chosen([p, q], [false, true]) == [q] && Compacted(buffer, [p, q], [false, true]) == buffer[0 := q]
  {
    assert [p, q][..1] == [p] && [false, true][..1] == [false] && [p][..0] == [] && [false][..0] == [];
    assert Chosen([p], [false]) == Chosen([], []) + [] && Compacted(buffer, [p], [false]) == buffer[0 := p];
  }

  lemma OnePosition(p: nat)
    ensures {} + PositionsOf([p]) == {p}
  {
    assert [p][0] in PositionsOf([p]);
  }

  lemma ColumnCase<V>(rows: seq<Truth>, a: V, b: V, n: nat, p: nat)
    requires |rows| == n && p < n
    ensures var alts := [Alternative(Reference(Unflat(rows)), Flat(a), Fresh(n))];
      AllFit(alts, n) && RowCase(alts, Flat(b), n, p) == if rows[p] == Known(true) then a else b
  {
    var column := Alternative(Reference(Unflat(rows)), Flat(a), Fresh(n));
    assert [column][1..] == [] && AlternativeFits(column, n);
    assert Holds(column, n, p) == Satisfied(column.when, Fresh(n), n, p);
  }

  /** One bare column, false for the first of two selected rows and true for the second. */
  lemma SecondOfTwo<V>(rows: seq<Truth>, sel: Selection, n: nat, a: V, b: V, before: seq<V>)
    requires SelectionFits(sel, n) && sel.size == 2 && |rows| == |before| == n
    requires rows[At(sel, 0)] == Known(false) && rows[At(sel, 1)] == Known(true)
    ensures var alts := [Alternative(Reference(Unflat(rows)), Flat(a), Fresh(n))];
      var sel' := sel.(buffer := sel.buffer[0 := At(sel, 1)]);
      && AllFit(alts, n) && SelectionFits(sel', n)
      && Evaluation(alts, Flat(b), sel, before, {}, n).sel == sel'
      && Evaluation(alts, Flat(b), sel, before, {}, n).result ==
         Filled(Filled(before, {}, [0], Flat(a)), {0}, Positions(sel'), Flat(b))
  {
    hide Filled, Compacted, Chosen;
    var column := Alternative(Reference(Unflat(rows)), Flat(a), Fresh(n));
    var alts := [column];
    assert alts[1..] == [] && AlternativeFits(column, n);
    assert Positions(sel) == [At(sel, 0), At(sel, 1)];
    PositionsWithin(sel, n);
    assert TrueAt(rows, Positions(sel)) == [false, true];
    TwoRows(sel.buffer, At(sel, 0), At(sel, 1));
    SelectColumn(rows, Fresh(n), sel, n);
    var s := Pick(column, sel, n);
    assert Positions(s.whenSel) == [0];
    OnePosition(0);
  }

  /** Two rows and a bare column that is true for row 1: row 0 takes the THEN and row 1 the ELSE. */
  lemma BareColumn<V>(a: V, b: V)
    ensures var rows := [Known(false), Known(true)];
      var alts, sel := [Alternative(Reference(Unflat(rows)), Flat(a), Fresh(2))], Selection(false, [0, 0], 2);
      && AllFit(alts, 2) && SelectionFits(sel, 2)
      && Evaluation(alts, Flat(b), sel, [b, b], {}, 2).result == [a, b]
      && RowCase(alts, Flat(b), 2, 0) == b && RowCase(alts, Flat(b), 2, 1) == a
  {
    hide Evaluation;
    var rows, sel := [Known(false), Known(true)], Selection(false, [0, 0], 2);
    SecondOfTwo(rows, sel, 2, a, b, [b, b]);
    assert Positions(sel.(buffer := [1, 0])) == [0, 1];
    ColumnCase(rows, a, b, 2, 0);
    ColumnCase(rows, a, b, 2, 1);
    assert Filled([b, b], {}, [0], Flat(a)) == [a, b] && Filled([a, b], {0}, [0, 1], Flat(b)) == [a, b];
  }

  /** On a filtered batch it also loses selected rows: of rows 1 and 2, row 2 comes twice and row 1 no more. */
  lemma BareColumnFiltered<V>(a: V, b: V, c: V)
    ensures var rows := [Known(false), Known(false), Known(true)];
      var alts, sel := [Alternative(Reference(Unflat(rows)), Flat(a), Fresh(3))], Selection(true, [1, 2, 0], 2);
      && AllFit(alts, 3) && SelectionFits(sel, 3) && Positions(sel) == [1, 2]
      && var e := Evaluation(alts, Flat(b), sel, [c, c, c], {}, 3); Positions(e.sel) == [2, 2] && e.result == [a, c, b]
  {
    hide Evaluation;
    var rows, sel := [Known(false), Known(false), Known(true)], Selection(true, [1, 2, 0], 2);
    SecondOfTwo(rows, sel, 3, a, b, [c, c, c]);
    assert Positions(sel) == [1, 2];
    assert Positions(sel.(buffer := [2, 2, 0])) == [2, 2];
    assert Filled([c, c, c], {}, [0], Flat(a)) == [a, c, c] && Filled([a, c, c], {0}, [2, 2], Flat(b)) == [a, c, b];
  }

  // ---- What is left over, and what is lost. ----

  /**
   One row and a function without a select of its own, whose vector is left over from an earlier batch: if the row is
   true, the rows listed there take the THEN instead, and the row itself keeps its old value if exactly one is listed.
  */
  lemma LeftoverRow<V>(rows: seq<Truth>, thenValue: Column<V>, whenSel: Selection, otherwise: Column<V>, sel: Selection,
                       before: seq<V>, n: nat, p: nat)
    requires |rows| == |before| == n && ColumnFits(thenValue, n) && ColumnFits(otherwise, n) && p < n
    requires SelectionFits(whenSel, n) && whenSel.filtered && SelectionFits(sel, n) && sel.size == 1
    ensures var alts, q, listed := [Alternative(Function(false, Unflat(rows)), thenValue, whenSel)], At(sel, 0), Positions(whenSel);
      && AllFit(alts, n)
      && Evaluation(alts, otherwise, sel, before, {}, n).result[p] ==
         if rows[q] == Known(true) && p in listed then ValueAt(thenValue, p)
         else if p == q && (rows[q] != Known(true) || |PositionsOf(listed)| != 1) then ValueAt(otherwise, p)
         else before[p]
  {
    hide Evaluation, Pick, SelectedBy, Filled, KeepTrue;
    var a := Alternative(Function(false, Unflat(rows)), thenValue, whenSel);
    var alts := [a];
    assert alts[1..] == [] && AlternativeFits(a, n);
    assert Positions(sel) == [At(sel, 0)];
    SelectLeftover(a, rows, sel, n);
    EvaluationStep(alts, otherwise, sel, before, {}, n);
    var listed := if rows[At(sel, 0)] == Known(true) then Positions(whenSel) else [];
    assert {} + PositionsOf(listed) == PositionsOf(listed);
    assert p in listed <==> p in PositionsOf(listed);
    var filled := Filled(before, {}, listed, thenValue);
    FilledAt(before, {}, listed, thenValue, p);
    FilledAt(filled, PositionsOf(listed), Positions(sel), otherwise, p);
    EvaluationEnd(otherwise, sel, filled, PositionsOf(listed), n);
  }

  lemma SelectLeftover<V>(a: Alternative<V>, rows: seq<Truth>, sel: Selection, n: nat)
    requires AlternativeFits(a, n) && SelectionFits(sel, n) && sel.size == 1
    requires a.when == Function(false, Unflat(rows)) && |rows| == n
    ensures Pick(a, sel, n) == Picked(rows[At(sel, 0)] == Known(true), a.when, a.whenSel, sel)
  {
  }

  lemma FilledAt<V>(result: seq<V>, filled: set<nat>, rows: seq<nat>, src: Column<V>, p: nat)
    requires ColumnFits(src, |result|) && p < |result|
    ensures Filled(result, filled, rows, src)[p] == if p in rows && p !in filled then ValueAt(src, p) else result[p]
  {
  }

  /** No bare column with a row per position occurs in it, at any depth. */
  predicate Harmless(w: When)
    decreases w, 1
  {
    match w
    case Literal(_) => true
    case Function(_, _) => true
    case Reference(truth) => truth.Flat?
    case Nested(inner) => AllHarmless(inner.alternatives)
  }

  predicate HarmlessOne<V>(a: Alternative<V>)
    decreases a, 2
  {
    Harmless(a.when)
  }

  predicate AllHarmless<V>(alts: seq<Alternative<V>>)
    decreases alts, 0
  {
    alts == [] || (HarmlessOne(alts[0]) && AllHarmless(alts[1..]))
  }

  lemma {:induction false} HarmlessKeeps(w: When, whenSel: Selection, sel: Selection, n: nat)
    requires WhenFits(w, whenSel, n) && SelectionFits(sel, n) && n > 0 && Harmless(w)
    ensures SelectedBy(w, whenSel, sel, n).sel == sel
    decreases w, 1
  {
    if w.Nested? {
      AllHarmlessKeep(w.inner.alternatives, w.inner.otherwise, sel, Unknowns(n), {}, n);
    }
  }

  lemma {:induction false} HarmlessOneKeeps<V>(a: Alternative<V>, sel: Selection, n: nat)
    requires AlternativeFits(a, n) && SelectionFits(sel, n) && n > 0 && HarmlessOne(a)
    ensures Pick(a, sel, n).sel == sel
    decreases a, 2
  {
    HarmlessKeeps(a.when, a.whenSel, sel, n);
  }

  lemma {:induction false} AllHarmlessKeep<V>(alts: seq<Alternative<V>>, otherwise: Column<V>, sel: Selection, result: seq<V>,
                                              filled: set<nat>, n: nat)
    requires AllFit(alts, n) && ColumnFits(otherwise, n) && SelectionFits(sel, n) && |result| == n > 0 && AllHarmless(alts)
    ensures Evaluation(alts, otherwise, sel, result, filled, n).sel == sel
    decreases alts, 0
  {
    if alts != [] {
      hide Filled, PositionsOf, RowsFor, Pick;
      HarmlessOneKeeps(alts[0], sel, n);
      EvaluationStep(alts, otherwise, sel, result, filled, n);
      var s := Pick(alts[0], sel, n);
      var rows := if s.any then RowsFor(alts[0].when, s) else [];
      AllHarmlessKeep(alts[1..], otherwise, sel, Filled(result, filled, rows, alts[0].thenValue), filled + PositionsOf(rows), n);
    }
  }

  // Compacting a vector into itself lists no position that was not listed.
  lemma {:induction false} CompactedFrom(sel: Selection, flags: seq<bool>, m: nat, i: nat)
    requires sel.filtered && m == |flags| <= sel.size <= |sel.buffer| && i < sel.size
    ensures Compacted(sel.buffer, Positions(sel)[..m], flags)[i] in Positions(sel)
    decreases m
  {
    if m == 0 {
      assert Positions(sel)[i] == sel.buffer[i];
    } else {
      CompactedFrom(sel, flags[..m - 1], m - 1, i);
      assert Positions(sel)[..m][..m - 1] == Positions(sel)[..m - 1];
    }
  }

  lemma {:induction false} LeavesSelected(w: When, whenSel: Selection, sel: Selection, n: nat, p: nat)
    requires WhenFits(w, whenSel, n) && SelectionFits(sel, n) && n > 0
    ensures p in Positions(SelectedBy(w, whenSel, sel, n).sel) ==> p in Positions(sel)
    decreases w, 1
  {
    if w.Nested? {
      AllLeaveSelected(w.inner.alternatives, w.inner.otherwise, sel, Unknowns(n), {}, n, p);
    } else if w.Reference? && w.truth.Unflat? {
      ColumnLeavesSelected(w.truth.values, whenSel, sel, n, p);
    } else {
      HarmlessKeeps(w, whenSel, sel, n);
    }
  }

  lemma ColumnLeavesSelected(rows: seq<Truth>, whenSel: Selection, sel: Selection, n: nat, p: nat)
    requires WhenFits(Reference(Unflat(rows)), whenSel, n) && SelectionFits(sel, n) && n > 0
    ensures p in Positions(SelectedBy(Reference(Unflat(rows)), whenSel, sel, n).sel) ==> p in Positions(sel)
  {
    hide KeepTrue;
    SelectColumn(rows, whenSel, sel, n);
    var after := sel.(buffer := KeepTrue(sel, rows, sel, n).buffer);
    if sel.filtered {
      KeepTrueBuffer(sel, rows, n);
      forall i | 0 <= i < sel.size
        ensures after.buffer[i] in Positions(sel)
      {
        CompactedFrom(sel, TrueAt(rows, Positions(sel)), sel.size, i);
      }
    } else {
      assert Positions(after) == Positions(sel);
    }
  }

  lemma KeepTrueBuffer(sel: Selection, rows: seq<Truth>, n: nat)
    requires SelectionFits(sel, n) && |rows| == n
    ensures forall i :: 0 <= i < sel.size ==> Positions(sel)[i] < n
    ensures KeepTrue(sel, rows, sel, n).buffer ==
      Compacted(sel.buffer, Positions(sel)[..sel.size], TrueAt(rows, Positions(sel)))
  {
    assert Positions(sel)[..sel.size] == Positions(sel);
  }

  lemma {:induction false} OneLeavesSelected<V>(a: Alternative<V>, sel: Selection, n: nat, p: nat)
    requires AlternativeFits(a, n) && SelectionFits(sel, n) && n > 0
    ensures p in Positions(Pick(a, sel, n).sel) ==> p in Positions(sel)
    decreases a, 2
  {
    LeavesSelected(a.when, a.whenSel, sel, n, p);
  }

  /** Evaluating selects no row that was not selected. */
  lemma {:induction false} AllLeaveSelected<V>(alts: seq<Alternative<V>>, otherwise: Column<V>, sel: Selection, result: seq<V>,
                                               filled: set<nat>, n: nat, p: nat)
    requires AllFit(alts, n) && ColumnFits(otherwise, n) && SelectionFits(sel, n) && |result| == n > 0
    ensures p in Positions(Evaluation(alts, otherwise, sel, result, filled, n).sel) ==> p in Positions(sel)
    decreases alts, 0
  {
    if alts != [] {
      hide Filled, PositionsOf, RowsFor, Pick, Positions;
      OneLeavesSelected(alts[0], sel, n, p);
      EvaluationStep(alts, otherwise, sel, result, filled, n);
      var s := Pick(alts[0], sel, n);
      var rows := if s.any then RowsFor(alts[0].when, s) else [];
      AllLeaveSelected(alts[1..], otherwise, s.sel, Filled(result, filled, rows, alts[0].thenValue),
                       filled + PositionsOf(rows), n, p);
    }
  }

  /** Contents of the same shape: every bare column with a row per position holds the rows given, all else is false. */
  function Lossy(w: When, rows: seq<Truth>, n: nat): When
    decreases w, 1
  {
    match w
    case Literal(_) => Literal(false)
    case Function(selects, truth) => Function(selects, Spread(truth, Known(false), n))
    case Reference(truth) => Reference(if truth.Flat? then Flat(Known(false)) else Unflat(rows))
    case Nested(inner) => Nested(Case(AllLossy(inner.alternatives, rows, n), Spread(inner.otherwise, Unknown, n)))
  }

  function LossyOne(a: Alternative<Truth>, rows: seq<Truth>, n: nat): Alternative<Truth>
    decreases a, 2
  {
    Alternative(Lossy(a.when, rows, n), Spread(a.thenValue, Unknown, n), Fresh(n))
  }

  function AllLossy(alts: seq<Alternative<Truth>>, rows: seq<Truth>, n: nat): (r: seq<Alternative<Truth>>)
    ensures |r| == |alts|
    decreases alts, 0
  {
    if alts == [] then [] else [LossyOne(alts[0], rows, n)] + AllLossy(alts[1..], rows, n)
  }

  lemma {:induction false} LossyFits(w: When, rows: seq<Truth>, n: nat)
    requires |rows| == n > 0
    ensures WhenFits(Lossy(w, rows, n), Fresh(n), n) && SameWhen(w, Lossy(w, rows, n))
    ensures Harmless(Lossy(w, rows, n)) <==> Harmless(w)
    decreases w, 1
  {
    if w.Nested? {
      AllLossyFit(w.inner.alternatives, rows, n);
    }
  }

  lemma {:induction false} LossyOneFits(a: Alternative<Truth>, rows: seq<Truth>, n: nat)
    requires |rows| == n > 0
    ensures AlternativeFits(LossyOne(a, rows, n), n) && SameAlternative(a, LossyOne(a, rows, n))
    ensures HarmlessOne(LossyOne(a, rows, n)) <==> HarmlessOne(a)
    decreases a, 2
  {
    LossyFits(a.when, rows, n);
  }

  lemma {:induction false} AllLossyFit(alts: seq<Alternative<Truth>>, rows: seq<Truth>, n: nat)
    requires |rows| == n > 0
    ensures AllFit(AllLossy(alts, rows, n), n) && SameShape(alts, AllLossy(alts, rows, n))
    ensures AllHarmless(AllLossy(alts, rows, n)) <==> AllHarmless(alts)
    decreases alts, 0
  {
    if alts != [] {
      LossyOneFits(alts[0], rows, n);
      AllLossyFit(alts[1..], rows, n);
      assert AllLossy(alts, rows, n)[1..] == AllLossy(alts[1..], rows, n);
    }
  }

  lemma {:induction false} NoneChosen(positions: seq<nat>, flags: seq<bool>)
    requires |positions| == |flags| && forall i :: 0 <= i < |flags| ==> !flags[i]
    ensures Chosen(positions, flags) == []
    decreases |positions|
  {
    if positions != [] {
      NoneChosen(positions[..|positions| - 1], flags[..|positions| - 1]);
    }
  }

  // What is false reports no row.
  lemma FalseIsSilent(w: When, rows: seq<Truth>, sel: Selection, n: nat)
    requires SelectionFits(sel, n) && |rows| == n > 0 && Harmless(w)
    ensures WhenFits(Lossy(w, rows, n), Fresh(n), n) && !SelectedBy(Lossy(w, rows, n), Fresh(n), sel, n).any
  {
    LossyFits(w, rows, n);
    if w.Function? && w.truth.Unflat? {
      var none := Spread(w.truth, Known(false), n).values;
      PositionsWithin(sel, n);
      assert forall p: nat :: p < n ==> none[p] == ValueAt(Unflat(none), p) == Known(false);
      NoneChosen(Positions(sel), TrueAt(none, Positions(sel)));
    }
  }

  /** True for one row alone. */
  function OnlyAt(q: nat, n: nat): seq<Truth> {
    seq(n, i => Known(i == q))
  }

  lemma {:induction false} FirstLost(sel: Selection, flags: seq<bool>, m: nat)
    requires 1 < m == |flags| <= sel.size <= |sel.buffer| && sel.filtered && Distinct(sel)
    requires forall i :: 0 <= i < m ==> flags[i] == (i == 1)
    ensures var c := Compacted(sel.buffer, Positions(sel)[..m], flags);
      && |Chosen(Positions(sel)[..m], flags)| == 1 && c[0] == At(sel, 1)
      && forall i :: 0 <= i < sel.size ==> c[i] != At(sel, 0)
    decreases m
  {
    var positions := Positions(sel)[..m];
    assert positions[..m - 1] == Positions(sel)[..m - 1];
    if m == 2 {
      assert positions == [At(sel, 0), At(sel, 1)] && flags == [false, true];
      TwoRows(sel.buffer, At(sel, 0), At(sel, 1));
      assert Chosen(positions, flags) == [At(sel, 1)];
      forall i | 0 <= i < sel.size
        ensures Compacted(sel.buffer, positions, flags)[i] != At(sel, 0)
      {
        assert Compacted(sel.buffer, positions, flags)[i] == At(sel, if i == 0 then 1 else i);
      }
    } else {
      FirstLost(sel, flags[..m - 1], m - 1);
    }
  }

  /** On those contents the first selected row is lost as soon as there is such a column. */
  lemma {:induction false} LossyLoses(w: When, sel: Selection, n: nat)
    requires SelectionFits(sel, n) && sel.filtered && Distinct(sel) && sel.size > 1 && !Harmless(w)
    ensures var v := Lossy(w, OnlyAt(At(sel, 1), n), n);
      WhenFits(v, Fresh(n), n) && At(sel, 0) !in Positions(SelectedBy(v, Fresh(n), sel, n).sel)
    decreases w, 1
  {
    var rows := OnlyAt(At(sel, 1), n);
    LossyFits(w, rows, n);
    if w.Nested? {
      AllLossyLose(w.inner.alternatives, Spread(w.inner.otherwise, Unknown, n), sel, Unknowns(n), {}, n);
    } else {
      ColumnLoses(Fresh(n), sel, n);
    }
  }

  lemma ColumnLoses(whenSel: Selection, sel: Selection, n: nat)
    requires SelectionFits(sel, n) && sel.filtered && Distinct(sel) && sel.size > 1
    requires WhenFits(Reference(Unflat(OnlyAt(At(sel, 1), n))), whenSel, n)
    ensures At(sel, 0) !in Positions(SelectedBy(Reference(Unflat(OnlyAt(At(sel, 1), n))), whenSel, sel, n).sel)
  {
    hide KeepTrue, Compacted;
    var rows := OnlyAt(At(sel, 1), n);
    SelectColumn(rows, whenSel, sel, n);
    KeepTrueBuffer(sel, rows, n);
    assert forall i :: 0 <= i < sel.size ==> TrueAt(rows, Positions(sel))[i] == (i == 1);
    FirstLost(sel, TrueAt(rows, Positions(sel)), sel.size);
  }

  lemma {:induction false} LossyOneLoses(a: Alternative<Truth>, sel: Selection, n: nat)
    requires SelectionFits(sel, n) && sel.filtered && Distinct(sel) && sel.size > 1 && !HarmlessOne(a)
    ensures var b := LossyOne(a, OnlyAt(At(sel, 1), n), n);
      AlternativeFits(b, n) && At(sel, 0) !in Positions(Pick(b, sel, n).sel)
    decreases a, 2
  {
    LossyOneFits(a, OnlyAt(At(sel, 1), n), n);
    LossyLoses(a.when, sel, n);
  }

  lemma {:induction false} AllLossyLose(alts: seq<Alternative<Truth>>, otherwise: Column<Truth>, sel: Selection,
                                        result: seq<Truth>, filled: set<nat>, n: nat)
    requires SelectionFits(sel, n) && sel.filtered && Distinct(sel) && sel.size > 1 && !AllHarmless(alts)
    requires ColumnFits(otherwise, n) && |result| == n
    ensures var others := AllLossy(alts, OnlyAt(At(sel, 1), n), n);
      AllFit(others, n) && At(sel, 0) !in Positions(Evaluation(others, otherwise, sel, result, filled, n).sel)
    decreases alts, 0
  {
    var rows := OnlyAt(At(sel, 1), n);
    var others := AllLossy(alts, rows, n);
    AllLossyFit(alts, rows, n);
    assert others[0] == LossyOne(alts[0], rows, n) && others[1..] == AllLossy(alts[1..], rows, n);
    EvaluationStep(others, otherwise, sel, result, filled, n);
    var s := Pick(others[0], sel, n);
    var rows' := if s.any then RowsFor(others[0].when, s) else [];
    var result', filled' := Filled(result, filled, rows', others[0].thenValue), filled + PositionsOf(rows');
    if HarmlessOne(alts[0]) {
      LossyOneFits(alts[0], rows, n);
      HarmlessOneKeeps(others[0], sel, n);
      FalseIsSilent(alts[0].when, rows, sel, n);
      AllLossyLose(alts[1..], otherwise, sel, result', filled', n);
    } else {
      LossyOneLoses(alts[0], sel, n);
      AllLeaveSelected(others[1..], otherwise, s.sel, result', filled', n, At(sel, 0));
    }
  }

  lemma {:induction false} SameWhenHarmless(w: When, v: When)
    requires SameWhen(w, v)
    ensures Harmless(w) <==> Harmless(v)
    decreases w, 1
  {
    if w.Nested? {
      SameShapeHarmless(w.inner.alternatives, v.inner.alternatives);
    }
  }

  lemma {:induction false} SameOneHarmless<V>(a: Alternative<V>, b: Alternative<V>)
    requires SameAlternative(a, b)
    ensures HarmlessOne(a) <==> HarmlessOne(b)
    decreases a, 2
  {
    SameWhenHarmless(a.when, b.when);
  }

  lemma {:induction false} SameShapeHarmless<V>(alts: seq<Alternative<V>>, others: seq<Alternative<V>>)
    requires SameShape(alts, others)
    ensures AllHarmless(alts) <==> AllHarmless(others)
    decreases alts, 0
  {
    if alts != [] {
      SameOneHarmless(alts[0], others[0]);
      SameShapeHarmless(alts[1..], others[1..]);
    }
  }

  /**
   Selecting by a WHEN, a nested CASE for one, leaves the selected rows as they were for all contents if and only if the
   selection is not filtered, has at most one row, or no bare column with a row per position occurs in it at any depth.
  */
  lemma SelectionStaysIff(w: When, sel: Selection, n: nat)
    requires SelectionFits(sel, n) && n > 0 && Distinct(sel)
    ensures !sel.filtered || sel.size <= 1 || Harmless(w) <==>
      forall v: When, whenSel: Selection :: WhenFits(v, whenSel, n) && SameWhen(w, v) ==>
        Positions(SelectedBy(v, whenSel, sel, n).sel) == Positions(sel)
  {
    if !sel.filtered || sel.size <= 1 || Harmless(w) {
      forall v: When, whenSel: Selection | WhenFits(v, whenSel, n) && SameWhen(w, v)
        ensures Positions(SelectedBy(v, whenSel, sel, n).sel) == Positions(sel)
      {
        SameWhenHarmless(w, v);
        if Harmless(v) {
          HarmlessKeeps(v, whenSel, sel, n);
        } else {
          FewStay(v, whenSel, sel, n);
        }
      }
    } else {
      var rows := OnlyAt(At(sel, 1), n);
      LossyFits(w, rows, n);
      LossyLoses(w, sel, n);
      assert Positions(sel)[0] == At(sel, 0);
    }
  }

  lemma FewStay(w: When, whenSel: Selection, sel: Selection, n: nat)
    requires WhenFits(w, whenSel, n) && SelectionFits(sel, n) && n > 0 && (!sel.filtered || sel.size <= 1)
    ensures Positions(SelectedBy(w, whenSel, sel, n).sel) == Positions(sel)
  {
    hide SelectedBy;
    var after := SelectedBy(w, whenSel, sel, n).sel;
    if sel.filtered && sel.size == 1 {
      LeavesSelected(w, whenSel, sel, n, At(after, 0));
      assert Positions(after)[0] == At(after, 0);
    }
  }

  // ---- The evaluators. ----

  lemma CompactedNext(buffer: seq<nat>, positions: seq<nat>, flags: seq<bool>, i: nat)
    requires i < |positions| == |flags| <= |buffer|
    ensures |Chosen(positions[..i], flags[..i])| <= i
    ensures Compacted(buffer, positions[..i + 1], flags[..i + 1]) ==
      Compacted(buffer, positions[..i], flags[..i])[|Chosen(positions[..i], flags[..i])| := positions[i]]
    ensures |Chosen(positions[..i + 1], flags[..i + 1])| == |Chosen(positions[..i], flags[..i])| + if flags[i] then 1 else 0
  {
    assert positions[..i + 1][..i] == positions[..i] && flags[..i + 1][..i] == flags[..i];
  }

  // The selected positions of true rows, compacted into a selection vector.
  method CompactTrue(into: Selection, rows: seq<Truth>, sel: Selection, n: nat) returns (r: Selection)
    requires SelectionFits(into, n) && SelectionFits(sel, n) && |rows| == n
    ensures r == KeepTrue(into, rows, sel, n)
  {
    hide Compacted, Chosen;
    PositionsWithin(sel, n);
    ghost var positions := Positions(sel);
    ghost var flags := TrueAt(rows, positions);
    var buffer, kept := into.buffer, 0;
    NoneKept(buffer);
    for i := 0 to sel.size
      invariant |buffer| == n && buffer == Compacted(into.buffer, positions[..i], flags[..i])
      invariant kept == |Chosen(positions[..i], flags[..i])|
    {
      CompactedNext(into.buffer, positions, flags, i);
      var pos := At(sel, i);
      buffer := buffer[kept := pos];
      if rows[pos] == Known(true) {
        kept := kept + 1;
      }
    }
    assert positions[..sel.size] == positions && flags[..sel.size] == flags;
    r := into.(buffer := buffer, size := kept);
  }

  lemma NoneKept(buffer: seq<nat>)
    ensures Compacted(buffer, [], []) == buffer && Chosen([], []) == []
  {
  }

  // The same into the selection vector the positions are read from: writing never overtakes reading.
  method CompactInPlace(rows: seq<Truth>, sel: Selection, n: nat) returns (r: Selection)
    requires SelectionFits(sel, n) && |rows| == n
    ensures r == KeepTrue(sel, rows, sel, n)
  {
    hide Compacted, Chosen;
    PositionsWithin(sel, n);
    ghost var positions := Positions(sel);
    ghost var flags := TrueAt(rows, positions);
    var buffer, kept := sel.buffer, 0;
    NoneKept(buffer);
    for i := 0 to sel.size
      invariant |buffer| == n && buffer == Compacted(sel.buffer, positions[..i], flags[..i])
      invariant kept == |Chosen(positions[..i], flags[..i])|
    {
      CompactedIs(sel.buffer, positions[..i], flags[..i]);
      assert buffer[i] == buffer[i..][0] == sel.buffer[i..][0] == sel.buffer[i];
      CompactedNext(sel.buffer, positions, flags, i);
      var pos := if sel.filtered then buffer[i] else i;
      assert pos == positions[i];
      buffer := buffer[kept := pos];
      if rows[pos] == Known(true) {
        kept := kept + 1;
      }
    }
    assert positions[..sel.size] == positions && flags[..sel.size] == flags;
    r := sel.(buffer := buffer, size := kept);
  }

  // Selecting, by the kind of evaluator.
  method Select(w: When, whenSel: Selection, sel: Selection, n: nat) returns (r: Picked)
    requires WhenFits(w, whenSel, n) && SelectionFits(sel, n) && n > 0
    ensures r == SelectedBy(w, whenSel, sel, n)
    decreases w, 1
  {
    hide KeepTrue;
    match w
    case Literal(holds) => r := Picked(holds, w, whenSel, sel);
    case Function(_, Flat(t)) => r := Picked(t == Known(true), w, whenSel, sel);
    case Function(selects, Unflat(rows)) =>
      if selects || sel.size > 1 {
        var kept := CompactTrue(whenSel, rows, sel, n);
        r := Picked(kept.size > 0, w, kept, sel);
      } else {
        r := Picked(rows[At(sel, 0)] == Known(true), w, whenSel, sel);
      }
    case Reference(Flat(t)) =>
      r := Picked(t == Known(true), w, whenSel.(size := if t == Known(true) then 1 else 0), sel);
    case Reference(Unflat(rows)) =>
      var kept := CompactInPlace(rows, sel, n);
      r := Picked(kept.size > 0, w, whenSel.(size := kept.size), sel.(buffer := kept.buffer));
    case Nested(inner) =>
      var result := new Truth[n](_ => Unknown);
      assert result[..] == Unknowns(n);
      var c := new CaseExpressionEvaluator(inner.alternatives, inner.otherwise, sel, result);
      var kept, any := SelectInternal(c, whenSel);
      r := Picked(any, Nested(Case(c.alternatives, inner.otherwise)), kept, c.sel);
  }

  method SelectFor<V>(a: Alternative<V>, sel: Selection, n: nat) returns (r: Picked)
    requires AlternativeFits(a, n) && SelectionFits(sel, n) && n > 0
    ensures r == Pick(a, sel, n)
    decreases a, 2
  {
    r := Select(a.when, a.whenSel, sel, n);
  }

  class CaseExpressionEvaluator<V> {
    var alternatives: seq<Alternative<V>>
    const otherwise: Column<V>
    /** The selection of the result, which all unflat inputs share. */
    var sel: Selection
    const result: array<V>
    var filled: set<nat>

    ghost predicate Valid()
      reads this
    {
      && result.Length > 0 && AllFit(alternatives, result.Length) && ColumnFits(otherwise, result.Length)
      && SelectionFits(sel, result.Length)
    }

    constructor (alternatives: seq<Alternative<V>>, otherwise: Column<V>, sel: Selection, result: array<V>)
      requires result.Length > 0 && AllFit(alternatives, result.Length) && ColumnFits(otherwise, result.Length)
      requires SelectionFits(sel, result.Length)
      ensures Valid() && this.alternatives == alternatives && this.otherwise == otherwise && this.sel == sel
      ensures this.result == result
    {
      this.alternatives, this.otherwise, this.sel, this.result := alternatives, otherwise, sel, result;
      filled := {};
    }

    method FillEntry(p: nat, src: Column<V>)
      requires p < result.Length && ColumnFits(src, result.Length)
      modifies this`filled, result
      ensures filled == old(filled) + {p}
      ensures forall q :: 0 <= q < result.Length ==>
        result[q] == if q == p && p !in old(filled) then ValueAt(src, p) else old(result[q])
    {
      if p in filled {
        return;
      }
      filled := filled + {p};
      result[p] := ValueAt(src, p);
    }

    // Gives every row listed that is still open its value.
    method FillRows(rows: seq<nat>, src: Column<V>)
      requires ColumnFits(src, result.Length) && forall i :: 0 <= i < |rows| ==> rows[i] < result.Length
      modifies this`filled, result
      ensures filled == old(filled) + PositionsOf(rows)
      ensures result[..] == Filled(old(result[..]), old(filled), rows, src)
    {
      for i := 0 to |rows|
        invariant filled == old(filled) + PositionsOf(rows[..i])
        invariant forall q :: 0 <= q < result.Length ==>
          result[q] == if q in rows[..i] && q !in old(filled) then ValueAt(src, q) else old(result[q])
      {
        assert rows[..i + 1] == rows[..i] + [rows[i]];
        assert PositionsOf(rows[..i + 1]) == PositionsOf(rows[..i]) + {rows[i]};
        assert rows[i] in filled <==> rows[i] in old(filled) || rows[i] in rows[..i];
        FillEntry(rows[i], src);
      }
      assert rows[..|rows|] == rows;
    }

    /** The evaluation of the alternatives from k on, with what the earlier ones left, is the whole one. */
    ghost predicate Pending(k: nat, alts: seq<Alternative<V>>, whole: Evaluated<V>)
      requires k <= |alts| && result.Length > 0 && AllFit(alts[k..], result.Length) && ColumnFits(otherwise, result.Length)
      requires SelectionFits(sel, result.Length)
      reads this, result
    {
      var e := Evaluation(alts[k..], otherwise, sel, result[..], filled, result.Length);
      && |alternatives| == |alts| && alternatives[k..] == alts[k..]
      && whole == e.(alternatives := alternatives[..k] + e.alternatives)
    }

    // One alternative: true if evaluating stops here.
    method Turn(k: nat, ghost alts: seq<Alternative<V>>, ghost whole: Evaluated<V>) returns (done: bool)
      requires k < |alts| && result.Length > 0 && AllFit(alts[k..], result.Length) && ColumnFits(otherwise, result.Length)
      requires SelectionFits(sel, result.Length) && Pending(k, alts, whole)
      modifies this, result
      ensures SelectionFits(sel, result.Length) && AllFit(alts[k + 1..], result.Length)
      ensures !done ==> Pending(k + 1, alts, whole)
      ensures done ==> Evaluated(alternatives, sel, result[..], filled) == whole
      decreases alternatives[k], 3
    {
      hide Filled, AllFit, Evaluation, Pick, AlternativeFits, PositionsOf, RowsFor;
      assert alts[k..][1..] == alts[k + 1..] && alts[k..][0] == alts[k] == alternatives[k];
      EvaluationStep(alts[k..], otherwise, sel, result[..], filled, result.Length);
      ghost var front := alternatives[..k];
      WholeStep(front, alts[k..], otherwise, sel, result[..], filled, result.Length, whole);
      var a := alternatives[k];
      var s := SelectFor(a, sel, result.Length);
      alternatives := alternatives[k := Alternative(s.when, a.thenValue, s.whenSel)];
      sel := s.sel;
      assert alternatives[..k + 1] == front + [alternatives[k]] && alternatives[k + 1..] == alts[k + 1..];
      assert alternatives == alternatives[..k + 1] + alternatives[k + 1..];
      var rows := if s.any then RowsFor(a.when, s) else [];
      assert forall i :: 0 <= i < |rows| ==> rows[i] in rows;
      FillRows(rows, a.thenValue);
      done := s.any && |filled| == sel.size;
    }

    method Evaluate()
      requires Valid()
      modifies this, result
      ensures Valid()
      ensures Evaluated(alternatives, sel, result[..], filled) ==
        old(Evaluation(alternatives, otherwise, sel, result[..], {}, result.Length))
      ensures old(Distinct(sel) && AllExact(alternatives, sel)) ==>
        forall i :: 0 <= i < old(sel).size ==>
          result[At(old(sel), i)] == old(RowCase(alternatives, otherwise, result.Length, At(sel, i)))
      ensures old(0 < sel.size && Distinct(sel) && AllExact(alternatives, sel)) ==>
        forall p: nat :: p < result.Length && p !in Positions(old(sel)) ==> result[p] == old(result[p])
      decreases alternatives, 0
    {
      hide Evaluation, AllFit, Filled, PositionsOf;
      filled := {};
      ghost var alts := alternatives;
      ghost var whole := Evaluation(alts, otherwise, sel, result[..], {}, result.Length);
      assert AllFit(whole.alternatives, result.Length) && SelectionFits(whole.sel, result.Length);
      assert alts[0..] == alts;
      if old(Distinct(sel) && AllExact(alternatives, sel)) {
        ExactIsRight(alts, otherwise, sel, result[..], result.Length);
      }
      for k := 0 to |alternatives|
        invariant |alternatives| == |alts| && SelectionFits(sel, result.Length) && AllFit(alts[k..], result.Length)
        invariant Pending(k, alts, whole)
      {
        var done := Turn(k, alts, whole);
        if done {
          return;
        }
      }
      var rows := Positions(sel);
      PositionsWithin(sel, result.Length);
      EvaluationEnd(otherwise, sel, result[..], filled, result.Length);
      assert alts[|alts|..] == [] && alternatives[..|alts|] + [] == alternatives;
      FillRows(rows, otherwise);
    }
  }

  // The step of an evaluation that began with the alternatives in `front`.
  lemma WholeStep<V>(front: seq<Alternative<V>>, alts: seq<Alternative<V>>, otherwise: Column<V>, sel: Selection,
                     result: seq<V>, filled: set<nat>, n: nat, whole: Evaluated<V>)
    requires alts != [] && AllFit(alts, n) && ColumnFits(otherwise, n) && SelectionFits(sel, n) && |result| == n > 0
    requires AlternativeFits(alts[0], n) && AllFit(alts[1..], n) && SelectionFits(Pick(alts[0], sel, n).sel, n)
    requires var e := Evaluation(alts, otherwise, sel, result, filled, n); whole == e.(alternatives := front + e.alternatives)
    ensures var a, s := alts[0], Pick(alts[0], sel, n);
      var rows := if s.any then RowsFor(a.when, s) else [];
      var result', filled' := Filled(result, filled, rows, a.thenValue), filled + PositionsOf(rows);
      var after := front + [Alternative(s.when, a.thenValue, s.whenSel)];
      if s.any && |filled'| == s.sel.size then whole == Evaluated(after + alts[1..], s.sel, result', filled')
      else
        var r := Evaluation(alts[1..], otherwise, s.sel, result', filled', n);
        whole == r.(alternatives := after + r.alternatives)
  {
    hide Evaluation, Filled, Pick, RowsFor;
    EvaluationStep(alts, otherwise, sel, result, filled, n);
  }

  lemma EvaluationEnd<V>(otherwise: Column<V>, sel: Selection, result: seq<V>, filled: set<nat>, n: nat)
    requires ColumnFits(otherwise, n) && SelectionFits(sel, n) && |result| == n > 0
    ensures AllFit<V>([], n)
    ensures Evaluation([], otherwise, sel, result, filled, n) ==
      Evaluated([], sel, Filled(result, filled, Positions(sel), otherwise), filled + PositionsOf(Positions(sel)))
  {
  }

  lemma EvaluationStep<V>(alts: seq<Alternative<V>>, otherwise: Column<V>, sel: Selection, result: seq<V>, filled: set<nat>,
                          n: nat)
    requires alts != [] && AllFit(alts, n) && ColumnFits(otherwise, n) && SelectionFits(sel, n) && |result| == n > 0
    ensures AlternativeFits(alts[0], n) && AllFit(alts[1..], n)
    ensures SelectionFits(Pick(alts[0], sel, n).sel, n)
    ensures forall p :: p in RowsFor(alts[0].when, Pick(alts[0], sel, n)) ==> p < n
    ensures var a, s, e := alts[0], Pick(alts[0], sel, n), Evaluation(alts, otherwise, sel, result, filled, n);
      var rows := if s.any then RowsFor(a.when, s) else [];
      var result', filled' := Filled(result, filled, rows, a.thenValue), filled + PositionsOf(rows);
      var after := [Alternative(s.when, a.thenValue, s.whenSel)];
      if s.any && |filled'| == s.sel.size then e == Evaluated(after + alts[1..], s.sel, result', filled')
      else
        var r := Evaluation(alts[1..], otherwise, s.sel, result', filled', n);
        e == r.(alternatives := after + r.alternatives)
  {
    var s := Pick(alts[0], sel, n);
    RowsWithin(alts[0].when, s, n);
    if !s.any {
      assert Filled(result, filled, [], alts[0].thenValue) == result && filled + PositionsOf([]) == filled;
    }
  }

  // The vector's positions at whose number a true row is selected, compacted in place.
  method KeepNumbers(selVector: Selection, rows: seq<Truth>, sel: Selection, n: nat) returns (r: Selection)
    requires SelectionFits(selVector, n) && SelectionFits(sel, n) && selVector.size <= sel.size && |rows| == n
    ensures forall i :: 0 <= i < sel.size ==> Positions(sel)[i] < n
    ensures r == Kept(selVector, Positions(selVector), TrueAt(rows, Positions(sel)[..selVector.size]))
  {
    hide Compacted, Chosen;
    PositionsWithin(sel, n);
    ghost var positions := Positions(selVector);
    ghost var flags := TrueAt(rows, Positions(sel)[..selVector.size]);
    var buffer, kept := selVector.buffer, 0;
    NoneKept(buffer);
    for i := 0 to selVector.size
      invariant |buffer| == n && buffer == Compacted(selVector.buffer, positions[..i], flags[..i])
      invariant kept == |Chosen(positions[..i], flags[..i])|
    {
      CompactedIs(selVector.buffer, positions[..i], flags[..i]);
      assert buffer[i] == buffer[i..][0] == selVector.buffer[i..][0] == selVector.buffer[i];
      CompactedNext(selVector.buffer, positions, flags, i);
      var pos := if selVector.filtered then buffer[i] else i;
      assert pos == positions[i];
      buffer := buffer[kept := pos];
      var resultPos := At(sel, i);
      assert resultPos == Positions(sel)[..selVector.size][i];
      if rows[resultPos] == Known(true) {
        kept := kept + 1;
      }
    }
    assert positions[..selVector.size] == positions && flags[..selVector.size] == flags;
    r := selVector.(buffer := buffer, size := kept);
  }

  /**
   The CASE as a filter: the vector's positions are kept at whose number the result holds a true row. With
   exact WHENs those are the rows whose CASE is a non-null true.
  */
  method SelectInternal(c: CaseExpressionEvaluator<Truth>, selVector: Selection) returns (r: Selection, any: bool)
    requires c.Valid() && SelectionFits(selVector, c.result.Length) && selVector.size <= c.sel.size
    modifies c, c.result
    ensures c.Valid()
    ensures Evaluated(c.alternatives, c.sel, c.result[..], c.filled) ==
      old(Evaluation(c.alternatives, c.otherwise, c.sel, c.result[..], {}, c.result.Length))
    ensures forall i :: 0 <= i < c.sel.size ==> Positions(c.sel)[i] < c.result.Length
    ensures r == Kept(selVector, Positions(selVector), TrueAt(c.result[..], Positions(c.sel)[..selVector.size]))
    ensures any <==> r.size > 0
    ensures old(Distinct(c.sel) && AllExact(c.alternatives, c.sel)) ==>
      forall p: nat :: p in r.buffer[..r.size] <==>
        exists i :: 0 <= i < selVector.size && At(selVector, i) == p &&
          old(RowCase(c.alternatives, c.otherwise, c.result.Length, At(c.sel, i))) == Known(true)
    decreases c.alternatives, 1
  {
    hide Compacted, Chosen, Evaluation;
    ghost var alts, sel, before := c.alternatives, c.sel, c.result[..];
    c.Evaluate();
    r := KeepNumbers(selVector, c.result[..], c.sel, c.result.Length);
    any := r.size > 0;
    if old(Distinct(c.sel) && AllExact(c.alternatives, c.sel)) {
      ExactFilter(alts, c.otherwise, sel, before, selVector, c.result.Length);
    }
  }

  // The rows kept, with exact WHENs.
  lemma ExactFilter(alts: seq<Alternative<Truth>>, otherwise: Column<Truth>, sel: Selection, before: seq<Truth>,
                    selVector: Selection, n: nat)
    requires AllFit(alts, n) && ColumnFits(otherwise, n) && SelectionFits(sel, n) && |before| == n > 0
    requires Distinct(sel) && AllExact(alts, sel) && SelectionFits(selVector, n) && selVector.size <= sel.size
    ensures var e := Evaluation(alts, otherwise, sel, before, {}, n);
      && (forall i :: 0 <= i < sel.size ==> Positions(e.sel)[i] < n)
      && var r := Kept(selVector, Positions(selVector), TrueAt(e.result, Positions(e.sel)[..selVector.size]));
         forall p: nat :: p in r.buffer[..r.size] <==>
           exists i :: 0 <= i < selVector.size && At(selVector, i) == p &&
             RowCase(alts, otherwise, n, At(sel, i)) == Known(true)
  {
    hide Compacted, Chosen, Evaluation, RowCase;
    var e := Evaluation(alts, otherwise, sel, before, {}, n);
    ExactKeepsSelection(alts, otherwise, sel, before, {}, n);
    ExactIsRight(alts, otherwise, sel, before, n);
    PositionsWithin(e.sel, n);
    var positions, flags := Positions(selVector), TrueAt(e.result, Positions(e.sel)[..selVector.size]);
    CompactedIs(selVector.buffer, positions, flags);
    forall i | 0 <= i < selVector.size
      ensures flags[i] == (RowCase(alts, otherwise, n, At(sel, i)) == Known(true)) && positions[i] == At(selVector, i)
    {
      assert Positions(e.sel)[..selVector.size][i] == Positions(sel)[i] == At(sel, i);
    }
    forall p: nat
      ensures p in Chosen(positions, flags) <==>
        exists i :: 0 <= i < selVector.size && At(selVector, i) == p && RowCase(alts, otherwise, n, At(sel, i)) == Known(true)
    {
      ChosenIs(positions, flags, p);
      if i :| 0 <= i < selVector.size && At(selVector, i) == p && RowCase(alts, otherwise, n, At(sel, i)) == Known(true) {
        assert positions[i] == p && flags[i];
      }
    }
  }
}
