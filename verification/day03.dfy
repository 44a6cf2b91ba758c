/** Crossed wires (day03/src/main.rs): each wire is traced on the integer
    grid from the origin, one cell per unit step; the answers are the
    crossing nearest to the origin in Manhattan distance, and the crossing
    the two wires reach in the fewest combined steps. Coordinates are `int`;
    `i32` overflow is not modelled. */
module Day03 {
  import opened Wrappers
  import RustInt
  import Text

  datatype Point = Point(x: int, y: int)

  const Origin := Point(0, 0)

  /** `usize::MAX` on a 64-bit target. */
  const USIZE_MAX: nat := 0xffff_ffff_ffff_ffff

  datatype Error =
    | MalformedDirection  // an empty token
    | BadValue            // the number after the letter does not parse as an i32
    | WrongDirection      // a letter other than L, R, U and D

  // ===========================================================================
  // Tracing a wire

  predicate IsDirection(c: char) {
    c == 'L' || c == 'R' || c == 'U' || c == 'D'
  }

  /** The cell `k` unit steps from `p` in direction `d`. */
  function Move(p: Point, d: char, k: int): Point
    requires IsDirection(d)
  {
    match d
    case 'L' => Point(p.x - k, p.y)
    case 'R' => Point(p.x + k, p.y)
    case 'U' => Point(p.x, p.y + k)
    case 'D' => Point(p.x, p.y - k)
  }

  /** The cells one token adds after `from`: `(0..n).map(...)`, the cells
      1 to `n` steps away, none when `n` is not positive. */
  function Segment(from: Point, d: char, n: int): seq<Point>
    requires IsDirection(d)
    decreases if n > 0 then n else 0
  {
    if n <= 0 then [] else Segment(from, d, n - 1) + [Move(from, d, n)]
  }

  /** Two cells one unit step apart along a single axis. */
  predicate Adjacent(a: Point, b: Point) {
    (a.x == b.x && (a.y - b.y == 1 || b.y - a.y == 1))
    || (a.y == b.y && (a.x - b.x == 1 || b.x - a.x == 1))
  }

  /** Every cell of a wire is one step from the one before it. */
  predicate Connected(w: seq<Point>) {
    forall i :: 0 < i < |w| ==> Adjacent(w[i - 1], w[i])
  }

  /** A segment of `n` cells is a straight run: it has `max(n, 0)` cells,
      its `i`-th cell is `i + 1` steps from `from`, it moves along one axis
      only, and each cell is one step from the one before it (the first
      from `from`). */
  lemma {:induction false} SegmentShape(from: Point, d: char, n: int)
    requires IsDirection(d)
    ensures var s := Segment(from, d, n);
      && |s| == (if n > 0 then n else 0)
      && (forall i :: 0 <= i < |s| ==> s[i] == Move(from, d, i + 1))
      && (d == 'L' || d == 'R' ==> forall i :: 0 <= i < |s| ==> s[i].y == from.y)
      && (d == 'U' || d == 'D' ==> forall i :: 0 <= i < |s| ==> s[i].x == from.x)
      && (|s| > 0 ==> Adjacent(from, s[0]))
      && Connected(s)
    decreases if n > 0 then n else 0
  {
    if n > 0 {
      SegmentShape(from, d, n - 1);
      var s := Segment(from, d, n);
      assert s[n - 1] == Move(from, d, n);
      if n > 1 {
        assert s[n - 2] == Move(from, d, n - 1);
      }
    }
  }

  /** A token the loop of `to_wire` accepts: a direction letter followed by
      a number that parses as an i32. */
  predicate WellFormed(tok: string) {
    |tok| > 0 && Text.ParseInt(tok[1..], Text.I32).Some? && IsDirection(tok[0])
  }

  /** Every token is well formed (stated token by token from the front, as
      the loop meets them; `AllWellFormedEach` gives the indexed form). */
  predicate AllWellFormed(tokens: seq<string>)
    decreases |tokens|
  {
    |tokens| == 0 || (WellFormed(tokens[0]) && AllWellFormed(tokens[1..]))
  }

  /** The tokens are all well formed exactly when each one is. */
  lemma {:induction false} AllWellFormedEach(tokens: seq<string>)
    ensures AllWellFormed(tokens) <==> forall i :: 0 <= i < |tokens| ==> WellFormed(tokens[i])
    decreases |tokens|
  {
    if |tokens| > 0 {
      AllWellFormedEach(tokens[1..]);
      assert forall k :: 0 < k < |tokens| ==> tokens[1..][k - 1] == tokens[k];
    }
  }

  /** The loop of `to_wire` over the remaining `tokens`: each token extends
      the wire from its last cell. An empty token, a value that does not
      parse (checked before the letter) and an unknown letter are errors. */
  function Trace(cells: seq<Point>, tokens: seq<string>): (r: Result<seq<Point>, Error>)
    requires |cells| > 0
    ensures r.Ok? <==> AllWellFormed(tokens)
    ensures r.Ok? ==> |r.value| >= |cells| && r.value[..|cells|] == cells
    ensures r.Ok? && Connected(cells) ==> Connected(r.value)
    decreases |tokens|
  {
    if |tokens| == 0 then Ok(cells)
    else
      var dir := tokens[0];
      if |dir| == 0 then Err(MalformedDirection)
      else
        match Text.ParseInt(dir[1..], Text.I32)
        case None => Err(BadValue)
        case Some(value) =>
          if !IsDirection(dir[0]) then Err(WrongDirection)
          else
            var last := cells[|cells| - 1];
            SegmentShape(last, dir[0], value);
            ConnectedAppend(cells, Segment(last, dir[0], value));
            var r := Trace(cells + Segment(last, dir[0], value), tokens[1..]);
            assert r.Ok? ==> r.value[..|cells|] == (cells + Segment(last, dir[0], value))[..|cells|];
            r
  }

  /** Appending a connected run that starts one step from the last cell
      keeps a wire connected. */
  lemma ConnectedAppend(a: seq<Point>, b: seq<Point>)
    requires |a| > 0 && Connected(b) && (|b| > 0 ==> Adjacent(a[|a| - 1], b[0]))
    ensures Connected(a) ==> Connected(a + b)
  {
    if Connected(a) {
      forall i | 0 < i < |a + b|
        ensures Adjacent((a + b)[i - 1], (a + b)[i])
      {
        if i > |a| {
          assert (a + b)[i - 1] == b[i - 1 - |a|];
        }
      }
    }
  }

  /** `to_wire`: the cells of the comma-separated path, starting at the
      origin; every cell is one step from the one before it. */
  function ToWire(line: string): (r: Result<seq<Point>, Error>)
    ensures r.Ok? <==> AllWellFormed(Text.Split(line, ','))
    ensures r.Ok? ==> |r.value| >= 1 && r.value[0] == Origin && Connected(r.value)
  {
    var r := Trace([Origin], Text.Split(line, ','));
    assert r.Ok? ==> r.value[0] == r.value[..1][0];
    r
  }

  /** The value of a well-formed token. */
  function Value(tok: string): int
    requires WellFormed(tok)
  {
    Text.ParseInt(tok[1..], Text.I32).value
  }

  /** The number of cells a move of `n` adds: none when `n` is not positive. */
  function Reach(n: int): nat {
    if n > 0 then n else 0
  }

  /** A parsed token: its direction letter and its value. */
  type Stride = (char, int)

  predicate ValidStrides(ms: seq<Stride>) {
    forall i :: 0 <= i < |ms| ==> IsDirection(ms[i].0)
  }

  /** The strides of well-formed tokens, in order. */
  function Strides(tokens: seq<string>): (ms: seq<Stride>)
    requires AllWellFormed(tokens)
    ensures |ms| == |tokens| && ValidStrides(ms)
    decreases |tokens|
  {
    if |tokens| == 0 then [] else [(tokens[0][0], Value(tokens[0]))] + Strides(tokens[1..])
  }

  /** Stride `i` is the letter and value of token `i`. */
  lemma {:induction false} StridesAt(tokens: seq<string>, i: nat)
    requires AllWellFormed(tokens) && i < |tokens|
    ensures WellFormed(tokens[i]) && Strides(tokens)[i] == (tokens[i][0], Value(tokens[i]))
    decreases i
  {
    if i > 0 {
      StridesAt(tokens[1..], i - 1);
      assert tokens[1..][i - 1] == tokens[i];
    }
  }

  /** The number of cells the strides add. */
  function TotalLength(ms: seq<Stride>): nat {
    if |ms| == 0 then 0 else Reach(ms[0].1) + TotalLength(ms[1..])
  }

  /** Where the strides lead from `p`: each moves `Reach(value)` cells along
      its letter's axis. */
  function EndPoint(p: Point, ms: seq<Stride>): Point
    requires ValidStrides(ms)
    decreases |ms|
  {
    if |ms| == 0 then p else EndPoint(Move(p, ms[0].0, Reach(ms[0].1)), ms[1..])
  }

  /** The reference wire: the cells the strides add after `from`, each
      stride's straight segment starting where the strides before it lead. */
  function Cells(from: Point, ms: seq<Stride>): seq<Point>
    requires ValidStrides(ms)
    decreases |ms|
  {
    if |ms| == 0 then []
    else Segment(from, ms[0].0, ms[0].1) + Cells(Move(from, ms[0].0, Reach(ms[0].1)), ms[1..])
  }

  /** A segment ends `Reach(n)` cells from where it starts. */
  lemma SegmentEnd(cells: seq<Point>, d: char, n: int)
    requires |cells| > 0 && IsDirection(d)
    ensures var s := cells + Segment(cells[|cells| - 1], d, n);
      s[|s| - 1] == Move(cells[|cells| - 1], d, Reach(n))
  {
  }

  /** One pass of the loop: a well-formed first token appends its segment
      and the trace goes on with the remaining tokens. */
  lemma TraceStep(cells: seq<Point>, tokens: seq<string>)
    requires |cells| > 0 && |tokens| > 0 && WellFormed(tokens[0])
    ensures Trace(cells, tokens)
      == Trace(cells + Segment(cells[|cells| - 1], tokens[0][0], Value(tokens[0])), tokens[1..])
  {
  }

  /** `Cells` unfolded once: the first stride's segment, then the rest from
      where it ends. */
  lemma CellsFirst(from: Point, ms: seq<Stride>)
    requires ValidStrides(ms) && |ms| > 0
    ensures ValidStrides(ms[1..])
    ensures Cells(from, ms)
      == Segment(from, ms[0].0, ms[0].1) + Cells(Move(from, ms[0].0, Reach(ms[0].1)), ms[1..])
    ensures |Segment(from, ms[0].0, ms[0].1)| == Reach(ms[0].1)
  {
    SegmentShape(from, ms[0].0, ms[0].1);
  }

  /** A prefix of strides, less its first stride, is a prefix of the rest. */
  lemma PrefixStrides(from: Point, ms: seq<Stride>, i: nat)
    requires ValidStrides(ms) && 0 < i <= |ms|
    ensures ValidStrides(ms[1..]) && ValidStrides(ms[..i])
    ensures TotalLength(ms[..i]) == Reach(ms[0].1) + TotalLength(ms[1..][..i - 1])
    ensures EndPoint(from, ms[..i]) == EndPoint(Move(from, ms[0].0, Reach(ms[0].1)), ms[1..][..i - 1])
  {
    assert ms[..i][1..] == ms[1..][..i - 1];
  }

  /** Slicing past a prefix. */
  lemma SliceAfter<T>(a: seq<T>, b: seq<T>, off: nat, n: nat)
    requires off + n <= |b|
    ensures (a + b)[|a| + off..|a| + off + n] == b[off..off + n]
  {
  }

  /** Dropping the first of well-formed tokens drops the first stride. */
  lemma StridesTail(tokens: seq<string>)
    requires AllWellFormed(tokens) && |tokens| > 0
    ensures AllWellFormed(tokens[1..])
    ensures Strides(tokens)[1..] == Strides(tokens[1..])
    ensures Strides(tokens)[0] == (tokens[0][0], Value(tokens[0]))
  {
  }

  /** The loop of `to_wire` appends exactly the reference cells of the
      tokens' strides. */
  lemma {:induction false} TraceIsCells(cells: seq<Point>, tokens: seq<string>)
    requires |cells| > 0 && AllWellFormed(tokens)
    ensures Trace(cells, tokens) == Ok(cells + Cells(cells[|cells| - 1], Strides(tokens)))
    decreases |tokens|
  {
    if |tokens| > 0 {
      StridesTail(tokens);
      var next := cells + Segment(cells[|cells| - 1], tokens[0][0], Value(tokens[0]));
      TraceIsCells(next, tokens[1..]);
      TraceIsCellsStep(cells, tokens, next);
    } else {
      assert cells + [] == cells;
    }
  }

  /** The step of `TraceIsCells`: if the rest of the tokens append their
      reference cells after the first token's segment, all the tokens
      append theirs. */
  lemma TraceIsCellsStep(cells: seq<Point>, tokens: seq<string>, next: seq<Point>)
    requires |cells| > 0 && AllWellFormed(tokens) && |tokens| > 0 && AllWellFormed(tokens[1..])
    requires next == cells + Segment(cells[|cells| - 1], tokens[0][0], Value(tokens[0]))
    requires Trace(next, tokens[1..]) == Ok(next + Cells(next[|next| - 1], Strides(tokens[1..])))
    ensures Trace(cells, tokens) == Ok(cells + Cells(cells[|cells| - 1], Strides(tokens)))
  {
    TraceStep(cells, tokens);
    StridesAfter(cells, tokens, next);
  }

  /** `CellsAfter` in terms of the tokens: the first token's segment, then
      the reference cells of the rest, are the reference cells of all. */
  lemma StridesAfter(cells: seq<Point>, tokens: seq<string>, next: seq<Point>)
    requires |cells| > 0 && AllWellFormed(tokens) && |tokens| > 0 && AllWellFormed(tokens[1..])
    requires next == cells + Segment(cells[|cells| - 1], tokens[0][0], Value(tokens[0]))
    ensures cells + Cells(cells[|cells| - 1], Strides(tokens)) == next + Cells(next[|next| - 1], Strides(tokens[1..]))
  {
    var ms := Strides(tokens);
    StridesTail(tokens);
    assert next == cells + Segment(cells[|cells| - 1], ms[0].0, ms[0].1);
    CellsAfter(cells, ms);
  }

  /** Appending the first stride's segment, then the reference cells of the
      rest from its last cell, is appending the reference cells of all. */
  lemma CellsAfter(cells: seq<Point>, ms: seq<Stride>)
    requires |cells| > 0 && ValidStrides(ms) && |ms| > 0
    ensures var next := cells + Segment(cells[|cells| - 1], ms[0].0, ms[0].1);
      cells + Cells(cells[|cells| - 1], ms) == next + Cells(next[|next| - 1], ms[1..])
  {
    var last, d, v := cells[|cells| - 1], ms[0].0, ms[0].1;
    var next := cells + Segment(last, d, v);
    SegmentEnd(cells, d, v);
    CellsFirst(last, ms);
    assert cells + Cells(last, ms) == next + Cells(Move(last, d, Reach(v)), ms[1..]);
  }

  /** The strides add `TotalLength(ms)` cells, the last of which (or the
      start, when there are none) is where the strides lead. */
  lemma {:induction false} CellsLengthEnd(from: Point, ms: seq<Stride>)
    requires ValidStrides(ms)
    ensures |Cells(from, ms)| == TotalLength(ms)
    ensures ([from] + Cells(from, ms))[TotalLength(ms)] == EndPoint(from, ms)
    decreases |ms|
  {
    if |ms| > 0 {
      var (d, v) := ms[0];
      var next := Move(from, d, Reach(v));
      CellsFirst(from, ms);
      CellsLengthEnd(next, ms[1..]);
      var seg := Segment(from, d, v);
      var rest := Cells(next, ms[1..]);
      assert [from] + Cells(from, ms) == ([from] + seg) + rest;
      if |rest| > 0 {
        assert ([from] + seg + rest)[TotalLength(ms)] == rest[|rest| - 1];
      } else {
        SegmentEnd([from], d, v);
        assert ([from] + seg + rest)[TotalLength(ms)] == ([from] + seg)[|seg|];
      }
    }
  }

  /** Stride `i` adds, right after the cells of the strides before it, the
      straight segment of its letter and value starting where those strides
      lead. */
  lemma {:induction false} CellsSegment(from: Point, ms: seq<Stride>, i: nat)
    requires ValidStrides(ms) && i < |ms|
    ensures var c := Cells(from, ms);
      var off := TotalLength(ms[..i]);
      && off + Reach(ms[i].1) <= |c|
      && c[off..off + Reach(ms[i].1)] == Segment(EndPoint(from, ms[..i]), ms[i].0, ms[i].1)
    decreases i
  {
    if i == 0 {
      CellsFirst(from, ms);
      assert ms[..0] == [];
      assert Cells(from, ms)[0..Reach(ms[0].1)] == Segment(from, ms[0].0, ms[0].1);
    } else {
      var next := Move(from, ms[0].0, Reach(ms[0].1));
      assert ValidStrides(ms[1..]);
      CellsSegment(next, ms[1..], i - 1);
      CellsSegmentStep(from, ms, i);
    }
  }

  /** The step of `CellsSegment`: stride `i` sits in the cells of `ms` as
      stride `i - 1` sits in the cells of the rest, after the first
      stride's segment. */
  lemma CellsSegmentStep(from: Point, ms: seq<Stride>, i: nat)
    requires ValidStrides(ms) && 0 < i < |ms| && ValidStrides(ms[1..])
    requires var next := Move(from, ms[0].0, Reach(ms[0].1));
      var c := Cells(next, ms[1..]);
      var off := TotalLength(ms[1..][..i - 1]);
      && off + Reach(ms[1..][i - 1].1) <= |c|
      && c[off..off + Reach(ms[1..][i - 1].1)]
         == Segment(EndPoint(next, ms[1..][..i - 1]), ms[1..][i - 1].0, ms[1..][i - 1].1)
    ensures var c := Cells(from, ms);
      var off := TotalLength(ms[..i]);
      && off + Reach(ms[i].1) <= |c|
      && c[off..off + Reach(ms[i].1)] == Segment(EndPoint(from, ms[..i]), ms[i].0, ms[i].1)
  {
    var next := Move(from, ms[0].0, Reach(ms[0].1));
    var seg := Segment(from, ms[0].0, ms[0].1);
    CellsFirst(from, ms);
    PrefixStrides(from, ms, i);
    assert ms[1..][i - 1] == ms[i];
    SliceAfter(seg, Cells(next, ms[1..]), TotalLength(ms[1..][..i - 1]), Reach(ms[i].1));
  }

  /** `to_wire` gives the origin followed by the reference cells of the
      line's strides. */
  lemma ToWireIsCells(line: string)
    requires ToWire(line).Ok?
    ensures AllWellFormed(Text.Split(line, ','))
    ensures ToWire(line).value == [Origin] + Cells(Origin, Strides(Text.Split(line, ',')))
  {
    TraceIsCells([Origin], Text.Split(line, ','));
  }

  /** `w` is the wire the strides trace from the origin: it starts there,
      has one cell plus the cells of every stride, ends where the strides
      lead, and holds each stride's segment right after the cells of the
      strides before it. */
  predicate IsWireOf(w: seq<Point>, ms: seq<Stride>)
    requires ValidStrides(ms)
  {
    && |w| == 1 + TotalLength(ms)
    && w[0] == Origin
    && w[|w| - 1] == EndPoint(Origin, ms)
    && forall i :: 0 <= i < |ms| ==>
         var off := 1 + TotalLength(ms[..i]);
         && off + Reach(ms[i].1) <= |w|
         && w[off..off + Reach(ms[i].1)] == Segment(EndPoint(Origin, ms[..i]), ms[i].0, ms[i].1)
  }

  /** The origin followed by the reference cells is the wire of the strides. */
  lemma WireOfStrides(ms: seq<Stride>)
    requires ValidStrides(ms)
    ensures IsWireOf([Origin] + Cells(Origin, ms), ms)
  {
    CellsLengthEnd(Origin, ms);
    var c := Cells(Origin, ms);
    forall i | 0 <= i < |ms|
      ensures var off := 1 + TotalLength(ms[..i]);
        && off + Reach(ms[i].1) <= |[Origin] + c|
        && ([Origin] + c)[off..off + Reach(ms[i].1)] == Segment(EndPoint(Origin, ms[..i]), ms[i].0, ms[i].1)
    {
      CellsSegment(Origin, ms, i);
      SliceAfter([Origin], c, TotalLength(ms[..i]), Reach(ms[i].1));
    }
  }

  /** A line that traces gives the wire of its tokens' strides: token `i`
      with letter `d` and value `n` contributes its segment of `max(n, 0)`
      cells right after the cells of the tokens before it. */
  lemma ToWireSpec(line: string)
    requires ToWire(line).Ok?
    ensures AllWellFormed(Text.Split(line, ','))
    ensures IsWireOf(ToWire(line).value, Strides(Text.Split(line, ',')))
  {
    var tokens := Text.Split(line, ',');
    ToWireIsCells(line);
    WireOfStrides(Strides(tokens));
  }

  /** The first bad token decides the error: an empty one, then one whose
      value does not parse, then one with an unknown letter. */
  lemma TraceFirstError(cells: seq<Point>, tokens: seq<string>)
    requires |cells| > 0 && |tokens| > 0
    ensures |tokens[0]| == 0 ==> Trace(cells, tokens) == Err(MalformedDirection)
    ensures |tokens[0]| > 0 && Text.ParseInt(tokens[0][1..], Text.I32).None? ==> Trace(cells, tokens) == Err(BadValue)
    ensures |tokens[0]| > 0 && Text.ParseInt(tokens[0][1..], Text.I32).Some? && !IsDirection(tokens[0][0]) ==>
      Trace(cells, tokens) == Err(WrongDirection)
  {
  }

  // ===========================================================================
  // Distance

  /** `dist`: the Manhattan distance. */
  function Dist(a: Point, b: Point): nat {
    RustInt.Abs(b.x - a.x) + RustInt.Abs(b.y - a.y)
  }

  /** The Manhattan distance is a metric: symmetric, zero exactly on equal
      points, and obeying the triangle inequality. */
  lemma DistIsMetric(a: Point, b: Point, c: Point)
    ensures Dist(a, b) == Dist(b, a)
    ensures Dist(a, b) == 0 <==> a == b
    ensures Dist(a, c) <= Dist(a, b) + Dist(b, c)
  {
  }

  /** Adjacent cells are at distance one. */
  lemma AdjacentAtDistanceOne(a: Point, b: Point)
    ensures Adjacent(a, b) <==> Dist(a, b) == 1
  {
  }

  // ===========================================================================
  // Crossings

  /** A cell other than the origin on both of two wires. */
  predicate IsCrossing(wires: seq<seq<Point>>, c: Point) {
    |wires| == 2 && c != Origin && c in wires[0] && c in wires[1]
  }

  /** Every entry of the table is a pair of flags, and flag `j` of cell `c`
      is set exactly when `c` lies on an earlier wire `j < i` or, for the
      wire `i` being walked, among the cells `seen` of it so far. */
  ghost predicate Marks(m: map<Point, seq<bool>>, wires: seq<seq<Point>>, i: nat, seen: seq<Point>)
    requires i <= |wires|
  {
    forall c :: c in m ==>
      && |m[c]| == 2
      && forall j :: 0 <= j < 2 ==> (m[c][j] <==> (j < i && c in wires[j]) || (j == i && c in seen))
  }

  /** Setting flag `i` of one more cell of wire `i` keeps `Marks`; a cell
      absent from the table lies on no earlier wire, so it starts unflagged. */
  lemma MarkCell(m: map<Point, seq<bool>>, wires: seq<seq<Point>>, i: nat, seen: seq<Point>, cell: Point)
    requires i < |wires| && i < 2 && Marks(m, wires, i, seen)
    requires cell !in m ==> forall j :: 0 <= j < i ==> cell !in wires[j]
    ensures Marks(m[cell := (if cell in m then m[cell] else [false, false])[i := true]], wires, i, seen + [cell])
  {
    var entry := if cell in m then m[cell] else [false, false];
    var next := m[cell := entry[i := true]];
    forall c | c in next
      ensures && |next[c]| == 2
              && forall j :: 0 <= j < 2 ==> (next[c][j] <==> (j < i && c in wires[j]) || (j == i && c in seen + [cell]))
    {
      if c == cell {
        forall j | 0 <= j < 2
          ensures next[c][j] <==> (j < i && c in wires[j]) || (j == i && c in seen + [cell])
        {
          if j != i && cell !in m {
            assert !(j < i && cell in wires[j]);
          }
        }
      } else {
        assert next[c] == m[c];
        assert forall j :: 0 <= j < 2 ==> (m[c][j] <==> (j < i && c in wires[j]) || (j == i && c in seen));
      }
    }
  }

  /** The table `closest_intersection` and `intersections` build: every cell
      of every wire maps to the wires it lies on. The source indexes a
      two-element presence array by the wire number, so it panics on a
      third wire; here at most two wires are accepted. */
  method Overlaps(wires: seq<seq<Point>>) returns (m: map<Point, seq<bool>>)
    requires |wires| <= 2
    ensures forall c :: c in m <==> exists i :: 0 <= i < |wires| && c in wires[i]
    ensures forall c :: c in m ==> |m[c]| == 2
    ensures forall c, i :: c in m && 0 <= i < 2 ==> (m[c][i] <==> i < |wires| && c in wires[i])
  {
    m := map[];
    for i := 0 to |wires|
      invariant forall c :: c in m <==> exists j :: 0 <= j < i && c in wires[j]
      invariant Marks(m, wires, i, [])
    {
      for k := 0 to |wires[i]|
        invariant forall c :: c in m <==> (exists j :: 0 <= j < i && c in wires[j]) || c in wires[i][..k]
        invariant Marks(m, wires, i, wires[i][..k])
      {
        var cell := wires[i][k];
        assert wires[i][..k + 1] == wires[i][..k] + [cell];
        MarkCell(m, wires, i, wires[i][..k], cell);
        m := m[cell := (if cell in m then m[cell] else [false, false])[i := true]];
      }
      assert wires[i][..|wires[i]|] == wires[i];
    }
  }

  /** `intersections`: the cells other than the origin that both wires pass
      through (the source returns them in hash-map order; here as a set). */
  method Intersections(wires: seq<seq<Point>>) returns (xs: set<Point>)
    requires |wires| <= 2
    ensures forall c :: c in xs <==> IsCrossing(wires, c)
  {
    var m := Overlaps(wires);
    xs := set c | c in m && c != Origin && m[c][0] && m[c][1];
    forall c
      ensures c in xs <==> IsCrossing(wires, c)
    {
      if IsCrossing(wires, c) {
        assert 0 < |wires| && c in wires[0];
        assert c in m && m[c][0] && m[c][1];
      }
      if c in xs {
        assert c in m && m[c][0] && m[c][1];
        assert m[c][0] <==> 0 < |wires| && c in wires[0];
        assert m[c][1] <==> 1 < |wires| && c in wires[1];
      }
    }
  }

  /** `closest_intersection`: a crossing nearest to the origin, or `None`
      when the wires do not cross. Among crossings at the same distance the
      source's choice follows hash-map order; here it is left open. */
  method ClosestIntersection(wires: seq<seq<Point>>) returns (r: Option<Point>)
    requires |wires| <= 2
    ensures r.None? <==> forall c :: !IsCrossing(wires, c)
    ensures r.Some? ==> IsCrossing(wires, r.value)
    ensures r.Some? ==> forall c :: IsCrossing(wires, c) ==> Dist(r.value, Origin) <= Dist(c, Origin)
  {
    var xs := Intersections(wires);
    if xs == {} {
      return None;
    }
    var best :| best in xs;
    var rest := xs - {best};
    while rest != {}
      invariant rest <= xs && best in xs
      invariant forall c :: c in xs && c !in rest ==> Dist(best, Origin) <= Dist(c, Origin)
      decreases |rest|
    {
      var c :| c in rest;
      if Dist(c, Origin) < Dist(best, Origin) {
        best := c;
      }
      rest := rest - {c};
    }
    return Some(best);
  }

  // ===========================================================================
  // Steps

  /** `steps`: the number of cells before the first occurrence of `p`, or
      the length of the wire when `p` is not on it. */
  function Steps(w: seq<Point>, p: Point): (n: nat)
    ensures n <= |w|
    ensures n < |w| <==> p in w
    ensures n < |w| ==> w[n] == p
    ensures forall k :: 0 <= k < n ==> w[k] != p
  {
    if |w| == 0 || w[0] == p then 0 else 1 + Steps(w[1..], p)
  }

  /** The steps every wire takes to reach `p`, summed over the wires. */
  function TotalSteps(wires: seq<seq<Point>>, p: Point): nat {
    if |wires| == 0 then 0 else TotalSteps(wires[..|wires| - 1], p) + Steps(wires[|wires| - 1], p)
  }

  /** `best_steps`: the least combined step count over the crossings, capped
      at `usize::MAX`, which is also the answer when the wires do not cross. */
  method BestSteps(wires: seq<seq<Point>>) returns (best: nat)
    requires |wires| <= 2
    ensures best <= USIZE_MAX
    ensures forall c :: IsCrossing(wires, c) ==> best <= TotalSteps(wires, c)
    ensures best == USIZE_MAX || exists c :: IsCrossing(wires, c) && best == TotalSteps(wires, c)
  {
    var xs := Intersections(wires);
    best := USIZE_MAX;
    var rest := xs;
    while rest != {}
      invariant rest <= xs && best <= USIZE_MAX
      invariant forall c :: c in xs && c !in rest ==> best <= TotalSteps(wires, c)
      invariant best == USIZE_MAX || exists c :: c in xs && best == TotalSteps(wires, c)
      decreases |rest|
    {
      var c :| c in rest;
      var total := TotalSteps(wires, c);
      if total < best {
        best := total;
      }
      rest := rest - {c};
    }
  }

  /** Where a wire is first at a cell: the steps to a cell of the wire are
      at least its distance from the start. */
  lemma {:induction false} StepsAtLeastDistance(w: seq<Point>, p: Point)
    requires |w| > 0 && Connected(w) && p in w
    ensures Steps(w, p) >= Dist(w[0], p)
    decreases |w|
  {
    if w[0] != p {
      StepsAtLeastDistance(w[1..], p);
      AdjacentAtDistanceOne(w[0], w[1]);
      DistIsMetric(w[0], w[1], p);
    }
  }

  // ===========================================================================
  // Examples

  /** The comma-separated pieces of a literal path. */
  lemma SplitLiteral(parts: seq<string>, line: string)
    requires |parts| >= 1 && forall i :: 0 <= i < |parts| ==> ',' !in parts[i]
    requires Text.Join(parts, ',') == line
    ensures Text.Split(line, ',') == parts
  {
    Text.SplitJoin(parts, ',');
  }

  /** `R2,U1` visits the origin, two cells to the right, and one up. */
  lemma ExampleWire()
    ensures ToWire("R2,U1") == Ok([Origin, Point(1, 0), Point(2, 0), Point(2, 1)])
  {
    SplitLiteral(["R2", "U1"], "R2,U1");
    assert Text.ParseInt("2", Text.I32) == Some(2);
    assert Text.ParseInt("1", Text.I32) == Some(1);
    var c1 := [Origin] + Segment(Origin, 'R', 2);
    assert c1 == [Origin, Point(1, 0), Point(2, 0)];
    var c2 := c1 + Segment(Point(2, 0), 'U', 1);
    assert c2 == [Origin, Point(1, 0), Point(2, 0), Point(2, 1)];
    assert Trace(c1, ["U1"]) == Trace(c2, []);
    assert Trace([Origin], ["R2", "U1"]) == Trace(c1, ["U1"]);
  }

  /** A token with a letter outside L, R, U and D fails. */
  lemma ExampleWrongDirection()
    ensures ToWire("X3") == Err(WrongDirection)
  {
    SplitLiteral(["X3"], "X3");
    assert Text.ParseInt("3", Text.I32) == Some(3);
  }

  /** An empty path element fails, after the well-formed ones before it. */
  lemma ExampleEmptyToken()
    ensures ToWire("R1,,U2") == Err(MalformedDirection)
  {
    SplitLiteral(["R1", "", "U2"], "R1,,U2");
    assert Text.ParseInt("1", Text.I32) == Some(1);
  }
}
