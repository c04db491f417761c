/** Values shared by both spreadsheet stages: cells, Python floats, exceptions, writes. */
module Sheet {

  datatype Option<+T> = None | Some(value: T)

  /** A Python float as the stages see it: NaN, or a finite value (IEEE rounding is not modelled). */
  datatype Float = NaN | Num(r: real)

  /** The result of a step that may raise an exception which the caller catches. */
  datatype Outcome<+T> = Ok(value: T) | Raises

  /** A sheet cell: None when blank (pandas NaN or Python None), otherwise the cell's text. */
  type Cell = Option<string>

  /** One data row of a sheet, addressed by zero-based column position. */
  type Row = seq<Cell>

  /** One value written back into the workbook, at a 1-based Excel row and column. */
  datatype CellWrite = CellWrite(row: nat, col: nat, value: Float)

  /** Python NaN propagation for `+`. */
  function Add(a: Float, b: Float): Float
  {
    if a.Num? && b.Num? then Num(a.r + b.r) else NaN
  }

  /**
   * The entries of `xs` that are present, in order: what a loop that appends every value
   * that is not None builds.
   */
  function Present<T>(xs: seq<Option<T>>): (ys: seq<T>)
    ensures |ys| <= |xs|
  {
    if xs == [] then []
    else
      var init := Present(xs[..|xs| - 1]);
      match xs[|xs| - 1]
      case None => init
      case Some(x) => init + [x]
  }

  /** Every kept value is present at some position of `xs`. */
  lemma {:induction false} PresentSound<T>(xs: seq<Option<T>>, y: T)
    requires y in Present(xs)
    ensures exists j :: 0 <= j < |xs| && xs[j] == Some(y)
  {
    var last := |xs| - 1;
    var init := xs[..last];
    if y in Present(init) {
      PresentSound(init, y);
      var j :| 0 <= j < |init| && init[j] == Some(y);
      assert xs[j] == Some(y);
    }
  }

  /** Every present entry of `xs` is kept. */
  lemma {:induction false} PresentComplete<T>(xs: seq<Option<T>>, j: nat)
    requires j < |xs| && xs[j].Some?
    ensures xs[j].value in Present(xs)
  {
    var last := |xs| - 1;
    if j < last {
      assert xs[..last][j] == xs[j];
      PresentComplete(xs[..last], j);
    }
  }

  /** A value is kept exactly when it is present in `xs`. */
  lemma PresentIff<T>(xs: seq<Option<T>>, y: T)
    ensures y in Present(xs) <==> Some(y) in xs
  {
    if y in Present(xs) {
      PresentSound(xs, y);
    }
    if Some(y) in xs {
      var j :| 0 <= j < |xs| && xs[j] == Some(y);
      PresentComplete(xs, j);
    }
  }

  /** Nothing present, nothing kept. */
  lemma {:induction false} PresentNone<T>(xs: seq<Option<T>>)
    requires forall j :: 0 <= j < |xs| ==> xs[j].None?
    ensures Present(xs) == []
  {
    if xs != [] {
      PresentNone(xs[..|xs| - 1]);
    }
  }

  /** Filtering keeps order: the values kept from `a + b` are those of `a`, then those of `b`. */
  lemma {:induction false} PresentConcat<T>(a: seq<Option<T>>, b: seq<Option<T>>)
    ensures Present(a + b) == Present(a) + Present(b)
  {
    if b != [] {
      var init := b[..|b| - 1];
      assert (a + b)[..|a + b| - 1] == a + init;
      PresentConcat(a, init);
    } else {
      assert a + b == a;
    }
  }

  /** When every entry is present, all are kept, position by position. */
  lemma {:induction false} PresentAll<T>(xs: seq<Option<T>>)
    requires forall j :: 0 <= j < |xs| ==> xs[j].Some?
    ensures |Present(xs)| == |xs|
    ensures forall j :: 0 <= j < |xs| ==> Present(xs)[j] == xs[j].value
  {
    if xs != [] {
      PresentAll(xs[..|xs| - 1]);
    }
  }
}
