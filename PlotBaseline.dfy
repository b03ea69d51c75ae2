/** The baseline recurrence plot: the full `n x n` matrix, cell by cell.
    Whether vectors `x` and `y` recur is the parameter `recurrent`. */
module PlotBaseline {
  import opened RecurrenceAnalysis

  /** A symmetric recurrence relation gives a plot equal to its transpose. */
  lemma SymmetricPlot(recurrent: (int, int) -> bool, n: nat)
    requires forall x, y :: recurrent(x, y) == recurrent(y, x)
    ensures forall y, x | 0 <= y < n && 0 <= x < n :: PlotCell(recurrent, x, y) == PlotCell(recurrent, y, x)
  {
    forall y, x | 0 <= y < n && 0 <= x < n ensures PlotCell(recurrent, x, y) == PlotCell(recurrent, y, x) {
      assert recurrent(x, y) == recurrent(y, x);
    }
  }

  class Baseline {
    const plot: RecurrencePlot
    /** Whether the vectors `x` and `y` recur. */
    const recurrent: (int, int) -> bool

    constructor (n: nat, recurrent: (int, int) -> bool)
      ensures plot.n == n && plot.Cleared() && this.recurrent == recurrent
      ensures fresh(plot) && fresh(plot.recurrenceMatrix)
    {
      plot := new RecurrencePlot(n);
      this.recurrent := recurrent;
    }

    /** Sets every recurrent cell to 1, in row `y` and column `x`; every other
        cell keeps its value. */
    method CreateMatrix()
      requires plot.recurrenceMatrix.Length0 == plot.n && plot.recurrenceMatrix.Length1 == plot.n
      modifies plot.recurrenceMatrix
      ensures forall y, x | 0 <= y < plot.n && 0 <= x < plot.n ::
        plot.recurrenceMatrix[y, x] == if recurrent(x, y) then 1 else old(plot.recurrenceMatrix[y, x])
    {
      var m, n := plot.recurrenceMatrix, plot.n;
      for x := 0 to n
        invariant forall y', x' | 0 <= y' < n && 0 <= x' < n ::
          m[y', x'] == if x' < x && recurrent(x', y') then 1 else old(m[y', x'])
      {
        for y := 0 to n
          invariant forall y', x' | 0 <= y' < n && 0 <= x' < n ::
            m[y', x'] == if (x' < x || (x' == x && y' < y)) && recurrent(x', y') then 1 else old(m[y', x'])
        {
          if recurrent(x, y) {
            m[y, x] := 1;
          }
        }
      }
    }

    /** Clears the plot and fills it: afterwards the plot holds exactly the
        recurrence plot, 1 for a recurrent cell and 0 for any other. */
    method Run()
      modifies plot
      ensures plot.recurrenceMatrix.Length0 == plot.n && plot.recurrenceMatrix.Length1 == plot.n
      ensures forall y, x | 0 <= y < plot.n && 0 <= x < plot.n ::
        plot.recurrenceMatrix[y, x] == PlotCell(recurrent, x, y)
      ensures (forall a, b :: recurrent(a, b) == recurrent(b, a)) ==>
        forall y, x | 0 <= y < plot.n && 0 <= x < plot.n :: plot.recurrenceMatrix[y, x] == plot.recurrenceMatrix[x, y]
    {
      plot.Reset();
      CreateMatrix();
      if forall a, b :: recurrent(a, b) == recurrent(b, a) {
        SymmetricPlot(recurrent, plot.n);
      }
    }
  }
}
