/** The index inxbuild builds over a network sorted on channel 1: for each
    channel-1 value a row to start the nearest-colour search at. The
    predicates and lemmas here state, over sequences, what holds after each
    row of the build and what holds when it is done. */
module NetIndex {
  import opened Constants
  import opened Neurons

  /** Every entry of the index is a row of an n-row network. */
  predicate EntriesAreRows(idx: seq<int>, n: int)
  {
    forall v | 0 <= v < |idx| :: 0 <= idx[v] < n
  }

  /** For every row, the index entry for its channel 1 names a row with that
      same channel 1. */
  predicate PointsAtValue(ns: seq<Neuron>, idx: seq<int>)
  {
    forall k | 0 <= k < |ns| ::
      0 <= ns[k].g < |idx| && 0 <= idx[ns[k].g] < |ns| && ns[idx[ns[k].g]].g == ns[k].g
  }

  /** The first i rows are in final order: each is at most every later row on channel 1. */
  predicate SortedPrefix(ns: seq<Neuron>, i: int)
  {
    forall p, q | 0 <= p < q < |ns| && p < i :: ns[p].g <= ns[q].g
  }

  /** A row i at most every later row on channel 1 extends the sorted prefix. */
  lemma SelectedExtendsPrefix(ns: seq<Neuron>, i: int)
    requires 0 <= i < |ns| && SortedPrefix(ns, i)
    requires forall q | i <= q < |ns| :: ns[i].g <= ns[q].g
    ensures SortedPrefix(ns, i + 1)
  {
  }

  /** Swapping the smallest later row j into row i extends the sorted prefix. */
  lemma SwapSelected(ns: seq<Neuron>, i: int, j: int)
    requires 0 <= i <= j < |ns| && SortedPrefix(ns, i)
    requires forall q | i <= q < |ns| :: ns[j].g <= ns[q].g
    ensures SortedPrefix(ns[i := ns[j]][j := ns[i]], i + 1)
  {
    var t := ns[i := ns[j]][j := ns[i]];
    forall p, q | 0 <= p < q < |t| && p < i
      ensures t[p].g <= t[q].g
    {
      assert t[p] == ns[p];
      if q == j {
        assert t[q] == ns[i];
      } else if q == i {
        assert t[q] == ns[j];
      } else {
        assert t[q] == ns[q];
      }
    }
    forall q | i <= q < |t|
      ensures t[i].g <= t[q].g
    {
      if q == j {
        assert t[q] == ns[i];
      } else if q != i {
        assert t[q] == ns[q];
      }
    }
    SelectedExtendsPrefix(t, i);
  }

  /** The index is built for the first i rows: the run of rows with the
      latest channel-1 value col starts at start, col's entry is the middle
      of that run as if it reached the last row, every entry is a row, and
      every smaller value present points at a row, among the first i, with
      that value. */
  predicate IndexedRows(ns: seq<Neuron>, idx: seq<int>, i: int, col: int, start: int)
  {
    |ns| == NetSize && |idx| == 256 && ChannelsWithin(ns, 255) &&
    0 <= i <= NetSize && 0 <= start <= i && 0 <= col < 256 &&
    (i == 0 ==> col == 0 && start == 0) &&
    (i > 0 ==> start < i && ns[i - 1].g == col && idx[col] == (start + MaxNetPos) / 2 &&
               EntriesAreRows(idx, NetSize)) &&
    (forall q | start <= q < i :: ns[q].g == col) &&
    (forall k | 0 <= k < i && ns[k].g < col :: idx[ns[k].g] < i && ns[idx[ns[k].g]].g == ns[k].g)
  }

  /** Entry v after the index step for row i, whose channel 1 is smallval,
      when the current run has value col and starts at start. A new value
      closes the run at its middle row (`(startpos + i) >> 1`), points the
      skipped values at row i and starts a run at row i; then the current
      run's entry is set as if the run reached the last row, and every entry
      above it to the last row. */
  function StepEntry(idx: seq<int>, v: int, i: int, smallval: int, col: int, start: int): (e: int)
    requires 0 <= v < |idx|
  {
    if smallval != col then
      if v == smallval then (i + MaxNetPos) / 2
      else if v > smallval then MaxNetPos
      else if v == col then (start + i) / 2
      else if v > col then i
      else idx[v]
    else
      if v == col then (start + MaxNetPos) / 2
      else if v > col then MaxNetPos
      else idx[v]
  }

  /** Row i brings a new channel-1 value: the index stays built, one row
      further, with a run starting at row i. */
  lemma IndexStepNew(ns: seq<Neuron>, idx: seq<int>, idx': seq<int>, i: int, col: int, start: int)
    requires IndexedRows(ns, idx, i, col, start) && SortedPrefix(ns, i + 1)
    requires 0 <= i < NetSize && ns[i].g != col
    requires |idx'| == |idx| && forall v | 0 <= v < |idx| :: idx'[v] == StepEntry(idx, v, i, ns[i].g, col, start)
    ensures IndexedRows(ns, idx', i + 1, ns[i].g, i)
  {
    forall k | 0 <= k < i + 1 && ns[k].g < ns[i].g
      ensures idx'[ns[k].g] < i + 1 && ns[idx'[ns[k].g]].g == ns[k].g
    {
      if ns[k].g == col {
        assert start <= idx'[col] < i;
      }
    }
  }

  /** Row i extends the current run: the index stays built, one row further. */
  lemma IndexStepSame(ns: seq<Neuron>, idx: seq<int>, idx': seq<int>, i: int, col: int, start: int)
    requires IndexedRows(ns, idx, i, col, start) && SortedPrefix(ns, i + 1)
    requires 0 <= i < NetSize && ns[i].g == col
    requires |idx'| == |idx| && forall v | 0 <= v < |idx| :: idx'[v] == StepEntry(idx, v, i, ns[i].g, col, start)
    ensures IndexedRows(ns, idx', i + 1, col, start)
  {
  }

  /** Rows after the first i do not matter to the index built so far. */
  lemma IndexedRowsFrame(ns: seq<Neuron>, ns': seq<Neuron>, idx: seq<int>, i: int, col: int, start: int)
    requires IndexedRows(ns, idx, i, col, start)
    requires |ns'| == |ns| && ChannelsWithin(ns', 255) && forall k | 0 <= k < i :: ns'[k] == ns[k]
    ensures IndexedRows(ns', idx, i, col, start)
  {
  }

  /** Once every row is placed and sorted, every entry is a row and every
      row's value points at a row with that value. */
  lemma IndexComplete(ns: seq<Neuron>, idx: seq<int>, col: int, start: int)
    requires IndexedRows(ns, idx, NetSize, col, start) && SortedPrefix(ns, NetSize)
    ensures EntriesAreRows(idx, NetSize) && PointsAtValue(ns, idx)
  {
    forall k | 0 <= k < |ns|
      ensures 0 <= ns[k].g < |idx| && 0 <= idx[ns[k].g] < |ns| && ns[idx[ns[k].g]].g == ns[k].g
    {
      if ns[k].g == col {
        assert start <= idx[col] < NetSize;
      }
    }
  }

  /** Row n matches value v: its channel 1 equals v, or with `above`, exceeds v. */
  predicate Hit(n: Neuron, v: int, above: bool)
  {
    if above then n.g > v else n.g == v
  }

  /** The first of the first n rows that matches v, or -1 when none does. */
  function FirstHit(ns: seq<Neuron>, v: int, n: int, above: bool): (k: int)
    requires 0 <= n <= |ns|
    ensures -1 <= k < n
  {
    if n == 0 then -1
    else
      var k := FirstHit(ns, v, n - 1, above);
      if k != -1 then k else if Hit(ns[n - 1], v, above) then n - 1 else -1
  }

  /** FirstHit is -1 exactly when no row matches, and otherwise a matching
      row before which no row matches. */
  lemma {:induction false} FirstHitSpec(ns: seq<Neuron>, v: int, n: int, above: bool)
    requires 0 <= n <= |ns|
    ensures FirstHit(ns, v, n, above) == -1 <==> forall k | 0 <= k < n :: !Hit(ns[k], v, above)
    ensures FirstHit(ns, v, n, above) != -1 ==>
      Hit(ns[FirstHit(ns, v, n, above)], v, above) &&
      forall k | 0 <= k < FirstHit(ns, v, n, above) :: !Hit(ns[k], v, above)
  {
    if n > 0 {
      FirstHitSpec(ns, v, n - 1, above);
    }
  }

  /** FirstHit over the first n rows looks at no other row. */
  lemma {:induction false} FirstHitFrame(ns: seq<Neuron>, ns': seq<Neuron>, v: int, n: int, above: bool)
    requires 0 <= n <= |ns| && n <= |ns'| && forall k | 0 <= k < n :: ns'[k] == ns[k]
    ensures FirstHit(ns', v, n, above) == FirstHit(ns, v, n, above)
  {
    if n > 0 {
      FirstHitFrame(ns, ns', v, n - 1, above);
    }
  }

  /** The entry for value v once the first n rows are sorted and indexed:
      with a the first row whose channel 1 exceeds v (the last row when
      there is none), the middle of the run of v's rows, (first + a) / 2,
      when v occurs, and a itself when it does not. */
  function IndexEntry(ns: seq<Neuron>, v: int, n: int): (e: int)
    requires 0 <= n <= |ns|
  {
    var a := FirstHit(ns, v, n, true);
    var above := if a == -1 then MaxNetPos else a;
    var first := FirstHit(ns, v, n, false);
    if first != -1 then (first + above) / 2 else above
  }

  /** Every entry of the index is IndexEntry over the whole network. */
  predicate IndexIsMidpoints(ns: seq<Neuron>, idx: seq<int>)
  {
    forall v | 0 <= v < |idx| :: idx[v] == IndexEntry(ns, v, |ns|)
  }

  /** After the first i rows: the current run starts at the first row
      with value col, every entry below col is its IndexEntry over those
      rows, and every entry above col is the last row. */
  predicate EntriesSoFar(ns: seq<Neuron>, idx: seq<int>, i: int, col: int, start: int)
  {
    |ns| == NetSize && |idx| == 256 && 0 <= i <= NetSize && 0 <= col < 256 &&
    (i > 0 ==>
      start == FirstHit(ns, col, i, false) &&
      (forall v | 0 <= v < col :: idx[v] == IndexEntry(ns, v, i)) &&
      (forall v | col < v < 256 :: idx[v] == MaxNetPos))
  }

  /** Rows before i hold at most col, the value of row i - 1, and row i at least col. */
  lemma PrefixBelowCol(ns: seq<Neuron>, i: int, col: int)
    requires 0 < i < |ns| && SortedPrefix(ns, i + 1) && ns[i - 1].g == col
    ensures forall k | 0 <= k < i :: ns[k].g <= col
    ensures ns[i].g >= col
  {
    forall k | 0 <= k < i
      ensures ns[k].g <= col
    {
      if k < i - 1 {
        assert ns[k].g <= ns[i - 1].g;
      }
    }
  }

  /** For a value below the current run, row i changes nothing: the first
      row above it and its own first row both lie among the first i. */
  lemma EntryBelowStays(ns: seq<Neuron>, v: int, i: int, col: int)
    requires 0 < i < |ns| && ns[i - 1].g == col && v < col && ns[i].g >= col
    ensures IndexEntry(ns, v, i + 1) == IndexEntry(ns, v, i)
  {
    FirstHitSpec(ns, v, i, true);
  }

  /** Row i opens a run of a new value smallval above every earlier row:
      its value's first row is i, the values strictly between col and
      smallval have entry i, and col's entry closes at row i. */
  lemma NewRunEntries(ns: seq<Neuron>, i: int, n: int, col: int, smallval: int)
    requires 0 <= i < |ns| && n == i + 1 && ns[i].g == smallval && col < smallval
    requires forall k | 0 <= k < i :: ns[k].g <= col
    ensures FirstHit(ns, smallval, i + 1, false) == i
    ensures forall v | col < v < smallval :: IndexEntry(ns, v, n) == i
    ensures IndexEntry(ns, col, i + 1) ==
      if FirstHit(ns, col, i, false) != -1 then (FirstHit(ns, col, i, false) + i) / 2 else i
  {
    FirstHitSpec(ns, smallval, i, false);
    FirstHitSpec(ns, col, i, true);
    forall v | col < v < smallval
      ensures IndexEntry(ns, v, n) == i
    {
      FirstHitSpec(ns, v, i, true);
      FirstHitSpec(ns, v, i, false);
    }
  }

  /** Row i brings a new value: the entries stay in closed form, one row further. */
  lemma EntriesStepNew(ns: seq<Neuron>, idx: seq<int>, idx': seq<int>, i: int, col: int, start: int)
    requires IndexedRows(ns, idx, i, col, start) && EntriesSoFar(ns, idx, i, col, start)
    requires SortedPrefix(ns, i + 1) && 0 <= i < NetSize && ns[i].g != col
    requires |idx'| == |idx| && forall v | 0 <= v < |idx| :: idx'[v] == StepEntry(idx, v, i, ns[i].g, col, start)
    ensures EntriesSoFar(ns, idx', i + 1, ns[i].g, i)
  {
    var smallval := ns[i].g;
    assert InBox(ns[i], 255);
    if i > 0 {
      PrefixBelowCol(ns, i, col);
      forall v | 0 <= v < col
        ensures idx'[v] == IndexEntry(ns, v, i + 1)
      {
        EntryBelowStays(ns, v, i, col);
      }
    }
    NewRunEntries(ns, i, i + 1, col, smallval);
  }

  /** Row i extends the current run: the entries stay in closed form, one row further. */
  lemma EntriesStepSame(ns: seq<Neuron>, idx: seq<int>, idx': seq<int>, i: int, col: int, start: int)
    requires IndexedRows(ns, idx, i, col, start) && EntriesSoFar(ns, idx, i, col, start)
    requires SortedPrefix(ns, i + 1) && 0 <= i < NetSize && ns[i].g == col
    requires |idx'| == |idx| && forall v | 0 <= v < |idx| :: idx'[v] == StepEntry(idx, v, i, ns[i].g, col, start)
    ensures EntriesSoFar(ns, idx', i + 1, col, start)
  {
    if i > 0 {
      forall v | 0 <= v < col
        ensures idx'[v] == IndexEntry(ns, v, i + 1)
      {
        EntryBelowStays(ns, v, i, col);
      }
    }
  }

  /** The entries' closed form survives a change of rows from i on. */
  lemma EntriesFrame(ns: seq<Neuron>, ns': seq<Neuron>, idx: seq<int>, i: int, col: int, start: int)
    requires EntriesSoFar(ns, idx, i, col, start)
    requires |ns'| == |ns| && forall k | 0 <= k < i :: ns'[k] == ns[k]
    ensures EntriesSoFar(ns', idx, i, col, start)
  {
    if i > 0 {
      FirstHitFrame(ns, ns', col, i, false);
      forall v | 0 <= v < col
        ensures IndexEntry(ns', v, i) == IndexEntry(ns, v, i)
      {
        FirstHitFrame(ns, ns', v, i, true);
        FirstHitFrame(ns, ns', v, i, false);
      }
    }
  }

  /** When every row is placed, every entry is its IndexEntry over the whole network. */
  lemma EntriesComplete(ns: seq<Neuron>, idx: seq<int>, col: int, start: int)
    requires IndexedRows(ns, idx, NetSize, col, start) && EntriesSoFar(ns, idx, NetSize, col, start)
    requires SortedPrefix(ns, NetSize)
    ensures IndexIsMidpoints(ns, idx)
  {
    forall k | 0 <= k < NetSize
      ensures ns[k].g <= col
    {
      if k < NetSize - 1 {
        assert ns[k].g <= ns[NetSize - 1].g;
      }
    }
    forall v | col <= v < 256
      ensures idx[v] == IndexEntry(ns, v, NetSize)
    {
      FirstHitSpec(ns, v, NetSize, true);
      if v != col {
        FirstHitSpec(ns, v, NetSize, false);
      }
    }
  }
}
