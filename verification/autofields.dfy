/**
 * Automatic field discovery of a form (AbstractForm.auto_fields_list and
 * auto_fields_dict in navigation/base/form.py): the screen is read as a matrix
 * of booleans, true where a cell is drawn in reverse video, and every maximal
 * run of reverse cells on a row becomes a field descriptor whose label is the
 * text between the previous field on that row and this one.
 */
module AutoFields {
  import opened Wrappers
  import opened PyText
  import opened Form

  /** A field being scanned: its first column and the label read when it was opened. */
  datatype Opening = Opening(start: nat, caption: string)

  /** How many times the scan appends a field that reaches the last column: twice as written. */
  const AsWritten: nat := 2

  /** Once, as the scan's own comments intend. */
  const Intended: nat := 1

  /**
   * Where the label of a field starting at column `s` begins: the column just
   * after the last field that ended before `s` on the same row, or 0.
   */
  function Gap(cells: seq<bool>, s: nat): (g: nat)
    requires s <= |cells|
    ensures g <= s
  {
    if s <= 1 then 0
    else if cells[s - 2] && !cells[s - 1] then s - 1
    else Gap(cells, s - 1)
  }

  /** The label start is 0 or the end of a field, and no field ends between it and `s`. */
  lemma {:induction false} GapIsLastEnd(cells: seq<bool>, s: nat)
    requires s <= |cells|
    ensures var g := Gap(cells, s);
      && (g == 0 || (g < s && cells[g - 1] && !cells[g]))
      && forall j :: g < j < s && 1 <= j ==> !(cells[j - 1] && !cells[j])
    decreases s
  {
    if s > 1 && !(cells[s - 2] && !cells[s - 1]) {
      GapIsLastEnd(cells, s - 1);
    }
  }

  /** The first column at or after `j` that is not part of a field, or the width of the row. */
  function RunEnd(cells: seq<bool>, j: nat): (e: nat)
    requires j <= |cells|
    ensures j <= e <= |cells|
    ensures e == |cells| || !cells[e]
    decreases |cells| - j
  {
    if j == |cells| || !cells[j] then j else RunEnd(cells, j + 1)
  }

  /** A run of field cells from `j` up to `e` that a plain cell or the row's edge ends, ends at `e`. */
  lemma {:induction false} RunEndAt(cells: seq<bool>, j: nat, e: nat)
    requires j <= e <= |cells|
    requires forall k :: j <= k < e ==> cells[k]
    requires e == |cells| || !cells[e]
    ensures RunEnd(cells, j) == e
    decreases e - j
  {
    if j < e {
      RunEndAt(cells, j + 1, e);
    }
  }

  /** A field begins at column `s`: a reverse cell with no reverse cell just before it. */
  predicate IsRunStart(cells: seq<bool>, s: int) {
    0 <= s < |cells| && cells[s] && (s == 0 || !cells[s - 1])
  }

  /** The descriptor of the run starting at `s`: its maximal extent, and the text before it stripped. */
  function RunDescriptor(line: nat, cells: seq<bool>, text: string, s: nat): (d: Descriptor)
    requires IsRunStart(cells, s)
    ensures d.line == line && d.start == s && d.size >= 1
  {
    Descriptor(line, s, Strip(Slice(text, Gap(cells, s), s)), RunEnd(cells, s) - s, true, "main")
  }

  /** `d` is the descriptor of a field of row `line`. */
  predicate Describes(line: nat, cells: seq<bool>, text: string, d: Descriptor) {
    && d.line == line
    && IsRunStart(cells, d.start)
    && d == RunDescriptor(line, cells, text, d.start)
  }

  /** `n` references to the same descriptor. */
  function Copies(d: Descriptor, n: nat): (r: seq<Descriptor>)
    ensures |r| == n && forall j :: 0 <= j < n ==> r[j] == d
  {
    if n == 0 then [] else [d] + Copies(d, n - 1)
  }

  /** What the row yields at column `s`: the run starting there, `copies` times if it reaches the edge. */
  function FoundAt(line: nat, cells: seq<bool>, text: string, copies: nat, s: nat): (r: seq<Descriptor>)
    requires s < |cells|
    ensures r != [] ==> IsRunStart(cells, s)
    ensures forall j :: 0 <= j < |r| ==> r[j] == RunDescriptor(line, cells, text, s)
    ensures !IsRunStart(cells, s) ==> r == []
    ensures IsRunStart(cells, s) && RunEnd(cells, s) < |cells| ==> r == [RunDescriptor(line, cells, text, s)]
    ensures IsRunStart(cells, s) && RunEnd(cells, s) == |cells| ==> |r| == copies
  {
    if !IsRunStart(cells, s) then []
    else
      var d := RunDescriptor(line, cells, text, s);
      if RunEnd(cells, s) == |cells| then Copies(d, copies) else [d]
  }

  /** The reference row result: the runs from column `k` on, left to right. */
  function Runs(line: nat, cells: seq<bool>, text: string, copies: nat, k: nat): (r: seq<Descriptor>)
    decreases |cells| - k
  {
    if k >= |cells| then [] else FoundAt(line, cells, text, copies, k) + Runs(line, cells, text, copies, k + 1)
  }

  /** Every descriptor of `ds` is a run of the row starting at or after column `k`. */
  predicate AllDescribe(line: nat, cells: seq<bool>, text: string, ds: seq<Descriptor>, k: int) {
    forall j :: 0 <= j < |ds| ==> Describes(line, cells, text, ds[j]) && ds[j].start >= k
  }

  /** Increasing start columns; repeats allowed unless `strict`. */
  predicate ColumnOrdered(ds: seq<Descriptor>, strict: bool) {
    forall a, b :: 0 <= a < b < |ds| ==> ds[a].start < ds[b].start || (!strict && ds[a].start == ds[b].start)
  }

  /** What the reference finds at column `k` is the run starting there. */
  lemma FoundDescribes(line: nat, cells: seq<bool>, text: string, copies: nat, k: nat)
    requires k < |cells|
    ensures AllDescribe(line, cells, text, FoundAt(line, cells, text, copies, k), k)
  {
    var here := FoundAt(line, cells, text, copies, k);
    if here != [] {
      assert IsRunStart(cells, k);
      assert Describes(line, cells, text, RunDescriptor(line, cells, text, k));
    }
  }

  /** Runs found from column `k` on, joined, all start at or after `k`. */
  lemma AllDescribeJoin(line: nat, cells: seq<bool>, text: string, a: seq<Descriptor>, b: seq<Descriptor>, k: nat)
    requires AllDescribe(line, cells, text, a, k) && AllDescribe(line, cells, text, b, k + 1)
    ensures AllDescribe(line, cells, text, a + b, k)
  {
    forall j | 0 <= j < |a + b|
      ensures Describes(line, cells, text, (a + b)[j]) && (a + b)[j].start >= k
    {
      if j < |a| {
        assert (a + b)[j] == a[j];
      } else {
        assert (a + b)[j] == b[j - |a|];
      }
    }
  }

  /** Everything the reference lists from column `k` on is a run starting at or after `k`. */
  lemma {:induction false} RunsSound(line: nat, cells: seq<bool>, text: string, copies: nat, k: nat)
    ensures AllDescribe(line, cells, text, Runs(line, cells, text, copies, k), k)
    decreases |cells| - k
  {
    if k < |cells| {
      RunsSound(line, cells, text, copies, k + 1);
      FoundDescribes(line, cells, text, copies, k);
      RunsUnfold(line, cells, text, copies, k);
      AllDescribeJoin(line, cells, text, FoundAt(line, cells, text, copies, k), Runs(line, cells, text, copies, k + 1), k);
    }
  }

  /** Every run from column `k` on is found, when an edge run is appended at least once: `j` is where. */
  lemma {:induction false} RunsComplete(line: nat, cells: seq<bool>, text: string, copies: nat, k: nat, s: nat) returns (j: nat)
    requires copies >= 1 && k <= s && IsRunStart(cells, s)
    ensures j < |Runs(line, cells, text, copies, k)| && Runs(line, cells, text, copies, k)[j].start == s
    decreases |cells| - k
  {
    if s == k {
      RunsStartHere(line, cells, text, copies, k);
      j := 0;
    } else {
      var i := RunsComplete(line, cells, text, copies, k + 1, s);
      j := RunsShift(line, cells, text, copies, k, i);
    }
  }

  /** A run starting at column `k` is the first thing listed from `k` on. */
  lemma RunsStartHere(line: nat, cells: seq<bool>, text: string, copies: nat, k: nat)
    requires copies >= 1 && IsRunStart(cells, k)
    ensures 0 < |Runs(line, cells, text, copies, k)| && Runs(line, cells, text, copies, k)[0].start == k
  {
    RunsUnfold(line, cells, text, copies, k);
    assert FoundAt(line, cells, text, copies, k)[0].start == k;
  }

  /** Descriptor `i` listed from column `k + 1` on is descriptor `j` listed from `k` on. */
  lemma RunsShift(line: nat, cells: seq<bool>, text: string, copies: nat, k: nat, i: nat) returns (j: nat)
    requires k < |cells| && i < |Runs(line, cells, text, copies, k + 1)|
    ensures j < |Runs(line, cells, text, copies, k)|
    ensures Runs(line, cells, text, copies, k)[j] == Runs(line, cells, text, copies, k + 1)[i]
  {
    var here := FoundAt(line, cells, text, copies, k);
    var rest := Runs(line, cells, text, copies, k + 1);
    RunsUnfold(line, cells, text, copies, k);
    assert Runs(line, cells, text, copies, k) == here + rest;
    j := |here| + i;
    assert (here + rest)[j] == rest[i];
  }

  /** The reference lists nothing before column `k`. */
  lemma RunsAfter(line: nat, cells: seq<bool>, text: string, copies: nat, k: nat)
    ensures forall j :: 0 <= j < |Runs(line, cells, text, copies, k)| ==> Runs(line, cells, text, copies, k)[j].start >= k
  {
    RunsSound(line, cells, text, copies, k);
  }

  /** The runs are listed left to right; appending each at most once leaves no repeats. */
  lemma {:induction false} RunsOrdered(line: nat, cells: seq<bool>, text: string, copies: nat, k: nat)
    ensures ColumnOrdered(Runs(line, cells, text, copies, k), copies <= 1)
    decreases |cells| - k
  {
    if k < |cells| {
      var here: seq<Descriptor> := FoundAt(line, cells, text, copies, k);
      var rest: seq<Descriptor> := Runs(line, cells, text, copies, k + 1);
      RunsOrdered(line, cells, text, copies, k + 1);
      RunsAfter(line, cells, text, copies, k + 1);
      assert Runs(line, cells, text, copies, k) == here + rest;
      assert |here| > 1 ==> copies > 1;
      forall a: int, b: int | 0 <= a < b < |here + rest|
        ensures (here + rest)[a].start < (here + rest)[b].start || (copies > 1 && (here + rest)[a].start == (here + rest)[b].start)
      {
        if b < |here| {
          assert (here + rest)[a] == here[a] && (here + rest)[b] == here[b];
          assert here[a].start == k == here[b].start;
        } else if a < |here| {
          assert (here + rest)[b] == rest[b - |here|];
          assert (here + rest)[a] == here[a] && here[a].start == k;
        } else {
          assert (here + rest)[a] == rest[a - |here|] && (here + rest)[b] == rest[b - |here|];
        }
      }
    }
  }

  /** The field open after a field cell at column `i`: the one already open, or a new one labelled with the text since `gap`. */
  function Opened(text: string, gap: nat, i: nat, open: Option<Opening>): Opening {
    if open.Some? then open.value else Opening(i, Strip(Slice(text, gap, i)))
  }

  /** The descriptor of field `o` once column `e` ends it. */
  function Closed(line: nat, o: Opening, e: int): Descriptor {
    Descriptor(line, o.start, o.caption, e - o.start, true, "main")
  }

  /** What one column of the scan appends, and the label start and open field it leaves behind. */
  datatype Step = Step(out: seq<Descriptor>, gap: nat, open: Option<Opening>)

  /**
   * The body of auto_fields_list's column loop: `gap` is label_start and `open`
   * is current_field. A reverse cell opens a field (reading its label) unless
   * one is open, and on the last column appends the open field `copies` times;
   * a plain cell appends the open field and moves the label start to itself.
   */
  function ScanCell(line: nat, cells: seq<bool>, text: string, copies: nat, i: nat, gap: nat, open: Option<Opening>): Step
    requires i < |cells|
  {
    if cells[i] then
      var o := Opened(text, gap, i, open);
      if i == |cells| - 1 then Step(Copies(Closed(line, o, i + 1), copies), gap, None)
      else Step([], gap, Some(o))
    else if open.Some? then Step([Closed(line, open.value, i)], i, None)
    else Step([], gap, None)
  }

  /** The column loop from column `i` on. */
  function ScanFrom(line: nat, cells: seq<bool>, text: string, copies: nat, i: nat, gap: nat, open: Option<Opening>): seq<Descriptor>
    decreases |cells| - i
  {
    if i >= |cells| then []
    else
      var st := ScanCell(line, cells, text, copies, i, gap, open);
      st.out + ScanFrom(line, cells, text, copies, i + 1, st.gap, st.open)
  }

  /** The scan of row `line`, appending an edge field `copies` times. */
  function ScanRow(line: nat, cells: seq<bool>, text: string, copies: nat): seq<Descriptor> {
    ScanFrom(line, cells, text, copies, 0, 0, None)
  }

  /**
   * What holds of the scan's state before column `i`: `gap` is where the label
   * of a field opened now would start, and an open field is the run that the
   * previous cells continue, with the label read when it was opened.
   */
  predicate Scanning(cells: seq<bool>, text: string, i: nat, gap: nat, open: Option<Opening>) {
    && i <= |cells| && gap == Gap(cells, i)
    && (open.None? ==> i == 0 || i == |cells| || !cells[i - 1])
    && (open.Some? ==>
      && open.value.start < i < |cells|
      && IsRunStart(cells, open.value.start)
      && (forall k :: open.value.start <= k < i ==> cells[k])
      && open.value.caption == Strip(Slice(text, Gap(cells, open.value.start), open.value.start)))
  }

  /** What the scan still has to yield from column `i`: the open field, then the runs from `i` on. */
  function Pending(line: nat, cells: seq<bool>, text: string, copies: nat, i: nat, open: Option<Opening>): seq<Descriptor>
    requires open.Some? ==> open.value.start < |cells|
  {
    (if open.Some? then FoundAt(line, cells, text, copies, open.value.start) else []) + Runs(line, cells, text, copies, i)
  }

  /** In the last column the runs still to find are the one starting there, if any. */
  lemma RunsAtLast(line: nat, cells: seq<bool>, text: string, copies: nat, i: nat)
    requires i == |cells| - 1
    ensures Runs(line, cells, text, copies, i) == FoundAt(line, cells, text, copies, i)
  {
    assert Runs(line, cells, text, copies, i + 1) == [];
  }

  /** The field open when the last column is reached reaches the edge. */
  lemma EdgeOpen(line: nat, cells: seq<bool>, text: string, copies: nat, i: nat, gap: nat, o: Opening)
    requires Scanning(cells, text, i, gap, Some(o)) && i == |cells| - 1 && cells[i]
    ensures Copies(Closed(line, o, i + 1), copies) == Pending(line, cells, text, copies, i, Some(o))
  {
    var s := o.start;
    RunsAtLast(line, cells, text, copies, i);
    assert !IsRunStart(cells, i);
    RunEndAt(cells, s, |cells|);
    assert Closed(line, o, i + 1) == RunDescriptor(line, cells, text, s);
  }

  /** A field opened in the last column reaches the edge. */
  lemma EdgeFresh(line: nat, cells: seq<bool>, text: string, copies: nat, i: nat, gap: nat)
    requires Scanning(cells, text, i, gap, None) && i == |cells| - 1 && cells[i]
    ensures Copies(Closed(line, Opening(i, Strip(Slice(text, gap, i))), i + 1), copies) == Pending(line, cells, text, copies, i, None)
  {
    RunsAtLast(line, cells, text, copies, i);
    assert IsRunStart(cells, i);
    RunEndAt(cells, i, |cells|);
    assert Closed(line, Opening(i, Strip(Slice(text, gap, i))), i + 1) == RunDescriptor(line, cells, text, i);
  }

  /** A field cell in the last column appends the open (or just opened) field `copies` times. */
  lemma CellAtEdge(line: nat, cells: seq<bool>, text: string, copies: nat, i: nat, gap: nat, open: Option<Opening>)
    requires Scanning(cells, text, i, gap, open) && i == |cells| - 1 && cells[i]
    ensures ScanCell(line, cells, text, copies, i, gap, open).out == Pending(line, cells, text, copies, i, open)
  {
    if open.Some? {
      EdgeOpen(line, cells, text, copies, i, gap, open.value);
    } else {
      EdgeFresh(line, cells, text, copies, i, gap);
    }
  }

  /** A field cell before the last column does not move the label start. */
  lemma GapThroughField(cells: seq<bool>, i: nat)
    requires i < |cells| && cells[i]
    ensures Gap(cells, i + 1) == Gap(cells, i)
  {
  }

  /** A field cell before the last column with no field open opens one there. */
  lemma InsideFresh(line: nat, cells: seq<bool>, text: string, copies: nat, i: nat, gap: nat)
    requires Scanning(cells, text, i, gap, None) && i < |cells| - 1 && cells[i]
    ensures Scanning(cells, text, i + 1, gap, Some(Opening(i, Strip(Slice(text, gap, i)))))
  {
    GapThroughField(cells, i);
    assert IsRunStart(cells, i);
  }

  /** The runs from a field cell are that field's, then the runs after it. */
  lemma RunsUnfold(line: nat, cells: seq<bool>, text: string, copies: nat, i: nat)
    requires i < |cells|
    ensures Runs(line, cells, text, copies, i) == FoundAt(line, cells, text, copies, i) + Runs(line, cells, text, copies, i + 1)
  {
  }

  /** A field cell before the last column continues the open field. */
  lemma InsideOpen(line: nat, cells: seq<bool>, text: string, copies: nat, i: nat, gap: nat, o: Opening)
    requires Scanning(cells, text, i, gap, Some(o)) && i < |cells| - 1 && cells[i]
    ensures Scanning(cells, text, i + 1, gap, Some(o))
  {
    GapThroughField(cells, i);
    assert forall k :: o.start <= k < i + 1 ==> cells[k];
  }

  /** Inside an open field there is no run start. */
  lemma InsideOpenPending(line: nat, cells: seq<bool>, text: string, copies: nat, i: nat, gap: nat, o: Opening)
    requires Scanning(cells, text, i, gap, Some(o)) && i < |cells|
    ensures Pending(line, cells, text, copies, i, Some(o)) == Pending(line, cells, text, copies, i + 1, Some(o))
  {
    assert cells[i - 1];
    assert !IsRunStart(cells, i);
    RunsUnfold(line, cells, text, copies, i);
  }

  /** A field cell before the last column opens a field or continues the open one. */
  lemma CellInside(line: nat, cells: seq<bool>, text: string, copies: nat, i: nat, gap: nat, open: Option<Opening>)
    requires Scanning(cells, text, i, gap, open) && i < |cells| - 1 && cells[i]
    ensures Scanning(cells, text, i + 1, gap, Some(Opened(text, gap, i, open)))
    ensures Pending(line, cells, text, copies, i, open) == Pending(line, cells, text, copies, i + 1, Some(Opened(text, gap, i, open)))
  {
    if open.Some? {
      InsideOpen(line, cells, text, copies, i, gap, open.value);
      InsideOpenPending(line, cells, text, copies, i, gap, open.value);
    } else {
      InsideFresh(line, cells, text, copies, i, gap);
      RunsUnfold(line, cells, text, copies, i);
    }
  }

  /** A plain cell after an open field appends it and moves the label start to itself. */
  lemma CellCloses(line: nat, cells: seq<bool>, text: string, copies: nat, i: nat, gap: nat, open: Option<Opening>)
    requires Scanning(cells, text, i, gap, open) && i < |cells| && !cells[i] && open.Some?
    ensures Scanning(cells, text, i + 1, i, None)
    ensures Pending(line, cells, text, copies, i, open)
         == [Closed(line, open.value, i)] + Pending(line, cells, text, copies, i + 1, None)
  {
    assert cells[i - 1];
    assert Gap(cells, i + 1) == i;
    ClosedIsRun(line, cells, text, copies, i, gap, open.value);
    NothingStartsAt(line, cells, text, copies, i);
  }

  /** The field a plain cell closes is the run it ends, listed once. */
  lemma ClosedIsRun(line: nat, cells: seq<bool>, text: string, copies: nat, i: nat, gap: nat, o: Opening)
    requires Scanning(cells, text, i, gap, Some(o)) && i < |cells| && !cells[i]
    ensures FoundAt(line, cells, text, copies, o.start) == [Closed(line, o, i)]
  {
    var s := o.start;
    RunEndAt(cells, s, i);
    assert Closed(line, o, i) == RunDescriptor(line, cells, text, s);
  }

  /** Nothing starts at a plain cell. */
  lemma NothingStartsAt(line: nat, cells: seq<bool>, text: string, copies: nat, i: nat)
    requires i < |cells| && !cells[i]
    ensures Runs(line, cells, text, copies, i) == Runs(line, cells, text, copies, i + 1)
  {
    assert FoundAt(line, cells, text, copies, i) == [];
  }

  /** A plain cell with no field open changes nothing. */
  lemma CellSkipped(line: nat, cells: seq<bool>, text: string, copies: nat, i: nat, gap: nat)
    requires Scanning(cells, text, i, gap, None) && i < |cells| && !cells[i]
    ensures Scanning(cells, text, i + 1, gap, None)
    ensures Pending(line, cells, text, copies, i, None) == Pending(line, cells, text, copies, i + 1, None)
  {
    assert Gap(cells, i + 1) == gap;
    NothingStartsAt(line, cells, text, copies, i);
  }

  /** What the scan of column `i` must keep: the state stays meaningful and the output moves from pending to appended. */
  predicate StepKeeps(line: nat, cells: seq<bool>, text: string, copies: nat, i: nat, open: Option<Opening>, st: Step)
    requires i < |cells| && (open.Some? ==> open.value.start < |cells|)
  {
    && Scanning(cells, text, i + 1, st.gap, st.open)
    && st.out + Pending(line, cells, text, copies, i + 1, st.open) == Pending(line, cells, text, copies, i, open)
  }

  lemma StepAtEdge(line: nat, cells: seq<bool>, text: string, copies: nat, i: nat, gap: nat, open: Option<Opening>)
    requires Scanning(cells, text, i, gap, open) && i == |cells| - 1 && cells[i]
    ensures StepKeeps(line, cells, text, copies, i, open, ScanCell(line, cells, text, copies, i, gap, open))
  {
    var st := ScanCell(line, cells, text, copies, i, gap, open);
    assert st.gap == gap && st.open == None;
    GapThroughField(cells, i);
    assert Scanning(cells, text, i + 1, gap, None);
    assert Pending(line, cells, text, copies, i + 1, None) == [];
    CellAtEdge(line, cells, text, copies, i, gap, open);
    assert st.out + [] == st.out;
  }

  lemma StepInside(line: nat, cells: seq<bool>, text: string, copies: nat, i: nat, gap: nat, open: Option<Opening>)
    requires Scanning(cells, text, i, gap, open) && i < |cells| - 1 && cells[i]
    ensures StepKeeps(line, cells, text, copies, i, open, ScanCell(line, cells, text, copies, i, gap, open))
  {
    assert ScanCell(line, cells, text, copies, i, gap, open) == Step([], gap, Some(Opened(text, gap, i, open)));
    CellInside(line, cells, text, copies, i, gap, open);
  }

  lemma StepCloses(line: nat, cells: seq<bool>, text: string, copies: nat, i: nat, gap: nat, open: Option<Opening>)
    requires Scanning(cells, text, i, gap, open) && i < |cells| && !cells[i] && open.Some?
    ensures StepKeeps(line, cells, text, copies, i, open, ScanCell(line, cells, text, copies, i, gap, open))
  {
    assert ScanCell(line, cells, text, copies, i, gap, open) == Step([Closed(line, open.value, i)], i, None);
    CellCloses(line, cells, text, copies, i, gap, open);
  }

  lemma StepSkips(line: nat, cells: seq<bool>, text: string, copies: nat, i: nat, gap: nat)
    requires Scanning(cells, text, i, gap, None) && i < |cells| && !cells[i]
    ensures StepKeeps(line, cells, text, copies, i, None, ScanCell(line, cells, text, copies, i, gap, None))
  {
    assert ScanCell(line, cells, text, copies, i, gap, None) == Step([], gap, None);
    CellSkipped(line, cells, text, copies, i, gap);
  }

  /** One column keeps the scan's state meaningful and moves its output from what is pending to what is appended. */
  lemma ScanCellRuns(line: nat, cells: seq<bool>, text: string, copies: nat, i: nat, gap: nat, open: Option<Opening>)
    requires Scanning(cells, text, i, gap, open) && i < |cells|
    ensures StepKeeps(line, cells, text, copies, i, open, ScanCell(line, cells, text, copies, i, gap, open))
  {
    if cells[i] && i == |cells| - 1 {
      StepAtEdge(line, cells, text, copies, i, gap, open);
    } else if cells[i] {
      StepInside(line, cells, text, copies, i, gap, open);
    } else if open.Some? {
      StepCloses(line, cells, text, copies, i, gap, open);
    } else {
      StepSkips(line, cells, text, copies, i, gap);
    }
  }

  /** The scan from a column of the row: that column's output, then the scan of the rest. */
  lemma ScanFromStep(line: nat, cells: seq<bool>, text: string, copies: nat, i: nat, gap: nat, open: Option<Opening>)
    requires i < |cells|
    ensures ScanFrom(line, cells, text, copies, i, gap, open)
         == ScanCell(line, cells, text, copies, i, gap, open).out
          + ScanFrom(line, cells, text, copies, i + 1, ScanCell(line, cells, text, copies, i, gap, open).gap,
                     ScanCell(line, cells, text, copies, i, gap, open).open)
  {
  }

  /** One column keeps the scan's state meaningful. */
  lemma ScanCellKeeps(line: nat, cells: seq<bool>, text: string, copies: nat, i: nat, gap: nat, open: Option<Opening>, st: Step)
    requires Scanning(cells, text, i, gap, open) && i < |cells| && st == ScanCell(line, cells, text, copies, i, gap, open)
    ensures Scanning(cells, text, i + 1, st.gap, st.open)
  {
    ScanCellRuns(line, cells, text, copies, i, gap, open);
  }

  /** When the scan after column `i` yields what is pending there, the scan from `i` does too. */
  lemma ScanStep(line: nat, cells: seq<bool>, text: string, copies: nat, i: nat, gap: nat, open: Option<Opening>, st: Step)
    requires Scanning(cells, text, i, gap, open) && i < |cells| && st == ScanCell(line, cells, text, copies, i, gap, open)
    requires st.open.Some? ==> st.open.value.start < |cells|
    requires ScanFrom(line, cells, text, copies, i + 1, st.gap, st.open) == Pending(line, cells, text, copies, i + 1, st.open)
    ensures ScanFrom(line, cells, text, copies, i, gap, open) == Pending(line, cells, text, copies, i, open)
  {
    ScanFromStep(line, cells, text, copies, i, gap, open);
    ScanCellRuns(line, cells, text, copies, i, gap, open);
  }

  /** The scan from column `i` yields the open field and then the runs from `i` on. */
  lemma {:induction false} ScanFromRuns(line: nat, cells: seq<bool>, text: string, copies: nat, i: nat, gap: nat, open: Option<Opening>)
    requires Scanning(cells, text, i, gap, open)
    ensures ScanFrom(line, cells, text, copies, i, gap, open) == Pending(line, cells, text, copies, i, open)
    decreases |cells| - i, 1
  {
    if i < |cells| {
      var st := ScanCell(line, cells, text, copies, i, gap, open);
      ScanCellKeeps(line, cells, text, copies, i, gap, open, st);
      ScanRest(line, cells, text, copies, i + 1, st.gap, st.open);
      ScanStep(line, cells, text, copies, i, gap, open, st);
    } else {
      ScanAtEnd(line, cells, text, copies, i, gap, open);
    }
  }

  /** Past the last column nothing is open and nothing is pending. */
  lemma ScanAtEnd(line: nat, cells: seq<bool>, text: string, copies: nat, i: nat, gap: nat, open: Option<Opening>)
    requires Scanning(cells, text, i, gap, open) && i >= |cells|
    ensures ScanFrom(line, cells, text, copies, i, gap, open) == Pending(line, cells, text, copies, i, open)
  {
    assert open.None?;
    assert Runs(line, cells, text, copies, i) == [];
  }

  /** ScanFromRuns, for the columns after the first. */
  lemma {:induction false} ScanRest(line: nat, cells: seq<bool>, text: string, copies: nat, i: nat, gap: nat, open: Option<Opening>)
    requires Scanning(cells, text, i, gap, open) && i >= 1
    ensures ScanFrom(line, cells, text, copies, i, gap, open) == Pending(line, cells, text, copies, i, open)
    decreases |cells| - i + 1, 0
  {
    ScanFromRuns(line, cells, text, copies, i, gap, open);
  }

  /**
   * The row scan finds exactly the maximal runs of reverse cells, left to right,
   * each labelled with the stripped text since the previous run.
   */
  lemma ScanRowRuns(line: nat, cells: seq<bool>, text: string, copies: nat)
    ensures ScanRow(line, cells, text, copies) == Runs(line, cells, text, copies, 0)
  {
    ScanFromRuns(line, cells, text, copies, 0, 0, None);
  }

  /** As written, a field in the last column of a row is listed twice. */
  lemma EdgeFieldListedTwice()
    ensures var d := Descriptor(0, 1, "x", 1, true, "main");
            ScanRow(0, [false, true], "x ", AsWritten) == [d, d]
  {
    var d := Descriptor(0, 1, "x", 1, true, "main");
    ScanRowRuns(0, [false, true], "x ", AsWritten);
    assert IsRunStart([false, true], 1);
    assert RunEnd([false, true], 1) == 2;
    assert Slice("x ", 0, 1) == "x";
    StripFixed("x");
    assert RunDescriptor(0, [false, true], "x ", 1) == d;
    assert Runs(0, [false, true], "x ", AsWritten, 0) == FoundAt(0, [false, true], "x ", AsWritten, 0) + FoundAt(0, [false, true], "x ", AsWritten, 1);
  }

  /**
   * A row yields every maximal run of reverse cells, left to right, and nothing
   * else; only a run reaching the last column can be repeated, and only when
   * `copies` exceeds one.
   */
  lemma RowFieldsAreRuns(line: nat, cells: seq<bool>, text: string, copies: nat)
    requires copies >= 1
    ensures AllDescribe(line, cells, text, ScanRow(line, cells, text, copies), 0)
    ensures forall s :: IsRunStart(cells, s) ==> exists j :: 0 <= j < |ScanRow(line, cells, text, copies)| && ScanRow(line, cells, text, copies)[j].start == s
    ensures ColumnOrdered(ScanRow(line, cells, text, copies), copies == 1)
  {
    ScanRowRuns(line, cells, text, copies);
    RunsSound(line, cells, text, copies, 0);
    RunsOrdered(line, cells, text, copies, 0);
    forall s | IsRunStart(cells, s)
      ensures exists j :: 0 <= j < |ScanRow(line, cells, text, copies)| && ScanRow(line, cells, text, copies)[j].start == s
    {
      var j := RunsComplete(line, cells, text, copies, 0, s);
    }
  }

  /** (line, start) increasing: screen order, with repeats allowed unless `strict`. */
  predicate ScreenOrdered(ds: seq<Descriptor>, strict: bool) {
    forall a, b :: 0 <= a < b < |ds| ==>
      ds[a].line < ds[b].line || (ds[a].line == ds[b].line && (ds[a].start < ds[b].start || (!strict && ds[a].start == ds[b].start)))
  }

  /** Every descriptor of `ds` is a run of a row from `y` down. */
  predicate ScreenRuns(matrix: seq<seq<bool>>, lines: seq<string>, ds: seq<Descriptor>, y: nat)
    requires |matrix| == |lines|
  {
    forall j :: 0 <= j < |ds| ==> y <= ds[j].line < |matrix| && Describes(ds[j].line, matrix[ds[j].line], lines[ds[j].line], ds[j])
  }

  /** auto_fields_list from row `y` down, each field appended once. */
  function ListFrom(matrix: seq<seq<bool>>, lines: seq<string>, copies: nat, y: nat): seq<Descriptor>
    requires |matrix| == |lines|
    decreases |matrix| - y
  {
    if y >= |matrix| then [] else ScanRow(y, matrix[y], lines[y], copies) + ListFrom(matrix, lines, copies, y + 1)
  }

  /** Everything listed from row `y` down is a run of one of those rows. */
  lemma {:induction false} ListSound(matrix: seq<seq<bool>>, lines: seq<string>, copies: nat, y: nat)
    requires |matrix| == |lines| && copies >= 1
    ensures ScreenRuns(matrix, lines, ListFrom(matrix, lines, copies, y), y)
    decreases |matrix| - y
  {
    if y < |matrix| {
      var row: seq<Descriptor> := ScanRow(y, matrix[y], lines[y], copies);
      var rest: seq<Descriptor> := ListFrom(matrix, lines, copies, y + 1);
      RowFieldsAreRuns(y, matrix[y], lines[y], copies);
      ListSound(matrix, lines, copies, y + 1);
      forall j: int | 0 <= j < |row + rest|
        ensures y <= (row + rest)[j].line < |matrix|
             && Describes((row + rest)[j].line, matrix[(row + rest)[j].line], lines[(row + rest)[j].line], (row + rest)[j])
      {
        if j < |row| {
          assert (row + rest)[j] == row[j];
        } else {
          assert (row + rest)[j] == rest[j - |row|];
        }
      }
    }
  }

  /** Some descriptor of `ds` is at row `l`, column `s`. */
  predicate Listed(ds: seq<Descriptor>, l: int, s: int) {
    exists j :: 0 <= j < |ds| && ds[j].line == l && ds[j].start == s
  }

  /** Every run of every row from `y` down is listed. */
  lemma {:induction false} ListComplete(matrix: seq<seq<bool>>, lines: seq<string>, copies: nat, y: nat, l: nat, s: int)
    requires |matrix| == |lines| && copies >= 1 && y <= l < |matrix| && IsRunStart(matrix[l], s)
    ensures Listed(ListFrom(matrix, lines, copies, y), l, s)
    decreases |matrix| - y
  {
    var row := ScanRow(y, matrix[y], lines[y], copies);
    var rest := ListFrom(matrix, lines, copies, y + 1);
    assert ListFrom(matrix, lines, copies, y) == row + rest;
    if l == y {
      RowFieldsAreRuns(y, matrix[y], lines[y], copies);
      var j :| 0 <= j < |row| && row[j].start == s;
      assert (row + rest)[j] == row[j];
      assert Describes(y, matrix[y], lines[y], row[j]);
    } else {
      ListComplete(matrix, lines, copies, y + 1, l, s);
      var j :| 0 <= j < |rest| && rest[j].line == l && rest[j].start == s;
      assert (row + rest)[|row| + j] == rest[j];
    }
  }

  /** The list from row `y` down is in screen order. */
  lemma {:induction false} ListOrdered(matrix: seq<seq<bool>>, lines: seq<string>, copies: nat, y: nat)
    requires |matrix| == |lines| && copies >= 1
    ensures ScreenOrdered(ListFrom(matrix, lines, copies, y), copies == 1)
    decreases |matrix| - y
  {
    if y < |matrix| {
      var row: seq<Descriptor> := ScanRow(y, matrix[y], lines[y], copies);
      var rest: seq<Descriptor> := ListFrom(matrix, lines, copies, y + 1);
      RowFieldsAreRuns(y, matrix[y], lines[y], copies);
      ListSound(matrix, lines, copies, y + 1);
      ListOrdered(matrix, lines, copies, y + 1);
      forall a: int, b: int | 0 <= a < b < |row + rest|
        ensures (row + rest)[a].line < (row + rest)[b].line
             || ((row + rest)[a].line == (row + rest)[b].line
                 && ((row + rest)[a].start < (row + rest)[b].start || (copies != 1 && (row + rest)[a].start == (row + rest)[b].start)))
      {
        if b < |row| {
          assert (row + rest)[a] == row[a] && (row + rest)[b] == row[b];
        } else if a < |row| {
          assert (row + rest)[a] == row[a] && (row + rest)[b] == rest[b - |row|];
        } else {
          assert (row + rest)[a] == rest[a - |row|] && (row + rest)[b] == rest[b - |row|];
        }
      }
    }
  }

  /** Every run of every row is listed. */
  lemma ListAll(matrix: seq<seq<bool>>, lines: seq<string>, copies: nat)
    requires |matrix| == |lines| && copies >= 1
    ensures forall l: int, s: int :: 0 <= l < |matrix| && IsRunStart(matrix[l], s) ==> Listed(ListFrom(matrix, lines, copies, 0), l, s)
  {
    forall l: int, s: int | 0 <= l < |matrix| && IsRunStart(matrix[l], s)
      ensures Listed(ListFrom(matrix, lines, copies, 0), l, s)
    {
      ListComplete(matrix, lines, copies, 0, l, s);
    }
  }

  /**
   * auto_fields_list as written: every reverse-video run of the screen, row by
   * row and left to right; a run reaching the last column is listed twice
   * (EdgeFieldListedTwice), so equal positions may repeat.
   */
  function AutoFieldsList(matrix: seq<seq<bool>>, lines: seq<string>): (r: seq<Descriptor>)
    requires |matrix| == |lines|
    ensures ScreenRuns(matrix, lines, r, 0)
    ensures forall l: int, s: int :: 0 <= l < |matrix| && IsRunStart(matrix[l], s) ==> Listed(r, l, s)
    ensures ScreenOrdered(r, false)
  {
    ListSound(matrix, lines, AsWritten, 0);
    ListOrdered(matrix, lines, AsWritten, 0);
    ListAll(matrix, lines, AsWritten);
    ListFrom(matrix, lines, AsWritten, 0)
  }

  /** auto_fields_list with each field appended once: the same runs, in strict screen order. */
  function AutoFieldsListOnce(matrix: seq<seq<bool>>, lines: seq<string>): (r: seq<Descriptor>)
    requires |matrix| == |lines|
    ensures ScreenRuns(matrix, lines, r, 0)
    ensures forall l: int, s: int :: 0 <= l < |matrix| && IsRunStart(matrix[l], s) ==> Listed(r, l, s)
    ensures ScreenOrdered(r, true)
  {
    ListSound(matrix, lines, Intended, 0);
    ListOrdered(matrix, lines, Intended, 0);
    ListAll(matrix, lines, Intended);
    ListFrom(matrix, lines, Intended, 0)
  }

  /** The dictionary key of a label: spaces to underscores, lower case. */
  function NormalKey(caption: string): string {
    Lower(ReplaceChar(caption, ' ', '_'))
  }

  /** How many of the first `i` descriptors have normalised key `n`. */
  function Occurrences(ds: seq<Descriptor>, i: nat, n: string): nat
    requires i <= |ds|
  {
    if i == 0 then 0
    else Occurrences(ds, i - 1, n) + (if NormalKey(ds[i - 1].name) == n then 1 else 0)
  }

  /** The key descriptor `i` is stored under: its normalised label, suffixed with how many came before it. */
  function DictKey(ds: seq<Descriptor>, i: nat): string
    requires i < |ds|
  {
    var n := NormalKey(ds[i].name);
    var c := Occurrences(ds, i, n);
    if c == 0 then n else n + "_" + Format02(c)
  }

  /** `counters[n]` of the defaultdict: 0 for a key never counted. */
  function Count(counters: map<string, nat>, n: string): nat {
    if n in counters then counters[n] else 0
  }

  /** No later descriptor is stored under `key`. */
  predicate LastUnder(ds: seq<Descriptor>, i: nat, key: string)
    requires i < |ds|
  {
    forall m :: i < m < |ds| ==> DictKey(ds, m) != key
  }

  /**
   * auto_fields_dict: every descriptor is stored under its key, and each key
   * holds the last descriptor stored under it.
   */
  method AutoFieldsDict(ds: seq<Descriptor>) returns (dict: map<string, Descriptor>)
    ensures forall i :: 0 <= i < |ds| ==> DictKey(ds, i) in dict
    ensures forall key :: key in dict ==> exists i :: 0 <= i < |ds| && DictKey(ds, i) == key && dict[key] == ds[i] && LastUnder(ds, i, key)
  {
    var counters: map<string, nat> := map[];
    dict := map[];
    var i := 0;
    while i < |ds|
      invariant i <= |ds|
      invariant Counted(ds, i, counters)
      invariant Stored(ds, i, dict)
    {
      var n := NormalKey(ds[i].name);
      var key := if n in counters then n + "_" + Format02(counters[n]) else n;
      CountStep(ds, i, counters);
      StoreStep(ds, i, dict);
      counters := counters[n := Count(counters, n) + 1];
      dict := dict[key := ds[i]];
      i := i + 1;
    }
    StoredAll(ds, dict);
  }

  /** The counters after the first `i` descriptors: how often each normalised key occurred. */
  ghost predicate Counted(ds: seq<Descriptor>, i: nat, counters: map<string, nat>)
    requires i <= |ds|
  {
    && (forall n :: Occurrences(ds, i, n) == Count(counters, n))
    && (forall n :: n in counters ==> counters[n] > 0)
  }

  /** Counting descriptor `i` keeps the counters right, and the key it is stored under is its DictKey. */
  lemma CountStep(ds: seq<Descriptor>, i: nat, counters: map<string, nat>)
    requires i < |ds| && Counted(ds, i, counters)
    ensures var n := NormalKey(ds[i].name);
      && (if n in counters then n + "_" + Format02(counters[n]) else n) == DictKey(ds, i)
      && Counted(ds, i + 1, counters[n := Count(counters, n) + 1])
  {
    var n := NormalKey(ds[i].name);
    var after := counters[n := Count(counters, n) + 1];
    assert Occurrences(ds, i, n) == Count(counters, n);
    forall m ensures Occurrences(ds, i + 1, m) == Count(after, m) {
      assert Occurrences(ds, i + 1, m) == Occurrences(ds, i, m) + (if n == m then 1 else 0);
      assert Occurrences(ds, i, m) == Count(counters, m);
    }
  }

  /** Once every descriptor is stored, each key holds the last descriptor stored under it. */
  lemma StoredAll(ds: seq<Descriptor>, dict: map<string, Descriptor>)
    requires Stored(ds, |ds|, dict)
    ensures forall i :: 0 <= i < |ds| ==> DictKey(ds, i) in dict
    ensures forall key :: key in dict ==> exists i :: 0 <= i < |ds| && DictKey(ds, i) == key && dict[key] == ds[i] && LastUnder(ds, i, key)
  {
    forall key | key in dict
      ensures exists i :: 0 <= i < |ds| && DictKey(ds, i) == key && dict[key] == ds[i] && LastUnder(ds, i, key)
    {
      var j :| Keeps(ds, |ds|, dict, key, j);
      assert LastUnder(ds, j, key);
    }
  }

  /** `dict[k]` is descriptor `j`, the last of the first `i` stored under `k`. */
  ghost predicate Keeps(ds: seq<Descriptor>, i: nat, dict: map<string, Descriptor>, k: string, j: int) {
    && 0 <= j < i <= |ds| && k in dict && DictKey(ds, j) == k && dict[k] == ds[j]
    && forall m :: j < m < i ==> DictKey(ds, m) != k
  }

  /** The dictionary after storing the first `i` descriptors. */
  ghost predicate Stored(ds: seq<Descriptor>, i: nat, dict: map<string, Descriptor>) {
    && i <= |ds|
    && (forall j :: 0 <= j < i ==> DictKey(ds, j) in dict)
    && (forall k :: k in dict ==> exists j :: Keeps(ds, i, dict, k, j))
  }

  /** Storing descriptor `i` under its key keeps every key holding the last descriptor stored under it. */
  lemma StoreStep(ds: seq<Descriptor>, i: nat, dict: map<string, Descriptor>)
    requires i < |ds| && Stored(ds, i, dict)
    ensures Stored(ds, i + 1, dict[DictKey(ds, i) := ds[i]])
  {
    var key := DictKey(ds, i);
    var after := dict[key := ds[i]];
    var next := i + 1;
    forall k | k in after ensures exists j :: Keeps(ds, next, after, k, j) {
      if k == key {
        assert Keeps(ds, next, after, k, i);
      } else {
        var j :| Keeps(ds, i, dict, k, j);
        assert Keeps(ds, next, after, k, j);
      }
    }
  }

  /** Two descriptors with the same label get different keys (the later one is suffixed). */
  lemma SameLabelDistinctKeys(ds: seq<Descriptor>, i: nat, j: nat)
    requires i < j < |ds| && NormalKey(ds[i].name) == NormalKey(ds[j].name)
    ensures DictKey(ds, i) != DictKey(ds, j)
    ensures DictKey(ds, j) != NormalKey(ds[j].name)
  {
    var n := NormalKey(ds[i].name);
    OccurrencesGrow(ds, i, j, n);
    var ci := Occurrences(ds, i, n);
    var cj := Occurrences(ds, j, n);
    var kj := n + "_" + Format02(cj);
    assert DictKey(ds, j) == kj && |kj| > |n|;
    if ci == 0 {
      assert DictKey(ds, i) == n;
    } else {
      var ki := n + "_" + Format02(ci);
      assert DictKey(ds, i) == ki;
      Format02Parses(ci);
      Format02Parses(cj);
      assert ki[|n| + 1..] == Format02(ci);
      assert kj[|n| + 1..] == Format02(cj);
    }
  }

  /** Each earlier descriptor with label `n` adds one to the count. */
  lemma {:induction false} OccurrencesGrow(ds: seq<Descriptor>, i: nat, j: nat, n: string)
    requires i < j <= |ds| && NormalKey(ds[i].name) == n
    ensures Occurrences(ds, j, n) > Occurrences(ds, i, n)
    decreases j - i
  {
    if j > i + 1 {
      OccurrencesGrow(ds, i, j - 1, n);
    }
  }
}
