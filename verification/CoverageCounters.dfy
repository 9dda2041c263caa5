/** The coverage collector: counters of all instructions in one flat buffer, indexed by the offset
    of a function plus a position in it. */
module CoverageCounters {
  import opened Bytecode
  import opened Interpreter

  const VM_COVERAGE_MAX_CELLS := 262144

  // ----- Layout -----

  /** The number of instructions before function `f`. */
  function Offset(fs: seq<Function>, f: nat): nat
    requires f <= |fs|
  {
    if f == 0 then 0 else Offset(fs, f - 1) + |fs[f - 1].ins|
  }

  function Total(fs: seq<Function>): nat {
    Offset(fs, |fs|)
  }

  lemma {:induction false} OffsetMono(fs: seq<Function>, f: nat, g: nat)
    requires f <= g <= |fs|
    ensures Offset(fs, f) <= Offset(fs, g)
    decreases g
  {
    if f < g {
      OffsetMono(fs, f, g - 1);
    }
  }

  /** Every instruction has its cell inside the buffer. */
  lemma CellInBounds(fs: seq<Function>, f: nat, pc: nat)
    requires f < |fs| && pc < |fs[f].ins|
    ensures Offset(fs, f) + pc < Offset(fs, f + 1) <= Total(fs)
  {
    OffsetMono(fs, f + 1, |fs|);
  }

  /** Different instructions have different cells. */
  lemma CellsDiffer(fs: seq<Function>, f: nat, pc: nat, g: nat, q: nat)
    requires f < |fs| && pc < |fs[f].ins| && g < |fs| && q < |fs[g].ins| && (f != g || pc != q)
    ensures Offset(fs, f) + pc != Offset(fs, g) + q
  {
    CellInBounds(fs, f, pc);
    CellInBounds(fs, g, q);
    if f < g {
      OffsetMono(fs, f + 1, g);
    } else if g < f {
      OffsetMono(fs, g + 1, f);
    }
  }

  /** And the buffer has no other cells. */
  lemma {:induction false} CellOwner(fs: seq<Function>, n: nat, k: nat) returns (f: nat, pc: nat)
    requires n <= |fs| && k < Offset(fs, n)
    ensures f < n && pc < |fs[f].ins| && k == Offset(fs, f) + pc
  {
    if k < Offset(fs, n - 1) {
      f, pc := CellOwner(fs, n - 1, k);
    } else {
      f, pc := n - 1, k - Offset(fs, n - 1);
    }
  }

  /** The cells of one function. */
  ghost function Row(fs: seq<Function>, flat: seq<Cell>, f: nat): (r: seq<Cell>)
    requires f < |fs| && |flat| == Total(fs)
    ensures |r| == |fs[f].ins|
  {
    OffsetMono(fs, f + 1, |fs|);
    flat[Offset(fs, f)..Offset(fs, f + 1)]
  }

  ghost function Rows(fs: seq<Function>, flat: seq<Cell>): seq<seq<Cell>>
    requires |flat| == Total(fs)
  {
    seq(|fs|, f requires 0 <= f < |fs| => Row(fs, flat, f))
  }

  lemma RowUpdate(fs: seq<Function>, flat: seq<Cell>, f: nat, pc: nat, cell: Cell, g: nat)
    requires |flat| == Total(fs) && f < |fs| && pc < |fs[f].ins| && g < |fs|
    ensures Offset(fs, f) + pc < |flat|
    ensures Row(fs, flat[Offset(fs, f) + pc := cell], g) == if g == f then Row(fs, flat, f)[pc := cell] else Row(fs, flat, g)
  {
    hide Offset;
    CellInBounds(fs, f, pc);
    OffsetMono(fs, g, g + 1);
    OffsetMono(fs, g + 1, |fs|);
    SliceUpdate(flat, Offset(fs, g), Offset(fs, g + 1), Offset(fs, f) + pc, cell);
    if g < f {
      OffsetMono(fs, g + 1, f);
    } else if f < g {
      OffsetMono(fs, f + 1, g);
    }
  }

  lemma SliceUpdate(flat: seq<Cell>, low: nat, high: nat, k: nat, cell: Cell)
    requires low <= high <= |flat| && k < |flat|
    ensures flat[k := cell][low..high] == if low <= k < high then flat[low..high][k - low := cell] else flat[low..high]
  {
  }

  /** Writing one cell of the buffer writes one cell of one function. */
  lemma RowsUpdate(fs: seq<Function>, flat: seq<Cell>, f: nat, pc: nat, cell: Cell)
    requires |flat| == Total(fs) && f < |fs| && pc < |fs[f].ins|
    ensures Offset(fs, f) + pc < |flat|
    ensures Rows(fs, flat[Offset(fs, f) + pc := cell]) == Rows(fs, flat)[f := Rows(fs, flat)[f][pc := cell]]
  {
    hide Row, Offset;
    CellInBounds(fs, f, pc);
    var after := Rows(fs, flat[Offset(fs, f) + pc := cell]);
    var expected := Rows(fs, flat)[f := Rows(fs, flat)[f][pc := cell]];
    forall g | 0 <= g < |fs|
      ensures after[g] == expected[g]
    {
      RowUpdate(fs, flat, f, pc, cell, g);
    }
  }

  lemma RowAt(fs: seq<Function>, flat: seq<Cell>, f: nat, pc: nat)
    requires |flat| == Total(fs) && f < |fs| && pc < |fs[f].ins|
    ensures Offset(fs, f) + pc < |flat| && Rows(fs, flat)[f][pc] == flat[Offset(fs, f) + pc]
  {
    CellInBounds(fs, f, pc);
  }

  lemma FreshRows(p: Image, ceiling: nat, flat: seq<Cell>)
    requires |flat| == Total(p.fs) && forall k :: 0 <= k < |flat| ==> flat[k] == Cell(0, 0, 0, 0)
    ensures Rows(p.fs, flat) == FreshCoverage(p, ceiling).cells
  {
    forall f | 0 <= f < |p.fs|
      ensures Row(p.fs, flat, f) == FreshCoverage(p, ceiling).cells[f]
    {
      OffsetMono(p.fs, f + 1, |p.fs|);
    }
  }

  // ----- The collector -----

  /** The offset loop of `vm_coverage_create`. */
  method Offsets(fs: seq<Function>) returns (offsets: seq<nat>, count: nat)
    ensures |offsets| == |fs| && count == Total(fs)
    ensures forall f :: 0 <= f < |fs| ==> offsets[f] == Offset(fs, f)
  {
    offsets, count := [], 0;
    var i := 0;
    while i < |fs|
      invariant 0 <= i <= |fs| && |offsets| == i && count == Offset(fs, i)
      invariant forall f :: 0 <= f < i ==> offsets[f] == Offset(fs, f)
    {
      offsets := offsets + [count];
      count := count + |fs[i].ins|;
      i := i + 1;
    }
  }

  /** `vm_coverage_create`: a collector exists exactly for a program whose cells fit the limit. */
  method Create(p: Image, cellLimit: nat, ceiling: nat) returns (c: Counters?)
    ensures c != null <==> 0 < ceiling && 0 < cellLimit <= VM_COVERAGE_MAX_CELLS
                           && |p.fs| <= VM_COVERAGE_MAX_CELLS && Total(p.fs) <= cellLimit
    ensures c != null ==> fresh(c) && c.p == p && c.Valid() && c.State() == FreshCoverage(p, ceiling)
  {
    if ceiling == 0 || cellLimit == 0 || cellLimit > VM_COVERAGE_MAX_CELLS || |p.fs| > VM_COVERAGE_MAX_CELLS {
      return null;
    }
    var count, i := 0, 0;
    while i < |p.fs|
      invariant 0 <= i <= |p.fs| && count == Offset(p.fs, i) <= cellLimit
    {
      if |p.fs[i].ins| > cellLimit - count {
        OffsetMono(p.fs, i + 1, |p.fs|);
        return null;
      }
      count := count + |p.fs[i].ins|;
      i := i + 1;
    }
    c := new Counters(p, ceiling);
  }

  class Counters {
    const p: Image
    const ceiling: nat
    const offsets: seq<nat>
    const cells: array<Cell>
    const entries: array<nat>
    var gap: bool
    var overflow: bool

    ghost predicate Valid() {
      && |offsets| == |p.fs| == entries.Length && cells.Length == Total(p.fs)
      && (forall f :: 0 <= f < |p.fs| ==> offsets[f] == Offset(p.fs, f))
    }

    ghost function State(): Coverage
      requires Valid()
      reads this, cells, entries
    {
      Coverage(ceiling, gap, overflow, entries[..], Rows(p.fs, cells[..]))
    }

    constructor (p: Image, ceiling: nat)
      ensures this.p == p && Valid() && fresh(cells) && fresh(entries) && State() == FreshCoverage(p, ceiling)
    {
      var offs, count := Offsets(p.fs);
      this.p, this.ceiling, gap, overflow := p, ceiling, false, false;
      offsets := offs;
      cells := new Cell[count](i => Cell(0, 0, 0, 0));
      entries := new nat[|p.fs|](i => 0);
      new;
      FreshRows(p, ceiling, cells[..]);
      assert entries[..] == FreshCoverage(p, ceiling).entries;
    }

    /** `increment`: saturates at the ceiling and says so. */
    method Increment(value: nat) returns (next: nat)
      modifies this`overflow
      ensures next == if value == ceiling then value else value + 1
      ensures overflow == (old(overflow) || value == ceiling)
    {
      if value == ceiling {
        overflow := true;
        next := value;
      } else {
        next := value + 1;
      }
    }

    method Gap()
      requires Valid()
      modifies this`gap
      ensures State() == old(State()).(gap := true)
    {
      gap := true;
    }

    method Enter(f: nat)
      requires Valid()
      modifies this`overflow, entries
      ensures State() == Entered(old(State()), f)
    {
      if f < |p.fs| {
        var next := Increment(entries[f]);
        entries[f] := next;
      }
    }

    /** `vm_coverage_cell`: where the cell of an instruction is, if there is such an instruction. */
    method CellIndex(f: nat, pc: nat) returns (found: bool, k: nat)
      requires Valid()
      ensures found <==> HasCell(State(), f, pc)
      ensures found ==> k < cells.Length && cells[k] == State().cells[f][pc]
      ensures found ==> f < |p.fs| && pc < |p.fs[f].ins| && k == Offset(p.fs, f) + pc
    {
      if f >= |p.fs| || pc >= |p.fs[f].ins| {
        return false, 0;
      }
      RowAt(p.fs, cells[..], f, pc);
      return true, offsets[f] + pc;
    }

    /** Writes one cell of the flat buffer; no other instruction's counters change. */
    method PutCell(f: nat, pc: nat, k: nat, cell: Cell)
      requires Valid() && f < |p.fs| && pc < |p.fs[f].ins| && k == Offset(p.fs, f) + pc
      modifies cells
      ensures HasCell(old(State()), f, pc)
      ensures State() == WithCell(old(State()), f, pc, cell, false)
    {
      RowsUpdate(p.fs, cells[..], f, pc, cell);
      ghost var before := cells[..];
      cells[k] := cell;
      assert cells[..] == before[k := cell];
    }

    /** `vm_coverage_attempt` */
    method Attempt(f: nat, pc: nat)
      requires Valid()
      modifies this, cells
      ensures State() == Attempted(old(State()), f, pc)
    {
      var found, k := CellIndex(f, pc);
      if found {
        var next := Increment(cells[k].attempted);
        PutCell(f, pc, k, cells[k].(attempted := next));
      } else {
        Gap();
      }
    }

    /** `vm_coverage_finish` */
    method Finish(f: nat, pc: nat, branched: bool)
      requires Valid()
      modifies this, cells
      ensures State() == Finished(p, old(State()), f, pc, branched)
    {
      var found, k := CellIndex(f, pc);
      if !found {
        Gap();
        return;
      }
      var cell := cells[k];
      var next := Increment(cell.completed);
      cell := cell.(completed := next);
      if Branches(p.fs[f].ins[pc]) {
        if branched {
          next := Increment(cell.branched);
          cell := cell.(branched := next);
        } else {
          next := Increment(cell.fallthrough);
          cell := cell.(fallthrough := next);
        }
      }
      PutCell(f, pc, k, cell);
    }
  }
}
