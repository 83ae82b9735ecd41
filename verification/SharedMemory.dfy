/** The memory mapping that the forked processes share: where loadmmap puts the statistics, the zerodups
  * counter and the rows of the content tracker. Addresses are byte offsets from the start of the mapping. */
module SharedMemory {
  import opened Writers

  const WORD: nat := 8

  /** What loadmmap reads: the length of the statistics array, the blocks of a row, the bytes of a record,
    * and from the configuration the number of processes. */
  datatype Request = Request(duplicatedBlocks: nat, totBlocks: nat, infoSize: nat, nprocs: nat, mixed: bool,
                             rawDevice: bool)

  datatype Layout = Layout(size: nat, statistics: nat, zerodups: nat, rows: seq<nat>)

  /** One row for every file that is written: one device, or a file for each writer. */
  function RowCount(r: Request): nat {
    if r.rawDevice then 1 else if r.mixed then r.nprocs / 2 else r.nprocs
  }

  /** The byte offset of row i in the tracker. */
  function RowOffset(r: Request, i: nat): nat {
    r.infoSize * (i * r.totBlocks)
  }

  /** loadmmap, with its moving pointer. */
  method Loadmmap(r: Request) returns (l: Layout)
    ensures IsLayout(r, l)
  {
    hide RowOffset;
    var nrProcs := r.nprocs;
    if r.mixed {
      nrProcs := nrProcs / 2;
    }
    if r.rawDevice {
      nrProcs := 1;
    }
    var size := WORD * (r.duplicatedBlocks * 3 + 1) + r.infoSize * (r.totBlocks * nrProcs);
    var mem := 0;
    var statistics := mem;
    mem := mem + WORD * r.duplicatedBlocks;
    var zerodups := mem;
    mem := mem + WORD;
    var rows: seq<nat> := [];
    var i := 0;
    while i < nrProcs
      invariant 0 <= i == |rows| <= nrProcs
      invariant forall j :: 0 <= j < i ==> rows[j] == mem + RowOffset(r, j)
    {
      rows := rows + [mem + RowOffset(r, i)];
      i := i + 1;
    }
    l := Layout(size, statistics, zerodups, rows);
  }

  /** The size has room for two more arrays that are not used. */
  ghost predicate IsLayout(r: Request, l: Layout) {
    && |l.rows| == RowCount(r)
    && l.statistics == 0 && l.zerodups == WORD * r.duplicatedBlocks
    && (forall j :: 0 <= j < |l.rows| ==> l.rows[j] == l.zerodups + WORD + RowOffset(r, j))
    && l.size == 8 * (3 * r.duplicatedBlocks + 1) + r.infoSize * (r.totBlocks * RowCount(r))
  }

  /** The first byte of the tracker entry of a cell. */
  function Entry(r: Request, l: Layout, c: Cell): nat
    requires c.0 < |l.rows|
  {
    l.rows[c.0] + r.infoSize * c.1
  }

  /** The cells, row after row. */
  function Number(r: Request, c: Cell): nat {
    c.0 * r.totBlocks + c.1
  }

  lemma EntryByNumber(r: Request, l: Layout, c: Cell)
    requires IsLayout(r, l) && c.0 < |l.rows|
    ensures Entry(r, l, c) == l.zerodups + WORD + r.infoSize * Number(r, c)
  {
    Factor(r.infoSize, c.0 * r.totBlocks, c.1);
  }

  lemma Factor(s: nat, x: nat, y: nat)
    ensures s * x + s * y == s * (x + y)
  {}

  lemma StepUp(s: nat, x: nat, y: nat)
    requires x < y
    ensures s * x + s <= s * y
  {
    Factor(s, x, 1);
    Factor(s, x + 1, y - x - 1);
  }

  lemma NumberInRange(r: Request, c: Cell, rows: nat)
    requires c.0 < rows && c.1 < r.totBlocks
    ensures Number(r, c) < r.totBlocks * rows
  {
    StepUp(r.totBlocks, c.0, rows);
  }

  lemma NumbersDiffer(r: Request, c: Cell, d: Cell)
    requires c.1 < r.totBlocks && d.1 < r.totBlocks && c != d
    ensures Number(r, c) != Number(r, d)
  {
    if c.0 < d.0 {
      StepUp(r.totBlocks, c.0, d.0);
    } else if d.0 < c.0 {
      StepUp(r.totBlocks, d.0, c.0);
    }
  }

  /** Every tracker entry lies inside the mapping, behind the statistics and the zerodups counter. */
  lemma EntryInside(r: Request, l: Layout, c: Cell)
    requires IsLayout(r, l) && c.0 < |l.rows| && c.1 < r.totBlocks
    ensures l.statistics + WORD * r.duplicatedBlocks <= l.zerodups
    ensures l.zerodups + WORD <= Entry(r, l, c)
    ensures Entry(r, l, c) + r.infoSize <= l.size
  {
    EntryByNumber(r, l, c);
    NumberInRange(r, c, |l.rows|);
    StepUp(r.infoSize, Number(r, c), r.totBlocks * |l.rows|);
  }

  /** The entries of different cells share no byte: the tracker is a map from cells to records. */
  lemma EntriesApart(r: Request, l: Layout, c: Cell, d: Cell)
    requires IsLayout(r, l) && c.0 < |l.rows| && d.0 < |l.rows| && c.1 < r.totBlocks && d.1 < r.totBlocks && c != d
    ensures Entry(r, l, c) + r.infoSize <= Entry(r, l, d) || Entry(r, l, d) + r.infoSize <= Entry(r, l, c)
  {
    EntryByNumber(r, l, c);
    EntryByNumber(r, l, d);
    NumbersDiffer(r, c, d);
    if Number(r, c) < Number(r, d) {
      StepUp(r.infoSize, Number(r, c), Number(r, d));
    } else {
      StepUp(r.infoSize, Number(r, d), Number(r, c));
    }
  }

  /** The mapping loadmmap makes for a run. */
  predicate ForRun(su: Setup, r: Request) {
    && r.totBlocks == su.conf.totBlocks && r.nprocs == su.conf.nprocs && r.rawDevice == su.conf.rawDevice
    && su.writers == if r.mixed then r.nprocs / 2 else r.nprocs
  }

  /** Writers that run at the same time store their records in disjoint bytes of the mapping. */
  lemma RecordsApart(su: Setup, r: Request, l: Layout, p: nat, q: nat, s: nat, t: nat)
    requires su.Valid() && ForRun(su, r) && IsLayout(r, l)
    requires p < su.writers && q < su.writers && p != q && s < su.Region() && t < su.Region()
    ensures var c, d := su.CellOf(p, s), su.CellOf(q, t);
            && c.0 < |l.rows| && d.0 < |l.rows|
            && l.zerodups + WORD <= Entry(r, l, c) && Entry(r, l, c) + r.infoSize <= l.size
            && (Entry(r, l, c) + r.infoSize <= Entry(r, l, d) || Entry(r, l, d) + r.infoSize <= Entry(r, l, c))
  {
    hide Setup.Valid; hide IsLayout; hide Entry;
    CellInRange(su, p, s);
    CellInRange(su, q, t);
    WritersApart(su, p, q, s, t);
    RowsAreFiles(su, r, l);
    EntryInside(r, l, su.CellOf(p, s));
    EntriesApart(r, l, su.CellOf(p, s), su.CellOf(q, t));
  }

  lemma RowsAreFiles(su: Setup, r: Request, l: Layout)
    requires ForRun(su, r) && IsLayout(r, l)
    ensures |l.rows| == su.Files()
  {}
}
