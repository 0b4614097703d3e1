/** The plaintext join: tagged tuples, windows by id, one row per choice of a tuple from every party. */
module PlainModel {
  import opened Words
  import opened Network
  import opened PaddedSort
  import opened Counting
  import opened ObliviousSort
  import opened JoinModel


  datatype PlainInput = PlainInput(id: nat, data: seq<Block>)
  datatype PlainRow = PlainRow(id: nat, data: seq<Block>, inter: bool)

  type PlainTables = seq<seq<PlainInput>>

  // ----------------------------------------------------------------------
  // The metadata block

  /** Bytes 0-3 the party, bytes 4-7 the row, byte 8 the real flag. */
  function PackTupleMeta(party: nat, row: nat, real_: bool): Block {
    party + U32 * row + U64 * Bit(real_)
  }

  function MetaParty(b: Block): nat { b % U32 }

  function MetaRow(b: Block): nat { b / U32 % U32 }

  function MetaReal(b: Block): bool { b / U64 % 256 != 0 }

  lemma UnpackTupleMeta(party: nat, row: nat, real_: bool)
    requires party < U32 && row < U32
    ensures var b := PackTupleMeta(party, row, real_);
            MetaParty(b) == party && MetaRow(b) == row && MetaReal(b) == real_
    ensures var b := PackTupleMeta(party, row, real_);
            && b % 0x1_0000_0000 == party && b / 0x1_0000_0000 % 0x1_0000_0000 == row
            && b / 0x1_0000_0000_0000_0000 == if real_ then 1 else 0
  {
    var b := PackTupleMeta(party, row, real_);
    DivModUnique(b, U32, row + U32 * Bit(real_), party);
    DivModUnique(row + U32 * Bit(real_), U32, Bit(real_), row);
    DivModUnique(b, U64, Bit(real_), party + U32 * row);
  }

  // ----------------------------------------------------------------------
  // Padding

  function HasId(u: nat): PlainInput -> bool {
    (r: PlainInput) => r.id == u
  }

  function RowsFor(table: seq<PlainInput>, u: nat): seq<PlainInput> {
    Select(table, HasId(u))
  }

  /** Tuple r of party p for id u: a real row while there is one, then zeros. */
  function PadTuple(rows: seq<PlainInput>, u: nat, p: nat, r: nat, W: nat): SortElement {
    if r < |rows| then Elem(u, [PackTupleMeta(p, r, true)] + rows[r].data)
    else Elem(u, [PackTupleMeta(p, r, false)] + Repeat(0, W))
  }

  function PartyTuples(table: seq<PlainInput>, u: nat, p: nat, M: nat, W: nat): (s: seq<SortElement>)
    ensures |s| == M
  {
    seq(M, r requires 0 <= r < M => PadTuple(RowsFor(table, u), u, p, r, W))
  }

  function IdTuples(tables: PlainTables, u: nat, M: nat, W: nat, n: nat): seq<SortElement>
    requires n <= |tables|
  {
    if n == 0 then [] else IdTuples(tables, u, M, W, n - 1) + PartyTuples(tables[n - 1], u, n - 1, M, W)
  }

  function PaddedBag(tables: PlainTables, us: seq<nat>, M: nat, W: nat): seq<SortElement> {
    if us == [] then [] else IdTuples(tables, us[0], M, W, |tables|) + PaddedBag(tables, us[1..], M, W)
  }

  ghost predicate IsUniverse(us: seq<nat>, tables: PlainTables) {
    && Increasing(us)
    && (forall u :: u in us ==> exists p, i :: 0 <= p < |tables| && 0 <= i < |tables[p]| && tables[p][i].id == u)
    && forall p, i :: 0 <= p < |tables| && 0 <= i < |tables[p]| ==> tables[p][i].id in us
  }

  // ----------------------------------------------------------------------
  // Windows

  /** Where a new id starts. */
  function WindowStarts(s: seq<SortElement>): (starts: seq<nat>)
    ensures s != [] ==> starts != [] && starts[0] == 0
    ensures forall w :: 0 <= w < |starts| ==> starts[w] < |s|
    ensures forall w :: 0 <= w < |starts| - 1 ==> starts[w] < starts[w + 1]
  {
    if s == [] then []
    else
      var n := |s| - 1;
      WindowStarts(s[..n]) + if n == 0 || s[n].key != s[n - 1].key then [n] else []
  }

  function WindowEnd(s: seq<SortElement>, w: nat): (e: nat)
    requires w < |WindowStarts(s)|
    ensures WindowStarts(s)[w] < e <= |s|
  {
    if w + 1 < |WindowStarts(s)| then WindowStarts(s)[w + 1] else |s|
  }

  function WindowAt(s: seq<SortElement>, w: nat): (win: seq<SortElement>)
    requires w < |WindowStarts(s)|
    ensures win != []
  {
    s[WindowStarts(s)[w]..WindowEnd(s, w)]
  }

  function Meta(e: SortElement): Block {
    if e.payload == [] then 0 else e.payload[0]
  }

  function OfParty(p: nat): SortElement -> bool {
    (e: SortElement) => MetaParty(Meta(e)) == p
  }

  /** The window's tuples, party by party, in the order they appear. */
  function ByParty(win: seq<SortElement>, N: nat): (g: seq<seq<SortElement>>)
    ensures |g| == N
  {
    seq(N, p requires 0 <= p < N => Select(win, OfParty(p)))
  }

  function Flatten<T>(parts: seq<seq<T>>): seq<T> {
    if parts == [] then [] else parts[0] + Flatten(parts[1..])
  }

  /** The payload blocks a tuple contributes. */
  function DataPart(W: nat): SortElement -> seq<Block> {
    (e: SortElement) => if |e.payload| < 1 + W then [] else e.payload[1..1 + W]
  }

  function IsReal(): SortElement -> bool {
    (e: SortElement) => MetaReal(Meta(e))
  }

  predicate AllRealTuples(v: seq<SortElement>) {
    forall p :: 0 <= p < |v| ==> IsReal()(v[p])
  }

  function ToPlainRow(u: nat, W: nat): seq<SortElement> -> PlainRow {
    (v: seq<SortElement>) => PlainRow(u, Flatten(Map(v, DataPart(W))), AllRealTuples(v))
  }

  function PlainWindow(win: seq<SortElement>, N: nat, W: nat): seq<PlainRow>
    requires win != []
  {
    Map(Choices(ByParty(win, N)), ToPlainRow(win[0].key, W))
  }

  /** What the expander checks of each window. */
  ghost predicate WindowOk(win: seq<SortElement>, N: nat, M: nat, W: nat) {
    && |win| == N * M
    && (forall i :: 0 <= i < |win| ==> MetaParty(Meta(win[i])) < N)
    && (forall p :: 0 <= p < N ==> |ByParty(win, N)[p]| == M)
    && forall c :: 0 <= c < |Choices(ByParty(win, N))| ==> LongEnough(Choices(ByParty(win, N))[c], W)
  }

  /** Each picked tuple carries its W data blocks. */
  ghost predicate LongEnough(v: seq<SortElement>, W: nat) {
    forall p :: 0 <= p < |v| ==> |v[p].payload| >= 1 + W
  }

  ghost predicate WindowsOk(s: seq<SortElement>, N: nat, M: nat, W: nat, k: nat)
    requires k <= |WindowStarts(s)|
  {
    forall w :: 0 <= w < k ==> WindowOk(WindowAt(s, w), N, M, W)
  }

  /** The rows of the first k windows. */
  function PlainExpand(s: seq<SortElement>, N: nat, W: nat, k: nat): seq<PlainRow>
    requires k <= |WindowStarts(s)|
  {
    if k == 0 then [] else PlainExpand(s, N, W, k - 1) + PlainWindow(WindowAt(s, k - 1), N, W)
  }

  // ----------------------------------------------------------------------
  // The filter

  function IsInter(): PlainRow -> bool {
    (r: PlainRow) => r.inter
  }

  /** Rank 0 for intersection rows; the id and the flag share the first block. */
  function EncodeRow(): PlainRow -> SortElement {
    (r: PlainRow) => Elem(Bit(!r.inter), [r.id + U64 * Bit(r.inter)] + r.data)
  }

  function DecodeRow(): SortElement -> PlainRow {
    (e: SortElement) =>
      if e.payload == [] then PlainRow(0, [], false)
      else PlainRow(e.payload[0] % U64, e.payload[1..], e.payload[0] / U64 % 256 != 0)
  }

  function FilterRows(rows: seq<PlainRow>): (t: seq<PlainRow>)
    ensures |t| == |rows|
  {
    var encoded := Map(rows, EncodeRow());
    Map(SortPadded(true, encoded, ZeroPayload(encoded)), DecodeRow())
  }

  // ----------------------------------------------------------------------
  // The relational join

  function SuppliesPlain(u: nat, data: seq<Block>): PlainInput -> bool {
    (r: PlainInput) => r.id == u && r.data == data
  }

  function PlainSuppliers(tables: PlainTables, W: nat, row: PlainRow): (ns: seq<nat>)
    requires |row.data| == |tables| * W
    ensures |ns| == |tables|
  {
    var parts := Split(row.data, |tables|, W);
    seq(|tables|, p requires 0 <= p < |tables| => Count(tables[p], SuppliesPlain(row.id, parts[p])))
  }

  /** The multiplicity of `row` in the equi-join of the parties' tables. */
  function PlainMultiplicity(tables: PlainTables, W: nat, row: PlainRow): nat {
    if row.inter && |row.data| == |tables| * W then Product(PlainSuppliers(tables, W, row)) else 0
  }
}
