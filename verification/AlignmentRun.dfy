/** The alignment pipeline step by step, against its ideal functionality. */
module AlignmentRun {
  import opened Outcomes
  import opened Words
  import opened Counting
  import opened JoinModel
  import opened Alignment
  import opened Draws
  import opened Permutations

  /** 2^beta bins of cap_P places per party; dummy keys have tau bits. */
  datatype BinParams = BinParams(beta: nat, tauBits: nat, capP: nat)

  function InBin(b: nat): Row -> bool {
    (r: Row) => r.bin == b
  }

  // ----------------------------------------------------------------------
  // Packing

  ghost predicate NoDuplicates(rows: seq<Row>) {
    forall i, j :: 0 <= i < j < |rows| && rows[i].memb == 1 && rows[j].memb == 1 ==>
      (rows[i].key, rows[i].period) != (rows[j].key, rows[j].period)
  }

  method AssertNoDuplicateEntityPeriod(rows: seq<Row>) returns (ok: bool)
    ensures ok <==> NoDuplicates(rows)
  {
    var seen: map<(nat, nat), nat> := map[];
    for i := 0 to |rows|
      invariant forall k :: k in seen ==> seen[k] < i && rows[seen[k]].memb == 1 && (rows[seen[k]].key, rows[seen[k]].period) == k
      invariant forall j :: 0 <= j < i && rows[j].memb == 1 ==> (rows[j].key, rows[j].period) in seen
      invariant NoDuplicates(rows[..i])
    {
      if rows[i].memb == 1 {
        var k := (rows[i].key, rows[i].period);
        if k in seen {
          return false;
        }
        seen := seen[k := i];
      }
    }
    assert rows[..|rows|] == rows;
    return true;
  }

  function BinCount(beta: nat): (n: nat)
    ensures n > 0
  {
    Pow2(beta)
  }

  ghost predicate Accepted(source: nat, rows: seq<Row>, params: BinParams) {
    && NoDuplicates(rows)
    && (forall i :: 0 <= i < |rows| ==> rows[i].bin < BinCount(params.beta) && rows[i].source == source && rows[i].memb == 1)
    && forall b :: 0 <= b < BinCount(params.beta) ==> |Select(rows, InBin(b))| <= params.capP
  }

  /** The party's rows of bin b in their order, then dummies up to the capacity. */
  ghost predicate PackedBin(bin: seq<Row>, source: nat, rows: seq<Row>, b: nat, capP: nat) {
    var mine := Select(rows, InBin(b));
    && |bin| == capP && |mine| <= capP && bin[..|mine|] == mine
    && forall i :: |mine| <= i < capP ==>
         bin[i].bin == b && bin[i].source == source && bin[i].memb == 0 && bin[i].key <= MAX_KEY
  }

  /** Dummy keys are cut to tau bits. */
  ghost predicate ShortKeys(bin: seq<Row>, from: nat, tauBits: nat) {
    forall i :: from <= i < |bin| ==> bin[i].key <= MAX_KEY && (tauBits < 64 ==> bin[i].key < Pow2(tauBits))
  }

  method PackBins(source: nat, rows: seq<Row>, params: BinParams, tape: Tape) returns (r: Result<seq<seq<Row>>>)
    ensures r.Success? <==> Accepted(source, rows, params)
    ensures r.Success? ==> |r.value| == BinCount(params.beta) &&
                           forall b :: 0 <= b < |r.value| ==>
                             PackedBin(r.value[b], source, rows, b, params.capP) &&
                             ShortKeys(r.value[b], |Select(rows, InBin(b))|, params.tauBits)
  {
    hide Select, BinCount, PackedBin, NatProduct, NoDuplicates, ShortKeys, Pow2;
    var numBins := BinCount(params.beta);
    var noDuplicates := AssertNoDuplicateEntityPeriod(rows);
    if !noDuplicates {
      return Failure("assertNoDuplicateEntityPeriod: duplicate (key, period) at source");
    }
    var t: seq<seq<Row>> := seq(numBins, _ => []);
    NothingPlaced(t, rows);
    for i := 0 to |rows|
      invariant |t| == numBins && forall b :: 0 <= b < numBins ==> t[b] == Select(rows[..i], InBin(b))
      invariant forall k :: 0 <= k < i ==> rows[k].bin < numBins && rows[k].source == source && rows[k].memb == 1
    {
      if rows[i].bin >= numBins {
        return Failure("packBins: bin id out of range");
      }
      if rows[i].source != source {
        return Failure("packBins: row source mismatch");
      }
      if rows[i].memb != 1 {
        return Failure("packBins: real row must have memb=1");
      }
      PlaceRow(t, rows, i);
      t := t[rows[i].bin := t[rows[i].bin] + [rows[i]]];
    }
    assert rows[..|rows|] == rows;
    for b := 0 to numBins
      invariant forall c :: 0 <= c < b ==> |t[c]| <= params.capP
    {
      if |t[b]| > params.capP {
        return Failure("packBins: bin overflow - restart session with fresh ctx");
      }
    }
    var out: seq<seq<Row>> := [];
    for b := 0 to numBins
      invariant |out| == b && forall c :: 0 <= c < b ==>
                  PackedBin(out[c], source, rows, c, params.capP) && ShortKeys(out[c], |t[c]|, params.tauBits)
    {
      var bin := PadBin(t[b], b, source, params, tape, NatProduct(b, params.capP));
      BinPacks(bin, t[b], source, rows, b, params.capP);
      out := out + [bin];
    }
    r := Success(out);
  }

  lemma BinPacks(bin: seq<Row>, mine: seq<Row>, source: nat, rows: seq<Row>, b: nat, capP: nat)
    requires mine == Select(rows, InBin(b)) && |mine| <= |bin| == capP && bin[..|mine|] == mine
    requires forall i :: |mine| <= i < capP ==>
               bin[i].bin == b && bin[i].source == source && bin[i].memb == 0 && bin[i].key <= MAX_KEY
    ensures PackedBin(bin, source, rows, b, capP)
  {
    hide Select;
  }

  lemma NothingPlaced(t: seq<seq<Row>>, rows: seq<Row>)
    requires forall b :: 0 <= b < |t| ==> t[b] == []
    ensures forall b :: 0 <= b < |t| ==> t[b] == Select(rows[..0], InBin(b))
  {
  }

  lemma PlaceRow(t: seq<seq<Row>>, rows: seq<Row>, i: nat)
    requires i < |rows| && rows[i].bin < |t| && forall b :: 0 <= b < |t| ==> t[b] == Select(rows[..i], InBin(b))
    ensures forall b :: 0 <= b < |t| ==>
              t[rows[i].bin := t[rows[i].bin] + [rows[i]]][b] == Select(rows[..i + 1], InBin(b))
  {
    var x := rows[i];
    assert rows[..i + 1] == rows[..i] + [x];
    forall b | 0 <= b < |t| ensures Select(rows[..i + 1], InBin(b)) == t[b] + if x.bin == b then [x] else [] {
      SelectConcat(rows[..i], [x], InBin(b));
      assert [x][1..] == [];
    }
  }

  method PadBin(mine: seq<Row>, b: nat, source: nat, params: BinParams, tape: Tape, at: nat) returns (bin: seq<Row>)
    requires |mine| <= params.capP
    ensures |bin| == params.capP && bin[..|mine|] == mine
    ensures forall i :: |mine| <= i < params.capP ==>
              bin[i].bin == b && bin[i].source == source && bin[i].memb == 0 && bin[i].key <= MAX_KEY
    ensures ShortKeys(bin, |mine|, params.tauBits)
  {
    hide Pow2;
    bin := mine;
    while |bin| < params.capP
      invariant |mine| <= |bin| <= params.capP && bin[..|mine|] == mine
      invariant ShortKeys(bin, |mine|, params.tauBits)
      invariant forall i :: |mine| <= i < |bin| ==>
                  bin[i].bin == b && bin[i].source == source && bin[i].memb == 0 && bin[i].key <= MAX_KEY
    {
      var k := tape(at + |bin|) % (MAX_KEY + 1);
      if params.tauBits < 64 {
        Smaller(k, Pow2(params.tauBits));
        k := k % Pow2(params.tauBits);
      }
      bin := bin + [Row(b, source, k, 0, 0, 0, NO_PAYLOAD)];
    }
  }

  lemma Smaller(k: nat, m: nat)
    requires m > 0
    ensures k % m <= k
  {
    var q := k / m;
    assert k == m * q + k % m;
    MulNonneg(m, q);
  }

  // ----------------------------------------------------------------------
  // Sorting and merging a bin

  /** Pads with dead rows to a power of two, sorts, cuts back. */
  method WithinBinSort(bin: seq<Row>) returns (sorted: seq<Row>)
    requires Keyed(bin)
    ensures sorted == StableSorted(bin)
  {
    var n := |bin|;
    var p := 1;
    while p < n
      invariant p >= 1
      decreases n - p
    {
      p := 2 * p;
    }
    var d := DeadRow(if bin == [] then 0 else bin[0].bin);
    var padded := bin;
    while |padded| < p
      invariant n <= |padded| && padded == bin + Repeat(d, |padded| - n)
    {
      assert Repeat(d, |padded| + 1 - n) == Repeat(d, |padded| - n) + [d];
      padded := padded + [d];
    }
    DeadRowsLast(bin, d, |padded| - n);
    SortedKeyed(bin);
    hide StableSorted;
    sorted := StableSorted(padded);
    sorted := sorted[..n];
  }

  /** Row j of the table is a real row of this source and key. */
  predicate Matches(s: seq<Row>, j: nat, source: nat, key: nat) {
    j < |s| && s[j].memb == 1 && s[j].source == source && s[j].key == key
  }

  /** The first match of a source among the row and the two behind it: its presence and its payload. */
  method PickSource(s: seq<Row>, i: nat, source: nat) returns (seen: Seen)
    requires i < |s| && s[i].memb == 1
    ensures seen == SeenOf(Select(Window(s, i), IsRealOf(source, s[i].key)))
    ensures seen.present <==> exists j :: i <= j < i + 3 && Matches(s, j, source, s[i].key)
    ensures seen.present ==> exists j :: i <= j < i + 3 && Matches(s, j, source, s[i].key) && seen.payload == s[j].payload
                                         && forall e :: i <= e < j ==> !Matches(s, e, source, s[i].key)
    ensures !seen.present ==> seen.payload == NO_PAYLOAD
  {
    hide Select, Window, Matches, SeenOf;
    var w := Window(s, i);
    var f := IsRealOf(source, s[i].key);
    NothingPicked(s, i, source);
    for j := 0 to |w|
      invariant Select(w[..j], f) == []
      invariant forall e :: i <= e < i + j ==> !Matches(s, e, source, s[i].key)
    {
      PickStep(s, i, source, j);
      if f(w[j]) {
        return Seen(true, w[j].payload);
      }
    }
    PickEnds(s, i, source);
    return ABSENT;
  }

  lemma NothingPicked(s: seq<Row>, i: nat, source: nat)
    requires i < |s|
    ensures Select(Window(s, i)[..0], IsRealOf(source, s[i].key)) == []
  {
  }

  /** Either row j of the window is the first match, or it is no match. */
  lemma PickStep(s: seq<Row>, i: nat, source: nat, j: nat)
    requires i < |s| && s[i].memb == 1 && j < |Window(s, i)| && Select(Window(s, i)[..j], IsRealOf(source, s[i].key)) == []
    ensures var w, f := Window(s, i), IsRealOf(source, s[i].key);
            && j < 3 && i + j < |s| && w[j] == s[i + j] && (f(w[j]) <==> Matches(s, i + j, source, s[i].key))
            && (f(w[j]) ==> SeenOf(Select(w, f)) == Seen(true, w[j].payload)) && (!f(w[j]) ==> Select(w[..j + 1], f) == [])
  {
    hide Select;
    var w, f := Window(s, i), IsRealOf(source, s[i].key);
    SelectStep(w, j, f);
    if f(w[j]) {
      assert w == w[..j + 1] + w[j + 1..];
      SelectConcat(w[..j + 1], w[j + 1..], f);
    }
  }

  lemma PickEnds(s: seq<Row>, i: nat, source: nat)
    requires i < |s| && Select(Window(s, i)[..|Window(s, i)|], IsRealOf(source, s[i].key)) == []
    ensures SeenOf(Select(Window(s, i), IsRealOf(source, s[i].key))) == ABSENT
    ensures forall j :: i + |Window(s, i)| <= j < i + 3 ==> !Matches(s, j, source, s[i].key)
  {
    hide Select;
    var w := Window(s, i);
    assert w[..|w|] == w;
  }

  lemma SelectNone(f: Row -> bool)
    ensures Select([], f) == []
  {
  }

  lemma SelectStep(w: seq<Row>, j: nat, f: Row -> bool)
    requires j < |w|
    ensures Select(w[..j + 1], f) == Select(w[..j], f) + if f(w[j]) then [w[j]] else []
  {
    assert w[..j + 1] == w[..j] + [w[j]];
    SelectConcat(w[..j], [w[j]], f);
    assert [w[j]][1..] == [];
  }

  /** All matches in the window, source by source. */
  method SawSectors(s: seq<Row>, i: nat) returns (saw: seq<Row>)
    requires i < |s|
    ensures var w, k := Window(s, i), s[i].key;
            saw == Select(w, IsRealOf(0, k)) + Select(w, IsRealOf(1, k)) + Select(w, IsRealOf(2, k))
  {
    hide Select, Window;
    var w, k := Window(s, i), s[i].key;
    var parts: seq<seq<Row>> := [];
    for source := 0 to 3
      invariant |parts| == source && forall c :: 0 <= c < source ==> parts[c] == Select(w, IsRealOf(c, k))
    {
      var hits: seq<Row> := [];
      SelectNone(IsRealOf(source, k));
      for j := 0 to |w|
        invariant hits == Select(w[..j], IsRealOf(source, k))
      {
        SelectStep(w, j, IsRealOf(source, k));
        if w[j].source == source && w[j].memb == 1 && w[j].key == k {
          hits := hits + [w[j]];
        }
      }
      assert w[..|w|] == w;
      parts := parts + [hits];
    }
    saw := parts[0] + parts[1] + parts[2];
  }

  method SectorsDiffer(saw: seq<Row>) returns (conflict: bool)
    ensures conflict <==> Conflict(saw)
  {
    conflict := false;
    var a := 1;
    while a < |saw|
      invariant a == 1 || a <= |saw|
      invariant conflict <==> exists c :: 1 <= c < a && c < |saw| && saw[c].sector != saw[0].sector
    {
      if saw[a].sector != saw[0].sector {
        conflict := true;
      }
      a := a + 1;
    }
  }

  /** What a dummy leaves in the table. */
  function BlankRow(bin: nat): UnionRow {
    UnionRow(bin, 0, 0, Seen(false, NO_PAYLOAD), Seen(false, NO_PAYLOAD), Seen(false, NO_PAYLOAD), true, false, false)
  }

  method WindowedMerge(sorted: seq<Row>) returns (out: seq<UnionRow>)
    requires forall i :: 0 <= i < |sorted| ==> sorted[i].memb <= 1
    ensures out == Merged(sorted)
    ensures forall i {:trigger out[i]} :: 0 <= i < |out| ==>
              && out[i].bin == sorted[i].bin && !out[i].live && (sorted[i].memb == 1 ==> out[i].period == sorted[i].period)
              && (out[i].canonical <==>
                  i == 0 || sorted[i - 1].key != sorted[i].key || sorted[i - 1].memb == 0 || sorted[i].memb == 0)
              && (sorted[i].memb == 0 ==> out[i] == BlankRow(sorted[i].bin))
  {
    hide Select, Window, Conflict, Matches, SeenOf, IsRealOf, BlankRow;
    out := [];
    for i := 0 to |sorted|
      invariant |out| == i && forall k :: 0 <= k < i ==> out[k] == MergeRow(sorted, k)
    {
      var r := sorted[i];
      var first := i == 0 || sorted[i - 1].key != r.key || sorted[i - 1].memb == 0 || r.memb == 0;
      var u := UnionRow(r.bin, 0, 0, ABSENT, ABSENT, ABSENT, first, false, false);
      if r.memb != 0 {
        var mas := PickSource(sorted, i, 0);
        var dos := PickSource(sorted, i, 1);
        var mom := PickSource(sorted, i, 2);
        var saw := SawSectors(sorted, i);
        var conflict := SectorsDiffer(saw);
        u := UnionRow(r.bin, r.period, if saw == [] then 0 else saw[0].sector, mas, dos, mom, first, false, conflict);
      }
      out := out + [u];
    }
    hide *;
    MergedFields(sorted);
  }

  lemma MergeRowFields(s: seq<Row>, i: nat)
    requires i < |s| && s[i].memb <= 1
    ensures var u := MergeRow(s, i);
            && u.bin == s[i].bin && !u.live && (s[i].memb == 1 ==> u.period == s[i].period) && u.canonical == IsFirst(s, i)
            && (s[i].memb == 0 ==> u == BlankRow(s[i].bin))
  {
    hide Select, Window, Conflict, SeenOf;
  }

  lemma MergedFields(s: seq<Row>)
    requires forall i :: 0 <= i < |s| ==> s[i].memb <= 1
    ensures var out := Merged(s); forall i {:trigger out[i]} :: 0 <= i < |out| ==>
              && out[i].bin == s[i].bin && !out[i].live && (s[i].memb == 1 ==> out[i].period == s[i].period)
              && (out[i].canonical <==> i == 0 || s[i - 1].key != s[i].key || s[i - 1].memb == 0 || s[i].memb == 0)
              && (s[i].memb == 0 ==> out[i] == BlankRow(s[i].bin))
  {
    hide MergeRow, BlankRow;
    forall i {:trigger MergeRow(s, i)} | 0 <= i < |s|
      ensures var u := MergeRow(s, i);
              && u.bin == s[i].bin && !u.live && (s[i].memb == 1 ==> u.period == s[i].period) && u.canonical == IsFirst(s, i)
              && (s[i].memb == 0 ==> u == BlankRow(s[i].bin))
    {
      MergeRowFields(s, i);
    }
  }

  method MarkLive(rows: seq<UnionRow>) returns (marked: seq<UnionRow>)
    ensures marked == Map(rows, MarkAll())
    ensures forall i :: 0 <= i < |rows| ==>
              var u := rows[i];
              marked[i] == u.(live := u.canonical && (u.mas.present || u.dos.present || u.mom.present))
  {
    marked := [];
    for i := 0 to |rows|
      invariant |marked| == i && forall k :: 0 <= k < i ==> marked[k] == Marked(rows[k])
    {
      var u := rows[i];
      marked := marked + [u.(live := u.canonical && (u.mas.present || u.dos.present || u.mom.present))];
    }
  }

  // ----------------------------------------------------------------------
  // The shuffle

  /** A Fisher-Yates order of the positions, then one pass; any draws give a rearrangement. */
  method ComposedShuffle(rows: seq<UnionRow>, tape: Tape) returns (out: seq<UnionRow>, ghost order: seq<int>)
    requires rows != []
    ensures multiset(out) == multiset(rows)
    ensures |out| == |rows| && IsPermutation(order, |rows|) && forall k :: 0 <= k < |out| ==> out[k] == rows[order[k]]
  {
    var n := |rows|;
    var perm := RandomPermutation(n, tape);
    order := perm;
    out := [];
    for k := 0 to n
      invariant |out| == k && forall m :: 0 <= m < k ==> out[m] == rows[perm[m]]
    {
      out := out + [rows[perm[k]]];
    }
    IndexedPermutes(rows, perm, out);
  }

  // ----------------------------------------------------------------------
  // The pipeline

  /** The three parties' bins b, one after the other. */
  ghost predicate Gathered(bin: seq<Row>, inputs: seq<seq<Row>>, b: nat, capP: nat)
    requires |inputs| == 3
  {
    && |bin| == 3 * capP
    && PackedBin(bin[..capP], 0, inputs[0], b, capP)
    && PackedBin(bin[capP..2 * capP], 1, inputs[1], b, capP)
    && PackedBin(bin[2 * capP..], 2, inputs[2], b, capP)
  }

  /** All parties' real rows of bin b. */
  function RealRows(inputs: seq<seq<Row>>, b: nat): seq<Row>
    requires |inputs| == 3
  {
    Select(inputs[0], InBin(b)) + Select(inputs[1], InBin(b)) + Select(inputs[2], InBin(b))
  }

  /** One row per distinct real key of bin b. */
  function IdealBin(inputs: seq<seq<Row>>, b: nat): seq<UnionRow>
    requires |inputs| == 3
  {
    Map(KeysOf(RealRows(inputs, b)), Ideal(RealRows(inputs, b), b))
  }

  /** The ideal functionality's rows for the first n bins. */
  function IdealTable(inputs: seq<seq<Row>>, n: nat): seq<UnionRow>
    requires |inputs| == 3
  {
    if n == 0 then [] else IdealTable(inputs, n - 1) + IdealBin(inputs, n - 1)
  }

  function MergedBin(bin: seq<Row>): seq<UnionRow> {
    Map(Merged(StableSorted(bin)), MarkAll())
  }

  lemma PackedBinShape(bin: seq<Row>, source: nat, rows: seq<Row>, b: nat, params: BinParams)
    requires Accepted(source, rows, params) && PackedBin(bin, source, rows, b, params.capP) && source <= 2
    requires forall i :: 0 <= i < |rows| ==> rows[i].key <= MAX_KEY
    ensures Keyed(bin) && Packed(bin) && forall i :: 0 <= i < |bin| ==> bin[i].bin == b
  {
    var mine := Select(rows, InBin(b));
    SelectCount(rows, InBin(b));
    forall i | 0 <= i < |bin|
      ensures bin[i].bin == b && bin[i].key <= MAX_KEY && bin[i].source == source && bin[i].memb <= 1
    {
      if i < |mine| {
        assert bin[i] == mine[i] && mine[i] in rows;
      }
    }
  }

  lemma ThreePacked(x: seq<Row>, y: seq<Row>, z: seq<Row>, b: nat)
    requires Keyed(x) && Packed(x) && Keyed(y) && Packed(y) && Keyed(z) && Packed(z)
    requires forall i :: 0 <= i < |x| ==> x[i].bin == b
    requires forall i :: 0 <= i < |y| ==> y[i].bin == b
    requires forall i :: 0 <= i < |z| ==> z[i].bin == b
    ensures Keyed(x + y + z) && Packed(x + y + z) && forall i :: 0 <= i < |x + y + z| ==> (x + y + z)[i].bin == b
  {
  }

  /** Selecting a real row ignores the dummies. */
  lemma PackedSelects(bin: seq<Row>, source: nat, rows: seq<Row>, b: nat, capP: nat, c: nat, key: nat)
    requires PackedBin(bin, source, rows, b, capP)
    ensures Select(bin, IsRealOf(c, key)) == Select(Select(rows, InBin(b)), IsRealOf(c, key))
  {
    hide Select;
    SelectBetween(bin, 0, |Select(rows, InBin(b))|, IsRealOf(c, key));
  }

  lemma GatheredSelects(bin: seq<Row>, inputs: seq<seq<Row>>, b: nat, capP: nat, c: nat, key: nat)
    requires |inputs| == 3 && Gathered(bin, inputs, b, capP)
    ensures Select(bin, IsRealOf(c, key)) == Select(RealRows(inputs, b), IsRealOf(c, key))
  {
    hide Select, PackedBin;
    var f := IsRealOf(c, key);
    var x, y, z := bin[..capP], bin[capP..2 * capP], bin[2 * capP..];
    var x', y', z' := Select(inputs[0], InBin(b)), Select(inputs[1], InBin(b)), Select(inputs[2], InBin(b));
    assert bin == x + y + z;
    SelectConcat(x + y, z, f);
    SelectConcat(x, y, f);
    SelectConcat(x' + y', z', f);
    SelectConcat(x', y', f);
    PackedSelects(x, 0, inputs[0], b, capP, c, key);
    PackedSelects(y, 1, inputs[1], b, capP, c, key);
    PackedSelects(z, 2, inputs[2], b, capP, c, key);
  }

  lemma GatheredIdeal(bin: seq<Row>, inputs: seq<seq<Row>>, b: nat, capP: nat, key: nat)
    requires |inputs| == 3 && Gathered(bin, inputs, b, capP)
    ensures IdealRow(bin, b, key) == IdealRow(RealRows(inputs, b), b, key)
  {
    hide Select, Conflict, Gathered, RealRows;
    GatheredSelects(bin, inputs, b, capP, 0, key);
    GatheredSelects(bin, inputs, b, capP, 1, key);
    GatheredSelects(bin, inputs, b, capP, 2, key);
  }

  lemma TwoHits(s: seq<Row>, i: nat, j: nat, f: Row -> bool)
    requires i < j < |s| && f(s[i]) && f(s[j])
    ensures |Select(s, f)| >= 2
  {
    SelectCount(s, f);
    CountAt(s, i, f);
    CountAt(s[..i] + s[i + 1..], j - 1, f);
  }

  lemma CleanPermuted(a: seq<Row>, b: seq<Row>)
    requires multiset(a) == multiset(b) && Clean(a) && Packed(a)
    ensures Clean(b) && Packed(b)
  {
    forall i | 0 <= i < |b| ensures b[i] in multiset(a) && b[i] in a {
      assert b[i] in multiset(b);
    }
    forall i, j | 0 <= i < j < |b| && b[i].memb == 1 && b[j].memb == 1 && b[i].key == b[j].key
      ensures b[i].source != b[j].source
    {
      if b[i].source == b[j].source {
        var f := IsRealOf(b[i].source, b[i].key);
        TwoHits(b, i, j, f);
        AtMostOne(a, b[i].source, b[i].key);
        SelectPermuted(a, b, f);
        assert false;
      }
    }
  }

  lemma SameBin(a: seq<Row>, c: seq<Row>, b: nat)
    requires multiset(a) == multiset(c) && forall i :: 0 <= i < |a| ==> a[i].bin == b
    ensures forall i :: 0 <= i < |c| ==> c[i].bin == b
  {
    forall i | 0 <= i < |c| ensures c[i].bin == b {
      assert c[i] in multiset(a);
      assert c[i] in a;
    }
  }

  /** The live keys of a sorted bin are the distinct real keys of the inputs. */
  lemma LiveKeys(s: seq<Row>, bin: seq<Row>, inputs: seq<seq<Row>>, b: nat, capP: nat)
    requires |inputs| == 3 && Gathered(bin, inputs, b, capP) && multiset(s) == multiset(bin)
    requires Packed(s) && Ordered(s) && Clean(s)
    requires forall i :: 0 <= i < |RealRows(inputs, b)| ==> RealRows(inputs, b)[i].memb == 1 && RealRows(inputs, b)[i].source <= 2
    ensures Firsts(s, |s|) == KeysOf(RealRows(inputs, b))
  {
    hide Select, Firsts, KeysOf, Gathered, Clean, Ordered;
    var reals := RealRows(inputs, b);
    FirstsIncreasing(s, |s|);
    KeysOfAscend(reals);
    forall k ensures k in Firsts(s, |s|) <==> k in KeysOf(reals) {
      if k in Firsts(s, |s|) {
        var m :| 0 <= m < |Firsts(s, |s|)| && Firsts(s, |s|)[m] == k;
        var j :| 0 <= j < |s| && s[j].memb == 1 && s[j].key == k;
        RealIsIn(s, j, bin, inputs, b, capP);
      }
      if k in KeysOf(reals) {
        var j :| 0 <= j < |reals| && reals[j].key == k;
        RealIsThere(reals, j, bin, s, inputs, b, capP);
      }
    }
    SameElements(Firsts(s, |s|), KeysOf(reals));
  }

  lemma RealIsIn(s: seq<Row>, j: nat, bin: seq<Row>, inputs: seq<seq<Row>>, b: nat, capP: nat)
    requires |inputs| == 3 && Gathered(bin, inputs, b, capP) && multiset(s) == multiset(bin)
    requires j < |s| && s[j].memb == 1
    ensures exists i :: 0 <= i < |RealRows(inputs, b)| && RealRows(inputs, b)[i].key == s[j].key
  {
    hide Select, Gathered;
    var f := IsRealOf(s[j].source, s[j].key);
    var reals := RealRows(inputs, b);
    assert s[j] in multiset(bin);
    var i :| 0 <= i < |bin| && bin[i] == s[j];
    SelectFinds(bin, i, f);
    GatheredSelects(bin, inputs, b, capP, s[j].source, s[j].key);
    SelectCount(reals, f);
    var hit := Select(reals, f)[0];
    assert hit in reals && hit.key == s[j].key;
  }

  lemma RealIsThere(reals: seq<Row>, j: nat, bin: seq<Row>, s: seq<Row>, inputs: seq<seq<Row>>, b: nat, capP: nat)
    requires |inputs| == 3 && Gathered(bin, inputs, b, capP) && multiset(s) == multiset(bin) && Packed(s)
    requires reals == RealRows(inputs, b) && j < |reals| && reals[j].memb == 1
    ensures reals[j].key in Firsts(s, |s|)
  {
    hide Select, Gathered, Firsts;
    var f := IsRealOf(reals[j].source, reals[j].key);
    SelectFinds(reals, j, f);
    GatheredSelects(bin, inputs, b, capP, reals[j].source, reals[j].key);
    SelectCount(bin, f);
    var hit := Select(bin, f)[0];
    assert hit in multiset(s);
    var i :| 0 <= i < |s| && s[i] == hit;
    FirstsComplete(s, |s|, i);
  }

  /** The live rows of a merged bin are the ideal rows of its keys, in ascending key order. */
  lemma BinIsIdeal(bin: seq<Row>, inputs: seq<seq<Row>>, b: nat, capP: nat)
    requires |inputs| == 3 && Gathered(bin, inputs, b, capP) && Packed(bin) && Clean(bin)
    requires forall i :: 0 <= i < |bin| ==> bin[i].bin == b
    requires forall i :: 0 <= i < |RealRows(inputs, b)| ==> RealRows(inputs, b)[i].memb == 1 && RealRows(inputs, b)[i].source <= 2
    ensures Select(MergedBin(bin), IsLive()) == IdealBin(inputs, b)
  {
    hide Select, StableSorted, Merged, Firsts, KeysOf, Gathered, IdealRow, RealRows;
    var s := StableSorted(bin);
    StableSortedSorts(bin);
    CleanPermuted(bin, s);
    SameBin(bin, s, b);
    hide Clean, Packed, Ordered;
    LiveRows(s, b, |s|);
    assert Merged(s)[..|s|] == Merged(s);
    LiveKeys(s, bin, inputs, b, capP);
    var keys := KeysOf(RealRows(inputs, b));
    forall m | 0 <= m < |keys| ensures Ideal(s, b)(keys[m]) == Ideal(RealRows(inputs, b), b)(keys[m]) {
      IdealPermuted(bin, s, b, keys[m]);
      GatheredIdeal(bin, inputs, b, capP, keys[m]);
    }
  }

  // ----------------------------------------------------------------------
  // The whole run

  ghost predicate Inputs(inputs: seq<seq<Row>>, params: BinParams) {
    && |inputs| == 3 && Accepted(0, inputs[0], params) && Accepted(1, inputs[1], params) && Accepted(2, inputs[2], params)
  }

  ghost predicate Keys64(rows: seq<Row>) {
    forall i :: 0 <= i < |rows| ==> rows[i].key <= MAX_KEY
  }

  lemma RealsAreReal(inputs: seq<seq<Row>>, params: BinParams, b: nat)
    requires Inputs(inputs, params)
    ensures forall i :: 0 <= i < |RealRows(inputs, b)| ==> RealRows(inputs, b)[i].memb == 1 && RealRows(inputs, b)[i].source <= 2
  {
    SelectCount(inputs[0], InBin(b));
    SelectCount(inputs[1], InBin(b));
    SelectCount(inputs[2], InBin(b));
  }

  /** What is known of each gathered bin before it is sorted. */
  ghost predicate GoodBin(bin: seq<Row>, inputs: seq<seq<Row>>, b: nat, params: BinParams)
    requires |inputs| == 3
  {
    Gathered(bin, inputs, b, params.capP) && Keyed(bin) && Packed(bin) && forall i :: 0 <= i < |bin| ==> bin[i].bin == b
  }

  lemma GatherBin(x: seq<Row>, y: seq<Row>, z: seq<Row>, inputs: seq<seq<Row>>, b: nat, params: BinParams)
    requires Inputs(inputs, params) && Keys64(inputs[0]) && Keys64(inputs[1]) && Keys64(inputs[2])
    requires PackedBin(x, 0, inputs[0], b, params.capP) && PackedBin(y, 1, inputs[1], b, params.capP)
    requires PackedBin(z, 2, inputs[2], b, params.capP)
    ensures GoodBin(x + y + z, inputs, b, params)
  {
    PackedBinShape(x, 0, inputs[0], b, params);
    PackedBinShape(y, 1, inputs[1], b, params);
    PackedBinShape(z, 2, inputs[2], b, params);
    ThreePacked(x, y, z, b);
    var bin, capP := x + y + z, params.capP;
    assert |x| == |y| == |z| == capP;
    assert bin[..capP] == x && bin[capP..2 * capP] == y && bin[2 * capP..] == z;
    hide PackedBin, Keyed, Packed;
  }

  /** Bin by bin, the live rows are those of the ideal functionality. */
  lemma NextBin(out: seq<UnionRow>, bin: seq<Row>, inputs: seq<seq<Row>>, b: nat, params: BinParams)
    requires Inputs(inputs, params) && GoodBin(bin, inputs, b, params) && Clean(bin)
    requires Select(Map(out, MarkAll()), IsLive()) == IdealTable(inputs, b)
    ensures Select(Map(out + Merged(StableSorted(bin)), MarkAll()), IsLive()) == IdealTable(inputs, b + 1)
  {
    assert |inputs| == 3;
    hide Select, IdealBin, Gathered, Packed, Clean, Keyed, StableSorted, Merged, Inputs;
    RealsAreReal(inputs, params, b);
    hide RealRows;
    BinIsIdeal(bin, inputs, b, params.capP);
    MapConcat(out, Merged(StableSorted(bin)), MarkAll());
    SelectConcat(Map(out, MarkAll()), MergedBin(bin), IsLive());
  }

  /** Every merged row of a bin that is live stands for a real row; every real row's key stays live. */
  ghost predicate BinLiveness(bin: seq<Row>) {
    var s := StableSorted(bin);
    && (forall i :: 0 <= i < |s| && Marked(MergeRow(s, i)).live ==> s[i].memb == 1)
    && forall j :: 0 <= j < |s| && s[j].memb == 1 ==>
         exists i :: 0 <= i <= j && s[i].memb == 1 && s[i].key == s[j].key && Marked(MergeRow(s, i)).live
  }

  lemma BinStaysLive(bin: seq<Row>)
    requires Packed(bin)
    ensures BinLiveness(bin) && |StableSorted(bin)| == |bin|
    ensures forall i :: 0 <= i < |StableSorted(bin)| ==> StableSorted(bin)[i].memb <= 1
  {
    StableSortedSorts(bin);
    var s := StableSorted(bin);
    hide StableSorted;
    assert |multiset(s)| == |multiset(bin)|;
    forall i | 0 <= i < |s| ensures s[i].memb <= 1 && (s[i].memb == 1 ==> s[i].source <= 2) {
      assert s[i] in multiset(bin);
      assert s[i] in bin;
    }
    LivenessHolds(s);
  }

  /** The merged rows of all bins, in order. */
  function TableOf(bins: seq<seq<Row>>): seq<UnionRow> {
    if bins == [] then [] else TableOf(bins[..|bins| - 1]) + Merged(StableSorted(bins[|bins| - 1]))
  }

  lemma TableSnoc(bins: seq<seq<Row>>, bin: seq<Row>)
    ensures TableOf(bins + [bin]) == TableOf(bins) + Merged(StableSorted(bin))
  {
    assert (bins + [bin])[..|bins|] == bins;
  }

  ghost predicate AllClean(bins: seq<seq<Row>>) {
    forall b :: 0 <= b < |bins| ==> Clean(bins[b])
  }

  /** What holds after the first bins: their shape, and the live rows so far. */
  ghost predicate Progress(bins: seq<seq<Row>>, inputs: seq<seq<Row>>, params: BinParams)
    requires |inputs| == 3
  {
    && (forall b :: 0 <= b < |bins| ==> GoodBin(bins[b], inputs, b, params) && BinLiveness(bins[b]))
    && |TableOf(bins)| == |bins| * (3 * params.capP)
    && (AllClean(bins) ==> Select(Map(TableOf(bins), MarkAll()), IsLive()) == IdealTable(inputs, |bins|))
  }

  lemma ProgressStep(bins: seq<seq<Row>>, bin: seq<Row>, inputs: seq<seq<Row>>, params: BinParams)
    requires Inputs(inputs, params) && Progress(bins, inputs, params) && GoodBin(bin, inputs, |bins|, params)
    ensures Progress(bins + [bin], inputs, params)
  {
    hide Inputs, GoodBin, BinLiveness, Packed, Clean, StableSorted, Select, IdealTable, Merged, TableOf, AllClean, Map, MarkAll;
    InputsAreThree(inputs, params);
    GoodBinShape(bin, inputs, |bins|, params);
    BinStaysLive(bin);
    StepSize(bins, bin, 3 * params.capP);
    if AllClean(bins + [bin]) {
      CleanSnoc(bins, bin);
      TableSnoc(bins, bin);
      NextBin(TableOf(bins), bin, inputs, |bins|, params);
    }
  }

  lemma InputsAreThree(inputs: seq<seq<Row>>, params: BinParams)
    requires Inputs(inputs, params)
    ensures |inputs| == 3
  {
  }

  lemma GoodBinShape(bin: seq<Row>, inputs: seq<seq<Row>>, b: nat, params: BinParams)
    requires |inputs| == 3 && GoodBin(bin, inputs, b, params)
    ensures Packed(bin) && |bin| == 3 * params.capP
  {
  }

  lemma StepSize(bins: seq<seq<Row>>, bin: seq<Row>, d: nat)
    requires |TableOf(bins)| == |bins| * d && |StableSorted(bin)| == d
    ensures |TableOf(bins + [bin])| == |bins + [bin]| * d
  {
    hide StableSorted, TableOf;
    TableSnoc(bins, bin);
    CountStep(|bins|, d);
  }

  lemma CountStep(n: nat, d: nat)
    ensures n * d + d == (n + 1) * d
  {
  }

  lemma CleanSnoc(bins: seq<seq<Row>>, bin: seq<Row>)
    requires AllClean(bins + [bin])
    ensures AllClean(bins) && Clean(bin)
  {
    hide Clean;
    var more := bins + [bin];
    forall b | 0 <= b < |bins| ensures Clean(bins[b]) {
      assert Clean(more[b]);
    }
    assert Clean(more[|bins|]);
  }

  lemma ProgressStart(inputs: seq<seq<Row>>, params: BinParams)
    requires |inputs| == 3
    ensures Progress([], inputs, params)
  {
    var none: seq<seq<Row>> := [];
    assert TableOf(none) == [];
    assert Map(TableOf(none), MarkAll()) == [];
  }

  // ----------------------------------------------------------------------
  // What a live row says of the inputs

  /** Row i of a party is its row for this bin and key. */
  ghost predicate Brings(rows: seq<Row>, b: nat, key: nat, i: nat) {
    i < |rows| && rows[i].bin == b && rows[i].key == key
  }

  ghost predicate BringsSome(rows: seq<Row>, b: nat, key: nat) {
    exists i: nat :: Brings(rows, b, key, i)
  }

  /** Present exactly when the party has a row for the bin and key, and then with that row's payload. */
  ghost predicate IsSeen(seen: Seen, rows: seq<Row>, b: nat, key: nat) {
    && (seen.present <==> BringsSome(rows, b, key))
    && (forall i: nat :: Brings(rows, b, key, i) ==> seen.payload == rows[i].payload)
  }

  /** Party c has row i for the bin and key, and no party before it has one. */
  ghost predicate First(inputs: seq<seq<Row>>, b: nat, key: nat, c: nat, i: nat) {
    c < |inputs| && Brings(inputs[c], b, key, i) && forall e :: 0 <= e < c ==> !BringsSome(inputs[e], b, key)
  }

  ghost predicate SectorsClash(inputs: seq<seq<Row>>, b: nat, key: nat) {
    exists c: nat, e: nat, i: nat, j: nat ::
      c < e < |inputs| && Brings(inputs[c], b, key, i) && Brings(inputs[e], b, key, j) && inputs[c][i].sector != inputs[e][j].sector
  }

  /**
   * The row stands for a key that some party brings: presence and payload of
   * each source, period and sector of the first one present, and the flag
   * exactly when two of them disagree on the sector.
   */
  ghost predicate IsAligned(u: UnionRow, inputs: seq<seq<Row>>, key: nat)
    requires |inputs| == 3
  {
    && IsSeen(u.mas, inputs[0], u.bin, key) && IsSeen(u.dos, inputs[1], u.bin, key) && IsSeen(u.mom, inputs[2], u.bin, key)
    && (exists c: nat, i: nat :: First(inputs, u.bin, key, c, i))
    && (forall c: nat, i: nat :: First(inputs, u.bin, key, c, i) ==>
          u.period == inputs[c][i].period && u.sector == inputs[c][i].sector)
    && (u.sectorConflict <==> SectorsClash(inputs, u.bin, key))
  }

  /** Each live row stands for its own key, and every row of every party below bin n has its live row. */
  ghost predicate Aligned(rows: seq<UnionRow>, keys: seq<nat>, inputs: seq<seq<Row>>, n: nat)
    requires |inputs| == 3
  {
    && |keys| == |rows|
    && (forall j :: 0 <= j < |rows| && rows[j].live ==> rows[j].bin < n && IsAligned(rows[j], inputs, keys[j]))
    && (forall i, j :: 0 <= i < j < |rows| && rows[i].live && rows[j].live ==> rows[i].bin != rows[j].bin || keys[i] != keys[j])
    && forall c: nat, i: nat :: c < 3 && i < |inputs[c]| && inputs[c][i].bin < n ==>
         HasLive(rows, keys, inputs[c][i].bin, inputs[c][i].key)
  }

  ghost predicate HasLive(rows: seq<UnionRow>, keys: seq<nat>, b: nat, key: nat)
    requires |keys| == |rows|
  {
    exists j :: 0 <= j < |rows| && rows[j].live && rows[j].bin == b && keys[j] == key
  }

  lemma SelectMember(s: seq<Row>, x: Row, f: Row -> bool)
    requires x in s && f(x)
    ensures x in Select(s, f)
  {
    SelectMultiset(s, f, x);
    assert x in multiset(s);
    assert x in multiset(Select(s, f));
  }

  lemma SelectSource(s: seq<Row>, x: Row, f: Row -> bool)
    requires x in Select(s, f)
    ensures x in s && f(x)
  {
    SelectCount(s, f);
  }

  /** The real rows of a bin are the parties' rows for it. */
  lemma RealsAre(inputs: seq<seq<Row>>, b: nat, x: Row)
    requires |inputs| == 3
    ensures x in RealRows(inputs, b) <==> exists c: nat, i: nat :: c < 3 && i < |inputs[c]| && inputs[c][i] == x && x.bin == b
  {
    hide Select;
    if x in RealRows(inputs, b) {
      var c: nat := if x in Select(inputs[0], InBin(b)) then 0 else if x in Select(inputs[1], InBin(b)) then 1 else 2;
      SelectSource(inputs[c], x, InBin(b));
      var i: nat :| i < |inputs[c]| && inputs[c][i] == x;
    }
    if c: nat, i: nat :| c < 3 && i < |inputs[c]| && inputs[c][i] == x && x.bin == b {
      SelectMember(inputs[c], x, InBin(b));
    }
  }

  lemma AcceptedRow(inputs: seq<seq<Row>>, params: BinParams, c: nat, i: nat)
    requires Inputs(inputs, params) && c < 3 && i < |inputs[c]|
    ensures inputs[c][i].memb == 1 && inputs[c][i].source == c
  {
    hide Select, BinCount, NoDuplicates;
    assert Accepted(c, inputs[c], params);
  }

  /** In a clean bin, selecting a source and key finds that party's row, or nothing. */
  lemma HitIs(inputs: seq<seq<Row>>, params: BinParams, b: nat, key: nat, c: nat)
    requires Inputs(inputs, params) && Clean(RealRows(inputs, b)) && c < 3
    ensures var m := Select(RealRows(inputs, b), IsRealOf(c, key));
            && |m| <= 1 && (m != [] <==> BringsSome(inputs[c], b, key))
            && forall i: nat :: Brings(inputs[c], b, key, i) ==> m == [inputs[c][i]]
  {
    assert |inputs| == 3;
    hide Select, Inputs, RealRows, Clean;
    var reals, f := RealRows(inputs, b), IsRealOf(c, key);
    var m := Select(reals, f);
    AtMostOne(reals, c, key);
    forall i: nat | Brings(inputs[c], b, key, i) ensures m == [inputs[c][i]] {
      AcceptedRow(inputs, params, c, i);
      RealsAre(inputs, b, inputs[c][i]);
      SelectMember(reals, inputs[c][i], f);
    }
    if m != [] {
      SelectSource(reals, m[0], f);
      RealsAre(inputs, b, m[0]);
      var e: nat, i: nat :| e < 3 && i < |inputs[e]| && inputs[e][i] == m[0] && m[0].bin == b;
      AcceptedRow(inputs, params, e, i);
      assert Brings(inputs[c], b, key, i);
    }
  }

  lemma SeenIs(m: seq<Row>, rows: seq<Row>, b: nat, key: nat)
    requires m != [] <==> BringsSome(rows, b, key)
    requires forall i: nat :: Brings(rows, b, key, i) ==> m == [rows[i]]
    ensures IsSeen(SeenOf(m), rows, b, key)
  {
  }

  /** The conflict flag of at most three rows, one a source. */
  lemma ConflictOf(m0: seq<Row>, m1: seq<Row>, m2: seq<Row>)
    requires |m0| <= 1 && |m1| <= 1 && |m2| <= 1
    ensures Conflict(m0 + m1 + m2) <==>
              || (m0 != [] && m1 != [] && m0[0].sector != m1[0].sector)
              || (m0 != [] && m2 != [] && m0[0].sector != m2[0].sector)
              || (m1 != [] && m2 != [] && m1[0].sector != m2[0].sector)
  {
    var saw := m0 + m1 + m2;
    if m0 == [] {
      assert saw == m1 + m2;
      if m1 != [] && m2 != [] {
        assert saw[0] == m1[0] && saw[1] == m2[0];
      }
    } else {
      assert saw[0] == m0[0];
      if m1 != [] {
        assert saw[1] == m1[0];
        if m2 != [] {
          assert saw[2] == m2[0];
        }
      } else if m2 != [] {
        assert saw == m0 + m2;
        assert saw[1] == m2[0];
      }
    }
  }

  ghost predicate Hits(inputs: seq<seq<Row>>, b: nat, key: nat, c: nat, m: seq<Row>)
    requires c < |inputs|
  {
    && |m| <= 1 && (m != [] <==> BringsSome(inputs[c], b, key))
    && forall i: nat :: Brings(inputs[c], b, key, i) ==> m == [inputs[c][i]]
  }

  lemma ClashIs(inputs: seq<seq<Row>>, b: nat, key: nat, m0: seq<Row>, m1: seq<Row>, m2: seq<Row>)
    requires |inputs| == 3 && Hits(inputs, b, key, 0, m0) && Hits(inputs, b, key, 1, m1) && Hits(inputs, b, key, 2, m2)
    ensures Conflict(m0 + m1 + m2) <==> SectorsClash(inputs, b, key)
  {
    ConflictOf(m0, m1, m2);
    hide Conflict;
    if SectorsClash(inputs, b, key) {
      var c: nat, e: nat, i: nat, j: nat :| c < e < 3 && Brings(inputs[c], b, key, i) && Brings(inputs[e], b, key, j)
                                             && inputs[c][i].sector != inputs[e][j].sector;
      assert c == 0 || c == 1;
      assert e == 1 || e == 2;
    }
    if Conflict(m0 + m1 + m2) {
      if m0 != [] && m1 != [] && m0[0].sector != m1[0].sector {
        TwoClash(inputs, b, key, 0, 1, m0, m1);
      } else if m0 != [] && m2 != [] && m0[0].sector != m2[0].sector {
        TwoClash(inputs, b, key, 0, 2, m0, m2);
      } else {
        TwoClash(inputs, b, key, 1, 2, m1, m2);
      }
    }
  }

  lemma TwoClash(inputs: seq<seq<Row>>, b: nat, key: nat, c: nat, e: nat, m: seq<Row>, m': seq<Row>)
    requires c < e < |inputs| && Hits(inputs, b, key, c, m) && Hits(inputs, b, key, e, m')
    requires m != [] && m' != [] && m[0].sector != m'[0].sector
    ensures SectorsClash(inputs, b, key)
  {
    var i: nat :| Brings(inputs[c], b, key, i);
    var j: nat :| Brings(inputs[e], b, key, j);
    assert inputs[c][i] == m[0] && inputs[e][j] == m'[0];
  }

  lemma FirstIs(inputs: seq<seq<Row>>, b: nat, key: nat, m0: seq<Row>, m1: seq<Row>, m2: seq<Row>)
    requires |inputs| == 3 && Hits(inputs, b, key, 0, m0) && Hits(inputs, b, key, 1, m1) && Hits(inputs, b, key, 2, m2)
    requires m0 + m1 + m2 != []
    ensures exists c: nat, i: nat :: First(inputs, b, key, c, i)
    ensures forall c: nat, i: nat :: First(inputs, b, key, c, i) ==> inputs[c][i] == (m0 + m1 + m2)[0]
  {
    var saw := m0 + m1 + m2;
    var c: nat := if m0 != [] then 0 else if m1 != [] then 1 else 2;
    assert saw[0] == if c == 0 then m0[0] else if c == 1 then m1[0] else m2[0];
    assert BringsSome(inputs[c], b, key);
    var i: nat :| Brings(inputs[c], b, key, i);
    assert First(inputs, b, key, c, i);
    forall e: nat, j: nat | First(inputs, b, key, e, j) ensures inputs[e][j] == saw[0] {
      assert BringsSome(inputs[e], b, key);
      assert e == 0 || e == 1 || e == 2;
    }
  }

  /** A source that selects what the party brings is seen as the inputs say. */
  lemma HitIsSeen(inputs: seq<seq<Row>>, params: BinParams, b: nat, key: nat, c: nat)
    requires |inputs| == 3 && Inputs(inputs, params) && Clean(RealRows(inputs, b)) && c < 3
    ensures var m := Select(RealRows(inputs, b), IsRealOf(c, key));
            Hits(inputs, b, key, c, m) && IsSeen(SeenOf(m), inputs[c], b, key)
  {
    hide Select, Inputs, RealRows, Clean, BringsSome, IsSeen, SeenOf, IsRealOf;
    HitIs(inputs, params, b, key, c);
    SeenIs(Select(RealRows(inputs, b), IsRealOf(c, key)), inputs[c], b, key);
  }

  /** The ideal row of a key that some party brings says what the inputs say. */
  lemma IdealIsAligned(inputs: seq<seq<Row>>, params: BinParams, b: nat, key: nat)
    requires Inputs(inputs, params) && Clean(RealRows(inputs, b))
    requires exists c: nat :: c < 3 && BringsSome(inputs[c], b, key)
    ensures IsAligned(IdealRow(RealRows(inputs, b), b, key), inputs, key)
  {
    assert |inputs| == 3;
    hide Select, Inputs, RealRows, Clean, Conflict, Hits, SectorsClash, First, IsSeen, SeenOf, IsRealOf, IdealRow, IsAligned;
    hide BringsSome;
    var reals := RealRows(inputs, b);
    var m0, m1, m2 := Select(reals, IsRealOf(0, key)), Select(reals, IsRealOf(1, key)), Select(reals, IsRealOf(2, key));
    HitIsSeen(inputs, params, b, key, 0);
    HitIsSeen(inputs, params, b, key, 1);
    HitIsSeen(inputs, params, b, key, 2);
    SomeHit(inputs, b, key, m0, m1, m2);
    ClashIs(inputs, b, key, m0, m1, m2);
    FirstIs(inputs, b, key, m0, m1, m2);
    IdealPieces(reals, b, key);
    Aligns(IdealRow(reals, b, key), inputs, key, m0, m1, m2, (m0 + m1 + m2)[0]);
  }

  lemma Aligns(u: UnionRow, inputs: seq<seq<Row>>, key: nat, m0: seq<Row>, m1: seq<Row>, m2: seq<Row>, first: Row)
    requires |inputs| == 3 && u.mas == SeenOf(m0) && u.dos == SeenOf(m1) && u.mom == SeenOf(m2)
    requires IsSeen(SeenOf(m0), inputs[0], u.bin, key) && IsSeen(SeenOf(m1), inputs[1], u.bin, key)
    requires IsSeen(SeenOf(m2), inputs[2], u.bin, key)
    requires u.sectorConflict == SectorsClash(inputs, u.bin, key) && u.period == first.period && u.sector == first.sector
    requires exists c: nat, i: nat :: First(inputs, u.bin, key, c, i)
    requires forall c: nat, i: nat :: First(inputs, u.bin, key, c, i) ==> inputs[c][i] == first
    ensures IsAligned(u, inputs, key)
  {
    hide SeenOf, IsSeen, SectorsClash;
  }

  lemma SomeHit(inputs: seq<seq<Row>>, b: nat, key: nat, m0: seq<Row>, m1: seq<Row>, m2: seq<Row>)
    requires |inputs| == 3 && Hits(inputs, b, key, 0, m0) && Hits(inputs, b, key, 1, m1) && Hits(inputs, b, key, 2, m2)
    requires exists c: nat :: c < 3 && BringsSome(inputs[c], b, key)
    ensures m0 + m1 + m2 != []
  {
    var c: nat :| c < 3 && BringsSome(inputs[c], b, key);
    assert c == 0 || c == 1 || c == 2;
  }

  lemma IdealPieces(s: seq<Row>, b: nat, key: nat)
    ensures var m0, m1, m2 := Select(s, IsRealOf(0, key)), Select(s, IsRealOf(1, key)), Select(s, IsRealOf(2, key));
            var u, saw := IdealRow(s, b, key), m0 + m1 + m2;
            && u.bin == b && u.mas == SeenOf(m0) && u.dos == SeenOf(m1) && u.mom == SeenOf(m2)
            && u.sectorConflict == Conflict(saw) && (saw != [] ==> u.period == saw[0].period && u.sector == saw[0].sector)
  {
    hide Select, SeenOf, Conflict, IsRealOf;
  }

  function KeyOfRow(): Row -> nat {
    (r: Row) => r.key
  }

  /** The key each merged row was made for. */
  function KeysTable(bins: seq<seq<Row>>): seq<nat> {
    if bins == [] then [] else KeysTable(bins[..|bins| - 1]) + Map(StableSorted(bins[|bins| - 1]), KeyOfRow())
  }

  /** A real row of a gathered bin stands for a party's row. */
  lemma RealIsBrought(s: seq<Row>, i: nat, bin: seq<Row>, inputs: seq<seq<Row>>, params: BinParams, b: nat)
    requires Inputs(inputs, params) && GoodBin(bin, inputs, b, params) && multiset(s) == multiset(bin) && i < |s| && s[i].memb == 1
    ensures exists c: nat :: c < 3 && BringsSome(inputs[c], b, s[i].key)
  {
    assert |inputs| == 3;
    hide Select, Gathered, RealRows, Inputs;
    RealIsIn(s, i, bin, inputs, b, params.capP);
    var j :| 0 <= j < |RealRows(inputs, b)| && RealRows(inputs, b)[j].key == s[i].key;
    var x := RealRows(inputs, b)[j];
    RealsAre(inputs, b, x);
    var c: nat, k: nat :| c < 3 && k < |inputs[c]| && inputs[c][k] == x && x.bin == b;
    assert Brings(inputs[c], b, s[i].key, k);
  }

  lemma RealsClean(bin: seq<Row>, inputs: seq<seq<Row>>, params: BinParams, b: nat)
    requires Inputs(inputs, params) && GoodBin(bin, inputs, b, params) && Clean(bin)
    ensures Clean(RealRows(inputs, b))
  {
    assert |inputs| == 3;
    hide Select, Gathered, RealRows, Inputs, Packed, Keyed;
    RealsAreReal(inputs, params, b);
    var reals := RealRows(inputs, b);
    forall i, j | 0 <= i < j < |reals| && reals[i].key == reals[j].key ensures reals[i].source != reals[j].source {
      if reals[i].source == reals[j].source {
        var f := IsRealOf(reals[i].source, reals[i].key);
        TwoHits(reals, i, j, f);
        AtMostOne(bin, reals[i].source, reals[i].key);
        GatheredSelects(bin, inputs, b, params.capP, reals[i].source, reals[i].key);
        assert false;
      }
    }
  }

  /** The live row at a position of a clean bin is aligned with the inputs under that position's key. */
  lemma LiveIsAligned(bin: seq<Row>, inputs: seq<seq<Row>>, params: BinParams, b: nat, i: nat)
    requires Inputs(inputs, params) && GoodBin(bin, inputs, b, params) && Clean(bin) && i < |StableSorted(bin)|
    requires Marked(MergeRow(StableSorted(bin), i)).live
    ensures var s := StableSorted(bin); var u := Marked(MergeRow(s, i));
            u.bin == b && IsAligned(u, inputs, s[i].key) && s[i].memb == 1 && IsFirst(s, i)
  {
    assert |inputs| == 3;
    hide Select, StableSorted, Gathered, RealRows, Inputs, IsAligned, MergeRow, Marked, IdealRow, IsFirst;
    var s := StableSorted(bin);
    StableSortedSorts(bin);
    CleanPermuted(bin, s);
    SameBin(bin, s, b);
    LiveIffFirst(s, i);
    FirstIsIdeal(s, i);
    IdealPermuted(bin, s, b, s[i].key);
    GatheredIdeal(bin, inputs, b, params.capP, s[i].key);
    RealsClean(bin, inputs, params, b);
    RealIsBrought(s, i, bin, inputs, params, b);
    IdealIsAligned(inputs, params, b, s[i].key);
    IdealBinIs(RealRows(inputs, b), b, s[i].key);
  }

  lemma IdealBinIs(s: seq<Row>, b: nat, key: nat)
    ensures IdealRow(s, b, key).bin == b
  {
  }

  /** A party's row of the bin has its live row there. */
  lemma BroughtIsLive(bin: seq<Row>, inputs: seq<seq<Row>>, params: BinParams, b: nat, c: nat, i: nat)
    requires Inputs(inputs, params) && GoodBin(bin, inputs, b, params) && c < 3 && i < |inputs[c]| && inputs[c][i].bin == b
    ensures exists j :: 0 <= j < |StableSorted(bin)| && Marked(MergeRow(StableSorted(bin), j)).live
                        && StableSorted(bin)[j].key == inputs[c][i].key
  {
    assert |inputs| == 3;
    hide Select, StableSorted, GoodBin, RealRows, Inputs, MergeRow, Marked, BinLiveness, IsRealOf;
    var s, x := StableSorted(bin), inputs[c][i];
    BinLives(bin, inputs, params, b);
    var p := BroughtIsSorted(bin, inputs, params, b, c, i);
    LivesBefore(bin, p);
  }

  lemma BinLives(bin: seq<Row>, inputs: seq<seq<Row>>, params: BinParams, b: nat)
    requires |inputs| == 3 && GoodBin(bin, inputs, b, params)
    ensures BinLiveness(bin)
  {
    BinStaysLive(bin);
  }

  lemma LivesBefore(bin: seq<Row>, p: nat)
    requires BinLiveness(bin) && p < |StableSorted(bin)| && StableSorted(bin)[p].memb == 1
    ensures exists j :: 0 <= j < |StableSorted(bin)| && Marked(MergeRow(StableSorted(bin), j)).live
                        && StableSorted(bin)[j].key == StableSorted(bin)[p].key
  {
    hide StableSorted, MergeRow, Marked;
    var s := StableSorted(bin);
    var j :| 0 <= j <= p && s[j].memb == 1 && s[j].key == s[p].key && Marked(MergeRow(s, j)).live;
  }

  /** A party's row is somewhere in the sorted bin. */
  lemma BroughtIsSorted(bin: seq<Row>, inputs: seq<seq<Row>>, params: BinParams, b: nat, c: nat, i: nat) returns (p: nat)
    requires Inputs(inputs, params) && c < 3 && i < |inputs[c]|
    requires GoodBin(bin, inputs, b, params) && inputs[c][i].bin == b
    ensures p < |StableSorted(bin)| && StableSorted(bin)[p].memb == 1 && StableSorted(bin)[p].key == inputs[c][i].key
  {
    assert |inputs| == 3;
    hide Select, StableSorted, Gathered, RealRows, Inputs, Packed, Keyed;
    var s, x := StableSorted(bin), inputs[c][i];
    StableSortedSorts(bin);
    AcceptedRow(inputs, params, c, i);
    RealsAre(inputs, b, x);
    var f := IsRealOf(c, x.key);
    var k :| 0 <= k < |RealRows(inputs, b)| && RealRows(inputs, b)[k] == x;
    SelectFinds(RealRows(inputs, b), k, f);
    GatheredSelects(bin, inputs, b, params.capP, c, x.key);
    SelectCount(bin, f);
    var hit := Select(bin, f)[0];
    assert hit in multiset(bin);
    assert hit in multiset(s);
    p :| 0 <= p < |s| && s[p] == hit;
  }

  /** One clean bin: its live rows, their keys, and the rows they stand for. */
  lemma BinIsAligned(bin: seq<Row>, inputs: seq<seq<Row>>, params: BinParams, b: nat)
    requires Inputs(inputs, params) && GoodBin(bin, inputs, b, params) && Clean(bin)
    ensures |inputs| == 3
    ensures var rows, keys := MergedBin(bin), Map(StableSorted(bin), KeyOfRow());
            && |keys| == |rows|
            && (forall j :: 0 <= j < |rows| && rows[j].live ==> rows[j].bin == b && IsAligned(rows[j], inputs, keys[j]))
            && (forall i, j :: 0 <= i < j < |rows| && rows[i].live && rows[j].live ==> keys[i] != keys[j])
            && forall c: nat, i: nat :: c < 3 && i < |inputs[c]| && inputs[c][i].bin == b ==>
                 HasLive(rows, keys, b, inputs[c][i].key)
  {
    assert |inputs| == 3;
    hide Select, StableSorted, GoodBin, Inputs, IsAligned, MergeRow, Marked, IsFirst;
    var s := StableSorted(bin);
    var rows, keys := MergedBin(bin), Map(s, KeyOfRow());
    assert forall j :: 0 <= j < |rows| ==> rows[j] == Marked(MergeRow(s, j)) && keys[j] == s[j].key;
    forall j | 0 <= j < |rows| && rows[j].live ensures rows[j].bin == b && IsAligned(rows[j], inputs, keys[j]) {
      LiveIsAligned(bin, inputs, params, b, j);
    }
    forall i, j | 0 <= i < j < |rows| && rows[i].live && rows[j].live ensures keys[i] != keys[j] {
      LiveIsAligned(bin, inputs, params, b, i);
      LiveIsAligned(bin, inputs, params, b, j);
      SortedClean(bin, inputs, params, b);
      NoneBefore(s, j, i);
    }
    forall c: nat, i: nat | c < 3 && i < |inputs[c]| && inputs[c][i].bin == b ensures HasLive(rows, keys, b, inputs[c][i].key) {
      BroughtIsLive(bin, inputs, params, b, c, i);
      var j :| 0 <= j < |s| && Marked(MergeRow(s, j)).live && s[j].key == inputs[c][i].key;
      assert rows[j].live && keys[j] == inputs[c][i].key;
    }
  }

  lemma SortedClean(bin: seq<Row>, inputs: seq<seq<Row>>, params: BinParams, b: nat)
    requires |inputs| == 3 && GoodBin(bin, inputs, b, params) && Clean(bin)
    ensures Packed(StableSorted(bin)) && Ordered(StableSorted(bin)) && Clean(StableSorted(bin))
  {
    hide StableSorted, Gathered;
    StableSortedSorts(bin);
    CleanPermuted(bin, StableSorted(bin));
  }

  /** Two tables, the second all in bin n. */
  lemma AlignedJoins(r: seq<UnionRow>, k: seq<nat>, r': seq<UnionRow>, k': seq<nat>, inputs: seq<seq<Row>>, n: nat)
    requires |inputs| == 3 && Aligned(r, k, inputs, n) && |k'| == |r'|
    requires forall j :: 0 <= j < |r'| && r'[j].live ==> r'[j].bin == n && IsAligned(r'[j], inputs, k'[j])
    requires forall i, j :: 0 <= i < j < |r'| && r'[i].live && r'[j].live ==> k'[i] != k'[j]
    requires forall c: nat, i: nat :: c < 3 && i < |inputs[c]| && inputs[c][i].bin == n ==> HasLive(r', k', n, inputs[c][i].key)
    ensures Aligned(r + r', k + k', inputs, n + 1)
  {
    hide IsAligned;
    var rows, keys, m := r + r', k + k', |r|;
    forall j | 0 <= j < |rows| && rows[j].live ensures rows[j].bin < n + 1 && IsAligned(rows[j], inputs, keys[j]) {
      assert j >= m ==> rows[j] == r'[j - m] && keys[j] == k'[j - m];
    }
    forall i, j | 0 <= i < j < |rows| && rows[i].live && rows[j].live ensures rows[i].bin != rows[j].bin || keys[i] != keys[j] {
      assert j >= m ==> rows[j] == r'[j - m] && keys[j] == k'[j - m];
      assert i >= m ==> rows[i] == r'[i - m] && keys[i] == k'[i - m];
    }
    forall c: nat, i: nat | c < 3 && i < |inputs[c]| && inputs[c][i].bin < n + 1
      ensures HasLive(rows, keys, inputs[c][i].bin, inputs[c][i].key)
    {
      var b, key := inputs[c][i].bin, inputs[c][i].key;
      if b < n {
        var j :| 0 <= j < |r| && r[j].live && r[j].bin == b && k[j] == key;
        assert rows[j] == r[j] && keys[j] == key;
      } else {
        var j :| 0 <= j < |r'| && r'[j].live && r'[j].bin == b && k'[j] == key;
        assert rows[m + j] == r'[j] && keys[m + j] == key;
      }
    }
  }

  /** The merged and marked rows of clean bins say what the inputs say. */
  lemma {:induction false} TableIsAligned(bins: seq<seq<Row>>, inputs: seq<seq<Row>>, params: BinParams)
    requires Inputs(inputs, params) && AllClean(bins)
    requires |inputs| == 3 && forall b :: 0 <= b < |bins| ==> GoodBin(bins[b], inputs, b, params)
    ensures Aligned(Map(TableOf(bins), MarkAll()), KeysTable(bins), inputs, |bins|)
    decreases |bins|
  {
    hide Inputs, GoodBin, Clean, StableSorted, Merged, IsAligned, MarkAll, Aligned, KeyOfRow;
    if bins == [] {
      NothingAligned(inputs);
    } else {
      var n := |bins| - 1;
      var front, bin := bins[..n], bins[n];
      TableIsAligned(front, inputs, params);
      BinIsAligned(bin, inputs, params, n);
      MapConcat(TableOf(front), Merged(StableSorted(bin)), MarkAll());
      AlignedJoins(Map(TableOf(front), MarkAll()), KeysTable(front), MergedBin(bin), Map(StableSorted(bin), KeyOfRow()), inputs, n);
    }
  }

  lemma NothingAligned(inputs: seq<seq<Row>>)
    requires |inputs| == 3
    ensures Aligned(Map(TableOf([]), MarkAll()), KeysTable([]), inputs, 0)
  {
  }

  /** Some place of the permutation holds the index. */
  lemma Reached(p: seq<int>, n: nat, j: nat) returns (m: nat)
    requires IsPermutation(p, n) && j < n
    ensures m < n && p[m] == j
  {
    IndexedPermutes(Identity(n), p, p);
    assert Identity(n)[j] == j;
    assert j in multiset(Identity(n));
    assert j in multiset(p);
    m :| 0 <= m < n && p[m] == j;
  }

  function Reordered(keys: seq<nat>, order: seq<int>): (k: seq<nat>)
    requires Positions(order, |keys|)
    ensures |k| == |keys| && forall i :: 0 <= i < |k| ==> k[i] == keys[order[i]]
  {
    seq(|keys|, i requires 0 <= i < |keys| => keys[order[i]])
  }

  /** Reordering the rows and their keys together changes nothing. */
  lemma AlignedReorders(rows: seq<UnionRow>, keys: seq<nat>, out: seq<UnionRow>, order: seq<int>, inputs: seq<seq<Row>>, n: nat)
    requires |inputs| == 3 && Aligned(rows, keys, inputs, n) && IsPermutation(order, |rows|) && |out| == |rows|
    requires forall k :: 0 <= k < |out| ==> out[k] == rows[order[k]]
    ensures Aligned(out, Reordered(keys, order), inputs, n)
  {
    hide IsAligned;
    var k' := Reordered(keys, order);
    forall i, j | 0 <= i < j < |out| && out[i].live && out[j].live ensures out[i].bin != out[j].bin || k'[i] != k'[j] {
      assert order[i] != order[j];
    }
    forall c: nat, i: nat | c < 3 && i < |inputs[c]| && inputs[c][i].bin < n
      ensures HasLive(out, k', inputs[c][i].bin, inputs[c][i].key)
    {
      var j :| 0 <= j < |rows| && rows[j].live && rows[j].bin == inputs[c][i].bin && keys[j] == inputs[c][i].key;
      var m := Reached(order, |rows|, j);
      assert out[m] == rows[j] && k'[m] == keys[j];
    }
  }

  /**
   * Packs each party's rows, merges bin by bin, marks and shuffles. The table
   * has 3 cap_P 2^beta rows; only real rows are live and no real key is lost;
   * and when no dummy took a real key and no source repeats one, the live
   * rows are exactly the ideal functionality's, whatever the shuffle: each
   * one stands for a key of its bin and carries what the parties' rows of
   * that key say, no two stand for the same key, and none is missing.
   */
  method RunFPsa(mas: seq<Row>, dos: seq<Row>, mom: seq<Row>, params: BinParams, tapes: nat -> Tape)
    returns (r: Result<seq<UnionRow>>, ghost bins: seq<seq<Row>>, ghost keys: seq<nat>)
    requires Keys64(mas) && Keys64(dos) && Keys64(mom) && params.capP > 0
    ensures r.Success? <==> Inputs([mas, dos, mom], params)
    ensures r.Success? ==> |bins| == Pow2(params.beta) && |r.value| == Pow2(params.beta) * (3 * params.capP)
    ensures r.Success? ==>
              forall b :: 0 <= b < |bins| ==> GoodBin(bins[b], [mas, dos, mom], b, params) && BinLiveness(bins[b])
    ensures r.Success? ==> multiset(r.value) == multiset(Map(TableOf(bins), MarkAll()))
    ensures r.Success? && AllClean(bins) ==>
              multiset(Select(r.value, IsLive())) == multiset(IdealTable([mas, dos, mom], Pow2(params.beta)))
    ensures r.Success? && AllClean(bins) ==> Aligned(r.value, keys, [mas, dos, mom], Pow2(params.beta))
  {
    hide Accepted, Select, Progress, GoodBin, BinLiveness, IdealTable, PackedBin, Keys64, StableSorted, BinCount, Aligned, AllClean,
         KeysTable, Reordered;
    BinsAre(params.beta);
    bins, keys := [], [];
    var tMas :- PackBins(0, mas, params, tapes(0));
    var tDos :- PackBins(1, dos, params, tapes(1));
    var tMom :- PackBins(2, mom, params, tapes(2));
    ghost var inputs := [mas, dos, mom];
    var unionOut: seq<UnionRow> := [];
    ProgressStart(inputs, params);
    for b := 0 to BinCount(params.beta)
      invariant |bins| == b && Progress(bins, inputs, params) && unionOut == TableOf(bins)
    {
      var binAll := tMas[b] + tDos[b] + tMom[b];
      GatherBin(tMas[b], tDos[b], tMom[b], inputs, b, params);
      BinIsMergeable(binAll, inputs, b, params);
      var sorted := WithinBinSort(binAll);
      var merged := WindowedMerge(sorted);
      ProgressStep(bins, binAll, inputs, params);
      TableSnoc(bins, binAll);
      unionOut := unionOut + merged;
      bins := bins + [binAll];
    }
    ProgressEnd(bins, inputs, params);
    var marked := MarkLive(unionOut);
    RowsToShuffle(marked, |bins|, params.capP);
    var table, order := ComposedShuffle(marked, tapes(3));
    if AllClean(bins) {
      TableIsAligned(bins, inputs, params);
      AlignedSize(marked, KeysTable(bins), inputs, |bins|);
      keys := Reordered(KeysTable(bins), order);
      AlignedReorders(marked, KeysTable(bins), table, order, inputs, |bins|);
    }
    SelectRearranged(table, marked, IsLive());
    SameLength(table, marked);
    r := Success(table);
  }

  lemma BinsAre(beta: nat)
    ensures BinCount(beta) == Pow2(beta)
  {
  }

  lemma AlignedSize(rows: seq<UnionRow>, keys: seq<nat>, inputs: seq<seq<Row>>, n: nat)
    requires |inputs| == 3 && Aligned(rows, keys, inputs, n)
    ensures |keys| == |rows|
  {
  }

  lemma BinIsMergeable(bin: seq<Row>, inputs: seq<seq<Row>>, b: nat, params: BinParams)
    requires |inputs| == 3 && GoodBin(bin, inputs, b, params)
    ensures Keyed(bin) && forall i :: 0 <= i < |StableSorted(bin)| ==> StableSorted(bin)[i].memb <= 1
  {
    BinStaysLive(bin);
  }

  lemma ProgressEnd(bins: seq<seq<Row>>, inputs: seq<seq<Row>>, params: BinParams)
    requires |inputs| == 3 && Progress(bins, inputs, params)
    ensures forall b :: 0 <= b < |bins| ==> GoodBin(bins[b], inputs, b, params) && BinLiveness(bins[b])
    ensures |TableOf(bins)| == |bins| * (3 * params.capP)
    ensures AllClean(bins) ==> Select(Map(TableOf(bins), MarkAll()), IsLive()) == IdealTable(inputs, |bins|)
  {
  }

  lemma RowsToShuffle(marked: seq<UnionRow>, n: nat, capP: nat)
    requires n > 0 && capP > 0 && |marked| == n * (3 * capP)
    ensures marked != []
  {
    MulNonneg(n - 1, 3 * capP);
    SplitSize(n, 3 * capP);
  }

  lemma SameLength(a: seq<UnionRow>, b: seq<UnionRow>)
    requires multiset(a) == multiset(b)
    ensures |a| == |b|
  {
    assert |multiset(a)| == |multiset(b)|;
  }
}
