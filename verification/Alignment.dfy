/** Binned alignment of three sources: sort each bin, merge runs of equal keys, mark the live rows. */
module Alignment {
  import opened Words
  import opened Counting
  import opened JoinModel

  datatype Payload = Payload(v: seq<nat>, valid: seq<nat>, g: nat, vG: nat, contraction: nat)

  const NO_PAYLOAD := Payload([], [], 0, 0, 0)

  /** Sources: 0 MAS, 1 DOS, 2 MOM; 4 marks a public dead row. */
  datatype Row = Row(bin: nat, source: nat, key: nat, memb: nat, period: nat, sector: nat, payload: Payload)

  datatype Seen = Seen(present: bool, payload: Payload)

  datatype UnionRow = UnionRow(bin: nat, period: nat, sector: nat, mas: Seen, dos: Seen, mom: Seen,
                               canonical: bool, live: bool, sectorConflict: bool)

  const ABSENT := Seen(false, NO_PAYLOAD)

  // ----------------------------------------------------------------------
  // The within-bin sort

  predicate Before(a: Row, b: Row) {
    a.key < b.key || (a.key == b.key && a.source < b.source)
  }

  /** Insert behind everything that is not after x. */
  function InsertStable(s: seq<Row>, x: Row): seq<Row> {
    if s == [] || !Before(x, s[|s| - 1]) then s + [x]
    else InsertStable(s[..|s| - 1], x) + [s[|s| - 1]]
  }

  /** The stable sort by (key, source). */
  function StableSorted(s: seq<Row>): seq<Row> {
    if s == [] then [] else InsertStable(StableSorted(s[..|s| - 1]), s[|s| - 1])
  }

  ghost predicate Ordered(s: seq<Row>) {
    forall i, j :: 0 <= i < j < |s| ==> s[i].key < s[j].key || (s[i].key == s[j].key && s[i].source <= s[j].source)
  }

  lemma {:induction false} InsertKeeps(s: seq<Row>, x: Row)
    requires Ordered(s)
    ensures Ordered(InsertStable(s, x)) && multiset(InsertStable(s, x)) == multiset(s) + multiset{x}
  {
    hide InsertStable;
    InsertUnfolds(s, x);
    if s != [] && Before(x, s[|s| - 1]) {
      var front, last := s[..|s| - 1], s[|s| - 1];
      InsertKeeps(front, x);
      assert s == front + [last];
      OrderedSnoc(front, x, InsertStable(front, x), last);
    }
  }

  lemma InsertUnfolds(s: seq<Row>, x: Row)
    ensures InsertStable(s, x)
         == if s == [] || !Before(x, s[|s| - 1]) then s + [x] else InsertStable(s[..|s| - 1], x) + [s[|s| - 1]]
  {
    hide Before;
  }

  lemma OrderedSnoc(front: seq<Row>, x: Row, t: seq<Row>, last: Row)
    requires Ordered(front + [last]) && Ordered(t) && multiset(t) == multiset(front) + multiset{x} && Before(x, last)
    ensures Ordered(t + [last])
  {
    forall i | 0 <= i < |t| ensures !Before(last, t[i]) {
      assert t[i] in multiset(t);
      if t[i] != x {
        var k :| 0 <= k < |front| && front[k] == t[i];
        assert (front + [last])[k] == t[i] && (front + [last])[|front|] == last;
      }
    }
  }

  lemma {:induction false} StableSortedSorts(s: seq<Row>)
    ensures Ordered(StableSorted(s)) && multiset(StableSorted(s)) == multiset(s)
  {
    hide StableSorted, InsertStable, Ordered;
    StableUnfolds(s);
    if s != [] {
      StableSortedSorts(s[..|s| - 1]);
      InsertKeeps(StableSorted(s[..|s| - 1]), s[|s| - 1]);
      assert s == s[..|s| - 1] + [s[|s| - 1]];
    }
  }

  lemma StableUnfolds(s: seq<Row>)
    ensures StableSorted(s) == if s == [] then [] else InsertStable(StableSorted(s[..|s| - 1]), s[|s| - 1])
    ensures Ordered([])
  {
  }

  function Ties(key: nat, source: nat): Row -> bool {
    (r: Row) => r.key == key && r.source == source
  }

  /** Rows with equal key and source keep their order. */
  lemma {:induction false} StableSortedIsStable(s: seq<Row>, key: nat, source: nat)
    ensures Select(StableSorted(s), Ties(key, source)) == Select(s, Ties(key, source))
  {
    hide StableSorted, InsertStable, Ordered, Select, Ties;
    StableUnfolds(s);
    if s != [] {
      var front, x := s[..|s| - 1], s[|s| - 1];
      StableSortedIsStable(front, key, source);
      StableSortedSorts(front);
      InsertKeepsTies(StableSorted(front), x, key, source);
      assert s == front + [x];
      SelectConcat(front, [x], Ties(key, source));
    }
  }

  lemma {:induction false} InsertKeepsTies(s: seq<Row>, x: Row, key: nat, source: nat)
    requires Ordered(s)
    ensures Select(InsertStable(s, x), Ties(key, source)) == Select(s, Ties(key, source)) + Select([x], Ties(key, source))
  {
    hide InsertStable, Select;
    InsertUnfolds(s, x);
    var f := Ties(key, source);
    if s == [] || !Before(x, s[|s| - 1]) {
      SelectConcat(s, [x], f);
    } else {
      var front, last := s[..|s| - 1], s[|s| - 1];
      InsertKeepsTies(front, x, key, source);
      assert s == front + [last];
      SelectConcat(front, [last], f);
      SelectConcat(InsertStable(front, x), [last], f);
      OneOfTwo(x, last, key, source);
    }
  }

  lemma OneOfTwo(x: Row, last: Row, key: nat, source: nat)
    requires Before(x, last)
    ensures Select([x], Ties(key, source)) == [] || Select([last], Ties(key, source)) == []
  {
  }

  function DeadRow(bin: nat): Row {
    Row(bin, 4, MAX_KEY, 0, 0, 0, NO_PAYLOAD)
  }

  /** Rows a bin can hold before the dead padding. */
  ghost predicate Keyed(s: seq<Row>) {
    forall i :: 0 <= i < |s| ==> s[i].key <= MAX_KEY && s[i].source < 4
  }

  lemma SortedKeyed(s: seq<Row>)
    requires Keyed(s)
    ensures Keyed(StableSorted(s)) && |StableSorted(s)| == |s|
  {
    var t := StableSorted(s);
    StableSortedSorts(s);
    hide StableSorted;
    assert |multiset(t)| == |multiset(s)|;
    forall i | 0 <= i < |t| ensures t[i].key <= MAX_KEY && t[i].source < 4 {
      assert t[i] in multiset(t);
      assert t[i] in s;
    }
  }

  lemma DeadGoesLast(t: seq<Row>, d: Row, n: nat)
    requires Keyed(t) && d.key == MAX_KEY && d.source == 4
    ensures InsertStable(t + Repeat(d, n), d) == t + Repeat(d, n) + [d]
  {
  }

  lemma SortedSnoc(s: seq<Row>, x: Row)
    ensures StableSorted(s + [x]) == InsertStable(StableSorted(s), x)
  {
    assert (s + [x])[..|s|] == s;
  }

  /** Dead rows sort behind everything, so cutting the tail removes exactly them. */
  lemma {:induction false} DeadRowsLast(s: seq<Row>, d: Row, n: nat)
    requires Keyed(s) && d.key == MAX_KEY && d.source == 4
    ensures StableSorted(s + Repeat(d, n)) == StableSorted(s) + Repeat(d, n)
  {
    hide InsertStable, StableSorted, Keyed;
    if n == 0 {
      assert s + Repeat(d, 0) == s && StableSorted(s) + Repeat(d, 0) == StableSorted(s);
    } else {
      DeadRowsLast(s, d, n - 1);
      SortedKeyed(s);
      DeadGoesLast(StableSorted(s), d, n - 1);
      SortedSnoc(s + Repeat(d, n - 1), d);
      assert Repeat(d, n) == Repeat(d, n - 1) + [d];
      assert s + Repeat(d, n) == s + Repeat(d, n - 1) + [d];
      assert StableSorted(s) + Repeat(d, n) == StableSorted(s) + Repeat(d, n - 1) + [d];
    }
  }

  // ----------------------------------------------------------------------
  // The merge

  function IsRealOf(source: nat, key: nat): Row -> bool {
    (r: Row) => r.memb == 1 && r.source == source && r.key == key
  }

  function Window(s: seq<Row>, i: nat): seq<Row>
    requires i < |s|
  {
    s[i..if i + 3 <= |s| then i + 3 else |s|]
  }

  function SeenOf(hits: seq<Row>): Seen {
    if hits == [] then ABSENT else Seen(true, hits[0].payload)
  }

  predicate Conflict(saw: seq<Row>) {
    exists a :: 1 <= a < |saw| && saw[a].sector != saw[0].sector
  }

  /** Row i starts a run: the row before has another key or is a dummy, or the row is a dummy itself. */
  predicate IsFirst(s: seq<Row>, i: nat)
    requires i < |s|
  {
    i == 0 || s[i - 1].key != s[i].key || s[i - 1].memb == 0 || s[i].memb == 0
  }

  /** One output row per position. */
  function MergeRow(s: seq<Row>, i: nat): UnionRow
    requires i < |s|
  {
    var r := s[i];
    if r.memb == 0 then UnionRow(r.bin, 0, 0, ABSENT, ABSENT, ABSENT, IsFirst(s, i), false, false)
    else
      var w := Window(s, i);
      var m0, m1, m2 := Select(w, IsRealOf(0, r.key)), Select(w, IsRealOf(1, r.key)), Select(w, IsRealOf(2, r.key));
      var saw := if r.memb == 1 then m0 + m1 + m2 else [];
      UnionRow(r.bin, r.period, if saw == [] then 0 else saw[0].sector,
               if r.memb == 1 then SeenOf(m0) else ABSENT, if r.memb == 1 then SeenOf(m1) else ABSENT,
               if r.memb == 1 then SeenOf(m2) else ABSENT, IsFirst(s, i), false, Conflict(saw))
  }

  function Merged(s: seq<Row>): (t: seq<UnionRow>)
    ensures |t| == |s|
  {
    seq(|s|, i requires 0 <= i < |s| => MergeRow(s, i))
  }

  /** live = canonical AND any presence bit. */
  function Marked(u: UnionRow): UnionRow {
    u.(live := u.canonical && (u.mas.present || u.dos.present || u.mom.present))
  }

  function IsLive(): UnionRow -> bool {
    (u: UnionRow) => u.live
  }

  function MarkAll(): UnionRow -> UnionRow {
    (u: UnionRow) => Marked(u)
  }

  // ----------------------------------------------------------------------
  // Liveness without any assumption on keys

  /** Real rows carry a genuine source; everything else has memb 0. */
  ghost predicate Packed(s: seq<Row>) {
    forall i :: 0 <= i < |s| ==> s[i].memb <= 1 && (s[i].memb == 1 ==> s[i].source <= 2)
  }

  lemma SelectFinds(s: seq<Row>, i: nat, f: Row -> bool)
    requires i < |s| && f(s[i])
    ensures Select(s, f) != []
  {
    SelectCount(s, f);
    CountAt(s, i, f);
  }

  /** A marked row is live exactly when it is the real start of a run. */
  lemma LiveIffFirst(s: seq<Row>, i: nat)
    requires Packed(s) && i < |s|
    ensures Marked(MergeRow(s, i)).live <==> s[i].memb == 1 && IsFirst(s, i)
  {
    if s[i].memb == 1 {
      var w := Window(s, i);
      assert w[0] == s[i];
      SelectFinds(w, 0, IsRealOf(s[i].source, s[i].key));
    }
  }

  /** The first real row of a key starts a run, whatever dummies stand around it. */
  lemma FirstRealIsFirst(s: seq<Row>, i: nat)
    requires i < |s| && s[i].memb == 1
    requires forall j :: 0 <= j < i && s[j].key == s[i].key ==> s[j].memb != 1
    requires Packed(s)
    ensures IsFirst(s, i)
  {
  }

  /** Dummies never become live, and every real key keeps a live row, even when random keys collide. */
  lemma LivenessHolds(s: seq<Row>)
    requires Packed(s)
    ensures forall i :: 0 <= i < |s| && Marked(MergeRow(s, i)).live ==> s[i].memb == 1
    ensures forall j :: 0 <= j < |s| && s[j].memb == 1 ==>
              exists i :: 0 <= i <= j && s[i].memb == 1 && s[i].key == s[j].key && Marked(MergeRow(s, i)).live
  {
    forall i | 0 <= i < |s| ensures Marked(MergeRow(s, i)).live ==> s[i].memb == 1 {
      LiveIffFirst(s, i);
    }
    forall j | 0 <= j < |s| && s[j].memb == 1
      ensures exists i :: 0 <= i <= j && s[i].memb == 1 && s[i].key == s[j].key && Marked(MergeRow(s, i)).live
    {
      var i := EarliestReal(s, j);
      FirstRealIsFirst(s, i);
      LiveIffFirst(s, i);
    }
  }

  lemma {:induction false} EarliestReal(s: seq<Row>, j: nat) returns (i: nat)
    requires j < |s| && s[j].memb == 1
    ensures i <= j && s[i].memb == 1 && s[i].key == s[j].key
    ensures forall k :: 0 <= k < i && s[k].key == s[i].key ==> s[k].memb != 1
    decreases j
  {
    if k :| 0 <= k < j && s[k].key == s[j].key && s[k].memb == 1 {
      i := EarliestReal(s, k);
    } else {
      i := j;
    }
  }

  // ----------------------------------------------------------------------
  // The ideal functionality

  /** No two real rows of a source share a key, and no dummy has a real row's key. */
  ghost predicate Clean(s: seq<Row>) {
    && (forall i, j :: 0 <= i < j < |s| && s[i].memb == 1 && s[j].memb == 1 && s[i].key == s[j].key ==> s[i].source != s[j].source)
    && forall i, j :: 0 <= i < |s| && 0 <= j < |s| && s[i].memb == 1 && s[j].memb == 0 ==> s[i].key != s[j].key
  }

  /** What F_PSA owes for a key of bin b: each source's row, the first source's sector, the conflict flag. */
  function IdealRow(s: seq<Row>, b: nat, key: nat): UnionRow {
    var m0, m1, m2 := Select(s, IsRealOf(0, key)), Select(s, IsRealOf(1, key)), Select(s, IsRealOf(2, key));
    var saw := m0 + m1 + m2;
    UnionRow(b, if saw == [] then 0 else saw[0].period, if saw == [] then 0 else saw[0].sector,
             SeenOf(m0), SeenOf(m1), SeenOf(m2), true, true, Conflict(saw))
  }

  function Ideal(s: seq<Row>, b: nat): nat -> UnionRow {
    (key: nat) => IdealRow(s, b, key)
  }

  /** In an ordered clean bin, the rows of a real key are contiguous, real, and at most three. */
  lemma RunIsShort(s: seq<Row>, i: nat, j: nat)
    requires Packed(s) && Ordered(s) && Clean(s)
    requires i <= j < |s| && s[i].memb == 1 && s[j].key == s[i].key
    ensures s[j].memb == 1 && j - i <= s[j].source - s[i].source <= 2
    decreases j - i
  {
    if i < j {
      assert !Before(s[j - 1], s[i]) && !Before(s[j], s[j - 1]);
      RunIsShort(s, i, j - 1);
    }
  }

  lemma NoneBefore(s: seq<Row>, i: nat, j: nat)
    requires Packed(s) && Ordered(s) && Clean(s) && j < i < |s| && IsFirst(s, i) && s[i].memb == 1
    ensures s[j].key != s[i].key
  {
    assert j < i - 1 ==> !Before(s[i - 1], s[j]);
    assert !Before(s[i], s[i - 1]);
  }

  lemma SelectNothing(s: seq<Row>, f: Row -> bool)
    requires forall i :: 0 <= i < |s| ==> !f(s[i])
    ensures Select(s, f) == []
  {
    SelectCount(s, f);
    CountNone(s, f);
  }

  /** Outside [a, b) nothing is selected. */
  lemma SelectBetween(s: seq<Row>, a: nat, b: nat, f: Row -> bool)
    requires a <= b <= |s| && forall j :: 0 <= j < |s| && f(s[j]) ==> a <= j < b
    ensures Select(s, f) == Select(s[a..b], f)
  {
    hide Select;
    var front, back := s[..a], s[b..];
    assert s == front + (s[a..b] + back);
    SelectConcat(front, s[a..b] + back, f);
    SelectConcat(s[a..b], back, f);
    forall j | 0 <= j < |back| ensures !f(back[j]) {
      assert back[j] == s[b + j];
    }
    SelectNothing(front, f);
    SelectNothing(back, f);
  }

  /** The window at the start of a run sees every real row of the key. */
  lemma WindowSeesRun(s: seq<Row>, i: nat, source: nat)
    requires Packed(s) && Ordered(s) && Clean(s) && i < |s| && IsFirst(s, i) && s[i].memb == 1
    ensures Select(Window(s, i), IsRealOf(source, s[i].key)) == Select(s, IsRealOf(source, s[i].key))
  {
    var f, e := IsRealOf(source, s[i].key), if i + 3 <= |s| then i + 3 else |s|;
    forall j | 0 <= j < |s| && f(s[j]) ensures i <= j < e {
      if j < i {
        NoneBefore(s, i, j);
      } else {
        RunIsShort(s, i, j);
      }
    }
    hide IsRealOf, Packed, Ordered, Clean, IsFirst;
    SelectBetween(s, i, e, f);
  }

  lemma SelectOnly(s: seq<Row>, i: nat, f: Row -> bool)
    requires i < |s| && f(s[i]) && forall j :: 0 <= j < |s| && f(s[j]) ==> j == i
    ensures Select(s, f) == [s[i]]
  {
    SelectBetween(s, i, i + 1, f);
    assert s[i..i + 1] == [s[i]];
    assert [s[i]][1..] == [];
  }

  /** The first row of the run comes from the first source present. */
  lemma FirstSeen(s: seq<Row>, i: nat)
    requires Packed(s) && Ordered(s) && Clean(s) && i < |s| && IsFirst(s, i) && s[i].memb == 1
    ensures var k := s[i].key;
            var saw := Select(s, IsRealOf(0, k)) + Select(s, IsRealOf(1, k)) + Select(s, IsRealOf(2, k));
            saw != [] && saw[0] == s[i]
  {
    hide Select;
    var k, c := s[i].key, s[i].source;
    forall b, j | 0 <= b <= c && 0 <= j < |s| && IsRealOf(b, k)(s[j]) ensures j == i && b == c {
      if j < i {
        NoneBefore(s, i, j);
      } else {
        RunIsShort(s, i, j);
      }
    }
    SelectOnly(s, i, IsRealOf(c, k));
    if c > 0 {
      SelectNothing(s, IsRealOf(0, k));
    }
    if c > 1 {
      SelectNothing(s, IsRealOf(1, k));
    }
  }

  /** The start of a run is exactly the ideal row of its key. */
  lemma FirstIsIdeal(s: seq<Row>, i: nat)
    requires Packed(s) && Ordered(s) && Clean(s) && i < |s| && IsFirst(s, i) && s[i].memb == 1
    ensures Marked(MergeRow(s, i)) == IdealRow(s, s[i].bin, s[i].key)
  {
    LiveIffFirst(s, i);
    FirstSeen(s, i);
    WindowSeesRun(s, i, 0);
    WindowSeesRun(s, i, 1);
    WindowSeesRun(s, i, 2);
    hide Select, Window, IsRealOf, Conflict;
  }

  // ----------------------------------------------------------------------
  // A whole bin

  /** The keys of the live rows among the first n positions. */
  function Firsts(s: seq<Row>, n: nat): seq<nat>
    requires n <= |s|
  {
    if n == 0 then []
    else Firsts(s, n - 1) + if s[n - 1].memb == 1 && IsFirst(s, n - 1) then [s[n - 1].key] else []
  }

  lemma {:induction false} FirstsIncreasing(s: seq<Row>, n: nat)
    requires Packed(s) && Ordered(s) && Clean(s) && n <= |s|
    ensures Increasing(Firsts(s, n))
    ensures forall m :: 0 <= m < |Firsts(s, n)| ==> exists j :: 0 <= j < n && s[j].memb == 1 && s[j].key == Firsts(s, n)[m]
  {
    if n > 0 {
      FirstsIncreasing(s, n - 1);
      var i, before := n - 1, Firsts(s, n - 1);
      if s[i].memb == 1 && IsFirst(s, i) {
        forall m | 0 <= m < |before| ensures before[m] < s[i].key {
          assert before[m] == Firsts(s, n - 1)[m];
          var j :| 0 <= j < i && s[j].memb == 1 && s[j].key == before[m];
          NoneBefore(s, i, j);
          assert !Before(s[i], s[j]);
        }
      }
    }
  }

  /** Every real key has its live row. */
  lemma {:induction false} FirstsComplete(s: seq<Row>, n: nat, j: nat)
    requires Packed(s) && j < n <= |s| && s[j].memb == 1
    ensures s[j].key in Firsts(s, n)
    decreases n
  {
    if j < n - 1 {
      FirstsComplete(s, n - 1, j);
    } else if !IsFirst(s, j) {
      FirstsComplete(s, n - 1, j - 1);
    }
  }

  lemma {:induction false} LiveRows(s: seq<Row>, b: nat, n: nat)
    requires Packed(s) && Ordered(s) && Clean(s) && n <= |s| && forall i :: 0 <= i < |s| ==> s[i].bin == b
    ensures Select(Map(Merged(s)[..n], MarkAll()), IsLive()) == Map(Firsts(s, n), Ideal(s, b))
  {
    hide Packed, Ordered, Clean, MergeRow, Marked, IdealRow;
    if n > 0 {
      var i := n - 1;
      var u := Marked(MergeRow(s, i));
      LiveRows(s, b, i);
      assert Map(Merged(s)[..n], MarkAll()) == Map(Merged(s)[..i], MarkAll()) + [u];
      SelectConcat(Map(Merged(s)[..i], MarkAll()), [u], IsLive());
      LiveIffFirst(s, i);
      SelectOne(u);
      if s[i].memb == 1 && IsFirst(s, i) {
        FirstIsIdeal(s, i);
        assert Map(Firsts(s, n), Ideal(s, b)) == Map(Firsts(s, i), Ideal(s, b)) + [u];
      }
    }
  }

  lemma SelectOne(u: UnionRow)
    ensures Select([u], IsLive()) == if u.live then [u] else []
  {
    assert [u][1..] == [];
  }

  // ----------------------------------------------------------------------
  // The ideal does not depend on the order of the bin

  /** The distinct keys of the rows, ascending. */
  function KeysOf(s: seq<Row>): seq<nat> {
    if s == [] then [] else Insert(KeysOf(s[..|s| - 1]), s[|s| - 1].key)
  }

  lemma {:induction false} KeysOfAscend(s: seq<Row>)
    ensures Increasing(KeysOf(s))
    ensures forall k :: k in KeysOf(s) <==> exists j :: 0 <= j < |s| && s[j].key == k
  {
    if s != [] {
      var front := s[..|s| - 1];
      KeysOfAscend(front);
      InsertIncreasing(KeysOf(front), s[|s| - 1].key);
      forall k ensures k in KeysOf(s) <==> exists j :: 0 <= j < |s| && s[j].key == k {
        if j :| 0 <= j < |s| && s[j].key == k {
          if j < |front| { assert front[j].key == k; }
        }
      }
    }
  }

  lemma SameSingle(a: seq<Row>, b: seq<Row>)
    requires multiset(a) == multiset(b) && |a| <= 1
    ensures a == b
  {
    assert |a| == |multiset(a)| == |multiset(b)| == |b|;
    if a != [] {
      assert b[0] in multiset(a);
    }
  }

  lemma SelectPermuted(a: seq<Row>, b: seq<Row>, f: Row -> bool)
    requires multiset(a) == multiset(b) && |Select(a, f)| <= 1
    ensures Select(a, f) == Select(b, f)
  {
    SelectRearranged(a, b, f);
    SameSingle(Select(a, f), Select(b, f));
  }

  lemma SameRow(s: seq<Row>, i: nat, j: nat)
    requires Clean(s) && i < |s| && j < |s| && s[i].memb == 1 && s[j].memb == 1
    requires s[i].key == s[j].key && s[i].source == s[j].source
    ensures i == j
  {
  }

  /** A clean bin has at most one real row per source and key. */
  lemma AtMostOne(s: seq<Row>, source: nat, key: nat)
    requires Clean(s)
    ensures |Select(s, IsRealOf(source, key))| <= 1
  {
    var f := IsRealOf(source, key);
    if i :| 0 <= i < |s| && f(s[i]) {
      forall j | 0 <= j < |s| && f(s[j]) ensures j == i {
        SameRow(s, i, j);
      }
      SelectOnly(s, i, f);
    } else {
      SelectNothing(s, f);
    }
  }

  lemma IdealPermuted(a: seq<Row>, b: seq<Row>, bin: nat, key: nat)
    requires multiset(a) == multiset(b) && Clean(a)
    ensures IdealRow(a, bin, key) == IdealRow(b, bin, key)
  {
    hide Select, Conflict;
    AtMostOne(a, 0, key);
    AtMostOne(a, 1, key);
    AtMostOne(a, 2, key);
    SelectPermuted(a, b, IsRealOf(0, key));
    SelectPermuted(a, b, IsRealOf(1, key));
    SelectPermuted(a, b, IsRealOf(2, key));
  }
}
