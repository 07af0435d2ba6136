/** Grouped sum over a dataset whose rows arrive ordered by the group-by
    key: every run of consecutive rows with the same key becomes one output
    row holding the key and the sum of the measure over the run. The
    convenience form infers the measure and refuses a dataset that does not
    have exactly one; the explicit form is given the measure. */
module Aggregation {

  import opened Wrappers
  import opened Roles

  datatype ValueType = StringType | LongType

  datatype Component = Component(name: string, role: Role, typ: ValueType)

  datatype Value = Str(s: string) | Long(n: int)

  function TypeOf(v: Value): ValueType {
    match v
    case Str(_) => StringType
    case Long(_) => LongType
  }

  /** A data point: values aligned by position with the components of its
      structure. */
  type Row = seq<Value>

  predicate Conforms(row: Row, structure: seq<Component>) {
    |row| == |structure| && forall i :: 0 <= i < |row| ==> TypeOf(row[i]) == structure[i].typ
  }

  predicate UniqueNames(structure: seq<Component>) {
    forall i, j :: 0 <= i < j < |structure| ==> structure[i].name != structure[j].name
  }

  /** The in-memory dataset of the aggregation tests: a list of data points
      and the structure they were wrapped with. */
  datatype TestableDataset = TestableDataset(data: seq<Row>, structure: seq<Component>) {

    predicate Valid() {
      UniqueNames(structure) && forall r :: 0 <= r < |data| ==> Conforms(data[r], structure)
    }

    function GetData(): seq<Row> {
      data
    }

    function GetSize(): Option<nat> {
      Some(|data|)
    }

    function GetDistinctValuesCount(): Option<map<string, nat>> {
      None
    }

    function GetDataStructure(): seq<Component> {
      structure
    }
  }

  /** The dataset reports its own rows' count as its size, knows no distinct
      value counts, and hands back the structure it was built with. */
  lemma TestableDatasetContract(data: seq<Row>, structure: seq<Component>)
    ensures var d := TestableDataset(data, structure);
      && d.GetSize() == Some(|d.GetData()|)
      && d.GetDistinctValuesCount().None?
      && d.GetDataStructure() == structure
      && d.GetData() == data
  {
  }

  // ------------------------------------------------------ runs and sums

  /** The reduction of the first `n` entries: consecutive entries with equal
      keys are merged into one entry holding the sum of their amounts. */
  function Runs<K(==)>(e: seq<(K, int)>, n: nat): (r: seq<(K, int)>)
    requires n <= |e|
    ensures |r| <= n
    ensures n > 0 ==> |r| > 0 && r[|r| - 1].0 == e[n - 1].0
  {
    if n == 0 then []
    else
      var prev := Runs(e, n - 1);
      var (k, a) := e[n - 1];
      if |prev| > 0 && prev[|prev| - 1].0 == k then
        prev[..|prev| - 1] + [(k, prev[|prev| - 1].1 + a)]
      else
        prev + [(k, a)]
  }

  /** Neighbouring entries have different keys. */
  ghost predicate Alternating<K>(r: seq<(K, int)>) {
    forall i, j :: 0 <= i < j < |r| && j == i + 1 ==> r[i].0 != r[j].0
  }

  /** Neighbouring runs have different keys: a merge happens whenever the
      key repeats. */
  lemma {:induction false} RunsAlternate<K>(e: seq<(K, int)>, n: nat)
    requires n <= |e|
    ensures Alternating(Runs(e, n))
  {
    if n > 0 {
      RunsAlternate(e, n - 1);
      RunsAlternateStep(e, n);
    }
  }

  lemma RunsAlternateStep<K>(e: seq<(K, int)>, n: nat)
    requires 0 < n <= |e| && Alternating(Runs(e, n - 1))
    ensures Alternating(Runs(e, n))
  {
    var prev := Runs(e, n - 1);
    var r := Runs(e, n);
    if |prev| > 0 && prev[|prev| - 1].0 == e[n - 1].0 {
      assert forall i :: 0 <= i < |r| - 1 ==> r[i] == prev[i];
    } else {
      assert forall i :: 0 <= i < |prev| ==> r[i] == prev[i];
    }
  }

  /** Sum of the amounts of the first `n` entries whose key is `k`. */
  function SumWhere<K(==)>(e: seq<(K, int)>, k: K, n: nat): int
    requires n <= |e|
  {
    if n == 0 then 0 else SumWhere(e, k, n - 1) + (if e[n - 1].0 == k then e[n - 1].1 else 0)
  }

  /** Every entry with the same key is in one run: no key comes back after
      a different one. */
  predicate Grouped<K(==)>(e: seq<(K, int)>) {
    forall i, j, l :: 0 <= i < j < l < |e| && e[i].0 == e[l].0 ==> e[j].0 == e[i].0
  }

  ghost function KeysUpTo<K>(e: seq<(K, int)>, n: nat): set<K>
    requires n <= |e|
  {
    set i | 0 <= i < n :: e[i].0
  }

  ghost function KeysOf<K>(r: seq<(K, int)>): set<K> {
    set j | 0 <= j < |r| :: r[j].0
  }

  lemma SumWhereAbsent<K>(e: seq<(K, int)>, k: K, n: nat)
    requires n <= |e|
    requires k !in KeysUpTo(e, n)
    ensures SumWhere(e, k, n) == 0
  {
    if n > 0 {
      assert e[n - 1].0 in KeysUpTo(e, n);
      assert KeysUpTo(e, n - 1) <= KeysUpTo(e, n);
      SumWhereAbsent(e, k, n - 1);
    }
  }

  lemma KeysUpToStep<K>(e: seq<(K, int)>, n: nat)
    requires 0 < n <= |e|
    ensures KeysUpTo(e, n) == KeysUpTo(e, n - 1) + {e[n - 1].0}
  {
  }

  lemma KeysOfSnoc<K>(r: seq<(K, int)>, x: (K, int))
    ensures KeysOf(r + [x]) == KeysOf(r) + {x.0}
  {
    assert (r + [x])[|r|] == x;
    assert forall j :: 0 <= j < |r| ==> (r + [x])[j] == r[j];
  }

  /** The reduction keeps every key and invents none. */
  lemma {:induction false} RunsKeys<K>(e: seq<(K, int)>, n: nat)
    requires n <= |e|
    ensures KeysOf(Runs(e, n)) == KeysUpTo(e, n)
  {
    if n > 0 {
      RunsKeys(e, n - 1);
      var prev := Runs(e, n - 1);
      var k := e[n - 1].0;
      KeysUpToStep(e, n);
      if |prev| > 0 && prev[|prev| - 1].0 == k {
        var front := prev[..|prev| - 1];
        var last := prev[|prev| - 1];
        var merged := (k, last.1 + e[n - 1].1);
        assert Runs(e, n) == front + [merged];
        assert prev == front + [last];
        KeysOfSnoc(front, last);
        KeysOfSnoc(front, merged);
        assert KeysOf(Runs(e, n)) == KeysOf(front) + {k} == KeysOf(prev);
      } else {
        assert Runs(e, n) == prev + [e[n - 1]];
        KeysOfSnoc(prev, e[n - 1]);
      }
    }
  }

  /** On grouped entries the reduction has one entry per distinct key, and
      that entry's amount is the sum over all entries with the key. */
  lemma {:induction false} RunsOfGrouped<K>(e: seq<(K, int)>, n: nat)
    requires n <= |e| && Grouped(e)
    ensures forall j, l :: 0 <= j < l < |Runs(e, n)| ==> Runs(e, n)[j].0 != Runs(e, n)[l].0
    ensures forall j :: 0 <= j < |Runs(e, n)| ==> Runs(e, n)[j].1 == SumWhere(e, Runs(e, n)[j].0, n)
  {
    if n > 0 {
      RunsOfGrouped(e, n - 1);
      var prev := Runs(e, n - 1);
      if |prev| > 0 && prev[|prev| - 1].0 == e[n - 1].0 {
        GroupedMergeStep(e, n);
      } else {
        GroupedNewKeyStep(e, n);
      }
    }
  }

  /** No key occurs twice. */
  predicate DistinctKeys<K(==)>(r: seq<(K, int)>) {
    forall j, l :: 0 <= j < l < |r| ==> r[j].0 != r[l].0
  }

  /** Each entry carries the sum over the first `n` entries of `e` with its key. */
  predicate SumsMatch<K(==)>(e: seq<(K, int)>, r: seq<(K, int)>, n: nat)
    requires n <= |e|
  {
    forall j :: 0 <= j < |r| ==> r[j].1 == SumWhere(e, r[j].0, n)
  }

  /** The induction step of `RunsOfGrouped` when entry `n - 1` extends the
      last run. */
  lemma GroupedMergeStep<K>(e: seq<(K, int)>, n: nat)
    requires 0 < n <= |e| && Grouped(e)
    requires var prev := Runs(e, n - 1); |prev| > 0 && prev[|prev| - 1].0 == e[n - 1].0
    requires DistinctKeys(Runs(e, n - 1)) && SumsMatch(e, Runs(e, n - 1), n - 1)
    ensures DistinctKeys(Runs(e, n)) && SumsMatch(e, Runs(e, n), n)
  {
    var prev := Runs(e, n - 1);
    var r := Runs(e, n);
    var k := e[n - 1].0;
    var m := |prev| - 1;
    assert |r| == |prev| && r[m] == (k, prev[m].1 + e[n - 1].1);
    assert forall j :: 0 <= j < m ==> r[j] == prev[j];
    forall j, l | 0 <= j < l < |r| ensures r[j].0 != r[l].0 {
      assert r[j].0 == prev[j].0 && r[l].0 == prev[l].0;
    }
    forall j | 0 <= j < |r| ensures r[j].1 == SumWhere(e, r[j].0, n) {
      if j < m {
        assert r[j] == prev[j] && prev[j].0 != prev[m].0;
      }
    }
  }

  /** The induction step of `RunsOfGrouped` when entry `n - 1` starts a new
      run. */
  lemma GroupedNewKeyStep<K>(e: seq<(K, int)>, n: nat)
    requires 0 < n <= |e| && Grouped(e)
    requires var prev := Runs(e, n - 1); !(|prev| > 0 && prev[|prev| - 1].0 == e[n - 1].0)
    requires DistinctKeys(Runs(e, n - 1)) && SumsMatch(e, Runs(e, n - 1), n - 1)
    ensures DistinctKeys(Runs(e, n)) && SumsMatch(e, Runs(e, n), n)
  {
    var prev := Runs(e, n - 1);
    var r := Runs(e, n);
    var k := e[n - 1].0;
    assert r == prev + [e[n - 1]];
    NewKeyIsFresh(e, n);
    assert forall j :: 0 <= j < |prev| ==> r[j] == prev[j];
    assert forall j :: 0 <= j < |prev| ==> prev[j].0 in KeysOf(prev);
    SumWhereAbsent(e, k, n - 1);
  }

  lemma RunsWhenGrouped<K>(e: seq<(K, int)>)
    ensures var r := Runs(e, |e|);
      Grouped(e) ==> forall j, l :: 0 <= j < l < |r| ==> r[j].0 != r[l].0
    ensures var r := Runs(e, |e|);
      Grouped(e) ==> forall j :: 0 <= j < |r| ==> r[j].1 == SumWhere(e, r[j].0, |e|)
  {
    if Grouped(e) {
      RunsOfGrouped(e, |e|);
    }
  }

  /** A key that differs from the one before it has not been seen yet. */
  lemma NewKeyIsFresh<K>(e: seq<(K, int)>, n: nat)
    requires 0 < n <= |e| && Grouped(e)
    requires var prev := Runs(e, n - 1); !(|prev| > 0 && prev[|prev| - 1].0 == e[n - 1].0)
    ensures e[n - 1].0 !in KeysUpTo(e, n - 1)
    ensures e[n - 1].0 !in KeysOf(Runs(e, n - 1))
  {
    var k := e[n - 1].0;
    RunsKeys(e, n - 1);
    if n >= 2 {
      assert e[n - 2].0 != k;
    }
    assert forall i :: 0 <= i < n - 1 ==> e[i].0 != k;
  }

  /** Merging runs never loses an amount: the reduction has the same total
      as its input. */
  lemma {:induction false} RunsTotal<K>(e: seq<(K, int)>, n: nat)
    requires n <= |e|
    ensures Total(Runs(e, n)) == TotalUpTo(e, n)
  {
    if n > 0 {
      RunsTotal(e, n - 1);
      RunsTotalStep(e, n);
    }
  }

  lemma RunsTotalStep<K>(e: seq<(K, int)>, n: nat)
    requires 0 < n <= |e|
    requires Total(Runs(e, n - 1)) == TotalUpTo(e, n - 1)
    ensures Total(Runs(e, n)) == TotalUpTo(e, n)
  {
    var prev := Runs(e, n - 1);
    if |prev| > 0 && prev[|prev| - 1].0 == e[n - 1].0 {
      var front := prev[..|prev| - 1];
      var last := prev[|prev| - 1];
      assert prev == front + [last];
      RunsTotalMerge(e, n, front, last);
    } else {
      RunsTotalNew(e, n);
    }
  }

  lemma RunsTotalMerge<K>(e: seq<(K, int)>, n: nat, front: seq<(K, int)>, last: (K, int))
    requires 0 < n <= |e| && Runs(e, n - 1) == front + [last] && e[n - 1].0 == last.0
    requires Total(front + [last]) == TotalUpTo(e, n - 1)
    ensures Total(Runs(e, n)) == TotalUpTo(e, n)
  {
    RunsMerge(e, n, front, last.0, last.1);
    TotalMerge(front, last, e[n - 1].1);
  }

  lemma RunsTotalNew<K>(e: seq<(K, int)>, n: nat)
    requires 0 < n <= |e|
    requires var prev := Runs(e, n - 1); !(|prev| > 0 && prev[|prev| - 1].0 == e[n - 1].0)
    requires Total(Runs(e, n - 1)) == TotalUpTo(e, n - 1)
    ensures Total(Runs(e, n)) == TotalUpTo(e, n)
  {
    assert Runs(e, n) == Runs(e, n - 1) + [e[n - 1]];
    TotalSnoc(Runs(e, n - 1), e[n - 1]);
  }

  /** Adding an amount to the last entry adds it to the total. */
  lemma TotalMerge<K>(front: seq<(K, int)>, last: (K, int), a: int)
    ensures Total(front + [(last.0, last.1 + a)]) == Total(front + [last]) + a
  {
    TotalSnoc(front, last);
    TotalSnoc(front, (last.0, last.1 + a));
  }

  function Total<K>(r: seq<(K, int)>): int {
    if |r| == 0 then 0 else Total(r[..|r| - 1]) + r[|r| - 1].1
  }

  function TotalUpTo<K>(e: seq<(K, int)>, n: nat): int
    requires n <= |e|
  {
    if n == 0 then 0 else TotalUpTo(e, n - 1) + e[n - 1].1
  }

  lemma TotalSnoc<K>(r: seq<(K, int)>, x: (K, int))
    ensures Total(r + [x]) == Total(r) + x.1
  {
    assert (r + [x])[..|r|] == r;
  }

  // -------------------------------------------------------------- operation

  /** Position of a component in a structure. */
  function Position(structure: seq<Component>, c: Component): (i: nat)
    requires c in structure
    ensures i < |structure| && structure[i] == c
    ensures forall j :: 0 <= j < i ==> structure[j] != c
  {
    if structure[0] == c then 0 else 1 + Position(structure[1..], c)
  }

  /** The measures of a structure, in order. */
  function Measures(structure: seq<Component>): (ms: seq<Component>)
    ensures forall m :: m in ms <==> m in structure && m.role == Measure
  {
    if |structure| == 0 then []
    else (if structure[0].role == Measure then [structure[0]] else []) + Measures(structure[1..])
  }

  /** The long a measure cell holds. */
  function Amount(v: Value): int {
    match v
    case Long(n) => n
    case Str(_) => 0
  }

  /** Each row as the pair (group-by key, measure amount). */
  function Entries(ds: TestableDataset, groupBy: seq<Component>, measure: Component): (e: seq<(seq<Value>, int)>)
    requires ds.Valid() && measure in ds.structure
    requires forall g :: g in groupBy ==> g in ds.structure
    ensures |e| == |ds.data|
    ensures forall r :: 0 <= r < |e| ==> |e[r].0| == |groupBy|
  {
    var m := Position(ds.structure, measure);
    seq(|ds.data|, r requires 0 <= r < |ds.data| =>
      (seq(|groupBy|, i requires 0 <= i < |groupBy| => ds.data[r][Position(ds.structure, groupBy[i])]),
       Amount(ds.data[r][m])))
  }

  /** The result of a sum: its structure and its data points. */
  datatype SumOperation = SumOperation(structure: seq<Component>, data: seq<Row>)

  /** The group-by components as they are, then the summed measure as a
      long measure. */
  function SumStructure(groupBy: seq<Component>, measure: Component): seq<Component> {
    groupBy + [Component(measure.name, Measure, LongType)]
  }

  /** The group-by keys of result rows whose key has `n` values. */
  ghost function KeysOfRows(rows: seq<Row>, n: nat): set<seq<Value>> {
    set j | 0 <= j < |rows| && n <= |rows[j]| :: rows[j][..n]
  }

  /** `getSumOperation(dataset, groupBy, measure)`. The result has one row
      per run of equal keys; on input grouped by the key that is one row per
      distinct key, holding the sum of the measure over all rows with that
      key. */
  function SumOf(ds: TestableDataset, groupBy: seq<Component>, measure: Component): (op: SumOperation)
    requires ds.Valid() && measure in ds.structure && measure.typ == LongType
    requires forall g :: g in groupBy ==> g in ds.structure
    ensures op.structure == SumStructure(groupBy, measure)
    ensures forall j :: 0 <= j < |op.data| ==> Conforms(op.data[j], op.structure)
    ensures forall j :: 0 <= j < |op.data| ==> |op.data[j]| == |groupBy| + 1
    ensures KeysOfRows(op.data, |groupBy|) == KeysUpTo(Entries(ds, groupBy, measure), |ds.data|)
    ensures var e := Entries(ds, groupBy, measure);
      Grouped(e) ==> forall j, l :: 0 <= j < l < |op.data| ==> op.data[j][..|groupBy|] != op.data[l][..|groupBy|]
    ensures var e := Entries(ds, groupBy, measure);
      Grouped(e) ==> forall j :: 0 <= j < |op.data| ==>
        op.data[j][|groupBy|] == Long(SumWhere(e, op.data[j][..|groupBy|], |e|))
  {
    var e := Entries(ds, groupBy, measure);
    var runs := Runs(e, |e|);
    var data := seq(|runs|, j requires 0 <= j < |runs| => runs[j].0 + [Long(runs[j].1)]);
    RunsKeys(e, |e|);
    KeyLengths(e, runs, |groupBy|);
    RowsOfRuns(runs, data, |groupBy|);
    SumOfConforms(ds, groupBy, measure, runs, data);
    RunsWhenGrouped(e);
    SumOperation(SumStructure(groupBy, measure), data)
  }

  /** Keys of the reduction have the length of the input keys. */
  lemma KeyLengths(e: seq<(seq<Value>, int)>, runs: seq<(seq<Value>, int)>, n: nat)
    requires KeysOf(runs) == KeysUpTo(e, |e|)
    requires forall i :: 0 <= i < |e| ==> |e[i].0| == n
    ensures forall j :: 0 <= j < |runs| ==> |runs[j].0| == n
  {
    forall j | 0 <= j < |runs| ensures |runs[j].0| == n {
      assert runs[j].0 in KeysOf(runs);
    }
  }

  /** Result rows are the runs with the sum appended. */
  lemma RowsOfRuns(runs: seq<(seq<Value>, int)>, data: seq<Row>, n: nat)
    requires forall j :: 0 <= j < |runs| ==> |runs[j].0| == n
    requires |data| == |runs|
    requires forall j :: 0 <= j < |runs| ==> data[j] == runs[j].0 + [Long(runs[j].1)]
    ensures forall j :: 0 <= j < |data| ==> |data[j]| == n + 1 && data[j][..n] == runs[j].0 && data[j][n] == Long(runs[j].1)
    ensures KeysOfRows(data, n) == KeysOf(runs)
  {
    assert forall j :: 0 <= j < |data| ==> data[j][..n] == runs[j].0;
  }

  lemma SumOfConforms(ds: TestableDataset, groupBy: seq<Component>, measure: Component,
                      runs: seq<(seq<Value>, int)>, data: seq<Row>)
    requires ds.Valid() && measure in ds.structure
    requires forall g :: g in groupBy ==> g in ds.structure
    requires KeysOf(runs) <= KeysUpTo(Entries(ds, groupBy, measure), |ds.data|)
    requires forall j :: 0 <= j < |runs| ==> |runs[j].0| == |groupBy|
    requires |data| == |runs|
    requires forall j :: 0 <= j < |runs| ==> data[j] == runs[j].0 + [Long(runs[j].1)]
    ensures forall j :: 0 <= j < |data| ==> Conforms(data[j], SumStructure(groupBy, measure))
  {
    var e := Entries(ds, groupBy, measure);
    forall j | 0 <= j < |data| ensures Conforms(data[j], SumStructure(groupBy, measure)) {
      assert runs[j].0 in KeysOf(runs);
      var r :| 0 <= r < |e| && e[r].0 == runs[j].0;
      forall i | 0 <= i < |groupBy| ensures TypeOf(data[j][i]) == groupBy[i].typ {
        var p := Position(ds.structure, groupBy[i]);
        assert data[j][i] == ds.data[r][p];
        assert Conforms(ds.data[r], ds.structure);
      }
    }
  }

  datatype AggregationError = IllegalArgument(measureCount: nat)

  /** `getSumOperation(dataset, groupBy)`: the measure is inferred, which
      needs the dataset to have exactly one. */
  function SumOfOnlyMeasure(ds: TestableDataset, groupBy: seq<Component>): (r: Result<SumOperation, AggregationError>)
    requires ds.Valid() && forall g :: g in groupBy ==> g in ds.structure
    requires |Measures(ds.structure)| == 1 ==> Measures(ds.structure)[0].typ == LongType
    ensures r.Failure? <==> |Measures(ds.structure)| != 1
    ensures r.Failure? ==> r.error == IllegalArgument(|Measures(ds.structure)|)
    ensures r.Success? ==> exists m :: m in ds.structure && m.role == Measure && r.value == SumOf(ds, groupBy, m)
  {
    var ms := Measures(ds.structure);
    if |ms| != 1 then Failure(IllegalArgument(|ms|))
    else
      assert ms[0] in ms;
      Success(SumOf(ds, groupBy, ms[0]))
  }

  // ------------------------------------------------------ test examples

  const Time := Component("time", Identifier, StringType)
  const Geo := Component("geo", Identifier, StringType)
  const M1 := Component("m1", Measure, LongType)
  const M2 := Component("m2", Measure, LongType)

  /** The data point of the single-measure dataset for (time, geo, m1). */
  function SingleRow(time: string, geo: string, m1: int): Row {
    [Str(time), Str(geo), Long(m1)]
  }

  function MultiRow(time: string, geo: string, m1: int, m2: int): Row {
    [Str(time), Str(geo), Long(m1), Long(m2)]
  }

  /** Nine points, grouped by year, three countries each. */
  const SingleMeasure := TestableDataset([
    SingleRow("2010", "NO", 20), SingleRow("2010", "SE", 40), SingleRow("2010", "DK", 60),
    SingleRow("2011", "NO", 11), SingleRow("2011", "SE", 31), SingleRow("2011", "DK", 51),
    SingleRow("2012", "NO", 72), SingleRow("2012", "SE", 82), SingleRow("2012", "DK", 92)],
    [Time, Geo, M1])

  /** The same points with a second measure. */
  const MultiMeasure := TestableDataset([
    MultiRow("2010", "NO", 20, 2), MultiRow("2010", "SE", 40, 4), MultiRow("2010", "DK", 60, 6),
    MultiRow("2011", "NO", 11, 1), MultiRow("2011", "SE", 31, 3), MultiRow("2011", "DK", 51, 5),
    MultiRow("2012", "NO", 72, 7), MultiRow("2012", "SE", 82, 8), MultiRow("2012", "DK", 92, 9)],
    [Time, Geo, M1, M2])

  /** The `m1` amounts of both datasets, keyed by year. */
  const YearEntries: seq<(seq<Value>, int)> := [
    ([Str("2010")], 20), ([Str("2010")], 40), ([Str("2010")], 60),
    ([Str("2011")], 11), ([Str("2011")], 31), ([Str("2011")], 51),
    ([Str("2012")], 72), ([Str("2012")], 82), ([Str("2012")], 92)]

  /** One row per year: 20+40+60, 11+31+51 and 72+82+92. */
  const YearSums: seq<Row> := [[Str("2010"), Long(120)], [Str("2011"), Long(93)], [Str("2012"), Long(246)]]

  /** Entry `n - 1` extends the last run when it has that run's key. */
  lemma RunsMerge<K>(e: seq<(K, int)>, n: nat, prev: seq<(K, int)>, k: K, amount: int)
    requires 0 < n <= |e| && Runs(e, n - 1) == prev + [(k, amount)] && e[n - 1].0 == k
    ensures Runs(e, n) == prev + [(k, amount + e[n - 1].1)]
  {
    assert (prev + [(k, amount)])[..|prev|] == prev;
  }

  /** Entry `n - 1` starts a new run when its key differs from the last. */
  lemma RunsNew<K>(e: seq<(K, int)>, n: nat, prev: seq<(K, int)>, k: K, amount: int)
    requires 0 < n <= |e| && Runs(e, n - 1) == prev + [(k, amount)] && e[n - 1].0 != k
    ensures Runs(e, n) == (prev + [(k, amount)]) + [(e[n - 1].0, e[n - 1].1)]
  {
  }

  /** Nine entries in three runs of three keys reduce to three sums. */
  lemma RunsOfThreeRuns<K>(e: seq<(K, int)>, a: K, b: K, c: K)
    requires a != b && b != c && |e| == 9
    requires e[0].0 == a && e[1].0 == a && e[2].0 == a
    requires e[3].0 == b && e[4].0 == b && e[5].0 == b
    requires e[6].0 == c && e[7].0 == c && e[8].0 == c
    ensures Runs(e, 9) == [(a, e[0].1 + e[1].1 + e[2].1), (b, e[3].1 + e[4].1 + e[5].1), (c, e[6].1 + e[7].1 + e[8].1)]
  {
    var x := (a, e[0].1 + e[1].1 + e[2].1);
    var y := (b, e[3].1 + e[4].1 + e[5].1);
    RunsOfTwoRuns(e, a, b);
    RunsOfNextThree(e, 6, [x, y], c);
    AppendToPair(x, y, (c, e[6].1 + e[7].1 + e[8].1));
  }

  /** Six entries in two runs of three keys reduce to two sums. */
  lemma RunsOfTwoRuns<K>(e: seq<(K, int)>, a: K, b: K)
    requires a != b && 6 <= |e|
    requires e[0].0 == a && e[1].0 == a && e[2].0 == a
    requires e[3].0 == b && e[4].0 == b && e[5].0 == b
    ensures Runs(e, 6) == [(a, e[0].1 + e[1].1 + e[2].1), (b, e[3].1 + e[4].1 + e[5].1)]
  {
    var x := (a, e[0].1 + e[1].1 + e[2].1);
    RunsOfFirstThree(e, a);
    RunsOfNextThree(e, 3, [x], b);
    AppendToSingle(x, (b, e[3].1 + e[4].1 + e[5].1));
  }

  lemma AppendToSingle<T>(x: T, y: T)
    ensures [x] + [y] == [x, y]
  {
  }

  lemma AppendToPair<T>(x: T, y: T, z: T)
    ensures [x, y] + [z] == [x, y, z]
  {
  }

  /** Three leading entries with one key make one run. */
  lemma RunsOfFirstThree<K>(e: seq<(K, int)>, a: K)
    requires 3 <= |e| && e[0].0 == a && e[1].0 == a && e[2].0 == a
    ensures Runs(e, 3) == [(a, e[0].1 + e[1].1 + e[2].1)]
  {
    assert Runs(e, 1) == [] + [(a, e[0].1)];
    RunsMerge(e, 2, [], a, e[0].1);
    RunsMerge(e, 3, [], a, e[0].1 + e[1].1);
  }

  /** Three entries with a new key after the runs `cur` add one run. */
  lemma RunsOfNextThree<K>(e: seq<(K, int)>, n: nat, cur: seq<(K, int)>, k: K)
    requires n + 3 <= |e| && Runs(e, n) == cur && |cur| > 0 && cur[|cur| - 1].0 != k
    requires e[n].0 == k && e[n + 1].0 == k && e[n + 2].0 == k
    ensures Runs(e, n + 3) == cur + [(k, e[n].1 + e[n + 1].1 + e[n + 2].1)]
  {
    var prev := cur[..|cur| - 1];
    var last := cur[|cur| - 1];
    assert cur == prev + [last];
    RunsNew(e, n + 1, prev, last.0, last.1);
    assert Runs(e, n + 1) == cur + [(k, e[n].1)];
    RunsMerge(e, n + 2, cur, k, e[n].1);
    RunsMerge(e, n + 3, cur, k, e[n].1 + e[n + 1].1);
  }

  lemma RunsOfYearEntries()
    ensures Runs(YearEntries, 9) == YearRuns
  {
    assert [Str("2010")] != [Str("2011")] by { assert [Str("2010")][0] != [Str("2011")][0]; }
    assert [Str("2011")] != [Str("2012")] by { assert [Str("2011")][0] != [Str("2012")][0]; }
    RunsOfThreeRuns(YearEntries, [Str("2010")], [Str("2011")], [Str("2012")]);
  }

  /** Grouping by `time` and summing `m1` reads columns 0 and 2. */
  lemma EntriesByYear(ds: TestableDataset)
    requires ds.Valid() && |ds.structure| >= 3
    requires ds.structure[0] == Time && ds.structure[1] == Geo && ds.structure[2] == M1
    ensures forall r :: 0 <= r < |ds.data| ==>
      Entries(ds, [Time], M1)[r] == ([ds.data[r][0]], Amount(ds.data[r][2]))
  {
    assert M1 in ds.structure && Time in ds.structure by {
      assert ds.structure[0] == Time && ds.structure[2] == M1;
    }
    assert Position(ds.structure, Time) == 0;
    assert Position(ds.structure, M1) == 2 by {
      assert ds.structure[1..][0] == Geo && ds.structure[1..][1..][0] == M1;
    }
    forall r | 0 <= r < |ds.data|
      ensures Entries(ds, [Time], M1)[r] == ([ds.data[r][0]], Amount(ds.data[r][2]))
    {
      assert |ds.data[r]| == |ds.structure|;
      assert Entries(ds, [Time], M1)[r].0 == [ds.data[r][0]];
    }
  }

  lemma SingleMeasureValid()
    ensures SingleMeasure.Valid()
  {
    forall r | 0 <= r < |SingleMeasure.data|
      ensures Conforms(SingleMeasure.data[r], SingleMeasure.structure)
    {
    }
  }

  lemma MultiMeasureValid()
    ensures MultiMeasure.Valid()
  {
    forall r | 0 <= r < |MultiMeasure.data|
      ensures Conforms(MultiMeasure.data[r], MultiMeasure.structure)
    {
    }
  }

  lemma SingleMeasureEntries()
    ensures SingleMeasure.Valid()
    ensures Entries(SingleMeasure, [Time], M1) == YearEntries
  {
    SingleMeasureValid();
    EntriesByYear(SingleMeasure);
  }

  lemma MultiMeasureEntries()
    ensures MultiMeasure.Valid()
    ensures Entries(MultiMeasure, [Time], M1) == YearEntries
  {
    MultiMeasureValid();
    EntriesByYear(MultiMeasure);
  }

  /** The data of a sum, row by row, from the runs of its entries. */
  lemma SumOfData(ds: TestableDataset, groupBy: seq<Component>, measure: Component)
    requires ds.Valid() && measure in ds.structure && measure.typ == LongType
    requires forall g :: g in groupBy ==> g in ds.structure
    ensures var runs := Runs(Entries(ds, groupBy, measure), |ds.data|);
      |SumOf(ds, groupBy, measure).data| == |runs| &&
      forall j :: 0 <= j < |runs| ==> SumOf(ds, groupBy, measure).data[j] == runs[j].0 + [Long(runs[j].1)]
  {
  }

  /** The runs of the year entries. */
  const YearRuns: seq<(seq<Value>, int)> := [([Str("2010")], 120), ([Str("2011")], 93), ([Str("2012")], 246)]

  lemma RowsOfYearRuns(data: seq<Row>)
    requires |data| == |YearRuns|
    requires forall j :: 0 <= j < |YearRuns| ==> data[j] == YearRuns[j].0 + [Long(YearRuns[j].1)]
    ensures data == YearSums
  {
    assert data[0] == YearSums[0] && data[1] == YearSums[1] && data[2] == YearSums[2];
  }

  /** Summing `m1` by `time` over rows whose `m1` entries are the year
      entries gives one row per year. */
  lemma SumOfYearEntries(ds: TestableDataset)
    requires ds.Valid() && M1 in ds.structure && Time in ds.structure
    requires Entries(ds, [Time], M1) == YearEntries
    ensures SumOf(ds, [Time], M1) == SumOperation([Time, M1], YearSums)
  {
    var op := SumOf(ds, [Time], M1);
    assert op.data == YearSums by {
      RunsOfYearEntries();
      SumOfData(ds, [Time], M1);
      RowsOfYearRuns(op.data);
    }
    assert op.structure == [Time, M1];
  }

  /** Summing `m1` by `time` gives 120, 93 and 246 and the structure
      (`time` identifier string, `m1` measure long). */
  lemma SumSingleMeasureExample()
    ensures SingleMeasure.Valid()
    ensures SumOfOnlyMeasure(SingleMeasure, [Time]) == Success(SumOperation([Time, M1], YearSums))
  {
    SingleMeasureEntries();
    SumOfYearEntries(SingleMeasure);
    assert Measures([M1]) == [M1] by { assert [M1][1..] == []; }
    assert Measures([Geo, M1]) == [M1] by { assert [Geo, M1][1..] == [M1]; }
    assert Measures([Time, Geo, M1]) == [M1] by { assert [Time, Geo, M1][1..] == [Geo, M1]; }
  }

  /** The convenience form refuses the two-measure dataset. */
  lemma SumMultiMeasureFails()
    ensures MultiMeasure.Valid()
    ensures SumOfOnlyMeasure(MultiMeasure, [Time]) == Failure(IllegalArgument(2))
  {
    MultiMeasureValid();
    assert Measures([M2]) == [M2] by { assert [M2][1..] == []; }
    assert Measures([M1, M2]) == [M1, M2] by { assert [M1, M2][1..] == [M2]; }
    assert Measures([Geo, M1, M2]) == [M1, M2] by { assert [Geo, M1, M2][1..] == [M1, M2]; }
    assert Measures([Time, Geo, M1, M2]) == [M1, M2] by { assert [Time, Geo, M1, M2][1..] == [Geo, M1, M2]; }
  }

  /** Naming `m1` sums it alone, with the same totals as the one-measure
      dataset. */
  lemma SumMultiMeasureExplicitExample()
    ensures MultiMeasure.Valid()
    ensures SumOf(MultiMeasure, [Time], M1) == SumOperation([Time, M1], YearSums)
  {
    MultiMeasureEntries();
    SumOfYearEntries(MultiMeasure);
  }
}
