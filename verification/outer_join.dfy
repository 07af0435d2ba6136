/** `OuterJoinOperation`: the constructor's join scope and `computeData`, the
    left-to-right fold that opens one source stream per dataset, wires them
    into pairwise outer joins and registers every opened stream with a
    closer. The operations it calls on other classes (finding a compatible
    order, the join predicate, adjusting an order to a structure, opening a
    source, the join spliterator and merger) are not shown; they appear as
    parameters, and streams are terms that record how they were built. */
module OuterJoin {

  import opened Wrappers

  /** A structure, as the names of its components in order. */
  type Structure = seq<string>

  datatype Dataset = Dataset(name: string, structure: Structure)

  /** An ordering request; only passed around, never inspected. */
  datatype Ordering = Ordering(columns: seq<string>)

  /** A filtering request; only passed around, never inspected. */
  datatype Filtering = Filtering(description: string)

  datatype Exception =
    | UnsupportedOperation(message: Option<string>)
    | NoSuchElement
    | Raised(code: nat)

  datatype IoError = IoError(code: nat)

  /** What closing the closer can throw: an `IOException`, which the
      catch clauses around `closer.close()` handle, or an unchecked
      exception, which they let through. */
  datatype CloseFailure = Checked(io: IoError) | Unchecked(exception: Exception)

  /** An exception as it leaves `computeData`, with the exceptions added to
      it as suppressed. */
  datatype Thrown = Thrown(exception: Exception, suppressed: seq<IoError>)

  /** How a key extractor maps the join's components to the row's:
      through a dataset's column of the component mapping, or unchanged. */
  datatype Mapping = ColumnOf(dataset: Dataset) | Identity

  datatype KeyExtractor = KeyExtractor(structure: Structure, joinPredicate: Ordering, mapping: Mapping)

  /** A stream of data points, as the term that built it. `Source` is the
      stream opened for the dataset at position `pos`; `Expanded` is the
      `peek` that grows each data point to `capacity` values; `Joined` is an
      outer join of two streams; `OnClose` attaches the close hook. */
  datatype Stream =
    | Source(pos: nat, dataset: Dataset, order: Ordering, filtering: Filtering, columns: set<string>)
    | Expanded(inner: Stream, capacity: nat)
    | Joined(left: Stream, right: Stream, leftKey: KeyExtractor, rightKey: KeyExtractor,
             joinPredicate: Ordering, merger: Dataset)
    | OnClose(inner: Stream)

  /** The operations `computeData` calls but that are not part of this
      model, and the places where it can throw. `predicateFails` is what
      `computePredicate` throws, `mappingFails` what `getComponentMapping`
      throws, `openFails(k)` what adjusting the order for and opening the
      `k`-th source throws, `expandFails` what adding the capacity expander
      to the first stream throws, `joinFails(k)` what building the join
      that brings in the `k`-th dataset throws, and `closeFails` what
      closing a closer that holds at least one stream throws. */
  datatype Collaborators = Collaborators(
    compatibleOrder: Ordering -> Option<Ordering>,
    predicateOf: Ordering -> Ordering,
    predicateFails: Option<Exception>,
    adjust: (Ordering, Structure) -> Ordering,
    mappingFails: Option<Exception>,
    openFails: nat -> Option<Exception>,
    expandFails: Option<Exception>,
    joinFails: nat -> Option<Exception>,
    closeFails: Option<CloseFailure>)

  /** The datasets to join, in the iteration order of their map, and the
      structure of the join's result. */
  datatype JoinOperation = JoinOperation(datasets: seq<Dataset>, structure: Structure)

  // ------------------------------------------------------------ join scope

  /** The names the common identifiers are put under. */
  function ScopeNames<C>(ids: seq<C>, nameOf: C -> string): set<string> {
    set i | 0 <= i < |ids| :: nameOf(ids[i])
  }

  /** The constructor's loop: each common identifier is put into the join
      scope under its name in the join's structure. */
  function JoinScope<C>(scope: map<string, C>, ids: seq<C>, nameOf: C -> string): (r: map<string, C>)
    ensures r.Keys == scope.Keys + ScopeNames(ids, nameOf)
    ensures forall k :: k in r && k !in ScopeNames(ids, nameOf) ==> r[k] == scope[k]
  {
    if |ids| == 0 then scope
    else
      var front := ids[..|ids| - 1];
      var last := ids[|ids| - 1];
      assert ScopeNames(ids, nameOf) == ScopeNames(front, nameOf) + {nameOf(last)} by {
        assert forall i :: 0 <= i < |front| ==> front[i] == ids[i];
      }
      JoinScope(scope, front, nameOf)[nameOf(last) := last]
  }

  /** Last writer wins: an identifier whose name no later identifier shares
      is what the scope holds under that name. */
  lemma {:induction false} JoinScopeLastWins<C>(scope: map<string, C>, ids: seq<C>, nameOf: C -> string, i: nat)
    requires i < |ids|
    requires forall j :: i < j < |ids| ==> nameOf(ids[j]) != nameOf(ids[i])
    ensures nameOf(ids[i]) in JoinScope(scope, ids, nameOf)
    ensures JoinScope(scope, ids, nameOf)[nameOf(ids[i])] == ids[i]
  {
    var front := ids[..|ids| - 1];
    if i < |ids| - 1 {
      assert front[i] == ids[i];
      JoinScopeLastWins(scope, front, nameOf, i);
    }
  }

  /** With distinct names, every common identifier can be found under its
      own name. */
  lemma JoinScopeFindsEachIdentifier<C>(scope: map<string, C>, ids: seq<C>, nameOf: C -> string)
    requires forall i, j :: 0 <= i < j < |ids| ==> nameOf(ids[i]) != nameOf(ids[j])
    ensures forall i :: 0 <= i < |ids| ==>
      nameOf(ids[i]) in JoinScope(scope, ids, nameOf) && JoinScope(scope, ids, nameOf)[nameOf(ids[i])] == ids[i]
  {
    forall i | 0 <= i < |ids|
      ensures nameOf(ids[i]) in JoinScope(scope, ids, nameOf) && JoinScope(scope, ids, nameOf)[nameOf(ids[i])] == ids[i]
    {
      JoinScopeLastWins(scope, ids, nameOf, i);
    }
  }

  // ---------------------------------------------------------------- closer

  /** The closer: what was registered, whether it was closed, and the
      streams closed so far, in order. */
  datatype Closer = Closer(registered: seq<Stream>, closed: bool, closeLog: seq<Stream>)

  function NewCloser(): Closer {
    Closer([], false, [])
  }

  function Register(c: Closer, s: Stream): Closer {
    c.(registered := c.registered + [s])
  }

  function Reverse<T>(s: seq<T>): (r: seq<T>)
    ensures |r| == |s|
    ensures forall i :: 0 <= i < |s| ==> r[i] == s[|s| - 1 - i]
  {
    if |s| == 0 then [] else [s[|s| - 1]] + Reverse(s[..|s| - 1])
  }

  /** Reversing keeps every element as often as it was there. */
  lemma {:induction false} ReverseIsPermutation<T>(s: seq<T>)
    ensures multiset(Reverse(s)) == multiset(s)
  {
    if |s| > 0 {
      var front := s[..|s| - 1];
      ReverseIsPermutation(front);
      assert s == front + [s[|s| - 1]];
    }
  }

  /** `closer.close()`: the first close closes the registered streams, the
      last registered first, and throws what closing them threw, which is
      nothing when nothing was registered; a second close does nothing. */
  function Close(c: Closer, failure: Option<CloseFailure>): (r: (Closer, Option<CloseFailure>))
    ensures r.0.closed && r.0.registered == c.registered
    ensures c.closed ==> r == (c, None)
    ensures !c.closed ==> r.1 == (if |c.registered| > 0 then failure else None)
    ensures !c.closed ==> multiset(r.0.closeLog) == multiset(c.closeLog) + multiset(c.registered)
  {
    if c.closed then (c, None)
    else
      ReverseIsPermutation(c.registered);
      (Closer(c.registered, true, c.closeLog + Reverse(c.registered)), if |c.registered| > 0 then failure else None)
  }

  /** Closing twice is closing once. */
  lemma CloseIdempotent(c: Closer, f: Option<CloseFailure>, g: Option<CloseFailure>)
    ensures Close(Close(c, f).0, g) == (Close(c, f).0, None)
  {
  }

  /** A closer that has closed nothing yet closes each registered stream
      exactly once, however often it is closed. */
  lemma CloseClosesEachOnce(c: Closer, f: Option<CloseFailure>, g: Option<CloseFailure>, s: Stream)
    requires !c.closed && c.closeLog == []
    ensures multiset(Close(c, f).0.closeLog)[s] == multiset(c.registered)[s]
    ensures Close(Close(c, f).0, g).0.closeLog == Close(c, f).0.closeLog
  {
  }

  // ---------------------------------------------------------------- wiring

  /** What the fold has built so far: the first stream, the current result,
      the `originals` list, the streams opened in order, and the closer. */
  datatype Wiring = Wiring(first: Stream, result: Stream, originals: seq<Stream>, streams: seq<Stream>, closer: Closer)

  /** The fold either goes on, or stopped on an exception with what it had
      opened and registered by then. */
  datatype Progress = Wired(wiring: Wiring) | Broken(error: Exception, streams: seq<Stream>, closer: Closer)

  /** The parameters of one `computeData` call, after the order check. */
  datatype Call = Call(op: JoinOperation, c: Collaborators, required: Ordering, filtering: Filtering, columns: set<string>)
  {
    function Predicate(): Ordering {
      c.predicateOf(required)
    }

    function Capacity(): nat {
      |op.structure|
    }

    /** The stream `getOrSortData` opens for the dataset at position `k`. */
    function OpenSource(k: nat): Stream
      requires k < |op.datasets|
    {
      Source(k, op.datasets[k], c.adjust(required, op.datasets[k].structure), filtering, columns)
    }
  }

  /** What the closer holds once `opened` are open: the first stream behind
      its capacity expander, then the other streams as they are. */
  function Handles(streams: seq<Stream>, capacity: nat): seq<Stream> {
    if |streams| == 0 then [] else [Expanded(streams[0], capacity)] + streams[1..]
  }

  /** The first stream is open but the expander step after it threw, so
      it was never registered. */
  predicate FirstStreamLeaks(c: Collaborators) {
    c.mappingFails.None? && c.openFails(0).None? && c.expandFails.Some?
  }

  /** Up to the opening of the first stream, which is wrapped and
      registered. The component mapping is computed first; a throw between
      the opening and the registration leaves the stream open and
      unregistered. */
  function Start(call: Call): (p: Progress)
    requires |call.op.datasets| >= 1
    ensures p.Wired? <==> call.c.mappingFails.None? && call.c.openFails(0).None? && call.c.expandFails.None?
    ensures p.Wired? ==> p.wiring.streams == [call.OpenSource(0)]
    ensures p.Wired? ==> p.wiring.closer == Closer([Expanded(call.OpenSource(0), call.Capacity())], false, [])
    ensures p.Broken? ==> CloserOf(p) == NewCloser()
    ensures p.Broken? ==> OpenedOf(p) == if FirstStreamLeaks(call.c) then [call.OpenSource(0)] else []
  {
    var c := call.c;
    if c.mappingFails.Some? then Broken(c.mappingFails.value, [], NewCloser())
    else if c.openFails(0).Some? then Broken(c.openFails(0).value, [], NewCloser())
    else
      var original := call.OpenSource(0);
      if c.expandFails.Some? then Broken(c.expandFails.value, [original], NewCloser())
      else
        var result := Expanded(original, call.Capacity());
        Wired(Wiring(original, result, [original], [original], Register(NewCloser(), result)))
  }

  /** One turn of the loop, bringing in the dataset at position `i`: its
      stream is opened and registered, `original` is added to the
      originals, and the result so far is outer-joined with it. Only the
      first turn keys the left side by the first dataset's structure and
      mapping column; later turns key it by the join's structure. */
  function FoldStep(call: Call, w: Wiring, i: nat): (p: Progress)
    requires 1 <= i < |call.op.datasets|
    ensures p.Wired? <==> call.c.openFails(i).None? && call.c.joinFails(i).None?
    ensures p.Wired? ==> p.wiring.streams == w.streams + [call.OpenSource(i)]
    ensures p.Wired? ==> p.wiring.closer.registered == w.closer.registered + [call.OpenSource(i)]
    ensures p.Broken? ==> OpenedOf(p) == w.streams + (if call.c.openFails(i).Some? then [] else [call.OpenSource(i)])
  {
    var c := call.c;
    if c.openFails(i).Some? then Broken(c.openFails(i).value, w.streams, w.closer)
    else
      var rightStream := call.OpenSource(i);
      var closer := Register(w.closer, rightStream);
      if c.joinFails(i).Some? then Broken(c.joinFails(i).value, w.streams + [rightStream], closer)
      else
        var left := call.op.datasets[i - 1];
        var right := call.op.datasets[i];
        var leftKey := if i == 1 then KeyExtractor(left.structure, call.Predicate(), ColumnOf(left))
                       else KeyExtractor(call.op.structure, call.Predicate(), Identity);
        var rightKey := KeyExtractor(right.structure, call.Predicate(), ColumnOf(right));
        var result := Joined(w.result, rightStream, leftKey, rightKey, call.Predicate(), right);
        Wired(Wiring(w.first, result, w.originals + [w.first], w.streams + [rightStream], closer))
  }

  /** The state after the first `n` datasets. */
  function Wire(call: Call, n: nat): (p: Progress)
    requires 1 <= n <= |call.op.datasets|
    ensures p.Wired? ==> |p.wiring.streams| == n && p.wiring.first == call.OpenSource(0)
    ensures p.Broken? ==> |OpenedOf(p)| <= n
  {
    if n == 1 then Start(call)
    else match Wire(call, n - 1)
      case Broken(e, streams, closer) => Broken(e, streams, closer)
      case Wired(w) => FoldStep(call, w, n - 1)
  }

  /** Nothing among the first `n` datasets throws while being wired. */
  predicate NoFailureBefore(c: Collaborators, n: nat) {
    c.mappingFails.None? && c.expandFails.None? &&
    forall k :: 0 <= k < n ==> c.openFails(k).None? && (k >= 1 ==> c.joinFails(k).None?)
  }

  /** The exception wiring the first `n` datasets stops on, if any: the
      failure points in the order the source meets them. */
  function FirstFailure(c: Collaborators, n: nat): Option<Exception>
    requires n >= 1
  {
    if n == 1 then
      if c.mappingFails.Some? then c.mappingFails
      else if c.openFails(0).Some? then c.openFails(0)
      else c.expandFails
    else if FirstFailure(c, n - 1).Some? then FirstFailure(c, n - 1)
    else if c.openFails(n - 1).Some? then c.openFails(n - 1)
    else c.joinFails(n - 1)
  }

  /** The opened streams are the sources of the first datasets, in order,
      each with the required order adjusted to its own structure and the
      caller's filtering and columns. */
  predicate OpenedInOrder(call: Call, streams: seq<Stream>) {
    |streams| <= |call.op.datasets| &&
    forall k :: 0 <= k < |streams| ==> streams[k] == call.OpenSource(k)
  }

  /** Every opened stream is registered, and the closer is still open. */
  predicate Registered(call: Call, streams: seq<Stream>, closer: Closer) {
    closer.registered == Handles(streams, call.Capacity()) && !closer.closed && closer.closeLog == []
  }

  function OpenedOf(p: Progress): seq<Stream> {
    match p
    case Wired(w) => w.streams
    case Broken(_, streams, _) => streams
  }

  function CloserOf(p: Progress): Closer {
    match p
    case Wired(w) => w.closer
    case Broken(_, _, closer) => closer
  }

  /** The streams opened, whether or not the fold went through: the sources
      in dataset order, all registered; all `n` of them when it went through. */
  lemma {:induction false} WireOpens(call: Call, n: nat)
    requires 1 <= n <= |call.op.datasets|
    ensures OpenedInOrder(call, OpenedOf(Wire(call, n)))
    ensures !FirstStreamLeaks(call.c) ==> Registered(call, OpenedOf(Wire(call, n)), CloserOf(Wire(call, n)))
    ensures !CloserOf(Wire(call, n)).closed && CloserOf(Wire(call, n)).closeLog == []
    ensures |OpenedOf(Wire(call, n))| <= n
    ensures Wire(call, n).Wired? ==> |OpenedOf(Wire(call, n))| == n
  {
    if FirstStreamLeaks(call.c) {
      WireLeaksFirstStream(call, n);
    } else if n > 1 {
      WireOpens(call, n - 1);
      match Wire(call, n - 1)
      case Broken(_, _, _) =>
      case Wired(w) => FoldStepOpens(call, w, n - 1);
    }
  }

  /** When the expander step throws, the call stops there with the first
      stream open and nothing registered. */
  lemma {:induction false} WireLeaksFirstStream(call: Call, n: nat)
    requires 1 <= n <= |call.op.datasets| && FirstStreamLeaks(call.c)
    ensures Wire(call, n) == Broken(call.c.expandFails.value, [call.OpenSource(0)], NewCloser())
  {
    if n > 1 {
      WireLeaksFirstStream(call, n - 1);
    }
  }

  /** One turn keeps the opened streams in order and registered, adding
      at most the one for dataset `i`. */
  lemma FoldStepOpens(call: Call, w: Wiring, i: nat)
    requires 1 <= i < |call.op.datasets|
    requires |w.streams| == i && OpenedInOrder(call, w.streams) && Registered(call, w.streams, w.closer)
    ensures OpenedInOrder(call, OpenedOf(FoldStep(call, w, i)))
    ensures Registered(call, OpenedOf(FoldStep(call, w, i)), CloserOf(FoldStep(call, w, i)))
    ensures |OpenedOf(FoldStep(call, w, i))| <= i + 1
    ensures FoldStep(call, w, i).Wired? ==> |OpenedOf(FoldStep(call, w, i))| == i + 1
  {
    if call.c.openFails(i).None? {
      HandlesSnoc(w.streams, call.OpenSource(i), call.Capacity());
    }
  }

  lemma HandlesSnoc(streams: seq<Stream>, s: Stream, capacity: nat)
    requires |streams| >= 1
    ensures Handles(streams + [s], capacity) == Handles(streams, capacity) + [s]
  {
    assert (streams + [s])[1..] == streams[1..] + [s];
  }

  /** The fold goes through exactly when nothing throws. */
  lemma {:induction false} WireSucceedsIff(call: Call, n: nat)
    requires 1 <= n <= |call.op.datasets|
    ensures Wire(call, n).Wired? <==> NoFailureBefore(call.c, n)
  {
    if n > 1 {
      WireSucceedsIff(call, n - 1);
      assert NoFailureBefore(call.c, n) <==> (NoFailureBefore(call.c, n - 1) &&
        call.c.openFails(n - 1).None? && call.c.joinFails(n - 1).None?);
    }
  }

  /** The fold stops exactly on the first failure point that throws, with
      that exception. */
  lemma {:induction false} WireStopsOnFirstFailure(call: Call, n: nat)
    requires 1 <= n <= |call.op.datasets|
    ensures Wire(call, n).Wired? <==> FirstFailure(call.c, n).None?
    ensures Wire(call, n).Broken? ==> Wire(call, n).error == FirstFailure(call.c, n).value
  {
    if n > 1 {
      WireStopsOnFirstFailure(call, n - 1);
    }
  }

  /** Each entry of `originals` is the first stream, one per dataset, and
      the first stream is the one opened first. */
  lemma {:induction false} WireOriginals(call: Call, n: nat)
    requires 1 <= n <= |call.op.datasets|
    ensures Wire(call, n).Wired? ==>
      Wire(call, n).wiring.first == call.OpenSource(0) &&
      |Wire(call, n).wiring.originals| == n &&
      forall k :: 0 <= k < n ==> Wire(call, n).wiring.originals[k] == call.OpenSource(0)
  {
    if n > 1 {
      WireOriginals(call, n - 1);
    }
  }

  // ------------------------------------------------------ shape of the join

  /** The right-hand streams of the joins along the left spine, innermost
      first. */
  function RightStreams(s: Stream): seq<Stream> {
    if s.Joined? then RightStreams(s.left) + [s.right] else []
  }

  /** The left key extractors along the left spine, innermost first. */
  function LeftKeys(s: Stream): seq<KeyExtractor> {
    if s.Joined? then LeftKeys(s.left) + [s.leftKey] else []
  }

  /** The right key extractors along the left spine, innermost first. */
  function RightKeys(s: Stream): seq<KeyExtractor> {
    if s.Joined? then RightKeys(s.left) + [s.rightKey] else []
  }

  /** The stream at the bottom of the left spine. */
  function Innermost(s: Stream): Stream {
    if s.Joined? then Innermost(s.left) else s
  }

  /** The left key of the `j`-th join: the first dataset's structure and
      mapping column for the first join, the join's structure with the
      identity mapping for every later one. */
  function ExpectedLeftKey(call: Call, j: nat): KeyExtractor
    requires j < |call.op.datasets|
  {
    var first := call.op.datasets[0];
    if j == 0 then KeyExtractor(first.structure, call.Predicate(), ColumnOf(first))
    else KeyExtractor(call.op.structure, call.Predicate(), Identity)
  }

  /** The right key of the join that brings in dataset `i`: that dataset's
      structure and mapping column. */
  function ExpectedRightKey(call: Call, i: nat): KeyExtractor
    requires i < |call.op.datasets|
  {
    var right := call.op.datasets[i];
    KeyExtractor(right.structure, call.Predicate(), ColumnOf(right))
  }

  /** The result after `n` datasets is a left-deep tree of `n - 1` outer
      joins over the expanded first stream, whose right sides are the other
      opened streams in order, with the keys the first-fold rule gives. */
  predicate JoinShape(call: Call, w: Wiring, n: nat)
    requires 1 <= n <= |call.op.datasets|
  {
    Innermost(w.result) == Expanded(call.OpenSource(0), call.Capacity()) &&
    |w.streams| >= 1 && RightStreams(w.result) == w.streams[1..] &&
    |LeftKeys(w.result)| == n - 1 && |RightKeys(w.result)| == n - 1 &&
    (forall j :: 0 <= j < n - 1 ==> LeftKeys(w.result)[j] == ExpectedLeftKey(call, j)) &&
    (forall j :: 0 <= j < n - 1 ==> RightKeys(w.result)[j] == ExpectedRightKey(call, j + 1))
  }

  /** N datasets give N-1 outer joins in dataset order. */
  lemma {:induction false} WireShape(call: Call, n: nat)
    requires 1 <= n <= |call.op.datasets|
    ensures Wire(call, n).Wired? ==> JoinShape(call, Wire(call, n).wiring, n)
  {
    if n > 1 {
      WireShape(call, n - 1);
      match Wire(call, n - 1)
      case Broken(_, _, _) =>
      case Wired(w) => FoldStepShape(call, w, n - 1);
    }
  }

  lemma FoldStepShape(call: Call, w: Wiring, i: nat)
    requires 1 <= i < |call.op.datasets|
    requires JoinShape(call, w, i)
    ensures FoldStep(call, w, i).Wired? ==> JoinShape(call, FoldStep(call, w, i).wiring, i + 1)
  {
    if FoldStep(call, w, i).Wired? {
      var s := call.OpenSource(i);
      var w' := FoldStep(call, w, i).wiring;
      assert w'.streams == w.streams + [s];
      assert (w.streams + [s])[1..] == w.streams[1..] + [s];
      assert LeftKeys(w'.result) == LeftKeys(w.result) + [ExpectedLeftKey(call, i - 1)];
      assert RightKeys(w'.result) == RightKeys(w.result) + [ExpectedRightKey(call, i)];
    }
  }

  // ------------------------------------------------------------ computeData

  /** The stream `computeData` returns: the delegate carrying the close
      hook, the originals, the caller's orders and filtering, and the
      required order and filtering the result satisfies. */
  datatype VtlStream = VtlStream(delegate: Stream, originals: seq<Stream>, orders: Ordering,
                                 filtering: Filtering, requiredOrder: Ordering, requiredFiltering: Filtering)

  /** What a call leaves behind: the stream or the exception, the streams it
      opened, and its closer if it created one. */
  datatype Outcome = Outcome(result: Result<VtlStream, Thrown>, streams: seq<Stream>, closer: Option<Closer>)

  /** `computeData(orders, filtering, components)`. */
  function ComputeData(op: JoinOperation, c: Collaborators, orders: Ordering, filtering: Filtering,
                       columns: set<string>): (out: Outcome)
    ensures c.compatibleOrder(orders).None? ==>
      out == Outcome(Failure(Thrown(UnsupportedOperation(None), [])), [], None)
    ensures c.compatibleOrder(orders).Some? && c.predicateFails.Some? ==>
      out == Outcome(Failure(Thrown(c.predicateFails.value, [])), [], None)
    ensures c.compatibleOrder(orders).Some? && c.predicateFails.None? && |op.datasets| == 0 ==>
      out == Outcome(Failure(Thrown(NoSuchElement, [])), [], None)
    ensures out.result.Failure? && out.closer.Some? ==>
      out.closer.value.closed &&
      multiset(out.closer.value.closeLog) == multiset(out.closer.value.registered) &&
      |op.datasets| >= 1 && FirstFailure(c, |op.datasets|).Some?
    ensures out.result.Failure? && out.closer.Some? && |op.datasets| >= 1 && FirstFailure(c, |op.datasets|).Some? ==>
      var e := FirstFailure(c, |op.datasets|).value;
      var f := if |out.closer.value.registered| > 0 then c.closeFails else None;
      (f.None? ==> out.result.error == Thrown(e, [])) &&
      (f.Some? && f.value.Checked? ==> out.result.error == Thrown(e, [f.value.io])) &&
      (f.Some? && f.value.Unchecked? ==> out.result.error == Thrown(f.value.exception, []))
    ensures out.result.Success? ==>
      out.closer.Some? && !out.closer.value.closed &&
      out.result.value.orders == orders &&
      out.result.value.requiredOrder == c.compatibleOrder(orders).value &&
      out.result.value.filtering == filtering && out.result.value.requiredFiltering == filtering &&
      out.result.value.delegate.OnClose?
  {
    match c.compatibleOrder(orders)
    case None => Outcome(Failure(Thrown(UnsupportedOperation(None), [])), [], None)
    case Some(required) =>
      if c.predicateFails.Some? then Outcome(Failure(Thrown(c.predicateFails.value, [])), [], None)
      else if |op.datasets| == 0 then Outcome(Failure(Thrown(NoSuchElement, [])), [], None)
      else
        var call := Call(op, c, required, filtering, columns);
        WireOpens(call, |op.datasets|);
        WireStopsOnFirstFailure(call, |op.datasets|);
        match Wire(call, |op.datasets|)
        case Broken(e, streams, closer) => Caught(e, streams, closer, c.closeFails)
        case Wired(w) =>
          var v := VtlStream(OnClose(w.result), w.originals, orders, filtering, required, filtering);
          Outcome(Success(v), w.streams, Some(w.closer))
  }

  /** What the catch block throws once it has closed the closer: the
      wiring's exception, with an `IOException` from closing added as
      suppressed; an unchecked exception from closing escapes the inner
      catch and is thrown in its place. */
  function CatchBlock(e: Exception, f: Option<CloseFailure>): Thrown {
    match f
    case None => Thrown(e, [])
    case Some(Checked(io)) => Thrown(e, [io])
    case Some(Unchecked(u)) => Thrown(u, [])
  }

  /** The catch block: the closer is closed and the exception it throws is
      chosen by what closing threw. */
  function Caught(e: Exception, streams: seq<Stream>, closer: Closer, closeFails: Option<CloseFailure>): (out: Outcome)
    requires !closer.closed && closer.closeLog == []
    ensures out.result.Failure? && out.streams == streams && out.closer.Some?
    ensures out.closer.value.closed && out.closer.value.registered == closer.registered
    ensures multiset(out.closer.value.closeLog) == multiset(closer.registered)
    ensures var f := if |closer.registered| > 0 then closeFails else None;
      (f.None? ==> out.result.error == Thrown(e, [])) &&
      (f.Some? && f.value.Checked? ==> out.result.error == Thrown(e, [f.value.io])) &&
      (f.Some? && f.value.Unchecked? ==> out.result.error == Thrown(f.value.exception, []))
  {
    var (closed, f) := Close(closer, closeFails);
    Outcome(Failure(CatchBlock(e, f)), streams, Some(closed))
  }

  /** Closing the returned stream runs its hook: the closer is closed, an
      `IOException` from closing is dropped, and an unchecked exception
      from closing escapes the hook. */
  function CloseReturned(closer: Closer, closeFails: Option<CloseFailure>): (r: (Closer, Option<Exception>))
    ensures r.0.closed && r.0.registered == closer.registered
    ensures closer.closed ==> r == (closer, None)
    ensures !closer.closed ==> multiset(r.0.closeLog) == multiset(closer.closeLog) + multiset(closer.registered)
    ensures r.1.Some? <==> !closer.closed && |closer.registered| > 0 && closeFails.Some? && closeFails.value.Unchecked?
    ensures r.1.Some? ==> r.1.value == closeFails.value.exception
  {
    var (closed, f) := Close(closer, closeFails);
    (closed, if f.Some? && f.value.Unchecked? then Some(f.value.exception) else None)
  }

  /** The call after the order check, when there is one. */
  function CallOf(op: JoinOperation, c: Collaborators, orders: Ordering, filtering: Filtering,
                  columns: set<string>): Call
    requires c.compatibleOrder(orders).Some?
  {
    Call(op, c, c.compatibleOrder(orders).value, filtering, columns)
  }

  /** The call returns a stream exactly when there is a compatible order,
      at least one dataset, and nothing throws while wiring. */
  lemma ComputeDataSucceedsIff(op: JoinOperation, c: Collaborators, orders: Ordering, filtering: Filtering,
                               columns: set<string>)
    ensures ComputeData(op, c, orders, filtering, columns).result.Success? <==>
      c.compatibleOrder(orders).Some? && c.predicateFails.None? && |op.datasets| >= 1 &&
      NoFailureBefore(c, |op.datasets|)
  {
    if c.compatibleOrder(orders).Some? && c.predicateFails.None? && |op.datasets| >= 1 {
      WireSucceedsIff(CallOf(op, c, orders, filtering, columns), |op.datasets|);
    }
  }

  /** Whatever happens after the order check, the streams opened are the
      sources in dataset order and the closer is created exactly when the
      predicate was computed and there is a dataset to open. Every opened
      stream is registered, except the first one when the expander step
      after it throws. */
  lemma ComputeDataRegistersAll(op: JoinOperation, c: Collaborators, orders: Ordering, filtering: Filtering,
                                columns: set<string>)
    requires c.compatibleOrder(orders).Some?
    ensures var out := ComputeData(op, c, orders, filtering, columns);
      OpenedInOrder(CallOf(op, c, orders, filtering, columns), out.streams) &&
      (out.closer.Some? <==> c.predicateFails.None? && |op.datasets| >= 1) &&
      (out.closer.Some? && !FirstStreamLeaks(c) ==>
        out.closer.value.registered == Handles(out.streams, |op.structure|)) &&
      (out.result.Success? ==> out.closer.value.closeLog == [])
  {
    if c.predicateFails.None? && |op.datasets| >= 1 {
      var call := CallOf(op, c, orders, filtering, columns);
      WireOpens(call, |op.datasets|);
      if FirstStreamLeaks(c) {
        WireLeaksFirstStream(call, |op.datasets|);
      }
    }
  }

  /** When the expander step throws, the first stream has been opened but
      was never registered, so the catch block's close does not close it. */
  lemma ExpandFailureLeaksFirstStream(op: JoinOperation, c: Collaborators, orders: Ordering, filtering: Filtering,
                                      columns: set<string>)
    requires c.compatibleOrder(orders).Some? && c.predicateFails.None? && |op.datasets| >= 1
    requires FirstStreamLeaks(c)
    ensures var out := ComputeData(op, c, orders, filtering, columns);
      var first := CallOf(op, c, orders, filtering, columns).OpenSource(0);
      out.result.Failure? && out.streams == [first] &&
      out.closer.Some? && out.closer.value.registered == [] && first !in out.closer.value.closeLog
  {
    WireLeaksFirstStream(CallOf(op, c, orders, filtering, columns), |op.datasets|);
  }

  /** On success every dataset has its stream open, the originals list has
      one entry per dataset that is always the first stream, and the
      result is the left-deep join over the streams in dataset order. */
  lemma ComputeDataResult(op: JoinOperation, c: Collaborators, orders: Ordering, filtering: Filtering,
                          columns: set<string>)
    requires ComputeData(op, c, orders, filtering, columns).result.Success?
    ensures var out := ComputeData(op, c, orders, filtering, columns);
      var call := CallOf(op, c, orders, filtering, columns);
      var v := out.result.value;
      |out.streams| == |op.datasets| &&
      (forall k :: 0 <= k < |op.datasets| ==> out.streams[k] == call.OpenSource(k)) &&
      |v.originals| == |op.datasets| &&
      (forall k :: 0 <= k < |op.datasets| ==> v.originals[k] == out.streams[0]) &&
      Innermost(v.delegate.inner) == Expanded(out.streams[0], |op.structure|) &&
      RightStreams(v.delegate.inner) == out.streams[1..]
  {
    var call := CallOf(op, c, orders, filtering, columns);
    var n := |op.datasets|;
    WireOpens(call, n);
    WireOriginals(call, n);
    WireShape(call, n);
  }

  /** On success the joins' left keys follow the first-fold rule. */
  lemma ComputeDataLeftKeys(op: JoinOperation, c: Collaborators, orders: Ordering, filtering: Filtering,
                            columns: set<string>)
    requires ComputeData(op, c, orders, filtering, columns).result.Success?
    ensures var v := ComputeData(op, c, orders, filtering, columns).result.value;
      var call := CallOf(op, c, orders, filtering, columns);
      |LeftKeys(v.delegate.inner)| == |op.datasets| - 1 &&
      forall j :: 0 <= j < |op.datasets| - 1 ==> LeftKeys(v.delegate.inner)[j] == ExpectedLeftKey(call, j)
  {
    WireShape(CallOf(op, c, orders, filtering, columns), |op.datasets|);
  }

  /** Closing the returned stream closes every stream the call opened
      exactly once, lets an unchecked close failure escape and drops an
      `IOException`; closing it again closes and throws nothing. */
  lemma ClosingResultClosesAll(op: JoinOperation, c: Collaborators, orders: Ordering, filtering: Filtering,
                               columns: set<string>, s: Stream)
    requires ComputeData(op, c, orders, filtering, columns).result.Success?
    ensures var out := ComputeData(op, c, orders, filtering, columns);
      var closed := CloseReturned(out.closer.value, c.closeFails).0;
      multiset(closed.closeLog)[s] == multiset(Handles(out.streams, |op.structure|))[s] &&
      CloseReturned(closed, c.closeFails) == (closed, None)
    ensures var out := ComputeData(op, c, orders, filtering, columns);
      CloseReturned(out.closer.value, c.closeFails).1 ==
        if c.closeFails.Some? && c.closeFails.value.Unchecked? then Some(c.closeFails.value.exception) else None
  {
    var out := ComputeData(op, c, orders, filtering, columns);
    ComputeDataSucceedsIff(op, c, orders, filtering, columns);
    ComputeDataRegistersAll(op, c, orders, filtering, columns);
    var closer := out.closer.value;
    assert !closer.closed && closer.closeLog == [];
    assert closer.registered == Handles(out.streams, |op.structure|);
    assert |out.streams| >= 1 by {
      ComputeDataResult(op, c, orders, filtering, columns);
    }
    var closed := CloseReturned(closer, c.closeFails).0;
    assert multiset(closed.closeLog) == multiset(closer.registered);
  }

  /** When wiring throws, the closer has already closed every stream it
      holds exactly once, which is every stream the call opened unless the
      expander step threw. */
  lemma FailureClosesAll(op: JoinOperation, c: Collaborators, orders: Ordering, filtering: Filtering,
                         columns: set<string>, s: Stream)
    requires c.compatibleOrder(orders).Some? && c.predicateFails.None? && |op.datasets| >= 1
    requires ComputeData(op, c, orders, filtering, columns).result.Failure?
    ensures var out := ComputeData(op, c, orders, filtering, columns);
      out.closer.Some? && out.closer.value.closed &&
      multiset(out.closer.value.closeLog)[s] == multiset(out.closer.value.registered)[s]
    ensures var out := ComputeData(op, c, orders, filtering, columns);
      !FirstStreamLeaks(c) ==>
        multiset(out.closer.value.closeLog)[s] == multiset(Handles(out.streams, |op.structure|))[s]
  {
    ComputeDataRegistersAll(op, c, orders, filtering, columns);
  }

  // -------------------------------------------------------- not supported

  /** `unsupportedFiltering`: always throws. */
  function UnsupportedFiltering(filtering: Filtering): (r: Result<Filtering, Exception>)
    ensures r.Failure? && r.error == UnsupportedOperation(Some("TODO"))
  {
    Failure(UnsupportedOperation(Some("TODO")))
  }

  /** `unsupportedOrdering`: always throws. */
  function UnsupportedOrdering(ordering: Ordering): (r: Result<Ordering, Exception>)
    ensures r.Failure? && r.error == UnsupportedOperation(Some("TODO"))
  {
    Failure(UnsupportedOperation(Some("TODO")))
  }
}
