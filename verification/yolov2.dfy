/** The structural part of the YOLOv2 network: the flat list of backbone
    stages, the route queue built at construction time, the forward pass
    that threads a tensor through the stages while remembering the outputs
    that `Route` stages read back, and the declared channel counts.

    Tensors are an abstract type parameter `T`; what a stage computes is a
    function parameter, so the model says nothing about convolution
    numerics, only about which stage output reaches which stage. */
module YoloV2 {
  import opened Wrappers

  /** One element of the backbone's stage list. */
  datatype Stage =
    | Conv(cIn: nat, cOut: nat)     // Conv2dBNLeaky
    | MaxPool                       // MaxPool2d, kernel 2, stride 2
    | Reorg(stride: nat)            // space-to-depth
    | Route(layers: seq<int>)       // re-emits earlier outputs, by relative offset

  /** The concrete backbone of the detector, index by index. */
  function Features(): (stages: seq<Stage>)
    ensures |stages| == 30
    ensures WellFormedRoutes(stages)
  {
    [ Conv(3, 32), MaxPool,                                          //  0,  1
      Conv(32, 64), MaxPool,                                         //  2,  3
      Conv(64, 128), Conv(128, 64), Conv(64, 128), MaxPool,          //  4 ..  7
      Conv(128, 256), Conv(256, 128), Conv(128, 256), MaxPool,       //  8 .. 11
      Conv(256, 512), Conv(512, 256), Conv(256, 512),
      Conv(512, 256), Conv(256, 512), MaxPool,                       // 12 .. 17
      Conv(512, 1024), Conv(1024, 512), Conv(512, 1024),
      Conv(1024, 512), Conv(512, 1024), Conv(1024, 1024),
      Conv(1024, 1024),                                              // 18 .. 24
      Route([-9]), Conv(512, 64), Reorg(2),                          // 25 .. 27
      Route([-1, -4]), Conv(1280, 1024) ]                            // 28, 29
  }

  // ---------------------------------------------------------------------
  // The route queue

  /** `k` is an absolute stage index some `Route` among the first `n`
      stages names, as `offset + index`. */
  ghost predicate RouteKeyBelow(stages: seq<Stage>, n: nat, k: int)
    requires n <= |stages|
  {
    exists i, j :: 0 <= i < n && stages[i].Route? && 0 <= j < |stages[i].layers|
                   && k == stages[i].layers[j] + i
  }

  ghost predicate IsRouteKey(stages: seq<Stage>, k: int) {
    RouteKeyBelow(stages, |stages|, k)
  }

  /** The constructor's loop: one `None` entry per index that a `Route`
      names, and no other entry. */
  method BuildRouteQueue<T>(stages: seq<Stage>) returns (queue: map<int, Option<T>>)
    ensures forall k :: k in queue <==> IsRouteKey(stages, k)
    ensures forall k :: k in queue ==> queue[k] == None
  {
    queue := map[];
    for i := 0 to |stages|
      invariant forall k :: k in queue <==> RouteKeyBelow(stages, i, k)
      invariant forall k :: k in queue ==> queue[k] == None
    {
      if stages[i].Route? {
        var layers := stages[i].layers;
        for j := 0 to |layers|
          invariant forall k :: k in queue <==>
            RouteKeyBelow(stages, i, k) || exists j' :: 0 <= j' < j && k == layers[j'] + i
          invariant forall k :: k in queue ==> queue[k] == None
        {
          queue := queue[layers[j] + i := None];
        }
      }
    }
  }

  /** Every index any `Route` reads lies strictly before that `Route`
      and not before the first stage. */
  ghost predicate RoutesReadBackward(stages: seq<Stage>) {
    forall i, j :: 0 <= i < |stages| && stages[i].Route? && 0 <= j < |stages[i].layers|
      ==> -i <= stages[i].layers[j] < 0
  }

  /** A remembered slot holds `m(x)`, which is the stage's true output only
      when the stage is not itself a `Route` (a `Route` is called on a list). */
  ghost predicate RoutesReadPlainStages(stages: seq<Stage>)
    requires RoutesReadBackward(stages)
  {
    forall i, j :: 0 <= i < |stages| && stages[i].Route? && 0 <= j < |stages[i].layers|
      ==> !stages[stages[i].layers[j] + i].Route?
  }

  ghost predicate WellFormedRoutes(stages: seq<Stage>) {
    RoutesReadBackward(stages) && RoutesReadPlainStages(stages)
  }

  // ---------------------------------------------------------------------
  // Reference semantics: an arena of stage outputs

  /** The tensor stage `|prev|` consumes: the previous output, or the
      network input for the first stage. */
  function StageInput<T>(x0: T, prev: seq<T>): T {
    if |prev| == 0 then x0 else prev[|prev| - 1]
  }

  /** The inputs a `Route` at index `i` is handed, in the order of its
      `layers` list. */
  function RouteInputs<T>(layers: seq<int>, i: nat, prev: seq<T>): (xs: seq<T>)
    requires forall j :: 0 <= j < |layers| ==> 0 <= layers[j] + i < |prev|
    ensures |xs| == |layers|
  {
    seq(|layers|, j requires 0 <= j < |layers| => prev[layers[j] + i])
  }

  /** The outputs of the first `n` stages, each stage reading earlier
      outputs by index rather than through a mutable queue. */
  function Arena<T>(stages: seq<Stage>, x0: T, apply: (Stage, T) -> T,
                    gather: (Stage, seq<T>) -> T, n: nat): (outs: seq<T>)
    requires n <= |stages|
    requires RoutesReadBackward(stages)
    ensures |outs| == n
  {
    if n == 0 then []
    else
      var prev := Arena(stages, x0, apply, gather, n - 1);
      var s := stages[n - 1];
      prev + [if s.Route? then gather(s, RouteInputs(s.layers, n - 1, prev))
              else apply(s, StageInput(x0, prev))]
  }

  /** The tensor leaving the last stage. */
  function FeatureOutput<T>(stages: seq<Stage>, x0: T, apply: (Stage, T) -> T,
                            gather: (Stage, seq<T>) -> T): T
    requires RoutesReadBackward(stages)
  {
    StageInput(x0, Arena(stages, x0, apply, gather, |stages|))
  }

  /** Later stages never change an earlier arena entry. */
  lemma {:induction false} ArenaPrefix<T>(stages: seq<Stage>, x0: T, apply: (Stage, T) -> T,
                                          gather: (Stage, seq<T>) -> T, k: nat, n: nat, m: nat)
    requires RoutesReadBackward(stages)
    requires k < n <= m <= |stages|
    ensures Arena(stages, x0, apply, gather, m)[k] == Arena(stages, x0, apply, gather, n)[k]
    decreases m
  {
    if m > n {
      ArenaPrefix(stages, x0, apply, gather, k, n, m - 1);
    }
  }

  /** Entry `i` of the full arena is stage `i` applied to entries of the
      same arena. */
  lemma ArenaAt<T>(stages: seq<Stage>, x0: T, apply: (Stage, T) -> T,
                   gather: (Stage, seq<T>) -> T, i: nat)
    requires RoutesReadBackward(stages)
    requires i < |stages|
    ensures var outs := Arena(stages, x0, apply, gather, |stages|);
            var s := stages[i];
            outs[i] == if s.Route? then gather(s, RouteInputs(s.layers, i, outs))
                       else apply(s, if i == 0 then x0 else outs[i - 1])
  {
    var outs := Arena(stages, x0, apply, gather, |stages|);
    var prev := Arena(stages, x0, apply, gather, i);
    ArenaPrefix(stages, x0, apply, gather, i, i + 1, |stages|);
    if i > 0 {
      ArenaPrefix(stages, x0, apply, gather, i - 1, i, |stages|);
    }
    if stages[i].Route? {
      ArenaRouteInputs(stages, x0, apply, gather, i);
    }
  }

  /** A route reads the same inputs from the full arena as from the arena
      of the stages before it. */
  lemma ArenaRouteInputs<T>(stages: seq<Stage>, x0: T, apply: (Stage, T) -> T,
                            gather: (Stage, seq<T>) -> T, i: nat)
    requires RoutesReadBackward(stages)
    requires i < |stages| && stages[i].Route?
    ensures var layers := stages[i].layers;
            RouteInputs(layers, i, Arena(stages, x0, apply, gather, |stages|))
            == RouteInputs(layers, i, Arena(stages, x0, apply, gather, i))
  {
    var outs := Arena(stages, x0, apply, gather, |stages|);
    var prev := Arena(stages, x0, apply, gather, i);
    var layers := stages[i].layers;
    forall j | 0 <= j < |layers|
      ensures outs[layers[j] + i] == prev[layers[j] + i]
    {
      ArenaPrefix(stages, x0, apply, gather, layers[j] + i, i, |stages|);
    }
  }

  // ---------------------------------------------------------------------
  // The forward pass

  datatype ForwardError =
    | MissingSlot(key: int)      // the queue has no entry for the index (KeyError)
    | UnwrittenSlot(key: int)    // the entry still holds None when a Route reads it

  /** The list comprehension of line 67: the queue entries a route at
      index `i` reads, in the order of its `layers`. */
  method ReadRoute<T>(queue: map<int, Option<T>>, layers: seq<int>, i: int)
    returns (r: Result<seq<T>, ForwardError>)
    ensures r.Success? <==>
              forall j :: 0 <= j < |layers| ==> layers[j] + i in queue && queue[layers[j] + i].Some?
    ensures r.Success? ==>
              |r.value| == |layers|
              && forall j :: 0 <= j < |layers| ==> queue[layers[j] + i] == Some(r.value[j])
    ensures r.Failure? && r.error.MissingSlot? ==> r.error.key !in queue
    ensures r.Failure? && r.error.UnwrittenSlot? ==>
              r.error.key in queue && queue[r.error.key] == None
  {
    var xs: seq<T> := [];
    for j := 0 to |layers|
      invariant |xs| == j
      invariant forall j' :: 0 <= j' < j ==>
                  layers[j'] + i in queue && queue[layers[j'] + i] == Some(xs[j'])
    {
      var key := layers[j] + i;
      if key !in queue {
        return Failure(MissingSlot(key));
      }
      match queue[key]
      case None =>
        return Failure(UnwrittenSlot(key));
      case Some(v) =>
        xs := xs + [v];
    }
    r := Success(xs);
  }

  /** The forward loop over the stages, then the detector and region head
      (`head`).  `queue0` is the route queue as left by construction or by an
      earlier call: its values may be stale.  Whenever every route offset
      reads an earlier, non-route stage and the queue has the route keys,
      each slot is written before it is read, so the result is the arena's
      output whatever the stale values were. */
  method Forward<T>(stages: seq<Stage>, queue0: map<int, Option<T>>, x0: T,
                    apply: (Stage, T) -> T, gather: (Stage, seq<T>) -> T, head: T -> T)
    returns (r: Result<T, ForwardError>, queue: map<int, Option<T>>)
    ensures queue.Keys == queue0.Keys
    ensures WellFormedRoutes(stages) && (forall k :: IsRouteKey(stages, k) ==> k in queue0)
            ==> r == Success(head(FeatureOutput(stages, x0, apply, gather)))
  {
    queue := queue0;
    var x := x0;
    ghost var ok := WellFormedRoutes(stages) && (forall k :: IsRouteKey(stages, k) ==> k in queue0);
    for i := 0 to |stages|
      invariant queue.Keys == queue0.Keys
      invariant ok ==> x == StageInput(x0, Arena(stages, x0, apply, gather, i))
      invariant ok ==> QueueAgrees(stages, queue, Arena(stages, x0, apply, gather, i), i)
    {
      ghost var prev := if ok then Arena(stages, x0, apply, gather, i) else [];
      ghost var before := queue;
      if i in queue {
        queue := queue[i := Some(apply(stages[i], x))];
      }
      if ok {
        QueueAgreesStep(stages, x0, apply, gather, before, queue, x, i);
      }
      if stages[i].Route? {
        var layers := stages[i].layers;
        var read := ReadRoute(queue, layers, i);
        if ok {
          QueueHoldsRouteInputs(stages, queue0, queue, prev, i);
        }
        match read
        case Failure(e) =>
          return Failure(e), queue;
        case Success(xs) =>
          if ok {
            assert xs == RouteInputs(layers, i, prev);
          }
          x := gather(stages[i], xs);
      } else {
        x := apply(stages[i], x);
      }
      if ok {
        ArenaExtends(stages, x0, apply, gather, i);
      }
    }
    r := Success(head(x));
  }

  /** The first `n` remembered slots of non-route stages hold those
      stages' outputs. */
  ghost predicate QueueAgrees<T>(stages: seq<Stage>, queue: map<int, Option<T>>, outs: seq<T>, n: nat)
    requires n <= |stages| && n <= |outs|
  {
    forall k :: 0 <= k < n && k in queue && !stages[k].Route? ==> queue[k] == Some(outs[k])
  }

  /** Line 65's write keeps the queue in step with the arena: the slot of
      stage `i`, if remembered, now holds its output. */
  lemma QueueAgreesStep<T>(stages: seq<Stage>, x0: T, apply: (Stage, T) -> T,
                           gather: (Stage, seq<T>) -> T, queue: map<int, Option<T>>,
                           written: map<int, Option<T>>, x: T, i: nat)
    requires RoutesReadBackward(stages) && i < |stages|
    requires x == StageInput(x0, Arena(stages, x0, apply, gather, i))
    requires QueueAgrees(stages, queue, Arena(stages, x0, apply, gather, i), i)
    requires written == if i in queue then queue[i := Some(apply(stages[i], x))] else queue
    ensures QueueAgrees(stages, written, Arena(stages, x0, apply, gather, i), i)
    ensures QueueAgrees(stages, written, Arena(stages, x0, apply, gather, i + 1), i + 1)
  {
    ArenaExtends(stages, x0, apply, gather, i);
  }

  /** Every slot a route reads is in the queue and holds the output of
      the stage it names. */
  lemma QueueHoldsRouteInputs<T>(stages: seq<Stage>, queue0: map<int, Option<T>>,
                                 queue: map<int, Option<T>>, prev: seq<T>, i: nat)
    requires WellFormedRoutes(stages) && forall k :: IsRouteKey(stages, k) ==> k in queue0
    requires queue.Keys == queue0.Keys
    requires i < |stages| && i <= |prev| && stages[i].Route?
    requires QueueAgrees(stages, queue, prev, i)
    ensures var layers := stages[i].layers;
            forall j :: 0 <= j < |layers| ==> layers[j] + i in queue && queue[layers[j] + i] == Some(prev[layers[j] + i])
  {
    var layers := stages[i].layers;
    forall j | 0 <= j < |layers|
      ensures layers[j] + i in queue && queue[layers[j] + i] == Some(prev[layers[j] + i])
    {
      assert RouteKeyBelow(stages, |stages|, layers[j] + i);
    }
  }

  /** One more stage appends its output to the arena. */
  lemma ArenaExtends<T>(stages: seq<Stage>, x0: T, apply: (Stage, T) -> T,
                        gather: (Stage, seq<T>) -> T, i: nat)
    requires RoutesReadBackward(stages)
    requires i < |stages|
    ensures var prev := Arena(stages, x0, apply, gather, i);
            var next := Arena(stages, x0, apply, gather, i + 1);
            var s := stages[i];
            && (forall k :: 0 <= k < i ==> next[k] == prev[k])
            && StageInput(x0, next) == next[i]
            && next[i] == if s.Route? then gather(s, RouteInputs(s.layers, i, prev))
                          else apply(s, StageInput(x0, prev))
  {
  }

  // ---------------------------------------------------------------------
  // Facts about the concrete backbone

  /** Only stages 25 and 28 are routes. */
  lemma FeaturesRoutes()
    ensures forall i :: 0 <= i < |Features()| && Features()[i].Route? ==> i == 25 || i == 28
    ensures Features()[25] == Route([-9]) && Features()[28] == Route([-1, -4])
  {
  }

  /** The queue of the concrete backbone remembers exactly stages 16, 24
      and 27. */
  lemma FeaturesRouteKeys()
    ensures forall k :: IsRouteKey(Features(), k) <==> k in {16, 24, 27}
  {
    FeaturesRoutes();
    var f := Features();
    assert f[25].layers[0] + 25 == 16;
    assert f[28].layers[0] + 28 == 27;
    assert f[28].layers[1] + 28 == 24;
  }

  /** The second route is handed stage 27's output first, then stage 24's. */
  lemma SecondRouteInputs<T>(x0: T, apply: (Stage, T) -> T, gather: (Stage, seq<T>) -> T)
    ensures RoutesReadBackward(Features())
    ensures var outs := Arena(Features(), x0, apply, gather, 28);
            RouteInputs(Features()[28].layers, 28, outs) == [outs[27], outs[24]]
  {
  }


  // ---------------------------------------------------------------------
  // Channels and grid of every stage output

  /** What a stage output looks like apart from its values: the channel
      count, and the stride, the number of input pixels one grid cell
      spans along each axis. */
  datatype Dims = Dims(channels: nat, stride: nat)

  /** Dims leaving a stage that reads one tensor. A convolution sets the
      channel count, a 2x2 max-pool halves the grid, and a reorg moves
      each `stride x stride` block of cells into the channels. */
  function DimsOf(s: Stage, d: Dims): (e: Dims)
    ensures !s.MaxPool? && !s.Reorg? ==> e.stride == d.stride
    ensures s.Conv? ==> e.channels == s.cOut
    ensures s.MaxPool? ==> e.channels == d.channels && e.stride == 2 * d.stride
    ensures s.Reorg? ==> e == Dims(d.channels * s.stride * s.stride, d.stride * s.stride)
    ensures s.Reorg? ==> e.channels * d.stride * d.stride == d.channels * e.stride * e.stride
  {
    match s
    case Conv(_, cOut) => Dims(cOut, d.stride)
    case MaxPool => Dims(d.channels, 2 * d.stride)
    case Reorg(k) =>
      assert d.channels * k * k * d.stride * d.stride
          == d.channels * (d.stride * k) * (d.stride * k);
      Dims(d.channels * k * k, d.stride * k)
    case Route(_) => d
  }

  /** A route concatenates its inputs along the channel dimension, on the
      grid of its first input. */
  function ConcatDims(s: Stage, ds: seq<Dims>): (e: Dims)
    ensures forall j :: 0 <= j < |ds| ==> ds[j].channels <= e.channels
    ensures |ds| > 0 ==> e.stride == ds[0].stride
  {
    if |ds| == 0 then Dims(0, 0)
    else Dims(ds[0].channels + ConcatDims(s, ds[1..]).channels, ds[0].stride)
  }

  /** A route over one input re-emits it unchanged. */
  lemma ConcatSingle(s: Stage, d: Dims)
    ensures ConcatDims(s, [d]) == d
  {
    assert [d][1..] == [];
  }

  /** The channels of a concatenation are the sum of its parts' channels,
      however the inputs are split. */
  lemma {:induction false} ConcatAppend(s: Stage, a: seq<Dims>, b: seq<Dims>)
    ensures ConcatDims(s, a + b).channels == ConcatDims(s, a).channels + ConcatDims(s, b).channels
    decreases |a|
  {
    if |a| > 0 {
      assert (a + b)[1..] == a[1..] + b;
      ConcatAppend(s, a[1..], b);
    } else {
      assert a + b == b;
    }
  }

  /** The second route of the backbone: 256 channels from the reorg and
      1024 from stage 24 give the 1280 the last convolution declares. */
  lemma ConcatSecondRoute(s: Stage)
    ensures ConcatDims(s, [Dims(256, 32), Dims(1024, 32)]) == Dims(1280, 32)
  {
    ConcatAppend(s, [Dims(256, 32)], [Dims(1024, 32)]);
    ConcatSingle(s, Dims(256, 32));
    ConcatSingle(s, Dims(1024, 32));
    assert [Dims(256, 32)] + [Dims(1024, 32)] == [Dims(256, 32), Dims(1024, 32)];
  }

  /** Entry `i` of a table of dims as stage `i` computes it from the
      earlier entries. */
  function DimsStep(stages: seq<Stage>, d0: Dims, table: seq<Dims>, i: nat): Dims
    requires i < |table| && i < |stages|
    requires RoutesReadBackward(stages)
  {
    var s := stages[i];
    if s.Route? then ConcatDims(s, RouteInputs(s.layers, i, table))
    else DimsOf(s, if i == 0 then d0 else table[i - 1])
  }

  /** Every entry of the table is what its stage computes from the earlier
      entries. */
  predicate Steps(stages: seq<Stage>, d0: Dims, table: seq<Dims>)
    requires RoutesReadBackward(stages)
  {
    && |table| == |stages|
    && forall i {:trigger DimsStep(stages, d0, table, i)} :: 0 <= i < |table| ==> table[i] == DimsStep(stages, d0, table, i)
  }

  /** The dims of every stage output on an input with dims `d0`: the arena
      run on dims. */
  function Shapes(stages: seq<Stage>, d0: Dims): (ds: seq<Dims>)
    requires RoutesReadBackward(stages)
    ensures Steps(stages, d0, ds)
  {
    ArenaSteps(stages, d0);
    Arena(stages, d0, DimsOf, ConcatDims, |stages|)
  }

  lemma ArenaSteps(stages: seq<Stage>, d0: Dims)
    requires RoutesReadBackward(stages)
    ensures Steps(stages, d0, Arena(stages, d0, DimsOf, ConcatDims, |stages|))
  {
    var ds := Arena(stages, d0, DimsOf, ConcatDims, |stages|);
    forall i | 0 <= i < |stages|
      ensures ds[i] == DimsStep(stages, d0, ds, i)
    {
      ArenaAt(stages, d0, DimsOf, ConcatDims, i);
    }
  }

  /** `Shapes` is the only table whose every entry its stage computes from
      the earlier ones. */
  lemma ShapesUnique(stages: seq<Stage>, d0: Dims, table: seq<Dims>)
    requires RoutesReadBackward(stages)
    requires Steps(stages, d0, table)
    ensures table == Shapes(stages, d0)
  {
    var ds := Shapes(stages, d0);
    forall n | 0 <= n <= |stages|
      ensures ds[..n] == table[..n]
    {
      StepsAgreeBelow(stages, d0, ds, table, n);
    }
    assert ds == ds[..|stages|] && table == table[..|stages|];
  }

  lemma {:induction false} StepsAgreeBelow(stages: seq<Stage>, d0: Dims,
                                           a: seq<Dims>, b: seq<Dims>, n: nat)
    requires RoutesReadBackward(stages)
    requires Steps(stages, d0, a) && Steps(stages, d0, b)
    requires n <= |stages|
    ensures a[..n] == b[..n]
    decreases n
  {
    if n > 0 {
      var i := n - 1;
      StepsAgreeBelow(stages, d0, a, b, i);
      forall k | 0 <= k < i
        ensures a[k] == b[k]
      {
        assert a[..i][k] == a[k] && b[..i][k] == b[k];
      }
      StepsAgreeAt(stages, d0, a, b, i);
      assert a[..n] == a[..i] + [a[i]] && b[..n] == b[..i] + [b[i]];
    }
  }

  /** Two tables that agree below `i` compute the same entry `i`. */
  lemma StepsAgreeAt(stages: seq<Stage>, d0: Dims, a: seq<Dims>, b: seq<Dims>, i: nat)
    requires RoutesReadBackward(stages)
    requires i < |a| == |b| == |stages|
    requires forall k :: 0 <= k < i ==> a[k] == b[k]
    ensures DimsStep(stages, d0, a, i) == DimsStep(stages, d0, b, i)
  {
    if stages[i].Route? {
      assert RouteInputs(stages[i].layers, i, a) == RouteInputs(stages[i].layers, i, b);
    }
  }

  /** Every input list of a route lies on one grid. */
  predicate SameStride(ds: seq<Dims>) {
    forall j :: 0 <= j < |ds| ==> ds[j].stride == ds[0].stride
  }

  /** Stage `i` accepts what reaches it: a convolution declares the channel
      count it is handed, and a route concatenates tensors of one grid. */
  predicate Accepts(stages: seq<Stage>, d0: Dims, table: seq<Dims>, i: nat)
    requires i < |table| && i < |stages|
    requires RoutesReadBackward(stages)
  {
    match stages[i]
    case Conv(cIn, _) => cIn == (if i == 0 then d0 else table[i - 1]).channels
    case Route(layers) => SameStride(RouteInputs(layers, i, table))
    case _ => true
  }

  /** On an input with dims `d0` every stage accepts what reaches it. */
  ghost predicate StagesAccept(stages: seq<Stage>, d0: Dims)
    requires RoutesReadBackward(stages)
  {
    var ds := Shapes(stages, d0);
    forall i :: 0 <= i < |stages| ==> Accepts(stages, d0, ds, i)
  }

  /** Entry `i` of `table` is what stage `i` computes, and stage `i`
      accepts what reaches it. */
  predicate StepOk(stages: seq<Stage>, d0: Dims, table: seq<Dims>, i: nat)
    requires i < |table| && i < |stages|
    requires RoutesReadBackward(stages)
  {
    table[i] == DimsStep(stages, d0, table, i) && Accepts(stages, d0, table, i)
  }

  /** Checks stages `lo` to `hi - 1` one at a time, so that a concrete
      list is checked by unfolding. */
  predicate CheckRange(stages: seq<Stage>, d0: Dims, table: seq<Dims>, lo: nat, hi: nat)
    requires hi <= |table| == |stages|
    requires RoutesReadBackward(stages)
    decreases hi - lo
  {
    lo >= hi || (StepOk(stages, d0, table, lo) && CheckRange(stages, d0, table, lo + 1, hi))
  }

  lemma {:induction false} CheckRangeReaches(stages: seq<Stage>, d0: Dims, table: seq<Dims>,
                                             lo: nat, hi: nat, i: nat)
    requires hi <= |table| == |stages|
    requires RoutesReadBackward(stages)
    requires lo <= i < hi
    requires CheckRange(stages, d0, table, lo, hi)
    ensures StepOk(stages, d0, table, i)
    decreases i - lo
  {
    if lo < i {
      CheckRangeReaches(stages, d0, table, lo + 1, hi, i);
    }
  }

  /** A table every stage of which passes the check is the dims of every
      stage output, and then every stage accepts what reaches it. */
  lemma CheckedTable(stages: seq<Stage>, d0: Dims, table: seq<Dims>)
    requires |table| == |stages|
    requires RoutesReadBackward(stages)
    requires forall i :: 0 <= i < |stages| ==> StepOk(stages, d0, table, i)
    ensures table == Shapes(stages, d0)
    ensures StagesAccept(stages, d0)
  {
    assert Steps(stages, d0, table) by {
      forall i | 0 <= i < |stages|
        ensures table[i] == DimsStep(stages, d0, table, i)
      {
        assert StepOk(stages, d0, table, i);
      }
    }
    ShapesUnique(stages, d0, table);
    forall i | 0 <= i < |stages|
      ensures Accepts(stages, d0, table, i)
    {
      assert StepOk(stages, d0, table, i);
    }
  }

  /** Dims of the concrete backbone's outputs on a three-channel image,
      stage by stage. */
  function BackboneDimsAt(i: nat): Dims {
    match i
    case 0 => Dims(32, 1)
    case 1 => Dims(32, 2)
    case 2 => Dims(64, 2)
    case 3 => Dims(64, 4)
    case 4 => Dims(128, 4)
    case 5 => Dims(64, 4)
    case 6 => Dims(128, 4)
    case 7 => Dims(128, 8)
    case 8 => Dims(256, 8)
    case 9 => Dims(128, 8)
    case 10 => Dims(256, 8)
    case 11 => Dims(256, 16)
    case 12 => Dims(512, 16)
    case 13 => Dims(256, 16)
    case 14 => Dims(512, 16)
    case 15 => Dims(256, 16)
    case 16 => Dims(512, 16)
    case 17 => Dims(512, 32)
    case 18 => Dims(1024, 32)
    case 19 => Dims(512, 32)
    case 20 => Dims(1024, 32)
    case 21 => Dims(512, 32)
    case 22 => Dims(1024, 32)
    case 23 => Dims(1024, 32)
    case 24 => Dims(1024, 32)
    case 25 => Dims(512, 16)
    case 26 => Dims(64, 16)
    case 27 => Dims(256, 32)
    case 28 => Dims(1280, 32)
    case _ => Dims(1024, 32)
  }

  const BackboneDims: seq<Dims> := seq(30, i requires 0 <= i => BackboneDimsAt(i))

  /** On a three-channel image every declared `c_in` of the concrete
      backbone is what reaches it, the second route joins two outputs of
      stride 32, and the last stage hands 1024 channels of stride 32 on. */
  lemma FeaturesShapes()
    ensures RoutesReadBackward(Features())
    ensures Shapes(Features(), Dims(3, 1)) == BackboneDims
    ensures StagesAccept(Features(), Dims(3, 1))
  {
    var stages, t, d0 := Features(), BackboneDims, Dims(3, 1);
    CheckStages28To29();
    CheckStages25To27();
    CheckStages21To24();
    CheckStages18To20();
    CheckStages15To17();
    CheckStages12To14();
    CheckStages9To11();
    CheckStages6To8();
    CheckStages3To5();
    CheckStages0To2();
    forall i | 0 <= i < 30
      ensures StepOk(stages, d0, t, i)
    {
      if i < 3 { CheckRangeReaches(stages, d0, t, 0, 3, i); }
      else if i < 6 { CheckRangeReaches(stages, d0, t, 3, 6, i); }
      else if i < 9 { CheckRangeReaches(stages, d0, t, 6, 9, i); }
      else if i < 12 { CheckRangeReaches(stages, d0, t, 9, 12, i); }
      else if i < 15 { CheckRangeReaches(stages, d0, t, 12, 15, i); }
      else if i < 18 { CheckRangeReaches(stages, d0, t, 15, 18, i); }
      else if i < 21 { CheckRangeReaches(stages, d0, t, 18, 21, i); }
      else if i < 25 { CheckRangeReaches(stages, d0, t, 21, 25, i); }
      else if i < 28 { CheckRangeReaches(stages, d0, t, 25, 28, i); }
      else { CheckRangeReaches(stages, d0, t, 28, 30, i); }
    }
    CheckedTable(stages, d0, t);
  }

  lemma CheckStages28To29()
    ensures CheckRange(Features(), Dims(3, 1), BackboneDims, 28, 30)
  {
    var stages, t, d0 := Features(), BackboneDims, Dims(3, 1);
    assert stages[28] == Route([-1, -4]) && stages[29] == Conv(1280, 1024);
    assert RouteInputs(stages[28].layers, 28, t) == [t[27], t[24]];
    assert [t[27], t[24]][1..] == [t[24]] && [t[24]][1..] == [];
    assert ConcatDims(stages[28], [t[24]]) == Dims(1024, 32);
    assert ConcatDims(stages[28], [t[27], t[24]]) == t[28];
    assert CheckRange(stages, d0, t, 29, 30);
    assert CheckRange(stages, d0, t, 28, 30);
  }

  lemma CheckStages25To27()
    ensures CheckRange(Features(), Dims(3, 1), BackboneDims, 25, 28)
  {
    var stages, t, d0 := Features(), BackboneDims, Dims(3, 1);
    assert stages[25] == Route([-9]) && stages[26] == Conv(512, 64) && stages[27] == Reorg(2);
    assert RouteInputs(stages[25].layers, 25, t) == [t[16]];
    assert [t[16]][1..] == [];
    assert ConcatDims(stages[25], [t[16]]) == t[25];
    assert CheckRange(stages, d0, t, 27, 28);
    assert CheckRange(stages, d0, t, 26, 28);
    assert CheckRange(stages, d0, t, 25, 28);
  }

  lemma CheckStages21To24()
    ensures CheckRange(Features(), Dims(3, 1), BackboneDims, 21, 25)
  {
    var stages, t, d0 := Features(), BackboneDims, Dims(3, 1);
    assert stages[21] == Conv(1024, 512) && stages[22] == Conv(512, 1024)
        && stages[23] == Conv(1024, 1024) && stages[24] == Conv(1024, 1024);
    assert CheckRange(stages, d0, t, 24, 25);
    assert CheckRange(stages, d0, t, 23, 25);
    assert CheckRange(stages, d0, t, 22, 25);
    assert CheckRange(stages, d0, t, 21, 25);
  }

  lemma CheckStages18To20()
    ensures CheckRange(Features(), Dims(3, 1), BackboneDims, 18, 21)
  {
    var stages, t, d0 := Features(), BackboneDims, Dims(3, 1);
    assert stages[18] == Conv(512, 1024) && stages[19] == Conv(1024, 512) && stages[20] == Conv(512, 1024);
    assert CheckRange(stages, d0, t, 20, 21);
    assert CheckRange(stages, d0, t, 19, 21);
    assert CheckRange(stages, d0, t, 18, 21);
  }

  lemma CheckStages15To17()
    ensures CheckRange(Features(), Dims(3, 1), BackboneDims, 15, 18)
  {
    var stages, t, d0 := Features(), BackboneDims, Dims(3, 1);
    assert stages[15] == Conv(512, 256) && stages[16] == Conv(256, 512) && stages[17] == MaxPool;
    assert CheckRange(stages, d0, t, 17, 18);
    assert CheckRange(stages, d0, t, 16, 18);
    assert CheckRange(stages, d0, t, 15, 18);
  }

  lemma CheckStages12To14()
    ensures CheckRange(Features(), Dims(3, 1), BackboneDims, 12, 15)
  {
    var stages, t, d0 := Features(), BackboneDims, Dims(3, 1);
    assert stages[12] == Conv(256, 512) && stages[13] == Conv(512, 256) && stages[14] == Conv(256, 512);
    assert CheckRange(stages, d0, t, 14, 15);
    assert CheckRange(stages, d0, t, 13, 15);
    assert CheckRange(stages, d0, t, 12, 15);
  }

  lemma CheckStages9To11()
    ensures CheckRange(Features(), Dims(3, 1), BackboneDims, 9, 12)
  {
    var stages, t, d0 := Features(), BackboneDims, Dims(3, 1);
    assert stages[9] == Conv(256, 128) && stages[10] == Conv(128, 256) && stages[11] == MaxPool;
    assert CheckRange(stages, d0, t, 11, 12);
    assert CheckRange(stages, d0, t, 10, 12);
    assert CheckRange(stages, d0, t, 9, 12);
  }

  lemma CheckStages6To8()
    ensures CheckRange(Features(), Dims(3, 1), BackboneDims, 6, 9)
  {
    var stages, t, d0 := Features(), BackboneDims, Dims(3, 1);
    assert stages[6] == Conv(64, 128) && stages[7] == MaxPool && stages[8] == Conv(128, 256);
    assert CheckRange(stages, d0, t, 8, 9);
    assert CheckRange(stages, d0, t, 7, 9);
    assert CheckRange(stages, d0, t, 6, 9);
  }

  lemma CheckStages3To5()
    ensures CheckRange(Features(), Dims(3, 1), BackboneDims, 3, 6)
  {
    var stages, t, d0 := Features(), BackboneDims, Dims(3, 1);
    assert stages[3] == MaxPool && stages[4] == Conv(64, 128) && stages[5] == Conv(128, 64);
    assert CheckRange(stages, d0, t, 5, 6);
    assert CheckRange(stages, d0, t, 4, 6);
    assert CheckRange(stages, d0, t, 3, 6);
  }

  lemma CheckStages0To2()
    ensures CheckRange(Features(), Dims(3, 1), BackboneDims, 0, 3)
  {
    var stages, t, d0 := Features(), BackboneDims, Dims(3, 1);
    assert stages[0] == Conv(3, 32) && stages[1] == MaxPool && stages[2] == Conv(32, 64);
    assert CheckRange(stages, d0, t, 2, 3);
    assert CheckRange(stages, d0, t, 1, 3);
    assert CheckRange(stages, d0, t, 0, 3);
  }

  // ---------------------------------------------------------------------
  // The detector

  /** Width of the detector convolution: one group of box, objectness and
      class scores per anchor. */
  function DetectorChannels(numAnchors: nat, numClasses: nat): (c: nat)
    ensures c % (5 + numClasses) == 0
    ensures c / (5 + numClasses) == numAnchors
  {
    ExactDivision(numAnchors, 5 + numClasses);
    numAnchors * (5 + numClasses)
  }

  lemma ExactDivision(a: nat, m: nat)
    requires m > 0
    ensures (a * m) % m == 0 && (a * m) / m == a
  {
    var c := a * m;
    var q, r := c / m, c % m;
    assert c == m * q + r;
    assert m * q - m * a == m * (q - a);
    if q > a {
      MulAtLeast(m, q - a);
    } else if q < a {
      assert m * a - m * q == m * (a - q);
      MulAtLeast(m, a - q);
    }
  }

  lemma MulAtLeast(m: nat, k: int)
    requires k >= 1
    ensures m * k >= m
  {
    assert m * k == m * (k - 1) + m;
  }

  /** The detector convolution of the network: 1024 declared input
      channels, one output group per anchor. */
  function Detector(numAnchors: nat, numClasses: nat): Stage {
    Conv(1024, DetectorChannels(numAnchors, numClasses))
  }

  /** The detector accepts what the backbone hands on, and gives the region
      head a grid of stride 32 with `5 + numClasses` channels per anchor. */
  lemma DetectorFitsBackbone(numAnchors: nat, numClasses: nat)
    ensures RoutesReadBackward(Features())
    ensures var out := Shapes(Features(), Dims(3, 1))[|Features()| - 1];
            Detector(numAnchors, numClasses).cIn == out.channels
            && DimsOf(Detector(numAnchors, numClasses), out)
               == Dims(numAnchors * (5 + numClasses), 32)
  {
    FeaturesShapes();
  }
}
