/**
 * The bookkeeping of the Plotly chart widgets: the table of pending chart
 * updates with its queue of elements (one update per element is applied at
 * a time), the one-at-a-time queue of plot creations, and the bounded buffer
 * of samples a line chart widget keeps.
 *
 * Elements are identified by numbers; the Plotly calls themselves and the
 * timers are not modelled: a pending timer is a flag, and the call a step
 * makes is what it returns.
 */
module Plotly {
  import opened Wrappers
  import opened JsValues

  // ---------------------------------------------------------------------------
  // The chart update table

  /** A pending update: points to append to a line chart's trace, or a gauge's new value. */
  datatype Chart =
    | LineChart(x: seq<int>, y: seq<Value>, maxPoints: int)
    | Gauge(value: Value)

  predicate Distinct(s: seq<nat>)
  {
    forall i, j :: 0 <= i < j < |s| ==> s[i] != s[j]
  }

  /** The update queue holds exactly the elements with a pending update, each once. */
  ghost predicate Consistent(charts: map<nat, Chart>, queue: seq<nat>)
  {
    (forall e :: e in charts <==> e in queue) && Distinct(queue)
  }

  function Elements(s: seq<nat>): set<nat>
  {
    set e | e in s
  }

  lemma {:induction false} DistinctCount(s: seq<nat>)
    requires Distinct(s)
    ensures |Elements(s)| == |s|
  {
    if |s| > 0 {
      var front := s[..|s| - 1];
      var last := s[|s| - 1];
      DistinctCount(front);
      var all, before := Elements(s), Elements(front);
      assert last !in front;
      assert all == before + {last};
      assert |all| == |before| + 1;
    }
  }

  /** There are as many pending updates as queued elements. */
  lemma QueueSize(charts: map<nat, Chart>, queue: seq<nat>)
    requires Consistent(charts, queue)
    ensures |charts| == |queue|
  {
    DistinctCount(queue);
    assert charts.Keys == Elements(queue);
  }

  /** `updateQueue.indexOf(el)`. */
  function IndexOf(s: seq<nat>, x: nat): (i: int)
    ensures -1 <= i < |s|
    ensures i == -1 <==> x !in s
    ensures 0 <= i ==> i < |s| && s[i] == x && x !in s[..i]
  {
    if |s| == 0 then -1
    else if s[0] == x then 0
    else
      var k := IndexOf(s[1..], x);
      if k == -1 then
        assert s == [s[0]] + s[1..];
        -1
      else
        assert s[..k + 1] == [s[0]] + s[1..][..k];
        k + 1
  }

  /** Removing an element's record and its queue entry keeps the table and the queue in step. */
  lemma RemovedConsistent(charts: map<nat, Chart>, queue: seq<nat>, el: nat)
    requires Consistent(charts, queue) && el in charts
    ensures 0 <= IndexOf(queue, el)
    ensures var i := IndexOf(queue, el);
      Consistent(charts - {el}, queue[..i] + queue[i + 1..])
  {
    assert el in queue;
    var i := IndexOf(queue, el);
    RemoveKeepsDistinct(queue, i);
    var rest, r := charts - {el}, queue[..i] + queue[i + 1..];
    forall e ensures e in rest <==> e in r {
      assert e in rest <==> e in charts && e != el;
    }
  }

  lemma {:induction false} RemoveKeepsDistinct(s: seq<nat>, i: nat)
    requires Distinct(s) && i < |s|
    ensures Distinct(s[..i] + s[i + 1..])
    ensures forall e :: e in s[..i] + s[i + 1..] <==> e in s && e != s[i]
  {
    var r := s[..i] + s[i + 1..];
    forall a, b | 0 <= a < b < |r| ensures r[a] != r[b] {
      var a' := if a < i then a else a + 1;
      var b' := if b < i then b else b + 1;
      assert r[a] == s[a'] && r[b] == s[b'];
    }
    forall e ensures e in r <==> e in s && e != s[i] {
      if e in s && e != s[i] {
        var k :| 0 <= k < |s| && s[k] == e;
        assert k != i;
        if k < i {
          assert r[k] == e;
        } else {
          assert r[k - 1] == e;
        }
      }
      if e in r {
        var k :| 0 <= k < |r| && r[k] == e;
        var k' := if k < i then k else k + 1;
        assert s[k'] == e && k' != i;
      }
    }
  }

  class ChartUpdates {
    var charts: map<nat, Chart>
    var updateQueue: seq<nat>
    /** Whether `doUpdateChartTimeoutId` is set, i.e. a `doUpdateChart` is scheduled. */
    var timerPending: bool

    /** The queue mirrors the table, and a call of `doUpdateChart` is scheduled exactly while the queue is not empty. */
    ghost predicate Valid()
      reads this
    {
      Consistent(charts, updateQueue) && (timerPending <==> |updateQueue| > 0)
    }

    constructor()
      ensures charts == map[] && updateQueue == [] && !timerPending && Valid()
    {
      charts := map[];
      updateQueue := [];
      timerPending := false;
    }

    /**
     * `updateLineChart`: the first sample for an element creates its record,
     * queues the element and schedules an update; later samples append to
     * the record's x and y in parallel. `thrown` is set, and nothing changes,
     * when the element's record is a gauge's, whose `data` is undefined.
     */
    method UpdateLineChart(el: nat, time: int, value: Value, maxPoints: int) returns (thrown: bool)
      requires Valid()
      modifies this
      ensures Valid()
      ensures el !in old(charts) ==>
        !thrown && charts == old(charts)[el := LineChart([time], [value], maxPoints)]
        && updateQueue == old(updateQueue) + [el] && timerPending
      ensures el in old(charts) && old(charts[el]).LineChart? ==>
        var c := old(charts[el]);
        !thrown && charts == old(charts)[el := LineChart(c.x + [time], c.y + [value], c.maxPoints)]
        && updateQueue == old(updateQueue) && timerPending == old(timerPending)
      ensures el in old(charts) && old(charts[el]).Gauge? ==>
        thrown && charts == old(charts) && updateQueue == old(updateQueue) && timerPending == old(timerPending)
    {
      thrown := false;
      if el !in charts {
        charts := charts[el := LineChart([time], [value], maxPoints)];
        updateQueue := updateQueue + [el];
        if !timerPending {
          timerPending := true;
        }
      } else {
        var c := charts[el];
        if c.Gauge? {
          thrown := true;
        } else {
          charts := charts[el := LineChart(c.x + [time], c.y + [value], c.maxPoints)];
        }
      }
    }

    /**
     * `updateGauge`: the first value for an element creates its record,
     * queues the element and schedules an update; later values overwrite the
     * record's value. On a line chart's record the assignment adds a field
     * the update never reads, so the pending update does not change.
     */
    method UpdateGauge(el: nat, value: Value)
      requires Valid()
      modifies this
      ensures Valid()
      ensures el !in old(charts) ==>
        charts == old(charts)[el := Gauge(value)] && updateQueue == old(updateQueue) + [el] && timerPending
      ensures el in old(charts) && old(charts[el]).Gauge? ==>
        charts == old(charts)[el := Gauge(value)] && updateQueue == old(updateQueue) && timerPending == old(timerPending)
      ensures el in old(charts) && old(charts[el]).LineChart? ==>
        charts == old(charts) && updateQueue == old(updateQueue) && timerPending == old(timerPending)
    {
      if el !in charts {
        charts := charts[el := Gauge(value)];
        updateQueue := updateQueue + [el];
        if !timerPending {
          timerPending := true;
        }
      } else if charts[el].Gauge? {
        charts := charts[el := Gauge(value)];
      }
    }

    /**
     * `doUpdateChart`, when its timer fires: the element at the head of the
     * queue is taken off it, its record is removed and returned as the update
     * to apply, and another call is scheduled if elements remain.
     */
    method DoUpdateChart() returns (el: nat, chart: Chart)
      requires Valid() && timerPending
      modifies this
      ensures Valid()
      ensures el == old(updateQueue[0]) && updateQueue == old(updateQueue[1..])
      ensures el in old(charts) && chart == old(charts[el]) && charts == old(charts) - {el}
      ensures timerPending == (|updateQueue| > 0)
    {
      timerPending := false;
      el := updateQueue[0];
      RemoveKeepsDistinct(updateQueue, 0);
      assert updateQueue[..0] + updateQueue[1..] == updateQueue[1..];
      updateQueue := updateQueue[1..];
      chart := charts[el];
      charts := charts - {el};
      if |updateQueue| > 0 {
        timerPending := true;
      }
    }

    /**
     * `removeChart`: an element without a pending update changes nothing;
     * otherwise its record and its queue entry are removed. The scheduled
     * call is cancelled once the table is empty.
     */
    method RemoveChart(el: nat)
      requires Valid()
      modifies this
      ensures Valid()
      ensures el !in old(charts) ==> charts == old(charts) && updateQueue == old(updateQueue)
      ensures el in old(charts) ==>
        var i := IndexOf(old(updateQueue), el);
        0 <= i && charts == old(charts) - {el} && updateQueue == old(updateQueue[..i] + updateQueue[i + 1..])
      ensures timerPending == (old(timerPending) && |charts| > 0)
    {
      if el in charts {
        var i := IndexOf(updateQueue, el);
        RemovedConsistent(charts, updateQueue, el);
        charts := charts - {el};
        updateQueue := updateQueue[..i] + updateQueue[i + 1..];
      }
      QueueSize(charts, updateQueue);
      if |charts| == 0 {
        if timerPending {
          timerPending := false;
        }
      }
    }
  }

  // ---------------------------------------------------------------------------
  // newPlotQueue

  /** A plot creation request; its data, layout and configuration are not modelled. */
  datatype PlotRequest = PlotRequest(root: nat, createNewPlot: bool)

  class PlotQueue {
    var newPlotQueue: seq<PlotRequest>
    /** Whether `doNewPlotTimeoutId` is set: a request is scheduled or being served. */
    var active: bool
    /** The request `doNewPlotOrReact` has taken and is waiting on Plotly for. */
    var serving: Option<PlotRequest>
    /** Every request made, and every request resolved, in order. */
    ghost var requested: seq<PlotRequest>
    ghost var resolved: seq<PlotRequest>

    /**
     * Requests are resolved in the order they were made, at most one is
     * being served, and while no request is being served a call of
     * `doNewPlotOrReact` is scheduled exactly when requests wait.
     */
    ghost predicate Valid()
      reads this
    {
      requested == resolved + (if serving.Some? then [serving.value] else []) + newPlotQueue
      && (!active ==> serving.None? && newPlotQueue == [])
      && (active && serving.None? ==> newPlotQueue != [])
    }

    constructor()
      ensures newPlotQueue == [] && !active && serving.None? && requested == [] && resolved == [] && Valid()
    {
      newPlotQueue := [];
      active := false;
      serving := None;
      requested := [];
      resolved := [];
    }

    /** `newPlotOrReact`: the request joins the queue, and a call is scheduled unless one is active. */
    method NewPlotOrReact(req: PlotRequest)
      requires Valid()
      modifies this
      ensures Valid()
      ensures newPlotQueue == old(newPlotQueue) + [req] && requested == old(requested) + [req]
      ensures active && serving == old(serving) && resolved == old(resolved)
    {
      newPlotQueue := newPlotQueue + [req];
      requested := requested + [req];
      if !active {
        active := true;
      }
    }

    /** `doNewPlotOrReact` up to its `await`: the scheduled call takes the oldest request. */
    method Start() returns (req: PlotRequest)
      requires Valid() && active && serving.None?
      modifies this
      ensures Valid()
      ensures req == old(newPlotQueue[0]) && newPlotQueue == old(newPlotQueue[1..]) && serving == Some(req)
      ensures active && requested == old(requested) && resolved == old(resolved)
    {
      req := newPlotQueue[0];
      newPlotQueue := newPlotQueue[1..];
      serving := Some(req);
    }

    /**
     * `doNewPlotOrReact` after its `await`: the request is resolved, and the
     * next call is scheduled if requests wait, or the queue goes idle.
     */
    method Finish() returns (done: PlotRequest)
      requires Valid() && serving.Some?
      modifies this
      ensures Valid()
      ensures done == old(serving.value) && resolved == old(resolved) + [done] && serving.None?
      ensures newPlotQueue == old(newPlotQueue) && requested == old(requested)
      ensures active == (newPlotQueue != [])
    {
      done := serving.value;
      resolved := resolved + [done];
      serving := None;
      if newPlotQueue == [] {
        active := false;
      }
    }
  }

  /** Under the queue's invariant the requests resolved so far are the oldest requests made, in order. */
  lemma ResolvedInOrder(requested: seq<PlotRequest>, resolved: seq<PlotRequest>, serving: Option<PlotRequest>,
                        queue: seq<PlotRequest>)
    requires requested == resolved + (if serving.Some? then [serving.value] else []) + queue
    ensures |resolved| <= |requested| && requested[..|resolved|] == resolved
  {
    assert requested == resolved + ((if serving.Some? then [serving.value] else []) + queue);
  }

  // ---------------------------------------------------------------------------
  // The line chart's sample buffer

  /**
   * One sample received by `LineChartWidget.execute`: it is pushed, and the
   * oldest sample is dropped when the length then equals `maxPoints`
   * (`AsWritten`), or when it exceeds `maxPoints` (`Corrected`).
   */
  function BufferStep(mode: Mode, values: seq<Value>, v: Value, maxPoints: int): (r: seq<Value>)
    ensures |r| > 0 ==> r[|r| - 1] == v
    ensures |r| == |values| + 1 || r == (values + [v])[1..]
  {
    var pushed := values + [v];
    if (mode.AsWritten? && |pushed| == maxPoints) || (mode.Corrected? && |pushed| > maxPoints)
    then pushed[1..] else pushed
  }

  /**
   * The samples of a line chart: `execute` receives the `data` input as an
   * `InputPropertyValue` record or undefined (None). A record is an object,
   * so it is truthy whatever value it carries, and only a missing input is
   * skipped.
   */
  class RunningState {
    var values: seq<Value>

    constructor()
      ensures values == []
    {
      values := [];
    }

    method Receive(mode: Mode, input: Option<Value>, maxPoints: int)
      modifies this
      ensures input.None? ==> values == old(values)
      ensures input.Some? ==> values == BufferStep(mode, old(values), input.value, maxPoints)
    {
      if input.Some? {
        values := values + [input.value];
        if (mode.AsWritten? && |values| == maxPoints) || (mode.Corrected? && |values| > maxPoints) {
          values := values[1..];
        }
      }
    }
  }

  /** The samples of the inputs that arrived, in order. */
  function Arrived(inputs: seq<Option<Value>>): (r: seq<Value>)
    ensures |r| <= |inputs|
    ensures (forall k :: 0 <= k < |inputs| ==> inputs[k].Some?) ==> |r| == |inputs|
  {
    if |inputs| == 0 then []
    else
      var front := Arrived(inputs[..|inputs| - 1]);
      match inputs[|inputs| - 1]
      case None => front
      case Some(v) => front + [v]
  }

  /** The buffer after receiving `inputs`, starting empty. */
  function Window(mode: Mode, inputs: seq<Option<Value>>, maxPoints: int): seq<Value>
  {
    if |inputs| == 0 then []
    else
      var front := Window(mode, inputs[..|inputs| - 1], maxPoints);
      match inputs[|inputs| - 1]
      case None => front
      case Some(v) => BufferStep(mode, front, v, maxPoints)
  }

  function Min(a: int, b: int): int { if a <= b then a else b }

  /** As written, the buffer keeps only the newest `maxPoints - 1` samples that arrived. */
  lemma {:induction false} AsWrittenWindow(inputs: seq<Option<Value>>, maxPoints: int)
    requires maxPoints >= 1
    ensures var vs := Arrived(inputs); Window(AsWritten, inputs, maxPoints) == vs[|vs| - Min(|vs|, maxPoints - 1)..]
  {
    if |inputs| > 0 {
      var front := inputs[..|inputs| - 1];
      AsWrittenWindow(front, maxPoints);
      var fs := Arrived(front);
      var n := |fs|;
      if inputs[|inputs| - 1].Some? {
        var vs := Arrived(inputs);
        assert vs == fs + [inputs[|inputs| - 1].value];
        assert fs[n - Min(n, maxPoints - 1)..] + [vs[|vs| - 1]] == vs[n - Min(n, maxPoints - 1)..];
      }
    }
  }

  /** Whatever inputs arrive, the buffer stays shorter than `maxPoints`. */
  lemma AsWrittenBelowMaxPoints(inputs: seq<Option<Value>>, maxPoints: int)
    requires maxPoints >= 1
    ensures |Window(AsWritten, inputs, maxPoints)| < maxPoints
  {
    AsWrittenWindow(inputs, maxPoints);
  }

  /** With `maxPoints` 1 the chart is left with no sample at all. */
  lemma AsWrittenDropsEverything(v: Value)
    ensures BufferStep(AsWritten, [], v, 1) == []
    ensures Window(Corrected, [Some(v)], 1) == [v]
  {
    assert Window(Corrected, [Some(v)], 1) == BufferStep(Corrected, Window(Corrected, [], 1), v, 1);
  }

  /** Corrected, the buffer keeps exactly the newest `maxPoints` samples that arrived. */
  lemma {:induction false} CorrectedWindow(inputs: seq<Option<Value>>, maxPoints: int)
    requires maxPoints >= 1
    ensures var vs := Arrived(inputs); Window(Corrected, inputs, maxPoints) == vs[|vs| - Min(|vs|, maxPoints)..]
  {
    if |inputs| > 0 {
      var front := inputs[..|inputs| - 1];
      CorrectedWindow(front, maxPoints);
      if inputs[|inputs| - 1].Some? {
        var vs := Arrived(inputs);
        var n := |vs| - 1;
        assert vs[..n] == Arrived(front);
        var k := Min(n, maxPoints);
        assert Window(Corrected, inputs, maxPoints) == BufferStep(Corrected, Window(Corrected, front, maxPoints), vs[n], maxPoints);
        SuffixPush(vs, k);
        if n >= maxPoints {
          SuffixDrop(vs, n - k);
        }
      }
    }
  }

  /** The newest `k` samples before the last, followed by the last, are the newest `k + 1`. */
  lemma SuffixPush(vs: seq<Value>, k: int)
    requires 0 <= k < |vs|
    ensures vs[..|vs| - 1][|vs| - 1 - k..] + [vs[|vs| - 1]] == vs[|vs| - 1 - k..]
  {
  }

  lemma SuffixDrop(vs: seq<Value>, j: int)
    requires 0 <= j < |vs|
    ensures vs[j..][1..] == vs[j + 1..]
  {
  }
}
