/**
 * The wallet's refresh progress reporter: on every synchronization progress
 * event it decides whether to ask the node for its height (rate limited by
 * half the block target interval) and whether to redraw the one-line status
 * display (throttled to more than one millisecond between draws).
 *
 * Time is an integer number of milliseconds since the clock's epoch; a
 * default-constructed time point is the epoch, 0.
 */
module PoolWallet {

  /** One status line drawn on the console: "Height <height> of <knownHeight>". */
  datatype StatusLine = StatusLine(height: nat, knownHeight: nat)

  /** The reporter's three fields, as a value. */
  datatype Fields = Fields(blockchainHeight: nat, heightUpdateTime: int, printTime: int)

  /**
   * The inputs of one call to update: the wallet height and the force flag,
   * the clock reading taken by update, and what the node query returns if it
   * happens (the node's height and the clock reading taken by the query).
   */
  datatype Event = Event(height: nat, force: bool, now: int, nodeHeight: nat, queryNow: int)

  /** Minimum time, exclusive, between two unforced redraws. */
  const PrintThrottleMs: int := 1

  /** The fields as the constructor leaves them: nothing known, both times at the epoch. */
  function Initial(): Fields
  {
    Fields(0, 0, 0)
  }

  /** Half the block target interval, in whole seconds, expressed in milliseconds. */
  function QueryWindowMs(difficultyTarget: nat): nat
  {
    difficultyTarget / 2 * 1000
  }

  function Max(a: nat, b: nat): nat
  {
    if a < b then b else a
  }

  /** The node is queried when the window has passed or the wallet has caught up. */
  predicate QueriesNode(f: Fields, difficultyTarget: nat, e: Event)
  {
    QueryWindowMs(difficultyTarget) < e.now - f.heightUpdateTime || f.blockchainHeight <= e.height
  }

  /** A line is drawn when the throttle has passed or the caller forces it. */
  predicate PrintsLine(f: Fields, e: Event)
  {
    PrintThrottleMs < e.now - f.printTime || e.force
  }

  /** The fields after the query step of update. */
  function AfterQuery(f: Fields, difficultyTarget: nat, e: Event): Fields
  {
    if QueriesNode(f, difficultyTarget, e) then
      f.(blockchainHeight := Max(e.nodeHeight, e.height), heightUpdateTime := e.queryNow)
    else
      f
  }

  /** The fields after a whole call to update. */
  function Next(f: Fields, difficultyTarget: nat, e: Event): Fields
  {
    var q := AfterQuery(f, difficultyTarget, e);
    if PrintsLine(f, e) then q.(printTime := e.now) else q
  }

  /** The lines one call to update draws: none or one. */
  function Emitted(f: Fields, difficultyTarget: nat, e: Event): seq<StatusLine>
  {
    if PrintsLine(f, e) then [StatusLine(e.height, AfterQuery(f, difficultyTarget, e).blockchainHeight)] else []
  }

  /** What a run of updates leaves: the fields, the lines drawn and the number of node queries. */
  datatype Trace = Trace(fields: Fields, lines: seq<StatusLine>, queries: nat)

  /** A run of consecutive calls to update, starting from the fields f. */
  function Run(f: Fields, difficultyTarget: nat, es: seq<Event>): Trace
    decreases |es|
  {
    if es == [] then Trace(f, [], 0)
    else
      var rest := Run(Next(f, difficultyTarget, es[0]), difficultyTarget, es[1..]);
      Trace(rest.fields,
            Emitted(f, difficultyTarget, es[0]) + rest.lines,
            (if QueriesNode(f, difficultyTarget, es[0]) then 1 else 0) + rest.queries)
  }

  /** The reporter object, with the console as an append-only log of lines. */
  class RefreshProgressReporter {
    const difficultyTarget: nat
    var blockchainHeight: nat
    var blockchainHeightUpdateTime: int
    var printTime: int
    var console: seq<StatusLine>

    function State(): Fields
      reads this
    {
      Fields(blockchainHeight, blockchainHeightUpdateTime, printTime)
    }

    constructor (difficultyTarget: nat)
      ensures this.difficultyTarget == difficultyTarget
      ensures State() == Initial() && console == []
    {
      this.difficultyTarget := difficultyTarget;
      blockchainHeight := 0;
      blockchainHeightUpdateTime := 0;
      printTime := 0;
      console := [];
    }

    /** One progress event at clock reading now. */
    method Update(height: nat, force: bool, now: int, nodeHeight: nat, queryNow: int)
      modifies this
      ensures State() == Next(old(State()), difficultyTarget, Event(height, force, now, nodeHeight, queryNow))
      ensures console == old(console) + Emitted(old(State()), difficultyTarget, Event(height, force, now, nodeHeight, queryNow))
    {
      if QueryWindowMs(difficultyTarget) < now - blockchainHeightUpdateTime || blockchainHeight <= height {
        UpdateBlockchainHeight(nodeHeight, queryNow);
        blockchainHeight := Max(blockchainHeight, height);
      }
      if PrintThrottleMs < now - printTime || force {
        console := console + [StatusLine(height, blockchainHeight)];
        printTime := now;
      }
    }

    /** Takes the node's height as the known height and stamps the query with its own clock reading. */
    method UpdateBlockchainHeight(nodeHeight: nat, queryNow: int)
      modifies this`blockchainHeight, this`blockchainHeightUpdateTime
      ensures blockchainHeight == nodeHeight && blockchainHeightUpdateTime == queryNow
    {
      blockchainHeight := nodeHeight;
      blockchainHeightUpdateTime := queryNow;
    }
  }

  // ---------------------------------------------------------------------------
  // Properties of one call to update
  // ---------------------------------------------------------------------------

  /** A freshly constructed reporter queries the node on its first update, whatever the height. */
  lemma FirstUpdateQueries(difficultyTarget: nat, e: Event)
    ensures QueriesNode(Initial(), difficultyTarget, e)
    ensures Next(Initial(), difficultyTarget, e).blockchainHeight == Max(e.nodeHeight, e.height)
    ensures Next(Initial(), difficultyTarget, e).heightUpdateTime == e.queryNow
  {
  }

  /**
   * After a query the known height is the larger of the node's answer and the
   * given height, so it covers the given height; the old known height plays no part.
   */
  lemma QueryCoversHeight(f: Fields, difficultyTarget: nat, e: Event)
    requires QueriesNode(f, difficultyTarget, e)
    ensures Next(f, difficultyTarget, e).blockchainHeight == Max(e.nodeHeight, e.height)
    ensures Next(f, difficultyTarget, e).blockchainHeight >= e.height
    ensures Next(f, difficultyTarget, e).blockchainHeight >= e.nodeHeight
    ensures Next(f, difficultyTarget, e).heightUpdateTime == e.queryNow
  {
  }

  /** The known height is overwritten by the node's answer, so it can go down. */
  lemma KnownHeightCanDecrease()
    ensures exists f: Fields, d: nat, e: Event :: Next(f, d, e).blockchainHeight < f.blockchainHeight
  {
    var f := Fields(100, 0, 0);
    var e := Event(50, false, 10_000, 60, 10_000);
    assert QueriesNode(f, 2, e);
    assert Next(f, 2, e).blockchainHeight == 60;
  }

  /** Without a query the known height and the query time stay as they were. */
  lemma NoQueryKeepsKnownHeight(f: Fields, difficultyTarget: nat, e: Event)
    requires !QueriesNode(f, difficultyTarget, e)
    ensures e.now - f.heightUpdateTime <= QueryWindowMs(difficultyTarget) && e.height < f.blockchainHeight
    ensures Next(f, difficultyTarget, e).blockchainHeight == f.blockchainHeight
    ensures Next(f, difficultyTarget, e).heightUpdateTime == f.heightUpdateTime
  {
  }

  /** A forced update always draws exactly one line and stamps the draw time. */
  lemma ForcedUpdatePrints(f: Fields, difficultyTarget: nat, e: Event)
    requires e.force
    ensures |Emitted(f, difficultyTarget, e)| == 1
    ensures Next(f, difficultyTarget, e).printTime == e.now
  {
  }

  /**
   * An unforced update draws a line if and only if more than one millisecond
   * has passed since the last draw; if it does not draw, the draw time stays.
   */
  lemma UnforcedUpdateThrottle(f: Fields, difficultyTarget: nat, e: Event)
    requires !e.force
    ensures |Emitted(f, difficultyTarget, e)| == 1 <==> e.now - f.printTime > 1
    ensures Emitted(f, difficultyTarget, e) == [] <==> e.now - f.printTime <= 1
    ensures Next(f, difficultyTarget, e).printTime == if e.now - f.printTime > 1 then e.now else f.printTime
  {
  }

  /** A drawn line shows the given height and the known height as it stands after the query step. */
  lemma LineShowsKnownHeight(f: Fields, difficultyTarget: nat, e: Event)
    requires PrintsLine(f, e)
    ensures Emitted(f, difficultyTarget, e) == [StatusLine(e.height, Next(f, difficultyTarget, e).blockchainHeight)]
  {
  }

  // ---------------------------------------------------------------------------
  // Properties of runs of updates
  // ---------------------------------------------------------------------------

  /** Each update draws at most one line and queries the node at most once. */
  lemma {:induction false} RunBounds(f: Fields, difficultyTarget: nat, es: seq<Event>)
    ensures |Run(f, difficultyTarget, es).lines| <= |es|
    ensures Run(f, difficultyTarget, es).queries <= |es|
    decreases |es|
  {
    if es != [] {
      RunBounds(Next(f, difficultyTarget, es[0]), difficultyTarget, es[1..]);
    }
  }

  /**
   * Rate limit: however many progress events arrive within the query window
   * since the last query, none of them queries the node while the wallet
   * stays below the known network height.
   */
  lemma {:induction false} NoQueryWithinWindow(f: Fields, difficultyTarget: nat, es: seq<Event>)
    requires forall i :: 0 <= i < |es| ==> es[i].now - f.heightUpdateTime <= QueryWindowMs(difficultyTarget)
    requires forall i :: 0 <= i < |es| ==> es[i].height < f.blockchainHeight
    ensures Run(f, difficultyTarget, es).queries == 0
    ensures Run(f, difficultyTarget, es).fields.blockchainHeight == f.blockchainHeight
    ensures Run(f, difficultyTarget, es).fields.heightUpdateTime == f.heightUpdateTime
    decreases |es|
  {
    if es != [] {
      assert !QueriesNode(f, difficultyTarget, es[0]);
      var g := Next(f, difficultyTarget, es[0]);
      assert g.blockchainHeight == f.blockchainHeight && g.heightUpdateTime == f.heightUpdateTime;
      NoQueryWithinWindow(g, difficultyTarget, es[1..]);
    }
  }

  /** Unforced events within the throttle of the last draw draw nothing and leave the draw time. */
  lemma {:induction false} NoLinesWithinThrottle(f: Fields, difficultyTarget: nat, es: seq<Event>)
    requires forall i :: 0 <= i < |es| ==> !es[i].force && es[i].now - f.printTime <= PrintThrottleMs
    ensures Run(f, difficultyTarget, es).lines == []
    ensures Run(f, difficultyTarget, es).fields.printTime == f.printTime
    decreases |es|
  {
    if es != [] {
      var g := Next(f, difficultyTarget, es[0]);
      assert g.printTime == f.printTime;
      NoLinesWithinThrottle(g, difficultyTarget, es[1..]);
    }
  }

  /**
   * The rate limit stops once the wallet has caught up: while the node reports
   * no more than the wallet height and the heights do not go down, every event
   * queries the node, however close together the events are.
   */
  lemma {:induction false} CaughtUpQueriesEveryEvent(f: Fields, difficultyTarget: nat, es: seq<Event>)
    requires |es| > 0 ==> f.blockchainHeight <= es[0].height
    requires forall i :: 0 <= i < |es| ==> es[i].nodeHeight <= es[i].height
    requires forall i :: 0 <= i < |es| - 1 ==> es[i].height <= es[i + 1].height
    ensures Run(f, difficultyTarget, es).queries == |es|
    decreases |es|
  {
    if es != [] {
      var g := Next(f, difficultyTarget, es[0]);
      assert QueriesNode(f, difficultyTarget, es[0]);
      assert g.blockchainHeight == es[0].height;
      QueriesNotCappedStep(es);
      CaughtUpQueriesEveryEvent(g, difficultyTarget, es[1..]);
    }
  }

  lemma QueriesNotCappedStep(es: seq<Event>)
    requires |es| > 0
    requires forall i :: 0 <= i < |es| ==> es[i].nodeHeight <= es[i].height
    requires forall i :: 0 <= i < |es| - 1 ==> es[i].height <= es[i + 1].height
    ensures |es| > 1 ==> es[0].height <= es[1..][0].height
    ensures forall i :: 0 <= i < |es[1..]| ==> es[1..][i].nodeHeight <= es[1..][i].height
    ensures forall i :: 0 <= i < |es[1..]| - 1 ==> es[1..][i].height <= es[1..][i + 1].height
  {
    forall i | 0 <= i < |es[1..]| - 1
      ensures es[1..][i].height <= es[1..][i + 1].height
    {
      assert es[1..][i] == es[i + 1] && es[1..][i + 1] == es[i + 2];
    }
  }

  /** Two events at the caught-up height, 1 ms apart and well inside the query window, query the node twice. */
  lemma CaughtUpQueriesInsideWindow()
    ensures var es := [Event(100, false, 1, 100, 1), Event(100, false, 2, 100, 2)];
            es[1].now - es[0].queryNow <= QueryWindowMs(120) && Run(Fields(100, 0, 0), 120, es).queries == 2
  {
    var es := [Event(100, false, 1, 100, 1), Event(100, false, 2, 100, 2)];
    var f := Fields(100, 0, 0);
    var g := Next(f, 120, es[0]);
    assert g.blockchainHeight == 100 && g.heightUpdateTime == 1;
    assert es[1..] == [es[1]];
    var h := Next(g, 120, es[1]);
    assert QueriesNode(g, 120, es[1]);
    assert Run(h, 120, es[1..][1..]).queries == 0;
  }

  /** Two unforced updates within the throttle window draw at most one line between them. */
  lemma TwoUnforcedUpdatesDrawAtMostOnce(f: Fields, difficultyTarget: nat, e1: Event, e2: Event)
    requires !e1.force && !e2.force
    requires e2.now <= e1.now + PrintThrottleMs
    ensures |Run(f, difficultyTarget, [e1, e2]).lines| <= 1
  {
    var g := Next(f, difficultyTarget, e1);
    assert [e1, e2][1..] == [e2];
    assert Run(g, difficultyTarget, [e2]).lines == Emitted(g, difficultyTarget, e2);
    if PrintsLine(f, e1) {
      assert g.printTime == e1.now;
      assert !PrintsLine(g, e2);
    }
  }

  /** When every update is forced, every event draws its own line, in order, with its own height. */
  lemma {:induction false} ForcedRunDrawsEveryEvent(f: Fields, difficultyTarget: nat, es: seq<Event>)
    requires forall i :: 0 <= i < |es| ==> es[i].force
    ensures |Run(f, difficultyTarget, es).lines| == |es|
    ensures forall i :: 0 <= i < |es| ==> Run(f, difficultyTarget, es).lines[i].height == es[i].height
    decreases |es|
  {
    if es != [] {
      var g := Next(f, difficultyTarget, es[0]);
      ForcedRunDrawsEveryEvent(g, difficultyTarget, es[1..]);
      var t := Run(f, difficultyTarget, es);
      assert t.lines == [StatusLine(es[0].height, Next(f, difficultyTarget, es[0]).blockchainHeight)] + Run(g, difficultyTarget, es[1..]).lines;
      forall i | 0 <= i < |es|
        ensures t.lines[i].height == es[i].height
      {
        if i > 0 {
          assert t.lines[i] == Run(g, difficultyTarget, es[1..]).lines[i - 1];
          assert es[1..][i - 1] == es[i];
        }
      }
    }
  }
}
