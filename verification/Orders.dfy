/** The order in which indices are merged. */
module Orders {
  import opened Wrappers
  import opened Levels
  import opened Lifecycle
  import opened MergedOnce

  /** The indices that are merged but still pending: one in the writer's hands and one on its way there. */
  function OnTheirWay(s: State): seq<Pending> {
    (if s.writer.Removing? then [s.writer.ri] else []) + (if s.flusher.Sending? then [s.flusher.ri] else [])
  }

  /** What was merged and what is queued are the published indices, in order and without a gap, and what is pending are
      those not merged, after the last merged ones. */
  ghost predicate InLine(s: State) {
    Lined(s.created, s.merged, Queued(s), s.pen, OnTheirWay(s))
  }

  ghost predicate Lined(created: seq<Pending>, merged: seq<Pending>, queued: seq<Pending>, pen: seq<Pending>, way: seq<Pending>) {
    && (exists rest :: created == merged + queued + rest)
    && (exists done, rest :: merged == done + way && created == merged + rest && pen == way + rest)
  }

  lemma LinedBy(created: seq<Pending>, merged: seq<Pending>, queued: seq<Pending>, pen: seq<Pending>, way: seq<Pending>,
    more: seq<Pending>, done: seq<Pending>)
    requires created == merged + queued + more && merged == done + way && pen == way + (queued + more)
    ensures Lined(created, merged, queued, pen, way)
  {
    assert created == merged + (queued + more);
  }

  lemma Parts(created: seq<Pending>, merged: seq<Pending>, queued: seq<Pending>, pen: seq<Pending>, way: seq<Pending>)
    returns (more: seq<Pending>, done: seq<Pending>)
    requires Lined(created, merged, queued, pen, way)
    ensures created == merged + queued + more && merged == done + way && pen == way + (queued + more)
  {
    more :| created == merged + queued + more;
    var rest;
    done, rest :| merged == done + way && created == merged + rest && pen == way + rest;
    assert rest == created[|merged|..] == queued + more;
  }

  lemma InLineStays(s: State, step: Step)
    requires InLine(s) && Enabled(s, step) && !Hasty(s, step)
    ensures InLine(Apply(s, step))
  {
    hide MergeRows, Lined;
    match step {
      case Publish => PublishInLine(s);
      case Remove => RemoveInLine(s);
      case Merge => MergeInLine(s);
      case LoadQueue => LoadInLine(s);
      case _ =>
        var t := Apply(s, step);
        assert OnTheirWay(t) == OnTheirWay(s) && Queued(t) == Queued(s);
    }
  }

  lemma PublishInLine(s: State)
    requires InLine(s) && Enabled(s, Publish)
    ensures InLine(Apply(s, Publish))
  {
    var t := Apply(s, Publish);
    var p := t.created[|s.created|];
    hide Lined;
    var more, done := Parts(s.created, s.merged, Queued(s), s.pen, OnTheirWay(s));
    var q, w := Queued(s), OnTheirWay(s);
    assert t.created == s.merged + q + (more + [p]);
    assert t.pen == w + (q + (more + [p]));
    hide *;
    LinedBy(t.created, t.merged, Queued(t), t.pen, OnTheirWay(t), more + [p], done);
    assert InLine(t);
  }

  lemma RemoveInLine(s: State)
    requires InLine(s) && Enabled(s, Remove)
    ensures InLine(Apply(s, Remove))
  {
    var t, ri := Apply(s, Remove), s.writer.ri;
    hide Lined;
    var more, done := Parts(s.created, s.merged, Queued(s), s.pen, OnTheirWay(s));
    var q, w := Queued(s), OnTheirWay(t);
    assert OnTheirWay(s) == [ri] + w;
    assert s.pen == [ri] + (w + (q + more)) && s.pen[1..] == w + (q + more);
    assert RemoveFirst(s.pen, ri) == s.pen[1..];
    assert t.merged == (done + [ri]) + w;
    LinedBy(t.created, t.merged, q, t.pen, w, more, done + [ri]);
  }

  lemma MergeInLine(s: State)
    requires InLine(s) && Enabled(s, Merge)
    ensures InLine(Apply(s, Merge))
  {
    hide MergeRows, Lined;
    var t, ri := Apply(s, Merge), s.flusher.queue[0];
    var more, done := Parts(s.created, s.merged, Queued(s), s.pen, OnTheirWay(s));
    var q, w := Queued(t), OnTheirWay(s);
    assert Queued(s) == [ri] + q;
    assert OnTheirWay(t) == w + [ri];
    assert t.merged == s.merged + [ri] && t.created == s.created && t.pen == s.pen;
    Shifted(s.created, s.merged, ri, q, s.pen, w, more, done);
  }

  lemma Shifted(created: seq<Pending>, merged: seq<Pending>, ri: Pending, q: seq<Pending>, pen: seq<Pending>, w: seq<Pending>,
    more: seq<Pending>, done: seq<Pending>)
    requires created == merged + ([ri] + q) + more && merged == done + w && pen == w + (([ri] + q) + more)
    ensures Lined(created, merged + [ri], q, pen, w + [ri])
  {
    hide Lined;
    assert created == (merged + [ri]) + q + more;
    assert merged + [ri] == done + (w + [ri]);
    assert pen == (w + [ri]) + (q + more);
    LinedBy(created, merged + [ri], q, pen, w + [ri], more, done);
  }

  lemma LoadInLine(s: State)
    requires InLine(s) && Enabled(s, LoadQueue) && !s.writer.Removing?
    ensures InLine(Apply(s, LoadQueue))
  {
    hide Lined;
    var t := Apply(s, LoadQueue);
    var more, done := Parts(s.created, s.merged, Queued(s), s.pen, OnTheirWay(s));
    assert s.pen == more && t.created == t.merged + s.pen + [] && t.pen == [] + (s.pen + []);
    LinedBy(t.created, t.merged, s.pen, t.pen, [], [], done);
  }

  lemma {:induction false} RunInLine(s: State, steps: seq<Step>)
    requires InLine(s) && CanRun(s, steps) && Orderly(s, steps)
    ensures InLine(Run(s, steps))
    decreases |steps|
  {
    if steps != [] {
      InLineStays(s, steps[0]);
      RunInLine(Apply(s, steps[0]), steps[1..]);
    }
  }

  /** In every orderly run indices are merged in the order in which they were published, none is passed over, and what is
      pending is the rest, in that order, after at most two that are merged already. */
  lemma MergedInOrder(capacity: nat, steps: seq<Step>)
    requires CanRun(Init(capacity), steps) && Orderly(Init(capacity), steps)
    ensures var s := Run(Init(capacity), steps);
      && |s.merged| <= |s.created| && s.merged == s.created[..|s.merged|]
      && exists k: nat :: |s.merged| - 2 <= k <= |s.merged| && s.pen == s.created[k..]
  {
    assert InLine(Init(capacity)) by {
      LinedBy([], [], [], [], [], [], []);
    }
    RunInLine(Init(capacity), steps);
    var s := Run(Init(capacity), steps);
    hide Lined, Run, CanRun, Orderly;
    var more, done := Parts(s.created, s.merged, Queued(s), s.pen, OnTheirWay(s));
    assert s.created == s.merged + (Queued(s) + more);
    var k := |done|;
    assert s.pen == s.created[k..];
  }
}
