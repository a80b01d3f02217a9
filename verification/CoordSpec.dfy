/**
 * One attempt of a transaction at its coordinator: pieces are started, sites prepare, and the outcome is broadcast. The
 * reply callbacks are atomic; the replies of each kind may come back in any order.
 */
module CoordSpec {
  import opened Options

  /** A piece waits for the output of another, is ready, has been sent, or turned out not to be needed. */
  datatype Piece = Waiting | Ready | Ongoing | Skipped

  datatype Phase = Starting | Preparing | Finishing

  /** `shard` gives the site of each piece; `starts` are the pieces sent and not answered, `replied` those answered. */
  datatype Pieces = Pieces(
    shard: seq<nat>, status: seq<Piece>, nStarted: nat, nStartSent: nat, proxies: set<nat>, starts: set<nat>,
    replied: set<nat>)

  /** `prepares` are the prepare requests not answered. */
  datatype Votes = Votes(nPrepared: nat, prepares: set<nat>, accepted: set<nat>)

  /** How often `finish` ran, what it sent to whom, and the requests not answered. */
  datatype Outcome = Outcome(nFinishRuns: nat, nFinished: nat, finishes: set<nat>, sentCommit: set<nat>,
      sentAbort: set<nat>)

  datatype Co = Co(p: Pieces, v: Votes, o: Outcome, commit: bool, rejected: bool, phase: Phase)

  function With(status: seq<Piece>, x: Piece): set<nat> {
    set i: nat | i < |status| && status[i] == x
  }

  function Sent(status: seq<Piece>): seq<Piece> {
    seq(|status|, i requires 0 <= i < |status| => if status[i] == Ready then Ongoing else status[i])
  }

  function Sites(shard: seq<nat>, pieces: set<nat>): set<nat> {
    set i | i in pieces && i < |shard| :: shard[i]
  }

  /** `start`: every ready piece is sent, unless all pieces are through. */
  function Started(p: Pieces): Pieces {
    var ready := With(p.status, Ready);
    if p.nStarted == |p.status| then p
    else p.(status := Sent(p.status), proxies := p.proxies + Sites(p.shard, ready),
            starts := p.starts + ready, nStartSent := p.nStartSent + |ready|)
  }

  /** `finish`: the outcome goes to every site involved. */
  function Broadcast(o: Outcome, commit: bool, proxies: set<nat>): Outcome {
    var p := o.(nFinishRuns := o.nFinishRuns + 1, finishes := proxies);
    if commit then p.(sentCommit := o.sentCommit + proxies) else p.(sentAbort := o.sentAbort + proxies)
  }

  function Finished(c: Co): Co {
    c.(phase := Finishing, o := Broadcast(c.o, c.commit, c.p.proxies))
  }

  function Prepared(c: Co): Co {
    c.(phase := Preparing, v := c.v.(prepares := c.p.proxies))
  }

  /** What the transaction's own callback does: it releases some waiting pieces and drops others. */
  function Released(status: seq<Piece>, ready: set<nat>, skipped: set<nat>): (r: seq<Piece>)
    ensures |r| == |status|
  {
    seq(|status|, i requires 0 <= i < |status| =>
      if i in ready then Ready else if i in skipped then Skipped else status[i])
  }

  function Dropped(p: Pieces, ready: set<nat>, skipped: set<nat>): Pieces {
    p.(status := Released(p.status, ready, skipped), nStarted := p.nStarted + |skipped|)
  }

  /** What a start reply counts, before any decision. */
  function Counted(p: Pieces, pi: nat): (q: Pieces)
    ensures q.status == p.status && q.shard == p.shard
  {
    p.(nStarted := p.nStarted + 1, nStartSent := if p.nStartSent > 0 then p.nStartSent - 1 else 0,
       starts := p.starts - {pi}, replied := p.replied + {pi})
  }

  /** A rejected attempt only waits for the pieces still out. */
  function WindDown(c: Co): Co {
    if c.p.nStartSent == 0 then Finished(c) else c
  }

  function GoOn(c: Co, ready: set<nat>, skipped: set<nat>): Co {
    var d := c.(p := Dropped(c.p, ready, skipped));
    if ready != {} then d.(p := Started(d.p))
    else if d.p.nStarted == |d.p.status| then Prepared(d)
    else d
  }

  function AfterStart(c: Co, pi: nat, reject: bool, ready: set<nat>, skipped: set<nat>): Co {
    var d := c.(p := Counted(c.p, pi), commit := c.commit && !reject, rejected := c.rejected || reject);
    if d.commit then GoOn(d, ready, skipped) else WindDown(d)
  }

  /** A prepare reply; `ok` is false for a refusal and for a failed call. */
  function Voted(v: Votes, s: nat, ok: bool): Votes {
    Votes(v.nPrepared + 1, v.prepares - {s}, if ok then v.accepted + {s} else v.accepted)
  }

  function AfterPrepare(c: Co, s: nat, ok: bool): Co {
    var d := c.(v := Voted(c.v, s, ok), commit := c.commit && ok);
    if d.v.nPrepared == |d.p.proxies| then Finished(d) else d
  }

  function AfterFinish(c: Co, s: nat): Co {
    c.(o := c.o.(nFinished := c.o.nFinished + 1, finishes := c.o.finishes - {s}))
  }

  const NO_VOTES := Votes(0, {}, {})
  const NO_OUTCOME := Outcome(0, 0, {}, {}, {})

  /** A fresh attempt: nothing sent; pieces found unnecessary from the outset count as started. */
  function Fresh(shard: seq<nat>, status: seq<Piece>): Co {
    Co(Pieces(shard, status, |With(status, Skipped)|, 0, {}, {}, {}), NO_VOTES, NO_OUTCOME, true, false, Starting)
  }

  datatype Step =
    | StartReply(pi: nat, reject: bool, ready: set<nat>, skipped: set<nat>)
    | PrepareReply(site: nat, ok: bool)
    | FinishReply(site: nat)

  predicate Enabled(c: Co, step: Step) {
    match step
    case StartReply(pi, _, ready, skipped) => pi in c.p.starts && Releasable(c.p.status, ready, skipped)
    case PrepareReply(s, _) => s in c.v.prepares
    case FinishReply(s) => s in c.o.finishes
  }

  predicate Releasable(status: seq<Piece>, ready: set<nat>, skipped: set<nat>) {
    ready + skipped <= With(status, Waiting) && ready !! skipped
  }

  function After(c: Co, step: Step): Co {
    match step
    case StartReply(pi, reject, ready, skipped) => AfterStart(c, pi, reject, ready, skipped)
    case PrepareReply(s, ok) => AfterPrepare(c, s, ok)
    case FinishReply(s) => AfterFinish(c, s)
  }

  // ---- What every reply keeps

  ghost predicate PiecesOk(p: Pieces) {
    && |p.shard| == |p.status|
    && p.starts !! p.replied && p.starts + p.replied == With(p.status, Ongoing)
    && p.nStartSent == |p.starts| && p.nStarted == |p.replied| + |With(p.status, Skipped)|
    && p.proxies == Sites(p.shard, With(p.status, Ongoing))
  }

  ghost predicate PhaseOk(c: Co) {
    match c.phase
    case Starting =>
      && c.v == NO_VOTES && c.o == NO_OUTCOME && (c.commit <==> !c.rejected) && (!c.commit ==> c.p.starts != {})
      && (c.commit && c.p.proxies != {} ==> c.p.nStarted < |c.p.status|)
    case Preparing =>
      && c.o == NO_OUTCOME && !c.rejected && c.p.nStarted == |c.p.status|
      && c.v.prepares <= c.p.proxies && c.v.nPrepared + |c.v.prepares| == |c.p.proxies| && c.v.nPrepared < |c.p.proxies|
      && (c.commit ==> c.v.accepted == c.p.proxies - c.v.prepares)
    case Finishing =>
      && c.o.nFinishRuns == 1 && c.p.starts == c.v.prepares == {} && c.p.proxies != {}
      && c.o.finishes <= c.p.proxies && c.o.nFinished + |c.o.finishes| == |c.p.proxies|
      && (if c.commit
          then c.o.sentCommit == c.p.proxies && c.o.sentAbort == {} && c.v.accepted == c.p.proxies && !c.rejected
          else c.o.sentAbort == c.p.proxies && c.o.sentCommit == {})
      && (c.rejected || c.p.nStarted == |c.p.status|)
  }

  ghost predicate Inv(c: Co) {
    PiecesOk(c.p) && With(c.p.status, Ready) == {} && PhaseOk(c)
  }

  // ---- Counting pieces

  lemma SentPieces(status: seq<Piece>)
    ensures With(Sent(status), Ready) == {}
    ensures With(Sent(status), Ongoing) == With(status, Ongoing) + With(status, Ready)
    ensures With(Sent(status), Skipped) == With(status, Skipped)
  {
  }

  lemma ReleasedPieces(status: seq<Piece>, ready: set<nat>, skipped: set<nat>)
    requires Releasable(status, ready, skipped)
    ensures With(Released(status, ready, skipped), Ready) == With(status, Ready) + ready
    ensures With(Released(status, ready, skipped), Skipped) == With(status, Skipped) + skipped
    ensures With(Released(status, ready, skipped), Ongoing) == With(status, Ongoing)
    ensures With(status, Skipped) !! skipped
  {
    var r := Released(status, ready, skipped);
    forall i: nat | i < |status|
      ensures i in With(r, Ready) <==> i in With(status, Ready) + ready
      ensures i in With(r, Skipped) <==> i in With(status, Skipped) + skipped
      ensures i in With(r, Ongoing) <==> i in With(status, Ongoing)
    {
    }
  }

  lemma {:induction false} Indices(n: nat) returns (s: set<nat>)
    ensures (forall i: nat :: i in s <==> i < n) && |s| == n
  {
    if n == 0 {
      s := {};
    } else {
      var t := Indices(n - 1);
      s := t + {n - 1};
    }
  }

  lemma SubsetSize(s: set<nat>, t: set<nat>)
    requires s <= t
    ensures |s| <= |t| && (|s| == |t| ==> s == t)
  {
    assert t == s + (t - s);
  }

  /**
   * The pieces that are through, answered or dropped; they are all pieces exactly when none is left in another state.
   */
  lemma Through(p: Pieces)
    requires PiecesOk(p)
    ensures p.nStarted <= |p.status|
    ensures p.nStarted == |p.status| <==> p.starts == {} && With(p.status, Waiting) == {} && With(p.status, Ready) == {}
  {
    var all := Indices(|p.status|);
    var skipped := With(p.status, Skipped);
    var through := p.replied + skipped;
    assert p.replied <= With(p.status, Ongoing) && p.starts <= With(p.status, Ongoing);
    assert p.replied !! skipped && |through| == |p.replied| + |skipped|;
    assert through <= all;
    SubsetSize(through, all);
    if p.starts == {} && With(p.status, Waiting) == {} && With(p.status, Ready) == {} {
      forall i | i in all
        ensures i in through
      {
        assert i !in With(p.status, Waiting) && i !in With(p.status, Ready);
        assert i in With(p.status, Ongoing) || i in skipped;
      }
      assert all == through;
    }
    if through == all {
      forall i | i in all
        ensures i !in p.starts && i !in With(p.status, Waiting) && i !in With(p.status, Ready)
      {
      }
    }
  }

  lemma SitesOfBoth(shard: seq<nat>, a: set<nat>, b: set<nat>)
    ensures Sites(shard, a + b) == Sites(shard, a) + Sites(shard, b)
  {
  }

  lemma SitesNonEmpty(shard: seq<nat>, status: seq<Piece>, x: Piece)
    requires |shard| == |status| && With(status, x) != {}
    ensures Sites(shard, With(status, x)) != {}
  {
    var i :| i in With(status, x);
    assert shard[i] in Sites(shard, With(status, x));
  }

  /** `start` leaves no piece ready. */
  lemma StartedOk(p: Pieces)
    requires PiecesOk(p)
    ensures PiecesOk(Started(p)) && With(Started(p).status, Ready) == {}
    ensures With(p.status, Ready) != {} ==> Started(p).nStarted < |Started(p).status|
  {
    hide With, Sites, Sent;
    Through(p);
    if p.nStarted != |p.status| {
      SentPieces(p.status);
      Apart(p.status);
      var ready, ongoing := With(p.status, Ready), With(p.status, Ongoing);
      SitesOfBoth(p.shard, ongoing, ready);
      assert p.starts + ready + p.replied == ongoing + ready;
      assert p.starts !! ready && |p.starts + ready| == |p.starts| + |ready|;
    }
  }

  lemma Apart(status: seq<Piece>)
    ensures With(status, Ongoing) !! With(status, Ready) && |Sent(status)| == |status|
  {
  }

  lemma CountedOk(p: Pieces, pi: nat)
    requires PiecesOk(p) && pi in p.starts
    ensures PiecesOk(Counted(p, pi)) && p.proxies != {} && Counted(p, pi).proxies == p.proxies
  {
    assert pi in With(p.status, Ongoing);
    SitesNonEmpty(p.shard, p.status, Ongoing);
    hide With, Sites;
    assert p.starts - {pi} + (p.replied + {pi}) == p.starts + p.replied;
    assert |p.starts| == |p.starts - {pi}| + 1 && |p.replied + {pi}| == |p.replied| + 1;
  }

  lemma DroppedOk(p: Pieces, ready: set<nat>, skipped: set<nat>)
    requires PiecesOk(p) && Releasable(p.status, ready, skipped) && With(p.status, Ready) == {}
    ensures PiecesOk(Dropped(p, ready, skipped)) && With(Dropped(p, ready, skipped).status, Ready) == ready
  {
    ReleasedPieces(p.status, ready, skipped);
    hide With, Sites, Released;
    assert {} + ready == ready;
  }

  // ---- One reply

  lemma RejectedInv(c: Co)
    requires PiecesOk(c.p) && With(c.p.status, Ready) == {} && c.v == NO_VOTES && c.o == NO_OUTCOME
    requires c.phase == Starting
    requires !c.commit && c.rejected && c.p.proxies != {}
    ensures Inv(WindDown(c))
  {
    hide With, Sites;
  }

  lemma GoesOnInv(c: Co, ready: set<nat>, skipped: set<nat>)
    requires PiecesOk(c.p) && With(c.p.status, Ready) == {} && c.v == NO_VOTES && c.o == NO_OUTCOME
    requires c.phase == Starting
    requires c.commit && !c.rejected && c.p.proxies != {} && Releasable(c.p.status, ready, skipped)
    ensures Inv(GoOn(c, ready, skipped))
  {
    hide With, PiecesOk, Releasable, Started;
    DroppedOk(c.p, ready, skipped);
    var p := Dropped(c.p, ready, skipped);
    Through(p);
    if ready != {} {
      StartedOk(p);
    }
  }

  lemma StartReplyInv(c: Co, pi: nat, reject: bool, ready: set<nat>, skipped: set<nat>)
    requires Inv(c) && Enabled(c, StartReply(pi, reject, ready, skipped))
    ensures Inv(After(c, StartReply(pi, reject, ready, skipped)))
  {
    StartPhase(c, pi);
    hide With, PiecesOk, WindDown, GoOn, Releasable;
    CountedOk(c.p, pi);
    var d := c.(p := Counted(c.p, pi), commit := c.commit && !reject, rejected := c.rejected || reject);
    if d.commit {
      GoesOnInv(d, ready, skipped);
    } else {
      RejectedInv(d);
    }
  }

  lemma StartPhase(c: Co, pi: nat)
    requires Inv(c) && pi in c.p.starts
    ensures c.phase == Starting
  {
    Through(c.p);
  }

  lemma PrepareReplyInv(c: Co, s: nat, ok: bool)
    requires Inv(c) && Enabled(c, PrepareReply(s, ok))
    ensures Inv(After(c, PrepareReply(s, ok)))
  {
    hide With, PiecesOk;
    Through(c.p);
    assert c.phase == Preparing;
    assert |c.v.prepares - {s}| == |c.v.prepares| - 1;
    assert c.p.proxies - (c.v.prepares - {s}) == c.p.proxies - c.v.prepares + {s};
    if c.v.nPrepared + 1 == |c.p.proxies| {
      assert c.v.prepares - {s} == {};
    }
  }

  lemma FinishReplyInv(c: Co, s: nat)
    requires Inv(c) && Enabled(c, FinishReply(s))
    ensures Inv(After(c, FinishReply(s)))
  {
    hide With, PiecesOk;
    assert c.phase == Finishing;
    assert |c.o.finishes - {s}| == |c.o.finishes| - 1;
  }

  lemma StepInv(c: Co, step: Step)
    requires Inv(c) && Enabled(c, step)
    ensures Inv(After(c, step))
  {
    hide Inv, After;
    match step
    case StartReply(pi, reject, ready, skipped) => StartReplyInv(c, pi, reject, ready, skipped);
    case PrepareReply(s, ok) => PrepareReplyInv(c, s, ok);
    case FinishReply(s) => FinishReplyInv(c, s);
  }

  // ---- Whole attempts

  /** The attempt after `start` and a sequence of replies, each of which must be outstanding where it arrives. */
  ghost function Run(c: Co, steps: seq<Step>): Option<Co> {
    if steps == [] then Some(c.(p := Started(c.p)))
    else
      match Run(c, steps[..|steps| - 1])
      case None => None
      case Some(d) => if Enabled(d, steps[|steps| - 1]) then Some(After(d, steps[|steps| - 1])) else None
  }

  /** A transaction as its chopper sets it up: every piece has a site and none is on its way. */
  predicate Chopped(shard: seq<nat>, status: seq<Piece>) {
    |shard| == |status| && With(status, Ongoing) == {}
  }

  lemma FreshInv(shard: seq<nat>, status: seq<Piece>)
    requires Chopped(shard, status)
    ensures var c := Fresh(shard, status); Inv(c.(p := Started(c.p)))
  {
    var p := Fresh(shard, status).p;
    assert Sites(shard, {}) == {};
    StartedOk(p);
    Through(Started(p));
    if With(status, Ready) == {} {
      SentPieces(status);
      assert Sites(shard, {}) == {};
      assert Started(p).proxies == {};
    }
  }

  lemma {:induction false} RunInv(shard: seq<nat>, status: seq<Piece>, steps: seq<Step>, d: Co)
    requires Chopped(shard, status) && Run(Fresh(shard, status), steps) == Some(d)
    ensures Inv(d)
  {
    hide Inv, After, Enabled, Started, Fresh, Chopped;
    if steps == [] {
      FreshInv(shard, status);
    } else {
      var before := Run(Fresh(shard, status), steps[..|steps| - 1]).value;
      RunInv(shard, status, steps[..|steps| - 1], before);
      StepInv(before, steps[|steps| - 1]);
    }
  }

  /**
   * However the replies interleave: `finish` runs at most once; commit goes out only if no piece was rejected and every
   * site involved accepted; no site is sent both commit and abort, and all sites are sent the same.
   */
  lemma OneOutcome(shard: seq<nat>, status: seq<Piece>, steps: seq<Step>, d: Co)
    requires Chopped(shard, status) && Run(Fresh(shard, status), steps) == Some(d)
    ensures d.o.nFinishRuns <= 1 && (d.o.nFinishRuns == 0 ==> d.o.sentCommit == d.o.sentAbort == {})
    ensures d.o.sentCommit != {} ==> !d.rejected && d.v.accepted == d.p.proxies == d.o.sentCommit
    ensures d.o.sentAbort != {} ==> d.o.sentAbort == d.p.proxies
    ensures d.o.sentCommit == {} || d.o.sentAbort == {}
  {
    RunInv(shard, status, steps, d);
  }

  predicate Quiet(c: Co) {
    c.p.starts == c.v.prepares == c.o.finishes == {}
  }

  // ---- The outcome from what the attempt began with and the replies it got

  /** Some piece was rejected. */
  predicate SomeRejected(steps: seq<Step>) {
    exists i :: 0 <= i < |steps| && steps[i].StartReply? && steps[i].reject
  }

  /** The pieces that the replies released or dropped. */
  function Freed(steps: seq<Step>): set<nat> {
    if steps == [] then {}
    else
      var last := steps[|steps| - 1];
      Freed(steps[..|steps| - 1]) + (if last.StartReply? then last.ready + last.skipped else {})
  }

  /**
   * Something can be sent at all, and unless a piece is rejected every waiting piece is released or dropped in time.
   */
  predicate Finishable(status: seq<Piece>, steps: seq<Step>) {
    With(status, Ready) != {} && (SomeRejected(steps) || With(status, Waiting) <= Freed(steps))
  }

  lemma ReleasedWaiting(status: seq<Piece>, ready: set<nat>, skipped: set<nat>)
    ensures With(Released(status, ready, skipped), Waiting) == With(status, Waiting) - ready - skipped
    ensures With(Sent(status), Waiting) == With(status, Waiting)
  {
  }

  /** One reply: rejections are remembered, and while there is none the waiting pieces are those not freed. */
  lemma StepTrack(c: Co, step: Step)
    requires Inv(c) && Enabled(c, step)
    ensures After(c, step).rejected == (c.rejected || (step.StartReply? && step.reject))
    ensures !After(c, step).rejected ==>
      With(After(c, step).p.status, Waiting)
      == With(c.p.status, Waiting) - (if step.StartReply? then step.ready + step.skipped else {})
    ensures c.p.proxies <= After(c, step).p.proxies
  {
    hide With, Sites, Released, Sent, PiecesOk;
    if step.StartReply? {
      assert c.phase == Starting by { StartPhase(c, step.pi); }
      ReleasedWaiting(c.p.status, step.ready, step.skipped);
      ReleasedWaiting(Released(c.p.status, step.ready, step.skipped), {}, {});
    }
  }

  lemma {:induction false} RunTrack(shard: seq<nat>, status: seq<Piece>, steps: seq<Step>, d: Co)
    requires Chopped(shard, status) && Run(Fresh(shard, status), steps) == Some(d)
    ensures d.rejected == SomeRejected(steps)
    ensures !d.rejected ==> With(d.p.status, Waiting) == With(status, Waiting) - Freed(steps)
    ensures With(status, Ready) != {} ==> d.p.proxies != {}
  {
    hide Inv, After, Enabled, With, Chopped, Released, Sent;
    if steps == [] {
      ReleasedWaiting(status, {}, {});
      FirstSent(shard, status);
    } else {
      var n := |steps| - 1;
      var before := Run(Fresh(shard, status), steps[..n]).value;
      RunInv(shard, status, steps[..n], before);
      RunTrack(shard, status, steps[..n], before);
      StepTrack(before, steps[n]);
      RejectedLast(steps);
    }
  }

  lemma RejectedLast(steps: seq<Step>)
    requires steps != []
    ensures var n := |steps| - 1;
      SomeRejected(steps) <==> SomeRejected(steps[..n]) || (steps[n].StartReply? && steps[n].reject)
  {
    var n := |steps| - 1;
    if SomeRejected(steps) && !(steps[n].StartReply? && steps[n].reject) {
      var i :| 0 <= i < |steps| && steps[i].StartReply? && steps[i].reject;
      assert steps[..n][i] == steps[i];
    }
    if SomeRejected(steps[..n]) {
      var i :| 0 <= i < n && steps[..n][i].StartReply? && steps[..n][i].reject;
      assert steps[i] == steps[..n][i];
    }
  }

  lemma FirstSent(shard: seq<nat>, status: seq<Piece>)
    requires Chopped(shard, status)
    ensures With(status, Ready) != {} ==> Started(Fresh(shard, status).p).proxies != {}
  {
    if i :| i in With(status, Ready) {
      assert shard[i] in Sites(shard, With(status, Ready));
      assert Sites(shard, {}) == {};
      Through(Fresh(shard, status).p);
    }
  }

  /** With nothing ready nothing is sent, so no reply ever comes. */
  lemma {:induction false} NothingSent(shard: seq<nat>, status: seq<Piece>, steps: seq<Step>, d: Co)
    requires Chopped(shard, status) && With(status, Ready) == {} && Run(Fresh(shard, status), steps) == Some(d)
    ensures steps == [] && d.p.proxies == {} && d.o.nFinishRuns == 0 && Quiet(d)
  {
    if steps == [] {
      assert Sites(shard, {}) == {};
    } else {
      NothingSent(shard, status, steps[..|steps| - 1], Run(Fresh(shard, status), steps[..|steps| - 1]).value);
    }
  }

  /**
   * When no reply is outstanding, `finish` has run exactly once, and everyone has answered it, if and only if a piece
   * was ready at the outset and either a piece was rejected or the replies released or dropped every piece that waited.
   */
  lemma FinishesExactlyOnce(shard: seq<nat>, status: seq<Piece>, steps: seq<Step>, d: Co)
    requires Chopped(shard, status) && Run(Fresh(shard, status), steps) == Some(d) && Quiet(d)
    ensures d.o.nFinishRuns == 1 && d.o.nFinished == |d.p.proxies| && d.o.sentCommit + d.o.sentAbort == d.p.proxies <==>
            Finishable(status, steps)
  {
    hide With, Fresh, Chopped, Run, SomeRejected, Freed;
    RunInv(shard, status, steps, d);
    Through(d.p);
    RunTrack(shard, status, steps, d);
    if With(status, Ready) == {} {
      NothingSent(shard, status, steps, d);
    }
    NoneLeft(With(status, Waiting), Freed(steps));
  }

  lemma NoneLeft(a: set<nat>, b: set<nat>)
    ensures a - b == {} <==> a <= b
  {
    if a - b == {} {
      forall x | x in a
        ensures x in b
      {
        assert x !in a - b;
      }
    }
  }

  // ---- Which outcome, from the replies alone

  /** A reply that does not speak against the commit. */
  predicate Granted(step: Step) {
    (step.StartReply? ==> !step.reject) && (step.PrepareReply? ==> step.ok)
  }

  predicate AllGranted(steps: seq<Step>) {
    forall i :: 0 <= i < |steps| ==> Granted(steps[i])
  }

  /** Piece `pi` has answered its start request. */
  predicate Answered(steps: seq<Step>, pi: nat) {
    exists i :: 0 <= i < |steps| && steps[i].StartReply? && steps[i].pi == pi
  }

  lemma OneReplyMore(steps: seq<Step>, pi: nat)
    requires steps != []
    ensures var n := |steps| - 1;
      && (AllGranted(steps) <==> AllGranted(steps[..n]) && Granted(steps[n]))
      && (Answered(steps, pi) <==> Answered(steps[..n], pi) || (steps[n].StartReply? && steps[n].pi == pi))
  {
    var n := |steps| - 1;
    assert forall i :: 0 <= i < n ==> steps[..n][i] == steps[i];
    if Answered(steps, pi) && !(steps[n].StartReply? && steps[n].pi == pi) {
      var i :| 0 <= i < |steps| && steps[i].StartReply? && steps[i].pi == pi;
      assert steps[..n][i] == steps[i];
    }
  }

  lemma StepOutcome(c: Co, step: Step)
    ensures After(c, step).commit <==> c.commit && Granted(step)
    ensures After(c, step).p.replied == c.p.replied + if step.StartReply? then {step.pi} else {}
    ensures After(c, step).p.shard == c.p.shard
  {
  }

  lemma {:induction false} RunOutcome(shard: seq<nat>, status: seq<Piece>, steps: seq<Step>, d: Co)
    requires Run(Fresh(shard, status), steps) == Some(d)
    ensures d.commit <==> AllGranted(steps)
    ensures d.p.shard == shard && forall pi :: pi in d.p.replied <==> Answered(steps, pi)
  {
    hide After, Enabled, AllGranted, Answered;
    if steps == [] {
      NoReply();
    } else {
      var n := |steps| - 1;
      var before := Run(Fresh(shard, status), steps[..n]).value;
      RunOutcome(shard, status, steps[..n], before);
      StepOutcome(before, steps[n]);
      forall pi
        ensures pi in d.p.replied <==> Answered(steps, pi)
      {
        OneReplyMore(steps, pi);
      }
      OneReplyMore(steps, 0);
    }
  }

  lemma NoReply()
    ensures AllGranted([]) && forall pi :: !Answered([], pi)
  {
  }

  /**
   * Once `finish` has run, its message has gone to exactly the sites of the pieces that answered, and it is commit if
   * and only if no start reply rejected and every prepare reply accepted; otherwise it is abort.
   */
  lemma OutcomeExact(shard: seq<nat>, status: seq<Piece>, steps: seq<Step>, d: Co)
    requires Chopped(shard, status) && Run(Fresh(shard, status), steps) == Some(d) && d.o.nFinishRuns > 0
    ensures d.o.sentCommit == (if AllGranted(steps) then d.p.proxies else {})
    ensures d.o.sentAbort == (if AllGranted(steps) then {} else d.p.proxies)
    ensures forall s :: s in d.p.proxies <==> exists pi: nat :: pi < |shard| && Answered(steps, pi) && shard[pi] == s
  {
    hide With, Fresh, Run, AllGranted, Answered;
    RunInv(shard, status, steps, d);
    RunOutcome(shard, status, steps, d);
    assert d.p.replied == With(d.p.status, Ongoing);
  }

  /** The smallest attempt that commits: one piece, one site, both replies in favour. */
  lemma OneSiteCommits()
    ensures exists d ::
      && Run(Fresh([0], [Ready]), [StartReply(0, false, {}, {}), PrepareReply(0, true)]) == Some(d)
      && d.o.sentCommit == {0} && d.o.sentAbort == {}
  {
    var c := Fresh([0], [Ready]);
    var start, vote := StartReply(0, false, {}, {}), PrepareReply(0, true);
    assert With([Ready], Ready) == {0} && With([Ready], Skipped) == {} && With([Ready], Ongoing) == {};
    assert Sites([0], {0}) == {0};
    var c1 := c.(p := Started(c.p));
    assert [start][..0] == [] && [start, vote][..1] == [start];
    assert Run(c, []) == Some(c1) && c1.p.starts == {0} && c1.p.proxies == {0};
    var c2 := After(c1, start);
    assert With(c1.p.status, Waiting) == {};
    assert Run(c, [start]) == Some(c2) && c2.v.prepares == {0};
    var d := After(c2, vote);
    assert Run(c, [start, vote]) == Some(d);
  }

  /** An attempt whose only piece waits: nothing is sent and it never finishes. */
  lemma NothingReady()
    ensures exists d :: Run(Fresh([0], [Waiting]), []) == Some(d) && Quiet(d) && d.o.nFinishRuns == 0
  {
    assert With([Waiting], Ready) == {} && With([Waiting], Ongoing) == {};
    var c := Fresh([0], [Waiting]);
    var d := c.(p := Started(c.p));
    assert Run(c, []) == Some(d);
    NothingSent([0], [Waiting], [], d);
  }

  /** An attempt whose second piece is never released: every reply is in and it has not finished. */
  lemma NeverReleased()
    ensures exists d ::
      && Run(Fresh([0, 0], [Ready, Waiting]), [StartReply(0, false, {}, {})]) == Some(d)
      && Quiet(d) && d.o.nFinishRuns == 0
  {
    var c := Fresh([0, 0], [Ready, Waiting]);
    assert With([Ready, Waiting], Ready) == {0} && With([Ready, Waiting], Skipped) == {};
    var c1 := c.(p := Started(c.p));
    var step := StartReply(0, false, {}, {});
    assert [step][..0] == [];
    assert Run(c, []) == Some(c1) && Enabled(c1, step);
    var d := After(c1, step);
    assert Run(c, [step]) == Some(d);
  }
}
