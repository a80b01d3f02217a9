/** The coordinator as it works: the scan for a ready piece, the sending loops, and the callbacks. */
module Coordinator {
  import opened CoordSpec

  class Attempt {
    const shard: seq<nat>
    var status: seq<Piece>
    var nStarted: nat
    var nStartSent: nat
    var nPrepared: nat
    var nFinished: nat
    var commit: bool
    var proxies: set<nat>
    // requests without a reply, and the history of the attempt
    ghost var starts: set<nat>
    ghost var replied: set<nat>
    ghost var prepares: set<nat>
    ghost var accepted: set<nat>
    ghost var finishes: set<nat>
    ghost var nFinishRuns: nat
    ghost var sentCommit: set<nat>
    ghost var sentAbort: set<nat>
    ghost var rejected: bool
    ghost var phase: Phase

    ghost function PiecesNow(): Pieces
      reads this
    {
      Pieces(shard, status, nStarted, nStartSent, proxies, starts, replied)
    }

    ghost function VotesNow(): Votes
      reads this
    {
      Votes(nPrepared, prepares, accepted)
    }

    ghost function OutcomeNow(): Outcome
      reads this
    {
      Outcome(nFinishRuns, nFinished, finishes, sentCommit, sentAbort)
    }

    ghost function State(): Co
      reads this
    {
      Co(PiecesNow(), VotesNow(), OutcomeNow(), commit, rejected, phase)
    }

    constructor (shard: seq<nat>, status: seq<Piece>, skipped: nat)
      requires Chopped(shard, status) && skipped == |With(status, Skipped)|
      ensures State() == Fresh(shard, status)
    {
      this.shard, this.status := shard, status;
      nStarted, nStartSent, nPrepared, nFinished := skipped, 0, 0, 0;
      commit, proxies := true, {};
      starts, replied, prepares, accepted, finishes, sentCommit, sentAbort := {}, {}, {}, {}, {}, {}, {};
      phase, rejected, nFinishRuns := Starting, false, 0;
    }

    /** `next_piece`: the first ready piece is marked as sent and its site noted. */
    method NextPiece() returns (found: bool, pi: nat)
      requires |shard| == |status|
      modifies this`status, this`proxies
      ensures found <==> nStarted != |status| && With(old(status), Ready) != {}
      ensures found ==> pi < |shard| && old(status)[pi] == Ready && status == old(status)[pi := Ongoing]
      ensures found ==> proxies == old(proxies) + {shard[pi]} && forall j :: 0 <= j < pi ==> old(status)[j] != Ready
      ensures !found ==> status == old(status) && proxies == old(proxies)
    {
      found, pi := false, 0;
      if nStarted == |status| {
        return;
      }
      var i := 0;
      while i < |status|
        invariant 0 <= i <= |status| && status == old(status) && proxies == old(proxies)
        invariant forall j :: 0 <= j < i ==> status[j] != Ready
      {
        if status[i] == Ready {
          proxies := proxies + {shard[i]};
          status := status[i := Ongoing];
          assert i in With(old(status), Ready);
          return true, i;
        }
        i := i + 1;
      }
    }

    /** `start`: pieces are sent as long as one is ready. */
    method Start()
      requires |shard| == |status|
      modifies this`status, this`proxies, this`nStartSent, this`starts
      ensures PiecesNow() == Started(old(PiecesNow()))
    {
      hide With, Started, SentSome;
      ghost var sent: set<nat> := {};
      NoneMarked(PiecesNow());
      var found := true;
      while found
        invariant |status| == |shard| && SentSome(old(PiecesNow()), sent, PiecesNow())
        invariant nStarted == |status| ==> sent == {}
        invariant !found ==> nStarted == |status| || sent == With(old(status), Ready)
        decreases |With(status, Ready)|, found
      {
        ghost var was := PiecesNow();
        var pi;
        found, pi := NextPiece();
        if found {
          nStartSent := nStartSent + 1;
          starts := starts + {pi};
          MarkOne(old(PiecesNow()), sent, was, pi);
          sent := sent + {pi};
        } else if nStarted != |status| {
          AllMarked(old(PiecesNow()), sent, PiecesNow());
        }
      }
      AllSent(old(PiecesNow()), sent, PiecesNow());
    }

    /** `finish`: commit or abort to every site involved. */
    method Finish()
      modifies this`phase, this`nFinishRuns, this`finishes, this`sentCommit, this`sentAbort
      ensures phase == Finishing && OutcomeNow() == Broadcast(old(OutcomeNow()), commit, proxies)
    {
      phase, nFinishRuns, finishes := Finishing, nFinishRuns + 1, {};
      var todo := proxies;
      while todo != {}
        invariant todo <= proxies && finishes == proxies - todo && phase == Finishing
        invariant nFinishRuns == old(nFinishRuns) + 1
        invariant sentCommit == if commit then old(sentCommit) + (proxies - todo) else old(sentCommit)
        invariant sentAbort == if commit then old(sentAbort) else old(sentAbort) + (proxies - todo)
      {
        var rp :| rp in todo;
        todo, finishes := todo - {rp}, finishes + {rp};
        if commit {
          sentCommit := sentCommit + {rp};
        } else {
          sentAbort := sentAbort + {rp};
        }
      }
      assert proxies - todo == proxies;
    }

    /** `prepare`: a request to every site involved. */
    method Prepare()
      modifies this`phase, this`prepares
      ensures phase == Preparing && prepares == proxies
    {
      phase, prepares := Preparing, {};
      var todo := proxies;
      while todo != {}
        invariant todo <= proxies && prepares == proxies - todo && phase == Preparing
      {
        var rp :| rp in todo;
        todo, prepares := todo - {rp}, prepares + {rp};
      }
      assert proxies - todo == proxies;
    }

    /**
     * The branch of the start callback that goes on: the transaction's own callback, then more pieces or the prepares.
     */
    method Proceed(ready: set<nat>, skipped: set<nat>)
      requires |shard| == |status|
      modifies this
      ensures State() == GoOn(old(State()), ready, skipped)
    {
      hide Released, Started;
      status := Released(status, ready, skipped);
      nStarted := nStarted + |skipped|;
      if ready != {} {
        Start();
      } else if nStarted == |status| {
        Prepare();
      }
    }

    method CountReply(pi: nat, reject: bool)
      requires nStartSent > 0
      modifies this`nStarted, this`nStartSent, this`starts, this`replied, this`commit, this`rejected
      ensures PiecesNow() == Counted(old(PiecesNow()), pi)
      ensures commit == (old(commit) && !reject) && rejected == (old(rejected) || reject)
    {
      nStarted := nStarted + 1;
      nStartSent := nStartSent - 1;
      starts, replied := starts - {pi}, replied + {pi};
      if reject {
        commit, rejected := false, true;
      }
    }

    /**
     * The reply callback of `start`; `ready` and `skipped` are what the transaction's own callback releases and drops.
     */
    method OnStartReply(pi: nat, reject: bool, ready: set<nat>, skipped: set<nat>)
      requires Inv(State()) && Enabled(State(), StartReply(pi, reject, ready, skipped))
      modifies this
      ensures Inv(State()) && State() == After(old(State()), StartReply(pi, reject, ready, skipped))
    {
      hide Inv, GoOn, Broadcast, Releasable, Counted, Enabled;
      OneOut(State(), pi, reject, ready, skipped);
      StartReplyInv(State(), pi, reject, ready, skipped);
      CountReply(pi, reject);
      if !commit {
        if nStartSent == 0 {
          Finish();
        }
      } else {
        Proceed(ready, skipped);
      }
    }

    method OnPrepareReply(s: nat, ok: bool)
      requires Inv(State()) && Enabled(State(), PrepareReply(s, ok))
      modifies this
      ensures Inv(State()) && State() == After(old(State()), PrepareReply(s, ok))
    {
      hide Inv, Broadcast;
      PrepareReplyInv(State(), s, ok);
      nPrepared := nPrepared + 1;
      prepares := prepares - {s};
      if ok {
        accepted := accepted + {s};
      } else {
        commit := false;
      }
      if nPrepared == |proxies| {
        Finish();
      }
    }

    /** The reply callback of `finish`; `done` tells that this was the last site. */
    method OnFinishReply(s: nat) returns (done: bool)
      requires Inv(State()) && Enabled(State(), FinishReply(s))
      modifies this
      ensures Inv(State()) && State() == After(old(State()), FinishReply(s))
      ensures done <==> finishes == {}
    {
      hide Inv;
      FinishReplyInv(State(), s);
      LastReply(State(), s);
      nFinished := nFinished + 1;
      finishes := finishes - {s};
      done := nFinished == |proxies|;
    }
  }

  /** The pieces `sent` were ready, have been marked and are on their way; the others are as before. */
  ghost predicate SentSome(p: Pieces, sent: set<nat>, q: Pieces) {
    && sent <= With(p.status, Ready) && |q.status| == |p.status|
    && (forall i :: 0 <= i < |p.status| ==> q.status[i] == if i in sent then Ongoing else p.status[i])
    && q == p.(status := q.status, proxies := p.proxies + Sites(p.shard, sent), starts := p.starts + sent,
      nStartSent := p.nStartSent + |sent|)
  }

  lemma NoneMarked(p: Pieces)
    ensures SentSome(p, {}, p)
  {
    assert Sites(p.shard, {}) == {};
  }

  lemma MarkOne(p: Pieces, sent: set<nat>, q: Pieces, pi: nat)
    requires SentSome(p, sent, q) && pi < |q.status| == |q.shard| && q.status[pi] == Ready
    ensures SentSome(p, sent + {pi}, q.(status := q.status[pi := Ongoing], proxies := q.proxies + {q.shard[pi]},
                                         starts := q.starts + {pi}, nStartSent := q.nStartSent + 1))
    ensures With(q.status[pi := Ongoing], Ready) == With(q.status, Ready) - {pi} && pi in With(q.status, Ready)
  {
    MarkStatus(q.status, pi);
    assert pi !in sent;
    assert pi in With(p.status, Ready);
    SitesOfBoth(p.shard, sent, {pi});
    assert Sites(p.shard, {pi}) == {p.shard[pi]};
    hide With, Sites;
    assert |sent + {pi}| == |sent| + 1;
  }

  lemma MarkStatus(status: seq<Piece>, pi: nat)
    requires pi < |status| && status[pi] == Ready
    ensures With(status[pi := Ongoing], Ready) == With(status, Ready) - {pi} && pi in With(status, Ready)
  {
  }

  lemma AllMarked(p: Pieces, sent: set<nat>, q: Pieces)
    requires SentSome(p, sent, q) && With(q.status, Ready) == {}
    ensures sent == With(p.status, Ready)
  {
    forall i | i in With(p.status, Ready)
      ensures i in sent
    {
      assert i !in With(q.status, Ready);
    }
  }

  lemma AllSent(p: Pieces, sent: set<nat>, q: Pieces)
    requires SentSome(p, sent, q) && if p.nStarted == |p.status| then sent == {} else sent == With(p.status, Ready)
    ensures q == Started(p)
  {
    if p.nStarted == |p.status| {
      assert q.status == p.status;
      assert Sites(p.shard, {}) == {};
    } else {
      assert q.status == Sent(p.status);
    }
  }

  lemma OneOut(c: Co, pi: nat, reject: bool, ready: set<nat>, skipped: set<nat>)
    requires Inv(c) && Enabled(c, StartReply(pi, reject, ready, skipped))
    ensures c.p.nStartSent > 0 && |c.p.shard| == |c.p.status|
  {
  }

  lemma LastReply(c: Co, s: nat)
    requires Inv(c) && s in c.o.finishes
    ensures c.o.nFinished + 1 == |c.p.proxies| <==> c.o.finishes - {s} == {}
  {
    assert |c.o.finishes - {s}| == |c.o.finishes| - 1;
  }
}
