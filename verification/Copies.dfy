/** What each copy that leaves the client says of itself: path, numbers and time, up to the bytes on the wire. */
module Copies {
  import opened Collections
  import opened Bytes
  import opened Packet
  import opened FecEngine
  import opened Client
  import HB = HeaderBytes

  // ---------- the attempts that send ----------

  /** An attempt that sends a copy of the output with this global number. */
  datatype Going = Going(q: nat, attempt: Attempt)

  function GoingOf(q: nat, attempts: seq<Attempt>): (r: seq<Going>)
    ensures forall g :: g in r ==> g.q == q && g.attempt.sentOn.Some?
  {
    if attempts == [] then [] else
      var n := |attempts| - 1;
      GoingOf(q, attempts[..n]) + if attempts[n].sentOn.Some? then [Going(q, attempts[n])] else []
  }

  function GoingOfOuts(q: nat, outs: seq<FecOut>, plan: seq<seq<Attempt>>): seq<Going> {
    if outs == [] then [] else
      var n := |outs| - 1;
      GoingOfOuts(q, outs[..n], plan) + GoingOf(q + n, if n < |plan| then plan[n] else [])
  }

  /** All attempts of a run that send a copy, in order: output by output, attempt by attempt. */
  function GoingOfRun(cfg: Config, mode: Mode, es: seq<Event>): seq<Going> {
    if es == [] then [] else
      var n := |es| - 1;
      var s := Run(cfg, mode, es[..n]);
      GoingOfRun(cfg, mode, es[..n])
      + match es[n]
        case SetMode(_) => []
        case Send(payload, tier, plan) => GoingOfOuts(|s.log|, EncodeStep(cfg, s.enc, payload, tier).1, plan)
  }

  // ---------- the numbers of a path ----------

  /** One more than the number of the last copy that went out on the path, or zero. */
  function NextOn(going: seq<Going>, sent: seq<Packet>, path: nat): nat
    requires |going| == |sent|
  {
    if going == [] then 0 else
      var n := |going| - 1;
      if going[n].attempt.sentOn == Some(path) then sent[n].pathSeq + 1 else NextOn(going[..n], sent[..n], path)
  }

  /** The copy is marked as the attempt says. */
  predicate Marked(p: Packet, g: Going) {
    && p.version == 1 && p.flags <= 1 && p.globalSeq == g.q
    && p.pathId == g.attempt.pathId && p.timestamp == g.attempt.timestamp
  }

  /** One copy for each attempt, marked as it says, each numbered after the last one on its path. */
  ghost predicate Accounted(going: seq<Going>, sent: seq<Packet>, pathSeqs: map<nat, nat>) {
    && |going| == |sent|
    && (forall j :: 0 <= j < |sent| ==>
          Marked(sent[j], going[j])
          && sent[j].pathSeq == NextOn(going[..j], sent[..j], going[j].attempt.pathId))
    && (forall path: nat :: PathSeq(pathSeqs, path) == NextOn(going, sent, path))
  }

  lemma MadeAsMarked(o: FecOut, a: Attempt, pathSeq: nat, q: nat)
    ensures var p := MakePacket(o, a.pathId, pathSeq, q, a.timestamp);
            Marked(p, Going(q, a)) && p.pathSeq == pathSeq && p.flags == if o.meta.isParity then 1 else 0
  {
  }

  lemma OneMoreCopy(going: seq<Going>, sent: seq<Packet>, pathSeqs: map<nat, nat>, g: Going, p: Packet)
    requires Accounted(going, sent, pathSeqs) && Marked(p, g) && g.attempt.sentOn.Some?
    requires p.pathSeq == PathSeq(pathSeqs, g.attempt.pathId)
    ensures Accounted(going + [g], sent + [p], pathSeqs[g.attempt.sentOn.value := p.pathSeq + 1])
  {
    hide Marked;
    var gs, ps := going + [g], sent + [p];
    var n := |going|;
    assert gs[..n] == going && ps[..n] == sent;
    forall j | 0 <= j < |ps|
      ensures Marked(ps[j], gs[j]) && ps[j].pathSeq == NextOn(gs[..j], ps[..j], gs[j].attempt.pathId)
    {
      if j < n { assert gs[..j] == going[..j] && ps[..j] == sent[..j]; }
    }
    var seqs := pathSeqs[g.attempt.sentOn.value := p.pathSeq + 1];
    forall path: nat ensures PathSeq(seqs, path) == NextOn(gs, ps, path) {
      assert PathSeq(pathSeqs, path) == NextOn(going, sent, path);
    }
  }

  lemma {:induction false} CopiesAccounted(o: FecOut, q: nat, attempts: seq<Attempt>, going: seq<Going>,
                                           sent: seq<Packet>, pathSeqs: map<nat, nat>)
    requires Accounted(going, sent, pathSeqs)
    ensures var (seqs, more) := SendCopies(o, q, attempts, pathSeqs);
            Accounted(going + GoingOf(q, attempts), sent + more, seqs)
  {
    hide Accounted, MakePacket;
    if attempts == [] {
      assert going + [] == going && sent + [] == sent;
    } else {
      var n := |attempts| - 1;
      CopiesAccounted(o, q, attempts[..n], going, sent, pathSeqs);
      var (seqs, more) := SendCopies(o, q, attempts[..n], pathSeqs);
      var a, before := attempts[n], GoingOf(q, attempts[..n]);
      if a.sentOn.Some? {
        var pathSeq := PathSeq(seqs, a.pathId);
        var p := MakePacket(o, a.pathId, pathSeq, q, a.timestamp);
        MadeAsMarked(o, a, pathSeq, q);
        OneMoreCopy(going + before, sent + more, seqs, Going(q, a), p);
        assert going + before + [Going(q, a)] == going + (before + [Going(q, a)]);
        assert sent + more + [p] == sent + (more + [p]);
      } else {
        assert before + [] == before;
      }
    }
  }

  lemma {:induction false} OutsAccounted(s: State, outs: seq<FecOut>, plan: seq<seq<Attempt>>, going: seq<Going>)
    requires Accounted(going, s.sent, s.pathSeqs)
    ensures var t := SendOuts(s, outs, plan);
            && Accounted(going + GoingOfOuts(s.globalSeq, outs, plan), t.sent, t.pathSeqs)
            && t.globalSeq == s.globalSeq + |outs|
  {
    hide Accounted, SendCopies;
    if outs == [] {
      assert going + [] == going;
    } else {
      var n := |outs| - 1;
      OutsAccounted(s, outs[..n], plan, going);
      var t := SendOuts(s, outs[..n], plan);
      var before, more := GoingOfOuts(s.globalSeq, outs[..n], plan), GoingOf(s.globalSeq + n, AttemptsFor(plan, n));
      CopiesAccounted(outs[n], t.globalSeq, AttemptsFor(plan, n), going + before, t.sent, t.pathSeqs);
      assert going + before + more == going + (before + more);
    }
  }

  /** Over every run of the client. */
  lemma {:induction false} RunAccounted(cfg: Config, mode: Mode, es: seq<Event>)
    ensures var s := Run(cfg, mode, es); Accounted(GoingOfRun(cfg, mode, es), s.sent, s.pathSeqs)
  {
    hide Accounted, EncodeStep, Numbered, GoingOfOuts;
    if es == [] {
      NothingSent();
    } else {
      var n := |es| - 1;
      RunAccounted(cfg, mode, es[..n]);
      RunNumbered(cfg, mode, es[..n]);
      var s := Run(cfg, mode, es[..n]);
      var going := GoingOfRun(cfg, mode, es[..n]);
      NumberIsLength(s);
      match es[n]
      case SetMode(_) => assert going + [] == going;
      case Send(payload, tier, plan) =>
        var (e, outs) := EncodeStep(cfg, s.enc, payload, tier);
        OutsAccounted(s.(enc := e, inputs := s.inputs + [payload]), outs, plan, going);
    }
  }

  lemma NothingSent()
    ensures Accounted([], [], map[])
  {
  }

  lemma NumberIsLength(s: State)
    requires Numbered(s)
    ensures s.globalSeq == |s.log|
  {
  }

  // ---------- without alternate paths ----------

  /** Every copy goes out on the path it was built for. */
  ghost predicate NoAlternates(going: seq<Going>) {
    forall g :: g in going ==> g.attempt.sentOn == Some(g.attempt.pathId)
  }

  /** How many of these packets are marked with the path. */
  function CountOn(sent: seq<Packet>, path: nat): nat {
    if sent == [] then 0 else
      var n := |sent| - 1;
      CountOn(sent[..n], path) + if sent[n].pathId == path then 1 else 0
  }

  lemma {:induction false} NextIsCount(going: seq<Going>, sent: seq<Packet>, pathSeqs: map<nat, nat>, n: nat, path: nat)
    requires Accounted(going, sent, pathSeqs) && NoAlternates(going) && n <= |sent|
    ensures NextOn(going[..n], sent[..n], path) == CountOn(sent[..n], path)
  {
    if n != 0 {
      NextIsCount(going, sent, pathSeqs, n - 1, path);
      var g, p := going[n - 1], sent[n - 1];
      assert g in going;
      assert going[..n][..n - 1] == going[..n - 1] && sent[..n][..n - 1] == sent[..n - 1];
      assert Marked(p, g);
    }
  }

  /** Then the number of a copy is how many copies went out on its path before, over the whole run. */
  lemma NumbersCount(cfg: Config, mode: Mode, es: seq<Event>, j: nat)
    requires j < |Run(cfg, mode, es).sent| && NoAlternates(GoingOfRun(cfg, mode, es))
    ensures var sent := Run(cfg, mode, es).sent; sent[j].pathSeq == CountOn(sent[..j], sent[j].pathId)
  {
    hide Run, GoingOfRun, CountOn;
    var s, going := Run(cfg, mode, es), GoingOfRun(cfg, mode, es);
    RunAccounted(cfg, mode, es);
    assert Marked(s.sent[j], going[j]);
    NextIsCount(going, s.sent, s.pathSeqs, j, s.sent[j].pathId);
  }

  // ---------- on the wire ----------

  /** The bytes of the j-th datagram of a run, place by place. */
  lemma OnTheWire(cfg: Config, mode: Mode, es: seq<Event>, j: nat)
    requires j < |Run(cfg, mode, es).sent| && Run(cfg, mode, es).sent[j].InRange()
    ensures |GoingOfRun(cfg, mode, es)| == |Run(cfg, mode, es).sent|
    ensures var s, going := Run(cfg, mode, es), GoingOfRun(cfg, mode, es);
            var g, d := going[j], Serialize(s.sent[j]).value;
            && g.q < |s.log| && |d| == 28 + |s.log[g.q].payload| && d[28..] == s.log[g.q].payload
            && d[0] == 72 && d[1] == 65 && d[2] == 71 && d[3] == 71 && d[4] == 1
            && d[5] == (if s.log[g.q].meta.isParity then 1 else 0)
            && Two(d, 6) == g.attempt.pathId
            && Four(d, 8) == NextOn(going[..j], s.sent[..j], g.attempt.pathId) && Four(d, 12) == g.q
            && Four(d, 16) == s.log[g.q].meta.gid
            && d[20] == s.log[g.q].meta.index && d[21] == s.log[g.q].meta.groupSize
            && Two(d, 22) == |s.log[g.q].payload| && Four(d, 24) == g.attempt.timestamp
  {
    hide Run, GoingOfRun, Header, Packet.InRange, NextOn;
    var s, going := Run(cfg, mode, es), GoingOfRun(cfg, mode, es);
    var p := s.sent[j];
    RunAccounted(cfg, mode, es);
    RunNumbered(cfg, mode, es);
    assert Marked(p, going[j]) && p in s.sent && Carries(p, s.log[p.globalSeq]);
    HB.SentFields(p);
    HB.Magic(Serialize(p).value);
  }
}
