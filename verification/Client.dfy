/** The sending side: each payload goes through FEC, every output gets its own global number, copies go out per path. */
module Client {
  import opened Collections
  import opened Bytes
  import opened Packet
  import opened FecEngine

  /**
   One attempt to send a copy on a path, as the scheduler, the tier budget, the pacer and the sockets decide it:
   the copy is built for pathId and goes out on sentOn (which may be an alternate path), or is dropped.
   */
  datatype Attempt = Attempt(pathId: nat, sentOn: Option<nat>, timestamp: nat)

  datatype State = State(
    enc: EncState,
    pathSeqs: map<nat, nat>,
    globalSeq: nat,
    sent: seq<Packet>,     // every packet handed to a socket
    log: seq<FecOut>,      // history: the FEC output that got each global number
    inputs: seq<bytes>)    // history: the payloads taken from the TUN device

  function Init(mode: Mode): State {
    State(EncInit(mode), map[], 0, [], [], [])
  }

  function PathSeq(pathSeqs: map<nat, nat>, pid: nat): nat {
    if pid in pathSeqs then pathSeqs[pid] else 0
  }

  function MakePacket(o: FecOut, pathId: nat, pathSeq: nat, globalSeq: nat, timestamp: nat): Packet {
    var m := o.meta;
    if m.isParity then CreateFecParity(o.payload, pathId, pathSeq, globalSeq, m.gid, m.index, m.groupSize, timestamp)
    else CreateData(o.payload, pathId, pathSeq, globalSeq, m.gid, m.index, m.groupSize, timestamp)
  }

  /** The copies of one FEC output: new per-path numbers, and the packets that went out. */
  function SendCopies(o: FecOut, globalSeq: nat, attempts: seq<Attempt>, pathSeqs: map<nat, nat>)
    : (map<nat, nat>, seq<Packet>)
  {
    if attempts == [] then (pathSeqs, []) else
      var n := |attempts| - 1;
      var (seqs, sent) := SendCopies(o, globalSeq, attempts[..n], pathSeqs);
      var a := attempts[n];
      match a.sentOn
      case None => (seqs, sent)
      case Some(pid) =>
        var pathSeq := PathSeq(seqs, a.pathId);
        (seqs[pid := pathSeq + 1], sent + [MakePacket(o, a.pathId, pathSeq, globalSeq, a.timestamp)])
  }

  /** No header field of any attempted copy overflows. */
  predicate CopiesFit(o: FecOut, globalSeq: nat, attempts: seq<Attempt>, pathSeqs: map<nat, nat>) {
    attempts != [] ==>
      var n := |attempts| - 1;
      var seqs := SendCopies(o, globalSeq, attempts[..n], pathSeqs).0;
      && CopiesFit(o, globalSeq, attempts[..n], pathSeqs)
      && MakePacket(o, attempts[n].pathId, PathSeq(seqs, attempts[n].pathId), globalSeq,
                    attempts[n].timestamp).InRange()
  }

  function AttemptsFor(plan: seq<seq<Attempt>>, j: nat): seq<Attempt> {
    if j < |plan| then plan[j] else []
  }

  /** One FEC output: its copies go out, and the global number advances whether or not any did. */
  function SendOut(s: State, o: FecOut, attempts: seq<Attempt>): State {
    var (seqs, sent) := SendCopies(o, s.globalSeq, attempts, s.pathSeqs);
    s.(pathSeqs := seqs, sent := s.sent + sent, log := s.log + [o], globalSeq := s.globalSeq + 1)
  }

  function SendOuts(s: State, outs: seq<FecOut>, plan: seq<seq<Attempt>>): State {
    if outs == [] then s else
      var n := |outs| - 1;
      SendOut(SendOuts(s, outs[..n], plan), outs[n], AttemptsFor(plan, n))
  }

  predicate OutsFit(s: State, outs: seq<FecOut>, plan: seq<seq<Attempt>>) {
    outs != [] ==>
      var n := |outs| - 1;
      var t := SendOuts(s, outs[..n], plan);
      && OutsFit(s, outs[..n], plan)
      && CopiesFit(outs[n], t.globalSeq, AttemptsFor(plan, n), t.pathSeqs)
  }

  /** One payload from the TUN device. */
  function SendStep(cfg: Config, s: State, payload: bytes, tier: Tier, plan: seq<seq<Attempt>>): State {
    var (e, outs) := EncodeStep(cfg, s.enc, payload, tier);
    SendOuts(s.(enc := e, inputs := s.inputs + [payload]), outs, plan)
  }

  datatype Event = SetMode(mode: Mode) | Send(payload: bytes, tier: Tier, plan: seq<seq<Attempt>>)

  function Step(cfg: Config, s: State, e: Event): State {
    match e
    case SetMode(mode) => s.(enc := s.enc.(mode := mode))
    case Send(payload, tier, plan) => SendStep(cfg, s, payload, tier, plan)
  }

  function Run(cfg: Config, mode: Mode, es: seq<Event>): State {
    if es == [] then Init(mode) else Step(cfg, Run(cfg, mode, es[..|es| - 1]), es[|es| - 1])
  }

  /** No payload of the run is encoded with another kind that goes to the decoder of this kind. */
  predicate Own(cfg: Config, mode: Mode, es: seq<Event>, kind: Kind) {
    es != [] ==>
      var n := |es| - 1;
      && Own(cfg, mode, es[..n], kind)
      && (es[n].Send? ==> OwnStep(cfg, Run(cfg, mode, es[..n]).enc, es[n].tier, kind))
  }

  // ---------- what is on the wire ----------

  /** The packet carries this FEC output. */
  predicate Carries(p: Packet, o: FecOut) {
    && p.magic == MAGIC && p.payloadLen == |p.payload| && p.payload == o.payload
    && p.gid == o.meta.gid && p.index == o.meta.index && p.groupSize == o.meta.groupSize
    && (p.IsFecParity() <==> o.meta.isParity) && !p.IsKeepalive() && !p.IsControl()
  }

  /** Every packet sent carries the FEC output that its global number names. */
  ghost predicate Numbered(s: State) {
    && s.globalSeq == |s.log|
    && forall p :: p in s.sent ==> p.globalSeq < |s.log| && Carries(p, s.log[p.globalSeq])
  }

  lemma {:induction false} CopiesCarry(o: FecOut, globalSeq: nat, attempts: seq<Attempt>, pathSeqs: map<nat, nat>)
    ensures forall p :: p in SendCopies(o, globalSeq, attempts, pathSeqs).1 ==>
              p.globalSeq == globalSeq && Carries(p, o)
  {
    if attempts != [] {
      CopiesCarry(o, globalSeq, attempts[..|attempts| - 1], pathSeqs);
    }
  }

  lemma SendOutNumbered(s: State, o: FecOut, attempts: seq<Attempt>)
    requires Numbered(s)
    ensures Numbered(SendOut(s, o, attempts))
  {
    hide SendCopies, Carries;
    CopiesCarry(o, s.globalSeq, attempts, s.pathSeqs);
  }

  lemma {:induction false} SendOutsNumbered(s: State, outs: seq<FecOut>, plan: seq<seq<Attempt>>)
    requires Numbered(s)
    ensures var t := SendOuts(s, outs, plan);
            Numbered(t) && t.enc == s.enc && t.inputs == s.inputs && t.log == s.log + outs
  {
    if outs != [] {
      hide Numbered;
      var n := |outs| - 1;
      SendOutsNumbered(s, outs[..n], plan);
      SendOutNumbered(SendOuts(s, outs[..n], plan), outs[n], AttemptsFor(plan, n));
      assert s.log + outs == s.log + outs[..n] + [outs[n]];
    } else {
      assert s.log + outs == s.log;
    }
  }

  lemma {:induction false} RunNumbered(cfg: Config, mode: Mode, es: seq<Event>)
    ensures Numbered(Run(cfg, mode, es))
  {
    if es != [] {
      var n := |es| - 1;
      RunNumbered(cfg, mode, es[..n]);
      var s := Run(cfg, mode, es[..n]);
      match es[n]
      case SetMode(_) =>
      case Send(payload, tier, plan) =>
        hide EncodeStep;
        var (e, outs) := EncodeStep(cfg, s.enc, payload, tier);
        SendOutsNumbered(s.(enc := e, inputs := s.inputs + [payload]), outs, plan);
    }
  }

  // ---------- the data packets are the inputs ----------

  /** The payloads of the data packets of a log, parity left out. */
  function DataPayloads(log: seq<FecOut>): seq<bytes> {
    if log == [] then [] else
      var n := |log| - 1;
      DataPayloads(log[..n]) + if log[n].meta.isParity then [] else [log[n].payload]
  }

  lemma {:induction false} DataPayloadsConcat(a: seq<FecOut>, b: seq<FecOut>)
    ensures DataPayloads(a + b) == DataPayloads(a) + DataPayloads(b)
  {
    if b == [] {
      assert a + b == a;
    } else {
      var n := |b| - 1;
      DataPayloadsConcat(a, b[..n]);
      assert (a + b)[..|a + b| - 1] == a + b[..n];
    }
  }

  lemma {:induction false} OnlyFirstIsData(outs: seq<FecOut>)
    requires outs != [] && !outs[0].meta.isParity
    requires forall j :: 1 <= j < |outs| ==> outs[j].meta.isParity
    ensures DataPayloads(outs) == [outs[0].payload]
  {
    var n := |outs| - 1;
    if n > 0 {
      OnlyFirstIsData(outs[..n]);
    } else {
      assert DataPayloads(outs[..0]) == [];
    }
  }

  /** Each input has exactly one data packet, in input order, whatever the modes and parities in between. */
  lemma {:induction false} DataPacketsAreInputs(cfg: Config, mode: Mode, es: seq<Event>)
    ensures var s := Run(cfg, mode, es); DataPayloads(s.log) == s.inputs
  {
    if es != [] {
      var n := |es| - 1;
      DataPacketsAreInputs(cfg, mode, es[..n]);
      RunNumbered(cfg, mode, es[..n]);
      var s := Run(cfg, mode, es[..n]);
      match es[n]
      case SetMode(_) =>
      case Send(payload, tier, plan) =>
        OneDataPerPayload(cfg, s.enc, payload, tier);
        hide EncodeStep, DataPayloads, Numbered;
        var (e, outs) := EncodeStep(cfg, s.enc, payload, tier);
        SendOutsNumbered(s.(enc := e, inputs := s.inputs + [payload]), outs, plan);
        DataPayloadsConcat(s.log, outs);
        OnlyFirstIsData(outs);
    }
  }

  /** The position among the inputs of the data packet numbered q. */
  function Rank(log: seq<FecOut>, q: nat): nat
    requires q <= |log|
  {
    |DataPayloads(log[..q])|
  }

  /** A data packet carries the input of its rank, and ranks follow the numbers. */
  lemma RankedInput(log: seq<FecOut>, q: nat)
    requires q < |log| && !log[q].meta.isParity
    ensures Rank(log, q) < |DataPayloads(log)| && DataPayloads(log)[Rank(log, q)] == log[q].payload
    ensures forall r :: q < r <= |log| ==> Rank(log, q) < Rank(log, r)
  {
    RankBelow(log, q, |log|);
    assert log[..|log|] == log;
    forall r | q < r <= |log| ensures Rank(log, q) < Rank(log, r) {
      RankBelow(log, q, r);
    }
  }

  lemma RankBelow(log: seq<FecOut>, q: nat, r: nat)
    requires q < r <= |log| && !log[q].meta.isParity
    ensures Rank(log, q) < Rank(log, r) && DataPayloads(log[..r])[Rank(log, q)] == log[q].payload
  {
    assert log[..q + 1][..q] == log[..q];
    assert log[..r] == log[..q + 1] + log[q + 1..r];
    DataPayloadsConcat(log[..q + 1], log[q + 1..r]);
  }

  // ---------- the encoder side of a run ----------

  /** What the decoder of this kind will take every logged output for is what it is, and groups consist of inputs. */
  ghost predicate Encoded(cfg: Config, kind: Kind, s: State) {
    && s.enc.Valid(cfg)
    && AllDraw(s.enc, s.inputs)
    && forall o :: o in s.log ==> EmittedTo(cfg, s.enc, kind, o)
  }

  lemma EncodedSend(cfg: Config, kind: Kind, s: State, payload: bytes, tier: Tier, plan: seq<seq<Attempt>>)
    requires cfg.xorSize >= 1 && cfg.rsData >= 1
    requires Numbered(s) && Encoded(cfg, kind, s) && OwnStep(cfg, s.enc, tier, kind)
    ensures Encoded(cfg, kind, SendStep(cfg, s, payload, tier, plan))
  {
    hide EncodeStep, EmittedTo, AllDraw, Later, Numbered, OwnStep;
    var (e, outs) := EncodeStep(cfg, s.enc, payload, tier);
    EncodeStepEmits(cfg, s.enc, payload, tier, kind);
    AllDrawStep(cfg, s.enc, payload, tier, s.inputs);
    forall o | o in s.log ensures EmittedTo(cfg, e, kind, o) {
      EmittedToLater(cfg, s.enc, e, kind, o);
    }
    var s1 := s.(enc := e, inputs := s.inputs + [payload]);
    NumberedAfterEncode(s, e, payload);
    SendOutsNumbered(s1, outs, plan);
  }

  lemma NumberedAfterEncode(s: State, e: EncState, payload: bytes)
    requires Numbered(s)
    ensures Numbered(s.(enc := e, inputs := s.inputs + [payload]))
  {
  }

  lemma {:induction false} RunEncoded(cfg: Config, kind: Kind, mode: Mode, es: seq<Event>)
    requires cfg.xorSize >= 1 && cfg.rsData >= 1 && Own(cfg, mode, es, kind)
    ensures Encoded(cfg, kind, Run(cfg, mode, es))
  {
    if es != [] {
      hide SendStep, Encoded, Numbered, OwnStep;
      var n := |es| - 1;
      RunEncoded(cfg, kind, mode, es[..n]);
      RunNumbered(cfg, mode, es[..n]);
      var s := Run(cfg, mode, es[..n]);
      match es[n]
      case SetMode(m) => ModeKeepsEncoded(cfg, kind, s, m);
      case Send(payload, tier, plan) => EncodedSend(cfg, kind, s, payload, tier, plan);
    } else {
      InitEncoded(cfg, kind, mode);
    }
  }

  lemma InitEncoded(cfg: Config, kind: Kind, mode: Mode)
    requires cfg.xorSize >= 1 && cfg.rsData >= 1
    ensures Encoded(cfg, kind, Init(mode))
  {
  }

  lemma ModeKeepsEncoded(cfg: Config, kind: Kind, s: State, mode: Mode)
    requires Encoded(cfg, kind, s)
    ensures Encoded(cfg, kind, s.(enc := s.enc.(mode := mode)))
  {
    forall o | o in s.log ensures EmittedTo(cfg, s.enc.(mode := mode), kind, o) {
      assert EmittedTo(cfg, s.enc, kind, o);
    }
  }

  // ---------- realtime payloads ----------

  /** The run without its realtime payloads. */
  function WithoutRealtime(es: seq<Event>): seq<Event> {
    if es == [] then [] else
      var n := |es| - 1;
      WithoutRealtime(es[..n]) + if es[n].Send? && es[n].tier == Realtime then [] else [es[n]]
  }

  /** A realtime payload takes no place in any group: the encoders go on as if it had not been sent. */
  lemma {:induction false} RealtimeLeavesNoTrace(cfg: Config, mode: Mode, es: seq<Event>)
    ensures Run(cfg, mode, WithoutRealtime(es)).enc == Run(cfg, mode, es).enc
  {
    if es != [] {
      hide EncodeStep;
      var n := |es| - 1;
      var s, rest := Run(cfg, mode, es[..n]), WithoutRealtime(es[..n]);
      RealtimeLeavesNoTrace(cfg, mode, es[..n]);
      EncodersAfter(cfg, s, es[n]);
      if es[n].Send? && es[n].tier == Realtime {
        RealtimeIsReplicated(cfg, s.enc, es[n].payload);
        assert rest + [] == rest;
      } else {
        assert (rest + [es[n]])[..|rest|] == rest;
        EncodersAfter(cfg, Run(cfg, mode, rest), es[n]);
      }
    }
  }

  lemma EncodersAfter(cfg: Config, s: State, e: Event)
    ensures Step(cfg, s, e).enc == match e
                                   case SetMode(mode) => s.enc.(mode := mode)
                                   case Send(payload, tier, _) => EncodeStep(cfg, s.enc, payload, tier).0
  {
    hide EncodeStep;
    if e.Send? {
      var (enc, outs) := EncodeStep(cfg, s.enc, e.payload, e.tier);
      OutsKeepEncoders(s.(enc := enc, inputs := s.inputs + [e.payload]), outs, e.plan);
    }
  }

  lemma {:induction false} OutsKeepEncoders(s: State, outs: seq<FecOut>, plan: seq<seq<Attempt>>)
    ensures SendOuts(s, outs, plan).enc == s.enc
  {
    if outs != [] { OutsKeepEncoders(s, outs[..|outs| - 1], plan); }
  }

  /** It is logged as one output without a group, marked for replication. */
  lemma RealtimeIsLogged(cfg: Config, s: State, payload: bytes, plan: seq<seq<Attempt>>)
    requires Numbered(s)
    ensures var t := SendStep(cfg, s, payload, Realtime, plan);
            t.enc == s.enc && t.log == s.log + [FecOut(payload, Meta(0, 0, 0, false, true))]
  {
    hide EncodeStep, Numbered;
    RealtimeIsReplicated(cfg, s.enc, payload);
    var (enc, outs) := EncodeStep(cfg, s.enc, payload, Realtime);
    NumberedAfterEncode(s, enc, payload);
    SendOutsNumbered(s.(enc := enc, inputs := s.inputs + [payload]), outs, plan);
  }

  /** The mode set last, or the one the client started with. */
  function ModeNow(mode: Mode, es: seq<Event>): Mode {
    if es == [] then mode
    else if es[|es| - 1].SetMode? then es[|es| - 1].mode else ModeNow(mode, es[..|es| - 1])
  }

  /** No packet changes the mode. */
  lemma {:induction false} ModeIsLastSet(cfg: Config, mode: Mode, es: seq<Event>)
    ensures Run(cfg, mode, es).enc.mode == ModeNow(mode, es)
  {
    hide Step;
    if es != [] {
      var s := Run(cfg, mode, es[..|es| - 1]);
      ModeIsLastSet(cfg, mode, es[..|es| - 1]);
      EncodersAfter(cfg, s, es[|es| - 1]);
      if es[|es| - 1].Send? { EncodingKeepsMode(cfg, s.enc, es[|es| - 1].payload, es[|es| - 1].tier); }
    }
  }

  lemma EncodingKeepsMode(cfg: Config, e: EncState, payload: bytes, tier: Tier)
    ensures EncodeStep(cfg, e, payload, tier).0.mode == e.mode
  {
  }
}
