/** From one TUN device to the other, whatever the channel does: inputs in order, once, or originals of lost packets. */
module EndToEnd {
  import opened Collections
  import opened Bytes
  import opened GroupStream
  import opened Packet
  import opened FecEngine
  import opened Server
  import C = Client
  import RR = ReorderRuns
  import RF = RsFec
  import CC = ColumnCodes
  import KR = KindRuns
  import M = Misrouting
  import GF = GaloisField
  import RB = ReorderBuffer

  datatype Event = Datagram(data: bytes, now: real) | Tick(now: real)

  ghost function Step(cfg: Config, window: nat, s: State, e: Event): (State, seq<Write>) {
    match e
    case Datagram(data, now) => DatagramStep(cfg, window, s, data, now)
    case Tick(now) => TickStep(cfg, window, s, now)
  }

  ghost function After(cfg: Config, window: nat, t0: real, es: seq<Event>): State {
    if es == [] then Init(t0) else Step(cfg, window, After(cfg, window, t0, es[..|es| - 1]), es[|es| - 1]).0
  }

  ghost function Writes(cfg: Config, window: nat, t0: real, es: seq<Event>): seq<Write> {
    if es == [] then [] else
      var n := |es| - 1;
      Writes(cfg, window, t0, es[..n]) + Step(cfg, window, After(cfg, window, t0, es[..n]), es[n]).1
  }

  /** A datagram that is ignored before deduplication: malformed, keepalive or control. */
  predicate Ignored(d: bytes) {
    Deserialize(d).Err? || Deserialize(d).value.IsKeepalive() || Deserialize(d).value.IsControl()
  }

  /** What can come out of the channel: a packet the client sent, possibly cut short, or something ignored. */
  ghost predicate FromChannel(u: C.State, d: bytes) {
    Ignored(d) || exists p :: p in u.sent && p.InRange() && d <= Serialize(p).value
  }

  lemma PrefixIsRejected(p: Packet, d: bytes)
    requires p.WellFormed() && d <= Serialize(p).value && |d| < |Serialize(p).value|
    ensures Ignored(d)
  {
    TruncatedIsRejected(p, |d|);
    assert d == Serialize(p).value[..|d|];
  }

  /** An arriving datagram is ignored or parses to exactly a packet the client sent. */
  lemma ParsesToSent(u: C.State, d: bytes)
    requires C.Numbered(u) && FromChannel(u, d) && !Ignored(d)
    ensures Deserialize(d).value in u.sent
  {
    var p :| p in u.sent && p.InRange() && d <= Serialize(p).value;
    assert p.WellFormed();
    var w := Serialize(p).value;
    if |d| < |w| {
      PrefixIsRejected(p, d);
    } else {
      DeserializeSerialize(p, []);
      assert d == w + [];
    }
  }

  // ---------- the reorder buffer's share of a run ----------

  /** What an event is to the reorder buffer. */
  ghost function ReorderEvent(s: State, e: Event): seq<RR.Event> {
    match e
    case Tick(now) => [RR.Check(now)]
    case Datagram(d, now) =>
      if Ignored(d) || Deserialize(d).value.IsFecParity() then []
      else
        var p := Deserialize(d).value;
        if s.reorder.IsDuplicate(p.globalSeq) then [] else [RR.Arrive(p.globalSeq, p.payload, now)]
  }

  ghost function ReorderEvents(cfg: Config, window: nat, t0: real, es: seq<Event>): seq<RR.Event> {
    if es == [] then [] else
      var n := |es| - 1;
      ReorderEvents(cfg, window, t0, es[..n]) + ReorderEvent(After(cfg, window, t0, es[..n]), es[n])
  }

  /** The writes released by the reorder buffer, with their numbers. */
  function ReleasedOf(w: seq<Write>): seq<RB.Numbered> {
    if w == [] then [] else
      var n := |w| - 1;
      ReleasedOf(w[..n]) + if w[n].Released? then [(w[n].q, w[n].payload)] else []
  }

  lemma {:induction false} ReleasedOfConcat(a: seq<Write>, b: seq<Write>)
    ensures ReleasedOf(a + b) == ReleasedOf(a) + ReleasedOf(b)
  {
    if b == [] {
      assert a + b == a;
    } else {
      var n := |b| - 1;
      ReleasedOfConcat(a, b[..n]);
      assert (a + b)[..|a + b| - 1] == a + b[..n];
    }
  }

  lemma {:induction false} ReleasedOfReleased(r: seq<RB.Numbered>)
    ensures ReleasedOf(ReleasedWrites(r)) == r
  {
    if r != [] {
      var n := |r| - 1;
      var w := ReleasedWrites(r);
      ReleasedOfReleased(r[..n]);
      assert w[..n] == ReleasedWrites(r[..n]);
    }
  }

  lemma {:induction false} ReleasedOfRecovered(w: seq<Write>)
    requires forall i :: 0 <= i < |w| ==> w[i].Recovered?
    ensures ReleasedOf(w) == []
  {
    if w != [] { ReleasedOfRecovered(w[..|w| - 1]); }
  }

  /** One step of the server is at most one step of its reorder buffer, and releases what that step releases. */
  lemma StepReorders(cfg: Config, window: nat, s: State, e: Event)
    ensures var (t, w) := Step(cfg, window, s, e);
            var rs := ReorderEvent(s, e);
            if rs == [] then t.reorder == s.reorder && ReleasedOf(w) == []
            else |rs| == 1 && (t.reorder, ReleasedOf(w)) == RR.Step(window, s.reorder, rs[0])
  {
    hide DecodeStep, RB.InsertStep, RB.CheckStep, ReleasedOf;
    match e
    case Tick(now) =>
      ReleasedOfReleased(RB.CheckStep(window, s.reorder, now).1);
    case Datagram(d, now) =>
      ReleasedOfRecovered([]);
      if !Ignored(d) {
        PacketReorders(cfg, window, s, Deserialize(d).value, now);
      }
  }

  lemma PacketReorders(cfg: Config, window: nat, s: State, p: Packet, now: real)
    ensures var (t, w) := PacketStep(cfg, window, s, p, now);
            if p.IsFecParity() || s.reorder.IsDuplicate(p.globalSeq) then t.reorder == s.reorder && ReleasedOf(w) == []
            else (t.reorder, ReleasedOf(w)) == RB.InsertStep(window, s.reorder, p.globalSeq, p.payload, now)
  {
    hide DecodeStep, RB.InsertStep, ReleasedOf;
    ReleasedOfRecovered([]);
    var recovered := if p.groupSize > 0 then DecodeStep(cfg, s.fec, MetaOf(p), p.payload, now).1 else [];
    var w := RecoveredWrites(MetaOf(p), recovered);
    ReleasedOfRecovered(w);
    var out := RB.InsertStep(window, s.reorder, p.globalSeq, p.payload, now).1;
    ReleasedOfReleased(out);
    ReleasedOfConcat(w, ReleasedWrites(out));
    assert [] + out == out;
  }

  /** The server's releases are those of a run of the reorder buffer alone. */
  lemma {:induction false} ReorderRun(cfg: Config, window: nat, t0: real, es: seq<Event>)
    ensures var rs := ReorderEvents(cfg, window, t0, es);
            && After(cfg, window, t0, es).reorder == RR.After(window, t0, rs)
            && ReleasedOf(Writes(cfg, window, t0, es)) == RR.Out(window, t0, rs)
  {
    if es != [] {
      hide Step, ReorderEvent, ReleasedOf;
      var n := |es| - 1;
      ReorderRun(cfg, window, t0, es[..n]);
      var s := After(cfg, window, t0, es[..n]);
      StepReorders(cfg, window, s, es[n]);
      ReleasedOfConcat(Writes(cfg, window, t0, es[..n]), Step(cfg, window, s, es[n]).1);
      var before, more := ReorderEvents(cfg, window, t0, es[..n]), ReorderEvent(s, es[n]);
      if more == [] {
        assert before + more == before;
      } else {
        assert (before + more)[..|before|] == before && (before + more)[|before|] == more[0];
      }
    } else {
      assert ReleasedOf([]) == [];
    }
  }

  // ---------- integrity ----------

  /** Arrivals at the reorder buffer are data packets of the log under their own number. */
  ghost predicate FromLog(u: C.State, e: RR.Event) {
    e.Arrive? ==> e.q < |u.log| && !u.log[e.q].meta.isParity && e.payload == u.log[e.q].payload
  }

  lemma {:induction false} ArrivalsAreLogged(cfg: Config, window: nat, t0: real, u: C.State, es: seq<Event>)
    requires C.Numbered(u) && forall e :: e in es && e.Datagram? ==> FromChannel(u, e.data)
    ensures forall e :: e in ReorderEvents(cfg, window, t0, es) ==> FromLog(u, e)
  {
    if es != [] {
      hide Step, FromChannel, RB.InsertStep;
      var n := |es| - 1;
      assert forall e :: e in es[..n] ==> e in es;
      ArrivalsAreLogged(cfg, window, t0, u, es[..n]);
      assert es[n] in es;
      if es[n].Datagram? && !Ignored(es[n].data) {
        ParsesToSent(u, es[n].data);
      }
    }
  }

  lemma {:induction false} AcceptedFromLog(u: C.State, window: nat, t0: real, rs: seq<RR.Event>)
    requires forall e :: e in rs ==> FromLog(u, e)
    ensures forall q :: q in RR.Accepted(window, t0, rs) ==>
              q < |u.log| && !u.log[q].meta.isParity && RR.Accepted(window, t0, rs)[q] == u.log[q].payload
  {
    if rs != [] {
      hide RR.After;
      var n := |rs| - 1;
      assert rs[n] in rs;
      AcceptedFromLog(u, window, t0, rs[..n]);
    }
  }

  /** A recovered write of the decoder of this kind is sound. */
  ghost predicate SoundWrite(cfg: Config, kind: Kind, e: EncState, w: Write) {
    w.Recovered? && cfg.Dispatch(w.meta.groupSize) == Some(kind) ==> Sound(cfg, e, w.meta, (w.index, w.payload))
  }

  /** Everything the decoder holds came from the client's encoder of its kind. */
  lemma StepFaithful(cfg: Config, kind: Kind, window: nat, u: C.State, s: State, e: Event)
    requires cfg.LawfulCode(kind) && C.Numbered(u) && C.Encoded(cfg, kind, u) && Faithful(cfg, kind, u.enc, s.fec)
    requires e.Datagram? ==> FromChannel(u, e.data)
    ensures Faithful(cfg, kind, u.enc, Step(cfg, window, s, e).0.fec)
    ensures forall w :: w in Step(cfg, window, s, e).1 ==> SoundWrite(cfg, kind, u.enc, w)
  {
    hide PacketStep, RB.CheckStep, Faithful, FromChannel, Sound, ExpireStep;
    match e
    case Tick(now) => ExpireStepFaithful(cfg, kind, u.enc, s.fec, now);
    case Datagram(d, now) =>
      if !Ignored(d) {
        ParsesToSent(u, d);
        PacketFaithful(cfg, kind, window, u, s, Deserialize(d).value, now);
      }
  }

  lemma PacketFaithful(cfg: Config, kind: Kind, window: nat, u: C.State, s: State, p: Packet, now: real)
    requires cfg.LawfulCode(kind) && C.Numbered(u) && C.Encoded(cfg, kind, u)
    requires Faithful(cfg, kind, u.enc, s.fec) && p in u.sent
    ensures Faithful(cfg, kind, u.enc, PacketStep(cfg, window, s, p, now).0.fec)
    ensures forall w :: w in PacketStep(cfg, window, s, p, now).1 ==> SoundWrite(cfg, kind, u.enc, w)
  {
    hide DecodeStep, RB.InsertStep, Faithful, Sound, C.Encoded, C.Numbered, EmittedTo;
    var o := FecOut(p.payload, MetaOf(p));
    SentIsEmitted(cfg, kind, u, p);
    EncodedIsValid(cfg, kind, u);
    if p.groupSize > 0 {
      DecodeStepSound(cfg, kind, u.enc, s.fec, o, now);
    }
  }

  lemma EncodedIsValid(cfg: Config, kind: Kind, u: C.State)
    requires C.Encoded(cfg, kind, u)
    ensures u.enc.Valid(cfg) && AllDraw(u.enc, u.inputs)
  {
  }

  lemma SentIsEmitted(cfg: Config, kind: Kind, u: C.State, p: Packet)
    requires C.Numbered(u) && C.Encoded(cfg, kind, u) && p in u.sent
    ensures EmittedTo(cfg, u.enc, kind, FecOut(p.payload, MetaOf(p)))
  {
    hide EmittedKind;
    var l := u.log[p.globalSeq];
    assert C.Carries(p, l) && l in u.log;
    assert EmittedTo(cfg, u.enc, kind, l);
    SameKind(cfg, u.enc, kind, l, FecOut(p.payload, MetaOf(p)));
  }

  lemma SameKind(cfg: Config, e: EncState, kind: Kind, o: FecOut, o': FecOut)
    requires o.payload == o'.payload && o.meta.gid == o'.meta.gid && o.meta.index == o'.meta.index
    requires o.meta.isParity == o'.meta.isParity
    ensures EmittedKind(cfg, e, kind, o) <==> EmittedKind(cfg, e, kind, o')
  {
  }

  lemma {:induction false} RecoveriesAreSound(cfg: Config, kind: Kind, window: nat, t0: real, u: C.State,
                                              es: seq<Event>)
    requires cfg.LawfulCode(kind) && C.Numbered(u) && C.Encoded(cfg, kind, u)
    requires forall e :: e in es && e.Datagram? ==> FromChannel(u, e.data)
    ensures Faithful(cfg, kind, u.enc, After(cfg, window, t0, es).fec)
    ensures forall w :: w in Writes(cfg, window, t0, es) ==> SoundWrite(cfg, kind, u.enc, w)
  {
    if es != [] {
      hide Step, SoundWrite, Faithful, FromChannel, C.Encoded, C.Numbered;
      var n := |es| - 1;
      assert forall e :: e in es[..n] ==> e in es;
      RecoveriesAreSound(cfg, kind, window, t0, u, es[..n]);
      assert es[n] in es;
      StepFaithful(cfg, kind, window, u, After(cfg, window, t0, es[..n]), es[n]);
    } else {
      NothingHeld(cfg, kind, u.enc);
    }
  }

  lemma SoundIsPaddedInput(cfg: Config, u: C.State, m: Meta, r: (nat, bytes))
    requires AllDraw(u.enc, u.inputs) && Sound(cfg, u.enc, m, r)
    ensures PaddedInput(u.inputs, r.1)
  {
    OriginalIsInput(u.enc.Stream(cfg.Dispatch(m.groupSize).value), u.inputs, m.gid, r);
  }

  /**
   Global numbers strictly increase; each release is the input of its rank; and ranks strictly increase.
   So what is released are inputs, in input order, each at most once.
   */
  ghost predicate InputsInOrder(u: C.State, released: seq<RB.Numbered>) {
    && (forall i, j :: 0 <= i < j < |released| ==> released[i].0 < released[j].0)
    && (forall i :: 0 <= i < |released| ==>
          && released[i].0 < |u.log|
          && C.Rank(u.log, released[i].0) < |u.inputs|
          && released[i].1 == u.inputs[C.Rank(u.log, released[i].0)])
    && (forall i, j :: 0 <= i < j < |released| ==>
          released[j].0 < |u.log| && C.Rank(u.log, released[i].0) < C.Rank(u.log, released[j].0))
  }

  /**
   Whatever the configuration, the modes, the codes and the channel do: the writes released by the reorder buffer are
   inputs, in input order, each at most once.
   */
  lemma ReleasesAreInOrder(cfg: Config, mode: Mode, sends: seq<C.Event>, window: nat, t0: real, es: seq<Event>)
    requires forall e :: e in es && e.Datagram? ==> FromChannel(C.Run(cfg, mode, sends), e.data)
    ensures InputsInOrder(C.Run(cfg, mode, sends), ReleasedOf(Writes(cfg, window, t0, es)))
  {
    hide FromChannel, After, Writes, C.Run, ReleasedOf, InputsInOrder;
    C.RunNumbered(cfg, mode, sends);
    C.DataPacketsAreInputs(cfg, mode, sends);
    ReleasedAreInputs(cfg, window, t0, C.Run(cfg, mode, sends), es);
  }

  /**
   End-to-end integrity. For every run of the client, and every run of the server fed from the channel:
   - the writes released by the reorder buffer are inputs, in input order, each at most once;
   - every recovered write by the decoder of a kind is the padded original of the group and index it names, and an
     input, provided that no packet of another kind goes to this decoder, and the code of this kind is lawful.
   */
  lemma Integrity(cfg: Config, mode: Mode, sends: seq<C.Event>, window: nat, t0: real, es: seq<Event>)
    requires forall e :: e in es && e.Datagram? ==> FromChannel(C.Run(cfg, mode, sends), e.data)
    ensures InputsInOrder(C.Run(cfg, mode, sends), ReleasedOf(Writes(cfg, window, t0, es)))
    ensures var u := C.Run(cfg, mode, sends);
            forall kind, w :: cfg.LawfulCode(kind) && C.Own(cfg, mode, sends, kind)
                              && w in Writes(cfg, window, t0, es) && w.Recovered?
                              && cfg.Dispatch(w.meta.groupSize) == Some(kind) ==>
              Sound(cfg, u.enc, w.meta, (w.index, w.payload)) && PaddedInput(u.inputs, w.payload)
  {
    hide FromChannel, C.Run, Writes, InputsInOrder, C.Own, Sound, PaddedInput, RF.Lawful;
    ReleasesAreInOrder(cfg, mode, sends, window, t0, es);
    var u := C.Run(cfg, mode, sends);
    forall kind, w | cfg.LawfulCode(kind) && C.Own(cfg, mode, sends, kind)
                     && w in Writes(cfg, window, t0, es) && w.Recovered?
                     && cfg.Dispatch(w.meta.groupSize) == Some(kind)
      ensures Sound(cfg, u.enc, w.meta, (w.index, w.payload)) && PaddedInput(u.inputs, w.payload)
    {
      RecoveryIsInput(cfg, kind, mode, sends, window, t0, es, w);
    }
  }

  lemma RecoveryIsInput(cfg: Config, kind: Kind, mode: Mode, sends: seq<C.Event>, window: nat, t0: real,
                        es: seq<Event>, w: Write)
    requires cfg.LawfulCode(kind) && C.Own(cfg, mode, sends, kind)
    requires forall e :: e in es && e.Datagram? ==> FromChannel(C.Run(cfg, mode, sends), e.data)
    requires w in Writes(cfg, window, t0, es) && w.Recovered? && cfg.Dispatch(w.meta.groupSize) == Some(kind)
    ensures var u := C.Run(cfg, mode, sends);
            Sound(cfg, u.enc, w.meta, (w.index, w.payload)) && PaddedInput(u.inputs, w.payload)
  {
    hide Sound, FromChannel, PaddedInput, After, Writes, C.Run, C.Own, C.Encoded, AllDraw, RF.Lawful;
    var u := C.Run(cfg, mode, sends);
    C.RunNumbered(cfg, mode, sends);
    C.RunEncoded(cfg, kind, mode, sends);
    EncodedIsValid(cfg, kind, u);
    RecoveriesAreSound(cfg, kind, window, t0, u, es);
    assert SoundWrite(cfg, kind, u.enc, w);
    SoundIsPaddedInput(cfg, u, w.meta, (w.index, w.payload));
  }

  /** With group sizes of their own, XOR packets share their decoder with no other kind in any run. */
  lemma {:induction false} XorIsOwn(cfg: Config, mode: Mode, sends: seq<C.Event>)
    requires cfg.Size(RsKind) != cfg.Size(XorKind) && cfg.Size(HeavyKind) != cfg.Size(XorKind)
    ensures C.Own(cfg, mode, sends, XorKind)
  {
    if sends != [] { XorIsOwn(cfg, mode, sends[..|sends| - 1]); }
  }

  /** When all kinds are routed, every decoder is its own kind's in every run. */
  lemma {:induction false} RoutedIsOwn(cfg: Config, mode: Mode, sends: seq<C.Event>, kind: Kind)
    requires cfg.Routed(XorKind) && cfg.Routed(RsKind) && cfg.Routed(HeavyKind)
    ensures C.Own(cfg, mode, sends, kind)
  {
    if sends != [] { RoutedIsOwn(cfg, mode, sends[..|sends| - 1], kind); }
  }

  lemma ReleasedAreInputs(cfg: Config, window: nat, t0: real, u: C.State, es: seq<Event>)
    requires C.Numbered(u) && C.DataPayloads(u.log) == u.inputs
    requires forall e :: e in es && e.Datagram? ==> FromChannel(u, e.data)
    ensures InputsInOrder(u, ReleasedOf(Writes(cfg, window, t0, es)))
  {
    hide After, Writes, ReleasedOf, ReorderEvents, RR.After, RR.Out, RR.Accepted, RR.Skipped;
    hide FromChannel, RB.Inv, InputsInOrder;
    var rs := ReorderEvents(cfg, window, t0, es);
    ReorderRun(cfg, window, t0, es);
    ArrivalsAreLogged(cfg, window, t0, u, es);
    AcceptedFromLog(u, window, t0, rs);
    RR.Conservation(window, t0, rs);
    assert RR.Out(window, t0, rs) == RR.Below(RR.Accepted(window, t0, rs), RR.After(window, t0, rs).next);
    RankedRelease(u, RR.Accepted(window, t0, rs), RR.After(window, t0, rs).next);
  }

  lemma RankedRelease(u: C.State, acc: map<nat, bytes>, n: nat)
    requires C.DataPayloads(u.log) == u.inputs
    requires forall q :: q in acc ==> q < |u.log| && !u.log[q].meta.isParity && acc[q] == u.log[q].payload
    ensures InputsInOrder(u, RR.Below(acc, n))
  {
    hide RR.Below, C.Rank, C.DataPayloads;
    var released := RR.Below(acc, n);
    RR.BelowAscends(acc, n);
    forall i | 0 <= i < |released|
      ensures released[i].0 < |u.log| && C.Rank(u.log, released[i].0) < |u.inputs|
      ensures released[i].1 == u.inputs[C.Rank(u.log, released[i].0)]
      ensures forall r :: released[i].0 < r <= |u.log| ==> C.Rank(u.log, released[i].0) < C.Rank(u.log, r)
    {
      RR.BelowIsAccepted(acc, n, released[i]);
      C.RankedInput(u.log, released[i].0);
    }
  }

  // ---------- without the timeout loop ----------

  /** The number of the data packet that arrives, if one does. */
  function DataNumber(e: Event): Option<nat> {
    if e.Datagram? && !Ignored(e.data) && !Deserialize(e.data).value.IsFecParity()
    then Some(Deserialize(e.data).value.globalSeq) else None
  }

  ghost predicate DataArrived(es: seq<Event>, q: nat) {
    exists e :: e in es && DataNumber(e) == Some(q)
  }

  ghost predicate NoTicks(es: seq<Event>) {
    forall e :: e in es ==> e.Datagram?
  }

  /** Without ticks, the numbers that reach the reorder buffer are those of the data packets that arrived. */
  lemma {:induction false} FirstArrivals(cfg: Config, window: nat, t0: real, es: seq<Event>)
    requires NoTicks(es)
    ensures RR.ArrivalsOnly(ReorderEvents(cfg, window, t0, es))
    ensures forall q :: q in RR.First(ReorderEvents(cfg, window, t0, es)) <==> DataArrived(es, q)
  {
    if es != [] {
      hide After, RR.After, RR.First, ReorderEvent, DataArrived, DataNumber;
      var n := |es| - 1;
      assert forall e :: e in es[..n] ==> e in es;
      FirstArrivals(cfg, window, t0, es[..n]);
      var before := ReorderEvents(cfg, window, t0, es[..n]);
      var s := After(cfg, window, t0, es[..n]);
      ReorderRun(cfg, window, t0, es[..n]);
      assert es[n] in es;
      var q := DataNumber(es[n]);
      if q.Some? {
        DuplicateMeansArrived(window, t0, before, q.value);
      }
      OneReorderEvent(s, es[n]);
      FirstOfMore(before, ReorderEvent(s, es[n]));
      ArrivedMore(es);
    }
  }

  lemma OneReorderEvent(s: State, e: Event)
    requires e.Datagram?
    ensures var rs := ReorderEvent(s, e);
            && |rs| <= 1 && (rs != [] ==> rs[0].Arrive? && DataNumber(e) == Some(rs[0].q))
            && (rs == [] && DataNumber(e).Some? ==> s.reorder.IsDuplicate(DataNumber(e).value))
  {
  }

  lemma DuplicateMeansArrived(window: nat, t0: real, rs: seq<RR.Event>, q: nat)
    requires RR.ArrivalsOnly(rs)
    ensures RR.After(window, t0, rs).IsDuplicate(q) ==> q in RR.First(rs)
  {
    RR.DuplicateMeansSeenOrSkipped(window, t0, rs, q);
    RR.NothingSkipped(window, t0, rs);
    RR.FirstArrivalWins(window, t0, rs);
  }

  lemma FirstOfMore(rs: seq<RR.Event>, more: seq<RR.Event>)
    requires |more| <= 1
    ensures forall q :: q in RR.First(rs + more) <==>
              q in RR.First(rs) || (more != [] && more[0].Arrive? && more[0].q == q)
  {
    if more == [] {
      assert rs + more == rs;
    } else {
      assert (rs + more)[..|rs|] == rs && (rs + more)[|rs|] == more[0];
    }
  }

  lemma ArrivedMore(es: seq<Event>)
    requires es != []
    ensures forall q: nat :: DataArrived(es, q) <==>
              DataArrived(es[..|es| - 1], q) || DataNumber(es[|es| - 1]) == Some(q)
  {
    var n := |es| - 1;
    assert es == es[..n] + [es[n]];
    forall q: nat ensures DataArrived(es, q) <==> DataArrived(es[..n], q) || DataNumber(es[n]) == Some(q) {
      if DataArrived(es[..n], q) {
        var e :| e in es[..n] && DataNumber(e) == Some(q);
        assert e in es;
      }
    }
  }

  ghost predicate WasReleased(w: seq<Write>, q: nat) {
    exists r :: r in ReleasedOf(w) && r.0 == q
  }

  /** Without timeouts a number is released if and only if it and every number before it arrived in data packets. */
  lemma WithoutTicks(cfg: Config, window: nat, t0: real, es: seq<Event>, q: nat)
    requires NoTicks(es)
    ensures WasReleased(Writes(cfg, window, t0, es), q) <==> forall k: nat :: k <= q ==> DataArrived(es, k)
  {
    hide After, Writes, ReorderEvents, ReleasedOf, RR.After, RR.Out, RR.First;
    var rs := ReorderEvents(cfg, window, t0, es);
    FirstArrivals(cfg, window, t0, es);
    ReorderRun(cfg, window, t0, es);
    RR.Confluence(window, t0, rs);
    var out, next := RR.Out(window, t0, rs), RR.After(window, t0, rs).next;
    if q < next {
      assert out[q] in ReleasedOf(Writes(cfg, window, t0, es)) && out[q].0 == q;
    }
  }

  /** So without timeouts nothing from the first parity packet's number on is ever released, on any channel. */
  lemma ParityHoldsBack(cfg: Config, mode: Mode, sends: seq<C.Event>, window: nat, t0: real, es: seq<Event>,
                        k: nat, q: nat)
    requires NoTicks(es) && forall e :: e in es ==> FromChannel(C.Run(cfg, mode, sends), e.data)
    requires k <= q && k < |C.Run(cfg, mode, sends).log| && C.Run(cfg, mode, sends).log[k].meta.isParity
    ensures !WasReleased(Writes(cfg, window, t0, es), q)
  {
    hide Writes, WasReleased, FromChannel, C.Run;
    var u := C.Run(cfg, mode, sends);
    C.RunNumbered(cfg, mode, sends);
    WithoutTicks(cfg, window, t0, es, q);
    if DataArrived(es, k) {
      var e :| e in es && DataNumber(e) == Some(k);
      ParsesToSent(u, e.data);
    }
  }

  // ---------- the hypotheses can be met ----------

  /** An engine whose column codes interpolate over the field of 256 elements. */
  function InterpolatingConfig(xorSize: nat, rsData: nat, rsParity: nat, timeoutMs: real): Config {
    var heavyData := if rsData - 2 > 4 then rsData - 2 else 4;
    Config(xorSize, rsData, rsParity,
           CC.Interpolation(GF.GF256(), rsData, rsParity),
           CC.Interpolation(GF.GF256(), heavyData, rsParity + 2),
           timeoutMs)
  }

  /** For every choice of group sizes up to 256 there are lawful codes. */
  lemma LawfulConfigsExist(xorSize: nat, rsData: nat, rsParity: nat, timeoutMs: real)
    requires xorSize >= 1 && rsData >= 1
    requires rsData + rsParity <= 256 && rsParity <= 250
    ensures InterpolatingConfig(xorSize, rsData, rsParity, timeoutMs).LawfulCodes()
  {
    hide RF.Lawful, CC.Interpolation, GF.GF256;
    var cfg := InterpolatingConfig(xorSize, rsData, rsParity, timeoutMs);
    GF.LawfulCodeExists(rsData, rsParity);
    GF.LawfulCodeExists(cfg.HeavyData(), cfg.HeavyParity());
  }

  lemma InterpolatingConfigIsNested(xorSize: nat, rsData: nat, rsParity: nat, timeoutMs: real)
    requires rsData >= 6 && rsData + rsParity <= 256
    ensures M.Nested(InterpolatingConfig(xorSize, rsData, rsParity, timeoutMs))
  {
    var cfg := InterpolatingConfig(xorSize, rsData, rsParity, timeoutMs);
    hide CC.EncodeColumn, CC.IsField;
    GF.GF256IsField();
    forall d: bytes {:trigger cfg.heavyCodec.enc(d)} | |d| == cfg.HeavyData()
      ensures |cfg.heavyCodec.enc(d)| >= rsData
      ensures cfg.rsCodec.enc(cfg.heavyCodec.enc(d)[..rsData]) == cfg.heavyCodec.enc(d)
    {
      CC.InterpolationIsNested(GF.GF256(), rsData - 2, rsParity + 2, rsData, rsParity, d);
    }
  }

  /**
   With the group sizes of the default configuration (4; 8 and 2), XOR and normal Reed-Solomon alone recover rightly;
   heavy Reed-Solomon alone hands out a payload that was never sent.
   */
  lemma DefaultHeavyModeFails(timeoutMs: real)
    ensures var cfg := InterpolatingConfig(4, 8, 2, timeoutMs);
            && KR.SoundAlone(cfg, XorKind) && KR.SoundAlone(cfg, RsKind)
            && !KR.SoundAlone(cfg, HeavyKind) && !KR.InputsAlone(cfg, HeavyKind)
  {
    var cfg := InterpolatingConfig(4, 8, 2, timeoutMs);
    hide M.Nested, KR.SoundAlone, KR.InputsAlone, InterpolatingConfig;
    LawfulConfigsExist(4, 8, 2, timeoutMs);
    InterpolatingConfigIsNested(4, 8, 2, timeoutMs);
    DefaultSizes(timeoutMs);
    M.XorAlone(cfg);
    M.RsAlone(cfg);
    M.HeavyAlone(cfg);
  }

  lemma DefaultSizes(timeoutMs: real)
    ensures var cfg := InterpolatingConfig(4, 8, 2, timeoutMs);
            cfg.xorSize == 4 && cfg.rsData == 8 && cfg.rsParity == 2
  {
  }
}
