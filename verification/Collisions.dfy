/** The configurations that Mixing leaves out: for each, a run that recovers a payload nobody sent. */
module Collisions {
  import opened Collections
  import opened Bytes
  import opened GroupStream
  import opened RsFec
  import opened FecEngine
  import opened KindRuns
  import opened Misrouting
  import opened Mixing
  import XF = XorFec
  import XD = XorDecoder
  import RD = RsDecoder
  import CD = CodeDistance
  import W = Witness

  // ---------- one whole group after another ----------

  /** A whole group of one kind, and then one of another. */
  function TwoGroups(first: Kind, ys: seq<bytes>, second: Kind, xs: seq<bytes>): seq<EncEvent> {
    Encodes(ys) + [SetMode(ModeOf(second))] + Encodes(xs)
  }

  lemma {:induction false} RunsConcat(cfg: Config, s: EncState, a: seq<EncEvent>, b: seq<EncEvent>)
    ensures var (t, outs) := EncRun(cfg, s, a);
            var (u, more) := EncRun(cfg, t, b);
            EncRun(cfg, s, a + b) == (u, outs + more)
  {
    hide EncodeStep;
    var (t, outs) := EncRun(cfg, s, a);
    if b == [] {
      assert a + b == a && outs + [] == outs;
    } else {
      var n := |b| - 1;
      RunsConcat(cfg, s, a, b[..n]);
      var (u, more) := EncRun(cfg, t, b[..n]);
      assert forall x: seq<FecOut> {:trigger more + x} :: outs + more + x == outs + (more + x);
      assert a + b == a + b[..n] + [b[n]];
      assert b == b[..n] + [b[n]];
      RunMore(cfg, s, a + b[..n], b[n]);
      RunMore(cfg, EncRun(cfg, s, a).0, b[..n], b[n]);
    }
  }

  lemma {:induction false} OthersUntouched(cfg: Config, kind: Kind, other: Kind, ys: seq<bytes>)
    requires other != kind
    ensures var s := GroupRun(cfg, kind, ys).0; s.mode == ModeOf(kind) && s.Stream(other) == EMPTY
  {
    if ys != [] {
      var n := |ys| - 1;
      OthersUntouched(cfg, kind, other, ys[..n]);
      var es := Encodes(ys);
      assert es[..|es| - 1] == Encodes(ys[..n]);
      StepLeavesOthers(cfg, kind, other, GroupRun(cfg, kind, ys[..n]).0, ys[n]);
    }
  }

  lemma StepLeavesOthers(cfg: Config, kind: Kind, other: Kind, s: EncState, payload: bytes)
    requires other != kind && s.mode == ModeOf(kind)
    ensures var t := EncodeStep(cfg, s, payload, Bulk).0; t.mode == s.mode && t.Stream(other) == s.Stream(other)
  {
  }

  /** Both groups are out, one after the other, each under group id 0. */
  lemma OutsOfTwo(cfg: Config, first: Kind, ys: seq<bytes>, second: Kind, xs: seq<bytes>, i: nat, j: nat)
    requires first != second && |ys| == DataOf(cfg, first) >= 1 && |xs| == DataOf(cfg, second) >= 1
    requires i < |ys| + ParityOf(cfg, first) && j < |xs| + ParityOf(cfg, second)
    ensures var outs := EncRun(cfg, EncInit(ModeOf(first)), TwoGroups(first, ys, second, xs)).1;
            var n := |ys| + ParityOf(cfg, first);
            && |outs| == n + |xs| + ParityOf(cfg, second)
            && outs[i] == PacketOut(cfg, first, ys, i) && outs[n + j] == PacketOut(cfg, second, xs, j)
  {
    hide EncRun, PacketOut, Encodes;
    var s0 := EncInit(ModeOf(first));
    WholeGroupFrom(cfg, first, s0, ys, i);
    OthersUntouched(cfg, first, second, ys);
    RunMore(cfg, s0, Encodes(ys), SetMode(ModeOf(second)));
    var s1 := EncRun(cfg, s0, Encodes(ys) + [SetMode(ModeOf(second))]).0;
    WholeGroupFrom(cfg, second, s1, xs, j);
    RunsConcat(cfg, s0, Encodes(ys) + [SetMode(ModeOf(second))], Encodes(xs));
  }

  lemma BothOut(cfg: Config, first: Kind, ys: seq<bytes>, second: Kind, xs: seq<bytes>, i: nat, j: nat)
    requires first != second && |ys| == DataOf(cfg, first) >= 1 && |xs| == DataOf(cfg, second) >= 1
    requires i < |ys| + ParityOf(cfg, first) && j < |xs| + ParityOf(cfg, second)
    ensures var outs := EncRun(cfg, EncInit(ModeOf(first)), TwoGroups(first, ys, second, xs)).1;
            PacketOut(cfg, first, ys, i) in outs && PacketOut(cfg, second, xs, j) in outs
  {
    hide EncRun, PacketOut, TwoGroups;
    OutsOfTwo(cfg, first, ys, second, xs, i, j);
  }

  lemma {:induction false} InputsConcat(a: seq<EncEvent>, b: seq<EncEvent>)
    ensures Inputs(a + b) == Inputs(a) + Inputs(b)
  {
    if b == [] {
      assert a + b == a;
    } else {
      var n := |b| - 1;
      InputsConcat(a, b[..n]);
      assert (a + b)[..|a + b| - 1] == a + b[..n];
    }
  }

  lemma InputsOfTwo(first: Kind, ys: seq<bytes>, second: Kind, xs: seq<bytes>)
    ensures Inputs(TwoGroups(first, ys, second, xs)) == ys + xs
  {
    InputsConcat(Encodes(ys) + [SetMode(ModeOf(second))], Encodes(xs));
    InputsConcat(Encodes(ys), [SetMode(ModeOf(second))]);
    InputsOfEncodes(ys);
    InputsOfEncodes(xs);
    assert [SetMode(ModeOf(second))][..0] == [];
  }

  // ---------- payloads of three bytes ----------

  const ZERO: bytes := [0, 0, 0]

  /** n zero payloads. */
  function Zeros3(n: nat): (g: seq<bytes>)
    ensures |g| == n && forall i :: 0 <= i < n ==> g[i] == ZERO
  {
    if n == 0 then [] else Zeros3(n - 1) + [ZERO]
  }

  ghost predicate AllThree(g: seq<bytes>) {
    forall i :: 0 <= i < |g| ==> |g[i]| == 3
  }

  lemma ThreeIsInput(g: seq<bytes>, y: bytes)
    requires AllThree(g) && |y| == 3 && PaddedInput(g, y)
    ensures y in g
  {
    var i, n: nat :| 0 <= i < |g| && y == PadTo(g[i], n);
    assert y == g[i];
  }

  lemma XorWithZero(a: bytes)
    requires |a| == 3
    ensures XorBytes(a, ZERO) == a
  {
    forall i | 0 <= i < 3 ensures At(XorBytes(a, ZERO), i) == At(a, i) {
      XorBytesAt(a, ZERO, i);
      XorZero(a[i]);
    }
    SameBytes(XorBytes(a, ZERO), a);
  }

  lemma {:induction false} XorOfSparse(a: bytes, n: nat)
    requires |a| == 3
    ensures XF.XorSeq([a] + Zeros3(n)) == a
  {
    hide XorBytes;
    var g := [a] + Zeros3(n);
    if n == 0 {
      assert g == [a];
      OneIsItsXor(a);
    } else {
      assert g[..n] == [a] + Zeros3(n - 1);
      XorOfSparse(a, n - 1);
      XorWithZero(a);
    }
  }

  lemma XorOfThree()
    ensures XorBytes([0, 1, 0], [1, 0, 0]) == [1, 1, 0]
    ensures XorBytes([0, 0, 1], [1, 1, 0]) == [1, 1, 1]
    ensures XorBytes([1, 0, 0], [0, 1, 0]) == [1, 1, 0]
  {
    XorOfBits();
    forall i | 0 <= i < 3
      ensures At(XorBytes([0, 1, 0], [1, 0, 0]), i) == At([1, 1, 0], i)
      ensures At(XorBytes([0, 0, 1], [1, 1, 0]), i) == At([1, 1, 1], i)
      ensures At(XorBytes([1, 0, 0], [0, 1, 0]), i) == At([1, 1, 0], i)
    {
      XorBytesAt([0, 1, 0], [1, 0, 0], i);
      XorBytesAt([0, 0, 1], [1, 1, 0], i);
      XorBytesAt([1, 0, 0], [0, 1, 0], i);
    }
    SameBytes(XorBytes([0, 1, 0], [1, 0, 0]), [1, 1, 0]);
    SameBytes(XorBytes([0, 0, 1], [1, 1, 0]), [1, 1, 1]);
    SameBytes(XorBytes([1, 0, 0], [0, 1, 0]), [1, 1, 0]);
  }

  // ---------- a Reed-Solomon packet among XOR packets ----------

  /** The group whose first packet intrudes. */
  function Intruders(n: nat): (ys: seq<bytes>)
    requires n >= 1
    ensures |ys| == n
  {
    [[0, 0, 1]] + Zeros3(n - 1)
  }

  /** The XOR group it gets into. */
  function Victims(n: nat): (xs: seq<bytes>)
    requires n >= 2
    ensures |xs| == n
  {
    [[0, 1, 0]] + Zeros3(n - 2) + [[1, 0, 0]]
  }

  /** The first packet of the one group, then all of the other but its first and last. */
  function Mingled(cfg: Config, kind: Kind, m: nat): (got: seq<DecEvent>)
    requires cfg.xorSize >= 2 && DataOf(cfg, kind) >= 1 && m < cfg.xorSize
    ensures |got| == m
  {
    if m == 0 then [] else
      Mingled(cfg, kind, m - 1)
      + [Decode(if m == 1 then PacketOut(cfg, kind, Intruders(DataOf(cfg, kind)), 0)
                else PacketOut(cfg, XorKind, Victims(cfg.xorSize), m - 1), 0.0)]
  }

  lemma XorDecodes(cfg: Config, d: DecState, o: FecOut)
    requires cfg.Dispatch(o.meta.groupSize) == Some(XorKind)
    ensures DecodeStep(cfg, d, o.meta, o.payload, 0.0).0.xor
            == XD.ReceiveStep(cfg.xorSize, d.xor, o.meta.gid, o.meta.index, o.meta.isParity, o.payload, 0.0).0
  {
    hide XD.ReceiveStep;
  }

  /** What the XOR decoder makes of them. */
  function Held(n: nat): (held: seq<bytes>)
    requires n >= 2
    ensures |held| == n - 1
  {
    [[0, 0, 1]] + Zeros3(n - 2)
  }

  lemma MingledMore(cfg: Config, kind: Kind, m: nat)
    requires TakenForXor(cfg, kind) && cfg.xorSize >= 2 && DataOf(cfg, kind) >= 1 && 1 <= m < cfg.xorSize
    ensures Mingled(cfg, kind, m)[..m - 1] == Mingled(cfg, kind, m - 1)
    ensures var ev := Mingled(cfg, kind, m)[m - 1];
            && ev.Decode? && ev.now == 0.0 && ev.out.payload == Held(cfg.xorSize)[m - 1]
            && cfg.Dispatch(ev.out.meta.groupSize) == Some(XorKind)
            && ev.out.meta.gid == 0 && ev.out.meta.index == m - 1 && !ev.out.meta.isParity
  {
    hide ParitySeq;
  }

  lemma PacketsMore(held: seq<bytes>, m: nat)
    requires 1 <= m <= |held|
    ensures Packets(held[..m])[..m - 1] == Packets(held[..m - 1])
  {
    assert held[..m][..m - 1] == held[..m - 1];
  }

  lemma {:induction false} XorSeesMingled(cfg: Config, kind: Kind, m: nat)
    requires TakenForXor(cfg, kind) && cfg.xorSize >= 2 && DataOf(cfg, kind) >= 1 && m < cfg.xorSize
    ensures DecAfter(cfg, Mingled(cfg, kind, m)).xor
            == XD.After(cfg.xorSize, XD.INIT, Packets(Held(cfg.xorSize)[..m]))
  {
    hide XD.ReceiveStep, DecodeStep, Packets, Mingled, Held, TakenForXor;
    var held := Held(cfg.xorSize);
    if m == 0 {
      assert held[..0] == [];
    } else {
      XorSeesMingled(cfg, kind, m - 1);
      var got, es := Mingled(cfg, kind, m), Packets(held[..m]);
      MingledMore(cfg, kind, m);
      PacketsMore(held, m);
      var d, o := DecAfter(cfg, got[..m - 1]), got[m - 1].out;
      XorDecodes(cfg, d, o);
    }
  }

  // ---------- what comes out of the XOR decoder ----------

  lemma SumsOfWitnesses(n: nat)
    requires n >= 2
    ensures XF.XorSeq(Held(n)) == [0, 0, 1] && MaxLen(Held(n)) == 3
    ensures XF.XorSeq(Victims(n)) == [1, 1, 0]
  {
    hide XorBytes;
    XorOfSparse([0, 0, 1], n - 2);
    XorOfSparse([0, 1, 0], n - 2);
    XorOfThree();
    assert Victims(n)[..n - 1] == [[0, 1, 0]] + Zeros3(n - 2);
    W.EqualLengths(Held(n), 3);
  }

  /** Both groups are sent; the first packet of the one is taken for the first of the other. */
  function MinglingTrial(cfg: Config, kind: Kind): Trial
    requires cfg.xorSize >= 2 && DataOf(cfg, kind) >= 1
  {
    var n := cfg.xorSize;
    Trial(ModeOf(kind), TwoGroups(kind, Intruders(DataOf(cfg, kind)), XorKind, Victims(n)), Mingled(cfg, kind, n - 1),
          PacketOut(cfg, XorKind, Victims(n), n), 0.0, (n - 1, [1, 1, 1]))
  }

  lemma VictimParity(cfg: Config)
    requires cfg.xorSize >= 2
    ensures PacketOut(cfg, XorKind, Victims(cfg.xorSize), cfg.xorSize)
            == FecOut([1, 1, 0], Meta(0, cfg.xorSize, cfg.Size(XorKind), true, false))
  {
    SumsOfWitnesses(cfg.xorSize);
  }

  lemma MingledIsRecovered(cfg: Config, kind: Kind)
    requires TakenForXor(cfg, kind) && cfg.xorSize >= 2 && DataOf(cfg, kind) >= 1
    ensures var x := MinglingTrial(cfg, kind);
            x.r in DecodeStep(cfg, DecAfter(cfg, x.got), x.o.meta, x.o.payload, x.now).1
  {
    hide Mingled, Held, Victims, Intruders, PacketOut, DecAfter, Packets, XF.XorSeq, MaxLen;
    hide XD.ReceiveStep, TwoGroups, DecodeStep, TakenForXor;
    var n := cfg.xorSize;
    VictimParity(cfg);
    SumsOfWitnesses(n);
    XorOfThree();
    XorSeesMingled(cfg, kind, n - 1);
    assert Held(n)[..n - 1] == Held(n);
    LeftoverIsReceived(n, Held(n), [1, 1, 0]);
    var d, o := DecAfter(cfg, Mingled(cfg, kind, n - 1)), PacketOut(cfg, XorKind, Victims(n), n);
    var (s, r) := XD.ReceiveStep(n, d.xor, 0, n, true, [1, 1, 0], 0.0);
    DecodeStepXor(cfg, d, o.meta, o.payload, 0.0, s, r);
  }

  lemma {:induction false} MingledWereSent(cfg: Config, kind: Kind, m: nat)
    requires kind != XorKind && cfg.xorSize >= 2 && DataOf(cfg, kind) >= 1 && m < cfg.xorSize
    ensures var outs := EncRun(cfg, EncInit(ModeOf(kind)),
                               TwoGroups(kind, Intruders(DataOf(cfg, kind)), XorKind, Victims(cfg.xorSize))).1;
            forall ev :: ev in Mingled(cfg, kind, m) && ev.Decode? ==> ev.out in outs
  {
    hide PacketOut, EncRun, TwoGroups;
    if m != 0 {
      MingledWereSent(cfg, kind, m - 1);
      BothOut(cfg, kind, Intruders(DataOf(cfg, kind)), XorKind, Victims(cfg.xorSize), 0, m - 1);
    }
  }

  lemma MinglingOccurs(cfg: Config, kind: Kind)
    requires TakenForXor(cfg, kind) && cfg.xorSize >= 2 && DataOf(cfg, kind) >= 1
    ensures Occurs(cfg, MinglingTrial(cfg, kind))
  {
    hide PacketOut, EncRun, TwoGroups, Mingled, DecodeStep, DecAfter, Victims, Intruders;
    MingledIsRecovered(cfg, kind);
    MingledWereSent(cfg, kind, cfg.xorSize - 1);
    BothOut(cfg, kind, Intruders(DataOf(cfg, kind)), XorKind, Victims(cfg.xorSize), 0, cfg.xorSize);
  }

  /** Something that was never sent is recovered. */
  ghost predicate Fails(cfg: Config, x: Trial) {
    Occurs(cfg, x) && !PaddedInput(Inputs(x.sent), x.r.1)
  }

  /** A byte string of three bytes that is none of the payloads of the two groups. */
  lemma NoInput(cfg: Config, x: Trial, first: Kind, ys: seq<bytes>, second: Kind, xs: seq<bytes>)
    requires Occurs(cfg, x) && x.sent == TwoGroups(first, ys, second, xs)
    requires AllThree(ys + xs) && |x.r.1| == 3 && x.r.1 !in ys && x.r.1 !in xs
    ensures Fails(cfg, x)
  {
    hide Occurs, PaddedInput, TwoGroups;
    InputsOfTwo(first, ys, second, xs);
    if PaddedInput(Inputs(x.sent), x.r.1) { ThreeIsInput(ys + xs, x.r.1); }
  }

  lemma MinglingFails(cfg: Config, kind: Kind)
    requires TakenForXor(cfg, kind) && cfg.xorSize >= 2 && DataOf(cfg, kind) >= 1
    ensures Fails(cfg, MinglingTrial(cfg, kind))
  {
    hide Occurs, TwoGroups, Fails, Mingled, PacketOut;
    MinglingOccurs(cfg, kind);
    NoInput(cfg, MinglingTrial(cfg, kind), kind, Intruders(DataOf(cfg, kind)), XorKind, Victims(cfg.xorSize));
  }

  // ---------- XOR groups of one, normal groups of two without parity ----------

  /** The second packet of the pair, then the parity of the group of one. */
  function PairTrial(cfg: Config): Trial
    requires cfg.xorSize == 1
  {
    var ys, xs := [ZERO, [0, 1, 0]], [[1, 0, 0]];
    Trial(ReedSolomon, TwoGroups(RsKind, ys, XorKind, xs), [Decode(PacketOut(cfg, RsKind, ys, 1), 0.0)],
          PacketOut(cfg, XorKind, xs, 1), 0.0, (0, [1, 1, 0]))
  }

  lemma PairIsHeld(cfg: Config)
    requires cfg.xorSize == 1 && cfg.rsData == 2 && cfg.rsParity == 0
    ensures var s := DecAfter(cfg, PairTrial(cfg).got).xor;
            s.Received(0) == map[1 := [0, 1, 0]] && s.delivered == {}
  {
  }

  lemma PairLeaves(received: map<nat, bytes>)
    requires received == map[1 := [0, 1, 0]]
    ensures XF.Missing(1, received.Keys) == {0}
    ensures XF.XorOver(received, received.Keys - {0}) == [0, 1, 0]
  {
    hide XorBytes;
    assert received.Keys - {0} == {1} && {1} - {1} == {};
    XF.XorOverTake(received, {1}, 1);
    OneIsItsXor([0, 1, 0]);
    XorBytesUnit([0, 1, 0]);
  }

  lemma PairComesOut(s: XD.State)
    requires s.Received(0) == map[1 := [0, 1, 0]] && s.delivered == {}
    ensures XD.ReceiveStep(1, s, 0, 1, true, [1, 0, 0], 0.0).1 == Some((0, [1, 1, 0]))
  {
    hide XorBytes, XF.XorOver, XF.Missing;
    var t := XD.Store(s, 0, 1, true, [1, 0, 0], 0.0);
    assert t.Received(0) == map[1 := [0, 1, 0]];
    PairLeaves(t.Received(0));
    XorOfThree();
  }

  lemma PairIsRecovered(cfg: Config)
    requires cfg.xorSize == 1 && cfg.rsData == 2 && cfg.rsParity == 0
    ensures var x := PairTrial(cfg);
            x.r in DecodeStep(cfg, DecAfter(cfg, x.got), x.o.meta, x.o.payload, x.now).1
  {
    var x := PairTrial(cfg);
    OneIsItsXor([1, 0, 0]);
    assert x.o == FecOut([1, 0, 0], Meta(0, 1, 2, true, false));
    hide PacketOut, XD.ReceiveStep, DecodeStep, DecAfter, TwoGroups, XF.XorSeq;
    PairIsHeld(cfg);
    var d := DecAfter(cfg, x.got);
    PairComesOut(d.xor);
    var (s, r) := XD.ReceiveStep(1, d.xor, 0, 1, true, [1, 0, 0], 0.0);
    DecodeStepXor(cfg, d, x.o.meta, x.o.payload, 0.0, s, r);
  }

  lemma PairFails(cfg: Config)
    requires cfg.xorSize == 1 && cfg.rsData == 2 && cfg.rsParity == 0
    ensures Fails(cfg, PairTrial(cfg))
  {
    hide EncRun, TwoGroups, Fails, PacketOut, DecodeStep, DecAfter;
    var ys, xs := [ZERO, [0, 1, 0]], [[1, 0, 0]];
    PairIsRecovered(cfg);
    BothOut(cfg, RsKind, ys, XorKind, xs, 1, 1);
    NoInput(cfg, PairTrial(cfg), RsKind, ys, XorKind, xs);
  }

  // ---------- a heavy packet among normal packets ----------

  /** The normal group that the first packet of a heavy group gets into. */
  function Hosts(k: nat): (xs: seq<bytes>)
    requires k >= 1
    ensures |xs| == k && forall i :: 0 <= i < k ==> xs[i] == if i < k - 1 then ZERO else [0, 1, 0]
  {
    Zeros3(k - 1) + [[0, 1, 0]]
  }

  function Guests(n: nat): (ys: seq<bytes>)
    requires n >= 1
    ensures |ys| == n && forall i :: 0 <= i < n ==> ys[i] == if i == 0 then [1, 0, 0] else ZERO
  {
    [[1, 0, 0]] + Zeros3(n - 1)
  }

  /** The first packet of the heavy group, then all of the normal one but its first and last. */
  function Visited(cfg: Config, m: nat): (got: seq<DecEvent>)
    requires cfg.rsData >= 2 && m < cfg.rsData
    ensures |got| == m
  {
    if m == 0 then [] else
      Visited(cfg, m - 1)
      + [Decode(if m == 1 then PacketOut(cfg, HeavyKind, Guests(cfg.HeavyData()), 0)
                else PacketOut(cfg, RsKind, Hosts(cfg.rsData), m - 1), 0.0)]
  }

  lemma VisitedMore(cfg: Config, m: nat)
    requires HeavyTakenForNormal(cfg) && cfg.rsData >= 2 && 1 <= m < cfg.rsData
    ensures Visited(cfg, m)[..m - 1] == Visited(cfg, m - 1)
    ensures var ev := Visited(cfg, m)[m - 1];
            && ev.Decode? && ev.now == 0.0 && ev.out.payload == (if m == 1 then [1, 0, 0] else ZERO)
            && cfg.Dispatch(ev.out.meta.groupSize) == Some(RsKind)
            && ev.out.meta.gid == 0 && ev.out.meta.index == m - 1
  {
    hide ParitySeq;
  }

  /** The first m shards of group 0 are held: one odd payload, the others zero. */
  ghost predicate HoldsFirst(s: RD.State, m: nat) {
    && s.delivered == {}
    && s.Received(0).Keys == Range(0, m)
    && forall i :: 0 <= i < m ==> s.Received(0)[i] == if i == 0 then [1, 0, 0] else ZERO
  }

  lemma TooFewHeld(c: Codec, k: nat, p: nat, s: RD.State, m: nat)
    requires HoldsFirst(s, m) && m + 1 < k
    ensures HoldsFirst(RD.ReceiveStep(c, k, p, s, 0, m, if m == 0 then [1, 0, 0] else ZERO, 0.0).0, m + 1)
  {
    hide Decoded, SortedSeq;
    var t := RD.Store(s, 0, m, if m == 0 then [1, 0, 0] else ZERO, 0.0);
    OneMoreHeld(s, m);
    assert |t.Received(0).Keys| == |t.Received(0)|;
  }

  lemma OneMoreHeld(s: RD.State, m: nat)
    requires HoldsFirst(s, m)
    ensures HoldsFirst(RD.Store(s, 0, m, if m == 0 then [1, 0, 0] else ZERO, 0.0), m + 1)
  {
    hide RD.Store, RD.State.Received, Range;
    var x := if m == 0 then [1, 0, 0] else ZERO;
    StoredInOrder(s, m, x);
    OneMoreInRange(m);
  }

  lemma StoredInOrder(s: RD.State, m: nat, x: bytes)
    ensures var t := RD.Store(s, 0, m, x, 0.0);
            t.delivered == s.delivered && t.Received(0) == s.Received(0)[m := x]
  {
  }

  lemma VisitDecodes(cfg: Config, d: DecState, o: FecOut)
    requires cfg.Dispatch(o.meta.groupSize) == Some(RsKind)
    ensures DecodeStep(cfg, d, o.meta, o.payload, 0.0).0.rs
            == RD.ReceiveStep(cfg.rsCodec, cfg.rsData, cfg.rsParity, d.rs, o.meta.gid, o.meta.index, o.payload, 0.0).0
  {
    hide RD.ReceiveStep;
  }

  lemma {:induction false} NormalSeesVisited(cfg: Config, m: nat)
    requires HeavyTakenForNormal(cfg) && cfg.rsData >= 2 && m < cfg.rsData
    ensures HoldsFirst(DecAfter(cfg, Visited(cfg, m)).rs, m)
  {
    hide RD.ReceiveStep, DecodeStep, Visited, HeavyTakenForNormal, HoldsFirst;
    if m == 0 {
      NothingVisited(cfg);
    } else {
      NormalSeesVisited(cfg, m - 1);
      var got := Visited(cfg, m);
      VisitedMore(cfg, m);
      var d, o := DecAfter(cfg, got[..m - 1]), got[m - 1].out;
      TooFewHeld(cfg.rsCodec, cfg.rsData, cfg.rsParity, d.rs, m - 1);
      VisitDecodes(cfg, d, o);
    }
  }

  lemma NothingVisited(cfg: Config)
    requires cfg.rsData >= 2
    ensures HoldsFirst(DecAfter(cfg, Visited(cfg, 0)).rs, 0)
  {
  }

  /** The shards once the normal parity has come. */
  function Visitors(k: nat, parity: bytes): map<nat, bytes> {
    var present := Range(0, k + 1) - {k - 1};
    map i | i in present :: if i == 0 then [1, 0, 0] else if i < k then ZERO else parity
  }

  lemma VisitorKeys(k: nat, p: nat, parity: bytes)
    requires k >= 2 && p >= 1
    ensures var present := Visitors(k, parity).Keys;
            && present == Range(0, k + 1) - {k - 1} <= Range(0, k + p) && |present| == k
            && |Range(0, k + p) - present| == p
  {
    var present := Visitors(k, parity).Keys;
    assert present == Range(0, k + 1) - {k - 1};
    assert Range(0, k + p) == (Range(0, k + p) - present) + present;
  }

  lemma VisitorLengths(k: nat, parity: bytes)
    requires k >= 2 && |parity| == 3
    ensures Visitors(k, parity) != map[] && MaxBlock(Visitors(k, parity)) == 3
  {
    var shards := Visitors(k, parity);
    assert 0 in shards && |shards[0]| == 3;
    MaxBlockUnique(shards, 3);
  }

  lemma KeysAreMany(m: map<nat, bytes>)
    ensures |m.Keys| == |m|
  {
  }

  lemma OnlyLastMissing(k: nat)
    requires k >= 1
    ensures SortedSeq(RD.MissingData(k, Range(0, k + 1) - {k - 1})) == [k - 1]
  {
    var m := RD.MissingData(k, Range(0, k + 1) - {k - 1});
    assert m == {k - 1};
    var q := SortedSeq(m);
    assert |q| == 1 && q[0] in m;
  }

  lemma HostColumns(k: nat)
    requires k >= 2
    ensures MaxLen(Hosts(k)) == 3
    ensures Column(Hosts(k), 0) == W.Zero(k) && Column(Hosts(k), 1) == W.Unit(k, k - 1)
  {
    W.EqualLengths(Hosts(k), 3);
    forall i | 0 <= i < k
      ensures Column(Hosts(k), 0)[i] == W.Zero(k)[i] && Column(Hosts(k), 1)[i] == W.Unit(k, k - 1)[i]
    {
      ColumnAt(Hosts(k), 0, i);
      ColumnAt(Hosts(k), 1, i);
    }
  }

  /** The first parity of the normal group, byte by byte. */
  lemma HostParity(c: Codec, k: nat, p: nat)
    requires Systematic(c, k, p) && k >= 2 && p >= 1
    ensures |ParityBlock(c, Hosts(k), 0)| == 3
    ensures At(ParityBlock(c, Hosts(k), 0), 0) == At(c.enc(W.Zero(k)), k)
    ensures At(ParityBlock(c, Hosts(k), 0), 1) == At(c.enc(W.Unit(k, k - 1)), k)
  {
    hide Column, Hosts, MaxLen;
    HostColumns(k);
    ParityBytesAt(c, Hosts(k), 0, 3, 0);
    ParityBytesAt(c, Hosts(k), 0, 3, 1);
  }

  /** The first byte decoded for the missing packet is not zero: the normal group's would be. */
  lemma FirstByte(c: Codec, k: nat, p: nat)
    requires Lawful(c, k, p) && k >= 2 && p >= 1
    ensures DecodedByte(c, k + p, Visitors(k, ParityBlock(c, Hosts(k), 0)), k - 1, 0) != 0
  {
    hide Lawful, Systematic, ParityBlock, Hosts, Visitors, Range, Codeword, Erase;
    var parity := ParityBlock(c, Hosts(k), 0);
    var shards := Visitors(k, parity);
    var e, w := Range(0, k + p) - shards.Keys, Codeword(k + p, shards, 0);
    W.LawfulIsSystematic(c, k, p);
    HostParity(c, k, p);
    VisitorKeys(k, p, parity);
    ZeroWhereErased(k + p, shards, e);
    CD.AnyWordDecodes(c, k, p, w, e);
    FirstByteMoves(c, k, p, shards, c.dec(w, e).value, w, e);
  }

  lemma ZeroWhereErased(total: nat, shards: map<nat, bytes>, e: set<nat>)
    requires e == Range(0, total) - shards.Keys
    ensures forall i :: i in e ==> i < total && Codeword(total, shards, 0)[i] == 0
  {
    hide Codeword;
    forall i | i in e ensures i < total && Codeword(total, shards, 0)[i] == 0 { CodewordAt(total, shards, 0, i); }
  }

  /** The first bytes of the shards. */
  function VisitingByte(c: Codec, k: nat, i: nat): byte {
    if i == 0 then 1 else if i < k then 0 else At(c.enc(W.Zero(k)), k)
  }

  lemma VisitorByte(c: Codec, k: nat, i: nat)
    requires k >= 2 && i <= k && i != k - 1
    requires At(ParityBlock(c, Hosts(k), 0), 0) == At(c.enc(W.Zero(k)), k)
    ensures var shards := Visitors(k, ParityBlock(c, Hosts(k), 0));
            i in shards && At(shards[i], 0) == VisitingByte(c, k, i)
  {
    hide ParityBlock, Hosts;
  }

  lemma FirstByteMoves(c: Codec, k: nat, p: nat, shards: map<nat, bytes>, v: bytes, w: bytes, e: set<nat>)
    requires Lawful(c, k, p) && k >= 2 && p >= 1 && |v| == k
    requires |ParityBlock(c, Hosts(k), 0)| == 3 && At(ParityBlock(c, Hosts(k), 0), 0) == At(c.enc(W.Zero(k)), k)
    requires shards == Visitors(k, ParityBlock(c, Hosts(k), 0)) && w == Codeword(k + p, shards, 0)
    requires e == Range(0, k + p) - shards.Keys && Erase(c.enc(v), e) == w
    ensures v[k - 1] != 0
  {
    hide Lawful, ParityBlock, Hosts, Visitors, Erase, Codeword;
    W.LawfulIsSystematic(c, k, p);
    SystematicAt(c, p, v);
    forall i | 0 <= i <= k && i != k - 1 ensures c.enc(v)[i] == VisitingByte(c, k, i) {
      VisitorByte(c, k, i);
      EraseAt(c.enc(v), e, i);
      CodewordAt(k + p, shards, 0, i);
    }
    if v[k - 1] == 0 {
      assert v == W.Unit(k, 0) && W.Unit(k, 0)[0] == 1;
      CD.ParityDiffers(c, k, p, 0, W.Zero(k), W.Unit(k, 0), 0);
    }
  }

  lemma VisitorSecond(c: Codec, k: nat, i: nat)
    requires k >= 2 && i in Visitors(k, ParityBlock(c, Hosts(k), 0))
    requires At(ParityBlock(c, Hosts(k), 0), 1) == At(c.enc(W.Unit(k, k - 1)), k)
    ensures i <= k && i != k - 1
    ensures At(Visitors(k, ParityBlock(c, Hosts(k), 0))[i], 1)
            == if i < k then W.Unit(k, k - 1)[i] else At(c.enc(W.Unit(k, k - 1)), k)
  {
    hide ParityBlock, Hosts;
  }

  lemma SecondColumn(c: Codec, k: nat, p: nat)
    requires Systematic(c, k, p) && k >= 2 && p >= 1
    ensures var shards := Visitors(k, ParityBlock(c, Hosts(k), 0));
            Codeword(k + p, shards, 1) == Erase(c.enc(W.Unit(k, k - 1)), Range(0, k + p) - shards.Keys)
  {
    hide ParityBlock, Hosts, Visitors, Systematic, Codeword, Erase, Range, W.Unit;
    var shards, u := Visitors(k, ParityBlock(c, Hosts(k), 0)), W.Unit(k, k - 1);
    SystematicAt(c, p, u);
    HostParity(c, k, p);
    forall j | 0 <= j < k + p && j in shards ensures At(shards[j], 1) == c.enc(u)[j] {
      VisitorSecond(c, k, j);
    }
    CodewordIs(k + p, shards, 1, c.enc(u));
  }

  /** The second byte decoded for it is that of the normal group. */
  lemma SecondByte(c: Codec, k: nat, p: nat)
    requires Lawful(c, k, p) && k >= 2 && p >= 1
    ensures DecodedByte(c, k + p, Visitors(k, ParityBlock(c, Hosts(k), 0)), k - 1, 1) == 1
  {
    hide ParityBlock, Hosts, Visitors, Lawful, Systematic, Codeword, Erase;
    var shards, u := Visitors(k, ParityBlock(c, Hosts(k), 0)), W.Unit(k, k - 1);
    W.LawfulIsSystematic(c, k, p);
    SecondColumn(c, k, p);
    VisitorKeys(k, p, ParityBlock(c, Hosts(k), 0));
    LawfulAt(c, k, p, u, Range(0, k + p) - shards.Keys);
  }

  /** Three bytes unlike those of any payload of the two groups. */
  predicate Strange(y: bytes) {
    |y| == 3 && y[0] != 0 && y[1] == 1
  }

  lemma ThreeBytes(c: Codec, total: nat, shards: map<nat, bytes>, r: nat)
    ensures DecodedBytes(c, total, shards, r, 3)
            == [DecodedByte(c, total, shards, r, 0), DecodedByte(c, total, shards, r, 1),
                DecodedByte(c, total, shards, r, 2)]
  {
    hide DecodedByte;
    assert DecodedBytes(c, total, shards, r, 1) == [DecodedByte(c, total, shards, r, 0)];
  }

  /** What comes out for the last packet: neither group has a payload like it. */
  lemma StrangerDecoded(c: Codec, k: nat, p: nat)
    requires Lawful(c, k, p) && k >= 2 && p >= 1
    ensures var d := Decoded(c, k, p, Visitors(k, ParityBlock(c, Hosts(k), 0)));
            d.Ok? && |d.value| == k && Strange(d.value[k - 1])
  {
    hide ParityBlock, Hosts, Visitors, AllDecodable, Lawful, Systematic, Range;
    hide DecodedByte, DecodedBytes, DecodedBlocks;
    var parity := ParityBlock(c, Hosts(k), 0);
    var shards := Visitors(k, parity);
    W.LawfulIsSystematic(c, k, p);
    HostParity(c, k, p);
    VisitorKeys(k, p, parity);
    VisitorLengths(k, parity);
    KeysAreMany(shards);
    CD.AnyKShardsDecode(c, k, p, shards);
    StrangerBytes(c, k, p, shards);
    DecodedBlocksAt(c, k + p, shards, k, 3, k - 1);
  }

  lemma StrangerBytes(c: Codec, k: nat, p: nat, shards: map<nat, bytes>)
    requires Lawful(c, k, p) && k >= 2 && p >= 1 && shards == Visitors(k, ParityBlock(c, Hosts(k), 0))
    ensures Strange(DecodedBytes(c, k + p, shards, k - 1, 3))
  {
    hide ParityBlock, Hosts, Visitors, DecodedByte, Lawful, DecodedBytes;
    FirstByte(c, k, p);
    SecondByte(c, k, p);
    ThreeBytes(c, k + p, shards, k - 1);
  }

  lemma StoredAreVisitors(s: RD.State, k: nat, parity: bytes)
    requires k >= 2 && HoldsFirst(s, k - 1)
    ensures RD.Store(s, 0, k, parity, 0.0).Received(0) == Visitors(k, parity)
  {
    hide RD.Store, RD.State.Received, Visitors, Range;
    StoredInOrder(s, k, parity);
    var t := s.Received(0)[k := parity];
    forall i: nat ensures i in t <==> i in Visitors(k, parity)
                  ensures i in t ==> t[i] == Visitors(k, parity)[i]
    {
      OneVisitor(k, parity, i);
      OneHeld(k, i);
    }
  }

  lemma OneVisitor(k: nat, parity: bytes, i: nat)
    requires k >= 2
    ensures i in Visitors(k, parity) <==> i <= k && i != k - 1
    ensures i in Visitors(k, parity) ==>
              Visitors(k, parity)[i] == if i == 0 then [1, 0, 0] else if i < k then ZERO else parity
  {
  }

  lemma OneHeld(k: nat, i: nat)
    requires k >= 2
    ensures i in Range(0, k - 1) <==> i < k - 1
  {
  }

  lemma OneMissing(c: Codec, k: nat, p: nat, s: RD.State)
    requires |s.Received(0)| == k && RD.MissingData(k, s.Received(0).Keys) != {}
    requires SortedSeq(RD.MissingData(k, s.Received(0).Keys)) == [k - 1]
    requires var d := Decoded(c, k, p, s.Received(0)); d.Ok? && |d.value| == k
    ensures RD.TryRecoverStep(c, k, p, s, 0).1 == [(k - 1, Decoded(c, k, p, s.Received(0)).value[k - 1])]
  {
    hide Decoded, SortedSeq, RD.MissingData, RD.Finished;
  }

  lemma StrangerComesOut(c: Codec, k: nat, p: nat, s: RD.State)
    requires Lawful(c, k, p) && k >= 2 && p >= 1 && HoldsFirst(s, k - 1)
    ensures var r := RD.ReceiveStep(c, k, p, s, 0, k, ParityBlock(c, Hosts(k), 0), 0.0).1;
            |r| == 1 && Strange(r[0].1)
  {
    hide ParityBlock, Hosts, Visitors, Lawful, Decoded, SortedSeq, RD.MissingData, RD.TryRecoverStep, RD.Store;
    var parity := ParityBlock(c, Hosts(k), 0);
    VisitorKeys(k, p, parity);
    KeysAreMany(Visitors(k, parity));
    OnlyLastMissing(k);
    StrangerDecoded(c, k, p);
    StoredAreVisitors(s, k, parity);
    OneMissing(c, k, p, RD.Store(s, 0, k, parity, 0.0));
  }

  lemma HostParityOut(cfg: Config)
    requires cfg.rsData >= 2 && cfg.rsParity >= 1
    ensures PacketOut(cfg, RsKind, Hosts(cfg.rsData), cfg.rsData)
            == FecOut(ParityBlock(cfg.rsCodec, Hosts(cfg.rsData), 0),
                      Meta(0, cfg.rsData, cfg.Size(RsKind), true, false))
  {
    ParityBlocksAt(cfg.rsCodec, cfg.rsParity, Hosts(cfg.rsData), 0);
  }

  /** What the normal decoder makes of it. */
  ghost function Strangers(cfg: Config): RD.Recoveries
    requires cfg.rsData >= 2 && cfg.rsParity >= 1
  {
    var o := PacketOut(cfg, RsKind, Hosts(cfg.rsData), cfg.rsData);
    DecodeStep(cfg, DecAfter(cfg, Visited(cfg, cfg.rsData - 1)), o.meta, o.payload, 0.0).1
  }

  lemma StrangersAre(cfg: Config)
    requires cfg.LawfulCodes() && HeavyTakenForNormal(cfg) && cfg.rsParity >= 1
    ensures cfg.rsData >= 2
    ensures var r := Strangers(cfg); |r| == 1 && Strange(r[0].1)
  {
    hide Lawful, RD.ReceiveStep, Visited, PacketOut, DecodeStep, DecAfter, ParityBlock, Hosts, HoldsFirst;
    var k := cfg.rsData;
    HeavyTakenForNormalWhen(cfg);
    HostParityOut(cfg);
    NormalSeesVisited(cfg, k - 1);
    var d, o := DecAfter(cfg, Visited(cfg, k - 1)), PacketOut(cfg, RsKind, Hosts(k), k);
    StrangerComesOut(cfg.rsCodec, k, cfg.rsParity, d.rs);
    var (s, r) := RD.ReceiveStep(cfg.rsCodec, k, cfg.rsParity, d.rs, 0, k, o.payload, 0.0);
    DecodeStepRs(cfg, d, o.meta, o.payload, 0.0, s, r);
  }

  lemma {:induction false} VisitedWereSent(cfg: Config, m: nat)
    requires cfg.rsData >= 2 && m < cfg.rsData
    ensures var outs := EncRun(cfg, EncInit(ReedSolomonHeavy),
                               TwoGroups(HeavyKind, Guests(cfg.HeavyData()), RsKind, Hosts(cfg.rsData))).1;
            forall ev :: ev in Visited(cfg, m) && ev.Decode? ==> ev.out in outs
  {
    hide PacketOut, EncRun, TwoGroups;
    if m != 0 {
      VisitedWereSent(cfg, m - 1);
      BothOut(cfg, HeavyKind, Guests(cfg.HeavyData()), RsKind, Hosts(cfg.rsData), 0, m - 1);
    }
  }

  /** Both groups are sent; the first packet of the heavy one is taken for the first of the normal one. */
  ghost function StrangerTrial(cfg: Config): Trial
    requires cfg.rsData >= 2 && cfg.rsParity >= 1 && Strangers(cfg) != []
  {
    var k, ys, xs := cfg.rsData, Guests(cfg.HeavyData()), Hosts(cfg.rsData);
    Trial(ReedSolomonHeavy, TwoGroups(HeavyKind, ys, RsKind, xs), Visited(cfg, k - 1),
          PacketOut(cfg, RsKind, xs, k), 0.0, Strangers(cfg)[0])
  }

  lemma StrangerFails(cfg: Config)
    requires cfg.LawfulCodes() && HeavyTakenForNormal(cfg) && cfg.rsParity >= 1
    ensures cfg.rsData >= 2 && Strangers(cfg) != [] && Fails(cfg, StrangerTrial(cfg))
  {
    hide Lawful, EncRun, TwoGroups, Visited, PacketOut, DecodeStep, DecAfter, Fails;
    StrangersAre(cfg);
    var k, ys, xs := cfg.rsData, Guests(cfg.HeavyData()), Hosts(cfg.rsData);
    VisitedWereSent(cfg, k - 1);
    BothOut(cfg, HeavyKind, ys, RsKind, xs, 0, k);
    NoInput(cfg, StrangerTrial(cfg), HeavyKind, ys, RsKind, xs);
  }

  // ---------- exactly when recovery is right ----------

  /** The one parity of a normal group of one packet is not that packet, and the XOR decoder takes it for one. */
  ghost function AloneTrial(cfg: Config): Trial
    requires cfg.rsData == 1 && cfg.rsParity == 1 && !XorParity(cfg.rsCodec, 1)
  {
    LeftoverTrial(cfg, RsKind, W.Group(NotXorWord(cfg.rsCodec, 1)))
  }

  lemma AloneFails(cfg: Config)
    requires cfg.LawfulCodes() && TakenForXor(cfg, RsKind)
    requires cfg.rsData == 1 && cfg.rsParity == 1 && !XorParity(cfg.rsCodec, 1)
    ensures Fails(cfg, AloneTrial(cfg))
  {
    hide Lawful, XorParity, LeftoverTrial, Occurs, W.Group, PaddedInput;
    LeftoverIsNoPayload(cfg, RsKind, NotXorWord(cfg.rsCodec, 1));
  }

  /** A run on which a configuration fails that does not tell the kinds apart. */
  ghost function Collision(cfg: Config): Trial
    requires cfg.LawfulCodes() && !TellsApart(cfg)
  {
    hide Lawful, XorParity;
    if TakenForXor(cfg, RsKind) && cfg.xorSize >= 2 then MinglingTrial(cfg, RsKind)
    else if TakenForXor(cfg, RsKind) && cfg.rsParity == 0 then PairTrial(cfg)
    else if TakenForXor(cfg, RsKind) && !OnlyCopies(cfg) then AloneTrial(cfg)
    else if TakenForXor(cfg, HeavyKind) then MinglingTrial(cfg, HeavyKind)
    else
      StrangerFails(cfg);
      StrangerTrial(cfg)
  }

  lemma CollisionFails(cfg: Config)
    requires cfg.LawfulCodes() && !TellsApart(cfg)
    ensures Fails(cfg, Collision(cfg))
  {
    hide Lawful, XorParity, MinglingTrial, PairTrial, AloneTrial, StrangerTrial, Fails;
    if TakenForXor(cfg, RsKind) && cfg.xorSize >= 2 {
      MinglingFails(cfg, RsKind);
    } else if TakenForXor(cfg, RsKind) && cfg.rsParity == 0 {
      PairFails(cfg);
    } else if TakenForXor(cfg, RsKind) && !OnlyCopies(cfg) {
      AloneFails(cfg);
    } else if TakenForXor(cfg, HeavyKind) {
      MinglingFails(cfg, HeavyKind);
    } else {
      StrangerFails(cfg);
    }
  }

  /**
   Whatever modes, tiers, losses and repetitions occur, every recovered payload is a padded input if and only if the
   sizes tell the kinds apart where it matters.
   */
  lemma MixedExactly(cfg: Config)
    requires cfg.LawfulCodes()
    ensures InputsMixed(cfg) <==> TellsApart(cfg)
  {
    hide Lawful, OnlyCopies, Occurs, PaddedInput;
    if TellsApart(cfg) {
      TellingApartSuffices(cfg);
    } else {
      CollisionFails(cfg);
      assert Occurs(cfg, Collision(cfg));
    }
  }

  // ---------- exactly when recoveries are what they are called ----------

  /** Whatever is sent, every recovery is the padded original of the group and index it names. */
  ghost predicate SoundMixed(cfg: Config) {
    forall x: Trial :: Occurs(cfg, x) ==> Sound(cfg, EncRun(cfg, EncInit(x.mode), x.sent).0, x.o.meta, x.r)
  }

  /** Packets find the decoder of their kind, or one that never recovers. */
  predicate NamesApart(cfg: Config) {
    && cfg.Routed(RsKind)
    && !TakenForXor(cfg, HeavyKind)
    && (HeavyTakenForNormal(cfg) ==> cfg.rsParity == 0)
  }

  lemma SoundIsInput(cfg: Config, x: Trial)
    requires cfg.xorSize >= 1 && cfg.rsData >= 1
    requires Sound(cfg, EncRun(cfg, EncInit(x.mode), x.sent).0, x.o.meta, x.r)
    ensures PaddedInput(Inputs(x.sent), x.r.1)
  {
    hide EncRun, PaddedOriginal, PaddedInput, AllDraw, OfSomeKind;
    MixedRun(cfg, x.mode, x.sent);
    var t := EncRun(cfg, EncInit(x.mode), x.sent).0;
    var kind := cfg.Dispatch(x.o.meta.groupSize).value;
    StreamsDraw(t, kind, Inputs(x.sent));
    OriginalIsInput(t.Stream(kind), Inputs(x.sent), x.o.meta.gid, x.r);
  }

  /** A normal group of one packet, of which only the copy arrives, at the XOR decoder. */
  function CopyTrial(cfg: Config): Trial
    requires cfg.rsData == 1 && cfg.rsParity == 1
  {
    Trial(ReedSolomon, Encodes([ZERO]), [], PacketOut(cfg, RsKind, [ZERO], 1), 0.0, (0, ZERO))
  }

  lemma CopyComesOut(s: XD.State)
    requires s.Received(0) == map[] && s.delivered == {}
    ensures XD.ReceiveStep(1, s, 0, 1, true, ZERO, 0.0).1 == Some((0, ZERO))
  {
    hide XorBytes;
    var t := XD.Store(s, 0, 1, true, ZERO, 0.0);
    assert t.Received(0) == map[];
    assert XF.Missing(1, t.Received(0).Keys) == {0} && t.Received(0).Keys - {0} == {};
    XorBytesUnit(ZERO);
  }

  lemma CopyOut(cfg: Config)
    requires OnlyCopies(cfg)
    ensures PacketOut(cfg, RsKind, [ZERO], 1) == FecOut(ZERO, Meta(0, 1, 2, true, false))
  {
    ParityBlocksAt(cfg.rsCodec, 1, [ZERO], 0);
    XorParityBlock(cfg.rsCodec, [ZERO]);
    OneIsItsXor(ZERO);
  }

  /** What comes out names an XOR group, and there is none. */
  lemma CopyIsMisnamed(cfg: Config)
    requires OnlyCopies(cfg)
    ensures Occurs(cfg, CopyTrial(cfg))
    ensures var x := CopyTrial(cfg); !Sound(cfg, EncRun(cfg, EncInit(x.mode), x.sent).0, x.o.meta, x.r)
  {
    CopyOut(cfg);
    hide PacketOut, XD.ReceiveStep, DecodeStep, EncRun, XorParity, Encodes;
    var x := CopyTrial(cfg);
    WholeGroupFrom(cfg, RsKind, EncInit(ReedSolomon), [ZERO], 1);
    OthersUntouched(cfg, RsKind, XorKind, [ZERO]);
    var (s, r) := XD.ReceiveStep(1, DEC_INIT.xor, 0, 1, true, ZERO, 0.0);
    CopyComesOut(DEC_INIT.xor);
    DecodeStepXor(cfg, DEC_INIT, x.o.meta, x.o.payload, 0.0, s, r);
  }

  /** A run with a recovery that is not what it is called. */
  ghost function Misnaming(cfg: Config): Trial
    requires cfg.LawfulCodes() && !NamesApart(cfg)
  {
    hide Lawful, XorParity;
    if TellsApart(cfg) then CopyTrial(cfg) else Collision(cfg)
  }

  lemma Misnamed(cfg: Config)
    requires cfg.LawfulCodes() && !NamesApart(cfg)
    ensures var x := Misnaming(cfg);
            Occurs(cfg, x) && !Sound(cfg, EncRun(cfg, EncInit(x.mode), x.sent).0, x.o.meta, x.r)
  {
    hide Lawful, XorParity, Collision, CopyTrial, Occurs, Sound, EncRun, PaddedInput;
    if TellsApart(cfg) {
      CopyIsMisnamed(cfg);
    } else {
      CollisionFails(cfg);
      var x := Collision(cfg);
      if Sound(cfg, EncRun(cfg, EncInit(x.mode), x.sent).0, x.o.meta, x.r) { SoundIsInput(cfg, x); }
    }
  }

  lemma OwnRecoversSound(cfg: Config, kind: Kind, x: Trial)
    requires cfg.LawfulCode(kind) && Occurs(cfg, x) && cfg.Dispatch(x.o.meta.groupSize) == Some(kind)
    requires forall other :: other != kind ==> cfg.Dispatch(cfg.Size(other)) != Some(kind)
    ensures Sound(cfg, EncRun(cfg, EncInit(x.mode), x.sent).0, x.o.meta, x.r)
  {
    hide DecodeStep, EncRun, OwnRun, Sound, DecAfter;
    AlwaysOwn(cfg, EncInit(x.mode), x.sent, kind);
    EngineIsSound(cfg, kind, x.mode, x.sent, x.got, x.o, x.now, x.r);
  }

  /** In runs that mix kinds, recoveries are what they are called exactly in these configurations. */
  lemma SoundExactly(cfg: Config)
    requires cfg.LawfulCodes()
    ensures SoundMixed(cfg) <==> NamesApart(cfg)
  {
    hide Lawful, Occurs, Sound, EncRun, Misnaming;
    if NamesApart(cfg) {
      forall x: Trial | Occurs(cfg, x) ensures Sound(cfg, EncRun(cfg, EncInit(x.mode), x.sent).0, x.o.meta, x.r) {
        SomethingDispatches(cfg, x);
        var kind := cfg.Dispatch(x.o.meta.groupSize).value;
        if kind == RsKind && HeavyTakenForNormal(cfg) {
          ShortNeverRecovers(cfg, x);
        } else {
          OwnRecoversSound(cfg, kind, x);
        }
      }
    } else {
      Misnamed(cfg);
      assert Occurs(cfg, Misnaming(cfg));
    }
  }
}
