/** What recovery adds end to end: packets that never arrived are written although they were lost. */
module LossRecovery {
  import opened Collections
  import opened Bytes
  import opened GroupStream
  import opened FecEngine
  import opened KindRuns
  import opened EndToEnd
  import opened DecoderShares
  import opened Arrivals
  import opened GroupAges
  import C = Client
  import RF = RsFec
  import XF = XorFec
  import XD = XorDecoder
  import RD = RsDecoder

  // ---------- one lost packet of an XOR group ----------

  /** A run that is complete somewhere is complete for the first time somewhere, on an arrival of the group. */
  lemma {:induction false} FirstCompletion(n: nat, xs: seq<XD.Event>, group: nat) returns (j: nat)
    requires XD.EverComplete(n, xs, group)
    ensures j < |xs| && !XD.EverComplete(n, xs[..j], group) && XD.Complete(n, xs[..j + 1], group)
    ensures xs[j].Receive? && xs[j].gid == group
  {
    hide XD.Complete;
    var m := |xs| - 1;
    if XD.EverComplete(n, xs[..m], group) {
      j := FirstCompletion(n, xs[..m], group);
      assert xs[..m][..j] == xs[..j] && xs[..m][..j + 1] == xs[..j + 1];
    } else {
      j := m;
      assert xs[..m + 1] == xs;
      if xs[m].Expire? || xs[m].gid != group { XD.StillIncomplete(n, xs, group); }
    }
  }

  lemma {:induction false} SeenGrows(xs: seq<XD.Event>, j: nat, group: nat)
    requires j <= |xs|
    ensures XD.SeenData(xs[..j], group) <= XD.SeenData(xs, group)
  {
    hide XD.SeenData;
    if j < |xs| {
      var m := |xs| - 1;
      SeenGrows(xs[..m], j, group);
      assert xs[..m][..j] == xs[..j];
      XD.SeenMore(xs, group);
    } else {
      assert xs[..j] == xs;
    }
  }

  lemma {:induction false} PrefixNotExpired(n: nat, xs: seq<XD.Event>, j: nat, group: nat)
    requires j <= |xs| && XD.NotExpired(n, xs, group)
    ensures XD.NotExpired(n, xs[..j], group)
  {
    if j < |xs| {
      var m := |xs| - 1;
      PrefixNotExpired(n, xs[..m], j, group);
      assert xs[..m][..j] == xs[..j];
    } else {
      assert xs[..j] == xs;
    }
  }

  /** A group of which the parity and all data but one packet were seen has given that packet. */
  lemma GivesTheMissing(n: nat, st: Stream, xs: seq<XD.Event>, group: nat, missing: nat) returns (j: nat)
    requires st.Valid(n) && forall x :: x in xs ==> XD.FromEncoder(n, st, x)
    requires XD.NotExpired(n, xs, group)
    requires XD.SeenParity(xs, group) && XF.Missing(n, XD.SeenData(xs, group)) == {missing}
    ensures j < |xs| && xs[j].Receive? && xs[j].gid == group && XD.Output(n, XD.INIT, xs, j).Some?
    ensures var r := XD.Output(n, XD.INIT, xs, j).value; r.0 == missing && PaddedOriginal(st, group, r)
  {
    hide XD.SeenData, XD.SeenParity, XD.After, XD.Step, PaddedOriginal;
    SeenNotNothing(xs, group);
    j := FirstCompletion(n, xs, group);
    var first := xs[..j + 1];
    assert first[..j] == xs[..j] && first[j] == xs[j];
    PrefixNotExpired(n, xs, j + 1, group);
    XD.RecoversOnCompletion(n, XD.INIT, first, group);
    SeenGrows(xs, j + 1, group);
    var r := XD.Output(n, XD.INIT, first, j).value;
    assert missing in XF.Missing(n, XD.SeenData(first, group));
    XD.EveryRecoveryIsRight(n, st, xs, j);
  }

  lemma SeenNotNothing(xs: seq<XD.Event>, group: nat)
    requires XD.SeenParity(xs, group)
    ensures xs != []
  {
  }

  lemma AllFromXor(cfg: Config, e: EncState, xs: seq<Share>)
    requires forall x :: x in xs ==> FromKind(cfg, XorKind, e, x)
    ensures forall x :: x in AllAsXor(xs) ==> XD.FromEncoder(cfg.xorSize, e.xor, x)
  {
    hide XF.Emitted;
    forall x | x in AllAsXor(xs) ensures XD.FromEncoder(cfg.xorSize, e.xor, x) {
      var i :| 0 <= i < |xs| && AllAsXor(xs)[i] == x;
      assert FromKind(cfg, XorKind, e, xs[i]);
    }
  }

  /**
   Loss recovery, end to end. Of an XOR group the parity and all data packets but one have arrived before a timeout
   gave up their numbers, in any order, with any repeats and whatever else between; no tick before that found the
   first packet of the group older than the timeout, and no other kind goes to the XOR decoder. Then the packet that
   did not come, or came too late, has been written, padded to the longest of its group.
   */
  lemma LostInputIsWritten(cfg: Config, mode: Mode, sends: seq<C.Event>, window: nat, t0: real, es: seq<Event>,
                           group: nat, missing: nat)
    requires cfg.xorSize >= 1 && cfg.rsData >= 1 && C.Own(cfg, mode, sends, XorKind)
    requires forall e :: e in es && e.Datagram? ==> FromChannel(C.Run(cfg, mode, sends), e.data)
    requires KeptAlive(cfg, XorKind, window, t0, es, group)
    requires ParityIn(InTime(cfg, XorKind, window, t0, es, group))
    requires XF.Missing(cfg.xorSize, DataIn(InTime(cfg, XorKind, window, t0, es, group))) == {missing}
    ensures var st := C.Run(cfg, mode, sends).enc.xor;
            && group < |st.done| && missing < |st.done[group]|
            && WritesRecovery(cfg, XorKind, Writes(cfg, window, t0, es), group,
                              (missing, PadTo(st.done[group][missing], MaxLen(st.done[group]))))
  {
    hide FromChannel, After, Writes, WritesRecovery, C.Run, C.Own, Shares, ReorderEvents, AllAsXor;
    hide KeptAlive, XD.NotExpired, XD.SeenData, XD.SeenParity, InTime, DataIn, ParityIn, XF.Missing, XD.Output;
    hide FromKind;
    var u := C.Run(cfg, mode, sends);
    var xs := Shares(cfg, XorKind, window, t0, es);
    C.RunNumbered(cfg, mode, sends);
    C.RunEncoded(cfg, XorKind, mode, sends);
    SeenIsInTime(cfg, XorKind, window, t0, u, es, group);
    SeenByXor(xs, group);
    XorKept(cfg, window, t0, u, es, group);
    SharesAreEmitted(cfg, XorKind, window, t0, u, es);
    AllFromXor(cfg, u.enc, xs);
    var j := GivesTheMissing(cfg.xorSize, u.enc.xor, AllAsXor(xs), group, missing);
    RecoveryIsWritten(cfg, window, t0, es, j);
  }

  // ---------- the lost packets of a Reed-Solomon group ----------

  /** A group of which k distinct shards were seen had its k-th at some event. */
  lemma {:induction false} KthShard(k: nat, xs: seq<RD.Event>, group: nat) returns (j: nat)
    requires k >= 1 && |RD.Seen(xs, group)| >= k
    ensures j < |xs| && xs[j].Receive? && xs[j].gid == group
    ensures |RD.Seen(xs[..j], group)| < k <= |RD.Seen(xs[..j + 1], group)|
  {
    var m := |xs| - 1;
    if |RD.Seen(xs[..m], group)| >= k {
      j := KthShard(k, xs[..m], group);
      assert xs[..m][..j] == xs[..j] && xs[..m][..j + 1] == xs[..j + 1];
    } else {
      j := m;
      assert xs[..m + 1] == xs;
    }
  }

  lemma {:induction false} SeenShardsGrow(xs: seq<RD.Event>, j: nat, group: nat)
    requires j <= |xs|
    ensures RD.Seen(xs[..j], group) <= RD.Seen(xs, group)
  {
    if j < |xs| {
      var m := |xs| - 1;
      SeenShardsGrow(xs[..m], j, group);
      assert xs[..m][..j] == xs[..j];
    } else {
      assert xs[..j] == xs;
    }
  }

  lemma {:induction false} PrefixOfUnexpired(k: nat, xs: seq<RD.Event>, j: nat, group: nat)
    requires j <= |xs| && RD.NotExpired(k, xs, group)
    ensures RD.NotExpired(k, xs[..j], group)
  {
    if j < |xs| {
      var m := |xs| - 1;
      PrefixOfUnexpired(k, xs[..m], j, group);
      assert xs[..m][..j] == xs[..j];
    } else {
      assert xs[..j] == xs;
    }
  }

  /** A group of which k distinct shards were seen has given every data packet that was not. */
  lemma GivesAllMissing(c: RF.Codec, k: nat, p: nat, st: Stream, xs: seq<RD.Event>, group: nat, missing: nat)
    returns (j: nat, r: (nat, bytes))
    requires k >= 1 && RF.Lawful(c, k, p) && st.Valid(k)
    requires forall x :: x in xs ==> RD.FromEncoder(c, k, p, st, x)
    requires RD.NotExpired(k, xs, group)
    requires |RD.Seen(xs, group)| >= k && missing < k && missing !in RD.Seen(xs, group)
    ensures j < |xs| && xs[j].Receive? && xs[j].gid == group && r in RD.Output(c, k, p, RD.INIT, xs, j)
    ensures r.0 == missing && PaddedOriginal(st, group, r)
  {
    hide RF.Lawful, RD.Faithful, RD.FromEncoder, RD.NotExpired, RD.After, RD.Step, RD.Purged, PaddedOriginal, SortedSeq;
    j := KthShard(k, xs, group);
    var first := xs[..j + 1];
    assert first[..j] == xs[..j] && first[j] == xs[j];
    assert forall x :: x in first ==> x in xs;
    PrefixOfUnexpired(k, xs, j + 1, group);
    FreshInit(c, k, p, st, group);
    RD.RecoversOnKthShard(c, k, p, st, RD.INIT, first, group);
    SeenShardsGrow(xs, j + 1, group);
    var order := SortedSeq(RD.MissingData(k, RD.Seen(first, group)));
    assert missing in order;
    var i :| 0 <= i < |order| && order[i] == missing;
    r := RD.Output(c, k, p, RD.INIT, first, j)[i];
    assert RD.Output(c, k, p, RD.INIT, first, j) == RD.Output(c, k, p, RD.INIT, xs, j);
  }

  lemma FreshInit(c: RF.Codec, k: nat, p: nat, st: Stream, group: nat)
    ensures RD.Faithful(c, k, p, st, RD.INIT) && RD.Fresh(RD.INIT, group)
  {
  }

  lemma AllFromShards(cfg: Config, kind: Kind, e: EncState, xs: seq<Share>)
    requires kind != XorKind && forall x :: x in xs ==> FromKind(cfg, kind, e, x)
    ensures forall x :: x in AllAsShards(xs) ==>
              RD.FromEncoder(CodecOf(cfg, kind), DataOf(cfg, kind), ParityOf(cfg, kind), e.Stream(kind), x)
  {
    hide RD.EmittedShard;
    forall x | x in AllAsShards(xs)
      ensures RD.FromEncoder(CodecOf(cfg, kind), DataOf(cfg, kind), ParityOf(cfg, kind), e.Stream(kind), x)
    {
      var i :| 0 <= i < |xs| && AllAsShards(xs)[i] == x;
      assert FromKind(cfg, kind, e, xs[i]);
    }
  }

  /**
   Of a Reed-Solomon group as many distinct packets as it has data packets have arrived before their numbers were
   given up, data or parity, in any order, with any repeats and whatever else between; no tick before that found the
   first packet of the group older than the timeout, and no other kind goes to its decoder. Then every data packet
   that did not come, or came too late, has been written, padded to the longest of its group.
   */
  lemma LostShardsAreWritten(cfg: Config, kind: Kind, mode: Mode, sends: seq<C.Event>, window: nat, t0: real,
                             es: seq<Event>, group: nat, missing: nat)
    requires kind != XorKind && cfg.LawfulCode(kind) && C.Own(cfg, mode, sends, kind)
    requires forall e :: e in es && e.Datagram? ==> FromChannel(C.Run(cfg, mode, sends), e.data)
    requires KeptAlive(cfg, kind, window, t0, es, group)
    requires var arrived := IndicesIn(InTime(cfg, kind, window, t0, es, group));
             |arrived| >= DataOf(cfg, kind) && missing < DataOf(cfg, kind) && missing !in arrived
    ensures var st := C.Run(cfg, mode, sends).enc.Stream(kind);
            && group < |st.done| && missing < |st.done[group]|
            && WritesRecovery(cfg, kind, Writes(cfg, window, t0, es), group,
                              (missing, PadTo(st.done[group][missing], MaxLen(st.done[group]))))
  {
    hide FromChannel, After, Writes, WritesRecovery, C.Run, C.Own, Shares, ReorderEvents, AllAsShards;
    hide KeptAlive, RD.NotExpired, InTime, IndicesIn, RD.Output, FromKind, RF.Lawful, RD.Seen;
    var u := C.Run(cfg, mode, sends);
    var xs := Shares(cfg, kind, window, t0, es);
    C.RunNumbered(cfg, mode, sends);
    C.RunEncoded(cfg, kind, mode, sends);
    SeenIsInTime(cfg, kind, window, t0, u, es, group);
    SeenByShards(xs, group);
    ShardsKept(cfg, kind, window, t0, u, es, group);
    SharesAreEmitted(cfg, kind, window, t0, u, es);
    AllFromShards(cfg, kind, u.enc, xs);
    LawfulKind(cfg, kind, u.enc);
    var j, r := GivesAllMissing(CodecOf(cfg, kind), DataOf(cfg, kind), ParityOf(cfg, kind), u.enc.Stream(kind),
                                AllAsShards(xs), group, missing);
    ShardRecoveryIsWritten(cfg, kind, window, t0, es, j, r);
  }

  lemma LawfulKind(cfg: Config, kind: Kind, e: EncState)
    requires kind != XorKind && cfg.LawfulCode(kind) && e.Valid(cfg)
    ensures RF.Lawful(CodecOf(cfg, kind), DataOf(cfg, kind), ParityOf(cfg, kind)) && DataOf(cfg, kind) >= 1
    ensures e.Stream(kind).Valid(DataOf(cfg, kind))
  {
  }
}
