/** Both ends of Reed-Solomon coding: the encoder that groups packets and the decoder that collects shards. */
module RsDecoder {
  import opened Collections
  import opened Bytes
  import opened GroupStream
  import opened RsFec

  const MAX_DELIVERED: nat := 10000
  const PURGE_COUNT: nat := 5000

  // ---------- encoder ----------

  class RSFecEncoder {
    const codec: Codec
    const dataShards: nat
    const parityShards: nat
    var currentGroup: seq<bytes>
    var groupId: nat
    ghost var stream: Stream

    ghost predicate Valid()
      reads this
    {
      && dataShards >= 1
      && Systematic(codec, dataShards, parityShards)
      && stream.Valid(dataShards)
      && stream.current == currentGroup
      && |stream.done| == groupId
    }

    constructor (codec: Codec, dataShards: nat, parityShards: nat)
      requires dataShards >= 1 && Systematic(codec, dataShards, parityShards)
      ensures Valid() && stream == EMPTY
      ensures this.codec == codec && this.dataShards == dataShards && this.parityShards == parityShards
    {
      this.codec, this.dataShards, this.parityShards := codec, dataShards, parityShards;
      currentGroup := [];
      groupId := 0;
      stream := EMPTY;
    }

    method AddPacket(payload: bytes) returns (gid: nat, fecIndex: nat, parity: Option<seq<bytes>>)
      requires Valid()
      modifies this
      ensures Valid() && stream == old(stream).Feed(dataShards, payload)
      ensures gid == |old(stream).done| && fecIndex == |old(stream).current|
      ensures stream.Group(gid) == old(stream).current + [payload]
      ensures parity == if fecIndex + 1 == dataShards
                        then Some(ParityBlocks(codec, parityShards, stream.Group(gid))) else None
    {
      gid := groupId;
      fecIndex := |currentGroup|;
      currentGroup := currentGroup + [payload];
      parity := None;
      if |currentGroup| == dataShards {
        var r := Encode(codec, dataShards, parityShards, currentGroup);
        parity := Some(r.value);
        currentGroup := [];
        groupId := groupId + 1;
      }
      FeedExtends(stream, dataShards, payload);
      stream := stream.Feed(dataShards, payload);
    }
  }

  /** A shard the encoder has put out: a payload by index, or a parity block of a completed group. */
  ghost predicate EmittedShard(c: Codec, k: nat, p: nat, st: Stream, gid: nat, index: nat, payload: bytes) {
    if index < k then index < |st.Group(gid)| && payload == st.Group(gid)[index]
    else gid < |st.done| && index < k + p && payload == ParityBlock(c, st.done[gid], index - k)
  }

  lemma EmittedShardLater(c: Codec, k: nat, p: nat, st: Stream, later: Stream, gid: nat, index: nat, payload: bytes)
    requires st.ExtendedBy(later) && EmittedShard(c, k, p, st, gid, index, payload)
    ensures EmittedShard(c, k, p, later, gid, index, payload)
  {
    if gid < |st.done| { assert later.done[gid] == st.done[gid]; }
  }

  // ---------- decoder ----------

  datatype State = State(
    groups: map<nat, map<nat, bytes>>,
    stamps: map<nat, real>,
    delivered: set<nat>,
    recoveries: nat)
  {
    function Received(gid: nat): map<nat, bytes> {
      if gid in groups then groups[gid] else map[]
    }

    function Without(gids: set<nat>): State {
      this.(groups := groups - gids, stamps := stamps - gids)
    }
  }

  const INIT := State(map[], map[], {}, 0)

  type Recoveries = seq<(nat, bytes)>

  ghost function Purged(delivered: set<nat>): set<nat> {
    if |delivered| > MAX_DELIVERED then DropLowest(delivered, PURGE_COUNT) else delivered
  }

  /** The state after storing a shard of a group that is not remembered. */
  function Store(s: State, gid: nat, index: nat, payload: bytes, now: real): State {
    s.(stamps := if gid in s.stamps then s.stamps else s.stamps[gid := now],
       groups := s.groups[gid := s.Received(gid)[index := payload]])
  }

  /** The state once a group has been dealt with: remembered and cleaned up. */
  ghost function Finished(s: State, gid: nat, recovered: nat): State {
    s.Without({gid}).(delivered := Purged(s.delivered + {gid}), recoveries := s.recoveries + recovered)
  }

  /** The data indices that are not among the shards. */
  function MissingData(k: nat, present: set<nat>): set<nat> {
    Range(0, k) - present
  }

  function BlockAt(blocks: seq<bytes>, i: nat): bytes {
    if i < |blocks| then blocks[i] else []
  }

  /** The decoded blocks at the given indices. */
  function Pick(blocks: seq<bytes>, indices: seq<nat>): (r: Recoveries)
    ensures |r| == |indices|
    ensures forall j :: 0 <= j < |r| ==> r[j] == (indices[j], BlockAt(blocks, indices[j]))
  {
    if indices == [] then [] else
      var n := |indices| - 1;
      Pick(blocks, indices[..n]) + [(indices[n], BlockAt(blocks, indices[n]))]
  }

  method PickMissing(blocks: seq<bytes>, order: seq<nat>) returns (r: Recoveries)
    requires forall j :: 0 <= j < |order| ==> order[j] < |blocks|
    ensures r == Pick(blocks, order)
  {
    r := [];
    for j := 0 to |order|
      invariant r == Pick(blocks, order[..j])
    {
      assert order[..j + 1][..j] == order[..j];
      r := r + [(order[j], blocks[order[j]])];
    }
    assert order[..|order|] == order;
  }

  ghost function TryRecoverStep(c: Codec, k: nat, p: nat, s: State, gid: nat): (State, Recoveries) {
    var shards := s.Received(gid);
    var missing := MissingData(k, shards.Keys);
    if |shards| < k then (s, [])
    else if missing == {} then (Finished(s, gid, 0), [])
    else
      var d := Decoded(c, k, p, shards);
      if d.Err? then (s, [])
      else
        (Finished(s, gid, |missing|), Pick(d.value, SortedSeq(missing)))
  }

  ghost function ReceiveStep(c: Codec, k: nat, p: nat, s: State, gid: nat, index: nat, payload: bytes, now: real)
    : (State, Recoveries)
  {
    if gid in s.delivered then (s, [])
    else TryRecoverStep(c, k, p, Store(s, gid, index, payload, now), gid)
  }

  function Stale(s: State, cutoff: real): set<nat> {
    set g | g in s.stamps && s.stamps[g] < cutoff
  }

  /** The data indices present are all of them exactly when none is missing. */
  lemma AllDataPresent(k: nat, present: set<nat>)
    ensures |set i | i in present && i < k| == k <==> MissingData(k, present) == {}
    ensures MissingData(k, present) == Range(0, k) - (set i | i in present && i < k)
  {
    var data := set i | i in present && i < k;
    SubsetSize(data, Range(0, k));
    if MissingData(k, present) == {} {
      forall i | i in Range(0, k) ensures i in data {
        assert i !in MissingData(k, present);
      }
      assert data == Range(0, k);
    }
  }

  lemma AllStaleGone(s: State, cutoff: real, gone: set<nat>)
    requires forall g :: g in gone <==> g in s.stamps && s.stamps[g] < cutoff
    ensures gone == Stale(s, cutoff)
    ensures s.Without(Stale(s, cutoff)) == State(s.groups - gone, s.stamps - gone, s.delivered, s.recoveries)
  {
  }

  class RSFecDecoder {
    const codec: Codec
    const dataShards: nat
    const parityShards: nat
    const timeoutMs: real
    var groups: map<nat, map<nat, bytes>>
    var stamps: map<nat, real>
    var delivered: set<nat>
    var recoveries: nat

    function Model(): State
      reads this
    {
      State(groups, stamps, delivered, recoveries)
    }

    /** The code works column by column, and the memory of finished groups is bounded. */
    ghost predicate Valid()
      reads this
    {
      Systematic(codec, dataShards, parityShards) && |delivered| <= MAX_DELIVERED
    }

    constructor (codec: Codec, dataShards: nat, parityShards: nat, timeoutMs: real)
      requires Systematic(codec, dataShards, parityShards)
      ensures Valid() && Model() == INIT
      ensures this.codec == codec && this.dataShards == dataShards && this.parityShards == parityShards
      ensures this.timeoutMs == timeoutMs
    {
      this.codec, this.dataShards, this.parityShards := codec, dataShards, parityShards;
      this.timeoutMs := timeoutMs;
      groups, stamps, delivered, recoveries := map[], map[], {}, 0;
    }

    method ReceiveShard(gid: nat, shardIndex: nat, payload: bytes, now: real) returns (r: Recoveries)
      requires Valid()
      modifies this
      ensures Valid()
      ensures (Model(), r) == ReceiveStep(codec, dataShards, parityShards, old(Model()), gid, shardIndex, payload, now)
    {
      if gid in delivered {
        return [];
      }
      if gid !in stamps {
        stamps := stamps[gid := now];
      }
      if gid !in groups {
        groups := groups[gid := map[]];
      }
      var group: map<nat, bytes> := groups[gid];
      group := group[shardIndex := payload];
      groups := groups[gid := group];
      assert Model() == Store(old(Model()), gid, shardIndex, payload, now);
      r := TryRecover(gid);
    }

    method TryRecover(gid: nat) returns (r: Recoveries)
      requires Valid()
      modifies this
      ensures Valid()
      ensures (Model(), r) == TryRecoverStep(codec, dataShards, parityShards, old(Model()), gid)
    {
      var shards := Model().Received(gid);
      if |shards| < dataShards {
        return [];
      }
      var dataPresent := set i | i in shards.Keys && i < dataShards;
      AllDataPresent(dataShards, shards.Keys);
      if |dataPresent| == dataShards {
        Finish(gid, 0);
        return [];
      }
      r := RecoverMissing(gid, Range(0, dataShards) - dataPresent);
    }

    /** Decode, and return the missing data packets in ascending order. */
    method RecoverMissing(gid: nat, missing: set<nat>) returns (r: Recoveries)
      requires Valid() && |Model().Received(gid)| >= dataShards
      requires missing == MissingData(dataShards, Model().Received(gid).Keys) != {}
      modifies this
      ensures Valid()
      ensures (Model(), r) == TryRecoverStep(codec, dataShards, parityShards, old(Model()), gid)
    {
      var decoded := Decode(codec, dataShards, parityShards, Model().Received(gid));
      if decoded.Err? {
        return [];
      }
      var order := SortedSeq(missing);
      assert forall j :: 0 <= j < |order| ==> order[j] in missing;
      r := PickMissing(decoded.value, order);
      Finish(gid, |order|);
    }

    /** Count the recoveries, remember the group and clean it up. */
    method Finish(gid: nat, recovered: nat)
      requires Valid()
      modifies this
      ensures Valid() && Model() == Finished(old(Model()), gid, recovered)
    {
      recoveries := recoveries + recovered;
      delivered := delivered + {gid};
      CleanupGroup(gid);
    }

    method ExpireGroups(now: real) returns (expired: seq<nat>)
      requires Valid()
      modifies this
      ensures Valid()
      ensures Model() == old(Model()).Without(Stale(old(Model()), now - timeoutMs / 1000.0))
      ensures forall g :: g in expired <==> g in Stale(old(Model()), now - timeoutMs / 1000.0)
    {
      ghost var gone;
      expired, gone := RemoveStale(now - timeoutMs / 1000.0);
      AllStaleGone(old(Model()), now - timeoutMs / 1000.0, gone);
    }

    method RemoveStale(cutoff: real) returns (expired: seq<nat>, ghost gone: set<nat>)
      requires |delivered| <= MAX_DELIVERED
      modifies this`groups, this`stamps, this`delivered
      ensures forall g :: g in gone <==> g in old(stamps) && old(stamps)[g] < cutoff
      ensures forall g :: g in expired <==> g in gone
      ensures groups == old(groups) - gone && stamps == old(stamps) - gone && delivered == old(delivered)
    {
      expired, gone := [], {};
      ghost var groups0: map<nat, map<nat, bytes>>, delivered0 := groups, delivered;
      var items: map<nat, real> := stamps;
      var todo := items.Keys;
      while todo != {}
        invariant todo <= items.Keys
        invariant forall g :: g in gone <==> g in items && g !in todo && items[g] < cutoff
        invariant groups == groups0 - gone && stamps == items - gone && delivered == delivered0
        invariant forall g :: g in expired <==> g in gone
        decreases |todo|
      {
        var g :| g in todo;
        todo := todo - {g};
        if items[g] < cutoff {
          expired := expired + [g];
          CleanupGroup(g);
          MapMinusTwice(groups0, gone, {g});
          MapMinusTwice(items, gone, {g});
          gone := gone + {g};
        }
      }
    }

    method CleanupGroup(gid: nat)
      modifies this`groups, this`stamps, this`delivered
      ensures groups == old(groups) - {gid}
      ensures stamps == old(stamps) - {gid}
      ensures delivered == Purged(old(delivered))
    {
      groups := groups - {gid};
      stamps := stamps - {gid};
      if |delivered| > MAX_DELIVERED {
        delivered := SortAndDrop(delivered, PURGE_COUNT);
      }
    }
  }

  // ---------- runs ----------

  datatype Event =
    | Receive(gid: nat, index: nat, payload: bytes, now: real)
    | Expire(cutoff: real)

  ghost function Step(c: Codec, k: nat, p: nat, s: State, e: Event): (State, Recoveries) {
    match e
    case Receive(gid, index, payload, now) => ReceiveStep(c, k, p, s, gid, index, payload, now)
    case Expire(cutoff) => (s.Without(Stale(s, cutoff)), [])
  }

  ghost function After(c: Codec, k: nat, p: nat, s: State, es: seq<Event>): State {
    if es == [] then s else Step(c, k, p, After(c, k, p, s, es[..|es| - 1]), es[|es| - 1]).0
  }

  /** What event i of a run returns. */
  ghost function Output(c: Codec, k: nat, p: nat, s: State, es: seq<Event>, i: nat): Recoveries
    requires i < |es|
  {
    Step(c, k, p, After(c, k, p, s, es[..i]), es[i]).1
  }

  // ---------- soundness ----------

  /** Every stored shard is one the encoder put out. */
  ghost predicate Faithful(c: Codec, k: nat, p: nat, st: Stream, s: State) {
    forall gid, i :: gid in s.groups && i in s.groups[gid] ==> EmittedShard(c, k, p, st, gid, i, s.groups[gid][i])
  }

  ghost predicate FromEncoder(c: Codec, k: nat, p: nat, st: Stream, e: Event) {
    e.Receive? ==> EmittedShard(c, k, p, st, e.gid, e.index, e.payload)
  }

  /** k shards of one group are shards of a completed group. */
  lemma HeldShardsAreShards(c: Codec, k: nat, p: nat, st: Stream, s: State, gid: nat)
    requires k >= 1 && st.Valid(k) && Faithful(c, k, p, st, s) && |s.Received(gid)| >= k
    ensures gid < |st.done| && |st.done[gid]| == k
    ensures ShardsOf(c, p, st.done[gid], s.Received(gid))
  {
    var shards := s.Received(gid);
    assert |shards.Keys| == |shards|;
    if gid >= |st.done| {
      forall i | i in shards ensures i in Range(0, |st.current|) {
        assert EmittedShard(c, k, p, st, gid, i, shards[i]);
      }
      SubsetSize(shards.Keys, Range(0, |st.current|));
    }
    assert st.done[gid] in st.done;
    forall i | i in shards ensures i < k + p && shards[i] == Shard(c, st.done[gid], i) {
      assert EmittedShard(c, k, p, st, gid, i, shards[i]);
    }
  }

  lemma PickedAreSound(k: nat, st: Stream, gid: nat, blocks: seq<bytes>, missing: set<nat>)
    requires gid < |st.done| && |st.done[gid]| == k == |blocks| && missing <= Range(0, k)
    requires forall i :: 0 <= i < k ==> blocks[i] == PadTo(st.done[gid][i], MaxLen(st.done[gid]))
    ensures forall j :: 0 <= j < |SortedSeq(missing)| ==> SortedSeq(missing)[j] < k
    ensures var r := Pick(blocks, SortedSeq(missing));
            && |r| == |missing|
            && forall j :: 0 <= j < |r| ==> r[j].0 == SortedSeq(missing)[j] && PaddedOriginal(st, gid, r[j])
  {
    var order := SortedSeq(missing);
    forall j | 0 <= j < |order| ensures order[j] < k {
      assert order[j] in missing;
    }
  }

  /** Once k shards are held, every missing data packet is returned, and rightly. */
  lemma RecoveryIsRight(c: Codec, k: nat, p: nat, st: Stream, s: State, gid: nat)
    requires k >= 1 && Lawful(c, k, p) && st.Valid(k) && Faithful(c, k, p, st, s) && |s.Received(gid)| >= k
    ensures var missing := SortedSeq(MissingData(k, s.Received(gid).Keys));
            var (s', r) := TryRecoverStep(c, k, p, s, gid);
            && s' == Finished(s, gid, |missing|)
            && |r| == |missing|
            && forall j :: 0 <= j < |r| ==> r[j].0 == missing[j] && PaddedOriginal(st, gid, r[j])
  {
    hide Lawful, Faithful, SortedSeq, MissingData, PaddedOriginal, ShardsOf, Finished, Decoded;
    HeldShardsAreShards(c, k, p, st, s, gid);
    var shards := s.Received(gid);
    MissingIsWithin(k, shards.Keys);
    AnyKShardsDetermineTheData(c, p, st.done[gid], shards);
    var missing := MissingData(k, shards.Keys);
    PickedAreSound(k, st, gid, Decoded(c, k, p, shards).value, missing);
    if missing == {} { NothingMissed(); }
  }

  lemma MissingIsWithin(k: nat, present: set<nat>)
    ensures MissingData(k, present) <= Range(0, k)
  {
  }

  lemma FaithfulStore(c: Codec, k: nat, p: nat, st: Stream, s: State, e: Event)
    requires Faithful(c, k, p, st, s) && e.Receive? && FromEncoder(c, k, p, st, e)
    ensures Faithful(c, k, p, st, Store(s, e.gid, e.index, e.payload, e.now))
  {
  }

  lemma SoundStep(c: Codec, k: nat, p: nat, st: Stream, s: State, e: Event)
    requires k >= 1 && Lawful(c, k, p) && st.Valid(k)
    requires Faithful(c, k, p, st, s) && FromEncoder(c, k, p, st, e)
    ensures Faithful(c, k, p, st, Step(c, k, p, s, e).0)
    ensures forall r :: r in Step(c, k, p, s, e).1 ==> e.Receive? && PaddedOriginal(st, e.gid, r)
  {
    if e.Receive? && e.gid !in s.delivered {
      var s1 := Store(s, e.gid, e.index, e.payload, e.now);
      FaithfulStore(c, k, p, st, s, e);
      if |s1.Received(e.gid)| >= k {
        RecoveryIsRight(c, k, p, st, s1, e.gid);
      }
    }
  }

  lemma {:induction false} FaithfulRun(c: Codec, k: nat, p: nat, st: Stream, es: seq<Event>)
    requires k >= 1 && Lawful(c, k, p) && st.Valid(k)
    requires forall e :: e in es ==> FromEncoder(c, k, p, st, e)
    ensures Faithful(c, k, p, st, After(c, k, p, INIT, es))
  {
    if es != [] {
      FaithfulRun(c, k, p, st, es[..|es| - 1]);
      SoundStep(c, k, p, st, After(c, k, p, INIT, es[..|es| - 1]), es[|es| - 1]);
    }
  }

  /** Any shards of the encoder, in any order, with any repeats and expiries: each recovery is right. */
  lemma EveryRecoveryIsRight(c: Codec, k: nat, p: nat, st: Stream, es: seq<Event>, i: nat, r: (nat, bytes))
    requires k >= 1 && Lawful(c, k, p) && st.Valid(k)
    requires forall e :: e in es ==> FromEncoder(c, k, p, st, e)
    requires i < |es| && r in Output(c, k, p, INIT, es, i)
    ensures es[i].Receive? && PaddedOriginal(st, es[i].gid, r)
  {
    FaithfulRun(c, k, p, st, es[..i]);
    SoundStep(c, k, p, st, After(c, k, p, INIT, es[..i]), es[i]);
  }

  // ---------- completeness ----------

  /** The distinct shard indices of a group seen so far. */
  ghost function Seen(es: seq<Event>, gid: nat): set<nat> {
    if es == [] then {} else
      var e := es[|es| - 1];
      Seen(es[..|es| - 1], gid) + if e.Receive? && e.gid == gid then {e.index} else {}
  }

  ghost predicate Fresh(s: State, gid: nat) {
    gid !in s.delivered && gid !in s.groups && gid !in s.stamps
  }

  /** A group with fewer than k shards, none forgotten. */
  ghost predicate Holds(k: nat, s: State, gid: nat, seen: set<nat>) {
    gid !in s.delivered && s.Received(gid).Keys == seen && |seen| < k
  }

  lemma StoreSeen(s: State, gid: nat, index: nat, payload: bytes, now: real)
    ensures var s1 := Store(s, gid, index, payload, now);
            && s1.Received(gid).Keys == s.Received(gid).Keys + {index}
            && |s1.Received(gid)| == |s.Received(gid).Keys + {index}|
            && s1.delivered == s.delivered
  {
    var g := Store(s, gid, index, payload, now).Received(gid);
    assert |g.Keys| == |g|;
  }

  /** Events of other groups leave a group's holdings alone. */
  lemma OthersKeep(c: Codec, k: nat, p: nat, s: State, e: Event, gid: nat, seen: set<nat>)
    requires e.Receive? && e.gid != gid && Holds(k, s, gid, seen)
    ensures Holds(k, Step(c, k, p, s, e).0, gid, seen)
  {
    hide Store, TryRecoverStep;
    if e.gid !in s.delivered {
      StoreKeeps(s, e, gid);
      TryKeeps(c, k, p, Store(s, e.gid, e.index, e.payload, e.now), e.gid, gid);
    }
  }

  lemma TryKeeps(c: Codec, k: nat, p: nat, s: State, gid: nat, other: nat)
    requires other != gid && other !in s.delivered
    ensures var s' := TryRecoverStep(c, k, p, s, gid).0;
            s'.Received(other) == s.Received(other) && other !in s'.delivered
  {
    hide Decoded, Finished, MissingData, SortedSeq;
    FinishKeeps(s, gid, other, 0);
    FinishKeeps(s, gid, other, |MissingData(k, s.Received(gid).Keys)|);
  }

  lemma StoreKeeps(s: State, e: Event, gid: nat)
    requires e.Receive? && e.gid != gid
    ensures var s1 := Store(s, e.gid, e.index, e.payload, e.now);
            s1.Received(gid) == s.Received(gid) && s1.delivered == s.delivered
  {
  }

  lemma FinishKeeps(s: State, gid: nat, other: nat, n: nat)
    requires other != gid && other !in s.delivered
    ensures var s' := Finished(s, gid, n);
            s'.Received(other) == s.Received(other) && other !in s'.delivered
  {
    PurgedOnlyDrops(s.delivered + {gid});
    assert s.Without({gid}).Received(other) == s.Received(other);
  }

  lemma PurgedOnlyDrops(d: set<nat>)
    ensures Purged(d) <= d
  {
  }

  /** When the first shard of the group came. */
  ghost function FirstOf(es: seq<Event>, gid: nat): Option<real> {
    if es == [] then None else
      var m := |es| - 1;
      var before := FirstOf(es[..m], gid);
      if before.None? && es[m].Receive? && es[m].gid == gid then Some(es[m].now) else before
  }

  /** No expiry before k distinct shards of the group have come has a cutoff after its first shard. */
  ghost predicate NotExpired(k: nat, es: seq<Event>, gid: nat) {
    es != [] ==>
      var m := |es| - 1;
      && NotExpired(k, es[..m], gid)
      && (es[m].Expire? && |Seen(es[..m], gid)| < k && FirstOf(es[..m], gid).Some? ==>
            FirstOf(es[..m], gid).value >= es[m].cutoff)
  }

  lemma {:induction false} NothingExpires(k: nat, es: seq<Event>, gid: nat)
    requires forall e :: e in es ==> e.Receive?
    ensures NotExpired(k, es, gid)
  {
    if es != [] {
      assert es[|es| - 1] in es;
      NothingExpires(k, es[..|es| - 1], gid);
    }
  }

  function StampOf(s: State, gid: nat): Option<real> {
    if gid in s.stamps then Some(s.stamps[gid]) else None
  }

  /** How one shard moves the stamps. */
  lemma StampAfterShard(c: Codec, k: nat, p: nat, s: State, e: Event, gid: nat)
    requires e.Receive?
    ensures var t := Step(c, k, p, s, e).0;
            StampOf(t, gid) == if e.gid != gid || gid in s.delivered then StampOf(s, gid)
                               else if gid !in t.groups then None
                               else if StampOf(s, gid).Some? then StampOf(s, gid) else Some(e.now)
  {
    hide TryRecoverStep, StampOf, Store;
    if e.gid !in s.delivered {
      StampAfterStore(s, e, gid);
      StampAfterTry(c, k, p, Store(s, e.gid, e.index, e.payload, e.now), e.gid, gid);
    }
  }

  lemma StampAfterStore(s: State, e: Event, gid: nat)
    requires e.Receive?
    ensures var t := Store(s, e.gid, e.index, e.payload, e.now);
            && e.gid in t.groups
            && StampOf(t, gid) == if e.gid != gid || StampOf(s, gid).Some? then StampOf(s, gid) else Some(e.now)
  {
  }

  lemma StampAfterTry(c: Codec, k: nat, p: nat, s: State, tried: nat, gid: nat)
    requires tried in s.groups
    ensures var t := TryRecoverStep(c, k, p, s, tried).0;
            StampOf(t, gid) == if tried == gid && gid !in t.groups then None else StampOf(s, gid)
  {
    hide Decoded, SortedSeq, Purged, MissingData;
  }

  lemma StampAfterExpiry(s: State, cutoff: real, gid: nat)
    ensures gid in Stale(s, cutoff) <==> StampOf(s, gid).Some? && StampOf(s, gid).value < cutoff
    ensures StampOf(s.Without(Stale(s, cutoff)), gid) == if gid in Stale(s, cutoff) then None else StampOf(s, gid)
  {
  }

  lemma ExpiryKeeps(c: Codec, k: nat, p: nat, s: State, cutoff: real, gid: nat)
    requires gid !in Stale(s, cutoff)
    ensures var t := Step(c, k, p, s, Expire(cutoff)).0;
            && t == s.Without(Stale(s, cutoff)) && t.delivered == s.delivered && t.Received(gid) == s.Received(gid)
  {
  }

  /** Until k distinct shards of a fresh group have come, the decoder holds exactly what was seen, and since when. */
  lemma {:induction false} HoldsWhatWasSeen(c: Codec, k: nat, p: nat, s: State, es: seq<Event>, gid: nat)
    requires Fresh(s, gid) && |Seen(es, gid)| < k && k >= 1 && NotExpired(k, es, gid)
    ensures Holds(k, After(c, k, p, s, es), gid, Seen(es, gid))
    ensures StampOf(After(c, k, p, s, es), gid) == FirstOf(es, gid)
  {
    if es != [] {
      hide Step, StampOf, Stale, Holds;
      var init, e := es[..|es| - 1], es[|es| - 1];
      SubsetSize(Seen(init, gid), Seen(es, gid));
      HoldsWhatWasSeen(c, k, p, s, init, gid);
      var t := After(c, k, p, s, init);
      if e.Expire? {
        StampAfterExpiry(t, e.cutoff, gid);
        ExpiryHolds(c, k, p, t, e.cutoff, gid, Seen(init, gid));
      } else {
        StampAfterShard(c, k, p, t, e, gid);
        if e.gid == gid {
          ShardHolds(c, k, p, t, e, Seen(init, gid));
        } else {
          OthersKeep(c, k, p, t, e, gid, Seen(init, gid));
        }
      }
    } else {
      NothingSeen(k, s, gid);
    }
  }

  lemma NothingSeen(k: nat, s: State, gid: nat)
    requires Fresh(s, gid) && k >= 1
    ensures Holds(k, s, gid, Seen([], gid)) && StampOf(s, gid) == None
  {
  }

  lemma ExpiryHolds(c: Codec, k: nat, p: nat, s: State, cutoff: real, gid: nat, seen: set<nat>)
    requires Holds(k, s, gid, seen) && gid !in Stale(s, cutoff)
    ensures var t := Step(c, k, p, s, Expire(cutoff)).0;
            Holds(k, t, gid, seen) && t == s.Without(Stale(s, cutoff))
  {
    ExpiryKeeps(c, k, p, s, cutoff, gid);
  }

  lemma ShardHolds(c: Codec, k: nat, p: nat, s: State, e: Event, seen: set<nat>)
    requires e.Receive? && Holds(k, s, e.gid, seen) && |seen + {e.index}| < k
    ensures var t := Step(c, k, p, s, e).0; Holds(k, t, e.gid, seen + {e.index}) && e.gid in t.groups
  {
    StoreSeen(s, e.gid, e.index, e.payload, e.now);
  }

  /**
   A fresh group is recovered on the arrival of its k-th distinct shard and not before: exactly the data packets not
   seen come out, in ascending order, each the padded original; and the group is remembered, unless the memory is full
   and the purge that is due takes it for one of the oldest.
   */
  lemma RecoversOnKthShard(c: Codec, k: nat, p: nat, st: Stream, s: State, es: seq<Event>, gid: nat)
    requires k >= 1 && Lawful(c, k, p) && st.Valid(k) && Faithful(c, k, p, st, s) && Fresh(s, gid)
    requires forall e :: e in es ==> FromEncoder(c, k, p, st, e)
    requires es != [] && es[|es| - 1].Receive? && es[|es| - 1].gid == gid && |Seen(es[..|es| - 1], gid)| < k
    requires NotExpired(k, es, gid)
    ensures var r := Output(c, k, p, s, es, |es| - 1);
            var missing := SortedSeq(MissingData(k, Seen(es, gid)));
            if |Seen(es, gid)| < k then r == []
            else
              && |r| == |missing|
              && (forall j :: 0 <= j < |r| ==> r[j].0 == missing[j] && PaddedOriginal(st, gid, r[j]))
    ensures |Seen(es, gid)| >= k ==>
              var before := After(c, k, p, s, es[..|es| - 1]).delivered;
              && After(c, k, p, s, es).delivered == Purged(before + {gid})
              && (|before| < MAX_DELIVERED ==> gid in After(c, k, p, s, es).delivered)
  {
    hide Lawful, Faithful, FromEncoder, PaddedOriginal, SortedSeq, MissingData, Store, Purged, Stale, NotExpired;
    var init, e := es[..|es| - 1], es[|es| - 1];
    StillNotExpired(k, es, gid);
    HoldsWhatWasSeen(c, k, p, s, init, gid);
    FaithfulFrom(c, k, p, st, s, init);
    var s0 := After(c, k, p, s, init);
    StoreSeen(s0, gid, e.index, e.payload, e.now);
    FaithfulStore(c, k, p, st, s0, e);
    if |Seen(es, gid)| >= k {
      RecoveryIsRight(c, k, p, st, Store(s0, gid, e.index, e.payload, e.now), gid);
      StaysInMemory(s0.delivered, gid);
    }
  }

  lemma StillNotExpired(k: nat, es: seq<Event>, gid: nat)
    requires es != [] && NotExpired(k, es, gid)
    ensures NotExpired(k, es[..|es| - 1], gid)
  {
  }

  lemma StaysInMemory(delivered: set<nat>, gid: nat)
    ensures |delivered| < MAX_DELIVERED ==> gid in Purged(delivered + {gid})
  {
  }

  /** Everything a run returns for one group. */
  ghost function RecoveredOf(c: Codec, k: nat, p: nat, s: State, es: seq<Event>, gid: nat): Recoveries {
    if es == [] then [] else
      var e := es[|es| - 1];
      RecoveredOf(c, k, p, s, es[..|es| - 1], gid)
      + if e.Receive? && e.gid == gid then Output(c, k, p, s, es, |es| - 1) else []
  }

  /** The data packets of a group that had not come when its k-th distinct shard came. */
  ghost function MissedOf(k: nat, es: seq<Event>, gid: nat): set<nat> {
    if es == [] || |Seen(es, gid)| < k then {}
    else if |Seen(es[..|es| - 1], gid)| >= k then MissedOf(k, es[..|es| - 1], gid)
    else MissingData(k, Seen(es, gid))
  }

  /** Once k shards have come, the group id has stayed in memory ever since. */
  ghost predicate StaysRemembered(c: Codec, k: nat, p: nat, s: State, es: seq<Event>, gid: nat) {
    es != [] ==>
      && StaysRemembered(c, k, p, s, es[..|es| - 1], gid)
      && (|Seen(es[..|es| - 1], gid)| >= k ==> gid in After(c, k, p, s, es[..|es| - 1]).delivered)
  }

  /** While its id stays remembered, a group gives each packet it missed exactly once, and nothing else. */
  lemma {:induction false} ExactlyOneRecovery(c: Codec, k: nat, p: nat, st: Stream, s: State, es: seq<Event>, gid: nat)
    requires k >= 1 && Lawful(c, k, p) && st.Valid(k) && Faithful(c, k, p, st, s) && Fresh(s, gid)
    requires forall e :: e in es ==> FromEncoder(c, k, p, st, e)
    requires NotExpired(k, es, gid) && StaysRemembered(c, k, p, s, es, gid)
    ensures var r := RecoveredOf(c, k, p, s, es, gid);
            var missed := SortedSeq(MissedOf(k, es, gid));
            && |r| == |missed|
            && forall j :: 0 <= j < |r| ==> r[j].0 == missed[j] && PaddedOriginal(st, gid, r[j])
  {
    hide Output, After, Lawful, Faithful, FromEncoder, PaddedOriginal, SortedSeq, MissingData;
    if es == [] {
      NothingMissed();
    } else {
      var init, e := es[..|es| - 1], es[|es| - 1];
      assert forall x :: x in init ==> x in es;
      ExactlyOneRecovery(c, k, p, st, s, init, gid);
      var before := RecoveredOf(c, k, p, s, init, gid);
      NothingMissed();
      if |Seen(init, gid)| >= k {
        RememberedGivesNothing(c, k, p, s, es, gid);
        SubsetSize(Seen(init, gid), Seen(es, gid));
        assert before + [] == before;
      } else if e.Receive? && e.gid == gid {
        RecoversOnKthShard(c, k, p, st, s, es, gid);
        assert [] + Output(c, k, p, s, es, |es| - 1) == Output(c, k, p, s, es, |es| - 1);
      }
    }
  }

  lemma NothingMissed()
    ensures SortedSeq({}) == []
  {
    assert |SortedSeq({})| == 0;
  }

  lemma RememberedGivesNothing(c: Codec, k: nat, p: nat, s: State, es: seq<Event>, gid: nat)
    requires es != [] && gid in After(c, k, p, s, es[..|es| - 1]).delivered
    ensures var e := es[|es| - 1]; e.Receive? && e.gid == gid ==> Output(c, k, p, s, es, |es| - 1) == []
  {
  }

  lemma {:induction false} FaithfulFrom(c: Codec, k: nat, p: nat, st: Stream, s: State, es: seq<Event>)
    requires k >= 1 && Lawful(c, k, p) && st.Valid(k) && Faithful(c, k, p, st, s)
    requires forall e :: e in es ==> FromEncoder(c, k, p, st, e)
    ensures Faithful(c, k, p, st, After(c, k, p, s, es))
  {
    if es != [] {
      FaithfulFrom(c, k, p, st, s, es[..|es| - 1]);
      SoundStep(c, k, p, st, After(c, k, p, s, es[..|es| - 1]), es[|es| - 1]);
    }
  }

  // ---------- when groups began ----------

  /** When the first shard of the group came since the group was last closed or expired, if it is held. */
  ghost function Began(c: Codec, k: nat, p: nat, es: seq<Event>, gid: nat): Option<real> {
    if es == [] then None else
      var m := |es| - 1;
      var before := Began(c, k, p, es[..m], gid);
      match es[m]
      case Expire(cutoff) => if before.Some? && before.value < cutoff then None else before
      case Receive(g, _, _, now) =>
        if g != gid || gid in After(c, k, p, INIT, es[..m]).delivered then before
        else if gid !in After(c, k, p, INIT, es).groups then None
        else if before.Some? then before else Some(now)
  }

  /** Over every run, a group is stamped with the time it began, later shards of it notwithstanding. */
  lemma {:induction false} StampedWhenBegun(c: Codec, k: nat, p: nat, es: seq<Event>, gid: nat)
    ensures StampOf(After(c, k, p, INIT, es), gid) == Began(c, k, p, es, gid)
  {
    if es != [] {
      hide Step, StampOf, Stale;
      var m := |es| - 1;
      StampedWhenBegun(c, k, p, es[..m], gid);
      var s := After(c, k, p, INIT, es[..m]);
      match es[m]
      case Expire(cutoff) =>
        StampAfterExpiry(s, cutoff, gid);
        StepExpires(c, k, p, s, cutoff);
      case Receive(_, _, _, _) => StampAfterShard(c, k, p, s, es[m], gid);
    } else {
      NothingStamped(gid);
    }
  }

  lemma NothingStamped(gid: nat)
    ensures StampOf(INIT, gid) == None
  {
  }

  lemma StepExpires(c: Codec, k: nat, p: nat, s: State, cutoff: real)
    ensures Step(c, k, p, s, Expire(cutoff)) == (s.Without(Stale(s, cutoff)), [])
  {
  }

  /** An expiry drops exactly the groups that began before the cutoff. */
  lemma ExpiresByAge(c: Codec, k: nat, p: nat, es: seq<Event>, cutoff: real, gid: nat)
    ensures gid in Stale(After(c, k, p, INIT, es), cutoff)
            <==> Began(c, k, p, es, gid).Some? && Began(c, k, p, es, gid).value < cutoff
    ensures var t := After(c, k, p, INIT, es + [Expire(cutoff)]);
            if Began(c, k, p, es, gid).Some? && Began(c, k, p, es, gid).value < cutoff
            then gid !in t.groups && gid !in t.stamps
            else t.Received(gid) == After(c, k, p, INIT, es).Received(gid)
  {
    hide Began, After, Stale;
    var s := After(c, k, p, INIT, es);
    StampedWhenBegun(c, k, p, es, gid);
    StampAfterExpiry(s, cutoff, gid);
    AfterExpiry(c, k, p, es, cutoff);
    if gid !in Stale(s, cutoff) { ExpiryKeeps(c, k, p, s, cutoff, gid); }
  }

  lemma AfterExpiry(c: Codec, k: nat, p: nat, es: seq<Event>, cutoff: real)
    ensures var s := After(c, k, p, INIT, es);
            After(c, k, p, INIT, es + [Expire(cutoff)]) == s.Without(Stale(s, cutoff))
  {
    assert (es + [Expire(cutoff)])[..|es|] == es;
  }

  // ---------- no packet twice ----------

  /** The data indices of a group that came with event lo or later. */
  ghost function DataFrom(k: nat, es: seq<Event>, lo: nat, gid: nat): set<nat> {
    if |es| <= lo then {} else
      var e := es[|es| - 1];
      DataFrom(k, es[..|es| - 1], lo, gid) + if e.Receive? && e.gid == gid && e.index < k then {e.index} else {}
  }

  /** No data shard of a group comes again. */
  ghost predicate DataOnce(k: nat, es: seq<Event>) {
    forall i, j :: 0 <= i < j < |es| && es[i].Receive? && es[j].Receive? && es[i].index < k && es[j].index < k ==>
      es[i].gid != es[j].gid || es[i].index != es[j].index
  }

  /** Every shard is numbered within its group. */
  ghost predicate InGroups(total: nat, es: seq<Event>) {
    forall e :: e in es && e.Receive? ==> e.index < total
  }

  lemma {:induction false} CameFrom(k: nat, es: seq<Event>, lo: nat, gid: nat, x: nat) returns (i: nat)
    requires x in DataFrom(k, es, lo, gid)
    ensures lo <= i < |es| && es[i].Receive? && es[i].gid == gid && es[i].index == x < k
  {
    var n := |es| - 1;
    if x in DataFrom(k, es[..n], lo, gid) {
      i := CameFrom(k, es[..n], lo, gid, x);
    } else {
      i := n;
    }
  }

  lemma TryOnlyDrops(c: Codec, k: nat, p: nat, s: State, tried: nat, gid: nat)
    ensures TryRecoverStep(c, k, p, s, tried).0.Received(gid).Keys <= s.Received(gid).Keys
    ensures TryRecoverStep(c, k, p, s, tried).1 != [] ==> TryRecoverStep(c, k, p, s, tried).0.Received(tried) == map[]
  {
    hide Decoded, SortedSeq, MissingData, Purged;
  }

  lemma StepHolds(c: Codec, k: nat, p: nat, s: State, e: Event, gid: nat)
    ensures Step(c, k, p, s, e).0.Received(gid).Keys
            <= s.Received(gid).Keys + if e.Receive? && e.gid == gid then {e.index} else {}
  {
    hide TryRecoverStep;
    if e.Receive? && e.gid !in s.delivered {
      TryOnlyDrops(c, k, p, Store(s, e.gid, e.index, e.payload, e.now), e.gid, gid);
    }
  }

  /** What is held of a group of which nothing was held came since: data, or parity within the group. */
  ghost predicate HeldFrom(k: nat, p: nat, held: set<nat>, data: set<nat>) {
    forall i :: i in held ==> i < k + p && (i < k ==> i in data)
  }

  lemma {:induction false} HeldCameLater(c: Codec, k: nat, p: nat, es: seq<Event>, lo: nat, gid: nat)
    requires InGroups(k + p, es) && lo <= |es| && After(c, k, p, INIT, es[..lo]).Received(gid) == map[]
    ensures HeldFrom(k, p, After(c, k, p, INIT, es).Received(gid).Keys, DataFrom(k, es, lo, gid))
  {
    hide After, DataFrom;
    if lo < |es| {
      var m := |es| - 1;
      assert es[..m][..lo] == es[..lo];
      HeldCameLater(c, k, p, es[..m], lo, gid);
      assert es[m] in es;
      HeldMore(c, k, p, es, lo, gid);
    } else {
      assert es[..lo] == es;
    }
  }

  lemma HeldMore(c: Codec, k: nat, p: nat, es: seq<Event>, lo: nat, gid: nat)
    requires lo < |es| && (es[|es| - 1].Receive? ==> es[|es| - 1].index < k + p)
    requires HeldFrom(k, p, After(c, k, p, INIT, es[..|es| - 1]).Received(gid).Keys,
                      DataFrom(k, es[..|es| - 1], lo, gid))
    ensures HeldFrom(k, p, After(c, k, p, INIT, es).Received(gid).Keys, DataFrom(k, es, lo, gid))
  {
    hide Step;
    StepHolds(c, k, p, After(c, k, p, INIT, es[..|es| - 1]), es[|es| - 1], gid);
  }

  /** A recovery leaves nothing of its group, and has used k - p data shards other than the one recovered, or more. */
  lemma RecoveryUses(c: Codec, k: nat, p: nat, es: seq<Event>, lo: nat, j: nat, r: (nat, bytes))
    requires InGroups(k + p, es) && lo <= j < |es| && r in Output(c, k, p, INIT, es, j)
    requires es[j].Receive? && After(c, k, p, INIT, es[..lo]).Received(es[j].gid) == map[]
    ensures After(c, k, p, INIT, es[..j + 1]).Received(es[j].gid) == map[]
    ensures r.0 < k && |DataFrom(k, es[..j + 1], lo, es[j].gid) - {r.0}| + p >= k
  {
    hide TryRecoverStep, DataFrom, Store, After, Range;
    var e, s := es[j], After(c, k, p, INIT, es[..j]);
    assert es[..j + 1][..j] == es[..j] && es[..j][..lo] == es[..lo];
    HeldCameLater(c, k, p, es[..j], lo, e.gid);
    var s1 := Store(s, e.gid, e.index, e.payload, e.now);
    assert e in es;
    StoreSeen(s, e.gid, e.index, e.payload, e.now);
    TryOnlyDrops(c, k, p, s1, e.gid, e.gid);
    EnoughHeld(c, k, p, s1, e.gid, r);
    AfterMore(c, k, p, es, j);
    DataMore(k, es, lo, j);
    MostlyData(k, p, s1.Received(e.gid).Keys, DataFrom(k, es[..j + 1], lo, e.gid), r.0);
  }

  lemma AfterMore(c: Codec, k: nat, p: nat, es: seq<Event>, j: nat)
    requires j < |es|
    ensures After(c, k, p, INIT, es[..j + 1]) == Step(c, k, p, After(c, k, p, INIT, es[..j]), es[j]).0
  {
    assert es[..j + 1][..j] == es[..j];
  }

  lemma DataMore(k: nat, es: seq<Event>, lo: nat, j: nat)
    requires lo <= j < |es| && es[j].Receive?
    ensures DataFrom(k, es[..j + 1], lo, es[j].gid)
            == DataFrom(k, es[..j], lo, es[j].gid) + if es[j].index < k then {es[j].index} else {}
  {
    assert es[..j + 1][..j] == es[..j];
  }

  lemma EnoughHeld(c: Codec, k: nat, p: nat, s: State, gid: nat, r: (nat, bytes))
    requires r in TryRecoverStep(c, k, p, s, gid).1
    ensures |s.Received(gid).Keys| >= k && r.0 < k && r.0 !in s.Received(gid)
  {
    hide Decoded, Finished;
    var missing := MissingData(k, s.Received(gid).Keys);
    var q := SortedSeq(missing);
    assert r.0 in q && r.0 in missing;
    assert |s.Received(gid).Keys| == |s.Received(gid)|;
  }

  lemma MostlyData(k: nat, p: nat, held: set<nat>, data: set<nat>, m: nat)
    requires HeldFrom(k, p, held, data) && |held| >= k && m !in held
    ensures |data - {m}| + p >= k
  {
    var parity := held * Range(k, k + p);
    SubsetSize(parity, Range(k, k + p));
    SubsetSize(held - parity, data - {m});
    assert |held - parity| == |held| - |parity|;
  }

  /**
   If no data shard comes twice, no packet is recovered twice, however often its group expires and is forgotten, as
   long as there are at least two data shards to a parity shard.
   */
  lemma NeverTwice(c: Codec, k: nat, p: nat, es: seq<Event>, i: nat, j: nat, r: (nat, bytes), r': (nat, bytes))
    requires k >= 2 * p && DataOnce(k, es) && InGroups(k + p, es)
    requires i < j < |es| && es[i].Receive? && es[j].Receive? && es[i].gid == es[j].gid
    requires r in Output(c, k, p, INIT, es, i) && r' in Output(c, k, p, INIT, es, j)
    ensures r.0 != r'.0
  {
    hide Output, After, DataFrom;
    var gid := es[i].gid;
    NothingAtFirst(c, k, p, es, gid);
    RecoveryUses(c, k, p, es, 0, i, r);
    RecoveryUses(c, k, p, es, i + 1, j, r');
    if r.0 == r'.0 {
      var a, b := DataFrom(k, es[..i + 1], 0, gid) - {r.0}, DataFrom(k, es[..j + 1], i + 1, gid) - {r.0};
      forall x | x in a + b ensures x in Range(0, k) - {r.0} && !(x in a && x in b) {
        if x in a { WhenItCame(k, es, 0, i + 1, gid, x); }
        if x in b { WhenItCame(k, es, i + 1, j + 1, gid, x); }
      }
      assert |a + b| == |a| + |b| && |Range(0, k) - {r.0}| == k - 1;
      SubsetSize(a + b, Range(0, k) - {r.0});
    }
  }

  lemma WhenItCame(k: nat, es: seq<Event>, lo: nat, hi: nat, gid: nat, x: nat)
    requires lo <= hi <= |es| && x in DataFrom(k, es[..hi], lo, gid)
    ensures x < k && exists i :: lo <= i < hi && es[i].Receive? && es[i].gid == gid && es[i].index == x
  {
    var i := CameFrom(k, es[..hi], lo, gid, x);
    assert es[i] == es[..hi][i];
  }

  lemma NothingAtFirst(c: Codec, k: nat, p: nat, es: seq<Event>, gid: nat)
    ensures After(c, k, p, INIT, es[..0]).Received(gid) == map[]
  {
    assert es[..0] == [];
  }
}
