/** The receiving side of XOR parity: one group at a time becomes recoverable, is recovered once, and is remembered. */
module XorDecoder {
  import opened Collections
  import opened Bytes
  import opened GroupStream
  import opened XorFec

  const MAX_ACTIVE_GROUPS: nat := 256

  datatype State = State(
    groups: map<nat, map<nat, bytes>>,
    parities: map<nat, bytes>,
    stamps: map<nat, real>,
    delivered: set<nat>,
    recoveries: nat)
  {
    function Received(gid: nat): map<nat, bytes> {
      if gid in groups then groups[gid] else map[]
    }

    function Without(gids: set<nat>): State {
      this.(groups := groups - gids, parities := parities - gids, stamps := stamps - gids)
    }

    /** Parity is there and exactly one data packet is not. */
    predicate Recoverable(n: nat, gid: nat) {
      gid in parities && |Missing(n, Received(gid).Keys)| == 1
    }
  }

  const INIT := State(map[], map[], map[], {}, 0)

  type Recovery = Option<(nat, bytes)>

  /** The remembered group ids after one more: beyond the limit, only the upper half by number is kept. */
  ghost function Remember(delivered: set<nat>, gid: nat): set<nat> {
    var d := delivered + {gid};
    if |d| > MAX_ACTIVE_GROUPS then DropLowest(d, |d| / 2) else d
  }

  /** The state after storing a packet of a group that is not remembered. */
  function Store(s: State, gid: nat, index: nat, isParity: bool, payload: bytes, now: real): State {
    var s1 := if gid in s.stamps then s else s.(stamps := s.stamps[gid := now]);
    if isParity then s1.(parities := s1.parities[gid := payload])
    else s1.(groups := s1.groups[gid := s1.Received(gid)[index := payload]])
  }

  /** The state once a group has been recovered: remembered and cleaned up. */
  ghost function Recovered(s: State, gid: nat): State {
    s.Without({gid}).(delivered := Remember(s.delivered, gid), recoveries := s.recoveries + 1)
  }

  ghost function TryRecoverStep(n: nat, s: State, gid: nat): (State, Recovery) {
    if !s.Recoverable(n, gid) then (s, None)
    else
      var received := s.Received(gid);
      var m := MinOf(Missing(n, received.Keys));
      var recovered := XorBytes(s.parities[gid], XorOver(received, received.Keys - {m}));
      (Recovered(s, gid), Some((m, recovered)))
  }

  ghost function ReceiveStep(n: nat, s: State, gid: nat, index: nat, isParity: bool, payload: bytes, now: real)
    : (State, Recovery)
  {
    if gid in s.delivered then (s, None)
    else TryRecoverStep(n, Store(s, gid, index, isParity, payload, now), gid)
  }

  function Stale(s: State, cutoff: real): set<nat> {
    set g | g in s.stamps && s.stamps[g] < cutoff
  }

  /** Groups that are not removed keep their packets and parity. */
  lemma WithoutKeeps(s: State, gids: set<nat>, g: nat)
    requires g !in gids
    ensures s.Without(gids).Received(g) == s.Received(g)
    ensures g in s.Without(gids).parities <==> g in s.parities
  {
  }

  /** Storing a packet of one group leaves the other groups alone. */
  lemma StoreKeeps(s: State, gid: nat, index: nat, isParity: bool, payload: bytes, now: real, g: nat)
    requires g != gid
    ensures var s1 := Store(s, gid, index, isParity, payload, now);
            s1.Received(g) == s.Received(g) && (g in s1.parities <==> g in s.parities)
  {
  }

  lemma AllStaleGone(s: State, cutoff: real, gone: set<nat>)
    requires forall g :: g in gone <==> g in s.stamps && s.stamps[g] < cutoff
    ensures gone == Stale(s, cutoff)
    ensures s.Without(Stale(s, cutoff))
            == State(s.groups - gone, s.parities - gone, s.stamps - gone, s.delivered, s.recoveries)
  {
  }

  class XorFecDecoder {
    const groupSize: nat
    const timeoutMs: real
    var groups: map<nat, map<nat, bytes>>
    var parities: map<nat, bytes>
    var stamps: map<nat, real>
    var delivered: set<nat>
    var recoveries: nat

    function Model(): State
      reads this
    {
      State(groups, parities, stamps, delivered, recoveries)
    }

    constructor (groupSize: nat, timeoutMs: real)
      ensures Model() == INIT
      ensures this.groupSize == groupSize && this.timeoutMs == timeoutMs
    {
      this.groupSize := groupSize;
      this.timeoutMs := timeoutMs;
      groups, parities, stamps, delivered, recoveries := map[], map[], map[], {}, 0;
    }

    method ReceivePacket(gid: nat, fecIndex: nat, isParity: bool, payload: bytes, now: real) returns (r: Recovery)
      modifies this
      ensures (Model(), r) == ReceiveStep(groupSize, old(Model()), gid, fecIndex, isParity, payload, now)
    {
      if gid in delivered {
        return None;
      }
      if gid !in stamps {
        stamps := stamps[gid := now];
      }
      if isParity {
        parities := parities[gid := payload];
      } else {
        if gid !in groups {
          groups := groups[gid := map[]];
        }
        var group: map<nat, bytes> := groups[gid];
        group := group[fecIndex := payload];
        groups := groups[gid := group];
      }
      assert Model() == Store(old(Model()), gid, fecIndex, isParity, payload, now);
      r := TryRecover(gid);
    }

    method TryRecover(gid: nat) returns (r: Recovery)
      modifies this
      ensures (Model(), r) == TryRecoverStep(groupSize, old(Model()), gid)
    {
      var received := Model().Received(gid);
      if !CanRecover(groupSize, received.Keys, gid in parities) {
        return None;
      }
      var missing := Missing(groupSize, received.Keys);
      var missingIndex :| missingIndex in missing;
      OnlyElement(missing, missingIndex);
      var recovered := DecodeRecover(received, parities[gid], missingIndex);
      assert TryRecoverStep(groupSize, Model(), gid) == (Recovered(Model(), gid), Some((missingIndex, recovered)));
      MarkRecovered(gid);
      return Some((missingIndex, recovered));
    }

    method MarkRecovered(gid: nat)
      modifies this
      ensures Model() == Recovered(old(Model()), gid)
    {
      recoveries := recoveries + 1;
      delivered := delivered + {gid};
      if |delivered| > MAX_ACTIVE_GROUPS {
        delivered := SortAndDrop(delivered, |delivered| / 2);
      }
      CleanupGroup(gid);
    }

    method ExpireGroups(now: real) returns (expired: seq<nat>)
      modifies this`groups, this`parities, this`stamps
      ensures Model() == old(Model()).Without(Stale(old(Model()), now - timeoutMs / 1000.0))
      ensures forall g :: g in expired <==> g in Stale(old(Model()), now - timeoutMs / 1000.0)
    {
      ghost var gone;
      expired, gone := RemoveStale(now - timeoutMs / 1000.0);
      AllStaleGone(old(Model()), now - timeoutMs / 1000.0, gone);
    }

    method RemoveStale(cutoff: real) returns (expired: seq<nat>, ghost gone: set<nat>)
      modifies this`groups, this`parities, this`stamps
      ensures forall g :: g in gone <==> g in old(stamps) && old(stamps)[g] < cutoff
      ensures forall g :: g in expired <==> g in gone
      ensures groups == old(groups) - gone && parities == old(parities) - gone && stamps == old(stamps) - gone
    {
      expired, gone := [], {};
      ghost var groups0: map<nat, map<nat, bytes>>, parities0: map<nat, bytes> := groups, parities;
      var items: map<nat, real> := stamps;
      var todo := items.Keys;
      while todo != {}
        invariant todo <= items.Keys
        invariant forall g :: g in gone <==> g in items && g !in todo && items[g] < cutoff
        invariant groups == groups0 - gone && parities == parities0 - gone && stamps == items - gone
        invariant forall g :: g in expired <==> g in gone
        decreases |todo|
      {
        var g :| g in todo;
        todo := todo - {g};
        if items[g] < cutoff {
          expired := expired + [g];
          CleanupGroup(g);
          MapMinusTwice(groups0, gone, {g});
          MapMinusTwice(parities0, gone, {g});
          MapMinusTwice(items, gone, {g});
          gone := gone + {g};
        }
      }
    }

    method CleanupGroup(gid: nat)
      modifies this`groups, this`parities, this`stamps
      ensures groups == old(groups) - {gid}
      ensures parities == old(parities) - {gid}
      ensures stamps == old(stamps) - {gid}
    {
      groups := groups - {gid};
      parities := parities - {gid};
      stamps := stamps - {gid};
    }
  }

  lemma OnlyElement(s: set<nat>, x: nat)
    requires |s| == 1 && x in s
    ensures s == {x} && MinOf(s) == x
  {
    if y :| y in s && y != x {
      SubsetSize({x, y}, s);
    }
  }

  // ---------- runs ----------

  datatype Event =
    | Receive(gid: nat, index: nat, isParity: bool, payload: bytes, now: real)
    | Expire(cutoff: real)

  ghost function Step(n: nat, s: State, e: Event): (State, Recovery) {
    match e
    case Receive(gid, index, isParity, payload, now) => ReceiveStep(n, s, gid, index, isParity, payload, now)
    case Expire(cutoff) => (s.Without(Stale(s, cutoff)), None)
  }

  ghost function After(n: nat, s: State, es: seq<Event>): State {
    if es == [] then s else Step(n, After(n, s, es[..|es| - 1]), es[|es| - 1]).0
  }

  /** What event k of a run returns. */
  ghost function Output(n: nat, s: State, es: seq<Event>, k: nat): Recovery
    requires k < |es|
  {
    Step(n, After(n, s, es[..k]), es[k]).1
  }

  // ---------- bookkeeping ----------

  /** Live groups are stamped, never remembered, and not recoverable; the memory is bounded. */
  ghost predicate Inv(n: nat, s: State) {
    && s.groups.Keys + s.parities.Keys == s.stamps.Keys
    && s.stamps.Keys !! s.delivered
    && |s.delivered| <= MAX_ACTIVE_GROUPS
    && forall gid :: gid in s.stamps ==> !s.Recoverable(n, gid)
  }

  /** The part of Inv that storing keeps. */
  ghost predicate KeysAgree(s: State) {
    && s.groups.Keys + s.parities.Keys == s.stamps.Keys
    && s.stamps.Keys !! s.delivered
    && |s.delivered| <= MAX_ACTIVE_GROUPS
  }

  lemma StoreKeysAgree(s: State, gid: nat, index: nat, isParity: bool, payload: bytes, now: real)
    requires KeysAgree(s) && gid !in s.delivered
    ensures var s1 := Store(s, gid, index, isParity, payload, now);
            KeysAgree(s1) && s1.stamps.Keys == s.stamps.Keys + {gid}
            && s1.delivered == s.delivered && s1.recoveries == s.recoveries
  {
  }

  lemma WithoutKeysAgree(s: State, gids: set<nat>)
    requires KeysAgree(s)
    ensures KeysAgree(s.Without(gids)) && s.Without(gids).stamps.Keys == s.stamps.Keys - gids
  {
  }

  lemma InvReceive(n: nat, s: State, e: Event)
    requires Inv(n, s) && e.Receive? && e.gid !in s.delivered
    ensures Inv(n, Step(n, s, e).0)
    ensures s.recoveries + (if Step(n, s, e).1.Some? then 1 else 0) == Step(n, s, e).0.recoveries
  {
    var s1 := Store(s, e.gid, e.index, e.isParity, e.payload, e.now);
    StoreKeysAgree(s, e.gid, e.index, e.isParity, e.payload, e.now);
    forall g | g in s1.stamps && g != e.gid ensures !s1.Recoverable(n, g) {
      StoreKeeps(s, e.gid, e.index, e.isParity, e.payload, e.now, g);
    }
    if s1.Recoverable(n, e.gid) { InvRecovered(n, s1, e.gid); }
  }

  lemma InvRecovered(n: nat, s: State, gid: nat)
    requires KeysAgree(s) && gid !in s.delivered
    requires forall g :: g in s.stamps && g != gid ==> !s.Recoverable(n, g)
    ensures Inv(n, Recovered(s, gid))
  {
    hide State.Recoverable, Remember;
    var s' := Recovered(s, gid);
    WithoutKeysAgree(s, {gid});
    RememberSize(s.delivered, gid);
    forall g | g in s'.stamps ensures !s'.Recoverable(n, g) {
      OthersAsBefore(n, s, gid, g);
    }
  }

  lemma OthersAsBefore(n: nat, s: State, gid: nat, g: nat)
    requires g != gid
    ensures Recovered(s, gid).Recoverable(n, g) == s.Recoverable(n, g)
  {
    hide Missing, Remember;
    WithoutKeeps(s, {gid}, g);
  }

  lemma InvStep(n: nat, s: State, e: Event)
    requires Inv(n, s)
    ensures Inv(n, Step(n, s, e).0)
    ensures s.recoveries + (if Step(n, s, e).1.Some? then 1 else 0) == Step(n, s, e).0.recoveries
  {
    match e
    case Receive(gid, _, _, _, _) =>
      if gid !in s.delivered { InvReceive(n, s, e); }
    case Expire(cutoff) =>
      var gone := Stale(s, cutoff);
      WithoutKeysAgree(s, gone);
      forall g | g in s.stamps && g !in gone ensures !s.Without(gone).Recoverable(n, g) {
        WithoutKeeps(s, gone, g);
      }
  }

  lemma RememberSize(delivered: set<nat>, gid: nat)
    requires |delivered| <= MAX_ACTIVE_GROUPS
    ensures |Remember(delivered, gid)| <= MAX_ACTIVE_GROUPS
    ensures Remember(delivered, gid) <= delivered + {gid}
  {
  }

  lemma {:induction false} InvRun(n: nat, es: seq<Event>)
    ensures Inv(n, After(n, INIT, es))
  {
    if es != [] {
      InvRun(n, es[..|es| - 1]);
      InvStep(n, After(n, INIT, es[..|es| - 1]), es[|es| - 1]);
    } else {
      EmptyRange(n);
    }
  }

  lemma EmptyRange(n: nat)
    ensures Inv(n, INIT)
  {
  }

  // ---------- soundness ----------

  /** Every stored packet is one the encoder put out. */
  ghost predicate Faithful(n: nat, st: Stream, s: State) {
    && (forall gid, i :: gid in s.groups && i in s.groups[gid] ==> Emitted(n, st, gid, i, false, s.groups[gid][i]))
    && (forall gid :: gid in s.parities ==> Emitted(n, st, gid, n, true, s.parities[gid]))
  }

  ghost predicate FromEncoder(n: nat, st: Stream, e: Event) {
    e.Receive? ==> Emitted(n, st, e.gid, e.index, e.isParity, e.payload)
  }

  lemma SoundStep(n: nat, st: Stream, s: State, e: Event)
    requires st.Valid(n) && Faithful(n, st, s) && FromEncoder(n, st, e)
    ensures Faithful(n, st, Step(n, s, e).0)
    ensures Step(n, s, e).1.Some? ==> e.Receive? && PaddedOriginal(st, e.gid, Step(n, s, e).1.value)
  {
    if e.Receive? && e.gid !in s.delivered {
      var s1 := Store(s, e.gid, e.index, e.isParity, e.payload, e.now);
      FaithfulStore(n, st, s, e);
      if s1.Recoverable(n, e.gid) {
        RecoveryIsRight(n, st, s1, e.gid);
      }
    }
  }

  lemma FaithfulStore(n: nat, st: Stream, s: State, e: Event)
    requires Faithful(n, st, s) && e.Receive? && FromEncoder(n, st, e)
    ensures Faithful(n, st, Store(s, e.gid, e.index, e.isParity, e.payload, e.now))
  {
  }

  lemma RecoveryIsRight(n: nat, st: Stream, s: State, gid: nat)
    requires st.Valid(n) && Faithful(n, st, s) && s.Recoverable(n, gid)
    ensures PaddedOriginal(st, gid, TryRecoverStep(n, s, gid).1.value)
  {
    hide XorSeq, XorBytes, MaxLen;
    var received := s.Received(gid);
    var missing := Missing(n, received.Keys);
    var m := MinOf(missing);
    OnlyElement(missing, m);
    var ps := st.done[gid];
    assert Emitted(n, st, gid, n, true, s.parities[gid]);
    assert ps in st.done && |ps| == n;
    forall i | i in received ensures i < n && received[i] == ps[i] {
      assert Emitted(n, st, gid, i, false, received[i]);
    }
    forall i ensures i in received.Keys - {m} <==> i in Range(0, n) - {m} {
      if i in Range(0, n) && i !in received { assert i in missing; }
    }
    RecoverMissing(ps, received, m);
  }

  lemma {:induction false} FaithfulRun(n: nat, st: Stream, es: seq<Event>)
    requires st.Valid(n) && forall e :: e in es ==> FromEncoder(n, st, e)
    ensures Faithful(n, st, After(n, INIT, es))
  {
    if es != [] {
      FaithfulRun(n, st, es[..|es| - 1]);
      SoundStep(n, st, After(n, INIT, es[..|es| - 1]), es[|es| - 1]);
    }
  }

  /** Any packets of the encoder, in any order, with any repeats and expiries: each recovery is right. */
  lemma EveryRecoveryIsRight(n: nat, st: Stream, es: seq<Event>, k: nat)
    requires st.Valid(n) && forall e :: e in es ==> FromEncoder(n, st, e)
    requires k < |es| && Output(n, INIT, es, k).Some?
    ensures es[k].Receive? && PaddedOriginal(st, es[k].gid, Output(n, INIT, es, k).value)
  {
    FaithfulRun(n, st, es[..k]);
    SoundStep(n, st, After(n, INIT, es[..k]), es[k]);
  }

  // ---------- completeness ----------

  ghost predicate SeenParity(es: seq<Event>, gid: nat) {
    exists k :: 0 <= k < |es| && es[k].Receive? && es[k].gid == gid && es[k].isParity
  }

  /** The data indices of a group seen so far. */
  ghost function SeenData(es: seq<Event>, gid: nat): set<nat> {
    set k | 0 <= k < |es| && es[k].Receive? && es[k].gid == gid && !es[k].isParity :: es[k].index
  }

  /** The packets seen so far determine the one data packet that is missing. */
  ghost predicate Complete(n: nat, es: seq<Event>, gid: nat) {
    SeenParity(es, gid) && |Missing(n, SeenData(es, gid))| == 1
  }

  ghost predicate EverComplete(n: nat, es: seq<Event>, gid: nat) {
    es != [] && (EverComplete(n, es[..|es| - 1], gid) || Complete(n, es, gid))
  }

  ghost predicate Fresh(s: State, gid: nat) {
    gid !in s.delivered && gid !in s.groups && gid !in s.parities && gid !in s.stamps
  }

  lemma SeenMore(es: seq<Event>, gid: nat)
    requires es != []
    ensures var e := es[|es| - 1];
            SeenParity(es, gid) == (SeenParity(es[..|es| - 1], gid) || (e.Receive? && e.gid == gid && e.isParity))
    ensures var e := es[|es| - 1];
            SeenData(es, gid) == SeenData(es[..|es| - 1], gid)
                                 + if e.Receive? && e.gid == gid && !e.isParity then {e.index} else {}
  {
    var init, e := es[..|es| - 1], es[|es| - 1];
    forall x ensures x in SeenData(es, gid) <==>
                     x in SeenData(init, gid) || (e.Receive? && e.gid == gid && !e.isParity && x == e.index)
    {
      if x in SeenData(init, gid) {
        var k :| 0 <= k < |init| && init[k].Receive? && init[k].gid == gid && !init[k].isParity && init[k].index == x;
        assert es[k] == init[k];
      }
      if x in SeenData(es, gid) {
        var k :| 0 <= k < |es| && es[k].Receive? && es[k].gid == gid && !es[k].isParity && es[k].index == x;
        if k < |init| { assert init[k] == es[k]; }
      }
    }
    if SeenParity(init, gid) {
      var k :| 0 <= k < |init| && init[k].Receive? && init[k].gid == gid && init[k].isParity;
      assert es[k] == init[k];
    }
    if e.Receive? && e.gid == gid && e.isParity {
      assert es[|es| - 1].Receive?;
    }
    if SeenParity(es, gid) {
      var k :| 0 <= k < |es| && es[k].Receive? && es[k].gid == gid && es[k].isParity;
      if k < |init| { assert init[k] == es[k]; }
    }
  }

  /** When the first packet of the group came. */
  ghost function FirstOf(es: seq<Event>, gid: nat): Option<real> {
    if es == [] then None else
      var m := |es| - 1;
      var before := FirstOf(es[..m], gid);
      if before.None? && es[m].Receive? && es[m].gid == gid then Some(es[m].now) else before
  }

  /** No expiry before the group first becomes complete has a cutoff after its first packet. */
  ghost predicate NotExpired(n: nat, es: seq<Event>, gid: nat) {
    es != [] ==>
      var m := |es| - 1;
      && NotExpired(n, es[..m], gid)
      && (es[m].Expire? && !EverComplete(n, es[..m], gid) && FirstOf(es[..m], gid).Some? ==>
            FirstOf(es[..m], gid).value >= es[m].cutoff)
  }

  lemma {:induction false} NothingExpires(n: nat, es: seq<Event>, gid: nat)
    requires forall e :: e in es ==> e.Receive?
    ensures NotExpired(n, es, gid)
  {
    if es != [] {
      assert es[|es| - 1] in es;
      NothingExpires(n, es[..|es| - 1], gid);
    }
  }

  function StampOf(s: State, gid: nat): Option<real> {
    if gid in s.stamps then Some(s.stamps[gid]) else None
  }

  /** How one packet moves the stamps. */
  lemma StampAfterPacket(n: nat, s: State, e: Event, gid: nat)
    requires e.Receive?
    ensures var (t, r) := Step(n, s, e);
            StampOf(t, gid) == if e.gid != gid || gid in s.delivered then StampOf(s, gid)
                               else if r.Some? then None
                               else if StampOf(s, gid).Some? then StampOf(s, gid) else Some(e.now)
  {
    hide XorBytes, XorOver, Remember, Missing, MinOf;
  }

  lemma StampAfterExpiry(s: State, cutoff: real, gid: nat)
    ensures gid in Stale(s, cutoff) <==> StampOf(s, gid).Some? && StampOf(s, gid).value < cutoff
    ensures StampOf(s.Without(Stale(s, cutoff)), gid) == if gid in Stale(s, cutoff) then None else StampOf(s, gid)
  {
  }

  /** Until a group first becomes complete, the decoder holds exactly what was seen of it, and since when. */
  lemma {:induction false} HoldsWhatWasSeen(n: nat, s: State, es: seq<Event>, gid: nat)
    requires Fresh(s, gid) && !EverComplete(n, es, gid) && NotExpired(n, es, gid)
    ensures Holds(After(n, s, es), gid, SeenParity(es, gid), SeenData(es, gid))
    ensures StampOf(After(n, s, es), gid) == FirstOf(es, gid)
  {
    if es != [] {
      hide Step, StampOf, Stale;
      var init, e := es[..|es| - 1], es[|es| - 1];
      HoldsWhatWasSeen(n, s, init, gid);
      SeenMore(es, gid);
      if e.Expire? {
        StampAfterExpiry(After(n, s, init), e.cutoff, gid);
        ExpiryKeeps(n, After(n, s, init), e.cutoff, gid);
      } else {
        StampAfterPacket(n, After(n, s, init), e, gid);
        if e.gid == gid {
          OneMoreSeen(n, After(n, s, init), e, SeenParity(init, gid), SeenData(init, gid));
        } else {
          OtherGroupSeen(n, After(n, s, init), e, gid, SeenParity(init, gid), SeenData(init, gid));
        }
      }
    } else {
      NothingSeen(s, gid);
    }
  }

  lemma NothingSeen(s: State, gid: nat)
    requires Fresh(s, gid)
    ensures Holds(s, gid, SeenParity([], gid), SeenData([], gid)) && StampOf(s, gid) == None
  {
  }

  lemma ExpiryKeeps(n: nat, s: State, cutoff: real, gid: nat)
    requires gid !in Stale(s, cutoff)
    ensures var t := Step(n, s, Expire(cutoff)).0;
            && t == s.Without(Stale(s, cutoff)) && t.delivered == s.delivered
            && t.Received(gid) == s.Received(gid) && (gid in t.parities <==> gid in s.parities)
  {
    WithoutKeeps(s, Stale(s, cutoff), gid);
  }

  /** A group's holdings and memory after what has been seen of it. */
  ghost predicate Holds(s: State, gid: nat, parity: bool, data: set<nat>) {
    gid !in s.delivered && (gid in s.parities <==> parity) && s.Received(gid).Keys == data
  }

  /** One packet of the group: it is recovered exactly when what was seen is complete. */
  lemma OneMoreSeen(n: nat, s: State, e: Event, parity: bool, data: set<nat>)
    requires e.Receive? && Holds(s, e.gid, parity, data)
    ensures var parity' := parity || e.isParity;
            var data' := data + (if e.isParity then {} else {e.index});
            var (s', r) := Step(n, s, e);
            && (r.Some? <==> parity' && |Missing(n, data')| == 1)
            && (r.Some? ==> Missing(n, data') == {r.value.0})
            && (r.None? ==> Holds(s', e.gid, parity', data'))
  {
    var s1 := Store(s, e.gid, e.index, e.isParity, e.payload, e.now);
    StoreAdds(s, e);
    if s1.Recoverable(n, e.gid) {
      var missing := Missing(n, s1.Received(e.gid).Keys);
      OnlyElement(missing, MinOf(missing));
    }
  }

  /** A packet of another group changes nothing for this one. */
  lemma OtherGroupSeen(n: nat, s: State, e: Event, gid: nat, parity: bool, data: set<nat>)
    requires e.Receive? && e.gid != gid && Holds(s, gid, parity, data)
    ensures Holds(Step(n, s, e).0, gid, parity, data)
  {
    if e.gid !in s.delivered {
      var s1 := Store(s, e.gid, e.index, e.isParity, e.payload, e.now);
      StoreKeeps(s, e.gid, e.index, e.isParity, e.payload, e.now, gid);
      WithoutKeeps(s1, {e.gid}, gid);
      RememberOthers(s.delivered, e.gid, gid);
    }
  }

  lemma StoreAdds(s: State, e: Event)
    requires e.Receive?
    ensures var s1 := Store(s, e.gid, e.index, e.isParity, e.payload, e.now);
            && (e.gid in s1.parities <==> e.gid in s.parities || e.isParity)
            && s1.Received(e.gid).Keys == s.Received(e.gid).Keys + (if e.isParity then {} else {e.index})
            && s1.delivered == s.delivered
  {
  }

  lemma RememberOthers(delivered: set<nat>, gid: nat, other: nat)
    requires other != gid && other !in delivered
    ensures other !in Remember(delivered, gid)
  {
  }

  /** A fresh group is recovered exactly on the arrival that completes it, whatever else arrives in between. */
  lemma RecoversOnCompletion(n: nat, s: State, es: seq<Event>, gid: nat)
    requires Fresh(s, gid) && es != [] && es[|es| - 1].Receive? && es[|es| - 1].gid == gid
    requires NotExpired(n, es, gid)
    requires !EverComplete(n, es[..|es| - 1], gid)
    ensures var r := Output(n, s, es, |es| - 1);
            && (r.Some? <==> Complete(n, es, gid))
            && (r.Some? ==> Missing(n, SeenData(es, gid)) == {r.value.0})
  {
    var init, e := es[..|es| - 1], es[|es| - 1];
    HoldsWhatWasSeen(n, s, init, gid);
    SeenMore(es, gid);
    OneMoreSeen(n, After(n, s, init), e, SeenParity(init, gid), SeenData(init, gid));
  }

  /** How many recoveries a run returns for one group. */
  ghost function Recoveries(n: nat, s: State, es: seq<Event>, gid: nat): nat {
    if es == [] then 0 else
      var e := es[|es| - 1];
      Recoveries(n, s, es[..|es| - 1], gid)
      + if e.Receive? && e.gid == gid && Output(n, s, es, |es| - 1).Some? then 1 else 0
  }

  /** Once complete, the group id has stayed in memory ever since. */
  ghost predicate StaysRemembered(n: nat, s: State, es: seq<Event>, gid: nat) {
    es != [] ==>
      && StaysRemembered(n, s, es[..|es| - 1], gid)
      && (EverComplete(n, es[..|es| - 1], gid) ==> gid in After(n, s, es[..|es| - 1]).delivered)
  }

  /** Exactly one recovery per group that ever becomes complete, and none for the others. */
  lemma {:induction false} ExactlyOneRecovery(n: nat, s: State, es: seq<Event>, gid: nat)
    requires Fresh(s, gid) && NotExpired(n, es, gid) && StaysRemembered(n, s, es, gid)
    ensures Recoveries(n, s, es, gid) == if EverComplete(n, es, gid) then 1 else 0
  {
    if es != [] {
      var init, e := es[..|es| - 1], es[|es| - 1];
      ExactlyOneRecovery(n, s, init, gid);
      if !EverComplete(n, init, gid) {
        if e.Receive? && e.gid == gid {
          RecoversOnCompletion(n, s, es, gid);
        } else {
          StillIncomplete(n, es, gid);
        }
      }
    }
  }

  lemma StillIncomplete(n: nat, es: seq<Event>, gid: nat)
    requires es != [] && (es[|es| - 1].Expire? || es[|es| - 1].gid != gid)
    requires !EverComplete(n, es[..|es| - 1], gid)
    ensures !Complete(n, es, gid)
  {
    SeenMore(es, gid);
    if |es| == 1 {
      assert !SeenParity(es[..0], gid);
    }
  }

  // ---------- when groups began ----------

  /** When the first packet of the group came since the group was last recovered or expired, if it is held. */
  ghost function Began(n: nat, es: seq<Event>, gid: nat): Option<real> {
    if es == [] then None else
      var m := |es| - 1;
      var before := Began(n, es[..m], gid);
      match es[m]
      case Expire(cutoff) => if before.Some? && before.value < cutoff then None else before
      case Receive(g, _, _, _, now) =>
        if g != gid || gid in After(n, INIT, es[..m]).delivered then before
        else if Output(n, INIT, es, m).Some? then None
        else if before.Some? then before else Some(now)
  }

  /** Over every run, a group is stamped with the time it began, later packets of it notwithstanding. */
  lemma {:induction false} StampedWhenBegun(n: nat, es: seq<Event>, gid: nat)
    ensures StampOf(After(n, INIT, es), gid) == Began(n, es, gid)
  {
    if es != [] {
      hide Step, StampOf, Stale;
      var m := |es| - 1;
      StampedWhenBegun(n, es[..m], gid);
      var s := After(n, INIT, es[..m]);
      match es[m]
      case Expire(cutoff) =>
        StampAfterExpiry(s, cutoff, gid);
        StepExpires(n, s, cutoff);
      case Receive(_, _, _, _, _) => StampAfterPacket(n, s, es[m], gid);
    } else {
      NothingStamped(gid);
    }
  }

  lemma NothingStamped(gid: nat)
    ensures StampOf(INIT, gid) == None
  {
  }

  lemma StepExpires(n: nat, s: State, cutoff: real)
    ensures Step(n, s, Expire(cutoff)) == (s.Without(Stale(s, cutoff)), None)
  {
  }

  /** An expiry drops exactly the groups that began before the cutoff. */
  lemma ExpiresByAge(n: nat, es: seq<Event>, cutoff: real, gid: nat)
    ensures gid in Stale(After(n, INIT, es), cutoff) <==> Began(n, es, gid).Some? && Began(n, es, gid).value < cutoff
    ensures var t := After(n, INIT, es + [Expire(cutoff)]);
            if Began(n, es, gid).Some? && Began(n, es, gid).value < cutoff
            then gid !in t.groups && gid !in t.parities && gid !in t.stamps
            else t.Received(gid) == After(n, INIT, es).Received(gid)
                 && (gid in t.parities <==> gid in After(n, INIT, es).parities)
  {
    hide Began, After, Stale;
    var s := After(n, INIT, es);
    StampedWhenBegun(n, es, gid);
    StampAfterExpiry(s, cutoff, gid);
    AfterExpiry(n, es, cutoff);
    if gid !in Stale(s, cutoff) { ExpiryKeeps(n, s, cutoff, gid); }
  }

  lemma AfterExpiry(n: nat, es: seq<Event>, cutoff: real)
    ensures var s := After(n, INIT, es);
            After(n, INIT, es + [Expire(cutoff)]) == s.Without(Stale(s, cutoff))
  {
    assert (es + [Expire(cutoff)])[..|es|] == es;
  }

  // ---------- no packet twice ----------

  /** The data indices of a group that came with event lo or later. */
  ghost function DataFrom(es: seq<Event>, lo: nat, gid: nat): set<nat> {
    if |es| <= lo then {} else
      var e := es[|es| - 1];
      DataFrom(es[..|es| - 1], lo, gid) + if e.Receive? && e.gid == gid && !e.isParity then {e.index} else {}
  }

  /** No data packet of a group comes again. */
  ghost predicate DataOnce(es: seq<Event>) {
    forall i, j :: 0 <= i < j < |es| && es[i].Receive? && es[j].Receive? && !es[i].isParity && !es[j].isParity ==>
      es[i].gid != es[j].gid || es[i].index != es[j].index
  }

  lemma {:induction false} CameFrom(es: seq<Event>, lo: nat, gid: nat, x: nat) returns (i: nat)
    requires x in DataFrom(es, lo, gid)
    ensures lo <= i < |es| && es[i].Receive? && es[i].gid == gid && !es[i].isParity && es[i].index == x
  {
    var n := |es| - 1;
    if x in DataFrom(es[..n], lo, gid) {
      i := CameFrom(es[..n], lo, gid, x);
    } else {
      i := n;
    }
  }

  lemma TryOnlyDrops(n: nat, s: State, tried: nat, gid: nat)
    ensures TryRecoverStep(n, s, tried).0.Received(gid).Keys <= s.Received(gid).Keys
    ensures TryRecoverStep(n, s, tried).1.Some? ==> TryRecoverStep(n, s, tried).0.Received(tried) == map[]
  {
    hide XorBytes, XorOver, Missing, MinOf, Remember;
  }

  lemma StepHolds(n: nat, s: State, e: Event, gid: nat)
    ensures Step(n, s, e).0.Received(gid).Keys
            <= s.Received(gid).Keys + if e.Receive? && e.gid == gid && !e.isParity then {e.index} else {}
  {
    hide TryRecoverStep;
    if e.Receive? && e.gid !in s.delivered {
      TryOnlyDrops(n, Store(s, e.gid, e.index, e.isParity, e.payload, e.now), e.gid, gid);
    }
  }

  /** What is held of a group of which nothing was held came since. */
  lemma {:induction false} HeldCameLater(n: nat, es: seq<Event>, lo: nat, gid: nat)
    requires lo <= |es| && After(n, INIT, es[..lo]).Received(gid) == map[]
    ensures After(n, INIT, es).Received(gid).Keys <= DataFrom(es, lo, gid)
  {
    hide After, DataFrom;
    if lo < |es| {
      var m := |es| - 1;
      assert es[..m][..lo] == es[..lo];
      HeldCameLater(n, es[..m], lo, gid);
      HeldMore(n, es, lo, gid);
    } else {
      assert es[..lo] == es;
    }
  }

  lemma HeldMore(n: nat, es: seq<Event>, lo: nat, gid: nat)
    requires lo < |es| && After(n, INIT, es[..|es| - 1]).Received(gid).Keys <= DataFrom(es[..|es| - 1], lo, gid)
    ensures After(n, INIT, es).Received(gid).Keys <= DataFrom(es, lo, gid)
  {
    hide Step;
    StepHolds(n, After(n, INIT, es[..|es| - 1]), es[|es| - 1], gid);
  }

  /** A recovery leaves nothing of its group, and has used every data packet but the one recovered. */
  lemma RecoveryUses(n: nat, es: seq<Event>, lo: nat, j: nat)
    requires lo <= j < |es| && Output(n, INIT, es, j).Some?
    requires es[j].Receive? && After(n, INIT, es[..lo]).Received(es[j].gid) == map[]
    ensures After(n, INIT, es[..j + 1]).Received(es[j].gid) == map[]
    ensures Range(0, n) - {Output(n, INIT, es, j).value.0} <= DataFrom(es[..j + 1], lo, es[j].gid)
  {
    hide TryRecoverStep, DataFrom, Store, Range, After;
    var e, s := es[j], After(n, INIT, es[..j]);
    assert es[..j + 1][..j] == es[..j] && es[..j][..lo] == es[..lo];
    HeldCameLater(n, es[..j], lo, e.gid);
    var s1 := Store(s, e.gid, e.index, e.isParity, e.payload, e.now);
    TryOnlyDrops(n, s1, e.gid, e.gid);
    StoreAdds(s, e);
    AfterMore(n, es, j);
    DataMore(es, lo, j);
    AllButOneHeld(n, s1, e.gid);
  }

  lemma AfterMore(n: nat, es: seq<Event>, j: nat)
    requires j < |es|
    ensures After(n, INIT, es[..j + 1]) == Step(n, After(n, INIT, es[..j]), es[j]).0
  {
    assert es[..j + 1][..j] == es[..j];
  }

  lemma DataMore(es: seq<Event>, lo: nat, j: nat)
    requires lo <= j < |es| && es[j].Receive?
    ensures DataFrom(es[..j + 1], lo, es[j].gid)
            == DataFrom(es[..j], lo, es[j].gid) + if es[j].isParity then {} else {es[j].index}
  {
    assert es[..j + 1][..j] == es[..j];
  }

  lemma AllButOneHeld(n: nat, s: State, gid: nat)
    requires TryRecoverStep(n, s, gid).1.Some?
    ensures Range(0, n) - {TryRecoverStep(n, s, gid).1.value.0} <= s.Received(gid).Keys
  {
    hide XorBytes, XorOver, Recovered;
    var missing := Missing(n, s.Received(gid).Keys);
    OnlyElement(missing, MinOf(missing));
    forall i | i in Range(0, n) && i !in s.Received(gid) ensures i == MinOf(missing) { assert i in missing; }
  }

  /**
   If no data packet comes twice, no packet is recovered twice, however often its group expires and is forgotten, as
   long as groups have more than one packet.
   */
  lemma NeverTwice(n: nat, es: seq<Event>, i: nat, j: nat)
    requires n >= 2 && DataOnce(es) && i < j < |es| && es[i].Receive? && es[j].Receive? && es[i].gid == es[j].gid
    requires Output(n, INIT, es, i).Some? && Output(n, INIT, es, j).Some?
    ensures Output(n, INIT, es, i).value.0 != Output(n, INIT, es, j).value.0
  {
    hide Output, After, DataFrom, Range;
    NothingAtFirst(n, es, es[i].gid);
    RecoveryUses(n, es, 0, i);
    RecoveryUses(n, es, i + 1, j);
    var m := Output(n, INIT, es, i).value.0;
    if m == Output(n, INIT, es, j).value.0 {
      var other := if m == 0 then 1 else 0;
      assert other in Range(0, n) - {m} by { InRange(n, other); }
      WhenItCame(es, 0, i + 1, es[i].gid, other);
      WhenItCame(es, i + 1, j + 1, es[i].gid, other);
    }
  }

  lemma WhenItCame(es: seq<Event>, lo: nat, hi: nat, gid: nat, x: nat)
    requires lo <= hi <= |es| && x in DataFrom(es[..hi], lo, gid)
    ensures exists i :: lo <= i < hi && es[i].Receive? && es[i].gid == gid && !es[i].isParity && es[i].index == x
  {
    var i := CameFrom(es[..hi], lo, gid, x);
    assert es[i] == es[..hi][i];
  }

  lemma InRange(n: nat, i: nat)
    requires i < n
    ensures i in Range(0, n)
  {
  }

  lemma NothingAtFirst(n: nat, es: seq<Event>, gid: nat)
    ensures After(n, INIT, es[..0]).Received(gid) == map[]
  {
    assert es[..0] == [];
  }
}
