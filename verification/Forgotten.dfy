/** Why groups need more data than parity: a decoder that forgets a group can recover a packet of it again. */
module Forgotten {
  import opened Collections
  import opened Bytes
  import opened GroupStream
  import opened RsFec
  import XF = XorFec
  import XD = XorDecoder
  import RD = RsDecoder
  import W = Witness

  /** A memory of the first n group ids that is one too many for its limit forgets the lowest. */
  lemma LowestForgotten(n: nat, k: nat)
    requires k <= n
    ensures DropLowest(Range(0, n), k) == Range(k, n)
  {
    hide DropLowest, Range;
    UpperPartUnique(Range(0, n), DropLowest(Range(0, n), k), Range(k, n));
  }

  // ---------- XOR groups of one packet ----------

  /** A copy of the one packet of the group. */
  function CopyOf(gid: nat): XD.Event {
    XD.Receive(gid, 1, true, [], 0.0)
  }

  /** Copies of the packets of groups 0, 1, ..., n - 1. */
  function Copies(n: nat): (es: seq<XD.Event>)
    ensures |es| == n && forall i :: 0 <= i < n ==> es[i] == CopyOf(i)
  {
    if n == 0 then [] else Copies(n - 1) + [CopyOf(n - 1)]
  }

  predicate XorIdle(s: XD.State) {
    s.groups == map[] && s.parities == map[]
  }

  lemma CopyRecovers(s: XD.State, gid: nat)
    requires XorIdle(s) && gid !in s.delivered
    ensures var (t, r) := XD.Step(1, s, CopyOf(gid));
            XorIdle(t) && t.delivered == XD.Remember(s.delivered, gid) && r.Some? && r.value.0 == 0
  {
    hide XD.TryRecoverStep, XD.Store, XD.Remember;
    CopyStored(s, gid);
    CopyIsAll(XD.Store(s, gid, 1, true, [], 0.0), gid);
  }

  lemma CopyStored(s: XD.State, gid: nat)
    requires XorIdle(s)
    ensures var t := XD.Store(s, gid, 1, true, [], 0.0);
            t.groups == map[] && t.parities == map[gid := []] && t.delivered == s.delivered
  {
  }

  lemma CopyIsAll(s: XD.State, gid: nat)
    requires s.groups == map[] && s.parities == map[gid := []]
    ensures var (t, r) := XD.TryRecoverStep(1, s, gid);
            XorIdle(t) && t.delivered == XD.Remember(s.delivered, gid) && r.Some? && r.value.0 == 0
  {
    hide XorBytes, XF.XorOver, XD.Remember, MinOf;
    assert XF.Missing(1, s.Received(gid).Keys) == {0};
    assert s.Without({gid}).groups == map[] && s.Without({gid}).parities == map[];
  }

  lemma {:induction false} CopiesRemembered(n: nat)
    requires n <= XD.MAX_ACTIVE_GROUPS
    ensures var s := XD.After(1, XD.INIT, Copies(n)); XorIdle(s) && s.delivered == Range(0, n)
  {
    hide XD.Step, Range, XD.Remember, Copies, XorIdle;
    if n != 0 {
      CopiesRemembered(n - 1);
      CopiesMore(n);
      OneMoreInRange(n - 1);
      CopyRecovers(XD.After(1, XD.INIT, Copies(n - 1)), n - 1);
      RoomForCopy(n - 1);
    } else {
      NothingRemembered();
    }
  }

  lemma CopiesMore(n: nat)
    requires n != 0
    ensures Copies(n)[..n - 1] == Copies(n - 1)
  {
  }

  lemma NothingRemembered()
    ensures XD.After(1, XD.INIT, Copies(0)) == XD.INIT && XD.INIT.delivered == Range(0, 0) && XorIdle(XD.INIT)
  {
  }

  lemma RoomForCopy(n: nat)
    ensures n < XD.MAX_ACTIVE_GROUPS ==> XD.Remember(Range(0, n), n) == Range(0, n + 1)
    ensures n == XD.MAX_ACTIVE_GROUPS ==> 0 !in XD.Remember(Range(0, n), n)
  {
    hide Range, DropLowest;
    OneMoreInRange(n);
    LowestForgotten(n + 1, (n + 1) / 2);
  }

  /** A run of the decoder on what an encoder has put out, no data packet twice, with two recoveries of one group. */
  datatype XorRun = XorRun(st: Stream, es: seq<XD.Event>, i: nat, j: nat)

  ghost predicate XorRepeats(n: nat, x: XorRun) {
    && x.st.Valid(n) && (forall e :: e in x.es ==> XD.FromEncoder(n, x.st, e)) && XD.DataOnce(x.es)
    && x.i < x.j < |x.es| && x.es[x.i].Receive? && x.es[x.j].Receive? && x.es[x.i].gid == x.es[x.j].gid
    && XD.Output(n, XD.INIT, x.es, x.i).Some? && XD.Output(n, XD.INIT, x.es, x.j).Some?
  }

  /** No data packet twice means no recovery twice, in all runs. */
  ghost predicate XorNeverTwice(n: nat) {
    forall x: XorRun :: XorRepeats(n, x) ==>
      XD.Output(n, XD.INIT, x.es, x.i).value.0 != XD.Output(n, XD.INIT, x.es, x.j).value.0
  }

  /** Groups of empty payloads. */
  function Blanks(n: nat, k: nat): (g: seq<seq<bytes>>)
    ensures |g| == n && forall i :: 0 <= i < n ==> |g[i]| == k && forall j :: 0 <= j < k ==> g[i][j] == []
  {
    if n == 0 then [] else Blanks(n - 1, k) + [Empties(k)]
  }

  function Empties(k: nat): (g: seq<bytes>)
    ensures |g| == k && forall j :: 0 <= j < k ==> g[j] == []
  {
    if k == 0 then [] else Empties(k - 1) + [[]]
  }

  /** More groups than are remembered, each recovered from its copy, and then the first copy again. */
  function ForgottenCopy(): XorRun {
    var n := XD.MAX_ACTIVE_GROUPS + 1;
    XorRun(Stream(Blanks(n, 1), []), Copies(n) + [CopyOf(0)], 0, n)
  }

  lemma CopiesAreEmitted()
    ensures var x := ForgottenCopy();
            x.st.Valid(1) && (forall e :: e in x.es ==> XD.FromEncoder(1, x.st, e)) && XD.DataOnce(x.es)
  {
    var x := ForgottenCopy();
    forall e | e in x.es ensures XD.FromEncoder(1, x.st, e) {
      var i :| 0 <= i < |x.es| && x.es[i] == e;
      var g := x.st.done[e.gid];
      assert g == [[]];
      W.EqualLengths(g, 0);
    }
  }

  lemma CopyComesTwice()
    ensures XorRepeats(1, ForgottenCopy())
    ensures var x := ForgottenCopy();
            XD.Output(1, XD.INIT, x.es, x.i).value.0 == 0 == XD.Output(1, XD.INIT, x.es, x.j).value.0
  {
    hide XD.Step, Copies, Range, XD.Remember, Blanks;
    var n, x := XD.MAX_ACTIVE_GROUPS, ForgottenCopy();
    CopiesAreEmitted();
    CopiesRemembered(0);
    CopiesRemembered(n);
    NothingRemembered();
    CopiesMore(n + 1);
    assert x.es[..n + 1] == Copies(n + 1) && x.es[..0] == [];
    CopyRecovers(XD.INIT, 0);
    CopyRecovers(XD.After(1, XD.INIT, Copies(n)), n);
    RoomForCopy(n);
    CopyRecovers(XD.After(1, XD.INIT, Copies(n + 1)), 0);
  }

  /** An XOR decoder recovers no packet twice, on all runs, exactly when groups have two packets or more. */
  lemma XorOnceExactly(n: nat)
    requires n >= 1
    ensures XorNeverTwice(n) <==> n >= 2
  {
    hide XD.Output, XD.DataOnce, ForgottenCopy;
    if n >= 2 {
      forall x: XorRun | XorRepeats(n, x)
        ensures XD.Output(n, XD.INIT, x.es, x.i).value.0 != XD.Output(n, XD.INIT, x.es, x.j).value.0
      {
        XD.NeverTwice(n, x.es, x.i, x.j);
      }
    } else {
      CopyComesTwice();
    }
  }

  // ---------- Reed-Solomon groups with more than one parity to two data packets ----------

  /** Empty shards of one group arrive, with these indices. */
  function Shards(gid: nat, indices: seq<nat>): (es: seq<RD.Event>)
    ensures |es| == |indices| && forall i :: 0 <= i < |es| ==> es[i] == RD.Receive(gid, indices[i], [], 0.0)
  {
    if indices == [] then [] else
      var n := |indices| - 1;
      Shards(gid, indices[..n]) + [RD.Receive(gid, indices[n], [], 0.0)]
  }

  function SetOf(q: seq<nat>): set<nat> {
    set x | x in q
  }

  /** Empty shards with these indices are all that is held. */
  ghost predicate HoldsOnly(s: RD.State, gid: nat, indices: seq<nat>) {
    && (indices == [] ==> s.groups == map[])
    && (indices != [] ==> s.groups.Keys == {gid})
    && s.Received(gid).Keys == SetOf(indices)
    && forall i :: i in s.Received(gid) ==> s.Received(gid)[i] == []
  }

  lemma SizeOfDistinct(q: seq<nat>)
    requires Distinct(q)
    ensures |SetOf(q)| == |q|
  {
    DistinctCount(q, SetOf(q));
  }

  lemma StoreHolds(s: RD.State, gid: nat, indices: seq<nat>, x: nat)
    requires HoldsOnly(s, gid, indices)
    ensures var t := RD.Store(s, gid, x, [], 0.0);
            HoldsOnly(t, gid, indices + [x]) && t.delivered == s.delivered
  {
    var t := RD.Store(s, gid, x, [], 0.0);
    assert t.Received(gid) == s.Received(gid)[x := []];
    assert SetOf(indices + [x]) == SetOf(indices) + {x};
  }

  /** Too few to be a group. */
  lemma {:induction false} ShardsHeld(c: Codec, k: nat, p: nat, s: RD.State, gid: nat, indices: seq<nat>)
    requires s.groups == map[] && gid !in s.delivered && Distinct(indices) && |indices| < k
    ensures var t := RD.After(c, k, p, s, Shards(gid, indices));
            HoldsOnly(t, gid, indices) && t.delivered == s.delivered
  {
    hide RD.Store, HoldsOnly, Decoded, SortedSeq, RD.MissingData;
    if indices != [] {
      var n := |indices| - 1;
      ShardsHeld(c, k, p, s, gid, indices[..n]);
      assert Shards(gid, indices)[..n] == Shards(gid, indices[..n]);
      assert indices[..n] + [indices[n]] == indices;
      var t := RD.After(c, k, p, s, Shards(gid, indices[..n]));
      StoreHolds(t, gid, indices[..n], indices[n]);
      HeldAreMany(RD.Store(t, gid, indices[n], [], 0.0), gid, indices);
    } else {
      NothingHeld(s, gid);
    }
  }

  lemma NothingHeld(s: RD.State, gid: nat)
    requires s.groups == map[]
    ensures HoldsOnly(s, gid, [])
  {
  }

  lemma HeldAreMany(s: RD.State, gid: nat, indices: seq<nat>)
    requires HoldsOnly(s, gid, indices) && Distinct(indices)
    ensures |s.Received(gid)| == |indices|
  {
    SizeOfDistinct(indices);
    assert |s.Received(gid).Keys| == |s.Received(gid)|;
  }

  /** What k shards make the decoder return: every data packet that is not among them. */
  ghost predicate ReturnsMissing(k: nat, indices: seq<nat>, rs: RD.Recoveries) {
    forall m :: 0 <= m < k && m !in indices ==> exists r :: r in rs && r.0 == m
  }

  lemma EmptyShardsDecode(c: Codec, k: nat, p: nat, s: RD.State, gid: nat, indices: seq<nat>)
    requires HoldsOnly(s, gid, indices) && Distinct(indices) && |indices| == k >= 1
    ensures Decoded(c, k, p, s.Received(gid)).Ok?
  {
    var shards := s.Received(gid);
    HeldAreMany(s, gid, indices);
    assert indices[0] in shards;
    assert IsMaxBlock(shards, 0) by { assert |shards[indices[0]]| == 0; }
    MaxBlockUnique(shards, 0);
  }

  lemma KShardsClose(c: Codec, k: nat, p: nat, s: RD.State, gid: nat, indices: seq<nat>)
    requires HoldsOnly(s, gid, indices) && Distinct(indices) && |indices| == k >= 1
    ensures var (t, rs) := RD.TryRecoverStep(c, k, p, s, gid);
            t.groups == map[] && t.delivered == RD.Purged(s.delivered + {gid}) && ReturnsMissing(k, indices, rs)
  {
    hide Decoded, RD.Purged, ReturnsMissing, SortedSeq, RD.MissingData, Distinct;
    HeldAreMany(s, gid, indices);
    EmptyShardsDecode(c, k, p, s, gid, indices);
    assert s.Without({gid}).groups == map[];
    MissingReturned(k, s, gid, indices, DecodedOrNone(c, k, p, s.Received(gid)));
  }

  ghost function DecodedOrNone(c: Codec, k: nat, p: nat, shards: map<nat, bytes>): seq<bytes> {
    var d := Decoded(c, k, p, shards);
    if d.Ok? then d.value else []
  }

  lemma MissingReturned(k: nat, s: RD.State, gid: nat, indices: seq<nat>, blocks: seq<bytes>)
    requires s.Received(gid).Keys == SetOf(indices)
    ensures var missing := RD.MissingData(k, s.Received(gid).Keys);
            && ReturnsMissing(k, indices, RD.Pick(blocks, SortedSeq(missing)))
            && (missing == {} ==> ReturnsMissing(k, indices, []))
  {
    hide SortedSeq, RD.Pick, RD.MissingData;
    var missing := RD.MissingData(k, s.Received(gid).Keys);
    forall m | 0 <= m < k && m !in indices
      ensures m in missing && exists r :: r in RD.Pick(blocks, SortedSeq(missing)) && r.0 == m
    {
      IsMissing(k, indices, m);
      IsPicked(blocks, missing, m);
    }
  }

  lemma IsMissing(k: nat, indices: seq<nat>, m: nat)
    requires m < k && m !in indices
    ensures m in RD.MissingData(k, SetOf(indices))
  {
  }

  lemma IsPicked(blocks: seq<bytes>, missing: set<nat>, m: nat)
    requires m in missing
    ensures exists r :: r in RD.Pick(blocks, SortedSeq(missing)) && r.0 == m
  {
    hide SortedSeq, RD.Pick;
    var q := SortedSeq(missing);
    var i :| 0 <= i < |q| && q[i] == m;
    assert RD.Pick(blocks, q)[i] in RD.Pick(blocks, q);
  }

  /** k shards of a group that is not remembered: it is closed, and every data packet not among them comes out. */
  lemma GroupCloses(c: Codec, k: nat, p: nat, s: RD.State, gid: nat, indices: seq<nat>)
    requires s.groups == map[] && gid !in s.delivered && Distinct(indices) && |indices| == k >= 1
    ensures var es := Shards(gid, indices);
            var t := RD.After(c, k, p, s, es);
            && t.groups == map[] && t.delivered == RD.Purged(s.delivered + {gid})
            && ReturnsMissing(k, indices, RD.Step(c, k, p, RD.After(c, k, p, s, es[..k - 1]), es[k - 1]).1)
  {
    hide RD.Store, HoldsOnly, RD.TryRecoverStep, RD.Purged, ReturnsMissing;
    var n := k - 1;
    ShardsHeld(c, k, p, s, gid, indices[..n]);
    assert Shards(gid, indices)[..n] == Shards(gid, indices[..n]);
    assert indices[..n] + [indices[n]] == indices;
    var t := RD.After(c, k, p, s, Shards(gid, indices[..n]));
    StoreHolds(t, gid, indices[..n], indices[n]);
    KShardsClose(c, k, p, RD.Store(t, gid, indices[n], [], 0.0), gid, indices);
  }

  lemma {:induction false} RunsConcat(c: Codec, k: nat, p: nat, s: RD.State, a: seq<RD.Event>, b: seq<RD.Event>)
    ensures RD.After(c, k, p, s, a + b) == RD.After(c, k, p, RD.After(c, k, p, s, a), b)
  {
    hide RD.Step;
    if b == [] {
      assert a + b == a;
    } else {
      var n := |b| - 1;
      RunsConcat(c, k, p, s, a, b[..n]);
      assert (a + b)[..|a + b| - 1] == a + b[..n];
    }
  }

  function Counting(lo: nat, n: nat): (q: seq<nat>)
    ensures |q| == n && forall i :: 0 <= i < n ==> q[i] == lo + i
  {
    if n == 0 then [] else Counting(lo, n - 1) + [lo + n - 1]
  }

  /** All data packets of groups 1, ..., n. */
  function Others(k: nat, n: nat): seq<RD.Event> {
    if n == 0 then [] else Others(k, n - 1) + Shards(n, Counting(0, k))
  }

  lemma {:induction false} OthersClose(c: Codec, k: nat, p: nat, s: RD.State, n: nat)
    requires k >= 1 && s.groups == map[] && s.delivered == Range(0, 1) && n < RD.MAX_DELIVERED
    ensures var t := RD.After(c, k, p, s, Others(k, n)); t.groups == map[] && t.delivered == Range(0, n + 1)
  {
    hide Range, RD.Purged, RD.After;
    if n != 0 {
      OthersClose(c, k, p, s, n - 1);
      OneMoreOther(c, k, p, s, n);
      RoomForOther(n);
    } else {
      assert Others(k, 0) == [];
      NothingHappens(c, k, p, s);
    }
  }

  lemma NothingHappens(c: Codec, k: nat, p: nat, s: RD.State)
    ensures RD.After(c, k, p, s, []) == s
  {
  }

  lemma OneMoreOther(c: Codec, k: nat, p: nat, s: RD.State, n: nat)
    requires k >= 1 && n >= 1
    requires var t := RD.After(c, k, p, s, Others(k, n - 1)); t.groups == map[] && t.delivered == Range(0, n)
    ensures var t := RD.After(c, k, p, s, Others(k, n));
            t.groups == map[] && t.delivered == RD.Purged(Range(0, n) + {n})
  {
    hide Range, RD.Purged, RD.After, RD.Step;
    var t := RD.After(c, k, p, s, Others(k, n - 1));
    RunsConcat(c, k, p, s, Others(k, n - 1), Shards(n, Counting(0, k)));
    OneMoreInRange(n);
    GroupCloses(c, k, p, t, n, Counting(0, k));
  }

  lemma RoomForOther(n: nat)
    ensures n < RD.MAX_DELIVERED ==> RD.Purged(Range(0, n) + {n}) == Range(0, n + 1)
    ensures n == RD.MAX_DELIVERED ==> 0 !in RD.Purged(Range(0, n) + {n})
  {
    hide Range, DropLowest;
    OneMoreInRange(n);
    if n == RD.MAX_DELIVERED { LowestForgotten(n + 1, RD.PURGE_COUNT); }
  }

  /** How many data shards have to be there when all the parity is. */
  function FewData(k: nat, p: nat): nat {
    if k > p then k - p else 0
  }

  /** So many data shards from number lo on, and parity for the others. */
  function Enough(k: nat, p: nat, lo: nat): (q: seq<nat>)
    ensures |q| == k
  {
    var d := FewData(k, p);
    Counting(lo, d) + Counting(k, k - d)
  }

  lemma EnoughIsProper(k: nat, p: nat, lo: nat)
    requires k >= 1 && p >= 1 && lo + FewData(k, p) < k
    ensures Distinct(Enough(k, p, lo)) && k - 1 !in Enough(k, p, lo)
    ensures forall x :: x in Enough(k, p, lo) ==> x < k + p && (x < k ==> lo <= x < lo + FewData(k, p))
  {
  }

  /** A run of the decoder on what an encoder has put out, no data packet twice, with two recoveries of one group. */
  datatype RsRun = RsRun(st: Stream, es: seq<RD.Event>, i: nat, j: nat, r: (nat, bytes), r': (nat, bytes))

  ghost predicate RsRepeats(c: Codec, k: nat, p: nat, x: RsRun) {
    && x.st.Valid(k) && (forall e :: e in x.es ==> RD.FromEncoder(c, k, p, x.st, e)) && RD.DataOnce(k, x.es)
    && x.i < x.j < |x.es| && x.es[x.i].Receive? && x.es[x.j].Receive? && x.es[x.i].gid == x.es[x.j].gid
    && x.r in RD.Output(c, k, p, RD.INIT, x.es, x.i) && x.r' in RD.Output(c, k, p, RD.INIT, x.es, x.j)
  }

  /** No data packet twice means no recovery twice, in all runs. */
  ghost predicate RsNeverTwice(c: Codec, k: nat, p: nat) {
    forall x: RsRun :: RsRepeats(c, k, p, x) ==> x.r.0 != x.r'.0
  }

  /** Enough of group 0, then all of more groups than are remembered, then enough of group 0 with other data. */
  function ForgottenShards(k: nat, p: nat): seq<RD.Event> {
    Shards(0, Enough(k, p, 0)) + Others(k, RD.MAX_DELIVERED) + Shards(0, Enough(k, p, FewData(k, p)))
  }

  /** Both times the last data packet comes out. */
  lemma LastComesOutTwice(c: Codec, k: nat, p: nat) returns (r: (nat, bytes), r': (nat, bytes))
    requires k >= 1 && k < 2 * p
    ensures var es := ForgottenShards(k, p);
            && k - 1 < |es| - 1 && es[k - 1] == RD.Receive(0, es[k - 1].index, [], 0.0)
            && es[|es| - 1] == RD.Receive(0, es[|es| - 1].index, [], 0.0)
            && r in RD.Output(c, k, p, RD.INIT, es, k - 1) && r' in RD.Output(c, k, p, RD.INIT, es, |es| - 1)
            && r.0 == r'.0 == k - 1
  {
    hide RD.Step, RD.After, Range, RD.Purged, Enough, Others;
    var first, rest := Shards(0, Enough(k, p, 0)), Others(k, RD.MAX_DELIVERED);
    var es, again := ForgottenShards(k, p), Shards(0, Enough(k, p, FewData(k, p)));
    EnoughIsProper(k, p, 0);
    EnoughIsProper(k, p, FewData(k, p));
    GroupCloses(c, k, p, RD.INIT, 0, Enough(k, p, 0));
    var s := RD.After(c, k, p, RD.INIT, first);
    assert es[..k - 1] == first[..k - 1] && es[k - 1] == first[k - 1];
    FirstRemembered();
    OthersForgetFirst(c, k, p, s);
    RunsConcat(c, k, p, RD.INIT, first, rest);
    var t := RD.After(c, k, p, RD.INIT, first + rest);
    GroupCloses(c, k, p, t, 0, Enough(k, p, FewData(k, p)));
    RunsConcat(c, k, p, RD.INIT, first + rest, again[..k - 1]);
    assert es[..|es| - 1] == first + rest + again[..k - 1] && es[|es| - 1] == again[k - 1];
    r :| r in RD.Output(c, k, p, RD.INIT, es, k - 1) && r.0 == k - 1;
    r' :| r' in RD.Output(c, k, p, RD.INIT, es, |es| - 1) && r'.0 == k - 1;
  }

  lemma FirstRemembered()
    ensures RD.Purged({} + {0}) == Range(0, 1)
  {
    assert |{0}| == 1;
    assert Range(0, 1) == {0};
  }

  lemma OthersForgetFirst(c: Codec, k: nat, p: nat, s: RD.State)
    requires k >= 1 && s.groups == map[] && s.delivered == Range(0, 1)
    ensures var t := RD.After(c, k, p, s, Others(k, RD.MAX_DELIVERED)); t.groups == map[] && 0 !in t.delivered
  {
    hide RD.After, Range, RD.Purged, Others;
    OthersClose(c, k, p, s, RD.MAX_DELIVERED - 1);
    OneMoreOther(c, k, p, s, RD.MAX_DELIVERED);
    RoomForOther(RD.MAX_DELIVERED);
  }

  // ---------- an encoder puts all that out, and no data packet comes twice ----------

  /** An empty shard of group 0, 1, ..., n. */
  predicate Empty(k: nat, p: nat, n: nat, e: RD.Event) {
    e.Receive? && e.gid <= n && e.index < k + p && e.payload == []
  }

  lemma EmptyIsEmitted(c: Codec, k: nat, p: nat, n: nat, e: RD.Event)
    requires Empty(k, p, n, e)
    ensures RD.FromEncoder(c, k, p, Stream(Blanks(n + 1, k), []), e)
  {
    W.EqualLengths(Blanks(n + 1, k)[e.gid], 0);
  }

  ghost predicate Apart(k: nat, a: seq<RD.Event>, b: seq<RD.Event>) {
    forall x, y :: x in a && y in b && x.Receive? && y.Receive? && x.index < k && y.index < k ==>
      x.gid != y.gid || x.index != y.index
  }

  lemma OnceInBoth(k: nat, a: seq<RD.Event>, b: seq<RD.Event>)
    requires RD.DataOnce(k, a) && RD.DataOnce(k, b) && Apart(k, a, b)
    ensures RD.DataOnce(k, a + b)
  {
    var es := a + b;
    forall i, j | 0 <= i < j < |es| && es[i].Receive? && es[j].Receive? && es[i].index < k && es[j].index < k
      ensures es[i].gid != es[j].gid || es[i].index != es[j].index
    {
      if i < |a| <= j { assert es[i] in a && es[j] in b; }
    }
  }

  lemma ShardsAre(k: nat, gid: nat, indices: seq<nat>)
    requires Distinct(indices)
    ensures RD.DataOnce(k, Shards(gid, indices))
    ensures forall e :: e in Shards(gid, indices) ==>
              e.Receive? && e.gid == gid && e.payload == [] && e.index in indices
  {
    var es := Shards(gid, indices);
    forall e | e in es ensures e.Receive? && e.gid == gid && e.payload == [] && e.index in indices {
      var i :| 0 <= i < |es| && es[i] == e;
    }
  }

  lemma {:induction false} OthersAre(k: nat, p: nat, n: nat)
    ensures RD.DataOnce(k, Others(k, n))
    ensures forall e :: e in Others(k, n) ==> Empty(k, p, n, e) && e.gid >= 1
  {
    hide RD.DataOnce, Counting, Shards, Empty, Distinct;
    if n != 0 {
      OthersAre(k, p, n - 1);
      CountingIsDistinct(0, k);
      ShardsAre(k, n, Counting(0, k));
      OneMoreGroup(k, p, n, Others(k, n - 1), Shards(n, Counting(0, k)));
    } else {
      NoneTwice(k);
    }
  }

  lemma CountingIsDistinct(lo: nat, n: nat)
    ensures Distinct(Counting(lo, n)) && forall x :: x in Counting(lo, n) ==> x < lo + n
  {
  }

  lemma NoneTwice(k: nat)
    ensures RD.DataOnce(k, [])
  {
  }

  lemma OneMoreGroup(k: nat, p: nat, n: nat, a: seq<RD.Event>, b: seq<RD.Event>)
    requires n >= 1 && RD.DataOnce(k, a) && RD.DataOnce(k, b)
    requires forall e :: e in a ==> Empty(k, p, n - 1, e) && e.gid >= 1
    requires forall e :: e in b ==> e.Receive? && e.gid == n && e.index < k && e.payload == []
    ensures RD.DataOnce(k, a + b)
    ensures forall e :: e in a + b ==> Empty(k, p, n, e) && e.gid >= 1
  {
    hide RD.DataOnce;
    OnceInBoth(k, a, b);
  }

  lemma ForgottenIsProper(k: nat, p: nat)
    requires k >= 1 && k < 2 * p
    ensures RD.DataOnce(k, ForgottenShards(k, p))
    ensures forall e :: e in ForgottenShards(k, p) ==> Empty(k, p, RD.MAX_DELIVERED, e)
  {
    hide RD.DataOnce, Others, Enough, Distinct;
    var d := FewData(k, p);
    EnoughIsProper(k, p, 0);
    EnoughIsProper(k, p, d);
    ShardsAre(k, 0, Enough(k, p, 0));
    ShardsAre(k, 0, Enough(k, p, d));
    OthersAre(k, p, RD.MAX_DELIVERED);
    var first, rest, again := Shards(0, Enough(k, p, 0)), Others(k, RD.MAX_DELIVERED), Shards(0, Enough(k, p, d));
    OnceInBoth(k, first, rest);
    OnceInBoth(k, first + rest, again);
  }

  lemma LastIsRepeated(c: Codec, k: nat, p: nat)
    requires k >= 1 && k < 2 * p
    ensures !RsNeverTwice(c, k, p)
  {
    hide ForgottenShards, RD.Output, RD.DataOnce, RD.FromEncoder;
    var es, st := ForgottenShards(k, p), Stream(Blanks(RD.MAX_DELIVERED + 1, k), []);
    var r, r' := LastComesOutTwice(c, k, p);
    ForgottenIsProper(k, p);
    forall e | e in es ensures RD.FromEncoder(c, k, p, st, e) { EmptyIsEmitted(c, k, p, RD.MAX_DELIVERED, e); }
    assert RsRepeats(c, k, p, RsRun(st, es, k - 1, |es| - 1, r, r'));
  }

  /**
   A Reed-Solomon decoder recovers no packet twice, on all runs and with any code, exactly when there are at least two
   data packets to a parity packet.
   */
  lemma RsOnceExactly(c: Codec, k: nat, p: nat)
    requires k >= 1
    ensures RsNeverTwice(c, k, p) <==> k >= 2 * p
  {
    hide RD.Output, RD.DataOnce;
    if k >= 2 * p {
      forall x: RsRun | RsRepeats(c, k, p, x) ensures x.r.0 != x.r'.0 {
        IndicesInGroups(c, k, p, x.st, x.es);
        RD.NeverTwice(c, k, p, x.es, x.i, x.j, x.r, x.r');
      }
    } else {
      LastIsRepeated(c, k, p);
    }
  }

  lemma IndicesInGroups(c: Codec, k: nat, p: nat, st: Stream, es: seq<RD.Event>)
    requires forall e :: e in es ==> RD.FromEncoder(c, k, p, st, e)
    ensures RD.InGroups(k + p, es)
  {
  }
}
