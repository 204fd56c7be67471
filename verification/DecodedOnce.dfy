/** A data packet reaches its decoder at most once in a run, because deduplication remembers what was accepted. */
module DecodedOnce {
  import opened Collections
  import opened Bytes
  import opened FecEngine
  import opened Server
  import opened EndToEnd
  import opened DecoderShares
  import opened Arrivals
  import C = Client
  import RR = ReorderRuns
  import RD = RsDecoder

  // ---------- what the client numbers ----------

  /** A data packet that goes to the decoder of this kind. */
  predicate DataTo(cfg: Config, kind: Kind, o: FecOut) {
    !o.meta.isParity && cfg.Dispatch(o.meta.groupSize) == Some(kind)
  }

  predicate SameData(o: FecOut, o': FecOut) {
    o.meta.gid == o'.meta.gid && o.meta.index == o'.meta.index
  }

  /** No two data packets for the decoder of this kind have one group and index. */
  ghost predicate UniqueInLog(cfg: Config, kind: Kind, log: seq<FecOut>) {
    forall q, r :: 0 <= q < r < |log| && DataTo(cfg, kind, log[q]) && DataTo(cfg, kind, log[r]) ==>
      !SameData(log[q], log[r])
  }

  /** The number and the index that a payload gets are new. */
  lemma NewIsUnique(cfg: Config, kind: Kind, s: EncState, payload: bytes, tier: Tier, before: FecOut)
    requires s.Valid(cfg) && OwnStep(cfg, s, tier, kind)
    requires DataTo(cfg, kind, before) && EmittedKind(cfg, s, kind, before)
    ensures var o := EncodeStep(cfg, s, payload, tier).1[0]; DataTo(cfg, kind, o) ==> !SameData(before, o)
  {
    hide RD.EmittedShard;
    if kind != XorKind { ShardIsThere(cfg, kind, s, before); }
  }

  lemma ShardIsThere(cfg: Config, kind: Kind, s: EncState, o: FecOut)
    requires kind != XorKind && !o.meta.isParity && EmittedKind(cfg, s, kind, o)
    ensures o.meta.index < |s.Stream(kind).Group(o.meta.gid)|
  {
  }

  lemma StepIsUnique(cfg: Config, kind: Kind, s: EncState, payload: bytes, tier: Tier, log: seq<FecOut>)
    requires s.Valid(cfg) && OwnStep(cfg, s, tier, kind) && UniqueInLog(cfg, kind, log)
    requires forall o :: o in log ==> EmittedTo(cfg, s, kind, o)
    ensures UniqueInLog(cfg, kind, log + EncodeStep(cfg, s, payload, tier).1)
  {
    hide EncodeStep, EmittedKind, OwnStep;
    var outs := EncodeStep(cfg, s, payload, tier).1;
    var all := log + outs;
    OneDataPerPayload(cfg, s, payload, tier);
    forall q, r | 0 <= q < r < |all| && DataTo(cfg, kind, all[q]) && DataTo(cfg, kind, all[r])
      ensures !SameData(all[q], all[r])
    {
      if r >= |log| {
        assert all[r] == outs[r - |log|] && r == |log|;
        assert all[q] == log[q] && log[q] in log;
        NewIsUnique(cfg, kind, s, payload, tier, log[q]);
      }
    }
  }

  lemma {:induction false} LogIsUnique(cfg: Config, kind: Kind, mode: Mode, sends: seq<C.Event>)
    requires cfg.xorSize >= 1 && cfg.rsData >= 1 && C.Own(cfg, mode, sends, kind)
    ensures UniqueInLog(cfg, kind, C.Run(cfg, mode, sends).log)
  {
    hide EncodeStep, C.Encoded, C.Numbered, OwnStep;
    if sends != [] {
      var n := |sends| - 1;
      LogIsUnique(cfg, kind, mode, sends[..n]);
      C.RunEncoded(cfg, kind, mode, sends[..n]);
      C.RunNumbered(cfg, mode, sends[..n]);
      var s := C.Run(cfg, mode, sends[..n]);
      match sends[n]
      case SetMode(_) =>
      case Send(payload, tier, plan) =>
        SendIsUnique(cfg, kind, s, payload, tier, plan);
    }
  }

  lemma SendIsUnique(cfg: Config, kind: Kind, s: C.State, payload: bytes, tier: Tier, plan: seq<seq<C.Attempt>>)
    requires C.Numbered(s) && C.Encoded(cfg, kind, s) && OwnStep(cfg, s.enc, tier, kind)
    requires UniqueInLog(cfg, kind, s.log)
    ensures UniqueInLog(cfg, kind, C.SendStep(cfg, s, payload, tier, plan).log)
  {
    hide EncodeStep, C.Numbered, OwnStep, EmittedTo, UniqueInLog;
    var (e, outs) := EncodeStep(cfg, s.enc, payload, tier);
    C.NumberedAfterEncode(s, e, payload);
    C.SendOutsNumbered(s.(enc := e, inputs := s.inputs + [payload]), outs, plan);
    StepIsUnique(cfg, kind, s.enc, payload, tier, s.log);
  }

  // ---------- what the decoder gets ----------

  predicate IsData(x: Share) {
    x.Got? && !x.isParity
  }

  /** No two data packets among the shares have one group and index. */
  ghost predicate OnceEach(xs: seq<Share>) {
    forall i, j :: 0 <= i < j < |xs| && IsData(xs[i]) && IsData(xs[j]) ==>
      xs[i].gid != xs[j].gid || xs[i].index != xs[j].index
  }

  /** The number is that of this data packet of the group. */
  predicate Names(cfg: Config, kind: Kind, log: seq<FecOut>, q: nat, x: Share) {
    q < |log| && DataTo(cfg, kind, log[q]) && IsData(x) && log[q].meta.gid == x.gid && log[q].meta.index == x.index
  }

  /** The data packets that the decoder got were accepted by the reorder buffer. */
  ghost predicate AllAccepted(cfg: Config, kind: Kind, log: seq<FecOut>, acc: map<nat, bytes>, xs: seq<Share>) {
    forall x :: x in xs && IsData(x) ==> exists q :: q in acc && Names(cfg, kind, log, q, x)
  }

  /** A data packet that reaches the decoder had not been accepted, and is now. */
  lemma ShareIsNew(cfg: Config, kind: Kind, window: nat, t0: real, u: C.State, rs: seq<RR.Event>, s: State, e: Event)
    requires C.Numbered(u) && (e.Datagram? ==> FromChannel(u, e.data)) && s.reorder == RR.After(window, t0, rs)
    ensures var xs := ShareOf(cfg, kind, s, e);
            var acc := RR.Accepted(window, t0, rs + ReorderEvent(s, e));
            && |xs| <= 1 && RR.Accepted(window, t0, rs).Keys <= acc.Keys
            && (xs != [] && IsData(xs[0]) ==>
                  exists q :: q in acc && q !in RR.Accepted(window, t0, rs) && Names(cfg, kind, u.log, q, xs[0]))
  {
    hide RR.After, RR.Accepted, RR.Skipped, FromChannel;
    AtMostOneReorderEvent(s, e);
    RR.AcceptedMore(window, t0, rs, ReorderEvent(s, e));
    if PacketOf(e).Some? {
      ParsesToSent(u, e.data);
      var q := PacketOf(e).value.globalSeq;
      RR.DuplicateMeansSeenOrSkipped(window, t0, rs, q);
      var xs := ShareOf(cfg, kind, s, e);
      if xs != [] && IsData(xs[0]) { assert Names(cfg, kind, u.log, q, xs[0]); }
    }
  }

  lemma OnceMore(cfg: Config, kind: Kind, log: seq<FecOut>, acc: map<nat, bytes>, acc': map<nat, bytes>,
                 xs: seq<Share>, more: seq<Share>)
    requires UniqueInLog(cfg, kind, log) && OnceEach(xs) && AllAccepted(cfg, kind, log, acc, xs)
    requires |more| <= 1 && acc.Keys <= acc'.Keys
    requires more != [] && IsData(more[0]) ==>
               exists q :: q in acc' && q !in acc && Names(cfg, kind, log, q, more[0])
    ensures OnceEach(xs + more) && AllAccepted(cfg, kind, log, acc', xs + more)
  {
    forall i | 0 <= i < |xs| && IsData(xs[i]) && more != [] && IsData(more[0])
      ensures xs[i].gid != more[0].gid || xs[i].index != more[0].index
    {
      assert xs[i] in xs;
      var q :| q in acc && Names(cfg, kind, log, q, xs[i]);
      var r :| r in acc' && r !in acc && Names(cfg, kind, log, r, more[0]);
      if q < r { assert !SameData(log[q], log[r]); } else { assert !SameData(log[r], log[q]); }
    }
  }

  lemma {:induction false} SharesComeOnce(cfg: Config, kind: Kind, window: nat, t0: real, u: C.State, es: seq<Event>)
    requires C.Numbered(u) && UniqueInLog(cfg, kind, u.log)
    requires forall e :: e in es && e.Datagram? ==> FromChannel(u, e.data)
    ensures OnceEach(Shares(cfg, kind, window, t0, es))
    ensures AllAccepted(cfg, kind, u.log, RR.Accepted(window, t0, ReorderEvents(cfg, window, t0, es)),
                        Shares(cfg, kind, window, t0, es))
  {
    hide Step, ShareOf, ReorderEvent, RR.Accepted, RR.After, FromChannel, UniqueInLog, OnceEach, AllAccepted;
    if es == [] {
      NothingShared(cfg, kind, u.log, RR.Accepted(window, t0, []));
    } else {
      var n := |es| - 1;
      var s := After(cfg, window, t0, es[..n]);
      var rs := ReorderEvents(cfg, window, t0, es[..n]);
      assert forall e :: e in es[..n] ==> e in es;
      assert es[n] in es;
      SharesComeOnce(cfg, kind, window, t0, u, es[..n]);
      ReorderRun(cfg, window, t0, es[..n]);
      ShareIsNew(cfg, kind, window, t0, u, rs, s, es[n]);
      OnceMore(cfg, kind, u.log, RR.Accepted(window, t0, rs), RR.Accepted(window, t0, rs + ReorderEvent(s, es[n])),
               Shares(cfg, kind, window, t0, es[..n]), ShareOf(cfg, kind, s, es[n]));
    }
  }

  lemma NothingShared(cfg: Config, kind: Kind, log: seq<FecOut>, acc: map<nat, bytes>)
    ensures OnceEach([]) && AllAccepted(cfg, kind, log, acc, [])
  {
  }

  /** The decoder of a kind that no other kind reaches gets every data packet at most once. */
  lemma DataReachesOnce(cfg: Config, kind: Kind, mode: Mode, sends: seq<C.Event>, window: nat, t0: real, es: seq<Event>)
    requires cfg.xorSize >= 1 && cfg.rsData >= 1 && C.Own(cfg, mode, sends, kind)
    requires forall e :: e in es && e.Datagram? ==> FromChannel(C.Run(cfg, mode, sends), e.data)
    ensures OnceEach(Shares(cfg, kind, window, t0, es))
  {
    hide FromChannel, Shares, C.Run, C.Own, OnceEach, UniqueInLog;
    C.RunNumbered(cfg, mode, sends);
    LogIsUnique(cfg, kind, mode, sends);
    SharesComeOnce(cfg, kind, window, t0, C.Run(cfg, mode, sends), es);
  }
}
