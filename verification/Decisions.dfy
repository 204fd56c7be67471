/** What the scheduler decides in each mode, from the paths alive and the probabilities predicted for them. */
module Decisions {
  import opened Collections
  import opened Numbers
  import opened PathScheduler

  /** One assignment without parity on every alive path, in order. */
  predicate OnAll(alive: seq<int>, d: seq<Assignment>) {
    |d| == |alive| && forall i :: 0 <= i < |d| ==> d[i].path == alive[i] && !d[i].fecParity
  }

  /** One assignment without parity, on this path. */
  predicate OnlyOn(path: int, d: seq<Assignment>) {
    |d| == 1 && d[0].path == path && !d[0].fecParity
  }

  /** Replicate mode sends every packet on every alive path. */
  lemma ReplicateUsesAll(s: State, realtime: bool)
    requires s.mode == Replicate
    ensures OnAll(s.alive, Decide(s, realtime).1) && Decide(s, realtime).0 == s
  {
  }

  /** So does the probabilistic mode with realtime packets. */
  lemma RealtimeUsesAll(s: State)
    requires s.mode == Ai
    ensures OnAll(s.alive, Decide(s, true).1) && Decide(s, true).0 == s
  {
  }

  /** Weighted mode, and any mode unknown, take the next entry of the table, round and round. */
  lemma TableDecides(s: State, realtime: bool)
    requires s.mode == Weighted || s.mode == Unknown
    requires s.alive != [] && s.table != []
    ensures OnlyOn(s.table[s.pos % |s.table|], Decide(s, realtime).1)
    ensures Decide(s, realtime).0 == s.(pos := s.pos + 1)
  {
  }

  /** Without a path alive there is no assignment, in any mode. */
  lemma NothingWithoutPaths(s: State, realtime: bool)
    requires s.alive == []
    ensures Decide(s, realtime) == (s, [])
  {
  }

  /** Two alive paths whose predictions are p and q, and no other path is predicted better than q. */
  ghost predicate BestTwo(s: State, b: int, c: int, p: real, q: real)
    requires forall x :: x in s.alive ==> x in s.delivery
  {
    && b in s.alive && c in s.alive && b != c && s.delivery[b] == p && s.delivery[c] == q
    && p >= q && forall x :: x in s.alive && x != b ==> s.delivery[x] <= q
  }

  /** Every path ranked has the rank of its probability; the first two of the ranking are a best two. */
  lemma RankedBestTwo(s: State)
    requires Inv(s) && |s.alive| >= 2
    ensures var r := ByDelivery(s.alive, s.delivery);
            |r| >= 2 && r[0] in s.delivery && r[1] in s.delivery
            && BestTwo(s, r[0], r[1], s.delivery[r[0]], s.delivery[r[1]])
  {
    hide ByDelivery;
    var r := ByDelivery(s.alive, s.delivery);
    RankedDistinct(s.alive, s.delivery);
    RankedFalls(s.alive, s.delivery);
    assert s.alive[0] in s.alive && s.alive[1] in s.alive && s.alive[0] != s.alive[1];
    assert s.alive[0] in r && s.alive[1] in r;
    TwoElements(r, s.alive[0], s.alive[1]);
    forall x | x in s.alive && x != r[0] ensures s.delivery[x] <= s.delivery[r[1]] {
      assert x in r;
      var i :| 0 <= i < |r| && r[i] == x;
    }
  }

  lemma TwoElements(r: seq<int>, x: int, y: int)
    requires x in r && y in r && x != y
    ensures |r| >= 2
  {
  }

  /** The two best probabilities do not depend on the choice of the two. */
  lemma SameBest(s: State, b: int, c: int, p: real, q: real, b': int, c': int, p': real, q': real)
    requires forall x :: x in s.alive ==> x in s.delivery
    requires BestTwo(s, b, c, p, q) && BestTwo(s, b', c', p', q')
    ensures p == p' && q == q' && (p > q ==> b == b')
  {
  }

  /**
   The probabilistic mode with two paths or more: alone on the best path if that is excellent and far ahead; data on
   the best and parity on the second if it is good; striped by weight if both are acceptable; else on all paths.
   */
  lemma ProbabilitiesDecide(s: State, b: int, c: int, p: real, q: real)
    requires Inv(s) && s.mode == Ai && BestTwo(s, b, c, p, q)
    ensures var (t, d) := Decide(s, false);
            if p > 0.95 && p - q > 0.3 then OnlyOn(b, d) && t == s
            else if p > 0.7 then
              && |d| == 2 && t == s && !d[0].fecParity && d[1].fecParity
              && BestTwo(s, d[0].path, d[1].path, p, q)
            else if p > 0.5 && q > 0.5 then
              s.table != [] && OnlyOn(s.table[s.pos % |s.table|], d) && t == s.(pos := s.pos + 1)
            else OnAll(s.alive, d) && t == s
  {
    hide ByDelivery, BestTwo;
    TwoAlive(s, b, c, p, q);
    RankedBestTwo(s);
    var r := ByDelivery(s.alive, s.delivery);
    SameBest(s, b, c, p, q, r[0], r[1], s.delivery[r[0]], s.delivery[r[1]]);
    TableThere(s);
  }

  lemma TwoAlive(s: State, b: int, c: int, p: real, q: real)
    requires Inv(s) && BestTwo(s, b, c, p, q)
    ensures |s.alive| >= 2
  {
    var i :| 0 <= i < |s.alive| && s.alive[i] == b;
    var j :| 0 <= j < |s.alive| && s.alive[j] == c;
  }

  lemma TableThere(s: State)
    requires Inv(s) && s.alive != []
    ensures s.table != []
  {
  }

  /** With one path alive everything goes there. */
  lemma OnePathDecides(s: State)
    requires s.mode == Ai && |s.alive| == 1
    ensures OnlyOn(s.alive[0], Decide(s, false).1) && Decide(s, false).0 == s
  {
  }

  // ---------- after a refresh ----------

  /** Exactly the paths reported alive are alive, and every path reported has the prediction reported. */
  lemma {:induction false} PredictionsAre(paths: seq<Path>, p: Path)
    requires Snapshot(paths) && p in paths
    ensures p.id in Deliveries(paths) && Deliveries(paths)[p.id] == p.delivery
  {
    var init, last := paths[..|paths| - 1], paths[|paths| - 1];
    assert paths == init + [last];
    if p != last {
      var i :| 0 <= i < |init| && init[i] == p;
      PredictionsAre(init, p);
    }
  }

  lemma RefreshTakesOver(s: State, paths: seq<Path>, p: Path)
    requires Snapshot(paths) && p in paths
    ensures var t := Refresh(s, paths);
            && (p.id in t.alive <==> p.alive) && p.id in t.delivery && t.delivery[p.id] == p.delivery
            && t.mode == s.mode && t.rr == s.rr
  {
    PredictionsAre(paths, p);
    AliveIsPart(paths);
    var alive := Alive(paths);
    if p.alive {
      var i :| 0 <= i < |alive| && alive[i] == p;
      assert Ids(alive)[i] == p.id;
    }
    if p.id in Ids(alive) {
      var i :| 0 <= i < |alive| && Ids(alive)[i] == p.id;
      assert alive[i] in paths;
    }
  }

  /** Weights start over at the first path; without any score every alive path has one slot and the position stays. */
  lemma TableStartsOver(s: State, paths: seq<Path>)
    requires Alive(paths) != []
    ensures var t := Refresh(s, paths);
            if TotalScore(Alive(paths)) > 0.0 then t.pos == 0 && t.table != [] && t.table[0] == Alive(paths)[0].id
            else t.pos == s.pos && t.table == t.alive
  {
    if TotalScore(Alive(paths)) > 0.0 { FirstSlot(Alive(paths), TotalScore(Alive(paths))); }
  }

  lemma {:induction false} FirstSlot(paths: seq<Path>, total: real)
    requires paths != [] && total > 0.0
    ensures Table(paths, total) != [] && Table(paths, total)[0] == paths[0].id
  {
    hide Slots;
    if |paths| > 1 { FirstSlot(paths[..|paths| - 1], total); }
  }

  /** A path's slots are its percentage of all scores, rounded down, but at least one. */
  lemma SlotsArePercent(score: real, total: real)
    requires total > 0.0 && score >= 0.0
    ensures var n := Slots(score, total);
            if 100.0 * score < total then n == 1 else n as real * total <= 100.0 * score < (n as real + 1.0) * total
  {
    var share := 100.0 * score / total;
    ShareAdds(score, 0.0, total);
    Quotient(100.0 * score, total, 1.0);
    Quotient(100.0 * score, total, share.Floor as real);
    Quotient(100.0 * score, total, share.Floor as real + 1.0);
  }

  lemma Quotient(x: real, total: real, b: real)
    requires total > 0.0
    ensures x / total < b <==> x < b * total
  {
    var q := x / total;
    assert q * total == x;
    Compare(q, b, total);
  }
}
