/** Per-packet path decisions: the weighted round-robin table, its picks, and the modes that use it. */
module PathScheduler {
  import opened Collections
  import opened Numbers

  datatype Mode = Ai | RoundRobin | Weighted | Replicate | Unknown

  /** What monitor and predictor say of a path at a refresh. */
  datatype Path = Path(id: int, alive: bool, quality: real, delivery: real)

  datatype Assignment = Assignment(path: int, fecParity: bool)

  datatype State = State(
    mode: Mode,
    alive: seq<int>,
    delivery: map<int, real>,      // predicted delivery probabilities
    table: seq<int>,
    pos: nat,
    rr: nat)

  function Init(mode: Mode): State {
    State(mode, [], map[], [], 0, 0)
  }

  // ---------- the table ----------

  function Alive(paths: seq<Path>): seq<Path> {
    if paths == [] then [] else
      var last := paths[|paths| - 1];
      Alive(paths[..|paths| - 1]) + if last.alive then [last] else []
  }

  function Ids(paths: seq<Path>): (r: seq<int>)
    ensures |r| == |paths| && forall i :: 0 <= i < |paths| ==> r[i] == paths[i].id
  {
    if paths == [] then [] else Ids(paths[..|paths| - 1]) + [paths[|paths| - 1].id]
  }

  function TotalScore(paths: seq<Path>): real {
    if paths == [] then 0.0 else TotalScore(paths[..|paths| - 1]) + paths[|paths| - 1].quality
  }

  /** int(x): truncation toward zero. */
  function Truncate(x: real): int {
    if x >= 0.0 then x.Floor else -(-x).Floor
  }

  function Slots(score: real, total: real): (n: nat)
    requires total > 0.0
    ensures n >= 1
  {
    var share := Truncate(100.0 * score / total);
    if share < 1 then 1 else share
  }

  function Repeat(id: int, n: nat): (r: seq<int>)
    ensures |r| == n && forall i :: 0 <= i < n ==> r[i] == id
  {
    if n == 0 then [] else Repeat(id, n - 1) + [id]
  }

  function Table(paths: seq<Path>, total: real): seq<int>
    requires total > 0.0
  {
    if paths == [] then [] else
      var last := paths[|paths| - 1];
      Table(paths[..|paths| - 1], total) + Repeat(last.id, Slots(last.quality, total))
  }

  function Deliveries(paths: seq<Path>): (m: map<int, real>)
    ensures forall p :: p in paths ==> p.id in m
  {
    if paths == [] then map[] else
      var last := paths[|paths| - 1];
      assert paths == paths[..|paths| - 1] + [last];
      Deliveries(paths[..|paths| - 1])[last.id := last.delivery]
  }

  function Refresh(s: State, paths: seq<Path>): State {
    var alive := Alive(paths);
    var s' := s.(alive := Ids(alive), delivery := Deliveries(paths));
    if alive == [] then s'.(table := [])
    else if TotalScore(alive) <= 0.0 then s'.(table := Ids(alive))
    else s'.(table := Table(alive, TotalScore(alive)), pos := 0)
  }

  // ---------- decisions ----------

  /** The entry at a position, counting round and round. */
  function Slot(table: seq<int>, pos: nat): int
    requires table != []
  {
    table[pos % |table|]
  }

  function Pick(s: State): (r: (State, int)) {
    if s.table == [] then (s, if s.alive != [] then s.alive[0] else 0)
    else (s.(pos := s.pos + 1), Slot(s.table, s.pos))
  }

  /** The paths with a prediction, most likely delivery first; equals keep their order. */
  function ByDelivery(ids: seq<int>, delivery: map<int, real>): (r: seq<int>)
    ensures forall x :: x in r ==> x in delivery
  {
    if ids == [] then [] else
      var rest, last := ByDelivery(ids[..|ids| - 1], delivery), ids[|ids| - 1];
      if last in delivery then InsertByDelivery(rest, last, delivery) else rest
  }

  function InsertByDelivery(ids: seq<int>, x: int, delivery: map<int, real>): (r: seq<int>)
    requires x in delivery && forall y :: y in ids ==> y in delivery
    ensures forall y :: y in r <==> y == x || y in ids
    ensures |r| == |ids| + 1
  {
    if ids == [] then [x]
    else
      var init, last := ids[..|ids| - 1], ids[|ids| - 1];
      assert ids == init + [last];
      assert last in ids;
      if delivery[last] >= delivery[x] then ids + [x] else InsertByDelivery(init, x, delivery) + [last]
  }

  function ToAll(ids: seq<int>): (r: seq<Assignment>)
    ensures |r| == |ids| && forall i :: 0 <= i < |ids| ==> r[i] == Assignment(ids[i], false)
  {
    if ids == [] then [] else ToAll(ids[..|ids| - 1]) + [Assignment(ids[|ids| - 1], false)]
  }

  function DecideWeighted(s: State): (State, seq<Assignment>) {
    var (s', id) := Pick(s);
    (s', [Assignment(id, false)])
  }

  function DecideAi(s: State, realtime: bool): (State, seq<Assignment>)
    requires s.alive != []
  {
    if realtime then (s, ToAll(s.alive))
    else if |s.alive| < 2 then (s, [Assignment(s.alive[0], false)])
    else
      var ranked := ByDelivery(s.alive, s.delivery);
      if ranked == [] then DecideWeighted(s) else
        var best := s.delivery[ranked[0]];
        var second := if |ranked| > 1 then s.delivery[ranked[1]] else 0.0;
        if best > 0.95 && best - second > 0.3 then (s, [Assignment(ranked[0], false)])
        else if best > 0.7 then
          (s, [Assignment(ranked[0], false)] + if |ranked| > 1 then [Assignment(ranked[1], true)] else [])
        else if best > 0.5 && second > 0.5 then DecideWeighted(s)
        else (s, ToAll(s.alive))
  }

  function Decide(s: State, realtime: bool): (State, seq<Assignment>) {
    if s.alive == [] then (s, [])
    else match s.mode
      case Ai => DecideAi(s, realtime)
      case RoundRobin => (s.(rr := s.rr + 1), [Assignment(Slot(s.alive, s.rr), false)])
      case Replicate => (s, ToAll(s.alive))
      case _ => DecideWeighted(s)
  }

  /** A stale scheduler refreshes first. */
  function Schedule(s: State, refresh: Option<seq<Path>>, realtime: bool): (State, seq<Assignment>) {
    Decide(if refresh.Some? then Refresh(s, refresh.value) else s, realtime)
  }

  // ---------- the object ----------

  class Scheduler {
    const mode: Mode
    var alivePaths: seq<int>
    var predictions: map<int, real>
    var scheduleTable: seq<int>
    var tablePos: nat
    var rrCounter: nat

    ghost function Model(): State
      reads this
    {
      State(mode, alivePaths, predictions, scheduleTable, tablePos, rrCounter)
    }

    constructor (m: Mode)
      ensures Model() == Init(m)
    {
      mode := m;
      alivePaths, predictions, scheduleTable, tablePos, rrCounter := [], map[], [], 0, 0;
    }

    method UpdatePredictions(paths: seq<Path>)
      modifies this
      ensures Model() == Refresh(old(Model()), paths)
    {
      var alive := Alive(paths);
      alivePaths := Ids(alive);
      predictions := Deliveries(paths);
      if alivePaths == [] {
        scheduleTable := [];
        return;
      }
      var total := TotalScore(alive);
      if total <= 0.0 {
        scheduleTable := alivePaths;
        return;
      }
      var table := [];
      for i := 0 to |alive|
        invariant table == Table(alive[..i], total)
      {
        assert alive[..i + 1][..i] == alive[..i];
        table := table + Repeat(alive[i].id, Slots(alive[i].quality, total));
      }
      assert alive[..|alive|] == alive;
      scheduleTable := table;
      tablePos := 0;
    }

    method PickFromTable() returns (id: int)
      modifies this
      ensures Model() == Pick(old(Model())).0 && id == Pick(old(Model())).1
    {
      if scheduleTable == [] {
        return if alivePaths != [] then alivePaths[0] else 0;
      }
      id := Slot(scheduleTable, tablePos);
      tablePos := tablePos + 1;
    }

    method ScheduleAi(realtime: bool) returns (r: seq<Assignment>)
      requires alivePaths != []
      modifies this
      ensures (Model(), r) == DecideAi(old(Model()), realtime)
    {
      if realtime {
        return ToAll(alivePaths);
      }
      if |alivePaths| < 2 {
        return [Assignment(alivePaths[0], false)];
      }
      var ranked := ByDelivery(alivePaths, predictions);
      if ranked == [] {
        var id := PickFromTable();
        return [Assignment(id, false)];
      }
      var best := predictions[ranked[0]];
      var second := 0.0;
      if |ranked| > 1 {
        second := predictions[ranked[1]];
      }
      if best > 0.95 && best - second > 0.3 {
        r := [Assignment(ranked[0], false)];
      } else if best > 0.7 {
        r := [Assignment(ranked[0], false)];
        assert r + [] == r;
        if |ranked| > 1 {
          r := r + [Assignment(ranked[1], true)];
        }
      } else if best > 0.5 && second > 0.5 {
        var id := PickFromTable();
        r := [Assignment(id, false)];
      } else {
        r := ToAll(alivePaths);
      }
    }

    method SchedulePacket(refresh: Option<seq<Path>>, realtime: bool) returns (r: seq<Assignment>)
      modifies this
      ensures (Model(), r) == Schedule(old(Model()), refresh, realtime)
    {
      if refresh.Some? {
        UpdatePredictions(refresh.value);
      }
      if alivePaths == [] {
        return [];
      }
      match mode
      case Ai =>
        r := ScheduleAi(realtime);
      case RoundRobin =>
        r := [Assignment(Slot(alivePaths, rrCounter), false)];
        rrCounter := rrCounter + 1;
      case Replicate =>
        r := ToAll(alivePaths);
      case _ =>
        var id := PickFromTable();
        r := [Assignment(id, false)];
    }
  }

  // ---------- size and shares of the table ----------

  ghost predicate ScoresOk(paths: seq<Path>) {
    forall i :: 0 <= i < |paths| ==> paths[i].quality >= 0.0
  }

  function Count(ids: seq<int>, id: int): nat {
    if ids == [] then 0 else Count(ids[..|ids| - 1], id) + if ids[|ids| - 1] == id then 1 else 0
  }

  lemma {:induction false} CountConcat(a: seq<int>, b: seq<int>, id: int)
    ensures Count(a + b, id) == Count(a, id) + Count(b, id)
  {
    if b == [] {
      assert a + b == a;
    } else {
      CountConcat(a, b[..|b| - 1], id);
      assert (a + b)[..|a + b| - 1] == a + b[..|b| - 1];
    }
  }

  lemma {:induction false} CountRepeat(x: int, n: nat, id: int)
    ensures Count(Repeat(x, n), id) == if x == id then n else 0
  {
    if n != 0 {
      CountRepeat(x, n - 1, id);
      assert Repeat(x, n)[..n - 1] == Repeat(x, n - 1);
    }
  }

  function Share(score: real, total: real): real
    requires total > 0.0
  {
    100.0 * score / total
  }

  lemma ShareAdds(a: real, b: real, total: real)
    requires total > 0.0
    ensures Share(a, total) + Share(b, total) == Share(a + b, total)
    ensures Share(total, total) == 100.0 && Share(0.0, total) == 0.0
    ensures a >= 0.0 ==> Share(a, total) >= 0.0
  {
  }

  lemma SlotsBound(score: real, total: real)
    requires total > 0.0 && score >= 0.0
    ensures Slots(score, total) as real <= 1.0 + Share(score, total)
  {
    ShareAdds(score, 0.0, total);
  }

  lemma {:induction false} TableBounds(paths: seq<Path>, total: real)
    requires total > 0.0 && ScoresOk(paths)
    ensures |paths| <= |Table(paths, total)|
    ensures |Table(paths, total)| as real <= |paths| as real + Share(TotalScore(paths), total)
  {
    if paths == [] {
      ShareAdds(0.0, 0.0, total);
    } else {
      hide Slots, Share;
      var init, last := paths[..|paths| - 1], paths[|paths| - 1];
      TableBounds(init, total);
      SlotsBound(last.quality, total);
      ShareAdds(TotalScore(init), last.quality, total);
    }
  }

  /** With a positive score total the table of n alive paths has n to n + 100 slots. */
  lemma TableSize(s: State, paths: seq<Path>)
    requires ScoresOk(Alive(paths)) && TotalScore(Alive(paths)) > 0.0
    ensures var t := Refresh(s, paths); |t.alive| <= |t.table| <= |t.alive| + 100
  {
    var alive := Alive(paths);
    TableBounds(alive, TotalScore(alive));
    ShareAdds(0.0, 0.0, TotalScore(alive));
  }

  lemma {:induction false} SlotsOfOther(paths: seq<Path>, total: real, id: int)
    requires total > 0.0 && forall i :: 0 <= i < |paths| ==> paths[i].id != id
    ensures Count(Table(paths, total), id) == 0
  {
    if paths != [] {
      var init, last := paths[..|paths| - 1], paths[|paths| - 1];
      SlotsOfOther(init, total, id);
      CountConcat(Table(init, total), Repeat(last.id, Slots(last.quality, total)), id);
      CountRepeat(last.id, Slots(last.quality, total), id);
    }
  }

  /** Every alive path has exactly its slots in the table: at least one. */
  lemma {:induction false} SlotsOfPath(paths: seq<Path>, total: real, k: nat)
    requires total > 0.0 && k < |paths| && Snapshot(paths)
    ensures Count(Table(paths, total), paths[k].id) == Slots(paths[k].quality, total) >= 1
  {
    hide Slots;
    var n := |paths| - 1;
    var init, last, id := paths[..n], paths[n], paths[k].id;
    CountConcat(Table(init, total), Repeat(last.id, Slots(last.quality, total)), id);
    CountRepeat(last.id, Slots(last.quality, total), id);
    if k == n {
      SlotsOfOther(init, total, id);
    } else {
      SlotsOfPath(init, total, k);
    }
  }

  // ---------- fairness ----------

  /** How often id is picked by n picks in a row, the first at a given position. */
  function Window(table: seq<int>, pos: nat, n: nat, id: int): nat
    requires table != []
  {
    if n == 0 then 0 else
      Window(table, pos, n - 1, id) + if Slot(table, pos + n - 1) == id then 1 else 0
  }

  lemma {:induction false} WindowHead(table: seq<int>, pos: nat, n: nat, id: int)
    requires table != []
    ensures Window(table, pos, n + 1, id)
         == (if Slot(table, pos) == id then 1 else 0) + Window(table, pos + 1, n, id)
  {
    if n == 0 {
      assert Window(table, pos, 0, id) == 0;
    } else {
      WindowHead(table, pos, n - 1, id);
    }
  }

  lemma Wraps(table: seq<int>, pos: nat)
    requires table != []
    ensures Slot(table, pos + |table|) == Slot(table, pos)
  {
    var m := |table|;
    Remainder(pos + m, m, pos / m + 1, pos % m);
  }

  lemma {:induction false} WindowStart(table: seq<int>, n: nat, id: int)
    requires table != [] && n <= |table|
    ensures Window(table, 0, n, id) == Count(table[..n], id)
  {
    if n != 0 {
      WindowStart(table, n - 1, id);
      CountNext(table, n - 1, id);
    }
  }

  lemma CountNext(table: seq<int>, n: nat, id: int)
    requires n < |table|
    ensures Count(table[..n + 1], id) == Count(table[..n], id) + if Slot(table, n) == id then 1 else 0
  {
    Remainder(n, |table|, 0, n);
    assert table[..n + 1][..n] == table[..n];
  }

  /** As many picks in a row as the table is long choose every path as often as it stands in the table. */
  lemma {:induction false} FullWindow(table: seq<int>, pos: nat, id: int)
    requires table != []
    ensures Window(table, pos, |table|, id) == Count(table, id)
  {
    if pos == 0 {
      WindowStart(table, |table|, id);
      assert table[..|table|] == table;
    } else {
      FullWindow(table, pos - 1, id);
      WindowHead(table, pos - 1, |table|, id);
      Wraps(table, pos - 1);
    }
  }

  /** The paths of n decisions in a row without a refresh. */
  function Decisions(s: State, n: nat): (r: (State, seq<seq<Assignment>>)) {
    if n == 0 then (s, []) else
      var (t, before) := Decisions(s, n - 1);
      var (u, d) := Schedule(t, None, false);
      (u, before + [d])
  }

  /** How many of the decisions are to send on one path alone, the given one. */
  function Chosen(ds: seq<seq<Assignment>>, id: int): nat {
    if ds == [] then 0 else
      Chosen(ds[..|ds| - 1], id) + if ds[|ds| - 1] == [Assignment(id, false)] then 1 else 0
  }

  lemma ChosenNone(id: int)
    ensures Chosen([], id) == 0
  {
  }

  lemma ChosenMore(ds: seq<seq<Assignment>>, d: seq<Assignment>, id: int)
    ensures Chosen(ds + [d], id) == Chosen(ds, id) + if d == [Assignment(id, false)] then 1 else 0
  {
    assert (ds + [d])[..|ds|] == ds;
  }

  lemma WeightedStep(s: State)
    requires s.mode == Weighted && s.alive != [] && s.table != []
    ensures Schedule(s, None, false) == (s.(pos := s.pos + 1), [Assignment(Slot(s.table, s.pos), false)])
  {
  }

  lemma RoundRobinStep(s: State)
    requires s.mode == RoundRobin && s.alive != []
    ensures Schedule(s, None, false) == (s.(rr := s.rr + 1), [Assignment(Slot(s.alive, s.rr), false)])
  {
  }

  lemma {:induction false} WeightedDecisions(s: State, n: nat, id: int)
    requires s.mode == Weighted && s.alive != [] && s.table != []
    ensures Decisions(s, n).0 == s.(pos := s.pos + n)
    ensures Chosen(Decisions(s, n).1, id) == Window(s.table, s.pos, n, id)
  {
    hide Slot, Chosen, Schedule;
    if n == 0 {
      ChosenNone(id);
    } else {
      WeightedDecisions(s, n - 1, id);
      var t := Decisions(s, n - 1).0;
      WeightedStep(t);
      ChosenMore(Decisions(s, n - 1).1, [Assignment(Slot(t.table, t.pos), false)], id);
    }
  }

  lemma {:induction false} RoundRobinDecisions(s: State, n: nat, id: int)
    requires s.mode == RoundRobin && s.alive != []
    ensures Decisions(s, n).0 == s.(rr := s.rr + n)
    ensures Chosen(Decisions(s, n).1, id) == Window(s.alive, s.rr, n, id)
  {
    hide Slot, Chosen, Schedule;
    if n == 0 {
      ChosenNone(id);
    } else {
      RoundRobinDecisions(s, n - 1, id);
      var t := Decisions(s, n - 1).0;
      RoundRobinStep(t);
      ChosenMore(Decisions(s, n - 1).1, [Assignment(Slot(t.alive, t.rr), false)], id);
    }
  }

  lemma {:induction false} CountDistinct(ids: seq<int>, k: nat)
    requires Distinct(ids) && k < |ids|
    ensures Count(ids, ids[k]) == 1
  {
    if k == |ids| - 1 {
      CountAbsent(ids[..k], ids[k]);
    } else {
      CountDistinct(ids[..|ids| - 1], k);
    }
  }

  lemma {:induction false} CountAbsent(ids: seq<int>, id: int)
    requires id !in ids
    ensures Count(ids, id) == 0
  {
    if ids != [] { CountAbsent(ids[..|ids| - 1], id); }
  }

  // ---------- every reachable state ----------

  /** Path ids of a snapshot are the keys of a dictionary. */
  ghost predicate Snapshot(paths: seq<Path>) {
    forall i, j :: 0 <= i < j < |paths| ==> paths[i].id != paths[j].id
  }

  ghost predicate Inv(s: State) {
    && Distinct(s.alive)
    && (s.alive != [] ==> s.table != [])
    && (forall x :: x in s.table ==> x in s.alive)
    && (forall x :: x in s.alive ==> x in s.delivery)
  }

  lemma {:induction false} AliveIsPart(paths: seq<Path>)
    requires Snapshot(paths)
    ensures Snapshot(Alive(paths))
    ensures Distinct(Ids(Alive(paths)))
    ensures forall p :: p in Alive(paths) ==> p in paths && p.alive
    ensures forall p :: p in paths && p.alive ==> p in Alive(paths)
  {
    if paths != [] {
      var init, last := paths[..|paths| - 1], paths[|paths| - 1];
      AliveIsPart(init);
      assert paths == init + [last];
      forall i | 0 <= i < |Alive(init)| ensures Alive(init)[i].id != last.id {
        assert Alive(init)[i] in init;
      }
    }
  }

  lemma {:induction false} TableIsPart(paths: seq<Path>, total: real)
    requires total > 0.0
    ensures forall x :: x in Table(paths, total) ==> x in Ids(paths)
    ensures paths != [] ==> Table(paths, total) != []
  {
    if paths != [] {
      var init, last := paths[..|paths| - 1], paths[|paths| - 1];
      TableIsPart(init, total);
      assert Ids(paths) == Ids(init) + [last.id];
      assert forall x :: x in Repeat(last.id, Slots(last.quality, total)) ==> x == last.id;
    }
  }

  lemma RefreshInv(s: State, paths: seq<Path>)
    requires Snapshot(paths)
    ensures Inv(Refresh(s, paths))
  {
    AliveIsPart(paths);
    var alive := Alive(paths);
    forall x | x in Ids(alive) ensures x in Deliveries(paths) {
      var i :| 0 <= i < |alive| && Ids(alive)[i] == x;
      assert alive[i] in paths;
    }
    if TotalScore(alive) > 0.0 { TableIsPart(alive, TotalScore(alive)); }
  }

  ghost predicate GoodDecision(alive: seq<int>, d: seq<Assignment>) {
    && (forall i :: 0 <= i < |d| ==> d[i].path in alive)
    && (forall i, j :: 0 <= i < j < |d| ==> d[i].path != d[j].path)
    && (d != [] <==> alive != [])
  }

  lemma PickIsAlive(s: State)
    requires Inv(s) && s.alive != []
    ensures Inv(Pick(s).0) && Pick(s).0.alive == s.alive && Pick(s).1 in s.alive
  {
    assert Slot(s.table, s.pos) in s.table;
  }

  lemma {:induction false} RankedDistinct(ids: seq<int>, delivery: map<int, real>)
    requires Distinct(ids)
    ensures Distinct(ByDelivery(ids, delivery))
    ensures forall x :: x in ByDelivery(ids, delivery) <==> x in ids && x in delivery
  {
    if ids != [] {
      var init, last := ids[..|ids| - 1], ids[|ids| - 1];
      RankedDistinct(init, delivery);
      assert ids == init + [last];
      assert last !in init;
      if last in delivery { InsertDistinct(ByDelivery(init, delivery), last, delivery); }
    }
  }

  lemma {:induction false} InsertDistinct(ids: seq<int>, x: int, delivery: map<int, real>)
    requires Distinct(ids) && x !in ids && x in delivery && forall y :: y in ids ==> y in delivery
    ensures Distinct(InsertByDelivery(ids, x, delivery))
  {
    if ids != [] {
      var init, last := ids[..|ids| - 1], ids[|ids| - 1];
      assert last in ids;
      InsertDistinct(init, x, delivery);
      assert last !in init;
      assert last !in InsertByDelivery(init, x, delivery);
    }
  }

  ghost predicate Falling(ids: seq<int>, delivery: map<int, real>) {
    && (forall x :: x in ids ==> x in delivery)
    && (forall i, j :: 0 <= i < j < |ids| ==> delivery[ids[i]] >= delivery[ids[j]])
  }

  /** The ranking is by falling probability, so the first two are the best two. */
  lemma {:induction false} RankedFalls(ids: seq<int>, delivery: map<int, real>)
    ensures Falling(ByDelivery(ids, delivery), delivery)
  {
    if ids != [] {
      var init, last := ids[..|ids| - 1], ids[|ids| - 1];
      RankedFalls(init, delivery);
      if last in delivery { InsertFalls(ByDelivery(init, delivery), last, delivery); }
    }
  }

  lemma AboveLast(ids: seq<int>, x: int, last: int, delivery: map<int, real>)
    requires Falling(ids + [last], delivery) && x in delivery && delivery[last] < delivery[x]
    ensures forall y :: y in InsertByDelivery(ids, x, delivery) ==> y in delivery && delivery[y] >= delivery[last]
  {
    hide InsertByDelivery;
    forall y | y in ids ensures y in delivery && delivery[y] >= delivery[last] {
      var k :| 0 <= k < |ids| && ids[k] == y;
      assert (ids + [last])[k] == y && (ids + [last])[|ids|] == last;
    }
  }

  lemma FallingMore(ids: seq<int>, last: int, delivery: map<int, real>)
    requires Falling(ids, delivery) && last in delivery
    requires forall y :: y in ids ==> y in delivery && delivery[y] >= delivery[last]
    ensures Falling(ids + [last], delivery)
  {
    forall i | 0 <= i < |ids| ensures ids[i] in delivery && delivery[ids[i]] >= delivery[last] {
      var y := ids[i];
      assert y in ids;
    }
  }

  lemma {:induction false} InsertFalls(ids: seq<int>, x: int, delivery: map<int, real>)
    requires Falling(ids, delivery) && x in delivery
    ensures Falling(InsertByDelivery(ids, x, delivery), delivery)
  {
    if ids != [] {
      var init, last := ids[..|ids| - 1], ids[|ids| - 1];
      assert ids == init + [last];
      assert last in ids;
      InsertFalls(init, x, delivery);
      if delivery[last] < delivery[x] {
        AboveLast(init, x, last, delivery);
        FallingMore(InsertByDelivery(init, x, delivery), last, delivery);
      }
    }
  }

  lemma DecideIsGood(s: State, realtime: bool)
    requires Inv(s)
    ensures var (t, d) := Decide(s, realtime);
            Inv(t) && GoodDecision(t.alive, d) && t.alive == s.alive && t.mode == s.mode
  {
    if s.alive != [] {
      PickIsAlive(s);
      RankedDistinct(s.alive, s.delivery);
    }
  }

  /** When data and parity are split over two paths, these are the likeliest path and the likeliest of the others. */
  lemma SplitUsesTheBestTwo(s: State, realtime: bool)
    requires Inv(s) && s.mode == Ai
    ensures var d := Decide(s, realtime).1;
            |d| > 1 && d[1].fecParity ==>
              |d| == 2 && !d[0].fecParity
              && forall x :: x in s.alive && x != d[0].path ==>
                   s.delivery[d[0].path] >= s.delivery[d[1].path] >= s.delivery[x]
  {
    RankedDistinct(s.alive, s.delivery);
    RankedFalls(s.alive, s.delivery);
  }

  datatype Event = Update(paths: seq<Path>) | Packet(refresh: Option<seq<Path>>, realtime: bool)

  ghost predicate WellFormed(e: Event) {
    match e
    case Update(paths) => Snapshot(paths)
    case Packet(refresh, _) => refresh.Some? ==> Snapshot(refresh.value)
  }

  function After(mode: Mode, es: seq<Event>): State {
    if es == [] then Init(mode) else
      var s := After(mode, es[..|es| - 1]);
      match es[|es| - 1]
      case Update(paths) => Refresh(s, paths)
      case Packet(refresh, realtime) => Schedule(s, refresh, realtime).0
  }

  lemma ScheduleIsGood(s: State, refresh: Option<seq<Path>>, realtime: bool)
    requires Inv(s) && WellFormed(Packet(refresh, realtime))
    ensures var (t, d) := Schedule(s, refresh, realtime); Inv(t) && GoodDecision(t.alive, d) && t.mode == s.mode
  {
    hide Inv, GoodDecision, Snapshot, Deliveries, Table;
    if refresh.Some? {
      RefreshInv(s, refresh.value);
      DecideIsGood(Refresh(s, refresh.value), realtime);
    } else {
      DecideIsGood(s, realtime);
    }
  }

  lemma {:induction false} InvRun(mode: Mode, es: seq<Event>)
    requires forall i :: 0 <= i < |es| ==> WellFormed(es[i])
    ensures Inv(After(mode, es)) && After(mode, es).mode == mode
  {
    if es != [] {
      var s, e := After(mode, es[..|es| - 1]), es[|es| - 1];
      InvRun(mode, es[..|es| - 1]);
      match e
      case Update(paths) => RefreshInv(s, paths);
      case Packet(refresh, realtime) =>
        assert WellFormed(e);
        ScheduleIsGood(s, refresh, realtime);
    }
  }

  /**
   In every mode and every reachable state: the paths of a decision are alive and pairwise different, and there is
   one just when some path is alive.
   */
  lemma DecisionsAreGood(mode: Mode, es: seq<Event>, refresh: Option<seq<Path>>, realtime: bool)
    requires forall i :: 0 <= i < |es| ==> WellFormed(es[i])
    requires WellFormed(Packet(refresh, realtime))
    ensures var (t, d) := Schedule(After(mode, es), refresh, realtime); GoodDecision(t.alive, d)
  {
    InvRun(mode, es);
    ScheduleIsGood(After(mode, es), refresh, realtime);
  }

  /**
   Weighted mode is fair: after a refresh with a positive score total, and from whatever position the picks have
   reached, as many decisions as the table is long choose every alive path exactly its slot count.
   */
  lemma WeightedIsFair(s: State, paths: seq<Path>, done: nat, k: nat)
    requires s.mode == Weighted && Snapshot(paths) && TotalScore(Alive(paths)) > 0.0 && k < |Alive(paths)|
    ensures var t := Decisions(Refresh(s, paths), done).0;
            var path := Alive(paths)[k];
            Chosen(Decisions(t, |t.table|).1, path.id) == Slots(path.quality, TotalScore(Alive(paths)))
  {
    var alive := Alive(paths);
    var t0 := Refresh(s, paths);
    AliveIsPart(paths);
    TableIsPart(alive, TotalScore(alive));
    WeightedDecisions(t0, done, alive[k].id);
    var t := Decisions(t0, done).0;
    WeightedDecisions(t, |t.table|, alive[k].id);
    FullWindow(t.table, t.pos, alive[k].id);
    SlotsOfPath(alive, TotalScore(alive), k);
  }

  /** Round robin chooses each of n alive paths once in any n decisions in a row. */
  lemma RoundRobinIsFair(s: State, k: nat)
    requires s.mode == RoundRobin && Inv(s) && k < |s.alive|
    ensures Chosen(Decisions(s, |s.alive|).1, s.alive[k]) == 1
  {
    RoundRobinDecisions(s, |s.alive|, s.alive[k]);
    FullWindow(s.alive, s.rr, s.alive[k]);
    CountDistinct(s.alive, k);
  }
}
