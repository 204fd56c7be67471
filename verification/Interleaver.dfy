/** Cross-group interleaving: the packets of several groups are sent round by round, one of each group a round. */
module Interleaver {
  import opened Collections
  import opened Numbers
  import opened Bytes

  datatype Item = Item(group: int, data: bytes)

  datatype State = State(groups: seq<seq<Item>>, depth: int)

  function Init(depth: int): State {
    State([], Max1(depth))
  }

  function Max1(d: int): (r: int) {
    if d < 1 then 1 else d
  }

  // ---------- the order of a flush ----------

  /** Packet i of every group that has one, group by group. */
  function Round(groups: seq<seq<Item>>, i: nat): seq<Item> {
    if groups == [] then [] else
      var last := groups[|groups| - 1];
      Round(groups[..|groups| - 1], i) + if i < |last| then [last[i]] else []
  }

  function Rounds(groups: seq<seq<Item>>, n: nat): seq<Item> {
    if n == 0 then [] else Rounds(groups, n - 1) + Round(groups, n - 1)
  }

  function Longest(groups: seq<seq<Item>>): nat {
    if groups == [] then 0 else
      Max(Longest(groups[..|groups| - 1]), |groups[|groups| - 1]|)
  }

  function Interleaved(groups: seq<seq<Item>>): seq<Item> {
    Rounds(groups, Longest(groups))
  }

  function Datas(items: seq<Item>): (r: seq<bytes>)
    ensures |r| == |items| && forall i :: 0 <= i < |r| ==> r[i] == items[i].data
  {
    if items == [] then [] else Datas(items[..|items| - 1]) + [items[|items| - 1].data]
  }

  // ---------- steps ----------

  /** The first group that holds packets with this id, or the number of groups. */
  function Find(groups: seq<seq<Item>>, id: int): (j: nat)
    ensures j <= |groups|
    ensures j < |groups| ==> groups[j] != [] && groups[j][0].group == id
    ensures forall i :: 0 <= i < j ==> groups[i] == [] || groups[i][0].group != id
  {
    if groups == [] then 0
    else
      var n := |groups| - 1;
      var j := Find(groups[..n], id);
      if j < n then j
      else if groups[n] != [] && groups[n][0].group == id then n else n + 1
  }

  function Insert(groups: seq<seq<Item>>, x: Item): seq<seq<Item>> {
    var j := Find(groups, x.group);
    var g := if j < |groups| then groups else groups + [[]];
    g[j := g[j] + [x]]
  }

  datatype Event = Add(item: Item) | SetDepth(depth: int) | Flush

  function Step(s: State, e: Event): (State, seq<Item>) {
    match e
    case Add(x) =>
      var groups := Insert(s.groups, x);
      if |groups| >= s.depth then (s.(groups := []), Interleaved(groups)) else (s.(groups := groups), [])
    case SetDepth(d) => (s.(depth := Max1(d)), [])
    case Flush => (s.(groups := []), Interleaved(s.groups))
  }

  function After(depth: int, es: seq<Event>): State {
    if es == [] then Init(depth) else Step(After(depth, es[..|es| - 1]), es[|es| - 1]).0
  }

  function Output(depth: int, es: seq<Event>): seq<Item> {
    if es == [] then [] else
      Output(depth, es[..|es| - 1]) + Step(After(depth, es[..|es| - 1]), es[|es| - 1]).1
  }

  function Input(es: seq<Event>): seq<Item> {
    if es == [] then [] else
      Input(es[..|es| - 1]) + if es[|es| - 1].Add? then [es[|es| - 1].item] else []
  }

  // ---------- the object ----------

  class PacketInterleaver {
    var depth: int
    var groups: seq<seq<Item>>

    ghost function Model(): State
      reads this
    {
      State(groups, depth)
    }

    constructor (d: int)
      ensures Model() == Init(d)
    {
      depth, groups := Max1(d), [];
    }

    method ChangeDepth(d: int)
      modifies this
      ensures Model() == Step(old(Model()), SetDepth(d)).0
    {
      depth := Max1(d);
    }

    method AddPacket(groupId: int, data: bytes) returns (r: seq<bytes>)
      modifies this
      ensures Model() == Step(old(Model()), Add(Item(groupId, data))).0
      ensures r == Datas(Step(old(Model()), Add(Item(groupId, data))).1)
    {
      var j := 0;
      while j < |groups| && (groups[j] == [] || groups[j][0].group != groupId)
        invariant 0 <= j <= |groups|
        invariant forall i :: 0 <= i < j ==> groups[i] == [] || groups[i][0].group != groupId
      {
        j := j + 1;
      }
      assert j == Find(groups, groupId);
      ghost var inserted := Insert(groups, Item(groupId, data));
      if j == |groups| {
        groups := groups + [[]];
      }
      groups := groups[j := groups[j] + [Item(groupId, data)]];
      assert groups == inserted;
      if |groups| >= depth {
        r := Emit();
      } else {
        r := [];
      }
    }

    method FlushAll() returns (r: seq<bytes>)
      modifies this
      ensures Model() == Step(old(Model()), Flush).0
      ensures r == Datas(Step(old(Model()), Flush).1)
    {
      if groups == [] {
        return [];
      }
      r := Emit();
    }

    method Emit() returns (r: seq<bytes>)
      modifies this
      ensures r == Datas(Interleaved(old(groups)))
      ensures groups == [] && depth == old(depth)
    {
      hide Round, Datas;
      var gs := groups;
      var maxLen := 0;
      for g := 0 to |gs|
        invariant maxLen == Longest(gs[..g]) && depth == old(depth)
      {
        assert gs[..g + 1][..g] == gs[..g];
        maxLen := Max(maxLen, |gs[g]|);
      }
      assert gs[..|gs|] == gs;
      r := [];
      DatasOfNone();
      for i := 0 to maxLen
        invariant r == Datas(Rounds(gs, i)) && depth == old(depth)
      {
        RoundOfNone(i);
        assert Rounds(gs, i) + [] == Rounds(gs, i);
        for g := 0 to |gs|
          invariant r == Datas(Rounds(gs, i) + Round(gs[..g], i)) && depth == old(depth)
        {
          RoundMore(gs, g, i);
          if i < |gs[g]| {
            DatasMore(Rounds(gs, i), Round(gs[..g], i), gs[g][i]);
            r := r + [gs[g][i].data];
          } else {
            assert Round(gs[..g + 1], i) == Round(gs[..g], i);
          }
        }
      }
      groups := [];
    }
  }

  lemma DatasOfNone()
    ensures Datas([]) == []
  {
  }

  lemma RoundOfNone(i: nat)
    ensures Round([], i) == []
  {
  }

  lemma RoundMore(groups: seq<seq<Item>>, g: nat, i: nat)
    requires g < |groups|
    ensures Round(groups[..g + 1], i) == Round(groups[..g], i) + if i < |groups[g]| then [groups[g][i]] else []
  {
    assert groups[..g + 1][..g] == groups[..g];
  }

  lemma DatasMore(before: seq<Item>, items: seq<Item>, x: Item)
    ensures Datas(before + (items + [x])) == Datas(before + items) + [x.data]
  {
    var all := before + (items + [x]);
    assert all == before + items + [x];
    assert all[..|all| - 1] == before + items;
  }

  // ---------- where each packet lands ----------

  /** How many groups have more than i packets. */
  function Longer(groups: seq<seq<Item>>, i: nat): nat {
    if groups == [] then 0 else
      Longer(groups[..|groups| - 1], i) + if i < |groups[|groups| - 1]| then 1 else 0
  }

  /** How many packets the groups have in their first i rounds. */
  function Before(groups: seq<seq<Item>>, i: nat): nat {
    if groups == [] then 0 else
      Before(groups[..|groups| - 1], i) + Min(|groups[|groups| - 1]|, i)
  }

  function Position(groups: seq<seq<Item>>, j: nat, i: nat): nat
    requires j <= |groups|
  {
    Before(groups, i) + Longer(groups[..j], i)
  }

  lemma {:induction false} BeforeNext(groups: seq<seq<Item>>, i: nat)
    ensures Before(groups, i + 1) == Before(groups, i) + Longer(groups, i)
    ensures Before(groups, 0) == 0
  {
    if groups != [] { BeforeNext(groups[..|groups| - 1], i); }
  }

  lemma {:induction false} RoundSize(groups: seq<seq<Item>>, i: nat)
    ensures |Round(groups, i)| == Longer(groups, i)
  {
    if groups != [] { RoundSize(groups[..|groups| - 1], i); }
  }

  lemma {:induction false} RoundsSize(groups: seq<seq<Item>>, n: nat)
    ensures |Rounds(groups, n)| == Before(groups, n)
  {
    hide Before, Longer, Round;
    if n == 0 { BeforeNext(groups, 0); } else {
      RoundsSize(groups, n - 1);
      RoundSize(groups, n - 1);
      BeforeNext(groups, n - 1);
    }
  }

  lemma {:induction false} RoundHas(groups: seq<seq<Item>>, i: nat, j: nat)
    requires j < |groups| && i < |groups[j]|
    ensures Longer(groups[..j], i) < |Round(groups, i)|
    ensures Round(groups, i)[Longer(groups[..j], i)] == groups[j][i]
  {
    var n := |groups| - 1;
    RoundSize(groups[..n], i);
    if j < n {
      RoundHas(groups[..n], i, j);
      assert groups[..n][..j] == groups[..j];
    }
  }

  lemma {:induction false} RoundsKeep(groups: seq<seq<Item>>, m: nat, n: nat)
    requires m <= n
    ensures Rounds(groups, m) <= Rounds(groups, n)
  {
    if m < n { RoundsKeep(groups, m, n - 1); }
  }

  lemma {:induction false} LongestBounds(groups: seq<seq<Item>>, j: nat)
    requires j < |groups|
    ensures |groups[j]| <= Longest(groups)
  {
    if j < |groups| - 1 { LongestBounds(groups[..|groups| - 1], j); }
  }

  /** Packet i of group j is sent at its position. */
  lemma LandsAt(groups: seq<seq<Item>>, j: nat, i: nat)
    requires j < |groups| && i < |groups[j]|
    ensures Position(groups, j, i) < |Interleaved(groups)|
    ensures Interleaved(groups)[Position(groups, j, i)] == groups[j][i]
  {
    hide Round, Rounds, Longest, Before, Longer;
    LongestBounds(groups, j);
    RoundsSize(groups, i);
    RoundsMore(groups, i + 1);
    RoundHas(groups, i, j);
    RoundsKeep(groups, i + 1, Longest(groups));
  }

  lemma {:induction false} LongerGrows(groups: seq<seq<Item>>, j: nat, j': nat, i: nat)
    requires j < j' <= |groups| && i < |groups[j]|
    ensures Longer(groups[..j], i) < Longer(groups[..j'], i)
  {
    var n := j' - 1;
    assert groups[..j'][..n] == groups[..n];
    if j < n { LongerGrows(groups, j, n, i); }
  }

  lemma {:induction false} BeforeGrows(groups: seq<seq<Item>>, i: nat, i': nat)
    requires i <= i'
    ensures Before(groups, i) <= Before(groups, i')
  {
    if i < i' {
      BeforeGrows(groups, i, i' - 1);
      BeforeNext(groups, i' - 1);
    }
  }

  /** Packets leave by round, and within a round by group; so no two share a position. */
  lemma PositionsAscend(groups: seq<seq<Item>>, j: nat, i: nat, j': nat, i': nat)
    requires j < |groups| && i < |groups[j]| && j' < |groups| && i' < |groups[j']|
    requires i < i' || (i == i' && j < j')
    ensures Position(groups, j, i) < Position(groups, j', i')
  {
    if i == i' {
      LongerGrows(groups, j, j', i);
    } else {
      LongerGrows(groups, j, |groups|, i);
      assert groups[..|groups|] == groups;
      BeforeNext(groups, i);
      BeforeGrows(groups, i + 1, i');
    }
  }

  // ---------- groups of equal length: a burst is shared out ----------

  ghost predicate EqualLengths(groups: seq<seq<Item>>, n: nat) {
    forall j :: 0 <= j < |groups| ==> |groups[j]| == n
  }

  lemma {:induction false} EqualCounts(groups: seq<seq<Item>>, n: nat, i: nat)
    requires EqualLengths(groups, n) && i <= n
    ensures Before(groups, i) == |groups| * i
    ensures i < n ==> Longer(groups, i) == |groups|
    ensures groups != [] ==> Longest(groups) == n
  {
    if groups != [] {
      var m := |groups| - 1;
      var rest := groups[..m];
      EqualCounts(rest, n, i);
      OneMoreTime(m, i);
      assert groups[..m + 1] == groups && |rest| == m;
    }
  }

  lemma OneMoreTime(m: nat, i: nat)
    ensures (m + 1) * i == m * i + i
  {
  }

  /** Output t is packet t / m of group t % m. */
  lemma EqualPositions(groups: seq<seq<Item>>, n: nat, t: nat)
    requires groups != [] && EqualLengths(groups, n) && t < |groups| * n
    ensures |Interleaved(groups)| == |groups| * n
    ensures t / |groups| < n && Interleaved(groups)[t] == groups[t % |groups|][t / |groups|]
  {
    var m := |groups|;
    hide Round, Rounds, Longest, Before, Longer;
    var j, i := t % m, t / m;
    DivBelow(t, m, n);
    InterleavedSize(groups, n);
    EqualCounts(groups, n, i);
    EqualCounts(groups[..j], n, i);
    LandsAt(groups, j, i);
    assert t == m * i + j;
  }

  lemma DivBelow(t: nat, m: nat, n: nat)
    requires m > 0 && t < m * n
    ensures t / m < n
  {
    FactorBelow(m, t / m, n);
  }

  /** How many of the b outputs from position s on are of group j. */
  function Hits(m: nat, j: nat, s: nat, b: nat): nat
    requires m > 0
  {
    if b == 0 then 0 else Hits(m, j, s, b - 1) + if (s + b - 1) % m == j then 1 else 0
  }

  /** Any m outputs in a row hit a group once. */
  lemma {:induction false} HitsOfRound(m: nat, j: nat, s: nat, b: nat)
    requires m > 0 && j < m && b <= m
    ensures Hits(m, j, s, b) <= 1
    ensures Hits(m, j, s, b) == 1 ==> exists t :: s <= t < s + b && t % m == j
  {
    if b != 0 {
      HitsOfRound(m, j, s, b - 1);
      var last := s + b - 1;
      if last % m == j {
        if Hits(m, j, s, b - 1) == 1 {
          var t :| s <= t < s + b - 1 && t % m == j;
          SameRemainder(t, last, m);
        }
        assert s <= last < s + b;
      }
    }
  }

  lemma SameRemainder(t: nat, u: nat, m: nat)
    requires m > 0 && t < u < t + m
    ensures t % m != u % m
  {
    var d := u / m - t / m;
    assert u - t == m * d + (u % m - t % m);
    NoMultipleBetween(m, d);
  }

  lemma {:induction false} HitsSplit(m: nat, j: nat, s: nat, a: nat, b: nat)
    requires m > 0
    ensures Hits(m, j, s, a + b) == Hits(m, j, s, a) + Hits(m, j, s + a, b)
  {
    if b != 0 { HitsSplit(m, j, s, a, b - 1); }
  }

  lemma {:induction false} HitsAtMost(m: nat, j: nat, s: nat, b: nat, c: nat)
    requires m > 0 && j < m && b <= m * c
    ensures Hits(m, j, s, b) <= c
    decreases c
  {
    if b != 0 {
      hide Hits;
      OneRoundLess(m, b, c);
      HitsOfRound(m, j, s, if b <= m then b else m);
      if b > m {
        HitsSplit(m, j, s, m, b - m);
        HitsAtMost(m, j, s + m, b - m, c - 1);
      }
    }
  }

  lemma OneRoundLess(m: nat, b: nat, c: nat)
    requires 0 < b <= m * c
    ensures c >= 1 && b - m <= m * (c - 1)
  {
    assert c == 0 ==> m * c == 0;
    assert m * c == m * (c - 1) + m;
  }

  lemma HitsAtMostCeiling(m: nat, j: nat, s: nat, b: nat)
    requires m > 0 && j < m
    ensures Hits(m, j, s, b) <= (b + m - 1) / m
  {
    var c := (b + m - 1) / m;
    assert b <= m * c;
    HitsAtMost(m, j, s, b, c);
  }

  // ---------- whole runs ----------

  function OfGroup(items: seq<Item>, id: int): seq<Item> {
    if items == [] then [] else
      OfGroup(items[..|items| - 1], id) + if items[|items| - 1].group == id then [items[|items| - 1]] else []
  }

  lemma {:induction false} OfGroupConcat(a: seq<Item>, b: seq<Item>, id: int)
    ensures OfGroup(a + b, id) == OfGroup(a, id) + OfGroup(b, id)
  {
    if b == [] {
      assert a + b == a;
    } else {
      OfGroupConcat(a, b[..|b| - 1], id);
      assert (a + b)[..|a + b| - 1] == a + b[..|b| - 1];
    }
  }

  /** Every group is nonempty and holds one id, and no id has two groups. */
  ghost predicate Valid(groups: seq<seq<Item>>) {
    && (forall j :: 0 <= j < |groups| ==> groups[j] != [])
    && (forall j, i :: 0 <= j < |groups| && 0 <= i < |groups[j]| ==> groups[j][i].group == groups[j][0].group)
    && (forall j, j' :: 0 <= j < j' < |groups| ==> groups[j][0].group != groups[j'][0].group)
  }

  /** The packets held for an id. */
  function Held(groups: seq<seq<Item>>, id: int): seq<Item> {
    var j := Find(groups, id);
    if j < |groups| then groups[j] else []
  }

  lemma InsertValid(groups: seq<seq<Item>>, x: Item)
    requires Valid(groups)
    ensures Valid(Insert(groups, x))
  {
    var j := Find(groups, x.group);
    var g: seq<seq<Item>> := Insert(groups, x);
    assert forall k :: 0 <= k < |g| ==> g[k] != [] && g[k][0].group == (if k == j then x.group else groups[k][0].group);
  }

  lemma FindIs(groups: seq<seq<Item>>, j: nat)
    requires Valid(groups) && j < |groups|
    ensures Find(groups, groups[j][0].group) == j
  {
  }

  lemma InsertKeepsHeads(groups: seq<seq<Item>>, x: Item)
    requires Valid(groups)
    ensures |groups| <= |Insert(groups, x)|
    ensures forall k :: 0 <= k < |groups| ==> Insert(groups, x)[k] != [] && Insert(groups, x)[k][0] == groups[k][0]
  {
  }

  lemma InsertHeld(groups: seq<seq<Item>>, x: Item, id: int)
    requires Valid(groups)
    ensures Held(Insert(groups, x), id) == Held(groups, id) + if x.group == id then [x] else []
  {
    InsertValid(groups, x);
    InsertKeepsHeads(groups, x);
    var g := Insert(groups, x);
    var j := Find(g, id);
    if j < |g| {
      FindIs(g, j);
      if j < |groups| { FindIs(groups, j); }
    }
  }

  lemma {:induction false} RoundOfGroup(groups: seq<seq<Item>>, i: nat, id: int)
    requires Valid(groups)
    ensures OfGroup(Round(groups, i), id) == if i < |Held(groups, id)| then [Held(groups, id)[i]] else []
  {
    if groups != [] {
      var n := |groups| - 1;
      var tail := if i < |groups[n]| then [groups[n][i]] else [];
      RoundOfLast(groups, i, id);
      HeldOfLast(groups, id);
      hide Round, OfGroup, Held, Valid;
      RoundOfGroup(groups[..n], i, id);
      OfGroupConcat(Round(groups[..n], i), tail, id);
    }
  }

  lemma RoundOfLast(groups: seq<seq<Item>>, i: nat, id: int)
    requires Valid(groups) && groups != []
    ensures var last := groups[|groups| - 1];
            && Valid(groups[..|groups| - 1])
            && Round(groups, i) == Round(groups[..|groups| - 1], i) + (if i < |last| then [last[i]] else [])
            && (i < |last| ==> OfGroup([last[i]], id) == if last[0].group == id then [last[i]] else [])
            && OfGroup([], id) == []
  {
    var last := groups[|groups| - 1];
    assert i < |last| ==> [last[i]][..0] == [];
  }

  lemma HeldOfLast(groups: seq<seq<Item>>, id: int)
    requires Valid(groups) && groups != []
    ensures var last := groups[|groups| - 1];
            && (last[0].group == id ==> Held(groups, id) == last && Held(groups[..|groups| - 1], id) == [])
            && (last[0].group != id ==> Held(groups, id) == Held(groups[..|groups| - 1], id))
  {
    if groups[|groups| - 1][0].group == id { FindIs(groups, |groups| - 1); }
  }

  lemma {:induction false} RoundsOfGroup(groups: seq<seq<Item>>, n: nat, id: int)
    requires Valid(groups)
    ensures OfGroup(Rounds(groups, n), id) == FirstOf(Held(groups, id), n)
  {
    hide OfGroup, Round, Rounds, Held, Valid, FirstOf;
    if n == 0 {
      RoundsOfNone(groups, id);
    } else {
      RoundsMore(groups, n);
      RoundsOfGroup(groups, n - 1, id);
      RoundOfGroup(groups, n - 1, id);
      OfGroupConcat(Rounds(groups, n - 1), Round(groups, n - 1), id);
      FirstOfMore(Held(groups, id), n);
    }
  }

  lemma RoundsOfNone(groups: seq<seq<Item>>, id: int)
    ensures OfGroup(Rounds(groups, 0), id) == [] == FirstOf(Held(groups, id), 0)
  {
  }

  lemma RoundsMore(groups: seq<seq<Item>>, n: nat)
    requires n > 0
    ensures Rounds(groups, n) == Rounds(groups, n - 1) + Round(groups, n - 1)
  {
  }

  lemma FirstOfMore(items: seq<Item>, n: nat)
    requires n > 0
    ensures FirstOf(items, n) == FirstOf(items, n - 1) + if n - 1 < |items| then [items[n - 1]] else []
  {
  }

  function FirstOf(items: seq<Item>, n: nat): seq<Item> {
    if n <= |items| then items[..n] else items
  }

  lemma FlushKeepsGroup(groups: seq<seq<Item>>, id: int)
    requires Valid(groups)
    ensures OfGroup(Interleaved(groups), id) == Held(groups, id)
  {
    RoundsOfGroup(groups, Longest(groups), id);
    var j := Find(groups, id);
    if j < |groups| { LongestBounds(groups, j); }
  }

  lemma StepKeepsGroup(s: State, e: Event, id: int)
    requires Valid(s.groups)
    ensures Valid(Step(s, e).0.groups)
    ensures OfGroup(Step(s, e).1, id) + Held(Step(s, e).0.groups, id)
         == Held(s.groups, id) + if e.Add? && e.item.group == id then [e.item] else []
  {
    hide Insert, Interleaved, OfGroup, Held, Valid;
    NothingHeld(id);
    match e
    case Add(x) =>
      InsertValid(s.groups, x);
      InsertHeld(s.groups, x, id);
      FlushKeepsGroup(Insert(s.groups, x), id);
    case SetDepth(_) =>
    case Flush =>
      FlushKeepsGroup(s.groups, id);
  }

  lemma NothingHeld(id: int)
    ensures Valid([]) && Held([], id) == [] && OfGroup([], id) == []
  {
  }

  lemma InputOfGroup(es: seq<Event>, id: int)
    requires es != []
    ensures var e := es[|es| - 1];
            OfGroup(Input(es), id)
            == OfGroup(Input(es[..|es| - 1]), id) + if e.Add? && e.item.group == id then [e.item] else []
  {
    var e := es[|es| - 1];
    var before := Input(es[..|es| - 1]);
    if e.Add? {
      OfGroupConcat(before, [e.item], id);
      assert [e.item][..0] == [];
      assert OfGroup([e.item], id) == if e.item.group == id then [e.item] else [];
    } else {
      assert Input(es) == before;
    }
  }

  lemma Regroup(a: seq<Item>, b: seq<Item>, c: seq<Item>, h: seq<Item>, more: seq<Item>)
    requires b + c == h + more
    ensures (a + b) + c == (a + h) + more
  {
    assert (a + b) + c == a + (b + c);
    assert (a + h) + more == a + (h + more);
  }

  /** What has left, and then what is held, are the group's packets so far in their order. */
  lemma {:induction false} RunKeepsGroup(depth: int, es: seq<Event>, id: int)
    ensures Valid(After(depth, es).groups)
    ensures OfGroup(Output(depth, es), id) + Held(After(depth, es).groups, id) == OfGroup(Input(es), id)
  {
    if es != [] {
      hide Held, Step;
      hide OfGroup;
      var init, e := es[..|es| - 1], es[|es| - 1];
      var s := After(depth, init);
      var more := if e.Add? && e.item.group == id then [e.item] else [];
      RunKeepsGroup(depth, init, id);
      StepKeepsGroup(s, e, id);
      OfGroupConcat(Output(depth, init), Step(s, e).1, id);
      InputOfGroup(es, id);
      Regroup(OfGroup(Output(depth, init), id), OfGroup(Step(s, e).1, id), Held(Step(s, e).0.groups, id),
              Held(s.groups, id), more);
    }
  }

  /** Output t belongs to group j just when t leaves remainder j. */
  lemma GroupOfOutput(groups: seq<seq<Item>>, n: nat, j: nat, t: nat)
    requires Valid(groups) && EqualLengths(groups, n) && j < |groups| && t < |groups| * n
    ensures |Interleaved(groups)| == |groups| * n
    ensures Interleaved(groups)[t].group == groups[j][0].group <==> t % |groups| == j
  {
    hide Interleaved;
    EqualPositions(groups, n, t);
    DistinctIds(groups, j, t % |groups|, t / |groups|);
  }

  lemma DistinctIds(groups: seq<seq<Item>>, j: nat, k: nat, i: nat)
    requires Valid(groups) && j < |groups| && k < |groups| && i < |groups[k]|
    ensures groups[j] != [] && (groups[k][i].group == groups[j][0].group <==> j == k)
  {
    assert groups[k][i].group == groups[k][0].group;
  }

  lemma GroupsOfOutput(groups: seq<seq<Item>>, n: nat, j: nat)
    requires Valid(groups) && EqualLengths(groups, n) && j < |groups|
    ensures var out, id := Interleaved(groups), groups[j][0].group;
            forall t :: 0 <= t < |out| ==> (out[t].group == id <==> t % |groups| == j)
  {
    hide Interleaved;
    InterleavedSize(groups, n);
    forall t | 0 <= t < |Interleaved(groups)|
      ensures Interleaved(groups)[t].group == groups[j][0].group <==> t % |groups| == j
    {
      GroupOfOutput(groups, n, j, t);
    }
  }

  lemma InterleavedSize(groups: seq<seq<Item>>, n: nat)
    requires groups != [] && EqualLengths(groups, n)
    ensures |Interleaved(groups)| == |groups| * n
  {
    hide Before, Longer, Rounds, Longest, EqualLengths;
    EqualCounts(groups, n, n);
    RoundsSize(groups, n);
  }

  lemma {:induction false} HitsAreCounted(out: seq<Item>, id: int, m: nat, j: nat, s: nat, b: nat)
    requires m > 0 && s + b <= |out|
    requires forall t :: 0 <= t < |out| ==> (out[t].group == id <==> t % m == j)
    ensures |OfGroup(out[s..s + b], id)| == Hits(m, j, s, b)
  {
    if b != 0 {
      HitsAreCounted(out, id, m, j, s, b - 1);
      assert out[s..s + b][..b - 1] == out[s..s + b - 1];
    }
  }

  /** Losing any b outputs in a row costs one of m groups of equal length at most b / m packets, rounded up. */
  lemma BurstIsShared(groups: seq<seq<Item>>, n: nat, j: nat, s: nat, b: nat)
    requires Valid(groups) && EqualLengths(groups, n) && j < |groups| && s + b <= |Interleaved(groups)|
    ensures |OfGroup(Interleaved(groups)[s..s + b], groups[j][0].group)| <= (b + |groups| - 1) / |groups|
  {
    GroupsOfOutput(groups, n, j);
    HitsAreCounted(Interleaved(groups), groups[j][0].group, |groups|, j, s, b);
    HitsAtMostCeiling(|groups|, j, s, b);
  }

  /** A packet occurs as often as it occurs among the packets of its group. */
  lemma {:induction false} CountOfGroup(a: seq<Item>, x: Item)
    ensures multiset(a)[x] == multiset(OfGroup(a, x.group))[x]
  {
    if a != [] {
      CountOfGroup(a[..|a| - 1], x);
      assert a == a[..|a| - 1] + [a[|a| - 1]];
    }
  }

  /**
   Whatever the depths, a run that ends with a flush has sent exactly the packets put in, each as often as it
   was put in, and those of each group in their order.
   */
  lemma OrderKeepingPermutation(depth: int, es: seq<Event>)
    requires es != [] && es[|es| - 1].Flush?
    ensures multiset(Output(depth, es)) == multiset(Input(es))
    ensures forall id :: OfGroup(Output(depth, es), id) == OfGroup(Input(es), id)
  {
    var out, inp := Output(depth, es), Input(es);
    forall id ensures OfGroup(out, id) == OfGroup(inp, id) {
      RunKeepsGroup(depth, es, id);
      assert After(depth, es).groups == [];
    }
    forall x: Item ensures multiset(out)[x] == multiset(inp)[x] {
      CountOfGroup(out, x);
      CountOfGroup(inp, x);
    }
  }

  // ---------- when a packet flushes, and what ----------

  /** The ids of the packets, in the order in which they first occur. */
  function Opened(items: seq<Item>): seq<int> {
    if items == [] then [] else
      var ids, id := Opened(items[..|items| - 1]), items[|items| - 1].group;
      if id in ids then ids else ids + [id]
  }

  /** The packets by id: the ids in that order, the packets of each in theirs. */
  function Grouped(items: seq<Item>): seq<seq<Item>> {
    seq(|Opened(items)|, j requires 0 <= j < |Opened(items)| => OfGroup(items, Opened(items)[j]))
  }

  lemma {:induction false} OpenedOnce(items: seq<Item>, id: int)
    ensures forall i, j :: 0 <= i < j < |Opened(items)| ==> Opened(items)[i] != Opened(items)[j]
    ensures id in Opened(items) <==> OfGroup(items, id) != []
    ensures forall x :: x in OfGroup(items, id) ==> x.group == id
  {
    if items != [] { OpenedOnce(items[..|items| - 1], id); }
  }

  /** Inserting into the groups of some packets gives the groups of one packet more. */
  lemma InsertGroups(items: seq<Item>, x: Item)
    ensures Insert(Grouped(items), x) == Grouped(items + [x])
  {
    var ids: seq<int> := Opened(items);
    var groups: seq<seq<Item>> := Grouped(items);
    hide Opened, OfGroup;
    OpenedMore(items, x);
    forall j | 0 <= j < |ids|
      ensures groups[j] != [] && groups[j][0].group == ids[j]
      ensures OfGroup(items + [x], ids[j]) == groups[j] + if x.group == ids[j] then [x] else []
    {
      OpenedOnce(items, ids[j]);
      OfGroupMore(items, x, ids[j]);
    }
    OpenedOnce(items, x.group);
    OfGroupMore(items, x, x.group);
    if x.group in ids {
      var j :| 0 <= j < |ids| && ids[j] == x.group;
      InsertAt(groups, x, j);
    } else {
      InsertAt(groups, x, |ids|);
      assert Opened(items + [x])[|ids|] == x.group;
    }
    var now: seq<seq<Item>> := Insert(groups, x);
    var more := Grouped(items + [x]);
    assert |now| == |more|;
    forall k | 0 <= k < |now| ensures now[k] == more[k] {
      if k < |ids| { assert Opened(items + [x])[k] == ids[k]; }
    }
  }

  lemma InsertAt(groups: seq<seq<Item>>, x: Item, j: nat)
    requires j <= |groups| && (j < |groups| ==> groups[j] != [] && groups[j][0].group == x.group)
    requires forall i :: 0 <= i < |groups| && i != j ==> groups[i] == [] || groups[i][0].group != x.group
    ensures Insert(groups, x) == if j < |groups| then groups[j := groups[j] + [x]] else groups + [[x]]
  {
    assert Find(groups, x.group) == j;
    if j == |groups| {
      var g: seq<seq<Item>> := groups + [[]];
      assert g[j] + [x] == [x];
      assert g[j := [x]] == groups + [[x]];
    }
  }

  lemma OpenedMore(items: seq<Item>, x: Item)
    ensures Opened(items + [x]) == Opened(items) + if x.group in Opened(items) then [] else [x.group]
  {
    assert (items + [x])[..|items|] == items;
  }

  lemma OfGroupMore(items: seq<Item>, x: Item, id: int)
    ensures OfGroup(items + [x], id) == OfGroup(items, id) + if x.group == id then [x] else []
  {
    assert (items + [x])[..|items|] == items;
  }

  /** The depth set last; a depth below one counts as one. */
  function DepthNow(depth: int, es: seq<Event>): int {
    if es == [] then if depth >= 1 then depth else 1
    else if es[|es| - 1].SetDepth? then if es[|es| - 1].depth >= 1 then es[|es| - 1].depth else 1
    else DepthNow(depth, es[..|es| - 1])
  }

  /** The packets put in since the last flush; one that brings the ids up to the depth set then flushes. */
  function Waiting(depth: int, es: seq<Event>): seq<Item> {
    if es == [] then [] else
      var init := es[..|es| - 1];
      match es[|es| - 1]
      case Add(x) =>
        var items := Waiting(depth, init) + [x];
        if |Opened(items)| >= DepthNow(depth, init) then [] else items
      case SetDepth(_) => Waiting(depth, init)
      case Flush => []
  }

  /** What is held is what waits, by id. */
  lemma {:induction false} HoldsWhatWaits(depth: int, es: seq<Event>)
    ensures After(depth, es) == State(Grouped(Waiting(depth, es)), DepthNow(depth, es))
  {
    hide Insert, OfGroup;
    NothingGrouped();
    if es != [] {
      var n := |es| - 1;
      HoldsWhatWaits(depth, es[..n]);
      if es[n].Add? { InsertGroups(Waiting(depth, es[..n]), es[n].item); }
    }
  }

  lemma NothingGrouped()
    ensures Grouped([]) == []
  {
  }

  /**
   A packet flushes exactly if with it as many ids wait as the depth set last, or more. Then everything waiting comes
   out, interleaved by id in the order in which the ids were opened; otherwise nothing does.
   */
  lemma AddFlushesAtDepth(depth: int, es: seq<Event>, x: Item)
    ensures var items := Waiting(depth, es) + [x];
            var (t, out) := Step(After(depth, es), Add(x));
            if |Opened(items)| >= DepthNow(depth, es) then out == Interleaved(Grouped(items)) && t.groups == []
            else out == [] && t.groups == Grouped(items)
  {
    hide Insert, Interleaved;
    HoldsWhatWaits(depth, es);
    InsertGroups(Waiting(depth, es), x);
  }

  /** A depth below one counts as one, at the start and later; changing it flushes nothing. */
  lemma DepthIsPositive(s: State, depth: int)
    ensures Init(depth).depth == (if depth >= 1 then depth else 1) && Init(depth).groups == []
    ensures Step(s, SetDepth(depth)) == (s.(depth := if depth >= 1 then depth else 1), [])
  {
  }
}
