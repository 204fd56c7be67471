/** What the law of RsFec implies for a column code: one data byte moves every parity byte, and any k bytes fit. */
module CodeDistance {
  import opened Collections
  import opened Bytes
  import opened RsFec

  lemma ErasedAgree(w: bytes, v: bytes, e: set<nat>)
    requires |w| == |v| && forall i | 0 <= i < |w| && i !in e :: w[i] == v[i]
    ensures Erase(w, e) == Erase(v, e)
  {
    forall i | 0 <= i < |w| ensures Erase(w, e)[i] == Erase(v, e)[i] {
      EraseAt(w, e, i);
      EraseAt(v, e, i);
    }
  }

  /** Data position j and all parity positions but one. */
  function AllBut(k: nat, p: nat, q: nat, j: nat): (e: set<nat>)
    requires j < k && q < p
    ensures |e| == p && forall i :: i in e <==> i == j || (k <= i < k + p && i != k + q)
  {
    var others := Range(k, k + p) - {k + q};
    assert |others| == p - 1 && j !in others;
    {j} + others
  }

  /** Two data words that differ in one byte differ in every parity byte. */
  lemma ParityDiffers(c: Codec, k: nat, p: nat, q: nat, d: bytes, d': bytes, j: nat)
    requires Lawful(c, k, p) && |d| == |d'| == k && j < k && q < p
    requires d != d' && forall i | 0 <= i < k && i != j :: d[i] == d'[i]
    ensures |c.enc(d)| == |c.enc(d')| == k + p
    ensures c.enc(d)[k + q] != c.enc(d')[k + q]
  {
    SystematicAt(c, p, d);
    SystematicAt(c, p, d');
    if c.enc(d)[k + q] == c.enc(d')[k + q] {
      var e := AllBut(k, p, q, j);
      ErasedAgree(c.enc(d), c.enc(d'), e);
      LawfulAt(c, k, p, d, e);
      LawfulAt(c, k, p, d', e);
    }
  }

  // ---------- any k bytes are part of a codeword ----------

  /** The bytes that are not erased. */
  function Punctured(w: bytes, e: set<nat>): bytes {
    if w == [] then [] else
      var n := |w| - 1;
      Punctured(w[..n], e) + if n in e then [] else [w[n]]
  }

  lemma {:induction false} PuncturedSize(w: bytes, e: set<nat>)
    requires forall i :: i in e ==> i < |w|
    ensures |Punctured(w, e)| + |e| == |w|
  {
    if w == [] {
      assert e == {};
    } else {
      var n := |w| - 1;
      var rest := e - {n};
      PuncturedSize(w[..n], rest);
      PuncturedSame(w[..n], e, rest);
      assert n in e ==> |rest| == |e| - 1;
      assert n !in e ==> rest == e;
    }
  }

  lemma {:induction false} PuncturedSame(w: bytes, e: set<nat>, e': set<nat>)
    requires forall i | 0 <= i < |w| :: i in e <==> i in e'
    ensures Punctured(w, e) == Punctured(w, e')
  {
    if w != [] { PuncturedSame(w[..|w| - 1], e, e'); }
  }

  lemma {:induction false} PuncturedDetermines(w: bytes, v: bytes, e: set<nat>)
    requires |w| == |v| && Punctured(w, e) == Punctured(v, e)
    ensures Erase(w, e) == Erase(v, e)
  {
    if w != [] {
      var n := |w| - 1;
      var a, b := Punctured(w[..n], e), Punctured(v[..n], e);
      if n !in e {
        assert a == (a + [w[n]])[..|a|] && b == (b + [v[n]])[..|b|];
        assert (a + [w[n]])[|a|] == w[n] && (b + [v[n]])[|b|] == v[n];
      } else {
        assert a + [] == a && b + [] == b;
      }
      PuncturedDetermines(w[..n], v[..n], e);
    }
  }

  /** All words of k bytes. */
  ghost function Words(k: nat): set<bytes> {
    if k == 0 then {[]} else set w, b: byte | w in Words(k - 1) && 0 <= b < 256 :: w + [b]
  }

  lemma {:induction false} WordsAre(k: nat, w: bytes)
    ensures w in Words(k) <==> |w| == k
  {
    if k != 0 {
      if |w| == k {
        WordsAre(k - 1, w[..k - 1]);
        assert w == w[..k - 1] + [w[k - 1]];
      }
      if w in Words(k) {
        var v, b: byte :| v in Words(k - 1) && w == v + [b];
        WordsAre(k - 1, v);
      }
    }
  }

  ghost function Image(f: bytes -> bytes, s: set<bytes>): set<bytes> {
    set x | x in s :: f(x)
  }

  ghost predicate Injective(f: bytes -> bytes, s: set<bytes>) {
    forall x, y :: x in s && y in s && f(x) == f(y) ==> x == y
  }

  lemma {:induction false} ImageSize(f: bytes -> bytes, s: set<bytes>)
    requires Injective(f, s)
    ensures |Image(f, s)| == |s|
  {
    if s != {} {
      var x :| x in s;
      var rest := s - {x};
      ImageSize(f, rest);
      assert Image(f, s) == Image(f, rest) + {f(x)};
      assert f(x) !in Image(f, rest);
    }
  }

  /** An injection of the words of k bytes into themselves reaches every one. */
  lemma ReachesAll(f: bytes -> bytes, k: nat, y: bytes)
    requires Injective(f, Words(k)) && |y| == k
    requires forall x :: x in Words(k) ==> |f(x)| == k
    ensures exists x :: x in Words(k) && f(x) == y
  {
    ImageSize(f, Words(k));
    forall z | z in Image(f, Words(k)) ensures z in Words(k) { WordsAre(k, z); }
    SubsetSize(Image(f, Words(k)), Words(k));
    WordsAre(k, y);
  }

  /** With p of the k + p bytes erased, a lawful code decodes whatever the other k bytes are, as part of a codeword. */
  lemma AnyWordDecodes(c: Codec, k: nat, p: nat, w: bytes, e: set<nat>)
    requires Lawful(c, k, p) && |w| == k + p && e <= Range(0, k + p) && |e| == p
    requires forall i :: i in e ==> i < |w| && w[i] == 0
    ensures c.dec(w, e).Some? && |c.dec(w, e).value| == k && Erase(c.enc(c.dec(w, e).value), e) == w
  {
    var f := (d: bytes) => Punctured(c.enc(d), e);
    forall d | d in Words(k) ensures |f(d)| == k {
      WordsAre(k, d);
      SystematicAt(c, p, d);
      PuncturedSize(c.enc(d), e);
    }
    forall d, d' | d in Words(k) && d' in Words(k) && f(d) == f(d') ensures d == d' {
      WordsAre(k, d);
      WordsAre(k, d');
      SystematicAt(c, p, d);
      SystematicAt(c, p, d');
      PuncturedDetermines(c.enc(d), c.enc(d'), e);
      LawfulAt(c, k, p, d, e);
      LawfulAt(c, k, p, d', e);
    }
    PuncturedSize(w, e);
    ReachesAll(f, k, Punctured(w, e));
    var d :| d in Words(k) && f(d) == Punctured(w, e);
    WordsAre(k, d);
    SystematicAt(c, p, d);
    PuncturedDetermines(c.enc(d), w, e);
    forall i | 0 <= i < |w| ensures Erase(w, e)[i] == w[i] { EraseAt(w, e, i); }
    assert Erase(w, e) == w;
    LawfulAt(c, k, p, d, e);
  }

  lemma ColumnAlwaysDecodes(c: Codec, k: nat, p: nat, shards: map<nat, bytes>, i: nat)
    requires Lawful(c, k, p) && shards.Keys <= Range(0, k + p) && |shards| == k
    ensures DecodeColumn(c, k + p, shards, i).Some?
  {
    hide Lawful;
    var e := Range(0, k + p) - shards.Keys;
    var w := Codeword(k + p, shards, i);
    assert |shards.Keys| == |shards|;
    forall j | j in e ensures j < |w| && w[j] == 0 {
      CodewordAt(k + p, shards, i, j);
    }
    AnyWordDecodes(c, k, p, w, e);
  }

  /** Any k byte strings, of whatever origin, decode. */
  lemma AnyKShardsDecode(c: Codec, k: nat, p: nat, shards: map<nat, bytes>)
    requires Lawful(c, k, p) && k >= 1 && shards.Keys <= Range(0, k + p) && |shards| == k
    ensures Decoded(c, k, p, shards).Ok?
  {
    hide Lawful, DecodeColumn, Range;
    var total := k + p;
    forall i | 0 <= i < MaxBlock(shards) ensures DecodeColumn(c, total, shards, i).Some? {
      ColumnAlwaysDecodes(c, k, p, shards, i);
    }
  }
}
