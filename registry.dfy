/**
 * The first-seen dictionaries of the transform loop (`all_colors` at
 * backend/etl/run_etl.py:245-248 and `all_subjects` at :256-257): a key not yet in the
 * dictionary is stored with id `len(dict) + 1` and the payload it was sighted with; a key
 * already there is left as it is. `Sighting` streams are the keys in the order the loop
 * meets them.
 */
module Registry {

  /** A stored entry: its dense id and the payload of the key's first sighting. */
  datatype Entry<P> = Entry(id: nat, payload: P)

  type Registry<K, P> = map<K, Entry<P>>

  /** `if k not in m: m[k] = {'id': len(m) + 1, ...}` */
  function Register<K, P>(m: Registry<K, P>, k: K, p: P): Registry<K, P> {
    if k in m then m else m[k := Entry(|m| + 1, p)]
  }

  /** Registering every sighting of `ks`, in order. */
  function RegisterAll<K, P>(m: Registry<K, P>, ks: seq<(K, P)>): Registry<K, P>
    decreases |ks|
  {
    if ks == [] then m
    else Register(RegisterAll(m, ks[..|ks| - 1]), ks[|ks| - 1].0, ks[|ks| - 1].1)
  }

  /** The keys sighted in `ks`. */
  function Sighted<K, P>(ks: seq<(K, P)>): set<K> {
    set i | 0 <= i < |ks| :: ks[i].0
  }

  /** `i` is the position of the first sighting of `k` in `ks`. */
  ghost predicate FirstAt<K, P>(ks: seq<(K, P)>, k: K, i: int) {
    0 <= i < |ks| && ks[i].0 == k && forall j :: 0 <= j < i ==> ks[j].0 != k
  }

  /** Some key of `m` has id `n`. */
  ghost predicate HasId<K, P>(m: Registry<K, P>, n: int) {
    exists k :: k in m && m[k].id == n
  }

  /** The ids of `m` are exactly 1..|m|, one per key. */
  ghost predicate Dense<K, P>(m: Registry<K, P>) {
    && (forall k :: k in m ==> 1 <= m[k].id <= |m|)
    && (forall k1, k2 :: k1 in m && k2 in m && m[k1].id == m[k2].id ==> k1 == k2)
    && (forall n :: 1 <= n <= |m| ==> HasId(m, n))
  }

  /** Every stored payload is the one the key was first sighted with. */
  ghost predicate FirstPayloads<K, P>(m: Registry<K, P>, ks: seq<(K, P)>) {
    forall k :: k in m ==> exists i :: FirstAt(ks, k, i) && m[k].payload == ks[i].1
  }

  /** A key sighted first earlier has the smaller id. */
  ghost predicate FirstSeenOrder<K, P>(m: Registry<K, P>, ks: seq<(K, P)>) {
    forall k1, k2, i1, i2 :: FirstAt(ks, k1, i1) && FirstAt(ks, k2, i2) && i1 < i2 && k1 in m && k2 in m ==>
      m[k1].id < m[k2].id
  }

  /** Registering a key keeps the ids dense, keeps every stored entry, and stores the key. */
  lemma RegisterKeepsDense<K, P>(m: Registry<K, P>, k: K, p: P)
    requires Dense(m)
    ensures Dense(Register(m, k, p))
    ensures Register(m, k, p).Keys == m.Keys + {k}
    ensures forall j :: j in m ==> Register(m, k, p)[j] == m[j]
    ensures k !in m ==> Register(m, k, p)[k] == Entry(|m| + 1, p) && |Register(m, k, p)| == |m| + 1
  {
    if k !in m {
      var r := Register(m, k, p);
      assert |r| == |m| + 1;
      forall n | 1 <= n <= |r| ensures HasId(r, n) {
        if n <= |m| {
          assert HasId(m, n);
          var j :| j in m && m[j].id == n;
          assert r[j].id == n;
        } else {
          assert r[k].id == n;
        }
      }
    }
  }

  lemma {:induction false} RegisterAllAppend<K, P>(m: Registry<K, P>, a: seq<(K, P)>, b: seq<(K, P)>)
    ensures RegisterAll(m, a + b) == RegisterAll(RegisterAll(m, a), b)
    decreases |b|
  {
    if b == [] {
      assert a + b == a;
    } else {
      assert (a + b)[..|a + b| - 1] == a + b[..|b| - 1];
      RegisterAllAppend(m, a, b[..|b| - 1]);
    }
  }

  /** The keys sighted in a stream are those of all but its last sighting, and the last one. */
  lemma SightedSnoc<K, P>(ks: seq<(K, P)>)
    requires ks != []
    ensures Sighted(ks) == Sighted(ks[..|ks| - 1]) + {ks[|ks| - 1].0}
  {
    var pre := ks[..|ks| - 1];
    forall x | x in Sighted(pre) ensures x in Sighted(ks) {
      var j :| 0 <= j < |pre| && pre[j].0 == x;
      assert ks[j].0 == x;
    }
  }

  /** A first sighting in a prefix of the stream is a first sighting in the whole stream. */
  lemma FirstAtPrefix<K, P>(ks: seq<(K, P)>, n: nat, k: K, i: int)
    requires n <= |ks| && FirstAt(ks[..n], k, i)
    ensures FirstAt(ks, k, i)
  {
  }

  /** A key whose first sighting is the last one was not sighted before it. */
  lemma FirstAtLastIsNew<K, P>(ks: seq<(K, P)>, k: K)
    requires ks != [] && FirstAt(ks, k, |ks| - 1)
    ensures k !in Sighted(ks[..|ks| - 1])
  {
    var pre := ks[..|ks| - 1];
    forall x | x in Sighted(pre) ensures x != k {
      var j :| 0 <= j < |pre| && pre[j].0 == x;
      assert ks[j].0 == x;
    }
  }

  /** A first sighting of `k` in the stream is a sighting of `k`. */
  lemma FirstAtSighted<K, P>(ks: seq<(K, P)>, k: K, i: int)
    requires FirstAt(ks, k, i)
    ensures k in Sighted(ks)
  {
  }

  /**
   * Registering a sighting stream from an empty dictionary stores exactly the keys sighted,
   * with ids exactly 1..n.
   */
  lemma {:induction false} RegisterAllDense<K, P>(ks: seq<(K, P)>)
    ensures Dense(RegisterAll(map[], ks))
    ensures RegisterAll(map[], ks).Keys == Sighted(ks)
    decreases |ks|
  {
    if ks != [] {
      var n := |ks| - 1;
      RegisterAllDense(ks[..n]);
      RegisterKeepsDense(RegisterAll(map[], ks[..n]), ks[n].0, ks[n].1);
      SightedSnoc(ks);
    }
  }

  /** Each stored payload is the one the key was first sighted with; later payloads are ignored. */
  lemma {:induction false} RegisterAllFirstPayloads<K, P>(ks: seq<(K, P)>)
    ensures FirstPayloads(RegisterAll(map[], ks), ks)
    decreases |ks|
  {
    if ks != [] {
      var n := |ks| - 1;
      var pre := ks[..n];
      var m := RegisterAll(map[], pre);
      var r := RegisterAll(map[], ks);
      RegisterAllFirstPayloads(pre);
      RegisterAllDense(pre);
      forall x | x in r ensures exists i :: FirstAt(ks, x, i) && r[x].payload == ks[i].1 {
        if x in m {
          var i :| FirstAt(pre, x, i) && m[x].payload == pre[i].1;
          FirstAtPrefix(ks, n, x, i);
        } else {
          assert FirstAt(ks, x, n);
        }
      }
    }
  }

  /** A key first sighted earlier than another gets the smaller id. */
  lemma {:induction false} RegisterAllFirstSeenOrder<K, P>(ks: seq<(K, P)>)
    ensures FirstSeenOrder(RegisterAll(map[], ks), ks)
    decreases |ks|
  {
    if ks != [] {
      RegisterAllFirstSeenOrder(ks[..|ks| - 1]);
      RegisterAllDense(ks[..|ks| - 1]);
      forall k1, k2, i1, i2 | FirstAt(ks, k1, i1) && FirstAt(ks, k2, i2) && i1 < i2
        && k1 in RegisterAll(map[], ks) && k2 in RegisterAll(map[], ks)
        ensures RegisterAll(map[], ks)[k1].id < RegisterAll(map[], ks)[k2].id
      {
        FirstSeenOrderStep(ks, k1, k2, i1, i2);
      }
    }
  }

  /** One step of `RegisterAllFirstSeenOrder`: the last sighting keeps the order. */
  lemma FirstSeenOrderStep<K, P>(ks: seq<(K, P)>, k1: K, k2: K, i1: int, i2: int)
    requires ks != [] && FirstAt(ks, k1, i1) && FirstAt(ks, k2, i2) && i1 < i2
    requires FirstSeenOrder(RegisterAll(map[], ks[..|ks| - 1]), ks[..|ks| - 1])
    requires Dense(RegisterAll(map[], ks[..|ks| - 1]))
    requires RegisterAll(map[], ks[..|ks| - 1]).Keys == Sighted(ks[..|ks| - 1])
    ensures k1 in RegisterAll(map[], ks) && k2 in RegisterAll(map[], ks)
    ensures RegisterAll(map[], ks)[k1].id < RegisterAll(map[], ks)[k2].id
  {
    var n := |ks| - 1;
    var pre := ks[..n];
    var m := RegisterAll(map[], pre);
    var r := Register(m, ks[n].0, ks[n].1);
    assert RegisterAll(map[], ks) == r;
    assert FirstAt(pre, k1, i1);
    FirstAtSighted(pre, k1, i1);
    assert r[k1] == m[k1];
    if i2 < n {
      assert FirstAt(pre, k2, i2);
      FirstAtSighted(pre, k2, i2);
      assert r[k2] == m[k2];
      assert m[k1].id < m[k2].id;
    } else {
      FirstAtLastIsNew(ks, k2);
      assert r[k2].id == |m| + 1;
      assert m[k1].id <= |m|;
    }
  }

  // One episode's sightings, with the edges they record.

  /** The edges from episode `id` to the stored ids of the keys sighted in `ks`. */
  function RowEdges<K, P>(m: Registry<K, P>, id: int, ks: seq<(K, P)>): set<(int, nat)> {
    set j | 0 <= j < |ks| && ks[j].0 in m :: (id, m[ks[j].0].id)
  }

  /**
   * The inner loops of the transform: each sighting of episode `id` is registered and the
   * pair (episode id, stored id) added to the edge set.
   */
  function Link<K, P>(m: Registry<K, P>, edges: set<(int, nat)>, id: int, ks: seq<(K, P)>): (Registry<K, P>, set<(int, nat)>)
    decreases |ks|
  {
    if ks == [] then (m, edges)
    else
      var (m1, edges1) := Link(m, edges, id, ks[..|ks| - 1]);
      var (k, p) := ks[|ks| - 1];
      var m2 := Register(m1, k, p);
      (m2, edges1 + {(id, m2[k].id)})
  }

  /** Registering stores every key sighted, besides the keys already stored. */
  lemma {:induction false} RegisterAllKeys<K, P>(m: Registry<K, P>, ks: seq<(K, P)>)
    ensures RegisterAll(m, ks).Keys == m.Keys + Sighted(ks)
    decreases |ks|
  {
    if ks != [] {
      var pre := ks[..|ks| - 1];
      RegisterAllKeys(m, pre);
      SightedSnoc(ks);
      var m1 := RegisterAll(m, pre);
      var k := ks[|ks| - 1].0;
      assert RegisterAll(m, ks).Keys == m1.Keys + {k};
    }
  }

  /** One more sighting: the inner loop's body. */
  lemma LinkSnoc<K, P>(m: Registry<K, P>, edges: set<(int, nat)>, id: int, ks: seq<(K, P)>, k: K, p: P)
    ensures Link(m, edges, id, ks + [(k, p)]) ==
      var (m1, edges1) := Link(m, edges, id, ks);
      (Register(m1, k, p), edges1 + {(id, Register(m1, k, p)[k].id)})
  {
    assert (ks + [(k, p)])[..|ks|] == ks;
  }

  /** The inner loop after `j + 1` sightings is one step after `j` of them. */
  lemma LinkPrefix<K, P>(m: Registry<K, P>, edges: set<(int, nat)>, id: int, ks: seq<(K, P)>, j: nat)
    requires j < |ks|
    ensures Link(m, edges, id, ks[..j + 1]) ==
      var (m1, edges1) := Link(m, edges, id, ks[..j]);
      (Register(m1, ks[j].0, ks[j].1), edges1 + {(id, Register(m1, ks[j].0, ks[j].1)[ks[j].0].id)})
  {
    assert ks[..j + 1][..j] == ks[..j];
  }

  /** Registering never drops or changes a stored entry. */
  lemma {:induction false} RegisterAllKeeps<K, P>(m: Registry<K, P>, ks: seq<(K, P)>)
    ensures forall k :: k in m ==> k in RegisterAll(m, ks) && RegisterAll(m, ks)[k] == m[k]
    decreases |ks|
  {
    if ks != [] {
      RegisterAllKeeps(m, ks[..|ks| - 1]);
    }
  }

  /** Registering never drops or changes a stored entry, and stores every key sighted. */
  lemma RegisterAllGrows<K, P>(m: Registry<K, P>, ks: seq<(K, P)>)
    ensures RegisterAll(m, ks).Keys == m.Keys + Sighted(ks)
    ensures forall k :: k in m ==> RegisterAll(m, ks)[k] == m[k]
  {
    RegisterAllKeys(m, ks);
    RegisterAllKeeps(m, ks);
  }

  /** The edges of a run of sightings depend only on the stored ids of its keys. */
  lemma RowEdgesStable<K, P>(m: Registry<K, P>, m': Registry<K, P>, id: int, ks: seq<(K, P)>)
    requires forall j :: 0 <= j < |ks| ==> ks[j].0 in m && ks[j].0 in m' && m'[ks[j].0].id == m[ks[j].0].id
    ensures RowEdges(m, id, ks) == RowEdges(m', id, ks)
  {
    forall e | e in RowEdges(m, id, ks) ensures e in RowEdges(m', id, ks) {
      var j :| 0 <= j < |ks| && ks[j].0 in m && e == (id, m[ks[j].0].id);
      assert e == (id, m'[ks[j].0].id);
    }
    forall e | e in RowEdges(m', id, ks) ensures e in RowEdges(m, id, ks) {
      var j :| 0 <= j < |ks| && ks[j].0 in m' && e == (id, m'[ks[j].0].id);
      assert e == (id, m[ks[j].0].id);
    }
  }

  /** One more sighting adds one edge. */
  lemma RowEdgesSnoc<K, P>(m: Registry<K, P>, id: int, ks: seq<(K, P)>)
    requires ks != [] && ks[|ks| - 1].0 in m
    ensures RowEdges(m, id, ks) == RowEdges(m, id, ks[..|ks| - 1]) + {(id, m[ks[|ks| - 1].0].id)}
  {
    var pre := ks[..|ks| - 1];
    forall e | e in RowEdges(m, id, pre) ensures e in RowEdges(m, id, ks) {
      var j :| 0 <= j < |pre| && pre[j].0 in m && e == (id, m[pre[j].0].id);
      assert ks[j] == pre[j];
    }
    assert (id, m[ks[|ks| - 1].0].id) in RowEdges(m, id, ks);
  }

  /**
   * The inner loop over one episode's sightings leaves the dictionary as `RegisterAll` does,
   * and adds exactly one edge per sighting: the episode and the key's stored id.
   */
  lemma {:induction false} LinkRegistersAll<K, P>(m: Registry<K, P>, edges: set<(int, nat)>, id: int, ks: seq<(K, P)>)
    ensures Link(m, edges, id, ks).0 == RegisterAll(m, ks)
    ensures Link(m, edges, id, ks).1 == edges + RowEdges(RegisterAll(m, ks), id, ks)
    decreases |ks|
  {
    if ks != [] {
      var pre := ks[..|ks| - 1];
      LinkRegistersAll(m, edges, id, pre);
      var m1 := RegisterAll(m, pre);
      var m2 := RegisterAll(m, ks);
      RegisterAllGrows(m, pre);
      RegisterAllGrows(m1, [ks[|ks| - 1]]);
      assert m2 == RegisterAll(m1, [ks[|ks| - 1]]);
      forall j | 0 <= j < |pre| ensures pre[j].0 in m1 && pre[j].0 in m2 && m2[pre[j].0].id == m1[pre[j].0].id {
        assert pre[j].0 in Sighted(pre);
      }
      RowEdgesStable(m1, m2, id, pre);
      assert ks[|ks| - 1].0 in Sighted([ks[|ks| - 1]]);
      RowEdgesSnoc(m2, id, ks);
    }
  }

  // The whole run: one batch of sightings per emitted episode.

  /** The sightings of every batch, in order. */
  function Flatten<K, P>(bs: seq<(int, seq<(K, P)>)>): seq<(K, P)>
    decreases |bs|
  {
    if bs == [] then [] else Flatten(bs[..|bs| - 1]) + bs[|bs| - 1].1
  }

  /** The edges every batch records against the final dictionary `m`. */
  function BatchEdges<K, P>(m: Registry<K, P>, bs: seq<(int, seq<(K, P)>)>): set<(int, nat)>
    decreases |bs|
  {
    if bs == [] then {} else BatchEdges(m, bs[..|bs| - 1]) + RowEdges(m, bs[|bs| - 1].0, bs[|bs| - 1].1)
  }

  /** The inner loop run for each batch in turn, threading the dictionary and the edge set. */
  function LinkAll<K, P>(m: Registry<K, P>, edges: set<(int, nat)>, bs: seq<(int, seq<(K, P)>)>): (Registry<K, P>, set<(int, nat)>)
    decreases |bs|
  {
    if bs == [] then (m, edges)
    else
      var (m1, edges1) := LinkAll(m, edges, bs[..|bs| - 1]);
      Link(m1, edges1, bs[|bs| - 1].0, bs[|bs| - 1].1)
  }

  /** One more batch: the inner loop run once more. */
  lemma LinkAllSnoc<K, P>(m: Registry<K, P>, edges: set<(int, nat)>, bs: seq<(int, seq<(K, P)>)>, b: (int, seq<(K, P)>))
    ensures LinkAll(m, edges, bs + [b]) == Link(LinkAll(m, edges, bs).0, LinkAll(m, edges, bs).1, b.0, b.1)
  {
    assert (bs + [b])[..|bs|] == bs;
  }

  lemma SightedAppend<K, P>(a: seq<(K, P)>, b: seq<(K, P)>)
    ensures Sighted(a + b) == Sighted(a) + Sighted(b)
  {
    forall k | k in Sighted(a + b) ensures k in Sighted(a) + Sighted(b) {
      var i :| 0 <= i < |a + b| && (a + b)[i].0 == k;
      if i >= |a| {
        assert b[i - |a|].0 == k;
      }
    }
    forall k | k in Sighted(a) ensures k in Sighted(a + b) {
      var i :| 0 <= i < |a| && a[i].0 == k;
      assert (a + b)[i].0 == k;
    }
    forall k | k in Sighted(b) ensures k in Sighted(a + b) {
      var i :| 0 <= i < |b| && b[i].0 == k;
      assert (a + b)[|a| + i].0 == k;
    }
  }

  /** Every key any batch sights is sighted by the flattened run. */
  lemma {:induction false} FlattenSighted<K, P>(bs: seq<(int, seq<(K, P)>)>)
    ensures forall b, j :: 0 <= b < |bs| && 0 <= j < |bs[b].1| ==> bs[b].1[j].0 in Sighted(Flatten(bs))
    decreases |bs|
  {
    if bs != [] {
      var pre := bs[..|bs| - 1];
      var ks := bs[|bs| - 1].1;
      FlattenSighted(pre);
      SightedAppend(Flatten(pre), ks);
      forall b, j | 0 <= b < |bs| && 0 <= j < |bs[b].1| ensures bs[b].1[j].0 in Sighted(Flatten(bs)) {
        if b < |pre| {
          assert bs[b] == pre[b];
        } else {
          assert ks[j].0 in Sighted(ks);
        }
      }
    }
  }

  /** The edges of a run depend only on the stored ids of the keys it sights. */
  lemma {:induction false} BatchEdgesStable<K, P>(m: Registry<K, P>, m': Registry<K, P>, bs: seq<(int, seq<(K, P)>)>)
    requires forall k :: k in Sighted(Flatten(bs)) ==> k in m && k in m' && m'[k].id == m[k].id
    ensures BatchEdges(m, bs) == BatchEdges(m', bs)
    decreases |bs|
  {
    if bs != [] {
      var pre := bs[..|bs| - 1];
      var ks := bs[|bs| - 1].1;
      SightedAppend(Flatten(pre), ks);
      BatchEdgesStable(m, m', pre);
      forall j | 0 <= j < |ks| ensures ks[j].0 in m && ks[j].0 in m' && m'[ks[j].0].id == m[ks[j].0].id {
        assert ks[j].0 in Sighted(ks);
      }
      RowEdgesStable(m, m', bs[|bs| - 1].0, ks);
    }
  }

  /**
   * Running the inner loop batch after batch leaves the dictionary as registering all the
   * sightings at once does, and the edge set holds exactly every batch's edges against
   * that final dictionary.
   */
  lemma {:induction false} LinkAllRegistersAll<K, P>(m: Registry<K, P>, edges: set<(int, nat)>, bs: seq<(int, seq<(K, P)>)>)
    ensures LinkAll(m, edges, bs).0 == RegisterAll(m, Flatten(bs))
    ensures LinkAll(m, edges, bs).1 == edges + BatchEdges(RegisterAll(m, Flatten(bs)), bs)
    decreases |bs|
  {
    if bs != [] {
      var pre := bs[..|bs| - 1];
      var (id, ks) := bs[|bs| - 1];
      LinkAllRegistersAll(m, edges, pre);
      var m1 := RegisterAll(m, Flatten(pre));
      LinkRegistersAll(m1, LinkAll(m, edges, pre).1, id, ks);
      RegisterAllAppend(m, Flatten(pre), ks);
      var m2 := RegisterAll(m, Flatten(bs));
      assert m2 == RegisterAll(m1, ks);
      RegisterAllGrows(m, Flatten(pre));
      RegisterAllGrows(m1, ks);
      BatchEdgesStable(m1, m2, pre);
    }
  }

  /**
   * Referential integrity of the edges: each edge starts at the id of some batch and ends at
   * an id stored in `m`; and each sighting of a stored key yields its edge.
   */
  lemma {:induction false} BatchEdgesExactly<K, P>(m: Registry<K, P>, bs: seq<(int, seq<(K, P)>)>)
    ensures forall e :: e in BatchEdges(m, bs) ==> HasId(m, e.1) && exists b :: 0 <= b < |bs| && bs[b].0 == e.0
    ensures forall b, j :: 0 <= b < |bs| && 0 <= j < |bs[b].1| && bs[b].1[j].0 in m ==>
      (bs[b].0, m[bs[b].1[j].0].id) in BatchEdges(m, bs)
    decreases |bs|
  {
    if bs != [] {
      var pre := bs[..|bs| - 1];
      var (id, ks) := bs[|bs| - 1];
      BatchEdgesExactly(m, pre);
      forall e | e in BatchEdges(m, bs) ensures HasId(m, e.1) && exists b :: 0 <= b < |bs| && bs[b].0 == e.0 {
        if e in BatchEdges(m, pre) {
          var b :| 0 <= b < |pre| && pre[b].0 == e.0;
          assert bs[b] == pre[b];
        } else {
          var j :| 0 <= j < |ks| && ks[j].0 in m && e == (id, m[ks[j].0].id);
          assert HasId(m, m[ks[j].0].id);
        }
      }
      forall b, j | 0 <= b < |bs| && 0 <= j < |bs[b].1| && bs[b].1[j].0 in m
        ensures (bs[b].0, m[bs[b].1[j].0].id) in BatchEdges(m, bs)
      {
        if b < |pre| {
          assert bs[b] == pre[b];
        }
      }
    }
  }

  /**
   * For the dictionary a whole run builds: every edge starts at a batch's id and ends at a
   * stored id, and every sighting is stored and yields its edge.
   */
  lemma RunEdges<K, P>(bs: seq<(int, seq<(K, P)>)>)
    ensures var m := RegisterAll(map[], Flatten(bs));
      forall e :: e in BatchEdges(m, bs) ==> HasId(m, e.1) && exists b :: 0 <= b < |bs| && bs[b].0 == e.0
    ensures var m := RegisterAll(map[], Flatten(bs));
      forall b, j :: 0 <= b < |bs| && 0 <= j < |bs[b].1| ==> bs[b].1[j].0 in m && (bs[b].0, m[bs[b].1[j].0].id) in BatchEdges(m, bs)
  {
    var m := RegisterAll(map[], Flatten(bs));
    BatchEdgesExactly(m, bs);
    RegisterAllKeys(map[], Flatten(bs));
    FlattenSighted(bs);
  }
}
