/** DBSCAN over a distance matrix: what its labels mean. */
module Dbscan {
  import opened Distances

  const NOISE := -1

  /** The parameters of one clustering. */
  datatype Config = Config(dist: Matrix, eps: real, minPts: int) {
    ghost predicate Valid() {
      Square(dist) && Symmetric(dist)
    }

    ghost function Size(): nat { |dist| }

    /** `minPts` counts the point itself. */
    ghost predicate Core(i: nat)
      requires Valid() && i < Size()
    {
      |Neighborhood(dist, eps, i)| + 1 >= minPts
    }

    ghost predicate Touch(i: nat, j: nat)
      requires Valid() && i < Size() && j < Size()
    {
      Near(dist, eps, i, j)
    }

    /** A chain of core points, each within `eps` of the next. */
    ghost predicate Chain(p: seq<nat>)
      requires Valid()
    {
      && |p| > 0 && (forall a :: 0 <= a < |p| ==> p[a] < Size() && Core(p[a]))
      && forall a :: 0 <= a < |p| - 1 ==> Touch(p[a], p[a + 1])
    }

    ghost predicate Linked(i: nat, j: nat)
      requires Valid()
    {
      exists p :: Chain(p) && p[0] == i && p[|p| - 1] == j
    }
  }

  /** A core point has at least `minPts` points within `eps`, itself included. */
  lemma CoreCounts(c: Config, i: nat)
    requires c.Valid() && i < c.Size()
    ensures c.Core(i) <==> |(set j: nat | j < c.Size() && (j == i || c.dist[i][j] <= c.eps))| >= c.minPts
  {
    var near := set j: nat | j < c.Size() && (j == i || c.dist[i][j] <= c.eps);
    assert near == Neighborhood(c.dist, c.eps, i) + {i};
    assert i !in Neighborhood(c.dist, c.eps, i);
  }

  lemma TouchSymmetric(c: Config, i: nat, j: nat)
    requires c.Valid() && i < c.Size() && j < c.Size() && c.Touch(i, j)
    ensures c.Touch(j, i)
  {
  }

  lemma LinkedSelf(c: Config, i: nat)
    requires c.Valid() && i < c.Size() && c.Core(i)
    ensures c.Linked(i, i)
  {
    assert c.Chain([i]);
  }

  lemma LinkedStep(c: Config, i: nat, j: nat, k: nat)
    requires c.Valid() && c.Linked(i, j) && j < c.Size() && k < c.Size() && c.Core(k) && c.Touch(j, k)
    ensures c.Linked(i, k)
  {
    var p :| c.Chain(p) && p[0] == i && p[|p| - 1] == j;
    var q := p + [k];
    assert c.Chain(q) && q[0] == i && q[|q| - 1] == k;
  }

  lemma LinkedSymmetric(c: Config, i: nat, j: nat)
    requires c.Valid() && c.Linked(i, j)
    ensures c.Linked(j, i)
  {
    var p :| c.Chain(p) && p[0] == i && p[|p| - 1] == j;
    var n := |p|;
    var q := seq(n, a requires 0 <= a < n => p[n - 1 - a]);
    forall a | 0 <= a < n - 1 ensures c.Touch(q[a], q[a + 1]) {
      assert c.Touch(p[n - 2 - a], p[n - 2 - a + 1]);
      TouchSymmetric(c, p[n - 2 - a], p[n - 1 - a]);
    }
    assert c.Chain(q) && q[0] == j && q[n - 1] == i;
  }

  lemma LinkedTransitive(c: Config, i: nat, j: nat, k: nat)
    requires c.Valid() && c.Linked(i, j) && c.Linked(j, k)
    ensures c.Linked(i, k)
  {
    var p :| c.Chain(p) && p[0] == i && p[|p| - 1] == j;
    var q :| c.Chain(q) && q[0] == j && q[|q| - 1] == k;
    var r := p + q[1..];
    forall a | 0 <= a < |r| - 1 ensures c.Touch(r[a], r[a + 1]) {
      if a < |p| - 1 {
        assert c.Touch(p[a], p[a + 1]);
      } else {
        assert c.Touch(q[a - |p| + 1], q[a - |p| + 2]);
      }
    }
    assert c.Chain(r) && r[0] == i && r[|r| - 1] == k;
  }

  // --- What holds while clusters are expanded -------------------------------------------

  datatype State = State(labels: seq<int>, visited: seq<bool>, seeds: seq<nat>) {
    ghost predicate Shaped(c: Config) {
      && c.Valid() && |labels| == |visited| == c.Size()
      && (forall j :: 0 <= j < |labels| ==> NOISE <= labels[j] < |seeds|)
      && (forall l :: 0 <= l < |seeds| ==> seeds[l] < c.Size())
    }
  }

  /** Some core point of the cluster of `j` is within `eps` of it. */
  ghost predicate Claimed(c: Config, s: State, j: nat)
    requires s.Shaped(c) && j < c.Size()
  {
    exists k :: 0 <= k < c.Size() && c.Core(k) && c.Touch(j, k) && s.labels[k] == s.labels[j]
  }

  /** A labelled core point is visited and linked to the seed of its cluster; a
      labelled border point touches a core point of its cluster. */
  ghost predicate Sound(c: Config, s: State, j: nat)
    requires s.Shaped(c) && j < c.Size()
  {
    && (c.Core(j) ==> (s.visited[j] <==> s.labels[j] != NOISE))
    && (c.Core(j) && s.labels[j] != NOISE ==> c.Linked(s.seeds[s.labels[j]], j))
    && (!c.Core(j) && s.labels[j] != NOISE ==> Claimed(c, s, j))
  }

  /** `k` has been dealt with for the sake of a core point labelled `l`. */
  ghost predicate Reached(c: Config, s: State, l: int, k: nat)
    requires s.Shaped(c) && k < c.Size()
  {
    if c.Core(k) then s.labels[k] == l else NOISE < s.labels[k] <= l
  }

  ghost predicate Settled(c: Config, s: State, j: nat, k: nat, open: int, queue: seq<nat>)
    requires s.Shaped(c) && j < c.Size() && k < c.Size()
  {
    Reached(c, s, s.labels[j], k) || (s.labels[j] == open && k in queue)
  }

  /** Every neighbour of a labelled core point is reached, or still in the queue of
      the cluster being expanded (`open`). */
  ghost predicate Closed(c: Config, s: State, j: nat, open: int, queue: seq<nat>)
    requires s.Shaped(c) && j < c.Size()
  {
    c.Core(j) && s.labels[j] != NOISE ==>
      forall k :: 0 <= k < c.Size() && c.Touch(j, k) ==> Settled(c, s, j, k, open, queue)
  }

  ghost predicate Ok(c: Config, s: State, open: int, queue: seq<nat>) {
    && s.Shaped(c)
    && (forall l :: 0 <= l < |s.seeds| ==> c.Core(s.seeds[l]) && s.labels[s.seeds[l]] == l)
    && (forall j :: 0 <= j < c.Size() ==> Sound(c, s, j) && Closed(c, s, j, open, queue))
  }

  /** A core point of the open cluster is within `eps` of `k`. */
  ghost predicate Offered(c: Config, s: State, open: int, k: nat)
    requires s.Shaped(c)
  {
    k < c.Size() && exists p :: 0 <= p < c.Size() && c.Core(p) && c.Touch(p, k) && s.labels[p] == open
  }

  ghost predicate QueueOk(c: Config, s: State, open: int, queue: seq<nat>) {
    s.Shaped(c) && forall a :: 0 <= a < |queue| ==> Offered(c, s, open, queue[a])
  }

  ghost function Seeded(s: State, i: nat): State
    requires i < |s.labels| == |s.visited|
  {
    State(s.labels[i := |s.seeds|], s.visited[i := true], s.seeds + [i])
  }

  /** A core point nobody has reached starts a new cluster. */
  lemma SeedOk(c: Config, s: State, i: nat, near: seq<nat>)
    requires Ok(c, s, NOISE, []) && i < c.Size() && c.Core(i) && !s.visited[i]
    requires forall k: nat :: k in near <==> k < c.Size() && c.Touch(i, k)
    ensures Ok(c, Seeded(s, i), |s.seeds|, near) && QueueOk(c, Seeded(s, i), |s.seeds|, near)
  {
    var s' := Seeded(s, i);
    hide Config.Core, Config.Touch, Config.Linked, Config.Valid;
    assert Sound(c, s, i);
    forall j | 0 <= j < c.Size() ensures Sound(c, s', j) {
      assert Sound(c, s, j);
      if j == i {
        LinkedSelf(c, i);
      } else if !c.Core(j) && s.labels[j] != NOISE {
        var k :| 0 <= k < c.Size() && c.Core(k) && c.Touch(j, k) && s.labels[k] == s.labels[j];
        assert s'.labels[k] == s'.labels[j];
      }
    }
    forall j | 0 <= j < c.Size() ensures Closed(c, s', j, |s.seeds|, near) {
      assert Closed(c, s, j, NOISE, []);
    }
    forall a | 0 <= a < |near| ensures Offered(c, s', |s.seeds|, near[a]) {
      var k := near[a];
      assert k in near;
      assert s'.labels[i] == |s.seeds|;
    }
  }

  ghost function Relabelled(s: State, j: nat, open: int): State
    requires j < |s.labels| == |s.visited|
  {
    State(if s.labels[j] == NOISE then s.labels[j := open] else s.labels, s.visited[j := true], s.seeds)
  }

  /** The head of the queue is a core point not met before: it joins the cluster and
      its neighbours are queued. */
  lemma JoinCore(c: Config, s: State, open: int, queue: seq<nat>, near: seq<nat>)
    requires queue != [] && Ok(c, s, open, queue) && QueueOk(c, s, open, queue) && 0 <= open < |s.seeds|
    requires Offered(c, s, open, queue[0]) && c.Core(queue[0]) && !s.visited[queue[0]]
    requires forall k: nat :: k in near <==> k < c.Size() && c.Touch(queue[0], k)
    ensures var s', queue' := Relabelled(s, queue[0], open), queue[1..] + near;
      Ok(c, s', open, queue') && QueueOk(c, s', open, queue')
  {
    hide Config.Core, Config.Touch, Config.Linked, Config.Valid;
    var j, s', queue' := queue[0], Relabelled(s, queue[0], open), queue[1..] + near;
    assert Sound(c, s, j);
    var p :| 0 <= p < c.Size() && c.Core(p) && c.Touch(p, j) && s.labels[p] == open;
    assert Sound(c, s, p);
    LinkedStep(c, s.seeds[open], p, j);
    forall i | 0 <= i < c.Size() ensures Sound(c, s', i) {
      assert Sound(c, s, i);
      if !c.Core(i) && s.labels[i] != NOISE {
        var k :| 0 <= k < c.Size() && c.Core(k) && c.Touch(i, k) && s.labels[k] == s.labels[i];
        assert s'.labels[k] == s'.labels[i];
      }
    }
    assert queue == [queue[0]] + queue[1..];
    forall i | 0 <= i < c.Size() ensures Closed(c, s', i, open, queue') {
      assert Closed(c, s, i, open, queue);
    }
    forall a | 0 <= a < |queue'| ensures Offered(c, s', open, queue'[a]) {
      if a < |queue| - 1 {
        assert Offered(c, s, open, queue[a + 1]);
        var q :| 0 <= q < c.Size() && c.Core(q) && c.Touch(q, queue[a + 1]) && s.labels[q] == open;
        assert s'.labels[q] == open;
      } else {
        var k := near[a - (|queue| - 1)];
        assert k in near;
        assert s'.labels[j] == open;
      }
    }
  }

  lemma QueueShrinks(c: Config, s: State, s': State, open: int, queue: seq<nat>)
    requires queue != [] && s.Shaped(c) && s'.Shaped(c) && QueueOk(c, s, open, queue)
    requires forall p :: 0 <= p < c.Size() && c.Core(p) ==> s'.labels[p] == s.labels[p]
    ensures QueueOk(c, s', open, queue[1..])
  {
    hide Config.Core, Config.Touch, Config.Valid;
    forall a | 0 <= a < |queue| - 1 ensures Offered(c, s', open, queue[1..][a]) {
      assert Offered(c, s, open, queue[a + 1]);
      var q :| 0 <= q < c.Size() && c.Core(q) && c.Touch(q, queue[a + 1]) && s.labels[q] == open;
      assert s'.labels[q] == open;
    }
  }

  /** A core point met again already belongs to the open cluster. */
  lemma MetAgain(c: Config, s: State, open: int, queue: seq<nat>)
    requires queue != [] && Ok(c, s, open, queue) && QueueOk(c, s, open, queue) && 0 <= open < |s.seeds|
    requires Offered(c, s, open, queue[0]) && c.Core(queue[0]) && s.visited[queue[0]]
    ensures s.labels[queue[0]] == open && Relabelled(s, queue[0], open) == s
    ensures Ok(c, s, open, queue[1..]) && QueueOk(c, s, open, queue[1..])
  {
    hide Config.Core, Config.Touch, Config.Linked, Config.Valid;
    var j := queue[0];
    assert Sound(c, s, j) && Closed(c, s, j, open, queue);
    var p :| 0 <= p < c.Size() && c.Core(p) && c.Touch(p, j) && s.labels[p] == open;
    TouchSymmetric(c, p, j);
    assert Settled(c, s, j, p, open, queue);
    assert queue == [j] + queue[1..];
    forall i | 0 <= i < c.Size() ensures Sound(c, s, i) && Closed(c, s, i, open, queue[1..]) {
      assert Sound(c, s, i) && Closed(c, s, i, open, queue);
    }
    QueueShrinks(c, s, s, open, queue);
  }

  /** A border point is claimed by the open cluster unless an earlier one has it. */
  lemma JoinBorder(c: Config, s: State, open: int, queue: seq<nat>)
    requires queue != [] && Ok(c, s, open, queue) && QueueOk(c, s, open, queue) && |s.seeds| == open + 1
    requires Offered(c, s, open, queue[0]) && !c.Core(queue[0])
    ensures var s' := Relabelled(s, queue[0], open);
      Ok(c, s', open, queue[1..]) && QueueOk(c, s', open, queue[1..])
  {
    hide Config.Core, Config.Touch, Config.Linked, Config.Valid;
    var j, s' := queue[0], Relabelled(s, queue[0], open);
    var p :| 0 <= p < c.Size() && c.Core(p) && c.Touch(p, j) && s.labels[p] == open;
    TouchSymmetric(c, p, j);
    assert queue == [j] + queue[1..];
    forall i | 0 <= i < c.Size() ensures Sound(c, s', i) {
      assert Sound(c, s, i);
      if i == j && s.labels[j] == NOISE {
        assert s'.labels[p] == s'.labels[j];
      } else if !c.Core(i) && s.labels[i] != NOISE {
        var k :| 0 <= k < c.Size() && c.Core(k) && c.Touch(i, k) && s.labels[k] == s.labels[i];
        assert s'.labels[k] == s'.labels[i];
      }
    }
    forall i | 0 <= i < c.Size() ensures Closed(c, s', i, open, queue[1..]) {
      assert Closed(c, s, i, open, queue);
    }
    QueueShrinks(c, s, s', open, queue);
  }

  /** A point that is not core is left for a later expansion to claim. */
  lemma LeaveBorder(c: Config, s: State, i: nat)
    requires Ok(c, s, NOISE, []) && i < c.Size() && !c.Core(i)
    ensures Ok(c, s.(visited := s.visited[i := true]), NOISE, [])
  {
    hide Config.Core, Config.Touch, Config.Linked, Config.Valid;
    var s' := s.(visited := s.visited[i := true]);
    forall j | 0 <= j < c.Size() ensures Sound(c, s', j) && Closed(c, s', j, NOISE, []) {
      assert Sound(c, s, j) && Closed(c, s, j, NOISE, []);
      if !c.Core(j) && s.labels[j] != NOISE {
        var k :| 0 <= k < c.Size() && c.Core(k) && c.Touch(j, k) && s.labels[k] == s.labels[j];
        assert s'.labels[k] == s'.labels[j];
      }
    }
  }

  lemma Exhausted(c: Config, s: State, open: int)
    requires Ok(c, s, open, [])
    ensures Ok(c, s, NOISE, [])
  {
    hide Config.Core, Config.Touch, Config.Linked, Config.Valid;
    forall j | 0 <= j < c.Size() ensures Closed(c, s, j, NOISE, []) {
      assert Closed(c, s, j, open, []);
      forall k | 0 <= k < c.Size() && c.Touch(j, k) && c.Core(j) && s.labels[j] != NOISE
        ensures Settled(c, s, j, k, NOISE, [])
      {
        assert Settled(c, s, j, k, open, []);
      }
    }
  }

  // --- What the labels mean -----------------------------------------------------------

  /** Clusters are the classes of core points linked by chains; a point that is not
      core is noise unless a core point is within `eps`, and then it carries the
      smallest label among those. */
  ghost predicate LabelsMean(c: Config, labels: seq<int>)
    requires c.Valid()
  {
    && |labels| == c.Size()
    && (forall i :: 0 <= i < |labels| && c.Core(i) ==> labels[i] != NOISE)
    && (forall i, j :: 0 <= i < |labels| && 0 <= j < |labels| && c.Core(i) && c.Core(j) ==>
          (labels[i] == labels[j] <==> c.Linked(i, j)))
    && (forall i :: 0 <= i < |labels| && !c.Core(i) ==> BorderMeans(c, labels, i))
  }

  ghost predicate BorderMeans(c: Config, labels: seq<int>, i: nat)
    requires c.Valid() && |labels| == c.Size() && i < c.Size()
  {
    && (labels[i] == NOISE <==> forall k :: 0 <= k < c.Size() && c.Core(k) ==> !c.Touch(i, k))
    && (labels[i] != NOISE ==>
          && (exists k :: 0 <= k < c.Size() && c.Core(k) && c.Touch(i, k) && labels[k] == labels[i])
          && (forall k :: 0 <= k < c.Size() && c.Core(k) && c.Touch(i, k) ==> labels[i] <= labels[k]))
  }

  /** Clusters are numbered from 0 on, in the order of their smallest core points (`seeds`). */
  ghost predicate NumberedBy(c: Config, labels: seq<int>, seeds: seq<nat>)
    requires c.Valid() && |labels| == c.Size()
  {
    && (forall g, h :: 0 <= g < h < |seeds| ==> seeds[g] < seeds[h])
    && (forall g :: 0 <= g < |seeds| ==> seeds[g] < c.Size() && c.Core(seeds[g]) && labels[seeds[g]] == g)
    && (forall i :: 0 <= i < |labels| ==> NOISE <= labels[i] < |seeds|)
    && (forall i :: 0 <= i < |labels| && c.Core(i) && labels[i] != NOISE ==> seeds[labels[i]] <= i)
  }

  /** Labels that are given stay, and only the open cluster gives new ones. */
  ghost predicate Extends(labels0: seq<int>, labels: seq<int>, open: int) {
    && |labels| == |labels0|
    && forall j :: 0 <= j < |labels0| ==> labels[j] == labels0[j] || (labels0[j] == NOISE && labels[j] == open)
  }

  ghost predicate SeedsBelow(seeds: seq<nat>, n: nat) {
    forall g :: 0 <= g < |seeds| ==> seeds[g] < n
  }

  /** A cluster opened at `i`, when everything below `i` has been visited, has `i` as its
      smallest core point. */
  lemma NumberNext(c: Config, s: State, s': State, i: nat)
    requires Ok(c, s, NOISE, []) && NumberedBy(c, s.labels, s.seeds)
    requires i < c.Size() && c.Core(i) && !s.visited[i] && forall j :: 0 <= j < i ==> s.visited[j]
    requires SeedsBelow(s.seeds, i) && s'.seeds == s.seeds + [i]
    requires Extends(s.labels[i := |s.seeds|], s'.labels, |s.seeds|)
    ensures NumberedBy(c, s'.labels, s'.seeds) && SeedsBelow(s'.seeds, i + 1)
  {
    hide Config.Core, Config.Touch, Config.Linked, Config.Valid;
    assert Sound(c, s, i);
    forall g | 0 <= g < |s.seeds| ensures s'.labels[s.seeds[g]] == g {
      assert s.labels[s.seeds[g]] == g;
    }
    forall j | 0 <= j < c.Size() && c.Core(j) && s'.labels[j] != NOISE ensures s'.seeds[s'.labels[j]] <= j {
      assert Sound(c, s, j);
    }
  }

  ghost predicate AllVisited(s: State) {
    forall j :: 0 <= j < |s.visited| ==> s.visited[j]
  }

  lemma {:induction false} ChainSharesLabel(c: Config, s: State, p: seq<nat>, n: nat)
    requires Ok(c, s, NOISE, []) && AllVisited(s) && c.Chain(p) && n < |p|
    ensures s.labels[p[n]] == s.labels[p[0]]
  {
    hide Config.Core, Config.Touch, Config.Linked, Config.Valid;
    if n > 0 {
      ChainSharesLabel(c, s, p, n - 1);
      var a, b := p[n - 1], p[n];
      assert Sound(c, s, a) && Closed(c, s, a, NOISE, []);
      assert c.Touch(p[n - 1], p[n - 1 + 1]);
      assert Settled(c, s, a, b, NOISE, []);
    }
  }

  lemma SameLabelIsLinked(c: Config, s: State, i: nat, j: nat)
    requires Ok(c, s, NOISE, []) && AllVisited(s) && i < c.Size() && j < c.Size() && c.Core(i) && c.Core(j)
    ensures s.labels[i] == s.labels[j] <==> c.Linked(i, j)
  {
    hide Config.Core, Config.Touch, Config.Valid;
    assert Sound(c, s, i) && Sound(c, s, j);
    if s.labels[i] == s.labels[j] {
      hide Config.Linked;
      var seed := s.seeds[s.labels[i]];
      LinkedSymmetric(c, seed, i);
      LinkedTransitive(c, i, seed, j);
    }
    if c.Linked(i, j) {
      var p :| c.Chain(p) && p[0] == i && p[|p| - 1] == j;
      ChainSharesLabel(c, s, p, |p| - 1);
    }
  }

  lemma BorderLabel(c: Config, s: State, i: nat)
    requires Ok(c, s, NOISE, []) && AllVisited(s) && i < c.Size() && !c.Core(i)
    ensures BorderMeans(c, s.labels, i)
  {
    hide Config.Core, Config.Touch, Config.Linked, Config.Valid;
    assert Sound(c, s, i);
    forall k | 0 <= k < c.Size() && c.Core(k) && c.Touch(i, k) ensures NOISE < s.labels[i] <= s.labels[k] {
      TouchSymmetric(c, i, k);
      assert Sound(c, s, k) && Closed(c, s, k, NOISE, []);
      assert Settled(c, s, k, i, NOISE, []);
    }
  }

  lemma LabelsAreRight(c: Config, s: State)
    requires Ok(c, s, NOISE, []) && AllVisited(s)
    ensures LabelsMean(c, s.labels)
  {
    hide Config.Core, Config.Touch, Config.Linked, Config.Valid, BorderMeans;
    forall i, j | 0 <= i < c.Size() && 0 <= j < c.Size() && c.Core(i) && c.Core(j)
      ensures s.labels[i] == s.labels[j] <==> c.Linked(i, j)
    {
      SameLabelIsLinked(c, s, i, j);
    }
    forall i | 0 <= i < c.Size() ensures c.Core(i) ==> s.labels[i] != NOISE {
      assert Sound(c, s, i);
    }
    forall i | 0 <= i < c.Size() && !c.Core(i) ensures BorderMeans(c, s.labels, i) {
      BorderLabel(c, s, i);
    }
  }

  // --- The algorithm ----------------------------------------------------------------------

  ghost function Unvisited(visited: seq<bool>): set<nat> {
    set j: nat | j < |visited| && !visited[j]
  }

  /** Expands the cluster `open` until nothing is queued. */
  method Expand(ghost c: Config, neighbors: seq<seq<nat>>, core: seq<bool>, open: int,
                labels0: seq<int>, visited0: seq<bool>, ghost seeds: seq<nat>, queue0: seq<nat>)
    returns (labels: seq<int>, visited: seq<bool>)
    requires |seeds| == open + 1 && 0 <= open && Tables(c, neighbors, core)
    requires Ok(c, State(labels0, visited0, seeds), open, queue0)
    requires QueueOk(c, State(labels0, visited0, seeds), open, queue0)
    ensures Ok(c, State(labels, visited, seeds), NOISE, [])
    ensures forall j :: 0 <= j < |visited0| ==> |visited| == |visited0| && (visited0[j] ==> visited[j])
    ensures Extends(labels0, labels, open)
  {
    hide Ok, QueueOk, Config.Core, Config.Touch, Config.Valid, Sound, Offered;
    labels, visited := labels0, visited0;
    var queue := queue0;
    while |queue| > 0
      invariant Ok(c, State(labels, visited, seeds), open, queue)
      invariant QueueOk(c, State(labels, visited, seeds), open, queue)
      invariant |visited| == |visited0| && forall j :: 0 <= j < |visited0| && visited0[j] ==> visited[j]
      invariant Extends(labels0, labels, open)
      decreases |Unvisited(visited)|, |queue|
    {
      ghost var s := State(labels, visited, seeds);
      var j := queue[0];
      HeadFacts(c, s, open, queue, neighbors, core);
      ghost var waiting := queue;
      queue := queue[1..];
      if !visited[j] {
        FewerUnvisited(visited, j);
        visited := visited[j := true];
        if core[j] {
          JoinCore(c, s, open, waiting, neighbors[j]);
          queue := queue + neighbors[j];
        } else {
          JoinBorder(c, s, open, waiting);
        }
      } else if core[j] {
        MetAgain(c, s, open, waiting);
      } else {
        JoinBorder(c, s, open, waiting);
        assert visited[j := true] == visited;
      }
      if labels[j] == NOISE {
        labels := labels[j := open];
      }
    }
    Exhausted(c, State(labels, visited, seeds), open);
  }

  lemma FewerUnvisited(visited: seq<bool>, j: nat)
    requires j < |visited| && !visited[j]
    ensures |Unvisited(visited[j := true])| < |Unvisited(visited)|
  {
    assert Unvisited(visited[j := true]) == Unvisited(visited) - {j};
  }

  /** The neighbour lists and core flags computed up front. */
  ghost predicate Tables(c: Config, neighbors: seq<seq<nat>>, core: seq<bool>) {
    && c.Valid() && |neighbors| == |core| == c.Size()
    && (forall i :: 0 <= i < c.Size() ==> core[i] == c.Core(i))
    && (forall i :: 0 <= i < c.Size() ==> NeighborsAre(c, i, neighbors[i]))
  }

  ghost predicate NeighborsAre(c: Config, i: nat, near: seq<nat>)
    requires c.Valid() && i < c.Size()
  {
    forall k: nat :: k in near <==> k < c.Size() && c.Touch(i, k)
  }

  lemma HeadFacts(c: Config, s: State, open: int, queue: seq<nat>, neighbors: seq<seq<nat>>, core: seq<bool>)
    requires queue != [] && Ok(c, s, open, queue) && QueueOk(c, s, open, queue) && Tables(c, neighbors, core)
    ensures s.Shaped(c) && queue[0] < c.Size() && Offered(c, s, open, queue[0])
    ensures core[queue[0]] == c.Core(queue[0]) && NeighborsAre(c, queue[0], neighbors[queue[0]])
  {
  }

  /** Neighbour lists and core flags of every point. */
  method Scan(dist: Matrix, eps: real, minPts: int, ghost c: Config)
    returns (neighbors: seq<seq<nat>>, core: seq<bool>)
    requires c == Config(dist, eps, minPts) && c.Valid()
    ensures Tables(c, neighbors, core)
  {
    hide Neighborhood, Near;
    neighbors, core := [], [];
    for i := 0 to |dist|
      invariant |neighbors| == |core| == i
      invariant forall k :: 0 <= k < i ==> core[k] == c.Core(k) && NeighborsAre(c, k, neighbors[k])
    {
      var near := NeighborsWithin(dist, eps, i);
      NearIs(c, i, near);
      neighbors := neighbors + [near];
      core := core + [|near| + 1 >= minPts];
    }
  }

  lemma NearIs(c: Config, i: nat, near: seq<nat>)
    requires c.Valid() && i < c.Size()
    requires forall j: nat :: j in near <==> j in Neighborhood(c.dist, c.eps, i)
    ensures NeighborsAre(c, i, near)
  {
  }

  lemma NothingNumbered(c: Config)
    requires c.Valid()
    ensures NumberedBy(c, seq(c.Size(), _ => NOISE), [])
  {
  }

  lemma StartOk(c: Config)
    requires c.Valid()
    ensures Ok(c, State(seq(c.Size(), _ => NOISE), seq(c.Size(), _ => false), []), NOISE, [])
  {
  }

  /** Clusters the distance matrix; the labels mean what DBSCAN promises. */
  method Cluster(dist: Matrix, eps: real, minPts: int) returns (labels: seq<int>)
    requires Square(dist) && Symmetric(dist)
    ensures LabelsMean(Config(dist, eps, minPts), labels)
    ensures exists seeds :: NumberedBy(Config(dist, eps, minPts), labels, seeds)
  {
    ghost var c := Config(dist, eps, minPts);
    if |dist| == 0 {
      assert NumberedBy(c, [], []);
      return [];
    }
    hide Neighborhood, AllVisited, Tables, Extends, NumberedBy, Ok, QueueOk, Config.Core, Config.Touch, Sound,
         Offered, LabelsMean, Symmetric;
    var neighbors, core := Scan(dist, eps, minPts, c);
    var nextCluster := 0;
    labels := seq(|dist|, _ => NOISE);
    var visited := seq(|dist|, _ => false);
    ghost var seeds: seq<nat> := [];
    StartOk(c);
    NothingNumbered(c);
    for i := 0 to |dist|
      invariant Ok(c, State(labels, visited, seeds), NOISE, []) && |seeds| == nextCluster
      invariant |visited| == |labels| == |dist| && forall j :: 0 <= j < i ==> visited[j]
      invariant NumberedBy(c, labels, seeds) && SeedsBelow(seeds, i)
    {
      ghost var s := State(labels, visited, seeds);
      if visited[i] {
        continue;
      }
      visited := visited[i := true];
      if !core[i] {
        LeaveBorder(c, s, i);
        continue;
      }
      labels := labels[i := nextCluster];
      SeedOk(c, s, i, neighbors[i]);
      seeds := seeds + [i];
      labels, visited := Expand(c, neighbors, core, nextCluster, labels, visited, seeds, neighbors[i]);
      SameSize(c, State(labels, visited, seeds));
      NumberNext(c, s, State(labels, visited, seeds), i);
      nextCluster := nextCluster + 1;
    }
    LabelsAreRight(c, State(labels, visited, seeds));
  }

  lemma SameSize(c: Config, s: State)
    requires Ok(c, s, NOISE, [])
    ensures |s.labels| == |s.visited| == c.Size()
  {
  }
}
