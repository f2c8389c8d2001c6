/** Native execution topology v1: the semantic checker and what an accepted topology guarantees. */
module Topology {
  import opened Collections
  import opened Text

  // A field read as an identity: null, a nonnegative integer, or anything else.
  datatype Id = Null | Id(n: nat) | BadId

  datatype Worker = Worker(index: Id, node: Id, logical: Id, socket: Id, core: Id, rank: Id)

  datatype Pool = Pool(node: Id, workers: seq<Worker>)

  datatype Target = Target(home: Id, ratio: Id, delay: Id)

  datatype Row = Row(node: Id, targets: seq<Target>)

  datatype Policy = Policy(schema: string, cacheKey: string, workingSet: int, burst: int, status: string, rows: seq<Row>)

  datatype Topology = Topology(schema: string, fingerprint: string, threads: Id, hardAffinity: bool, pools: seq<Pool>, policy: Policy)

  // ---- workers ----

  predicate Portable(w: Worker) {
    w.logical.Null? && w.socket.Null? && w.core.Null? && w.rank.Null?
  }

  predicate Placed(w: Worker) {
    w.logical.Id? && w.socket.Id? && w.core.Id? && w.rank.Id?
  }

  ghost predicate WorkerFits(w: Worker, node: Id) {
    w.index.Id? && w.node == node && (Portable(w) || Placed(w))
  }

  ghost predicate Fit(ws: seq<Worker>, node: Id) {
    forall i :: 0 <= i < |ws| ==> WorkerFits(ws[i], node)
  }

  ghost predicate LogicalsApart(ws: seq<Worker>) {
    forall i, j :: 0 <= i < j < |ws| && Placed(ws[i]) && Placed(ws[j]) ==> ws[i].logical != ws[j].logical
  }

  // The workers of all pools, in order.
  ghost function Workers(pools: seq<Pool>): seq<Worker> {
    if pools == [] then [] else Workers(pools[..|pools| - 1]) + pools[|pools| - 1].workers
  }

  ghost function Indices(ws: seq<Worker>): (r: seq<Id>)
    ensures |r| == |ws| && forall i :: 0 <= i < |r| ==> r[i] == ws[i].index
  {
    seq(|ws|, i requires 0 <= i < |ws| => ws[i].index)
  }

  ghost function PortableCount(ws: seq<Worker>): nat {
    if ws == [] then 0 else PortableCount(ws[..|ws| - 1]) + if Portable(ws[|ws| - 1]) then 1 else 0
  }

  ghost function Logicals(ws: seq<Worker>): set<nat> {
    set i | 0 <= i < |ws| && Placed(ws[i]) :: ws[i].logical.n
  }

  ghost predicate RankSeen(ws: seq<Worker>, socket: nat, core: nat, rank: nat) {
    exists i :: 0 <= i < |ws| && Placed(ws[i]) && ws[i].socket.n == socket && ws[i].core.n == core && ws[i].rank.n == rank
  }

  type Ranks = map<(nat, nat), set<nat>>

  predicate HasRank(ranks: Ranks, socket: nat, core: nat, rank: nat) {
    (socket, core) in ranks && rank in ranks[(socket, core)]
  }

  /** What the checker's variables hold after the workers ws. */
  ghost predicate Tracks(ws: seq<Worker>, indices: seq<Id>, logicals: set<nat>, ranks: Ranks, portable: nat) {
    && indices == Indices(ws) && logicals == Logicals(ws) && portable == PortableCount(ws)
    && (forall s, c, r :: HasRank(ranks, s, c, r) <==> RankSeen(ws, s, c, r))
    && forall k :: k in ranks ==> ranks[k] != {}
  }

  lemma Extend(ws: seq<Worker>, w: Worker)
    ensures Indices(ws + [w]) == Indices(ws) + [w.index]
    ensures Logicals(ws + [w]) == Logicals(ws) + if Placed(w) then {w.logical.n} else {}
    ensures PortableCount(ws + [w]) == PortableCount(ws) + if Portable(w) then 1 else 0
    ensures LogicalsApart(ws + [w]) <==> LogicalsApart(ws) && (Placed(w) ==> w.logical.n !in Logicals(ws))
  {
    var more := ws + [w];
    assert more[..|more| - 1] == ws;
    ExtendLogicals(ws, w);
    ExtendApart(ws, w);
  }

  lemma ExtendLogicals(ws: seq<Worker>, w: Worker)
    ensures Logicals(ws + [w]) == Logicals(ws) + if Placed(w) then {w.logical.n} else {}
  {
    var more := ws + [w];
    assert forall i :: 0 <= i < |ws| ==> more[i] == ws[i];
    assert more[|ws|] == w;
  }

  lemma ExtendApart(ws: seq<Worker>, w: Worker)
    ensures LogicalsApart(ws + [w]) <==> LogicalsApart(ws) && (Placed(w) ==> w.logical.n !in Logicals(ws))
  {
    var more := ws + [w];
    assert forall i :: 0 <= i < |ws| ==> more[i] == ws[i];
    assert more[|ws|] == w;
  }

  lemma ExtendRanks(ws: seq<Worker>, w: Worker, s: nat, c: nat, r: nat)
    ensures RankSeen(ws + [w], s, c, r) <==>
      RankSeen(ws, s, c, r) || (Placed(w) && w.socket.n == s && w.core.n == c && w.rank.n == r)
  {
    var more := ws + [w];
    assert forall i :: 0 <= i < |ws| ==> more[i] == ws[i];
    assert more[|ws|] == w;
  }

  lemma ApartPrefix(ws: seq<Worker>, more: seq<Worker>)
    requires LogicalsApart(ws + more)
    ensures LogicalsApart(ws)
  {
    assert forall i :: 0 <= i < |ws| ==> (ws + more)[i] == ws[i];
  }

  function AddRank(ranks: Ranks, s: nat, c: nat, r: nat): Ranks {
    ranks[(s, c) := (if (s, c) in ranks then ranks[(s, c)] else {}) + {r}]
  }

  lemma TracksPortable(ws: seq<Worker>, w: Worker, indices: seq<Id>, logicals: set<nat>, ranks: Ranks, portable: nat)
    requires Tracks(ws, indices, logicals, ranks, portable) && Portable(w)
    ensures Tracks(ws + [w], indices + [w.index], logicals, ranks, portable + 1)
  {
    Extend(ws, w);
    forall s, c, r ensures HasRank(ranks, s, c, r) <==> RankSeen(ws + [w], s, c, r) {
      ExtendRanks(ws, w, s, c, r);
    }
  }

  lemma TracksPlaced(ws: seq<Worker>, w: Worker, indices: seq<Id>, logicals: set<nat>, ranks: Ranks, portable: nat)
    requires Tracks(ws, indices, logicals, ranks, portable) && Placed(w)
    ensures Tracks(ws + [w], indices + [w.index], logicals + {w.logical.n},
              AddRank(ranks, w.socket.n, w.core.n, w.rank.n), portable)
  {
    Extend(ws, w);
    var more := AddRank(ranks, w.socket.n, w.core.n, w.rank.n);
    forall s, c, r ensures HasRank(more, s, c, r) <==> RankSeen(ws + [w], s, c, r) {
      ExtendRanks(ws, w, s, c, r);
      assert HasRank(more, s, c, r) <==>
        HasRank(ranks, s, c, r) || (w.socket.n == s && w.core.n == c && w.rank.n == r);
    }
  }

  method ScanWorker(w: Worker, node: Id, ghost ws: seq<Worker>, indices: seq<Id>, logicals: set<nat>, ranks: Ranks, portable: nat)
    returns (ok: bool, indices': seq<Id>, logicals': set<nat>, ranks': Ranks, portable': nat)
    requires Tracks(ws, indices, logicals, ranks, portable) && LogicalsApart(ws)
    ensures ok <==> WorkerFits(w, node) && LogicalsApart(ws + [w])
    ensures ok ==> Tracks(ws + [w], indices', logicals', ranks', portable')
  {
    Extend(ws, w);
    if !w.index.Id? || w.node != node {
      return false, [], {}, map[], 0;
    }
    if Portable(w) {
      TracksPortable(ws, w, indices, logicals, ranks, portable);
      return true, indices + [w.index], logicals, ranks, portable + 1;
    }
    if !Placed(w) || w.logical.n in logicals {
      return false, [], {}, map[], 0;
    }
    TracksPlaced(ws, w, indices, logicals, ranks, portable);
    return true, indices + [w.index], logicals + {w.logical.n}, AddRank(ranks, w.socket.n, w.core.n, w.rank.n), portable;
  }

  method ScanPool(pool: Pool, ghost before: seq<Worker>, indices: seq<Id>, logicals: set<nat>, ranks: Ranks, portable: nat)
    returns (ok: bool, indices': seq<Id>, logicals': set<nat>, ranks': Ranks, portable': nat)
    requires Tracks(before, indices, logicals, ranks, portable) && LogicalsApart(before)
    ensures ok <==> Fit(pool.workers, pool.node) && LogicalsApart(before + pool.workers)
    ensures ok ==> Tracks(before + pool.workers, indices', logicals', ranks', portable')
  {
    indices', logicals', ranks', portable' := indices, logicals, ranks, portable;
    assert before + pool.workers[..0] == before;
    for j := 0 to |pool.workers|
      invariant Fit(pool.workers[..j], pool.node) && LogicalsApart(before + pool.workers[..j])
      invariant Tracks(before + pool.workers[..j], indices', logicals', ranks', portable')
    {
      ghost var ws := before + pool.workers[..j];
      ok, indices', logicals', ranks', portable' := ScanWorker(pool.workers[j], pool.node, ws, indices', logicals', ranks', portable');
      assert before + pool.workers[..j + 1] == ws + [pool.workers[j]];
      if !ok {
        assert before + pool.workers == (ws + [pool.workers[j]]) + pool.workers[j + 1..];
        if LogicalsApart(before + pool.workers) {
          ApartPrefix(ws + [pool.workers[j]], pool.workers[j + 1..]);
        }
        return;
      }
    }
    assert pool.workers[..|pool.workers|] == pool.workers;
    ok := true;
  }

  // ---- pools ----

  ghost predicate PoolFits(pool: Pool) {
    !pool.node.BadId? && pool.workers != [] && Fit(pool.workers, pool.node)
  }

  ghost predicate PoolsFit(pools: seq<Pool>) {
    && (forall i :: 0 <= i < |pools| ==> PoolFits(pools[i]))
    && forall i, j :: 0 <= i < j < |pools| ==> pools[i].node != pools[j].node
  }

  lemma {:induction false} WorkersPrefix(pools: seq<Pool>, n: nat)
    requires n <= |pools|
    ensures |Workers(pools[..n])| <= |Workers(pools)| && Workers(pools[..n]) == Workers(pools)[..|Workers(pools[..n])|]
  {
    if n < |pools| {
      var init := pools[..|pools| - 1];
      WorkersPrefix(init, n);
      assert init[..n] == pools[..n];
      assert Workers(pools) == Workers(init) + pools[|pools| - 1].workers;
    } else {
      assert pools[..n] == pools;
    }
  }

  lemma ApartPools(pools: seq<Pool>, n: nat)
    requires n <= |pools| && LogicalsApart(Workers(pools))
    ensures LogicalsApart(Workers(pools[..n]))
  {
    WorkersPrefix(pools, n);
    var all, k := Workers(pools), |Workers(pools[..n])|;
    assert all == all[..k] + all[k..];
    ApartPrefix(all[..k], all[k..]);
  }

  method ScanPools(pools: seq<Pool>) returns (ok: bool, indices: seq<Id>, logicals: set<nat>, ranks: Ranks, portable: nat)
    ensures ok <==> PoolsFit(pools) && LogicalsApart(Workers(pools))
    ensures ok ==> Tracks(Workers(pools), indices, logicals, ranks, portable)
  {
    indices, logicals, ranks, portable := [], {}, map[], 0;
    var nodes: set<Id> := {};
    for i := 0 to |pools|
      invariant PoolsFit(pools[..i]) && LogicalsApart(Workers(pools[..i]))
      invariant nodes == set k | 0 <= k < i :: pools[k].node
      invariant Tracks(Workers(pools[..i]), indices, logicals, ranks, portable)
    {
      var pool := pools[i];
      if pool.node.BadId? || pool.workers == [] {
        assert !PoolFits(pools[i]);
        return false, [], {}, map[], 0;
      }
      if pool.node in nodes {
        return false, [], {}, map[], 0;
      }
      nodes := nodes + {pool.node};
      assert pools[..i + 1][..i] == pools[..i];
      ok, indices, logicals, ranks, portable := ScanPool(pool, Workers(pools[..i]), indices, logicals, ranks, portable);
      if !ok {
        if LogicalsApart(Workers(pools)) {
          ApartPools(pools, i + 1);
          assert !PoolFits(pools[i]);
        }
        return false, [], {}, map[], 0;
      }
    }
    assert pools[..|pools|] == pools;
    ok := true;
  }

  // ---- simultaneous-multithreading ranks ----

  // On every physical core, ranks start at zero and leave no gap.
  ghost predicate RanksContiguous(ws: seq<Worker>) {
    forall s, c, r: nat, q: nat :: RankSeen(ws, s, c, r) && q < r ==> RankSeen(ws, s, c, q)
  }

  method Greatest(ranks: set<nat>) returns (most: nat)
    requires ranks != {}
    ensures most in ranks && forall r :: r in ranks ==> r <= most
  {
    most :| most in ranks;
    var rest := ranks - {most};
    while rest != {}
      invariant rest <= ranks && most in ranks
      invariant forall r :: r in ranks && r !in rest ==> r <= most
      decreases rest
    {
      var r :| r in rest;
      rest := rest - {r};
      if r > most { most := r; }
    }
  }

  method Contiguous(ranks: set<nat>) returns (ok: bool)
    requires ranks != {}
    ensures ok <==> forall r: nat, q: nat :: r in ranks && q < r ==> q in ranks
  {
    var most := Greatest(ranks);
    ok := ranks == UpTo(most);
  }

  function UpTo(n: nat): (r: set<nat>)
    ensures forall q: nat :: q in r <==> q <= n
  {
    if n == 0 then {0} else UpTo(n - 1) + {n}
  }

  method AllContiguous(ghost ws: seq<Worker>, ranks: Ranks) returns (ok: bool)
    requires forall s, c, r :: HasRank(ranks, s, c, r) <==> RankSeen(ws, s, c, r)
    requires forall k :: k in ranks ==> ranks[k] != {}
    ensures ok <==> RanksContiguous(ws)
  {
    var rest := ranks.Keys;
    while rest != {}
      invariant rest <= ranks.Keys
      invariant forall s, c, r: nat, q: nat :: (s, c) in ranks.Keys - rest && HasRank(ranks, s, c, r) && q < r ==> HasRank(ranks, s, c, q)
      decreases rest
    {
      var k :| k in rest;
      var good := Contiguous(ranks[k]);
      if !good {
        var r: nat, q: nat :| r in ranks[k] && q < r && q !in ranks[k];
        assert HasRank(ranks, k.0, k.1, r) && !HasRank(ranks, k.0, k.1, q);
        return false;
      }
      rest := rest - {k};
    }
    ok := true;
  }

  // ---- stealing between NUMA pools ----

  ghost predicate TargetFits(t: Target, node: Id, status: string) {
    && t.home.Id? && t.ratio.Id? && t.delay.Id? && t.home != node && t.ratio.n > 0
    && (status == "calibrated" ==> t.ratio.n > 1_000_000 && t.delay.n > 0)
  }

  predicate Before(a: (nat, nat), b: (nat, nat)) {
    a.0 < b.0 || (a.0 == b.0 && a.1 < b.1)
  }

  // Equal to its own sorted set of entries.
  predicate StrictlyAscending(s: seq<(nat, nat)>) {
    forall i, j :: 0 <= i < j < |s| ==> Before(s[i], s[j])
  }

  ghost predicate RowFits(row: Row, node: Id, status: string) {
    && row.node == node
    && (forall k :: 0 <= k < |row.targets| ==> TargetFits(row.targets[k], node, status))
    && (forall i, j :: 0 <= i < j < |row.targets| ==>
      || row.targets[i].delay.n < row.targets[j].delay.n
      || (row.targets[i].delay == row.targets[j].delay && row.targets[i].home.n < row.targets[j].home.n))
    && forall i, j :: 0 <= i < j < |row.targets| ==> row.targets[i].home != row.targets[j].home
  }

  function Homes(row: Row): set<Id> {
    set k | 0 <= k < |row.targets| :: row.targets[k].home
  }

  ghost predicate HeaderFits(p: Policy) {
    && p.schema == "hyphae-native-numa-steal-policy-v1" && LowerHex(p.cacheKey, 64)
    && p.workingSet == 8 * 1024 * 1024 && p.burst == 16
  }

  predicate NoTargets(p: Policy) {
    forall i :: 0 <= i < |p.rows| ==> p.rows[i].targets == []
  }

  ghost predicate StatusFits(p: Policy, nodes: seq<Id>)
    requires |p.rows| == |nodes|
  {
    if |nodes| == 1 then p.status == "not-applicable" && forall row :: row in p.rows ==> row.targets == []
    else if p.status == "disabled" then forall row :: row in p.rows ==> row.targets == []
    else
      && p.status == "calibrated" && Null !in nodes
      && forall i :: 0 <= i < |nodes| ==> Homes(p.rows[i]) == Elements(nodes) - {nodes[i]}
  }

  ghost predicate PolicyFits(p: Policy, nodes: seq<Id>) {
    && HeaderFits(p) && |p.rows| == |nodes|
    && (forall i :: 0 <= i < |nodes| ==> RowFits(p.rows[i], nodes[i], p.status))
    && StatusFits(p, nodes)
  }

  method CheckRow(row: Row, node: Id, status: string) returns (ok: bool)
    ensures ok <==> RowFits(row, node, status)
  {
    if row.node != node {
      return false;
    }
    var parsed: seq<(nat, nat)> := [];
    for k := 0 to |row.targets|
      invariant |parsed| == k
      invariant forall i :: 0 <= i < k ==> TargetFits(row.targets[i], node, status)
      invariant forall i :: 0 <= i < k ==> parsed[i] == (row.targets[i].delay.n, row.targets[i].home.n)
    {
      var t := row.targets[k];
      if !t.home.Id? || !t.ratio.Id? || !t.delay.Id? || t.home == node {
        assert !TargetFits(row.targets[k], node, status);
        return false;
      }
      parsed := parsed + [(t.delay.n, t.home.n)];
      if t.ratio.n == 0 || (status == "calibrated" && (t.ratio.n <= 1_000_000 || t.delay.n == 0)) {
        assert !TargetFits(row.targets[k], node, status);
        return false;
      }
    }
    if !StrictlyAscending(parsed) {
      var i, j :| 0 <= i < j < |parsed| && !Before(parsed[i], parsed[j]);
      assert !Before((row.targets[i].delay.n, row.targets[i].home.n), (row.targets[j].delay.n, row.targets[j].home.n));
      return false;
    }
    var homes: set<nat> := {};
    for k := 0 to |parsed|
      invariant homes == set i | 0 <= i < k :: parsed[i].1
      invariant forall i, j :: 0 <= i < j < k ==> row.targets[i].home != row.targets[j].home
    {
      if parsed[k].1 in homes {
        var i :| 0 <= i < k && parsed[i].1 == parsed[k].1;
        assert row.targets[i].home == row.targets[k].home;
        return false;
      }
      homes := homes + {parsed[k].1};
    }
    ok := true;
  }

  method ValidatePolicy(p: Policy, nodes: seq<Id>) returns (ok: bool)
    ensures ok <==> PolicyFits(p, nodes)
  {
    HexIff(p.cacheKey);
    if p.schema != "hyphae-native-numa-steal-policy-v1" || |p.cacheKey| != 64 || !IsHex(p.cacheKey) {
      return false;
    }
    if p.workingSet != 8 * 1024 * 1024 || p.burst != 16 {
      return false;
    }
    if |p.rows| != |nodes| {
      return false;
    }
    for i := 0 to |nodes|
      invariant forall k :: 0 <= k < i ==> RowFits(p.rows[k], nodes[k], p.status)
    {
      var fits := CheckRow(p.rows[i], nodes[i], p.status);
      if !fits {
        return false;
      }
    }
    if |nodes| == 1 {
      ok := p.status == "not-applicable" && NoTargets(p);
    } else if p.status == "disabled" {
      ok := NoTargets(p);
    } else if p.status == "calibrated" {
      ok := Null !in nodes && forall i :: 0 <= i < |nodes| ==> Homes(p.rows[i]) == Elements(nodes) - {nodes[i]};
    } else {
      ok := false;
    }
  }

  // ---- the whole checker ----

  function Nodes(pools: seq<Pool>): (r: seq<Id>)
    ensures |r| == |pools| && forall i :: 0 <= i < |r| ==> r[i] == pools[i].node
  {
    seq(|pools|, i requires 0 <= i < |pools| => pools[i].node)
  }

  function Numbered(n: nat): (r: seq<Id>)
    ensures |r| == n && forall i :: 0 <= i < n ==> r[i] == Id(i)
  {
    seq(n, i requires 0 <= i < n => Id(i))
  }

  /** An accepted topology.  There is no clause on how many logical processors hard affinity needs. */
  ghost predicate Accepted(t: Topology) {
    && t.schema == "hyphae-native-execution-topology-v1" && LowerHex(t.fingerprint, 64)
    && t.threads.Id? && t.threads.n > 0 && t.pools != []
    && PoolsFit(t.pools) && LogicalsApart(Workers(t.pools))
    && Indices(Workers(t.pools)) == Numbered(t.threads.n)
    && (PortableCount(Workers(t.pools)) > 0 ==>
      PortableCount(Workers(t.pools)) == t.threads.n && |t.pools| == 1 && t.pools[0].node.Null? && !t.hardAffinity)
    && RanksContiguous(Workers(t.pools))
    && PolicyFits(t.policy, Nodes(t.pools))
  }

  lemma {:induction false} CountBounds(ws: seq<Worker>)
    ensures PortableCount(ws) <= |ws|
    ensures PortableCount(ws) == 0 <==> forall i :: 0 <= i < |ws| ==> !Portable(ws[i])
    ensures PortableCount(ws) == |ws| <==> forall i :: 0 <= i < |ws| ==> Portable(ws[i])
  {
    if ws != [] {
      var init := ws[..|ws| - 1];
      CountBounds(init);
      assert forall i :: 0 <= i < |init| ==> init[i] == ws[i];
    }
  }

  lemma {:induction false} LogicalsCount(ws: seq<Worker>)
    requires LogicalsApart(ws) && forall i :: 0 <= i < |ws| ==> Placed(ws[i])
    ensures |Logicals(ws)| == |ws|
  {
    if ws != [] {
      var init, w := ws[..|ws| - 1], ws[|ws| - 1];
      assert ws == init + [w];
      ApartPrefix(init, [w]);
      LogicalsCount(init);
      Extend(init, w);
    }
  }

  lemma {:induction false} WorkersFit(pools: seq<Pool>)
    requires PoolsFit(pools)
    ensures forall i :: 0 <= i < |Workers(pools)| ==> Portable(Workers(pools)[i]) || Placed(Workers(pools)[i])
  {
    if pools != [] {
      var init, last := pools[..|pools| - 1], pools[|pools| - 1];
      WorkersFit(init);
      assert PoolFits(last);
    }
  }

  /** Either no worker is placed, or every worker is, each on a logical processor of its own. */
  lemma PlacedApart(pools: seq<Pool>, ws: seq<Worker>)
    requires ws == Workers(pools) && PoolsFit(pools) && LogicalsApart(ws) && PortableCount(ws) == 0
    ensures |Logicals(ws)| == |ws|
    ensures forall i :: 0 <= i < |ws| ==> Placed(ws[i])
    ensures forall i, j :: 0 <= i < j < |ws| ==> ws[i].logical != ws[j].logical
  {
    WorkersFit(pools);
    CountBounds(ws);
    LogicalsCount(ws);
  }

  /** The checker accepts exactly those topologies; the branch that counts logical processors under
      hard affinity never decides anything. */
  method ValidateTopology(t: Topology) returns (ok: bool)
    ensures ok <==> Accepted(t)
  {
    HexIff(t.fingerprint);
    if t.schema != "hyphae-native-execution-topology-v1" || |t.fingerprint| != 64 || !IsHex(t.fingerprint) {
      return false;
    }
    if !t.threads.Id? || t.threads.n == 0 {
      return false;
    }
    if t.pools == [] {
      return false;
    }
    var fits, indices, logicals, ranks, portable := ScanPools(t.pools);
    if !fits {
      return false;
    }
    ghost var ws := Workers(t.pools);
    if indices != Numbered(t.threads.n) {
      return false;
    }
    if portable > 0 {
      if portable != t.threads.n || |t.pools| != 1 || !t.pools[0].node.Null? {
        return false;
      }
      if t.hardAffinity {
        return false;
      }
    } else if t.hardAffinity && |logicals| != t.threads.n {
      PlacedApart(t.pools, ws);
      assert false;
      return false;
    }
    var contiguous := AllContiguous(ws, ranks);
    if !contiguous {
      return false;
    }
    ok := ValidatePolicy(t.policy, Nodes(t.pools));
  }

  /** All or nothing: one null pool of unplaced workers without affinity, or every worker placed on
      a logical processor of its own; the workers are numbered 0, 1, 2, ... either way. */
  lemma AllOrNothing(t: Topology)
    requires Accepted(t)
    ensures |Workers(t.pools)| == t.threads.n
    ensures forall i :: 0 <= i < |Workers(t.pools)| ==> Workers(t.pools)[i].index == Id(i)
    ensures
      || (!t.hardAffinity && |t.pools| == 1 && t.pools[0].node.Null? && forall i :: 0 <= i < |Workers(t.pools)| ==> Portable(Workers(t.pools)[i]))
      || ((forall i :: 0 <= i < |Workers(t.pools)| ==> Placed(Workers(t.pools)[i])) &&
          (forall i, j :: 0 <= i < j < |Workers(t.pools)| ==> Workers(t.pools)[i].logical != Workers(t.pools)[j].logical))
  {
    var ws := Workers(t.pools);
    assert |ws| == |Indices(ws)| == t.threads.n;
    forall i | 0 <= i < |ws| ensures ws[i].index == Id(i) {
      assert Indices(ws)[i] == Numbered(t.threads.n)[i];
    }
    if PortableCount(ws) == 0 {
      PlacedApart(t.pools, ws);
    } else {
      CountBounds(ws);
    }
  }

  // ---- what a calibrated policy covers ----

  ghost function TargetTotal(rows: seq<Row>): nat {
    if rows == [] then 0 else TargetTotal(rows[..|rows| - 1]) + |rows[|rows| - 1].targets|
  }

  ghost function HomeSeq(row: Row): (r: seq<Id>)
    ensures |r| == |row.targets| && forall i :: 0 <= i < |r| ==> r[i] == row.targets[i].home
  {
    seq(|row.targets|, i requires 0 <= i < |row.targets| => row.targets[i].home)
  }

  lemma RowCount(row: Row, nodes: seq<Id>, i: nat, status: string)
    requires i < |nodes| && Distinct(nodes) && RowFits(row, nodes[i], status) && Homes(row) == Elements(nodes) - {nodes[i]}
    ensures |row.targets| == |nodes| - 1
  {
    DistinctCount(HomeSeq(row));
    assert Elements(HomeSeq(row)) == Homes(row);
    DistinctCount(nodes);
    assert nodes[i] in Elements(nodes);
  }

  lemma {:induction false} TotalCount(rows: seq<Row>, n: nat)
    requires forall i :: 0 <= i < |rows| ==> |rows[i].targets| == n
    ensures TargetTotal(rows) == |rows| * n
  {
    if rows != [] {
      TotalCount(rows[..|rows| - 1], n);
      assert |rows| * n == (|rows| - 1) * n + n;
    }
  }

  ghost predicate Steals(p: Policy, nodes: seq<Id>, i: nat, j: nat, k: nat)
    requires |p.rows| == |nodes| && i < |nodes| && j < |nodes|
  {
    k < |p.rows[i].targets| && p.rows[i].targets[k].home == nodes[j]
  }

  ghost predicate StealsSomewhere(p: Policy, nodes: seq<Id>, i: nat, j: nat)
    requires |p.rows| == |nodes| && i < |nodes| && j < |nodes|
  {
    exists k: nat :: Steals(p, nodes, i, j, k)
  }

  /** A calibrated policy holds each ordered pair of distinct pools exactly once and nothing else. */
  lemma EachPairOnce(t: Topology, nodes: seq<Id>)
    requires Accepted(t) && nodes == Nodes(t.pools) && t.policy.status == "calibrated"
    ensures |t.policy.rows| == |nodes| && |nodes| >= 2
    ensures TargetTotal(t.policy.rows) == |nodes| * (|nodes| - 1)
    ensures forall i: nat, j: nat :: i < |nodes| && j < |nodes| ==> (i != j <==> StealsSomewhere(t.policy, nodes, i, j))
    ensures forall i: nat, j: nat, k: nat, l: nat :: i < |nodes| && j < |nodes| ==>
      (Steals(t.policy, nodes, i, j, k) && Steals(t.policy, nodes, i, j, l) ==> k == l)
  {
    var p := t.policy;
    assert Distinct(nodes);
    forall i | 0 <= i < |nodes| ensures |p.rows[i].targets| == |nodes| - 1 {
      assert RowFits(p.rows[i], nodes[i], p.status);
      RowCount(p.rows[i], nodes, i, p.status);
    }
    TotalCount(p.rows, |nodes| - 1);
    forall i: nat, j: nat | i < |nodes| && j < |nodes| ensures i != j <==> StealsSomewhere(p, nodes, i, j) {
      PairSomewhere(p, nodes, i, j);
    }
    forall i: nat, j: nat, k: nat, l: nat | i < |nodes| && j < |nodes| && Steals(p, nodes, i, j, k) && Steals(p, nodes, i, j, l)
      ensures k == l
    {
      assert RowFits(p.rows[i], nodes[i], p.status);
    }
  }

  lemma PairSomewhere(p: Policy, nodes: seq<Id>, i: nat, j: nat)
    requires |p.rows| == |nodes| && i < |nodes| && j < |nodes| && Distinct(nodes)
    requires Homes(p.rows[i]) == Elements(nodes) - {nodes[i]}
    ensures i != j <==> StealsSomewhere(p, nodes, i, j)
  {
    if i != j {
      assert nodes[j] in Homes(p.rows[i]);
      var k :| 0 <= k < |p.rows[i].targets| && p.rows[i].targets[k].home == nodes[j];
      assert Steals(p, nodes, i, j, k);
    }
  }
}
