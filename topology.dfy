/** The PMEM topology table: for every persistent-memory-only NUMA node, the
    CPU of the CPU node nearest to it, built once on first use.

    The node-distance matrix, the PMEM-node flags (IS_PMEM_NODE) and the
    present CPUs with their nodes are inputs; MAX_NUMNODES is the table's
    length. */
module Topology {

  /** node_distance() is below this for every pair of nodes; it starts the
      search for the minimum. */
  const DISTANCE_CEILING: int := 256

  /** A present CPU and the node cpu_to_node() gives for it. */
  datatype Cpu = Cpu(id: nat, node: int)

  /** node_to_cpu[nid] after the scan of the present CPUs: the last present
      CPU on node `nid`, or -1 when there is none. */
  function NodeCpu(cpus: seq<Cpu>, nid: int): int
  {
    if |cpus| == 0 then -1
    else if cpus[|cpus| - 1].node == nid then cpus[|cpus| - 1].id
    else NodeCpu(cpus[..|cpus| - 1], nid)
  }

  /** A node has a CPU exactly when some present CPU sits on it, and then
      the table names the last such CPU in the scan order. */
  lemma {:induction false} NodeCpuIsLast(cpus: seq<Cpu>, nid: int)
    ensures NodeCpu(cpus, nid) == -1 <==> forall k :: 0 <= k < |cpus| ==> cpus[k].node != nid
    ensures NodeCpu(cpus, nid) != -1 ==>
      exists k :: 0 <= k < |cpus| && cpus[k].node == nid && cpus[k].id == NodeCpu(cpus, nid)
        && forall m :: k < m < |cpus| ==> cpus[m].node != nid
    decreases |cpus|
  {
    if |cpus| > 0 {
      var init := cpus[..|cpus| - 1];
      NodeCpuIsLast(init, nid);
      if cpus[|cpus| - 1].node != nid && NodeCpu(cpus, nid) != -1 {
        var k :| 0 <= k < |init| && init[k].node == nid && init[k].id == NodeCpu(init, nid)
          && forall m :: k < m < |init| ==> init[m].node != nid;
        assert cpus[k] == init[k];
      }
      if NodeCpu(cpus, nid) == -1 {
        forall k | 0 <= k < |cpus|
          ensures cpus[k].node != nid
        {
          if k < |init| { assert cpus[k] == init[k]; }
        }
      }
    }
  }

  predicate HasCpu(cpus: seq<Cpu>, nid: int) { NodeCpu(cpus, nid) != -1 }

  /** Node `j` is the CPU node a PMEM node with distances `row` is paired
      with: it is nearer than the ceiling, no CPU node is nearer, and every
      CPU node before it is strictly farther (the scan keeps the first
      minimum). */
  ghost predicate FirstClosest(row: seq<int>, cpus: seq<Cpu>, j: int) {
    && 0 <= j < |row| && HasCpu(cpus, j) && row[j] < DISTANCE_CEILING
    && (forall k :: 0 <= k < |row| && HasCpu(cpus, k) ==> row[j] <= row[k])
    && (forall k :: 0 <= k < j && HasCpu(cpus, k) ==> row[j] < row[k])
  }

  /** No CPU node is nearer than the ceiling. */
  ghost predicate NoneClose(row: seq<int>, cpus: seq<Cpu>) {
    forall k :: 0 <= k < |row| && HasCpu(cpus, k) ==> row[k] >= DISTANCE_CEILING
  }

  /** What the table holds for a node with distances `row`, whose entry was
      `prev` before the build: -1 for a node that is not PMEM, and for a
      PMEM node the CPU of its first closest CPU node, or `prev` when no
      CPU node is nearer than the ceiling. */
  ghost predicate Paired(pmem: bool, row: seq<int>, cpus: seq<Cpu>, prev: int, v: int) {
    && (!pmem ==> v == -1)
    && (pmem && NoneClose(row, cpus) ==> v == prev)
    && (forall j :: pmem && FirstClosest(row, cpus, j) ==> v == NodeCpu(cpus, j))
  }

  /** The pairing is well defined: when some CPU node is nearer than the
      ceiling exactly one node is the first closest, and otherwise none is. */
  lemma {:induction false} ClosestExists(row: seq<int>, cpus: seq<Cpu>, n: nat)
    requires n <= |row|
    ensures (exists k :: 0 <= k < n && HasCpu(cpus, k) && row[k] < DISTANCE_CEILING) ==>
      exists j :: 0 <= j < n && FirstClosest(row[..n], cpus, j)
    ensures forall j, k :: FirstClosest(row, cpus, j) && FirstClosest(row, cpus, k) ==> j == k
    ensures NoneClose(row, cpus) ==> forall j :: !FirstClosest(row, cpus, j)
    decreases n
  {
    if n > 0 {
      var m := n - 1;
      ClosestExists(row, cpus, m);
      var pre := row[..n];
      assert pre[..m] == row[..m];
      if exists k :: 0 <= k < n && HasCpu(cpus, k) && row[k] < DISTANCE_CEILING {
        if exists k :: 0 <= k < m && HasCpu(cpus, k) && row[k] < DISTANCE_CEILING {
          var j :| 0 <= j < m && FirstClosest(row[..m], cpus, j);
          if HasCpu(cpus, m) && row[m] < row[j] {
            assert FirstClosest(pre, cpus, m);
          } else {
            assert FirstClosest(pre, cpus, j);
          }
        } else {
          assert FirstClosest(pre, cpus, m);
        }
      }
    }
  }

  /** The table and its "initialized" flag, global state of the kernel:
      CLOSEST_CPU_NODE_FOR_PMEM has MAX_NUMNODES entries, all zero until
      the table is first built. */
  class PmemTopology {
    const nodes: nat
    const closest: array<int>
    var initialized: bool

    /** The table is what the kernel can hold for a topology: all zero
        until it is built, and once built every entry is paired with its
        node (an entry without a close CPU node keeps its zero). */
    ghost predicate Built(isPmem: seq<bool>, cpus: seq<Cpu>, dist: seq<seq<int>>)
      reads this, closest
    {
      && |isPmem| == |dist| == nodes == closest.Length
      && (!initialized ==> forall i :: 0 <= i < nodes ==> closest[i] == 0)
      && (initialized ==> forall i :: 0 <= i < nodes ==> Paired(isPmem[i], dist[i], cpus, 0, closest[i]))
    }

    constructor (nodes: nat)
      ensures this.nodes == nodes && closest.Length == nodes && !initialized
      ensures forall i :: 0 <= i < nodes ==> closest[i] == 0
      ensures fresh(closest)
    {
      this.nodes := nodes;
      closest := new int[nodes](_ => 0);
      initialized := false;
    }

    /** The first loop of init_closest_cpu_node_for_pmem_list_kernel():
        mark every node that a present CPU sits on and remember the last CPU
        seen on it. Nodes outside the table are skipped. */
    static method ScanCpus(nodes: nat, cpus: seq<Cpu>) returns (isCpu: array<bool>, toCpu: array<int>)
      ensures fresh(isCpu) && fresh(toCpu) && isCpu.Length == nodes && toCpu.Length == nodes
      ensures forall x :: 0 <= x < nodes ==> toCpu[x] == NodeCpu(cpus, x) && (isCpu[x] <==> HasCpu(cpus, x))
    {
      isCpu := new bool[nodes](_ => false);
      toCpu := new int[nodes](_ => -1);
      var c := 0;
      while c < |cpus|
        invariant 0 <= c <= |cpus|
        invariant forall x :: 0 <= x < nodes ==> toCpu[x] == NodeCpu(cpus[..c], x) && (isCpu[x] <==> HasCpu(cpus[..c], x))
      {
        assert cpus[..c + 1][..c] == cpus[..c];
        var nid := cpus[c].node;
        if 0 <= nid < nodes {
          isCpu[nid] := true;
          toCpu[nid] := cpus[c].id;
        }
        c := c + 1;
      }
      assert cpus[..c] == cpus;
    }

    /** The inner loop: scan the CPU nodes with `cmin` starting at the
        ceiling and take the CPU of each node strictly nearer than the best
        so far. The entry keeps its previous value when no CPU node is
        nearer than the ceiling. */
    static method NearestCpu(row: seq<int>, cpus: seq<Cpu>, isCpu: array<bool>, toCpu: array<int>, prev: int)
      returns (r: int)
      requires isCpu.Length == toCpu.Length == |row|
      requires forall x :: 0 <= x < |row| ==> toCpu[x] == NodeCpu(cpus, x) && (isCpu[x] <==> HasCpu(cpus, x))
      ensures Paired(true, row, cpus, prev, r)
    {
      r := prev;
      var cmin := DISTANCE_CEILING;
      ghost var best := -1;
      var j := 0;
      while j < |row|
        invariant 0 <= j <= |row|
        invariant best == -1 ==> cmin == DISTANCE_CEILING && r == prev
                                 && forall k :: 0 <= k < j && HasCpu(cpus, k) ==> row[k] >= DISTANCE_CEILING
        invariant best != -1 ==>
          && 0 <= best < j && HasCpu(cpus, best) && cmin == row[best] < DISTANCE_CEILING
          && r == NodeCpu(cpus, best)
          && (forall k :: 0 <= k < j && HasCpu(cpus, k) ==> row[best] <= row[k])
          && (forall k :: 0 <= k < best && HasCpu(cpus, k) ==> row[best] < row[k])
      {
        if isCpu[j] && cmin > row[j] {
          cmin := row[j];
          r := toCpu[j];
          best := j;
        }
        j := j + 1;
      }
    }

    /** init_closest_cpu_node_for_pmem_list_kernel(): does nothing once the
        table is built, or when its scratch arrays cannot be allocated
        (`allocOk` false). Otherwise a non-PMEM node gets -1, a PMEM node
        the CPU of its first closest CPU node (keeping its old entry when no
        CPU node is nearer than the ceiling), and the table is marked
        built. */
    method Init(isPmem: seq<bool>, cpus: seq<Cpu>, dist: seq<seq<int>>, allocOk: bool)
      requires |isPmem| == |dist| == nodes == closest.Length
      requires forall i :: 0 <= i < |dist| ==> |dist[i]| == nodes
      modifies this, closest
      ensures old(initialized) || !allocOk ==> initialized == old(initialized) && closest[..] == old(closest[..])
      ensures !old(initialized) && allocOk ==> initialized
      ensures !old(initialized) && allocOk ==>
        forall i :: 0 <= i < nodes ==> Paired(isPmem[i], dist[i], cpus, old(closest[i]), closest[i])
      ensures old(Built(isPmem, cpus, dist)) ==> Built(isPmem, cpus, dist)
    {
      if initialized || !allocOk {
        return;
      }
      var isCpu, toCpu := ScanCpus(nodes, cpus);
      ghost var before := closest[..];
      var i := 0;
      while i < nodes
        invariant 0 <= i <= nodes
        invariant forall x :: 0 <= x < nodes ==> toCpu[x] == NodeCpu(cpus, x) && (isCpu[x] <==> HasCpu(cpus, x))
        invariant forall k :: i <= k < nodes ==> closest[k] == before[k]
        invariant forall k :: 0 <= k < i ==> Paired(isPmem[k], dist[k], cpus, before[k], closest[k])
      {
        if !isPmem[i] {
          closest[i] := -1;
        } else {
          closest[i] := NearestCpu(dist[i], cpus, isCpu, toCpu, closest[i]);
        }
        i := i + 1;
      }
      initialized := true;
    }

    /** get_nearest_cpu_node(): build the table if need be, then look the
        node up; -1 while the table is not built or for a node outside it. */
    method NearestCpuNode(node: int, isPmem: seq<bool>, cpus: seq<Cpu>, dist: seq<seq<int>>, allocOk: bool)
      returns (r: int)
      requires |isPmem| == |dist| == nodes == closest.Length
      requires forall i :: 0 <= i < |dist| ==> |dist[i]| == nodes
      requires Built(isPmem, cpus, dist)
      modifies this, closest
      ensures Built(isPmem, cpus, dist)
      ensures initialized == (old(initialized) || allocOk)
      ensures old(initialized) ==> closest[..] == old(closest[..])
      ensures !initialized || node < 0 || node >= nodes ==> r == -1
      ensures initialized && 0 <= node < nodes ==> r == closest[node]
      ensures initialized && 0 <= node < nodes ==> Paired(isPmem[node], dist[node], cpus, 0, r)
    {
      Init(isPmem, cpus, dist, allocOk);
      if !initialized || node < 0 || node >= nodes {
        return -1;
      }
      return closest[node];
    }
  }
}
