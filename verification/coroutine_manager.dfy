/** `coroutine_mamanger<container_stl_map<standard_int_key_allocator<K>>>` (coroutine_manager.h):
    coroutine nodes owned by an ordered map from key to node, keys drawn from the shared key
    counter until an unused one comes up.

    A node's coroutine is modelled by the current `CoroutineContext`; the node runner classes and
    the legacy base context they were written against are not part of this model. */
module CoroutineManager {
  import opened CoppErrors
  import opened CoroutineContextH
  import opened CoroutineContext
  import opened StandardIntKeyAllocator

  /** `coroutine_manager_node`: a coroutine context that knows its key. */
  class CoroutineNode {
    const key: nat
    const ctx: CoroutineContext

    constructor(key: nat)
      ensures this.key == key && fresh(ctx) && ctx.Valid() && ctx.status == Invalid
    {
      this.key := key;
      ctx := new CoroutineContext();
    }
  }

  /** `container_stl_map`: the `std::map<key, unique_ptr<node>>` data layer. */
  class ContainerStlMap {
    var data: map<nat, CoroutineNode>

    constructor()
      ensures data == map[]
    {
      data := map[];
    }

    /** `insert`: refuses a null node and a key that is already present. */
    method Insert(key: nat, node: CoroutineNode?) returns (ok: bool)
      modifies this
      ensures ok <==> node != null && key !in old(data)
      ensures ok ==> data == old(data)[key := node]
      ensures !ok ==> data == old(data)
    {
      if node == null || key in data {
        return false;
      }
      data := data[key := node];
      return true;
    }

    /** `find`: the node under `key`, null when absent. */
    function Find(key: nat): (r: CoroutineNode?)
      reads this
      ensures r == null <==> key !in data
      ensures r != null ==> r == data[key]
    {
      if key in data then data[key] else null
    }

    /** `remove`: erases the key, whether present or not. */
    method Remove(key: nat)
      modifies this
      ensures data == old(data) - {key}
      ensures key !in data && |data| == if key in old(data) then |old(data)| - 1 else |old(data)|
    {
      data := data - {key};
    }

    /** `size`. */
    function Size(): nat
      reads this
    {
      |data|
    }
  }

  class Manager {
    const container: ContainerStlMap
    /** The function-static counter of the key allocator. */
    const keys: KeyCounter

    /** Every node is stored under its own key and has a consistent context. */
    predicate Valid()
      reads this, container, keys, set k | k in container.data :: container.data[k].ctx
    {
      keys.Valid()
      && (forall k :: k in container.data ==> container.data[k].key == k)
      && (forall k :: k in container.data ==> container.data[k].ctx.Valid())
    }

    constructor(keys: KeyCounter)
      requires keys.Valid()
      ensures Valid() && this.keys == keys && fresh(container) && container.data == map[]
    {
      this.keys := keys;
      container := new ContainerStlMap();
    }

    /** `create`: draws keys until one is not in use, then inserts a new node under it. The
        loop needs a free key among the next `modulus - 1` draws, hence the bound on the
        number of live nodes. */
    method Create() returns (node: CoroutineNode?)
      requires Valid()
      requires |container.data| < keys.modulus - 1
      modifies container, keys
      ensures Valid()
      ensures node != null && fresh(node)
      ensures node.key != NPOS && node.key !in old(container.data)
      ensures container.data == old(container.data)[node.key := node]
    {
      var key := DrawFreeKey(keys, container.data.Keys);
      node := new CoroutineNode(key);
      var ok := container.Insert(key, node);
      assert ok;
    }

    /** `remove`: erases the node and gives its key back to the allocator. */
    method Remove(key: nat)
      requires Valid()
      modifies container
      ensures Valid()
      ensures container.data == old(container.data) - {key}
    {
      container.Remove(key);
      keys.Deallocate(key);
    }

    /** `get_by_key`. */
    function GetByKey(key: nat): (r: CoroutineNode?)
      requires Valid()
      reads this, container, keys, set k | k in container.data :: container.data[k].ctx
      ensures r == null <==> key !in container.data
      ensures r != null ==> r.key == key
    {
      container.Find(key)
    }

    /** `size`. */
    function Size(): nat
      reads this, container
    {
      container.Size()
    }

    /** `start`: an unknown key is `COPP_EC_COROUTINE_NOT_FOUND`; otherwise the node's coroutine
        is started, with `outcome` standing for what its body does. */
    method Start(key: nat, outcome: RunOutcome) returns (r: int)
      requires Valid()
      modifies if key in container.data then {container.data[key].ctx} else {}
      ensures Valid()
      ensures key !in container.data ==> r == COPP_EC_COROUTINE_NOT_FOUND
      ensures key in container.data ==>
        var c := container.data[key].ctx;
        r == StartCode(old(c.callee), old(c.status))
        && c.status == StatusAfterStart(old(c.callee), old(c.status), outcome)
        && (r == COPP_EC_SUCCESS && outcome.Returned? ==> c.runnerRetCode == outcome.code)
        && (r != COPP_EC_SUCCESS ==> c.runnerRetCode == old(c.runnerRetCode))
    {
      var co := container.Find(key);
      if co == null {
        return COPP_EC_COROUTINE_NOT_FOUND;
      }
      r := co.ctx.Start(outcome);
    }

    /** `resume`: as `start`, through the node's `resume`. */
    method Resume(key: nat, outcome: RunOutcome) returns (r: int)
      requires Valid()
      modifies if key in container.data then {container.data[key].ctx} else {}
      ensures Valid()
      ensures key !in container.data ==> r == COPP_EC_COROUTINE_NOT_FOUND
      ensures key in container.data ==>
        var c := container.data[key].ctx;
        r == StartCode(old(c.callee), old(c.status))
        && c.status == StatusAfterStart(old(c.callee), old(c.status), outcome)
        && (r == COPP_EC_SUCCESS && outcome.Returned? ==> c.runnerRetCode == outcome.code)
        && (r != COPP_EC_SUCCESS ==> c.runnerRetCode == old(c.runnerRetCode))
    {
      var co := container.Find(key);
      if co == null {
        return COPP_EC_COROUTINE_NOT_FOUND;
      }
      r := co.ctx.Resume(outcome);
    }
  }

  /** The draw loop of `create`: keys come from the counter until one outside `used` comes up,
      which happens within `modulus - 1` draws when fewer keys than that are in use. */
  method DrawFreeKey(keys: KeyCounter, used: set<nat>) returns (key: nat)
    requires keys.Valid() && |used| < keys.modulus - 1
    modifies keys
    ensures keys.Valid() && key == keys.idS
    ensures key != NPOS && key !in used
  {
    ghost var s0 := keys.idS;
    key := keys.Allocate();
    ghost var n: nat := 1;
    ghost var tried: set<nat> := {};
    while key in used
      invariant keys.Valid()
      invariant key == keys.idS == KeyAfter(s0, n, keys.modulus) && n >= 1
      invariant tried <= used && |tried| == n - 1
      invariant forall k :: k in tried ==> exists i :: 1 <= i < n && k == KeyAfter(s0, i, keys.modulus)
      decreases |used| - |tried|
    {
      FreshDrawNotTried(tried, used, s0, n, keys.modulus);
      tried := tried + {key};
      LemmaSubsetCard(tried, used);
      key := keys.Allocate();
      n := n + 1;
    }
  }

  /** While fewer keys are in use than the key type has non-npos values, the `n`-th draw differs
      from every earlier draw, so the set of tried keys grows. */
  lemma FreshDrawNotTried(tried: set<nat>, used: set<nat>, s0: nat, n: nat, modulus: nat)
    requires modulus >= 2 && s0 < modulus && n >= 1
    requires tried <= used && |tried| == n - 1 && |used| < modulus - 1
    requires forall k :: k in tried ==> exists i :: 1 <= i < n && k == KeyAfter(s0, i, modulus)
    ensures KeyAfter(s0, n, modulus) !in tried
    ensures |tried + {KeyAfter(s0, n, modulus)}| == n
  {
    LemmaSubsetCard(tried, used);
    var key := KeyAfter(s0, n, modulus);
    forall k | k in tried
      ensures k != key
    {
      var i :| 1 <= i < n && k == KeyAfter(s0, i, modulus);
      KeysDistinctWithinCycle(s0, i, n, modulus);
    }
  }

  /** A subset has at most as many elements as its superset. */
  lemma {:induction false} LemmaSubsetCard<T>(a: set<T>, b: set<T>)
    requires a <= b
    ensures |a| <= |b|
    decreases a
  {
    if a != {} {
      var x :| x in a;
      LemmaSubsetCard(a - {x}, b - {x});
    }
  }

  /** The manager test: two creations give two distinct keys and a size of 2, and removing one
      leaves 1. */
  method TwoNodesThenRemove() returns (sizeAfterCreate: nat, sizeAfterRemove: nat)
    ensures sizeAfterCreate == 2 && sizeAfterRemove == 1
  {
    var keys := new KeyCounter(0x1_0000_0000_0000_0000);
    var mgr := new Manager(keys);
    var a := mgr.Create();
    var b := mgr.Create();
    sizeAfterCreate := mgr.Size();
    mgr.Remove(a.key);
    sizeAfterRemove := mgr.Size();
  }
}
