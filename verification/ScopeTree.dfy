/**
  Scope parents (scope/scope.go): parent pointers on the heap, written under a cycle check, and
  the walks to the root that rely on them.
*/
module ScopeTree {
  import opened Outcomes

  datatype ScopeError = NilScope | AlreadyBound | ParentCycle

  // ---------------------------------------------------------------------------------------------
  // Forests and their chains

  /**
    chains gives every key its way to the root: the key itself, then the chain of its parent.
    None stands for a root. Such a map exists only for acyclic links.
  */
  ghost predicate Chained<K>(parents: map<K, Option<K>>, chains: map<K, seq<K>>) {
    && chains.Keys == parents.Keys
    && forall k <- parents ::
         if parents[k].None? then chains[k] == [k]
         else parents[k].value in parents && chains[k] == [k] + chains[parents[k].value]
  }

  ghost predicate NoRepeats<K>(chain: seq<K>) {
    forall i, j :: 0 <= i < j < |chain| ==> chain[i] != chain[j]
  }

  /** Every suffix of a chain is the chain of the key it starts with. */
  lemma {:induction false} SuffixIsChain<K>(parents: map<K, Option<K>>, chains: map<K, seq<K>>, k: K, i: nat)
    requires Chained(parents, chains) && k in chains && i < |chains[k]|
    ensures chains[k][i] in chains && chains[chains[k][i]] == chains[k][i..]
    decreases i
  {
    if i == 0 {
      assert chains[k][0..] == chains[k];
    } else {
      var p := parents[k].value;
      assert chains[k][1..] == chains[p];
      SuffixIsChain(parents, chains, p, i - 1);
      assert chains[k][i..] == chains[p][i - 1..];
    }
  }

  /** Walking up never meets a key twice. */
  lemma ChainsNeverRepeat<K>(parents: map<K, Option<K>>, chains: map<K, seq<K>>, k: K)
    requires Chained(parents, chains) && k in chains
    ensures NoRepeats(chains[k])
  {
    forall i, j | 0 <= i < j < |chains[k]| ensures chains[k][i] != chains[k][j] {
      SuffixIsChain(parents, chains, k, i);
      SuffixIsChain(parents, chains, k, j);
      assert |chains[k][i..]| != |chains[k][j..]|;
    }
  }

  /** The links alone determine the chains. */
  lemma {:induction false} ChainsAreUnique<K>(parents: map<K, Option<K>>, a: map<K, seq<K>>, b: map<K, seq<K>>, k: K)
    requires Chained(parents, a) && Chained(parents, b) && k in parents
    ensures a[k] == b[k]
    decreases |a[k]|
  {
    if parents[k].Some? {
      ChainsAreUnique(parents, a, b, parents[k].value);
    }
  }

  /** The chains after hanging key under parent: whatever passed through key now goes on along parent's chain. */
  ghost function Relinked<K>(chains: map<K, seq<K>>, key: K, parent: K): map<K, seq<K>>
    requires parent in chains
  {
    map k | k in chains :: if key in chains[k] then UpTo(chains[k], key) + chains[parent] else chains[k]
  }

  function UpTo<K(==)>(chain: seq<K>, key: K): (prefix: seq<K>)
    requires key in chain
    ensures prefix != [] && prefix[|prefix| - 1] == key
  {
    if chain[0] == key then [key] else [chain[0]] + UpTo(chain[1..], key)
  }

  lemma RelinkKeepsChains<K>(parents: map<K, Option<K>>, chains: map<K, seq<K>>, key: K, parent: K)
    requires Chained(parents, chains) && key in chains && parent in chains && key !in chains[parent]
    ensures Chained(parents[key := Some(parent)], Relinked(chains, key, parent))
    ensures Relinked(chains, key, parent)[key] == [key] + chains[parent]
  {
    assert chains[key][0] == key;
    forall k <- parents ensures RelinkedStep(parents, chains, key, parent, k) {
      RelinkOne(parents, chains, key, parent, k);
    }
    hide Relinked, UpTo;
  }

  /** The chain equation at one key after relinking. */
  ghost predicate RelinkedStep<K>(parents: map<K, Option<K>>, chains: map<K, seq<K>>, key: K, parent: K, k: K)
    requires Chained(parents, chains) && key in chains && parent in chains && k in parents
  {
    var after := Relinked(chains, key, parent);
    if k == key then after[k] == [k] + after[parent] && after[parent] == chains[parent]
    else if parents[k].None? then after[k] == [k]
    else after[k] == [k] + after[parents[k].value]
  }

  lemma RelinkOne<K>(parents: map<K, Option<K>>, chains: map<K, seq<K>>, key: K, parent: K, k: K)
    requires Chained(parents, chains) && key in chains && parent in chains && key !in chains[parent] && k in parents
    ensures RelinkedStep(parents, chains, key, parent, k)
  {
    if k == key {
      assert chains[key][0] == key;
      assert UpTo(chains[key], key) == [key];
    } else if parents[k].Some? {
      UpToCons(k, chains[parents[k].value], key);
      if key in chains[parents[k].value] {
        Regroup([k], UpTo(chains[parents[k].value], key), chains[parent]);
      }
    }
  }

  lemma UpToCons<K>(head: K, rest: seq<K>, key: K)
    requires head != key
    ensures key in [head] + rest <==> key in rest
    ensures key in rest ==> UpTo([head] + rest, key) == [head] + UpTo(rest, key)
  {
    assert ([head] + rest)[1..] == rest;
  }

  lemma Regroup<K>(a: seq<K>, b: seq<K>, c: seq<K>)
    ensures a + b + c == a + (b + c)
  {
  }

  /** The cycle check refuses nothing it could have allowed: such a link leaves no chains at all. */
  lemma CyclicLinkHasNoChains<K>(parents: map<K, Option<K>>, chains: map<K, seq<K>>, key: K, parent: K,
                                 claimed: map<K, seq<K>>)
    requires Chained(parents, chains) && key in chains && parent in chains && key in chains[parent]
    ensures !Chained(parents[key := Some(parent)], claimed)
  {
    var i :| 0 <= i < |chains[parent]| && chains[parent][i] == key;
    if Chained(parents[key := Some(parent)], claimed) {
      LongerThan(parents, chains, parents[key := Some(parent)], claimed, key, parent, i);
    }
  }

  lemma {:induction false} LongerThan<K>(parents: map<K, Option<K>>, chains: map<K, seq<K>>,
                                         parents': map<K, Option<K>>, chains': map<K, seq<K>>, key: K, from: K, i: nat)
    requires Chained(parents, chains) && Chained(parents', chains') && from in chains && key in parents
    requires parents'.Keys == parents.Keys && forall k <- parents :: k != key ==> parents'[k] == parents[k]
    requires i < |chains[from]| && chains[from][i] == key
    ensures from in chains' && key in chains' && |chains'[from]| >= |chains'[key]|
    decreases i
  {
    if from != key {
      assert i > 0;
      assert chains[from][1..] == chains[parents[from].value];
      LongerThan(parents, chains, parents', chains', key, parents[from].value, i - 1);
    }
  }

  lemma NothingRepeats<K>()
    ensures NoRepeats<K>([])
  {
  }

  /** One call: a first binding, or a move by the holder of the binding. */
  datatype LinkOp<K> = Bind(key: K, parent: K) | Move(key: K, parent: K)

  /** The links and chains after a call, refused or not. */
  ghost function Linked<K>(parents: map<K, Option<K>>, chains: map<K, seq<K>>, op: LinkOp<K>)
    : (map<K, Option<K>>, map<K, seq<K>>)
    requires chains.Keys == parents.Keys
  {
    if op.key !in parents || op.parent !in parents || (op.Bind? && parents[op.key].Some?) || op.key in chains[op.parent]
    then (parents, chains)
    else (parents[op.key := Some(op.parent)], Relinked(chains, op.key, op.parent))
  }

  /** Any history of calls over a fixed set of keys. */
  ghost function LinkedAll<K>(parents: map<K, Option<K>>, chains: map<K, seq<K>>, ops: seq<LinkOp<K>>)
    : (r: (map<K, Option<K>>, map<K, seq<K>>))
    requires chains.Keys == parents.Keys
    ensures r.0.Keys == r.1.Keys == parents.Keys
  {
    if ops == [] then (parents, chains)
    else
      var next := Linked(parents, chains, ops[0]);
      LinkedAll(next.0, next.1, ops[1..])
  }

  /**
    After any sequence of bindings and moves, successful or refused, the links still form a forest:
    every key has a chain to a root, and no chain repeats a key.
  */
  lemma {:induction false} ParentsStayAForest<K>(parents: map<K, Option<K>>, chains: map<K, seq<K>>, ops: seq<LinkOp<K>>)
    requires Chained(parents, chains)
    ensures var end := LinkedAll(parents, chains, ops);
            Chained(end.0, end.1) && forall k <- parents :: NoRepeats(end.1[k])
    decreases |ops|
  {
    if ops == [] {
      forall k <- parents ensures NoRepeats(chains[k]) {
        ChainsNeverRepeat(parents, chains, k);
      }
    } else {
      var next := Linked(parents, chains, ops[0]);
      assert Chained(next.0, next.1) by {
        if next != (parents, chains) {
          RelinkKeepsChains(parents, chains, ops[0].key, ops[0].parent);
        }
      }
      ParentsStayAForest(next.0, next.1, ops[1..]);
    }
  }

  // ---------------------------------------------------------------------------------------------
  // The heap

  /** An opaque identity, compared by reference. */
  class Key {
    const name: string
    var parent: Key?

    constructor (name: string)
      ensures this.name == name && parent == null
    {
      this.name := name;
      parent := null;
    }
  }

  /** The privileged handle that may move one key. */
  class ParentBinding {
    const key: Key

    constructor (key: Key)
      ensures this.key == key
    {
      this.key := key;
    }
  }

  /** All keys there are; the ghost state records the chains their links make. */
  class Forest {
    ghost var keys: set<Key>
    ghost var chains: map<Key, seq<Key>>

    ghost function Parents(): map<Key, Option<Key>>
      reads this, keys
    {
      map k | k in keys :: if k.parent == null then None else Some(k.parent)
    }

    ghost predicate Valid()
      reads this, keys
    {
      Chained(Parents(), chains)
    }

    /** What is left of a walk that has come to the cursor. */
    ghost function Rest(cursor: Key?): seq<Key>
      reads this
    {
      if cursor == null || cursor !in chains then [] else chains[cursor]
    }

    lemma Up(cursor: Key)
      requires Valid() && cursor in keys
      ensures cursor.parent != null ==> cursor.parent in keys
      ensures Rest(cursor) == [cursor] + Rest(cursor.parent)
    {
      assert cursor in Parents();
    }

    lemma Known(key: Key)
      requires Valid() && key in keys
      ensures key in chains && Rest(key) == chains[key]
    {
      assert key in Parents();
    }

    constructor ()
      ensures Valid() && keys == {}
    {
      keys := {};
      chains := map[];
    }

    method NewKey(name: string) returns (key: Key)
      requires Valid()
      modifies this
      ensures Valid() && fresh(key) && key.parent == null
      ensures keys == old(keys) + {key} && chains == old(chains)[key := [key]]
    {
      ghost var parents := Parents();
      key := new Key(name);
      keys := keys + {key};
      chains := chains[key := [key]];
      assert Parents() == parents[key := None];
    }

    /** linkParent: walk up from the new parent; refuse if the walk meets the key. */
    method LinkParent(key: Key, parent: Key) returns (r: Option<ScopeError>)
      requires Valid() && key in keys && parent in keys
      modifies this`chains, key`parent
      ensures Valid()
      ensures r == if key in old(chains)[parent] then Some(ParentCycle) else None
      ensures r.Some? ==> key.parent == old(key.parent) && chains == old(chains)
      ensures r.None? ==> key.parent == parent && chains == Relinked<Key>(old(chains), key, parent)
    {
      hide Chained, Relinked;
      Known(key);
      Known(parent);
      var met := Walk(parent, key);
      if met {
        return Some(ParentCycle);
      }
      RelinkKeepsChains(Parents(), chains, key, parent);
      ghost var parents := Parents();
      chains := Relinked<Key>(chains, key, parent);
      key.parent := parent;
      assert Parents() == parents[key := Some(parent)];
      return None;
    }

    /** The walk to the root that the cycle check and Admits share: does it meet the sought key? */
    method Walk(from: Key?, sought: Key) returns (met: bool)
      requires Valid() && (from != null ==> from in keys)
      ensures met <==> sought in Rest(from)
    {
      hide Chained;
      var cursor := from;
      ghost var walked: seq<Key> := [];
      while cursor != null
        invariant cursor != null ==> cursor in keys
        invariant Rest(from) == walked + Rest(cursor)
        invariant sought !in walked
        decreases if cursor == null then 0 else 1, |Rest(cursor)|
      {
        Up(cursor);
        if cursor == sought {
          assert sought in [cursor] + Rest(cursor.parent);
          return true;
        }
        Regroup(walked, [cursor], Rest(cursor.parent));
        walked := walked + [cursor];
        cursor := cursor.parent;
      }
      return false;
    }

    /** BindParent: once per key. */
    method BindParent(key: Key?, parent: Key?) returns (r: Result<ParentBinding, ScopeError>)
      requires Valid() && (key != null ==> key in keys) && (parent != null ==> parent in keys)
      modifies this`chains, if key == null then {} else {key}
      ensures Valid()
      ensures r.Err? && r.error == NilScope <==> key == null || parent == null
      ensures r.Err? && r.error == AlreadyBound <==> key != null && parent != null && old(key.parent) != null
      ensures r.Err? && r.error == ParentCycle <==>
        key != null && parent != null && old(key.parent) == null && key in old(chains)[parent]
      ensures r.Err? ==> chains == old(chains) && (key != null ==> key.parent == old(key.parent))
      ensures r.Ok? ==> r.value.key == key && fresh(r.value) && key.parent == parent
                        && chains == Relinked<Key>(old(chains), key, parent)
    {
      if key == null || parent == null {
        return Err(NilScope);
      }
      if key.parent != null {
        return Err(AlreadyBound);
      }
      var refused := LinkParent(key, parent);
      if refused.Some? {
        return Err(refused.value);
      }
      var binding := new ParentBinding(key);
      return Ok(binding);
    }

    /** Rebind: with the handle a key may move, under the same cycle check. */
    method Rebind(binding: ParentBinding?, parent: Key?) returns (r: Option<ScopeError>)
      requires Valid() && (binding != null ==> binding.key in keys) && (parent != null ==> parent in keys)
      modifies this`chains, if binding == null then {} else {binding.key}
      ensures Valid()
      ensures r == if binding == null || parent == null then Some(NilScope)
                   else if binding.key in old(chains)[parent] then Some(ParentCycle) else None
      ensures r.Some? ==> chains == old(chains) && (binding != null ==> binding.key.parent == old(binding.key.parent))
      ensures r.None? ==> binding.key.parent == parent && chains == Relinked<Key>(old(chains), binding.key, parent)
    {
      if binding == null || parent == null {
        return Some(NilScope);
      }
      r := LinkParent(binding.key, parent);
    }

    /** ChainOf: nearest first; nil has the empty chain. */
    method ChainOf(key: Key?) returns (chain: seq<Key>)
      requires Valid() && (key != null ==> key in keys)
      ensures chain == if key == null then [] else chains[key]
      ensures NoRepeats<Key>(chain)
    {
      hide Chained, NoRepeats;
      chain := [];
      var cursor := key;
      while cursor != null
        invariant cursor != null ==> cursor in keys
        invariant Rest(key) == chain + Rest(cursor)
        decreases if cursor == null then 0 else 1, |Rest(cursor)|
      {
        Up(cursor);
        Regroup(chain, [cursor], Rest(cursor.parent));
        chain := chain + [cursor];
        cursor := cursor.parent;
      }
      if key != null {
        Known(key);
        ChainsNeverRepeat<Key>(Parents(), chains, key);
      } else {
        NothingRepeats<Key>();
      }
    }

    /** Admits: untagged listeners hear everything, tagged ones their own key and everything below it. */
    method Admits(listenerTag: Key?, dispatchKey: Key?) returns (admitted: bool)
      requires Valid() && (dispatchKey != null ==> dispatchKey in keys)
      ensures admitted <==> listenerTag == null || (dispatchKey != null && listenerTag in chains[dispatchKey])
    {
      if listenerTag == null {
        return true;
      }
      hide Chained;
      admitted := Walk(dispatchKey, listenerTag);
      if dispatchKey != null {
        Known(dispatchKey);
      }
    }
  }
}
