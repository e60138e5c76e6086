// What a get returns, stated against the logical value of every key under acyclic remappings.
module BoardLemmas {
  import opened Wrappers
  import opened NodeStatuses
  import opened NodeDatas
  import opened BoardSpec

  /** srank orders the node memories so that every remapping pulls from a lower-ranked node. */
  ghost predicate Ranked(b: Board, srank: Scope -> nat)
  {
    forall s, i | s in b.remaps && 0 <= i < |b.remaps[s]| && b.remaps[s][i].fromScope.Some? ::
      srank(b.remaps[s][i].fromScope.value) < srank(s)
  }

  /** The value node s holds locally for key k, if any. */
  ghost function Local(b: Board, s: Scope, k: Key): Option<Value>
  {
    if s in b.data && k in b.data[s] then Some(b.data[s][k]) else None
  }

  /** The position of the remapping whose target is k. */
  function Find(rs: seq<Remap>, k: Key): (r: Option<nat>)
    ensures r.Some? ==> r.value < |rs| && rs[r.value].toKey == k
    ensures r.None? ==> forall i | 0 <= i < |rs| :: rs[i].toKey != k
  {
    if |rs| == 0 then None
    else if rs[0].toKey == k then Some(0)
    else match Find(rs[1..], k)
      case None => None
      case Some(j) => Some(j + 1)
  }

  lemma FindUnique(rs: seq<Remap>, i: nat)
    requires UniqueTargets(rs) && i < |rs|
    ensures Find(rs, rs[i].toKey) == Some(i)
  {
  }

  /** The value the i-th remapping of node s pulls from its source, if the pull succeeds. */
  ghost function Pulled(b: Board, s: Scope, i: nat, srank: Scope -> nat): Option<Value>
    requires Consistent(b) && Ranked(b, srank) && s in b.remaps && i < |b.remaps[s]|
    decreases srank(s), 0
  {
    var r := b.remaps[s][i];
    match r.fromScope
    case None => if r.fromKey in b.base then Some(b.base[r.fromKey]) else None
    case Some(s1) => if Plain(r.fromKey) then Resolve(b, s1, r.fromKey, srank) else None
  }

  /**
   * The logical value of key k of node s: a remapped key takes its source's
   * value when the pull succeeds, and otherwise the key keeps its local value.
   */
  ghost function Resolve(b: Board, s: Scope, k: Key, srank: Scope -> nat): Option<Value>
    requires Consistent(b) && Ranked(b, srank)
    decreases srank(s), 1
  {
    if s !in b.data then None
    else match Find(b.remaps[s], k)
      case None => Local(b, s, k)
      case Some(i) =>
        var p := Pulled(b, s, i, srank);
        if p.Some? then p else Local(b, s, k)
  }

  /** What item access of key k returns on node data whose value for k is o. */
  function AsRead(o: Option<Value>, k: Key): Result<Value>
  {
    if |k| == 0 then Err(IndexError)
    else if k[0] == '_' then Err(AttributeError)
    else if o.Some? then Ok(o.value)
    else Err(KeyError)
  }

  ghost predicate SameResolve(b: Board, r: Board, srank: Scope -> nat)
    requires Consistent(b) && Ranked(b, srank) && Consistent(r) && Ranked(r, srank)
  {
    forall x, k :: Resolve(r, x, k, srank) == Resolve(b, x, k, srank)
  }

  lemma ExtendsRanked(b: Board, r: Board, srank: Scope -> nat)
    requires Ranked(b, srank) && Extends(b, r)
    ensures Ranked(r, srank)
  {
    forall s, i | s in r.remaps && 0 <= i < |r.remaps[s]| && r.remaps[s][i].fromScope.Some?
      ensures srank(r.remaps[s][i].fromScope.value) < srank(s)
    {
      assert s in b.remaps;
    }
  }

  /** Creating an empty node memory changes no logical value. */
  lemma {:induction false} FreshAt(b: Board, s: Scope, srank: Scope -> nat, x: Scope, k: Key)
    requires Consistent(b) && Ranked(b, srank) && s !in b.data
    ensures Consistent(NodeMemory(b, s)) && Ranked(NodeMemory(b, s), srank)
    ensures Resolve(NodeMemory(b, s), x, k, srank) == Resolve(b, x, k, srank)
    decreases srank(x)
  {
    var b1 := NodeMemory(b, s);
    ExtendsRanked(b, b1, srank);
    if x in b.data {
      match Find(b.remaps[x], k)
      case None =>
      case Some(i) =>
        var r := b.remaps[x][i];
        if r.fromScope.Some? {
          FreshAt(b, s, srank, r.fromScope.value, r.fromKey);
        }
        assert Pulled(b1, x, i, srank) == Pulled(b, x, i, srank);
    }
  }

  lemma NodeMemoryKeeps(b: Board, s: Scope, srank: Scope -> nat)
    requires Consistent(b) && Ranked(b, srank)
    ensures Ranked(NodeMemory(b, s), srank) && SameResolve(b, NodeMemory(b, s), srank)
  {
    ExtendsRanked(b, NodeMemory(b, s), srank);
    if s !in b.data {
      forall x, k ensures Resolve(NodeMemory(b, s), x, k, srank) == Resolve(b, x, k, srank) {
        FreshAt(b, s, srank, x, k);
      }
    }
  }

  /** The board with value v stored under key k of node s. */
  function Write(b: Board, s: Scope, k: Key, v: Value): Board
    requires s in b.data
  {
    b.(data := b.data[s := b.data[s][k := v]])
  }

  /** Storing the value a remapped key successfully pulls changes no logical value. */
  lemma {:induction false} WriteAt(b: Board, s: Scope, i: nat, v: Value, srank: Scope -> nat, x: Scope, k: Key)
    requires Consistent(b) && Ranked(b, srank) && s in b.data && i < |b.remaps[s]|
    requires Pulled(b, s, i, srank) == Some(v)
    ensures Consistent(Write(b, s, b.remaps[s][i].toKey, v))
    ensures Ranked(Write(b, s, b.remaps[s][i].toKey, v), srank)
    ensures Resolve(Write(b, s, b.remaps[s][i].toKey, v), x, k, srank) == Resolve(b, x, k, srank)
    decreases srank(x)
  {
    var b1 := Write(b, s, b.remaps[s][i].toKey, v);
    if x in b.data {
      match Find(b.remaps[x], k)
      case None =>
      case Some(j) =>
        var r := b.remaps[x][j];
        if r.fromScope.Some? {
          WriteAt(b, s, i, v, srank, r.fromScope.value, r.fromKey);
        }
        assert Pulled(b1, x, j, srank) == Pulled(b, x, j, srank);
        if x == s && k == b.remaps[s][i].toKey {
          assert j == i;
        }
    }
  }

  /** Storing into a node changes no logical value of a lower-ranked node. */
  lemma {:induction false} WriteAbove(b: Board, s: Scope, k0: Key, v: Value, srank: Scope -> nat, x: Scope, k: Key)
    requires Consistent(b) && Ranked(b, srank) && s in b.data && srank(x) < srank(s)
    ensures Consistent(Write(b, s, k0, v)) && Ranked(Write(b, s, k0, v), srank)
    ensures Resolve(Write(b, s, k0, v), x, k, srank) == Resolve(b, x, k, srank)
    decreases srank(x)
  {
    var b1 := Write(b, s, k0, v);
    if x in b.data {
      match Find(b.remaps[x], k)
      case None =>
      case Some(j) =>
        var r := b.remaps[x][j];
        if r.fromScope.Some? {
          WriteAbove(b, s, k0, v, srank, r.fromScope.value, r.fromKey);
        }
        assert Pulled(b1, x, j, srank) == Pulled(b, x, j, srank);
    }
  }

  function Prefix(rs: seq<Remap>, i: nat): set<Key>
    requires i <= |rs|
  {
    set j | 0 <= j < i :: rs[j].toKey
  }

  /**
   * Materializing node s leaves every logical value as it was, makes the
   * node data of s hold exactly the logical values of s, and touches no
   * node data of a higher-ranked node.
   */
  lemma {:induction false} MaterializeResolves(b: Board, s: Scope, fuel: nat, srank: Scope -> nat)
    requires Consistent(b) && Ranked(b, srank) && srank(s) <= fuel
    ensures Ranked(Materialize(b, s, fuel), srank)
    ensures SameResolve(b, Materialize(b, s, fuel), srank)
    ensures forall k :: Local(Materialize(b, s, fuel), s, k) == Resolve(b, s, k, srank)
    ensures forall y | y in b.data && srank(y) > srank(s) :: Materialize(b, s, fuel).data[y] == b.data[y]
    decreases fuel, 2
  {
    var b1 := NodeMemory(b, s);
    NodeMemoryKeeps(b, s, srank);
    var rs := b1.remaps[s];
    assert Prefix(rs, 0) == {};
    PullResolves(b1, b1, s, rs, 0, fuel, srank);
    var r := Pull(b1, s, rs, 0, fuel);
    forall k ensures Local(r, s, k) == Resolve(b, s, k, srank) {
      if k !in Prefix(rs, |rs|) {
        assert Find(rs, k).None?;
      }
    }
  }

  lemma {:induction false} PullResolves(b0: Board, b: Board, s: Scope, rs: seq<Remap>, i: nat, fuel: nat, srank: Scope -> nat)
    requires Consistent(b0) && Ranked(b0, srank) && s in b0.data && rs == b0.remaps[s]
    requires srank(s) <= fuel && i <= |rs|
    requires Consistent(b) && Ranked(b, srank) && SameResolve(b0, b, srank)
    requires s in b.data && b.remaps[s] == rs && b.base == b0.base
    requires forall k :: Local(b, s, k) == (if k in Prefix(rs, i) then Resolve(b0, s, k, srank) else Local(b0, s, k))
    ensures Ranked(Pull(b, s, rs, i, fuel), srank)
    ensures SameResolve(b0, Pull(b, s, rs, i, fuel), srank)
    ensures forall k :: Local(Pull(b, s, rs, i, fuel), s, k)
                        == (if k in Prefix(rs, |rs|) then Resolve(b0, s, k, srank) else Local(b0, s, k))
    ensures forall y | y in b.data && srank(y) > srank(s) :: Pull(b, s, rs, i, fuel).data[y] == b.data[y]
    decreases fuel, 1, |rs| - i
  {
    if i < |rs| {
      PullOneResolves(b0, b, s, rs, i, fuel, srank);
      PullResolves(b0, PullOne(b, s, rs, i, fuel), s, rs, i + 1, fuel, srank);
    }
  }

  lemma {:induction false} PullOneResolves(b0: Board, b: Board, s: Scope, rs: seq<Remap>, i: nat, fuel: nat, srank: Scope -> nat)
    requires Consistent(b0) && Ranked(b0, srank) && s in b0.data && rs == b0.remaps[s]
    requires srank(s) <= fuel && i < |rs|
    requires Consistent(b) && Ranked(b, srank) && SameResolve(b0, b, srank)
    requires s in b.data && b.remaps[s] == rs && b.base == b0.base
    requires forall k :: Local(b, s, k) == (if k in Prefix(rs, i) then Resolve(b0, s, k, srank) else Local(b0, s, k))
    ensures Ranked(PullOne(b, s, rs, i, fuel), srank)
    ensures SameResolve(b0, PullOne(b, s, rs, i, fuel), srank)
    ensures forall k :: Local(PullOne(b, s, rs, i, fuel), s, k)
                        == (if k in Prefix(rs, i + 1) then Resolve(b0, s, k, srank) else Local(b0, s, k))
    ensures forall y | y in b.data && srank(y) > srank(s) :: PullOne(b, s, rs, i, fuel).data[y] == b.data[y]
    decreases fuel, 1, |rs| - i, 0
  {
    var rm := rs[i];
    var (b1, v) := Lookup(b, rm.fromKey, rm.fromScope, fuel);
    match rm.fromScope {
      case None =>
      case Some(s1) =>
        assert srank(s1) < srank(s);
        LookupResolves(b, rm.fromKey, s1, fuel, srank);
    }
    assert b1.data[s] == b.data[s];
    assert v.Ok? <==> Pulled(b, s, i, srank).Some?;
    assert v.Ok? ==> Pulled(b, s, i, srank) == Some(v.value);
    SameResolveTrans(b0, b, b1, srank);
    if v.Ok? {
      PullStepOk(b0, b, b1, s, i, v.value, srank);
    } else {
      PullStepErr(b0, b, b1, s, i, srank);
    }
  }

  /** A pass of the pull loop whose get succeeded: the target key now holds its logical value. */
  lemma PullStepOk(b0: Board, b: Board, b1: Board, s: Scope, i: nat, v: Value, srank: Scope -> nat)
    requires Consistent(b0) && Ranked(b0, srank) && s in b0.data && i < |b0.remaps[s]|
    requires Consistent(b) && Ranked(b, srank) && SameResolve(b0, b, srank)
    requires s in b.data && b.remaps[s] == b0.remaps[s] && b.base == b0.base
    requires forall k :: Local(b, s, k) == (if k in Prefix(b0.remaps[s], i) then Resolve(b0, s, k, srank) else Local(b0, s, k))
    requires Extends(b, b1) && Ranked(b1, srank) && SameResolve(b0, b1, srank)
    requires b1.data[s] == b.data[s]
    requires Pulled(b, s, i, srank) == Some(v)
    ensures var r := Write(b1, s, b0.remaps[s][i].toKey, v);
      && Consistent(r) && Ranked(r, srank) && SameResolve(b0, r, srank)
      && forall k :: Local(r, s, k) == (if k in Prefix(b0.remaps[s], i + 1) then Resolve(b0, s, k, srank) else Local(b0, s, k))
  {
    var rs := b0.remaps[s];
    var rm := rs[i];
    assert Prefix(rs, i + 1) == Prefix(rs, i) + {rm.toKey};
    PulledSame(b, b1, s, i, srank);
    PullStepWrite(b0, b1, s, i, v, srank);
    var r := Write(b1, s, rm.toKey, v);
    forall k ensures Local(r, s, k) == (if k in Prefix(rs, i + 1) then Resolve(b0, s, k, srank) else Local(b0, s, k)) {
      if k != rm.toKey {
        assert Local(r, s, k) == Local(b, s, k);
      }
    }
  }

  /** A pass of the pull loop whose get failed: the node data of s is left as it was. */
  lemma PullStepErr(b0: Board, b: Board, b1: Board, s: Scope, i: nat, srank: Scope -> nat)
    requires Consistent(b0) && Ranked(b0, srank) && s in b0.data && i < |b0.remaps[s]|
    requires Consistent(b) && Ranked(b, srank) && SameResolve(b0, b, srank)
    requires s in b.data && b.remaps[s] == b0.remaps[s] && b.base == b0.base
    requires forall k :: Local(b, s, k) == (if k in Prefix(b0.remaps[s], i) then Resolve(b0, s, k, srank) else Local(b0, s, k))
    requires s in b1.data && b1.data[s] == b.data[s]
    requires Pulled(b, s, i, srank).None?
    ensures forall k :: Local(b1, s, k) == (if k in Prefix(b0.remaps[s], i + 1) then Resolve(b0, s, k, srank) else Local(b0, s, k))
  {
    var rs := b0.remaps[s];
    var rm := rs[i];
    assert Prefix(rs, i + 1) == Prefix(rs, i) + {rm.toKey};
    FindUnique(rs, i);
    PulledSame(b0, b, s, i, srank);
    forall k ensures Local(b1, s, k) == (if k in Prefix(rs, i + 1) then Resolve(b0, s, k, srank) else Local(b0, s, k)) {
      assert Local(b1, s, k) == Local(b, s, k);
    }
  }

  lemma SameResolveTrans(b0: Board, b: Board, b1: Board, srank: Scope -> nat)
    requires Consistent(b0) && Ranked(b0, srank) && Consistent(b) && Ranked(b, srank) && Consistent(b1) && Ranked(b1, srank)
    requires SameResolve(b0, b, srank) && SameResolve(b, b1, srank)
    ensures SameResolve(b0, b1, srank)
  {
    forall x, k ensures Resolve(b1, x, k, srank) == Resolve(b0, x, k, srank) {
      assert Resolve(b1, x, k, srank) == Resolve(b, x, k, srank);
    }
  }

  /** Storing a successfully pulled value: no logical value changes, and the target key now holds it. */
  lemma PullStepWrite(b0: Board, b1: Board, s: Scope, i: nat, v: Value, srank: Scope -> nat)
    requires Consistent(b0) && Ranked(b0, srank) && s in b0.data && i < |b0.remaps[s]|
    requires Consistent(b1) && Ranked(b1, srank) && SameResolve(b0, b1, srank)
    requires s in b1.data && b1.remaps[s] == b0.remaps[s] && b1.base == b0.base
    requires Pulled(b1, s, i, srank) == Some(v)
    ensures var r := Write(b1, s, b0.remaps[s][i].toKey, v);
      && Consistent(r) && Ranked(r, srank) && SameResolve(b0, r, srank)
      && (forall k | k != b0.remaps[s][i].toKey :: Local(r, s, k) == Local(b1, s, k))
      && Local(r, s, b0.remaps[s][i].toKey) == Resolve(b0, s, b0.remaps[s][i].toKey, srank)
  {
    var rs := b0.remaps[s];
    var r := Write(b1, s, rs[i].toKey, v);
    WriteAt(b1, s, i, v, srank, s, rs[i].toKey);
    forall x, k ensures Resolve(r, x, k, srank) == Resolve(b0, x, k, srank) {
      WriteAt(b1, s, i, v, srank, x, k);
    }
    FindUnique(rs, i);
    assert Resolve(b1, s, rs[i].toKey, srank) == Some(v);
  }

  /** Boards with the same logical values, remappings of s and base memory pull the same values into s. */
  lemma PulledSame(b: Board, r: Board, s: Scope, i: nat, srank: Scope -> nat)
    requires Consistent(b) && Ranked(b, srank) && Consistent(r) && Ranked(r, srank) && SameResolve(b, r, srank)
    requires s in b.data && s in r.data && i < |b.remaps[s]| && r.remaps[s] == b.remaps[s] && r.base == b.base
    ensures Pulled(r, s, i, srank) == Pulled(b, s, i, srank)
  {
    var rm := b.remaps[s][i];
    if rm.fromScope.Some? {
      assert Resolve(r, rm.fromScope.value, rm.fromKey, srank) == Resolve(b, rm.fromScope.value, rm.fromKey, srank);
    }
  }

  lemma {:induction false} LookupResolves(b: Board, k: Key, s1: Scope, fuel: nat, srank: Scope -> nat)
    requires Consistent(b) && Ranked(b, srank) && srank(s1) < fuel
    ensures Ranked(Lookup(b, k, Some(s1), fuel).0, srank)
    ensures SameResolve(b, Lookup(b, k, Some(s1), fuel).0, srank)
    ensures Lookup(b, k, Some(s1), fuel).1 == AsRead(Resolve(b, s1, k, srank), k)
    ensures forall y | y in b.data && srank(y) > srank(s1) :: Lookup(b, k, Some(s1), fuel).0.data[y] == b.data[y]
    decreases fuel, 0
  {
    MaterializeResolves(b, s1, fuel - 1, srank);
    var r := Materialize(b, s1, fuel - 1);
    assert Local(r, s1, k) == Resolve(b, s1, k, srank);
  }

  /** The value the remapping of key k of node s pulls, when k is remapped and the pull succeeds. */
  ghost function Source(b: Board, s: Scope, k: Key, srank: Scope -> nat): Option<Value>
    requires Consistent(b) && Ranked(b, srank)
  {
    if s !in b.data then None
    else match Find(b.remaps[s], k)
      case None => None
      case Some(i) => Pulled(b, s, i, srank)
  }

  /** get in node scope returns the logical value of the key and changes no logical value. */
  lemma GetResolves(b: Board, k: Key, s: Scope, srank: Scope -> nat)
    requires Consistent(b) && Ranked(b, srank) && srank(s) < RecursionLimit
    ensures Ranked(Get(b, k, Some(s)).0, srank) && SameResolve(b, Get(b, k, Some(s)).0, srank)
    ensures Get(b, k, Some(s)).1 == AsRead(Resolve(b, s, k, srank), k)
    ensures Resolve(b, s, k, srank) == (if Source(b, s, k, srank).Some? then Source(b, s, k, srank) else Local(b, s, k))
  {
    LookupResolves(b, k, s, RecursionLimit, srank);
  }

  /** save into base memory followed by get from base memory returns the saved value. */
  lemma SaveGetBase(b: Board, k: Key, v: Value, k2: Key)
    requires Consistent(b)
    ensures Get(Save(b, k, v, None), k, None).1 == Ok(v)
    ensures k2 != k ==> Get(Save(b, k, v, None), k2, None).1 == Get(b, k2, None).1
  {
  }

  /**
   * save into node s followed by get of the same key: the saved value, unless
   * the key is remapped and its pull succeeds, in which case the pulled value
   * wins. Nodes ranked below s keep every logical value.
   */
  lemma SaveThenGet(b: Board, k: Key, v: Value, s: Scope, srank: Scope -> nat)
    requires Consistent(b) && Ranked(b, srank) && srank(s) < RecursionLimit
    ensures Ranked(Save(b, k, v, Some(s)), srank)
    ensures Get(Save(b, k, v, Some(s)), k, Some(s)).1
            == AsRead(if Source(b, s, k, srank).Some? then Source(b, s, k, srank) else Some(v), k)
    ensures forall x, k2 | srank(x) < srank(s) :: Resolve(Save(b, k, v, Some(s)), x, k2, srank) == Resolve(b, x, k2, srank)
  {
    var m := GetMemory(b, s);
    MaterializeResolves(b, s, RecursionLimit, srank);
    var r := Write(m, s, k, v);
    assert r == Save(b, k, v, Some(s));
    forall x, k2 | srank(x) < srank(s) ensures Resolve(r, x, k2, srank) == Resolve(b, x, k2, srank) {
      WriteAbove(m, s, k, v, srank, x, k2);
    }
    SaveKeepsSource(b, m, k, v, s, srank);
    GetResolves(r, k, s, srank);
  }

  /** The value a saved key would pull from its source is the same before and after the save. */
  lemma SaveKeepsSource(b: Board, m: Board, k: Key, v: Value, s: Scope, srank: Scope -> nat)
    requires Consistent(b) && Ranked(b, srank) && srank(s) < RecursionLimit
    requires m == GetMemory(b, s) && Ranked(m, srank) && SameResolve(b, m, srank)
    requires Extends(b, m) && s in m.data
    ensures Ranked(Write(m, s, k, v), srank)
    ensures Source(Write(m, s, k, v), s, k, srank) == Source(b, s, k, srank)
  {
    var r := Write(m, s, k, v);
    if s in b.data {
      assert m.remaps[s] == b.remaps[s];
      match Find(b.remaps[s], k)
      case None =>
      case Some(i) => SaveKeepsPulled(b, m, k, v, s, i, srank);
    } else {
      assert m.remaps[s] == [];
    }
  }

  /** What the i-th remapping of s pulls is the same before and after a save into s. */
  lemma SaveKeepsPulled(b: Board, m: Board, k: Key, v: Value, s: Scope, i: nat, srank: Scope -> nat)
    requires Consistent(b) && Ranked(b, srank) && Extends(b, m) && Ranked(m, srank) && SameResolve(b, m, srank)
    requires s in b.data && i < |b.remaps[s]|
    ensures Ranked(Write(m, s, k, v), srank)
    ensures Pulled(Write(m, s, k, v), s, i, srank) == Pulled(b, s, i, srank)
  {
    PulledSame(b, m, s, i, srank);
    var rm := b.remaps[s][i];
    if rm.fromScope.Some? {
      WriteAbove(m, s, k, v, srank, rm.fromScope.value, rm.fromKey);
    }
  }

  /** A remapping whose source ranks below its target keeps the board ranked. */
  lemma AddRemappingRanked(b: Board, fromScope: Option<Scope>, fromKey: Key, toScope: Scope, toKey: Key, srank: Scope -> nat)
    requires Consistent(b) && Ranked(b, srank)
    requires fromScope.Some? ==> srank(fromScope.value) < srank(toScope)
    ensures Ranked(AddRemapping(b, fromScope, fromKey, toScope, toKey).0, srank)
  {
    var r := AddRemapping(b, fromScope, fromKey, toScope, toKey).0;
    forall x, i | x in r.remaps && 0 <= i < |r.remaps[x]| && r.remaps[x][i].fromScope.Some?
      ensures srank(r.remaps[x][i].fromScope.value) < srank(x)
    {
      if x != toScope || i < |NodeMemory(b, toScope).remaps[toScope]| {
        assert x in b.remaps;
      }
    }
  }

  /**
   * After a successful add_remapping, get of the target key returns what get
   * of the source key returns when that succeeds; otherwise it reads the
   * target's own value.
   */
  lemma RemapPull(b: Board, fromScope: Option<Scope>, fromKey: Key, toScope: Scope, toKey: Key, srank: Scope -> nat)
    requires Consistent(b) && Ranked(b, srank) && srank(toScope) < RecursionLimit
    requires fromScope.Some? ==> srank(fromScope.value) < srank(toScope)
    requires AddRemapping(b, fromScope, fromKey, toScope, toKey).1.Ok?
    ensures var r := AddRemapping(b, fromScope, fromKey, toScope, toKey).0;
            var src := Get(r, fromKey, fromScope).1;
            Get(r, toKey, Some(toScope)).1 == AsRead(if src.Ok? then Some(src.value) else Local(b, toScope, toKey), toKey)
  {
    var r := AddRemapping(b, fromScope, fromKey, toScope, toKey).0;
    AddRemappingRanked(b, fromScope, fromKey, toScope, toKey, srank);
    var i := AddedRemapFound(b, fromScope, fromKey, toScope, toKey);
    PulledIsGet(r, toScope, i, srank);
    GetResolves(r, toKey, toScope, srank);
  }

  /** The new remapping is the last of the target's table, the one Find returns for its key; node data is as before. */
  lemma AddedRemapFound(b: Board, fromScope: Option<Scope>, fromKey: Key, toScope: Scope, toKey: Key) returns (i: nat)
    requires Consistent(b) && AddRemapping(b, fromScope, fromKey, toScope, toKey).1.Ok?
    ensures var r := AddRemapping(b, fromScope, fromKey, toScope, toKey).0;
            toScope in r.remaps && i < |r.remaps[toScope]| && r.remaps[toScope][i] == Remap(toKey, fromScope, fromKey)
            && Find(r.remaps[toScope], toKey) == Some(i) && Local(r, toScope, toKey) == Local(b, toScope, toKey)
  {
    var r := AddRemapping(b, fromScope, fromKey, toScope, toKey).0;
    var rs := r.remaps[toScope];
    i := |rs| - 1;
    assert rs[i] == Remap(toKey, fromScope, fromKey);
    FindUnique(rs, i);
  }

  /** A remapping pulls exactly what get of its source key returns, when that get succeeds. */
  lemma PulledIsGet(b: Board, s: Scope, i: nat, srank: Scope -> nat)
    requires Consistent(b) && Ranked(b, srank) && srank(s) < RecursionLimit && s in b.remaps && i < |b.remaps[s]|
    ensures var rm := b.remaps[s][i];
            var src := Get(b, rm.fromKey, rm.fromScope).1;
            Pulled(b, s, i, srank) == (if src.Ok? then Some(src.value) else None)
  {
    var rm := b.remaps[s][i];
    if rm.fromScope.Some? {
      GetResolves(b, rm.fromKey, rm.fromScope.value, srank);
    }
  }

  /** A key that is remapped once cannot be remapped again: the second add_remapping raises RuntimeError. */
  lemma RemapTwiceFails(b: Board, f1: Option<Scope>, k1: Key, f2: Option<Scope>, k2: Key, toScope: Scope, toKey: Key)
    requires Consistent(b)
    ensures var r := AddRemapping(b, f1, k1, toScope, toKey).0;
            AddRemapping(r, f2, k2, toScope, toKey).1 == Err(RuntimeError)
  {
    var (r, e) := AddRemapping(b, f1, k1, toScope, toKey);
    var rs := r.remaps[toScope];
    if e.Ok? {
      assert rs[|rs| - 1].toKey == toKey;
    } else {
      var j :| 0 <= j < |b.remaps[toScope]| && b.remaps[toScope][j].toKey == toKey;
      assert rs[j].toKey == toKey;
    }
    assert IsTarget(r, toScope, toKey);
  }

  /** get of any key of a node that has no memory yet raises KeyError (or the item-access error of a bad key). */
  lemma FreshNodeGet(b: Board, k: Key, s: Scope)
    requires Consistent(b) && s !in b.data
    ensures Get(b, k, Some(s)).1 == AsRead(None, k)
    ensures Get(b, k, Some(s)).0 == NodeMemory(b, s)
  {
    var b1 := NodeMemory(b, s);
    assert b1.remaps[s] == [];
    assert Materialize(b, s, RecursionLimit - 1) == b1;
  }

  /** The status table: get after set returns the set status, other nodes keep theirs, and clear resets every node to PENDING. */
  lemma StatusTable(b: Board, s: Scope, x: Scope, st: NodeStatus)
    ensures GetNodeStatus(SetNodeStatus(b, s, st), s).1 == st
    ensures x != s ==> GetNodeStatus(SetNodeStatus(b, s, st), x).1 == GetNodeStatus(b, x).1
    ensures GetNodeStatus(ClearNodeStatus(b), x).1 == Default
    ensures GetNodeStatus(GetNodeStatus(b, s).0, s) == GetNodeStatus(b, s)
  {
  }
}
