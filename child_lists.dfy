// The child list of a Behavior: add_child, remove_child, prepend_child and insert_child.
module ChildLists {
  import opened Wrappers
  import opened TreeSpec

  /** Every listed child is a node of the tree. */
  ghost predicate Known(shape: map<NodeId, Shape>, cs: seq<NodeId>)
  {
    forall c | c in cs :: c in shape
  }

  /** check_unique_child: no listed child carries this name. */
  predicate UniqueName(shape: map<NodeId, Shape>, cs: seq<NodeId>, name: string)
    requires forall c | c in cs :: c in shape
  {
    forall c | c in cs :: shape[c].name != name
  }

  /** No two listed children share a name. */
  ghost predicate NamesDistinct(shape: map<NodeId, Shape>, cs: seq<NodeId>)
    requires Known(shape, cs)
  {
    forall i, j | 0 <= i < j < |cs| :: shape[cs[i]].name != shape[cs[j]].name
  }

  /** add_child: RuntimeError when a child of the same name is listed, else append. */
  function AddChild(shape: map<NodeId, Shape>, cs: seq<NodeId>, c: NodeId): (r: Result<seq<NodeId>>)
    requires Known(shape, cs) && c in shape
    ensures r.Ok? <==> UniqueName(shape, cs, shape[c].name)
    ensures r.Err? ==> r.error == RuntimeError
    ensures r.Ok? ==> |r.value| == |cs| + 1 && r.value[..|cs|] == cs && r.value[|cs|] == c
    ensures r.Ok? ==> multiset(r.value) == multiset(cs) + multiset{c}
  {
    if UniqueName(shape, cs, shape[c].name) then Ok(cs + [c]) else Err(RuntimeError)
  }

  /** remove_child: ValueError when the child is not listed, else its first occurrence goes. */
  function RemoveChild(cs: seq<NodeId>, c: NodeId): (r: Result<seq<NodeId>>)
    ensures r.Ok? <==> c in cs
    ensures r.Err? ==> r.error == ValueError
    ensures r.Ok? ==> multiset(r.value) == multiset(cs) - multiset{c}
    ensures r.Ok? ==> forall x | x in r.value :: x in cs
  {
    if c in cs then
      var r := RemoveFirst(cs, c);
      assert forall x | x in r :: x in multiset(r);
      Ok(r)
    else Err(ValueError)
  }

  /** prepend_child: the child goes first; names are not checked. */
  function PrependChild(cs: seq<NodeId>, c: NodeId): (r: seq<NodeId>)
    ensures |r| == |cs| + 1 && r[0] == c && r[1..] == cs
  {
    [c] + cs
  }

  /**
   * The position list.insert(i, x) puts x at in a list of length len: a
   * negative i counts from the end, and positions outside the list are
   * clamped to its ends.
   */
  function InsertIndex(i: int, len: nat): (j: nat)
    ensures j <= len
    ensures 0 <= i <= len ==> j == i
    ensures i > len ==> j == len
    ensures i < 0 && 0 <= len + i ==> j == len + i
    ensures len + i < 0 ==> j == 0
  {
    if i < 0 then (if i + len < 0 then 0 else i + len) else if i > len then len else i
  }

  /** insert_child: list.insert(i, child); names are not checked. */
  function InsertChild(cs: seq<NodeId>, c: NodeId, i: int): (r: seq<NodeId>)
    ensures var j := InsertIndex(i, |cs|);
            |r| == |cs| + 1 && r[j] == c && r[..j] == cs[..j] && r[j + 1..] == cs[j..]
    ensures multiset(r) == multiset(cs) + multiset{c}
    ensures forall x | x in r :: x == c || x in cs
  {
    var j := InsertIndex(i, |cs|);
    assert cs == cs[..j] + cs[j..];
    cs[..j] + [c] + cs[j..]
  }

  /** RemoveFirst on a list that starts with x. */
  lemma RemoveFirstCons(x: NodeId, xs: seq<NodeId>, c: NodeId)
    ensures RemoveFirst([x] + xs, c) == if x == c then xs else [x] + RemoveFirst(xs, c)
  {
    assert ([x] + xs)[0] == x && ([x] + xs)[1..] == xs;
  }

  /** The position of the first occurrence of c, the one list.remove takes off. */
  function FirstIndex(cs: seq<NodeId>, c: NodeId): (k: nat)
    requires c in cs
    ensures k < |cs| && cs[k] == c && c !in cs[..k]
  {
    if cs[0] == c then 0
    else
      assert c in cs[1..] by { assert cs == [cs[0]] + cs[1..]; }
      var k1 := FirstIndex(cs[1..], c);
      assert cs[..k1 + 1] == [cs[0]] + cs[1..][..k1];
      k1 + 1
  }

  /** Dropping the first occurrence of c from xs + ys, where xs does not hold c, keeps xs whole. */
  lemma {:induction false} RemoveFirstAfter(xs: seq<NodeId>, ys: seq<NodeId>, c: NodeId)
    requires c !in xs
    ensures RemoveFirst(xs + ys, c) == xs + RemoveFirst(ys, c)
  {
    if |xs| > 0 {
      var x, rest := xs[0], xs[1..];
      assert xs == [x] + rest && xs + ys == [x] + (rest + ys);
      RemoveFirstCons(x, rest + ys, c);
      RemoveFirstAfter(rest, ys, c);
    } else {
      assert xs + ys == ys;
    }
  }

  /** The list remove_child leaves: the part before the first occurrence, then the part after it. */
  lemma RemoveFirstSplits(cs: seq<NodeId>, c: NodeId)
    requires c in cs
    ensures var k := FirstIndex(cs, c); RemoveFirst(cs, c) == cs[..k] + cs[k + 1..]
  {
    var k := FirstIndex(cs, c);
    assert cs == cs[..k] + ([c] + cs[k + 1..]);
    RemoveFirstAfter(cs[..k], [c] + cs[k + 1..], c);
    RemoveFirstCons(c, cs[k + 1..], c);
  }

  /** remove_child drops exactly the first occurrence of the child and keeps the order of the rest. */
  lemma RemoveChildKeepsOrder(cs: seq<NodeId>, c: NodeId)
    requires c in cs
    ensures exists k | 0 <= k < |cs| && cs[k] == c && c !in cs[..k] :: RemoveChild(cs, c) == Ok(cs[..k] + cs[k + 1..])
  {
    var k := FirstIndex(cs, c);
    RemoveFirstSplits(cs, c);
  }

  /** A child that add_child accepted is not listed yet, so remove_child takes it off again. */
  lemma RemoveUndoesAdd(shape: map<NodeId, Shape>, cs: seq<NodeId>, c: NodeId)
    requires Known(shape, cs) && c in shape && AddChild(shape, cs, c).Ok?
    ensures RemoveChild(AddChild(shape, cs, c).value, c) == Ok(cs)
  {
    assert UniqueName(shape, cs, shape[c].name);
    RemoveFirstAfter(cs, [c], c);
    assert cs + [] == cs;
  }

  /** remove_child takes a prepended child off again, even when it was listed before. */
  lemma RemoveUndoesPrepend(cs: seq<NodeId>, c: NodeId)
    ensures RemoveChild(PrependChild(cs, c), c) == Ok(cs)
  {
    assert PrependChild(cs, c)[0] == c;
  }

  /** remove_child takes an inserted child off again when it was not listed before. */
  lemma RemoveUndoesInsert(cs: seq<NodeId>, c: NodeId, i: int)
    requires c !in cs
    ensures RemoveChild(InsertChild(cs, c, i), c) == Ok(cs)
  {
    var j := InsertIndex(i, |cs|);
    var r := InsertChild(cs, c, i);
    assert r == cs[..j] + ([c] + cs[j..]);
    assert c !in cs[..j];
    RemoveFirstAfter(cs[..j], [c] + cs[j..], c);
    assert cs[..j] + cs[j..] == cs;
  }

  /** insert_child at 0 is prepend_child; at the length or beyond it appends; at -1 it goes before the last child. */
  lemma InsertAtEnds(cs: seq<NodeId>, c: NodeId, i: int)
    ensures i <= -|cs| ==> InsertChild(cs, c, i) == PrependChild(cs, c)
    ensures i >= |cs| ==> InsertChild(cs, c, i) == cs + [c]
    ensures |cs| > 0 && i == -1 ==> InsertChild(cs, c, i) == cs[..|cs| - 1] + [c] + [cs[|cs| - 1]]
  {
    var r := InsertChild(cs, c, i);
    if i <= -|cs| {
      assert r[1..] == cs;
    }
    if i >= |cs| {
      assert r[..|cs|] == cs;
    }
  }

  /** add_child keeps the children's names distinct. */
  lemma AddKeepsNamesDistinct(shape: map<NodeId, Shape>, cs: seq<NodeId>, c: NodeId)
    requires Known(shape, cs) && c in shape && NamesDistinct(shape, cs) && AddChild(shape, cs, c).Ok?
    ensures Known(shape, AddChild(shape, cs, c).value) && NamesDistinct(shape, AddChild(shape, cs, c).value)
  {
    var r := AddChild(shape, cs, c).value;
    forall i, j | 0 <= i < j < |r|
      ensures shape[r[i]].name != shape[r[j]].name
    {
      assert r[i] == cs[i];
      if j < |cs| {
        assert r[j] == cs[j];
      } else {
        assert cs[i] in cs;
      }
    }
  }

  /** The tree with node n's child list replaced. */
  function WithChildren(t: Tree, n: NodeId, cs: seq<NodeId>): (r: Tree)
    requires n in t.shape && t.shape[n].kind.BehaviorNode?
    ensures r.dyn == t.dyn && r.board == t.board && r.draws == t.draws && r.shape.Keys == t.shape.Keys
    ensures n in r.shape && r.shape[n].kind.BehaviorNode? && r.shape[n].kind.children == cs
  {
    var s := t.shape[n];
    t.(shape := t.shape[n := s.(kind := s.kind.(children := cs))])
  }

  /** A new child list of tree nodes that all rank below n keeps the tree well formed. */
  lemma WithChildrenKeepsWF(t: Tree, n: NodeId, cs: seq<NodeId>, rk: Rank)
    requires WF(t, rk) && n in t.shape && t.shape[n].kind.BehaviorNode?
    requires forall c | c in cs :: c in t.shape && Below(rk, n, c)
    ensures WF(WithChildren(t, n, cs), rk)
  {
    var r := WithChildren(t, n, cs);
    forall m, c | m in r.shape && c in Children(r.shape[m].kind)
      ensures c in r.shape && rk[c] < rk[m]
    {
      if m != n {
        assert r.shape[m] == t.shape[m];
      }
    }
  }
}
