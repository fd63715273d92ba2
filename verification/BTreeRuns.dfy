/** The B-tree as an object, and runs of insertions with distinct keys. */
module BTreeRuns {
  import opened Basics
  import opened PageSearch
  import opened BtShape
  import opened BtSplit
  import opened BTrees

  /** What a lookup of `k` returns: nothing if there is nothing, or the value of the best key. */
  ghost predicate Agrees(m: map<Key, Id>, k: Key, r: Option<Id>) {
    && (r == None <==> m == map[])
    && (r.Some? ==> exists a :: Answer(m, k, a) && m[a] == r.value)
  }

  class BTree {
    const cap: nat
    var tree: Tree
    var smoSeq: nat
    ghost var infos: Infos
    ghost var contents: map<Key, Id>

    ghost predicate Valid()
      reads this
    {
      cap >= 2 && Good(tree, infos, cap, smoSeq, contents)
    }

    /** `clear`: one empty leaf. `cap` is how many records of one size a page holds. */
    constructor (cap: nat)
      requires cap >= 2
      ensures Valid() && contents == map[] && this.cap == cap
    {
      this.cap := cap;
      var t := Tree(map[0 := Page(true, [], 0)], 0, 1);
      ghost var ns := map[0 := Info(0, None, None)];
      assert PageAt(t.pages, ns, 0);
      tree, smoSeq, infos, contents := t, 0, ns, map[];
    }

    method Insert(key: Key, value: Id)
      requires Valid() && key !in contents
      modifies this
      ensures Valid() && contents == old(contents)[key := value]
      ensures smoSeq == if tree.next == old(tree.next) then old(smoSeq) else old(smoSeq) + 2
    {
      tree, smoSeq, infos := InsertEntry(tree, infos, cap, smoSeq, contents, Entry(key, value));
      contents := contents[key := value];
    }

    method Find(key: Key) returns (r: Option<Id>)
      requires Valid()
      ensures Agrees(contents, key, r)
    {
      r := Lookup(tree, infos, cap, smoSeq, contents, key);
    }
  }

  method InsertEntry(t: Tree, ghost ns: Infos, cap: nat, smo: nat, ghost m: map<Key, Id>, e: Entry)
    returns (t': Tree, smo': nat, ghost ns': Infos)
    requires Good(t, ns, cap, smo, m) && cap >= 2 && e.key !in m
    ensures Good(t', ns', cap, smo', m[e.key := e.val])
    ensures smo' == if t'.next == t.next then smo else smo + 2
  {
    var p := FindLeaf(t.pages, ns, t.root, smo, e.key);
    LeafInsert(t.pages, ns, t.root, m, p, e);
    if |t.pages[p].ents| < cap {
      return t.(pages := t.pages[p := Filled(t.pages[p], e)]), smo, ns;
    }
    // The lock on the structure makes the sequence odd, and its release even again.
    var stack;
    stack, p := Traverse(t.pages, ns, t.root, e.key);
    LeafInsert(t.pages, ns, t.root, m, p, e);
    t', ns' := SplitInsert(t, ns, stack, p, e, cap, smo + 1, m[e.key := e.val]);
    smo' := smo + 2;
  }

  /** Only an empty tree has an empty leaf. */
  lemma EmptyLeaf(t: Tree, ns: Infos, m: map<Key, Id>, p: Id)
    requires TreeOk(t.pages, ns, t.root) && ContentsOk(t.pages, ns, m) && p in ns && p in t.pages
             && t.pages[p].leaf && t.pages[p].ents == []
    ensures m == map[]
  {
    forall o | o in m
      ensures false
    {
      var i := KeyInLeaf(t.pages, ns, t.root, m, p, o);
    }
  }

  method Lookup(t: Tree, ghost ns: Infos, ghost cap: nat, smo: nat, ghost m: map<Key, Id>,
                k: Key) returns (r: Option<Id>)
    requires Good(t, ns, cap, smo, m)
    ensures Agrees(m, k, r)
  {
    var p := FindLeaf(t.pages, ns, t.root, smo, k);
    var es := t.pages[p].ents;
    if es == [] {
      EmptyLeaf(t, ns, m, p);
      return None;
    }
    LeafAnswers(t.pages, ns, t.root, m, p, k);
    return Some(es[SlotOf(es, k)].val);
  }

  datatype Op = Insert(key: Key, value: Id) | Find(key: Key)

  ghost function After(ops: seq<Op>): map<Key, Id> {
    if ops == [] then map[] else
      var last, before := ops[|ops| - 1], After(ops[..|ops| - 1]);
      if last.Insert? then before[last.key := last.value] else before
  }

  ghost predicate DistinctInserts(ops: seq<Op>) {
    forall i {:trigger ops[i]} | 0 <= i < |ops| && ops[i].Insert? :: ops[i].key !in After(ops[..i])
  }

  /** What operation `i` of a run returned is right for the operations before it. */
  ghost predicate RightAt(ops: seq<Op>, i: nat, r: Option<Id>)
    requires i < |ops|
  {
    ops[i].Find? ==> Agrees(After(ops[..i]), ops[i].key, r)
  }

  /** Through every split, each lookup of a run answers from the bindings inserted so far. */
  method Run(cap: nat, ops: seq<Op>) returns (out: seq<Option<Id>>)
    requires cap >= 2 && DistinctInserts(ops)
    ensures |out| == |ops|
    ensures forall i | 0 <= i < |ops| :: RightAt(ops, i, out[i])
  {
    var b := new BTree(cap);
    out := [];
    for i := 0 to |ops|
      invariant fresh(b) && b.Valid() && b.contents == After(ops[..i]) && |out| == i
      invariant forall k | 0 <= k < i :: RightAt(ops, k, out[k])
    {
      assert ops[..i + 1][..i] == ops[..i];
      match ops[i]
      case Insert(key, value) =>
        b.Insert(key, value);
        assert RightAt(ops, i, None);
        out := out + [None];
      case Find(key) =>
        var r := b.Find(key);
        assert RightAt(ops, i, r);
        out := out + [r];
    }
  }
}
