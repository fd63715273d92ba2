/** `ywOrderedNode::sort`: a bottom-up merge sort of the slots between two buffers. */
module PageSort {
  import opened Basics
  import opened PageSearch
  import opened OrderedPage
  import opened OrderedNode

  type KeyFn = Offset -> Key

  ghost predicate InOrder(key: KeyFn, s: seq<Offset>) {
    forall i, j | 0 <= i < j < |s| :: key(s[i]) <= key(s[j])
  }

  // ---------------------------------------------------------------- one merge

  /** Two runs merged as the do-while loop does it: the left one first only if its key is smaller. */
  ghost function MergedSeq(key: KeyFn, a: seq<Offset>, b: seq<Offset>): (m: seq<Offset>)
    ensures |m| == |a| + |b|
    decreases |a| + |b|
  {
    if a == [] then b
    else if b == [] then a
    else if key(a[0]) < key(b[0]) then [a[0]] + MergedSeq(key, a[1..], b)
    else [b[0]] + MergedSeq(key, a, b[1..])
  }

  lemma {:induction false} MergedBag(key: KeyFn, a: seq<Offset>, b: seq<Offset>)
    ensures multiset(MergedSeq(key, a, b)) == multiset(a) + multiset(b)
    decreases |a| + |b|
  {
    if a != [] && b != [] {
      assert a == [a[0]] + a[1..] && b == [b[0]] + b[1..];
      if key(a[0]) < key(b[0]) {
        MergedBag(key, a[1..], b);
      } else {
        MergedBag(key, a, b[1..]);
      }
    }
  }

  /** Two ordered runs merge into an ordered one. */
  lemma {:induction false} MergedInOrder(key: KeyFn, a: seq<Offset>, b: seq<Offset>)
    requires InOrder(key, a) && InOrder(key, b)
    ensures InOrder(key, MergedSeq(key, a, b))
    decreases |a| + |b|
  {
    if a != [] && b != [] {
      if key(a[0]) < key(b[0]) {
        MergedInOrder(key, a[1..], b);
        FirstIsLeast(key, a[0], a[1..], b);
      } else {
        MergedInOrder(key, a, b[1..]);
        FirstIsLeast(key, b[0], a, b[1..]);
      }
    }
  }

  lemma FirstIsLeast(key: KeyFn, x: Offset, a: seq<Offset>, b: seq<Offset>)
    requires InOrder(key, MergedSeq(key, a, b))
    requires (forall i | 0 <= i < |a| :: key(x) <= key(a[i])) && (forall i | 0 <= i < |b| :: key(x) <= key(b[i]))
    ensures InOrder(key, [x] + MergedSeq(key, a, b))
  {
    var m := MergedSeq(key, a, b);
    MergedBag(key, a, b);
    forall i | 0 <= i < |m|
      ensures key(x) <= key(m[i])
    {
      assert m[i] in multiset(m);
      assert m[i] in a || m[i] in b;
    }
  }

  /** The inner copying loops: from `left` in one buffer to [j, end) in the other. */
  method CopyRun(src: array<Offset>, left: nat, dst: array<Offset>, j: nat, end: nat)
    requires src != dst && j <= end <= dst.Length && left + (end - j) <= src.Length
    modifies dst
    ensures dst[..end] == old(dst[..j]) + src[..][left..left + (end - j)]
  {
    for k := j to end
      invariant dst[..k] == old(dst[..j]) + src[left..left + (k - j)]
    {
      dst[k] := src[left + (k - j)];
    }
  }

  method Put(dst: array<Offset>, j: nat, x: Offset)
    requires j < dst.Length
    modifies dst
    ensures dst[..j + 1] == old(dst[..j]) + [x]
  {
    dst[j] := x;
  }

  /** `out` and what is left of both runs of `w` make up `goal`. */
  ghost predicate Merging(key: KeyFn, goal: seq<Offset>, out: seq<Offset>, w: seq<Offset>,
                          left: nat, mid: nat, right: nat, end: nat) {
    && left <= mid <= right <= end <= |w|
    && goal == out + MergedSeq(key, w[left..mid], w[right..end])
  }

  lemma TookLeft(key: KeyFn, goal: seq<Offset>, out: seq<Offset>, w: seq<Offset>, left: nat, mid: nat,
                 right: nat, end: nat)
    requires Merging(key, goal, out, w, left, mid, right, end) && left < mid && right < end
    requires key(w[left]) < key(w[right])
    ensures Merging(key, goal, out + [w[left]], w, left + 1, mid, right, end)
  {
    assert w[left..mid][1..] == w[left + 1..mid];
  }

  lemma TookRight(key: KeyFn, goal: seq<Offset>, out: seq<Offset>, w: seq<Offset>, left: nat, mid: nat,
                  right: nat, end: nat)
    requires Merging(key, goal, out, w, left, mid, right, end) && left < mid && right < end
    requires key(w[left]) >= key(w[right])
    ensures Merging(key, goal, out + [w[right]], w, left, mid, right + 1, end)
  {
    assert w[right..end][1..] == w[right + 1..end];
  }

  lemma OneSideLeft(key: KeyFn, goal: seq<Offset>, out: seq<Offset>, w: seq<Offset>, left: nat, mid: nat,
                    right: nat, end: nat)
    requires Merging(key, goal, out, w, left, mid, right, end)
    ensures left == mid ==> goal == out + w[right..end]
    ensures right == end ==> goal == out + w[left..mid]
  {
  }

  /** One round: the smaller of the two next slots goes over, the right one if they are equal. */
  method TakeOne(key: KeyFn, src: array<Offset>, dst: array<Offset>, j: nat, left: nat, right: nat)
    returns (l: nat, r: nat)
    requires src != dst && left < src.Length && right < src.Length && j < dst.Length
    modifies dst
    ensures if key(src[left]) < key(src[right]) then l == left + 1 && r == right else l == left && r == right + 1
    ensures dst[..j + 1] == old(dst[..j]) + [if l > left then src[left] else src[right]]
  {
    if key(src[left]) < key(src[right]) {
      Put(dst, j, src[left]);
      l, r := left + 1, right;
    } else {
      Put(dst, j, src[right]);
      l, r := left, right + 1;
    }
  }

  lemma Took(key: KeyFn, goal: seq<Offset>, out: seq<Offset>, w: seq<Offset>, left: nat, mid: nat, right: nat,
             end: nat, l: nat, r: nat)
    requires Merging(key, goal, out, w, left, mid, right, end) && left < mid && right < end
    requires if key(w[left]) < key(w[right]) then l == left + 1 && r == right else l == left && r == right + 1
    ensures Merging(key, goal, out + [if l > left then w[left] else w[right]], w, l, mid, r, end)
  {
    if key(w[left]) < key(w[right]) {
      TookLeft(key, goal, out, w, left, mid, right, end);
    } else {
      TookRight(key, goal, out, w, left, mid, right, end);
    }
  }

  /** The comparing loop, until one of the two blocks is used up. */
  method MergeLoop(key: KeyFn, src: array<Offset>, dst: array<Offset>, i: nat, mid: nat, end: nat,
                   ghost goal: seq<Offset>)
    returns (j: nat, left: nat, right: nat)
    requires src != dst && i <= mid <= end <= src.Length && end <= dst.Length
    requires Merging(key, goal, dst[..i], src[..], i, mid, mid, end)
    modifies dst
    ensures i <= left <= mid <= right <= end && j == left + (right - mid) && (left == mid || right == end)
    ensures Merging(key, goal, dst[..j], src[..], left, mid, right, end)
  {
    ghost var w, out := src[..], dst[..i];
    j, left, right := i, i, mid;
    while left < mid && right < end
      invariant i <= left <= mid <= right <= end && j == left + (right - mid) && dst[..j] == out
      invariant Merging(key, goal, out, w, left, mid, right, end)
    {
      var l, r := TakeOne(key, src, dst, j, left, right);
      Took(key, goal, out, w, left, mid, right, end, l, r);
      out := out + [if l > left then w[left] else w[right]];
      j, left, right := j + 1, l, r;
    }
  }

  /** The do-while loop: two neighbouring blocks of one buffer, merged, go behind what the other buffer holds. */
  method MergeBlocks(key: KeyFn, src: array<Offset>, dst: array<Offset>, i: nat, mid: nat, end: nat)
    requires src != dst && i < mid < end <= src.Length && end <= dst.Length
    modifies dst
    ensures dst[..end] == old(dst[..i]) + MergedSeq(key, src[..][i..mid], src[..][mid..end])
  {
    ghost var w := src[..];
    ghost var goal := dst[..i] + MergedSeq(key, w[i..mid], w[mid..end]);
    var j, left, right := MergeLoop(key, src, dst, i, mid, end, goal);
    OneSideLeft(key, goal, dst[..j], w, left, mid, right, end);
    CopyRun(src, if left == mid then right else left, dst, j, end);
  }

  // ------------------------------------------------------------------ one pass

  /** Consecutive blocks of `w` slots are ordered; the last may be shorter. */
  ghost predicate Blocks(key: KeyFn, s: seq<Offset>, w: nat)
    requires w > 0
    decreases |s|
  {
    if |s| <= w then InOrder(key, s) else InOrder(key, s[..w]) && Blocks(key, s[w..], w)
  }

  function Least(a: nat, b: nat): nat { if a < b then a else b }

  /** One pass over blocks of `half` slots: neighbours are merged, a last block without one is copied. */
  ghost function PassSeq(key: KeyFn, s: seq<Offset>, half: nat): (p: seq<Offset>)
    requires half > 0
    ensures |p| == |s|
    decreases |s|
  {
    if |s| <= half then s
    else
      var end := Least(2 * half, |s|);
      MergedSeq(key, s[..half], s[half..end]) + PassSeq(key, s[end..], half)
  }

  lemma {:induction false} PassBag(key: KeyFn, s: seq<Offset>, half: nat)
    requires half > 0
    ensures multiset(PassSeq(key, s, half)) == multiset(s)
    decreases |s|
  {
    if |s| > half {
      var end := Least(2 * half, |s|);
      MergedBag(key, s[..half], s[half..end]);
      PassBag(key, s[end..], half);
      assert s == s[..end] + s[end..] && s[..end] == s[..half] + s[half..end];
    }
  }

  /** A pass makes blocks of twice the width out of ordered blocks, ragged last ones included. */
  lemma {:induction false} PassBlocks(key: KeyFn, s: seq<Offset>, half: nat)
    requires half > 0 && Blocks(key, s, half)
    ensures Blocks(key, PassSeq(key, s, half), 2 * half)
    decreases |s|
  {
    if |s| > half {
      var end := Least(2 * half, |s|);
      TwoBlocks(key, s, half);
      MergedInOrder(key, s[..half], s[half..end]);
      var m, rest := MergedSeq(key, s[..half], s[half..end]), PassSeq(key, s[end..], half);
      if |s| > 2 * half {
        PassBlocks(key, s[end..], half);
        assert (m + rest)[..2 * half] == m && (m + rest)[2 * half..] == rest;
      } else {
        assert rest == [] && m + rest == m;
      }
    }
  }

  /** The first two blocks of a sequence of blocks. */
  lemma TwoBlocks(key: KeyFn, s: seq<Offset>, w: nat)
    requires w > 0 && Blocks(key, s, w) && |s| > w
    ensures var e := Least(2 * w, |s|);
            InOrder(key, s[..w]) && InOrder(key, s[w..e]) && (|s| > 2 * w ==> Blocks(key, s[2 * w..], w))
  {
    var t := s[w..];
    if |t| <= w {
      assert s[w..|s|] == t;
    } else {
      assert t[..w] == s[w..2 * w] && t[w..] == s[2 * w..];
    }
  }

  /** What a pass makes of the block at `i` and its partner, if it has one. */
  ghost function PassHead(key: KeyFn, s: seq<Offset>, i: nat, half: nat): seq<Offset>
    requires half > 0 && i < |s|
  {
    if i + half >= |s| then s[i..] else MergedSeq(key, s[i..i + half], s[i + half..Least(i + 2 * half, |s|)])
  }

  lemma PassUnfold(key: KeyFn, s: seq<Offset>, i: nat, half: nat)
    requires half > 0 && i < |s|
    ensures PassSeq(key, s[i..], half) == PassHead(key, s, i, half) + PassSeq(key, s[Least(i + 2 * half, |s|)..], half)
  {
    var rest, end := s[i..], Least(i + 2 * half, |s|);
    if i + half < |s| {
      assert rest[..half] == s[i..i + half];
      assert rest[half..end - i] == s[i + half..end];
      assert rest[end - i..] == s[end..];
    } else {
      assert s[end..] == [];
    }
  }

  /** `out` and the pass over what follows `i` in `s` make up `goal`. */
  ghost predicate Passing(key: KeyFn, goal: seq<Offset>, s: seq<Offset>, out: seq<Offset>, i: nat, half: nat)
    requires half > 0
  {
    i <= |s| && goal == out + PassSeq(key, s[i..], half)
  }

  lemma PassStep(key: KeyFn, goal: seq<Offset>, s: seq<Offset>, out: seq<Offset>, i: nat, half: nat)
    requires half > 0 && i < |s| && Passing(key, goal, s, out, i, half)
    ensures Passing(key, goal, s, out + PassHead(key, s, i, half), Least(i + 2 * half, |s|), half)
  {
    PassUnfold(key, s, i, half);
    Associates(out, PassHead(key, s, i, half), PassSeq(key, s[Least(i + 2 * half, |s|)..], half));
  }

  lemma Associates(a: seq<Offset>, b: seq<Offset>, c: seq<Offset>)
    ensures a + (b + c) == (a + b) + c
  {
  }

  lemma PassStarts(key: KeyFn, s: seq<Offset>, half: nat)
    requires half > 0
    ensures Passing(key, PassSeq(key, s, half), s, [], 0, half)
  {
    assert s[0..] == s;
  }

  lemma PassEnds(key: KeyFn, goal: seq<Offset>, s: seq<Offset>, out: seq<Offset>, half: nat)
    requires half > 0 && Passing(key, goal, s, out, |s|, half)
    ensures out == goal
  {
    assert s[|s|..] == [];
  }

  /** One round of the loop over `i`. */
  method PassBlock(key: KeyFn, src: array<Offset>, dst: array<Offset>, i: nat, half: nat)
    requires half > 0 && src != dst && src.Length == dst.Length && i < src.Length
    modifies dst
    ensures dst[..Least(i + 2 * half, src.Length)] == old(dst[..i]) + PassHead(key, src[..], i, half)
  {
    var right, count := i + half, src.Length;
    if right >= count {
      CopyRun(src, i, dst, i, count);
      assert src[..][i..i + (count - i)] == src[..][i..];
    } else {
      MergeBlocks(key, src, dst, i, right, Least(right + half, count));
    }
  }

  /** The loop over `i`, from one buffer to the other. */
  method Pass(key: KeyFn, src: array<Offset>, dst: array<Offset>, half: nat)
    requires half > 0 && src != dst && src.Length == dst.Length
    modifies dst
    ensures dst[..] == PassSeq(key, src[..], half)
  {
    var i, j, count := 0, 0, src.Length;
    ghost var s := src[..];
    ghost var goal, out := PassSeq(key, s, half), [];
    PassStarts(key, s, half);
    while i < count
      invariant j == Least(i, count) && dst[..j] == out
      invariant Passing(key, goal, s, out, j, half)
      decreases count - i
    {
      PassStep(key, goal, s, out, i, half);
      PassBlock(key, src, dst, i, half);
      out := out + PassHead(key, s, i, half);
      i := i + 2 * half;
      j := Least(i, count);
    }
    PassEnds(key, goal, s, out, half);
    assert dst[..count] == dst[..];
  }

  // ------------------------------------------------------------------ all passes

  lemma {:induction false} SingleBlocks(key: KeyFn, s: seq<Offset>)
    ensures Blocks(key, s, 1)
    decreases |s|
  {
    if |s| > 1 {
      SingleBlocks(key, s[1..]);
    }
  }

  lemma SmallMod(a: nat, m: nat)
    requires a < m
    ensures a % m == a
  {
  }

  lemma SelfMod(m: nat)
    requires m > 0
    ensures m % m == 0
  {
  }

  /**
   The loop over `level`, a slot-sized number that wraps at `range`, with the two
   buffers changing places.  The sorted slots are an ordered permutation of the
   originals.
   */
  method SortSlots(key: KeyFn, slots: array<Offset>, count: nat, range: nat)
    requires count <= slots.Length && 4 * count <= range && range > 2
    modifies slots
    ensures InOrder(key, slots[..count]) && multiset(slots[..count]) == multiset(old(slots[..count]))
  {
    ghost var s := slots[..count];
    var src, dst := new Offset[count](_ => 0), new Offset[count](_ => 0);
    CopyRun(slots, 0, src, 0, count);
    assert src[..] == src[..count] == s;
    SingleBlocks(key, s);
    src := Passes(key, src, dst, range);
    CopyRun(src, 0, slots, 0, count);
    assert slots[..count] == src[..];
  }

  ghost predicate Sorting(key: KeyFn, s: seq<Offset>, half: nat, bag: multiset<Offset>) {
    half > 0 && Blocks(key, s, half) && multiset(s) == bag
  }

  lemma PassSorts(key: KeyFn, s: seq<Offset>, half: nat, bag: multiset<Offset>)
    requires Sorting(key, s, half, bag)
    ensures Sorting(key, PassSeq(key, s, half), 2 * half, bag)
  {
    PassBlocks(key, s, half);
    PassBag(key, s, half);
  }

  method PassSorted(key: KeyFn, src: array<Offset>, dst: array<Offset>, half: nat, ghost bag: multiset<Offset>)
    requires src != dst && src.Length == dst.Length && Sorting(key, src[..], half, bag)
    modifies dst
    ensures Sorting(key, dst[..], 2 * half, bag)
  {
    PassSorts(key, src[..], half, bag);
    Pass(key, src, dst, half);
  }

  /** The passes between the two buffers, which change places after each. */
  method Passes(key: KeyFn, a: array<Offset>, b: array<Offset>, range: nat) returns (src: array<Offset>)
    requires a != b && a.Length == b.Length && 4 * a.Length <= range && range > 2 && Blocks(key, a[..], 1)
    modifies a, b
    ensures src == a || src == b
    ensures InOrder(key, src[..]) && multiset(src[..]) == multiset(old(a[..]))
  {
    var dst, count := b, a.Length;
    src := a;
    var level := 2;
    ghost var half := 1;
    ghost var bag := multiset(a[..]);
    while level / 2 < count
      invariant level == 2 * half && half > 0 && ((src == a && dst == b) || (src == b && dst == a))
      invariant Sorting(key, src[..], half, bag)
      decreases count - half
    {
      PassSorted(key, src, dst, level / 2, bag);
      src, dst := dst, src;
      SmallMod(level * 2, range);
      level := level * 2 % range;
      half := 2 * half;
    }
  }

  // ------------------------------------------------------ the page stays laid out

  lemma RemovedOffsets(s: seq<Offset>, i: nat)
    requires i < |s|
    ensures multiset(Removed(s, i)) == multiset(s) - multiset{s[i]}
  {
    assert s == s[..i] + [s[i]] + s[i + 1..];
  }

  /** Bytes and keys do not depend on the order of the slots. */
  lemma {:induction false} PermutedLive(h: Heap, s: seq<Offset>, t: seq<Offset>)
    requires Known(h, s) && Known(h, t) && multiset(s) == multiset(t)
    ensures Live(h, t) == Live(h, s)
    decreases |t|
  {
    if t == [] {
      assert |multiset(s)| == 0;
    } else {
      var n := |t| - 1;
      var i := Partner(s, t);
      LiveRemove(h, s, i);
      PermutedLive(h, Removed(s, i), t[..n]);
    }
  }

  lemma {:induction false} PermutedKeys(h: Heap, s: seq<Offset>, t: seq<Offset>)
    requires Known(h, s) && Known(h, t) && multiset(s) == multiset(t)
    ensures multiset(KeysOf(h, t)) == multiset(KeysOf(h, s))
    decreases |t|
  {
    if t == [] {
      assert |multiset(s)| == 0;
    } else {
      var n := |t| - 1;
      var i := Partner(s, t);
      RemovedKeys(h, s, i);
      PermutedKeys(h, Removed(s, i), t[..n]);
      assert KeysOf(h, t) == KeysOf(h, t[..n]) + [h[t[n]].key];
      SameBag(KeysOf(h, s), i, KeysOf(h, t[..n]), KeysOf(h, t));
    }
  }

  lemma SameBag(a: seq<Key>, i: nat, rest: seq<Key>, b: seq<Key>)
    requires i < |a| && multiset(Removed(a, i)) == multiset(rest) && b == rest + [a[i]]
    ensures multiset(a) == multiset(b)
  {
    RemovedBag(a, i);
    assert a[i] in multiset(a);
  }

  /** Where the last of `t` is in its permutation `s`. */
  lemma Partner(s: seq<Offset>, t: seq<Offset>) returns (i: nat)
    requires multiset(s) == multiset(t) && t != []
    ensures i < |s| && s[i] == t[|t| - 1] && multiset(Removed(s, i)) == multiset(t[..|t| - 1])
  {
    var n := |t| - 1;
    assert t[n] in multiset(s);
    i :| 0 <= i < |s| && s[i] == t[n];
    assert t == t[..n] + [t[n]];
    RemovedOffsets(s, i);
  }

  lemma PermutedKnown(h: Heap, s: seq<Offset>, t: seq<Offset>)
    requires Known(h, s) && multiset(s) == multiset(t)
    ensures Known(h, t) && |t| == |s|
  {
    assert |t| == |multiset(t)| == |multiset(s)| == |s|;
    forall i | 0 <= i < |t|
      ensures t[i] in s
    {
      assert t[i] in multiset(t);
    }
  }

  lemma Twice(s: seq<Offset>, i: nat, j: nat)
    requires i < j < |s| && s[i] == s[j]
    ensures multiset(s)[s[i]] >= 2
  {
    assert s == s[..j] + s[j..];
    assert s[..j][i] == s[i] && s[j..][0] == s[i];
    assert s[i] in multiset(s[..j]) && s[i] in multiset(s[j..]);
  }

  lemma {:induction false} Once(h: Heap, s: seq<Offset>, x: Offset)
    requires Known(h, s) && forall i, j | 0 <= i < j < |s| :: Clear(h, s[i], s[j])
    ensures multiset(s)[x] <= 1
  {
    if s != [] {
      var n := |s| - 1;
      assert s == s[..n] + [s[n]];
      Once(h, s[..n], x);
      forall i | 0 <= i < n
        ensures s[i] != s[n]
      {
        assert Clear(h, s[i], s[n]);
      }
      assert s[n] !in s[..n];
    }
  }

  lemma PermutedLaidOut(capacity: nat, free: nat, h: Heap, s: seq<Offset>, t: seq<Offset>)
    requires LaidOut(capacity, free, h, s) && multiset(s) == multiset(t)
    ensures LaidOut(capacity, free, h, t)
  {
    PermutedKnown(h, s, t);
    PermutedLive(h, s, t);
    forall i | 0 <= i < |t|
      ensures t[i] in s
    {
      assert t[i] in multiset(t);
    }
    forall i, j | 0 <= i < j < |t|
      ensures Clear(h, t[i], t[j])
    {
      if t[i] == t[j] {
        Twice(t, i, j);
        Once(h, s, t[i]);
      }
      var a :| 0 <= a < |s| && s[a] == t[i];
      var b :| 0 <= b < |s| && s[b] == t[j];
      assert if a < b then Clear(h, s[a], s[b]) else Clear(h, s[b], s[a]);
    }
  }

  /** `sort` on a page whose slot type counts up to `range`. */
  method Sort(node: Node, range: nat)
    requires node.Valid() && 4 * node.count <= range && range > 2
    modifies node.slots
    ensures node.Valid() && Sorted(node.Keys()) && multiset(node.Keys()) == multiset(old(node.Keys()))
  {
    ghost var s := node.slots[..node.count];
    var h := node.records;
    var key := (p: Offset) => if p in h then h[p].key else 0;
    SortSlots(key, node.slots, node.count, range);
    ghost var sorted := node.slots[..node.count];
    PermutedLaidOut(node.capacity, node.freeOffset, h, s, sorted);
    PermutedKeys(h, s, sorted);
    KeysInOrder(h, key, sorted);
  }

  lemma KeysInOrder(h: Heap, key: KeyFn, s: seq<Offset>)
    requires Known(h, s) && InOrder(key, s) && forall p | p in h :: key(p) == h[p].key
    ensures Sorted(KeysOf(h, s))
  {
    assert forall i | 0 <= i < |s| :: KeysOf(h, s)[i] == key(s[i]);
  }

  // ----------------------------------------------- how far the level can grow

  /** The level before pass `k`, in a slot type of `bits` bits. */
  function LevelAt(k: nat, bits: nat): nat {
    if k == 0 then 2 % Pow2(bits) else LevelAt(k - 1, bits) * 2 % Pow2(bits)
  }

  lemma {:induction false} LevelValue(k: nat, bits: nat)
    requires bits >= 2
    ensures LevelAt(k, bits) == if k + 1 < bits then Pow2(k + 1) else 0
  {
    assert k + 1 < bits ==> Pow2(k + 1) < Pow2(bits) by {
      if k + 1 < bits {
        Pow2Monotone(k + 2, bits);
        assert Pow2(k + 2) == 2 * Pow2(k + 1);
      }
    }
    if k == 0 {
      Pow2Monotone(2, bits);
      SmallMod(2, Pow2(bits));
      assert LevelAt(k, bits) == Pow2(1);
    } else {
      LevelValue(k - 1, bits);
      assert LevelAt(k, bits) == LevelAt(k - 1, bits) * 2 % Pow2(bits);
      if k + 1 < bits {
        assert LevelAt(k - 1, bits) * 2 == Pow2(k + 1);
        SmallMod(Pow2(k + 1), Pow2(bits));
        assert LevelAt(k, bits) == Pow2(k + 1);
      } else if k + 1 == bits {
        assert LevelAt(k - 1, bits) * 2 == Pow2(bits);
        SelfMod(Pow2(bits));
        assert LevelAt(k, bits) == 0;
      } else {
        assert LevelAt(k - 1, bits) * 2 == 0;
        SmallMod(0, Pow2(bits));
        assert LevelAt(k, bits) == 0;
      }
    }
  }

  /** The outer loop ends exactly when the count is at most a quarter of what a slot can count. */
  lemma SortEndsIff(count: nat, bits: nat)
    requires bits >= 2
    ensures (exists k :: LevelAt(k, bits) / 2 >= count) <==> count <= Pow2(bits - 2)
  {
    LevelValue(bits - 2, bits);
    if count <= Pow2(bits - 2) {
      assert LevelAt(bits - 2, bits) / 2 >= count;
    }
    forall k: nat
      ensures LevelAt(k, bits) / 2 <= Pow2(bits - 2)
    {
      LevelValue(k, bits);
      if k + 1 < bits {
        Pow2Monotone(k + 1, bits - 1);
      }
    }
  }

  // ----------------------------------------------------------- 16-bit slots

  const SLOT_BITS: nat := 16

  /** What 64 KB leave for slots and records behind 24 bytes of page header. */
  const PAGE_64K: nat := 0x1_0000 - 24

  lemma SlotRange()
    ensures Pow2(SLOT_BITS) == 0x1_0000 && Pow2(SLOT_BITS - 2) == 0x4000
  {
    assert Pow2(8) == 0x100;
    assert Pow2(12) == 16 * Pow2(8);
    assert Pow2(14) == 4 * Pow2(12) && Pow2(16) == 4 * Pow2(14);
  }

  /** On pages of the default size the sort always ends: there is no room for more slots than it can count. */
  method SortDefaultPage(node: Node)
    requires node.Valid() && node.capacity <= 0x8000
    modifies node.slots
    ensures node.Valid() && Sorted(node.Keys()) && multiset(node.Keys()) == multiset(old(node.Keys()))
    ensures exists k :: LevelAt(k, SLOT_BITS) / 2 >= node.count
  {
    SlotRange();
    SortEndsIff(node.count, SLOT_BITS);
    Sort(node, Pow2(SLOT_BITS));
  }

  /** On the largest page a 16-bit slot allows, 16385 one-byte records keep the sort from ever ending. */
  method EndlessPage() returns (node: Node)
    ensures fresh(node) && node.Valid() && node.capacity == PAGE_64K && node.count == 0x4001
    ensures !exists k :: LevelAt(k, SLOT_BITS) / 2 >= node.count
  {
    node := new Node(PAGE_64K);
    for i := 0 to 0x4001
      invariant fresh(node) && fresh(node.slots) && node.Valid() && node.capacity == PAGE_64K && |node.Keys()| == i
      invariant node.GetFree() == PAGE_64K - 3 * i
    {
      var ok := node.Append(Record(i, 1));
    }
    SlotRange();
    SortEndsIff(node.count, SLOT_BITS);
  }
}
