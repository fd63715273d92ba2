/** Binary search over the keys of a page, and what a reader finds while a page is being shifted. */
module PageSearch {
  type Key = int

  ghost predicate Sorted(ks: seq<Key>) {
    forall i, j | 0 <= i < j < |ks| :: ks[i] <= ks[j]
  }

  /** Where the bisection of [min, max] ends. */
  function Bisect(ks: seq<Key>, k: Key, min: int, max: int): (r: int)
    requires 0 <= min <= max + 1 && max < |ks|
    ensures min - 1 <= r <= max
    decreases max - min + 1
  {
    if min <= max then
      var mid := (min + max) / 2;
      if k < ks[mid] then Bisect(ks, k, min, mid - 1) else Bisect(ks, k, mid + 1, max)
    else (min + max) / 2
  }

  /** `r` is the last index whose key is at most `k`, or -1. */
  ghost predicate IsFloor(ks: seq<Key>, k: Key, r: int) {
    && -1 <= r < |ks|
    && (forall i | 0 <= i <= r :: ks[i] <= k)
    && (forall i | r < i < |ks| :: k < ks[i])
  }

  function Search(ks: seq<Key>, k: Key): int { Bisect(ks, k, 0, |ks| - 1) }

  lemma {:induction false} BisectFloor(ks: seq<Key>, k: Key, min: int, max: int)
    requires Sorted(ks) && 0 <= min <= max + 1 && max < |ks|
    requires forall i | 0 <= i < min :: ks[i] <= k
    requires forall i | max < i < |ks| :: k < ks[i]
    ensures IsFloor(ks, k, Bisect(ks, k, min, max))
    decreases max - min + 1
  {
    if min <= max {
      var mid := (min + max) / 2;
      if k < ks[mid] {
        BisectFloor(ks, k, min, mid - 1);
      } else {
        BisectFloor(ks, k, mid + 1, max);
      }
    }
  }

  /** On a sorted page the search returns the floor of the key. */
  lemma SearchFloor(ks: seq<Key>, k: Key)
    requires Sorted(ks)
    ensures IsFloor(ks, k, Search(ks, k))
  {
    BisectFloor(ks, k, 0, |ks| - 1);
  }

  /** A search for a key that is present ends on it. */
  ghost predicate Finds(ks: seq<Key>, k: Key) {
    var r := Search(ks, k);
    0 <= r < |ks| && ks[r] == k
  }

  lemma PresentFound(ks: seq<Key>, k: Key)
    requires Sorted(ks) && k in ks
    ensures Finds(ks, k)
  {
    SearchFloor(ks, k);
    var i :| 0 <= i < |ks| && ks[i] == k;
  }

  /** The page while it is shifted: the element at `h` stands twice. */
  function Doubled<T>(s: seq<T>, h: nat): seq<T>
    requires h < |s|
  {
    s[..h + 1] + s[h..]
  }

  lemma DoubledSearchable(ks: seq<Key>, h: nat)
    requires Sorted(ks) && h < |ks|
    ensures Sorted(Doubled(ks, h))
    ensures forall k | k in ks :: Finds(Doubled(ks, h), k)
  {
    var ds := Doubled(ks, h);
    assert forall i | 0 <= i < |ds| :: ds[i] == ks[if i <= h then i else i - 1];
    forall k | k in ks
      ensures Finds(ds, k)
    {
      var i :| 0 <= i < |ks| && ks[i] == k;
      assert ds[if i <= h then i else i + 1] == k;
      PresentFound(ds, k);
    }
  }

  function Inserted<T>(s: seq<T>, i: nat, x: T): seq<T>
    requires i <= |s|
  {
    s[..i] + [x] + s[i..]
  }

  function Removed<T>(s: seq<T>, i: nat): seq<T>
    requires i < |s|
  {
    s[..i] + s[i + 1..]
  }

  lemma InsertedSorted(ks: seq<Key>, k: Key, r: int)
    requires Sorted(ks) && IsFloor(ks, k, r)
    ensures Sorted(Inserted(ks, r + 1, k))
  {
    var ins := Inserted(ks, r + 1, k);
    assert forall i | 0 <= i < |ins| :: ins[i] == if i <= r then ks[i] else if i == r + 1 then k else ks[i - 1];
  }

  lemma RemovedSorted(ks: seq<Key>, i: nat)
    requires Sorted(ks) && i < |ks|
    ensures Sorted(Removed(ks, i))
  {
    var rs := Removed(ks, i);
    assert forall j | 0 <= j < |rs| :: rs[j] == ks[if j < i then j else j + 1];
  }

  lemma RemovedBag(ks: seq<Key>, i: nat)
    requires i < |ks|
    ensures multiset(Removed(ks, i)) == multiset(ks) - multiset{ks[i]}
  {
    assert ks == ks[..i] + [ks[i]] + ks[i + 1..];
  }

  lemma PresentAtFloor(ks: seq<Key>, k: Key, r: int)
    requires Sorted(ks) && IsFloor(ks, k, r)
    ensures k in ks <==> 0 <= r && ks[r] == k
  {
    if k in ks {
      var i :| 0 <= i < |ks| && ks[i] == k;
    }
  }
}
