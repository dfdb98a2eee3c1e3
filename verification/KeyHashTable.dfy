/**
 * RTPKeyHashTable: every element sits in a doubly linked list of its hash bucket and in one doubly
 * linked list of all elements, and a cursor points at one element. The table is an insertion-ordered
 * map with a cursor.
 */
module KeyHashTable {
  import opened Bytes
  import opened Prelude

  datatype Status = Success | InvalidHashIndex | KeyNotFound | KeyAlreadyExists | NoCurrentElement

  class HashElement<K(==), E> {
    const key: K
    const element: E
    const hashIndex: nat
    var hashPrev: HashElement?<K, E>
    var hashNext: HashElement?<K, E>
    var listPrev: HashElement?<K, E>
    var listNext: HashElement?<K, E>

    constructor (k: K, e: E, index: nat)
      ensures key == k && element == e && hashIndex == index
      ensures hashPrev == null && hashNext == null && listPrev == null && listNext == null
    {
      key, element, hashIndex := k, e, index;
      hashPrev, hashNext, listPrev, listNext := null, null, null, null;
    }
  }

  ghost predicate Distinct<T>(s: seq<T>) {
    forall i, j :: 0 <= i < j < |s| ==> s[i] != s[j]
  }

  ghost function NodeAt<K, E>(s: seq<HashElement<K, E>>, i: nat): HashElement?<K, E> {
    if i < |s| then s[i] else null
  }

  ghost function LastOf<K, E>(s: seq<HashElement<K, E>>): HashElement?<K, E> {
    if s == [] then null else s[|s| - 1]
  }

  // ---------------------------------------------------------------- the list of all elements

  ghost predicate ListLinked<K, E>(s: seq<HashElement<K, E>>)
    reads s`listPrev, s`listNext
  {
    && (s != [] ==> s[0].listPrev == null && s[|s| - 1].listNext == null)
    && (forall i :: 0 <= i < |s| - 1 ==> s[i].listNext == s[i + 1])
    && (forall i :: 0 < i < |s| ==> s[i].listPrev == s[i - 1])
  }

  /** Appends `n` behind `last`. */
  method ListAppend<K, E>(n: HashElement<K, E>, last: HashElement?<K, E>, ghost s: seq<HashElement<K, E>>)
    requires ListLinked(s) && n !in s && Distinct(s)
    requires n.listPrev == null && n.listNext == null
    requires last == LastOf(s)
    modifies n`listPrev, s`listNext
    ensures ListLinked(s + [n])
  {
    if last != null {
      last.listNext := n;
      n.listPrev := last;
      assert (s + [n])[|s| - 1] == last;
    }
    assert forall j :: 0 <= j < |s| ==> (s + [n])[j] == s[j];
  }

  method ListUnlink<K, E>(n: HashElement<K, E>, first: HashElement?<K, E>, last: HashElement?<K, E>,
                          ghost s: seq<HashElement<K, E>>, ghost i: nat)
    returns (first': HashElement?<K, E>, last': HashElement?<K, E>, next: HashElement?<K, E>)
    requires ListLinked(s) && Distinct(s)
    requires i < |s| && s[i] == n && first == s[0] && last == s[|s| - 1]
    modifies s`listPrev, s`listNext
    ensures ListLinked(Without(s, i))
    ensures first' == NodeAt(Without(s, i), 0) && last' == LastOf(Without(s, i))
    ensures next == NodeAt(s, i + 1)
  {
    first', last' := first, last;
    ghost var t := Without(s, i);
    assert i > 0 ==> s[i - 1] == n.listPrev;
    assert i + 1 < |s| ==> s[i + 1] == n.listNext;
    var prev := n.listPrev;
    next := n.listNext;
    if prev == null {
      first' := next;
      if next != null {
        next.listPrev := null;
      } else {
        last' := null;
      }
    } else {
      prev.listNext := next;
      if next != null {
        next.listPrev := prev;
      } else {
        last' := prev;
      }
    }
  }

  // ---------------------------------------------------------------- the list of one bucket

  ghost predicate BucketLinked<K, E>(s: seq<HashElement<K, E>>)
    reads s`hashPrev, s`hashNext
  {
    && (s != [] ==> s[0].hashPrev == null && s[|s| - 1].hashNext == null)
    && (forall i :: 0 <= i < |s| - 1 ==> s[i].hashNext == s[i + 1])
    && (forall i :: 0 < i < |s| ==> s[i].hashPrev == s[i - 1])
  }

  /** Puts `n` in front of the bucket whose first element is `head`. */
  method BucketPush<K, E>(n: HashElement<K, E>, head: HashElement?<K, E>, ghost s: seq<HashElement<K, E>>)
    requires BucketLinked(s) && n !in s && Distinct(s)
    requires n.hashPrev == null && n.hashNext == null
    requires head == NodeAt(s, 0)
    modifies n`hashNext, s`hashPrev
    ensures BucketLinked([n] + s)
  {
    n.hashNext := head;
    if head != null {
      head.hashPrev := n;
    }
    assert forall j :: 0 <= j < |s| ==> ([n] + s)[j + 1] == s[j];
  }

  method BucketUnlink<K, E>(n: HashElement<K, E>, head: HashElement<K, E>, ghost s: seq<HashElement<K, E>>,
                            ghost i: nat)
    returns (head': HashElement?<K, E>)
    requires BucketLinked(s) && Distinct(s)
    requires i < |s| && s[i] == n && head == s[0]
    modifies s`hashPrev, s`hashNext
    ensures BucketLinked(Without(s, i))
    ensures head' == NodeAt(Without(s, i), 0)
  {
    head' := head;
    ghost var t := Without(s, i);
    var prev, next := n.hashPrev, n.hashNext;
    assert i > 0 ==> s[i - 1] == prev;
    assert i + 1 < |s| ==> s[i + 1] == next;
    if prev == null {
      head' := next;
      if next != null {
        next.hashPrev := null;
      }
    } else {
      prev.hashNext := next;
      if next != null {
        next.hashPrev := prev;
      }
    }
  }

  // ---------------------------------------------------------------- the ordered map it stands for

  ghost function IndexOf<T>(s: seq<T>, x: T): (i: nat)
    requires x in s
    ensures i < |s| && s[i] == x
  {
    if s[0] == x then 0 else 1 + IndexOf(s[1..], x)
  }

  ghost function EntriesOf<K, E>(order: seq<HashElement<K, E>>): (entries: seq<(K, E)>)
    ensures |entries| == |order|
    ensures forall i :: 0 <= i < |order| ==> entries[i] == (order[i].key, order[i].element)
  {
    seq(|order|, i requires 0 <= i < |order| => (order[i].key, order[i].element))
  }

  ghost function CursorIn<K, E>(order: seq<HashElement<K, E>>, cur: HashElement?<K, E>): (at: Option<nat>)
    requires cur != null ==> cur in order
    ensures at.Some? <==> cur != null
    ensures at.Some? ==> at.value < |order| && order[at.value] == cur
  {
    if cur == null then None else Some(IndexOf(order, cur))
  }

  lemma EntriesAdded<K, E>(order: seq<HashElement<K, E>>, n: HashElement<K, E>, cur: HashElement?<K, E>)
    ensures EntriesOf(order + [n]) == EntriesOf(order) + [(n.key, n.element)]
    ensures cur == null || cur in order ==> CursorIn(order + [n], cur) == CursorIn(order, cur)
  {
    if cur != null && cur in order {
      IndexInPrefix(order, [n], cur);
    }
  }

  predicate HasKey<K(==), E>(entries: seq<(K, E)>, k: K) {
    exists i :: 0 <= i < |entries| && entries[i].0 == k
  }

  lemma {:induction false} IndexInPrefix<T>(s: seq<T>, t: seq<T>, x: T)
    requires x in s
    ensures x in s + t && IndexOf(s + t, x) == IndexOf(s, x)
  {
    assert (s + t)[0] == s[0];
    if s[0] != x {
      assert (s + t)[1..] == s[1..] + t;
      IndexInPrefix(s[1..], t, x);
    }
  }

  lemma {:induction false} IndexUnique<T>(s: seq<T>, i: nat)
    requires Distinct(s) && i < |s|
    ensures IndexOf(s, s[i]) == i
    decreases i
  {
    if i > 0 {
      assert s[0] != s[i] && s[1..][i - 1] == s[i];
      IndexUnique(s[1..], i - 1);
    }
  }

  lemma WithoutDistinct<T>(s: seq<T>, i: nat)
    requires i < |s| && Distinct(s)
    ensures Distinct(Without(s, i))
    ensures |Without(s, i)| == |s| - 1 && forall j :: 0 <= j < |s| - 1 ==> Without(s, i)[j] in s
  {
  }

  /** What the removal of element `i` means for the entries, and for a cursor moved on to its successor. */
  lemma EntriesRemoved<K, E>(order: seq<HashElement<K, E>>, i: nat, next: HashElement?<K, E>)
    requires i < |order| && Distinct(order)
    requires next == NodeAt(order, i + 1)
    ensures EntriesOf(Without(order, i)) == Without(EntriesOf(order), i)
    ensures next != null ==> next in Without(order, i)
    ensures CursorIn(Without(order, i), next) == if i + 1 < |order| then Some(i) else None
  {
    var t := Without(order, i);
    WithoutDistinct(order, i);
    assert next != null ==> t[i] == next;
    assert EntriesOf(t) == Without(EntriesOf(order), i);
    hide Distinct, EntriesOf, Without;
    if next != null {
      IndexUnique(t, i);
    }
  }

  lemma KeysRemoved<K, E>(order: seq<HashElement<K, E>>, buckets: seq<seq<HashElement<K, E>>>, getIndex: K -> nat,
                          i: nat, j: nat)
    requires KeysOk(order, buckets, getIndex) && i < |order|
    requires var b := order[i].hashIndex;
      b < |buckets| && j < |buckets[b]| && buckets[b][j] == order[i] && Distinct(buckets[b])
    requires forall b, k :: 0 <= b < |buckets| && 0 <= k < |buckets[b]| ==> buckets[b][k].hashIndex == b
    ensures var b := order[i].hashIndex;
      KeysOk(Without(order, i), buckets[b := Without(buckets[b], j)], getIndex)
  {
    var n, b := order[i], order[i].hashIndex;
    var t, rest := Without(order, i), buckets[b := Without(buckets[b], j)];
    forall k | 0 <= k < |t|
      ensures t[k] in rest[t[k].hashIndex]
    {
      assert t[k] == order[if k < i then k else k + 1];
      if t[k].hashIndex == b {
        StaysIn(buckets[b], j, t[k]);
      }
    }
    forall c, k | 0 <= c < |rest| && 0 <= k < |rest[c]|
      ensures rest[c][k] in t
    {
      assert rest[c][k] == buckets[c][if c == b && k >= j then k + 1 else k];
      StaysIn(order, i, rest[c][k]);
    }
  }

  /** What is not taken out stays. */
  lemma StaysIn<T>(s: seq<T>, i: nat, x: T)
    requires i < |s| && x in s && x != s[i]
    ensures x in Without(s, i)
  {
    var m :| 0 <= m < |s| && s[m] == x;
    assert Without(s, i)[if m < i then m else m - 1] == x;
  }

  /** List and buckets have the same elements, keys are unique, each is in the bucket `getIndex` names. */
  ghost predicate KeysOk<K, E>(order: seq<HashElement<K, E>>, buckets: seq<seq<HashElement<K, E>>>,
                               getIndex: K -> nat) {
    && (forall i, j :: 0 <= i < j < |order| ==> order[i].key != order[j].key)
    && (forall i :: 0 <= i < |order| ==> order[i].hashIndex == getIndex(order[i].key) < |buckets|)
    && (forall i :: 0 <= i < |order| ==> order[i] in buckets[order[i].hashIndex])
    && (forall b, i :: 0 <= b < |buckets| && 0 <= i < |buckets[b]| ==> buckets[b][i] in order)
  }

  lemma KeysAdded<K, E>(order: seq<HashElement<K, E>>, buckets: seq<seq<HashElement<K, E>>>, getIndex: K -> nat,
                        n: HashElement<K, E>)
    requires KeysOk(order, buckets, getIndex)
    requires n.hashIndex == getIndex(n.key) < |buckets|
    requires !HasKey(EntriesOf(order), n.key)
    ensures KeysOk(order + [n], buckets[n.hashIndex := [n] + buckets[n.hashIndex]], getIndex)
  {
    assert forall i :: 0 <= i < |order| ==> order[i].key == EntriesOf(order)[i].0;
  }

  /** The entries a sweep leaves, in their order. */
  function Spared<K, E>(entries: seq<(K, E)>, dead: (K, E) -> bool): seq<(K, E)> {
    if entries == [] then []
    else (if dead(entries[0].0, entries[0].1) then [] else [entries[0]]) + Spared(entries[1..], dead)
  }

  lemma SparedStep<K, E>(entries: seq<(K, E)>, done: nat, dead: (K, E) -> bool)
    requires done < |entries|
    ensures entries[..done] + Spared(entries[done..], dead)
      == if dead(entries[done].0, entries[done].1) then entries[..done] + Spared(entries[done + 1..], dead)
         else entries[..done + 1] + Spared(entries[done + 1..], dead)
  {
    assert entries[done..][1..] == entries[done + 1..];
    assert entries[..done + 1] == entries[..done] + [entries[done]];
  }

  /** A sweep leaves every entry that is not dead, as often as it is there, and no dead one. */
  lemma {:induction false} SparedExact<K, E>(entries: seq<(K, E)>, dead: (K, E) -> bool, e: (K, E))
    ensures multiset(Spared(entries, dead))[e] == if dead(e.0, e.1) then 0 else multiset(entries)[e]
  {
    if entries != [] {
      SparedExact(entries[1..], dead, e);
      assert entries == [entries[0]] + entries[1..];
    }
  }

  lemma SparedCons<K, E>(e: (K, E), entries: seq<(K, E)>, dead: (K, E) -> bool)
    ensures Spared([e] + entries, dead) == (if dead(e.0, e.1) then [] else [e]) + Spared(entries, dead)
  {
    assert ([e] + entries)[1..] == entries;
  }

  /** It sweeps a beginning and the rest apart, so the order stays. */
  lemma {:induction false} SparedAppend<K, E>(a: seq<(K, E)>, b: seq<(K, E)>, dead: (K, E) -> bool)
    ensures Spared(a + b, dead) == Spared(a, dead) + Spared(b, dead)
    decreases |a|
  {
    if a == [] {
      assert a + b == b;
    } else {
      hide *;
      var e, rest := a[0], a[1..];
      var left := if dead(e.0, e.1) then [] else [e];
      SparedAppend(rest, b, dead);
      SparedCons(e, rest, dead);
      SparedCons(e, rest + b, dead);
      assert a == [e] + rest && a + b == [e] + (rest + b);
      assert left + (Spared(rest, dead) + Spared(b, dead)) == left + Spared(rest, dead) + Spared(b, dead);
    }
  }

  lemma SparedNothing<K, E>(entries: seq<(K, E)>, dead: (K, E) -> bool)
    ensures entries[..|entries|] + Spared(entries[|entries|..], dead) == entries
  {
  }

  lemma WithoutParts<T>(s: seq<T>, i: nat)
    requires i < |s|
    ensures Without(s, i)[..i] == s[..i] && Without(s, i)[i..] == s[i + 1..]
  {
  }

  lemma KeyGone<K, E>(entries: seq<(K, E)>, i: nat)
    requires i < |entries|
    requires forall i, j :: 0 <= i < j < |entries| ==> entries[i].0 != entries[j].0
    ensures !HasKey(Without(entries, i), entries[i].0)
  {
  }

  class RTPKeyHashTable<K(==), E> {
    const getIndex: K -> nat
    const table: array<HashElement?<K, E>>
    var firstHashElem: HashElement?<K, E>
    var lastHashElem: HashElement?<K, E>
    var curHashElem: HashElement?<K, E>

    // All elements in the order they were added, and the elements of each bucket from its head on.
    ghost var order: seq<HashElement<K, E>>
    ghost var buckets: seq<seq<HashElement<K, E>>>
    ghost var nodes: set<HashElement<K, E>>

    /** Bucket `b` holds elements whose keys belong there, newest first, and is linked up. */
    ghost predicate BucketOk(b: nat)
      requires b < |buckets| == table.Length
      reads `buckets, `nodes, table, nodes`hashPrev, nodes`hashNext
    {
      && (forall i :: 0 <= i < |buckets[b]| ==> buckets[b][i] in nodes && buckets[b][i].hashIndex == b)
      && Distinct(buckets[b])
      && BucketLinked(buckets[b])
      && table[b] == NodeAt(buckets[b], 0)
    }

    ghost predicate BucketsOk()
      reads `buckets, `nodes, table, nodes`hashPrev, nodes`hashNext
    {
      && |buckets| == table.Length
      && (forall b :: 0 <= b < |buckets| ==> BucketOk(b))
    }

    ghost predicate OrderOk()
      reads `order, `firstHashElem, `lastHashElem, `nodes, nodes`listPrev, nodes`listNext
    {
      && Distinct(order)
      && (forall i :: 0 <= i < |order| ==> order[i] in nodes)
      && ListLinked(order)
      && firstHashElem == NodeAt(order, 0)
      && lastHashElem == LastOf(order)
    }

    ghost predicate Valid()
      reads this, table, nodes
    {
      BucketsOk() && OrderOk() && KeysOk(order, buckets, getIndex)
    }

    /** The cursor is null or on an element of the table. Constructor and Clear do not establish this. */
    ghost predicate CursorValid()
      reads this
    {
      curHashElem != null ==> curHashElem in order
    }

    ghost function Entries(): seq<(K, E)>
      reads this
    {
      EntriesOf(order)
    }

    /** Position of the cursor in insertion order. */
    ghost function Cursor(): Option<nat>
      requires CursorValid()
      reads this
    {
      CursorIn(order, curHashElem)
    }

    /** The cursor is not initialised: nothing is known about it. */
    constructor (index: K -> nat, hashSize: nat)
      ensures Valid() && Entries() == []
      ensures getIndex == index && table.Length == hashSize && fresh(table)
    {
      getIndex := index;
      table := new HashElement?<K, E>[hashSize](i => null);
      firstHashElem, lastHashElem := null, null;
      order, buckets, nodes := [], seq(hashSize, i => []), {};
    }

    /** The walk along a bucket that GotoElement, HasElement and AddElement share. */
    method Find(k: K) returns (e: HashElement?<K, E>)
      requires Valid() && getIndex(k) < table.Length
      ensures e != null ==> e in order && e.key == k
      ensures HasKey(Entries(), k) <==> e != null
    {
      var index := getIndex(k);
      ghost var bucket, i := buckets[index], 0;
      assert BucketOk(index);
      e := table[index];
      var found := false;
      while !found && e != null
        invariant i <= |bucket| && e == NodeAt(bucket, i)
        invariant forall j :: 0 <= j < i ==> bucket[j].key != k
        invariant found ==> e != null && e.key == k
        decreases |bucket| - i, !found
      {
        if e.key == k {
          found := true;
        } else {
          e, i := e.hashNext, i + 1;
        }
      }
      if e != null {
        assert Entries()[IndexOf(order, e)].0 == k;
      }
    }

    method HasElement(k: K) returns (found: bool)
      requires Valid()
      ensures found <==> getIndex(k) < table.Length && HasKey(Entries(), k)
    {
      if getIndex(k) >= table.Length {
        return false;
      }
      var e := Find(k);
      return e != null;
    }

    /** New elements go to the front of their bucket and to the end of the list. The cursor stays. */
    method AddElement(k: K, e: E) returns (status: Status)
      requires Valid()
      modifies this`firstHashElem, this`lastHashElem, this`order, this`buckets, this`nodes, table, nodes
      ensures Valid()
      ensures status == if getIndex(k) >= table.Length then InvalidHashIndex
                        else if HasKey(old(Entries()), k) then KeyAlreadyExists else Success
      ensures Entries() == if status.Success? then old(Entries()) + [(k, e)] else old(Entries())
      ensures old(CursorValid()) ==> CursorValid() && Cursor() == old(Cursor())
      ensures fresh(nodes - old(nodes))
    {
      hide BucketsOk, OrderOk, KeysOk, HasKey, EntriesOf;
      var index := getIndex(k);
      if index >= table.Length {
        return InvalidHashIndex;
      }
      var found := Find(k);
      if found != null {
        return KeyAlreadyExists;
      }
      var n := new HashElement(k, e, index);
      Link(n);
      EntriesAdded(old(order), n, curHashElem);
      return Success;
    }

    method Link(n: HashElement<K, E>)
      requires Valid() && n !in nodes && n.hashIndex == getIndex(n.key) < table.Length
      requires !HasKey(Entries(), n.key)
      requires n.hashPrev == null && n.hashNext == null && n.listPrev == null && n.listNext == null
      modifies this`firstHashElem, this`lastHashElem, this`order, this`buckets, this`nodes, table, nodes, n
      ensures Valid() && order == old(order) + [n] && nodes == old(nodes) + {n}
    {
      TakeIn(n);
      hide BucketsOk, OrderOk, KeysOk, HasKey;
      LinkBucket(n);
      assert OrderOk();
      LinkList(n);
      assert BucketsOk();
      KeysAdded(old(order), old(buckets), getIndex, n);
    }

    /** The new element belongs to the table's footprint, but to no list yet. */
    ghost method TakeIn(n: HashElement<K, E>)
      requires Valid() && n !in nodes
      modifies `nodes
      ensures BucketsOk() && OrderOk() && nodes == old(nodes) + {n}
      ensures |buckets| == table.Length && n !in order && forall b :: 0 <= b < |buckets| ==> n !in buckets[b]
    {
      hide ListLinked, BucketLinked, Distinct;
      nodes := nodes + {n};
      forall b | 0 <= b < |buckets|
        ensures BucketOk(b) && n !in buckets[b]
      {
        assert old(BucketOk(b));
      }
    }

    method LinkBucket(n: HashElement<K, E>)
      requires BucketsOk() && n in nodes && n.hashIndex < table.Length && n !in buckets[n.hashIndex]
      requires n.hashPrev == null && n.hashNext == null
      modifies `buckets, table, nodes`hashPrev, n`hashNext
      ensures BucketsOk()
      ensures buckets == old(buckets)[n.hashIndex := [n] + old(buckets)[n.hashIndex]]
    {
      BucketElements();
      var index := n.hashIndex;
      assert BucketOk(index);
      BucketPush(n, table[index], buckets[index]);
      table[index] := n;
      buckets := buckets[index := [n] + buckets[index]];
      assert BucketOk(index);
      hide BucketOk;
      forall b | 0 <= b < |buckets| && b != index
        ensures BucketOk(b)
      {
        BucketUntouched(b);
      }
    }

    /** A bucket none of whose elements is relinked stays as it is. */
    twostate lemma BucketUntouched(b: nat)
      requires old(b < |buckets| == table.Length && BucketOk(b)) && |buckets| == table.Length && nodes == old(nodes)
      requires buckets[b] == old(buckets[b]) && table[b] == old(table[b])
      requires forall n :: n in old(buckets[b]) ==> n.hashPrev == old(n.hashPrev) && n.hashNext == old(n.hashNext)
      ensures BucketOk(b)
    {
    }

    method LinkList(n: HashElement<K, E>)
      requires OrderOk() && n !in order && n in nodes
      requires n.listPrev == null && n.listNext == null
      modifies `firstHashElem, `lastHashElem, `order, nodes`listNext, n`listPrev
      ensures OrderOk() && order == old(order) + [n]
    {
      ListAppend(n, lastHashElem, order);
      if firstHashElem == null {
        firstHashElem := n;
      }
      lastHashElem := n;
      order := order + [n];
    }

    // ------------------------------------------------------------ the cursor

    method GotoFirstElement()
      requires Valid()
      modifies `curHashElem
      ensures CursorValid() && Cursor() == if Entries() == [] then None else Some(0)
    {
      curHashElem := firstHashElem;
    }

    method GotoLastElement()
      requires Valid()
      modifies `curHashElem
      ensures CursorValid() && Cursor() == if Entries() == [] then None else Some(|Entries()| - 1)
    {
      curHashElem := lastHashElem;
      if order != [] {
        IndexUnique(order, |order| - 1);
      }
    }

    method GotoNextElement()
      requires Valid() && CursorValid()
      modifies `curHashElem
      ensures CursorValid()
      ensures Cursor() == match old(Cursor()) case None => None
                                              case Some(i) => if i + 1 < |Entries()| then Some(i + 1) else None
    {
      if curHashElem != null {
        ghost var i := IndexOf(order, curHashElem);
        curHashElem := curHashElem.listNext;
        if i + 1 < |order| {
          IndexUnique(order, i + 1);
        }
      }
    }

    method GotoPreviousElement()
      requires Valid() && CursorValid()
      modifies `curHashElem
      ensures CursorValid()
      ensures Cursor() == match old(Cursor()) case None => None
                                              case Some(i) => if i > 0 then Some(i - 1) else None
    {
      if curHashElem != null {
        ghost var i := IndexOf(order, curHashElem);
        curHashElem := curHashElem.listPrev;
        if i > 0 {
          IndexUnique(order, i - 1);
        }
      }
    }

    function HasCurrentElement(): (has: bool)
      requires Valid() && CursorValid()
      reads this, table, nodes
      ensures has <==> Cursor().Some?
    {
      curHashElem != null
    }

    /** Key and element at the cursor (GetCurrentKey, GetCurrentElement). */
    function GetCurrent(): (current: (K, E))
      requires Valid() && CursorValid() && Cursor().Some?
      reads this, table, nodes
      ensures current == Entries()[Cursor().value]
    {
      (curHashElem.key, curHashElem.element)
    }

    /** The cursor goes to the element with the key, or is lost. */
    method GotoElement(k: K) returns (status: Status)
      requires Valid()
      modifies `curHashElem
      ensures status == if getIndex(k) >= table.Length then InvalidHashIndex
                        else if HasKey(Entries(), k) then Success else KeyNotFound
      ensures status.Success? ==> CursorValid() && Cursor().Some? && Entries()[Cursor().value].0 == k
      ensures status.KeyNotFound? ==> CursorValid() && Cursor() == None
      ensures status.InvalidHashIndex? ==> curHashElem == old(curHashElem)
    {
      if getIndex(k) >= table.Length {
        return InvalidHashIndex;
      }
      curHashElem := Find(k);
      return if curHashElem == null then KeyNotFound else Success;
    }

    // ------------------------------------------------------------ removal

    /** The element at the cursor leaves the table; the cursor moves to the next one in insertion order. */
    method DeleteCurrentElement() returns (status: Status)
      requires Valid() && CursorValid()
      modifies `firstHashElem, `lastHashElem, `curHashElem, `order, `buckets, table, nodes
      ensures Valid() && CursorValid()
      ensures status == if old(Cursor()).None? then NoCurrentElement else Success
      ensures match old(Cursor())
        case None => Entries() == old(Entries()) && Cursor() == None
        case Some(i) => Entries() == Without(old(Entries()), i)
                        && Cursor() == if i < |Entries()| then Some(i) else None
    {
      if curHashElem == null {
        return NoCurrentElement;
      }
      ghost var i := IndexOf(order, curHashElem);
      Unlink(curHashElem, i);
      EntriesRemoved(old(order), i, curHashElem);
      return Success;
    }

    method Unlink(n: HashElement<K, E>, ghost i: nat)
      requires Valid() && i < |order| && order[i] == n
      modifies `firstHashElem, `lastHashElem, `curHashElem, `order, `buckets, table, nodes
      ensures Valid() && order == Without(old(order), i)
      ensures curHashElem == NodeAt(old(order), i + 1)
      ensures Distinct(old(order))
    {
      BucketElements();
      assert n.hashIndex < |buckets| && n in buckets[n.hashIndex];
      hide BucketsOk, OrderOk, KeysOk, IndexOf;
      ghost var j := IndexOf(buckets[n.hashIndex], n);
      UnlinkBucket(n, j);
      assert OrderOk();
      UnlinkList(n, i);
      assert BucketsOk();
      KeysRemoved(old(order), old(buckets), getIndex, i, j);
    }

    lemma BucketElements()
      requires BucketsOk()
      ensures |buckets| == table.Length
      ensures forall b :: 0 <= b < |buckets| ==> Distinct(buckets[b])
      ensures forall b, k :: 0 <= b < |buckets| && 0 <= k < |buckets[b]| ==> buckets[b][k].hashIndex == b
    {
      forall b | 0 <= b < |buckets|
        ensures Distinct(buckets[b]) && forall k :: 0 <= k < |buckets[b]| ==> buckets[b][k].hashIndex == b
      {
        assert BucketOk(b);
      }
    }

    /** Relinks the bucket of `n` without it. */
    method CutFromBucket(n: HashElement<K, E>, ghost j: nat)
      requires n.hashIndex < |buckets| == table.Length && BucketOk(n.hashIndex)
      requires j < |buckets[n.hashIndex]| && buckets[n.hashIndex][j] == n
      modifies table, buckets[n.hashIndex]`hashPrev, buckets[n.hashIndex]`hashNext
      ensures BucketWithout(n.hashIndex, Without(buckets[n.hashIndex], j))
      ensures forall b :: 0 <= b < table.Length && b != n.hashIndex ==> table[b] == old(table[b])
    {
      WithoutDistinct(buckets[n.hashIndex], j);
      hide Distinct, Without, BucketLinked, NodeAt;
      var head := BucketUnlink(n, table[n.hashIndex], buckets[n.hashIndex], j);
      table[n.hashIndex] := head;
    }

    lemma BucketIs(b: nat, rest: seq<HashElement<K, E>>)
      requires b < |buckets| == table.Length && buckets[b] == rest && BucketWithout(b, rest)
      ensures BucketOk(b)
    {
    }

    /** Bucket `b` is linked up to hold these elements. */
    ghost predicate BucketWithout(b: nat, rest: seq<HashElement<K, E>>)
      requires b < table.Length
      reads `nodes, table, rest`hashPrev, rest`hashNext
    {
      && (forall i :: 0 <= i < |rest| ==> rest[i] in nodes && rest[i].hashIndex == b)
      && Distinct(rest) && BucketLinked(rest) && table[b] == NodeAt(rest, 0)
    }

    method UnlinkBucket(n: HashElement<K, E>, ghost j: nat)
      requires BucketsOk() && n.hashIndex < table.Length
      requires j < |buckets[n.hashIndex]| && buckets[n.hashIndex][j] == n
      modifies `buckets, table, nodes`hashPrev, nodes`hashNext
      ensures BucketsOk()
      ensures buckets == old(buckets)[n.hashIndex := Without(old(buckets)[n.hashIndex], j)]
    {
      BucketElements();
      assert BucketOk(n.hashIndex);
      CutFromBucket(n, j);
      hide BucketOk;
      ghost var index := n.hashIndex;
      buckets := buckets[index := Without(buckets[index], j)];
      assert BucketOk(index) by {
        BucketIs(index, buckets[index]);
      }
      forall b | 0 <= b < |buckets| && b != index
        ensures BucketOk(b)
      {
        BucketUntouched(b);
      }
    }

    method UnlinkList(n: HashElement<K, E>, ghost i: nat)
      requires OrderOk() && i < |order| && order[i] == n
      modifies `firstHashElem, `lastHashElem, `curHashElem, `order, nodes`listPrev, nodes`listNext
      ensures OrderOk() && order == Without(old(order), i)
      ensures curHashElem == NodeAt(old(order), i + 1)
      ensures Distinct(old(order))
    {
      hide OrderOk, Distinct, Without, NodeAt, LastOf, ListLinked;
      OrderWithout(i);
      ghost var t := Without(order, i);
      var first, last, next := ListUnlink(n, firstHashElem, lastHashElem, order, i);
      firstHashElem, lastHashElem, curHashElem, order := first, last, next, t;
      OrderIs();
    }

    lemma OrderWithout(i: nat)
      requires OrderOk() && i < |order|
      ensures Distinct(order) && ListLinked(order) && (forall j :: 0 <= j < |order| ==> order[j] in nodes)
      ensures firstHashElem == order[0] && lastHashElem == order[|order| - 1]
      ensures Distinct(Without(order, i)) && forall j :: 0 <= j < |order| - 1 ==> Without(order, i)[j] in nodes
    {
      WithoutDistinct(order, i);
      hide Distinct, Without, ListLinked;
    }

    lemma OrderIs()
      requires Distinct(order) && ListLinked(order) && (forall j :: 0 <= j < |order| ==> order[j] in nodes)
      requires firstHashElem == NodeAt(order, 0) && lastHashElem == LastOf(order)
      ensures OrderOk()
    {
    }

    method DeleteElement(k: K) returns (status: Status)
      requires Valid()
      modifies `firstHashElem, `lastHashElem, `curHashElem, `order, `buckets, table, nodes
      ensures Valid()
      ensures status == if getIndex(k) >= table.Length then InvalidHashIndex
                        else if HasKey(old(Entries()), k) then Success else KeyNotFound
      ensures if status.Success? then
                exists i :: 0 <= i < |old(Entries())| && old(Entries())[i].0 == k
                            && Entries() == Without(old(Entries()), i) && !HasKey(Entries(), k)
                            && CursorValid() && Cursor() == if i < |Entries()| then Some(i) else None
              else Entries() == old(Entries())
    {
      hide BucketsOk, OrderOk, KeysOk, EntriesOf, CursorIn, HasKey;
      status := GotoElement(k);
      if status != Success {
        return;
      }
      ghost var entries, i := Entries(), Cursor().value;
      UniqueKeys();
      status := DeleteCurrentElement();
      KeyGone(entries, i);
    }

    lemma UniqueKeys()
      requires Valid()
      ensures forall i, j :: 0 <= i < j < |Entries()| ==> Entries()[i].0 != Entries()[j].0
    {
    }

    /** Every element is dropped, but the cursor is left as it was: unless it was null it now dangles. */
    method Clear()
      requires Valid()
      modifies `firstHashElem, `lastHashElem, `order, `buckets, table
      ensures Valid() && Entries() == []
      ensures CursorValid() <==> curHashElem == null
    {
      for i := 0 to table.Length
        modifies table
        invariant forall b :: 0 <= b < i ==> table[b] == null
      {
        table[i] := null;
      }
      var tmp, i := firstHashElem, 0;
      while tmp != null
        invariant 0 <= i <= |order| && tmp == NodeAt(order, i)
        decreases |order| - i
      {
        assert i + 1 < |order| ==> order[i].listNext == order[i + 1];
        tmp, i := tmp.listNext, i + 1;
      }
      firstHashElem, lastHashElem := null, null;
      order, buckets := [], seq(table.Length, b => []);
    }

    /** The loop of the timeouts: delete at the cursor or step on. What remains is what the test spares. */
    method DeleteWhere(dead: (K, E) -> bool)
      requires Valid()
      modifies `firstHashElem, `lastHashElem, `curHashElem, `order, `buckets, table, nodes
      ensures Valid() && CursorValid() && Cursor() == None
      ensures Entries() == Spared(old(Entries()), dead)
    {
      hide BucketsOk, OrderOk, KeysOk, Distinct, HasKey, EntriesOf, CursorIn, Spared, Without;
      GotoFirstElement();
      ghost var done: nat := 0;
      assert Entries()[..0] == [] && Entries()[0..] == Entries();
      while HasCurrentElement()
        invariant Valid() && CursorValid()
        invariant done <= |Entries()| && Cursor() == if done < |Entries()| then Some(done) else None
        invariant Entries()[..done] + Spared(Entries()[done..], dead) == Spared(old(Entries()), dead)
        decreases |Entries()| - done
      {
        done := DeleteOrGoOn(dead, done);
      }
      SparedNothing(Entries(), dead);
    }

    /** One turn of that loop: the entry at the cursor is deleted or joins those that are done. */
    method DeleteOrGoOn(dead: (K, E) -> bool, ghost done: nat) returns (ghost done': nat)
      requires Valid() && CursorValid() && done < |Entries()| && Cursor() == Some(done)
      modifies `firstHashElem, `lastHashElem, `curHashElem, `order, `buckets, table, nodes
      ensures Valid() && CursorValid()
      ensures done' <= |Entries()| && Cursor() == if done' < |Entries()| then Some(done') else None
      ensures Entries()[..done'] + Spared(Entries()[done'..], dead)
           == old(Entries())[..done] + Spared(old(Entries())[done..], dead)
      ensures |Entries()| - done' == old(|Entries()|) - done - 1
    {
      hide BucketsOk, OrderOk, KeysOk, Distinct, HasKey, EntriesOf, CursorIn, Spared, Without;
      ghost var entries := Entries();
      SparedStep(entries, done, dead);
      var (k, e) := GetCurrent();
      done' := done;
      if dead(k, e) {
        var status := DeleteCurrentElement();
        WithoutParts(entries, done);
      } else {
        GotoNextElement();
        done' := done + 1;
      }
    }
  }
}
