/**
 What an index means: a key-ordered sequence of entries, and the sorted-map operations on it.
 */
module SortedEntries {
  import opened Bytes
  import opened Keys

  datatype Entry<V> = Entry(key: Key, value: V)

  ghost predicate Sorted<V>(es: seq<Entry<V>>) {
    forall i, j | 0 <= i < j < |es| :: Lt(es[i].key, es[j].key)
  }

  /** Every key of `es` lies below `k`. */
  ghost predicate AllBelow<V>(es: seq<Entry<V>>, k: Key) {
    forall i | 0 <= i < |es| :: Lt(es[i].key, k)
  }

  function Find<V>(es: seq<Entry<V>>, k: Key): Option<V> {
    if es == [] then None else if es[0].key == k then Some(es[0].value) else Find(es[1..], k)
  }

  /** Replace the value of `k`, or insert it before the first larger key. */
  function Put<V>(es: seq<Entry<V>>, k: Key, v: V): (r: seq<Entry<V>>)
    ensures r != []
  {
    if es == [] || Lt(k, es[0].key) then [Entry(k, v)] + es
    else if es[0].key == k then [Entry(k, v)] + es[1..]
    else [es[0]] + Put(es[1..], k, v)
  }

  function Del<V>(es: seq<Entry<V>>, k: Key): seq<Entry<V>> {
    if es == [] then [] else if es[0].key == k then Del(es[1..], k) else [es[0]] + Del(es[1..], k)
  }

  /** The last entry whose key is at most `k`. */
  function Floor<V>(es: seq<Entry<V>>, k: Key): Option<Entry<V>> {
    if es == [] then None
    else if AtMost(es[|es| - 1].key, k) then Some(es[|es| - 1])
    else Floor(es[..|es| - 1], k)
  }

  predicate InRange(k: Key, gte: Option<Key>, lt: Option<Key>) {
    (gte.Some? ==> AtMost(gte.value, k)) && (lt.Some? ==> Lt(k, lt.value))
  }

  function Within<V>(es: seq<Entry<V>>, gte: Option<Key>, lt: Option<Key>): seq<Entry<V>> {
    if es == [] then []
    else (if InRange(es[0].key, gte, lt) then [es[0]] else []) + Within(es[1..], gte, lt)
  }

  /** The first entries, up to an optional limit. */
  function Take<V>(es: seq<Entry<V>>, limit: Option<nat>): seq<Entry<V>> {
    if limit.Some? && limit.value < |es| then es[..limit.value] else es
  }

  lemma TakeIsPrefix<V>(es: seq<Entry<V>>, limit: Option<nat>)
    ensures Take(es, limit) <= es && |Take(es, limit)| == if limit.Some? && limit.value < |es| then limit.value else |es|
  {
  }

  // ----- the finite map behind a sorted sequence

  function AsMap<V>(es: seq<Entry<V>>): map<Key, V> {
    if es == [] then map[] else AsMap(es[1..])[es[0].key := es[0].value]
  }

  lemma {:induction false} FindInMap<V>(es: seq<Entry<V>>, k: Key)
    ensures Find(es, k) == (if k in AsMap(es) then Some(AsMap(es)[k]) else None)
  {
    if es != [] {
      FindInMap(es[1..], k);
    }
  }

  lemma SortedTail<V>(es: seq<Entry<V>>)
    requires Sorted(es) && es != []
    ensures Sorted(es[1..]) && forall i | 0 <= i < |es| - 1 :: Lt(es[0].key, es[1..][i].key)
  {
  }

  lemma {:induction false} KeysOfMap<V>(es: seq<Entry<V>>, k: Key)
    ensures k in AsMap(es) <==> exists i | 0 <= i < |es| :: es[i].key == k
  {
    if es != [] {
      KeysOfMap(es[1..], k);
      if k in AsMap(es[1..]) {
        var i :| 0 <= i < |es[1..]| && es[1..][i].key == k;
        assert es[i + 1].key == k;
      }
      if i :| 0 <= i < |es| && es[i].key == k {
        assert i == 0 || es[1..][i - 1].key == k;
      }
    }
  }

  lemma {:induction false} FindEntry<V>(es: seq<Entry<V>>, i: nat)
    requires Sorted(es) && i < |es|
    ensures Find(es, es[i].key) == Some(es[i].value)
  {
    if i > 0 {
      assert Lt(es[0].key, es[i].key);
      LtIrreflexive(es[0].key);
      assert es[i] == es[1..][i - 1];
      SortedTail(es);
      FindEntry(es[1..], i - 1);
    }
  }

  /** A larger key than all of `es` is not in it, nor is a key below its first. */
  lemma {:induction false} FindBeyond<V>(es: seq<Entry<V>>, k: Key)
    requires AllBelow(es, k) || (Sorted(es) && (es == [] || Lt(k, es[0].key)))
    ensures Find(es, k) == None
  {
    if es != [] {
      LtIrreflexive(k);
      if !AllBelow(es, k) {
        SortedTail(es);
        if |es| > 1 {
          LtTransitive(k, es[0].key, es[1].key);
        }
      }
      FindBeyond(es[1..], k);
    }
  }

  lemma {:induction false} FindConcat<V>(a: seq<Entry<V>>, b: seq<Entry<V>>, k: Key)
    ensures Find(a + b, k) == if Find(a, k).Some? then Find(a, k) else Find(b, k)
  {
    if a == [] {
      assert a + b == b;
    } else {
      assert (a + b)[1..] == a[1..] + b;
      FindConcat(a[1..], b, k);
    }
  }

  // ----- put

  lemma {:induction false} PutAfter<V>(a: seq<Entry<V>>, b: seq<Entry<V>>, k: Key, v: V)
    requires AllBelow(a, k)
    ensures Put(a + b, k, v) == a + Put(b, k, v)
  {
    if a == [] {
      assert a + b == b && a + Put(b, k, v) == Put(b, k, v);
    } else {
      LtAsymmetric(a[0].key, k);
      LtIrreflexive(k);
      assert (a + b)[1..] == a[1..] + b;
      PutAfter(a[1..], b, k, v);
      assert a + Put(b, k, v) == [a[0]] + (a[1..] + Put(b, k, v));
    }
  }

  lemma {:induction false} PutBefore<V>(a: seq<Entry<V>>, b: seq<Entry<V>>, k: Key, v: V)
    requires b == [] || Lt(k, b[0].key)
    ensures Put(a + b, k, v) == Put(a, k, v) + b
  {
    if a == [] {
      assert a + b == b;
    } else {
      assert (a + b)[1..] == a[1..] + b && (a + b)[0] == a[0];
      PutBefore(a[1..], b, k, v);
    }
  }

  /** The new sequence is sorted and starts at the old first key or at `k`. */
  lemma {:induction false} PutSorted<V>(es: seq<Entry<V>>, k: Key, v: V)
    requires Sorted(es)
    ensures var r := Put(es, k, v);
      Sorted(r) && |r| <= |es| + 1 && r[0].key == if es == [] || Lt(k, es[0].key) then k else es[0].key
  {
    hide Lt;
    if es == [] || Lt(k, es[0].key) {
      SortedCons(Entry(k, v), es);
    } else if es[0].key == k {
      SortedTail(es);
      SortedCons(Entry(k, v), es[1..]);
    } else {
      SortedTail(es);
      PutSorted(es[1..], k, v);
      LtTotal(k, es[0].key);
      SortedCons(es[0], Put(es[1..], k, v));
    }
  }

  /** It ends at the old last key, or at `k` when that is larger. */
  lemma {:induction false} PutLast<V>(es: seq<Entry<V>>, k: Key, v: V)
    requires Sorted(es)
    ensures var r := Put(es, k, v); r[|r| - 1].key == if es == [] || Lt(es[|es| - 1].key, k) then k else es[|es| - 1].key
  {
    hide Lt;
    if es != [] {
      var n := |es| - 1;
      if Lt(k, es[0].key) || es[0].key == k {
        if n > 0 {
          assert Lt(es[0].key, es[n].key);
          if es[0].key != k {
            LtTransitive(k, es[0].key, es[n].key);
          }
        }
        LtIrreflexive(k);
        LtAsymmetric(k, es[n].key);
      } else {
        SortedTail(es);
        LtTotal(k, es[0].key);
        PutLast(es[1..], k, v);
        var t := Put(es[1..], k, v);
        assert Put(es, k, v)[|t|] == t[|t| - 1];
      }
    }
  }

  lemma SortedCons<V>(e: Entry<V>, es: seq<Entry<V>>)
    requires Sorted(es) && (es == [] || Lt(e.key, es[0].key))
    ensures Sorted([e] + es)
  {
    hide Lt;
    var s := [e] + es;
    forall i, j | 0 <= i < j < |s| ensures Lt(s[i].key, s[j].key) {
      if i == 0 && j > 1 {
        LtTransitive(e.key, es[0].key, es[j - 1].key);
      }
    }
  }

  lemma SortedConcat<V>(a: seq<Entry<V>>, b: seq<Entry<V>>)
    requires Sorted(a) && Sorted(b) && (a == [] || b == [] || Lt(a[|a| - 1].key, b[0].key))
    ensures Sorted(a + b)
  {
    hide Lt;
    var s := a + b;
    forall i, j | 0 <= i < j < |s| ensures Lt(s[i].key, s[j].key) {
      if i < |a| <= j {
        if i < |a| - 1 {
          LtTransitive(a[i].key, a[|a| - 1].key, b[0].key);
        }
        if j > |a| {
          LtTransitive(a[i].key, b[0].key, b[j - |a|].key);
        }
      }
    }
  }

  lemma {:induction false} PutMap<V>(es: seq<Entry<V>>, k: Key, v: V)
    ensures AsMap(Put(es, k, v)) == AsMap(es)[k := v]
  {
    if es != [] && !Lt(k, es[0].key) && es[0].key != k {
      PutMap(es[1..], k, v);
    }
  }

  // ----- delete

  lemma {:induction false} DelConcat<V>(a: seq<Entry<V>>, b: seq<Entry<V>>, k: Key)
    ensures Del(a + b, k) == Del(a, k) + Del(b, k)
  {
    if a == [] {
      assert a + b == b;
    } else {
      assert (a + b)[1..] == a[1..] + b;
      DelConcat(a[1..], b, k);
    }
  }

  lemma {:induction false} DelAbsent<V>(es: seq<Entry<V>>, k: Key)
    requires Find(es, k) == None
    ensures Del(es, k) == es
  {
    if es != [] {
      DelAbsent(es[1..], k);
    }
  }

  /** Deletion keeps order, and keeps the ends within the old ones. */
  lemma {:induction false} DelSorted<V>(es: seq<Entry<V>>, k: Key)
    requires Sorted(es)
    ensures var r := Del(es, k);
      Sorted(r) && |r| <= |es|
      && (r != [] ==> AtMost(es[0].key, r[0].key) && AtMost(r[|r| - 1].key, es[|es| - 1].key))
  {
    if es != [] {
      TotalOrder();
      hide Lt;
      SortedTail(es);
      DelSorted(es[1..], k);
      var t := Del(es[1..], k);
      if t != [] {
        assert Lt(es[0].key, es[1].key) && Lt(es[0].key, t[0].key);
      }
      SortedCons(es[0], t);
    }
  }

  lemma {:induction false} DelMap<V>(es: seq<Entry<V>>, k: Key)
    ensures AsMap(Del(es, k)) == AsMap(es) - {k}
  {
    if es != [] {
      DelMap(es[1..], k);
    }
  }

  // ----- floor and range

  lemma {:induction false} FloorConcat<V>(a: seq<Entry<V>>, b: seq<Entry<V>>, k: Key)
    ensures Floor(a + b, k) == if Floor(b, k).Some? then Floor(b, k) else Floor(a, k)
  {
    if b == [] {
      assert a + b == a;
    } else {
      assert (a + b)[..|a + b| - 1] == a + b[..|b| - 1];
      FloorConcat(a, b[..|b| - 1], k);
    }
  }

  /** Nothing at or below `k` when even the first key is larger. */
  lemma {:induction false} FloorAbove<V>(es: seq<Entry<V>>, k: Key)
    requires Sorted(es) && (es == [] || Lt(k, es[0].key))
    ensures Floor(es, k) == None
  {
    if es != [] {
      var n := |es| - 1;
      if n > 0 {
        LtTransitive(k, es[0].key, es[n].key);
      }
      FloorAbove(es[..n], k);
    }
  }

  /** The greatest entry at or below `k`: what a floor lookup means for a map. */
  lemma {:induction false} FloorIsGreatest<V>(es: seq<Entry<V>>, k: Key)
    requires Sorted(es)
    ensures match Floor(es, k)
      case None => forall i | 0 <= i < |es| :: Lt(k, es[i].key)
      case Some(e) => e in es && AtMost(e.key, k) && forall i | 0 <= i < |es| && Lt(e.key, es[i].key) :: Lt(k, es[i].key)
  {
    hide Lt;
    if es != [] {
      var n := |es| - 1;
      FloorIsGreatest(es[..n], k);
      forall i | 0 <= i < |es| ensures !Lt(es[n].key, es[i].key) {
        LtAsymmetric(es[n].key, es[i].key);
        LtIrreflexive(es[n].key);
      }
      assert forall i | 0 <= i < n :: es[..n][i] == es[i];
    }
  }

  lemma {:induction false} WithinConcat<V>(a: seq<Entry<V>>, b: seq<Entry<V>>, gte: Option<Key>, lt: Option<Key>)
    ensures Within(a + b, gte, lt) == Within(a, gte, lt) + Within(b, gte, lt)
  {
    if a == [] {
      assert a + b == b;
    } else {
      assert (a + b)[1..] == a[1..] + b;
      WithinConcat(a[1..], b, gte, lt);
    }
  }

  lemma {:induction false} WithinNone<V>(es: seq<Entry<V>>, gte: Option<Key>, lt: Option<Key>)
    requires forall i | 0 <= i < |es| :: !InRange(es[i].key, gte, lt)
    ensures Within(es, gte, lt) == []
  {
    if es != [] {
      assert !InRange(es[0].key, gte, lt);
      WithinNone(es[1..], gte, lt);
    }
  }

  /** A range holds exactly the entries with a key inside it... */
  lemma {:induction false} WithinMember<V>(es: seq<Entry<V>>, gte: Option<Key>, lt: Option<Key>, e: Entry<V>)
    ensures e in Within(es, gte, lt) <==> e in es && InRange(e.key, gte, lt)
  {
    hide InRange;
    if es != [] {
      WithinMember(es[1..], gte, lt, e);
      assert e in es <==> e == es[0] || e in es[1..];
    }
  }

  /** ...in order. */
  lemma {:induction false} WithinSorted<V>(es: seq<Entry<V>>, gte: Option<Key>, lt: Option<Key>)
    requires Sorted(es)
    ensures Sorted(Within(es, gte, lt))
  {
    hide Lt, InRange;
    if es != [] {
      SortedTail(es);
      WithinSorted(es[1..], gte, lt);
      var t := Within(es[1..], gte, lt);
      if t != [] {
        WithinMember(es[1..], gte, lt, t[0]);
        HeadBelow(es, t[0]);
      }
      if InRange(es[0].key, gte, lt) {
        SortedCons(es[0], t);
      }
    }
  }

  lemma HeadBelow<V>(es: seq<Entry<V>>, e: Entry<V>)
    requires Sorted(es) && es != [] && e in es[1..]
    ensures Lt(es[0].key, e.key)
  {
    hide Lt;
    var i :| 0 <= i < |es| - 1 && es[1..][i] == e;
  }

  // ----- any run of updates

  datatype Edit<V> = SetEdit(key: Key, value: V) | RemoveEdit(key: Key)

  function EditAll<V>(es: seq<Entry<V>>, edits: seq<Edit<V>>): seq<Entry<V>> {
    if edits == [] then es
    else
      var before := EditAll(es, edits[..|edits| - 1]);
      match edits[|edits| - 1]
      case SetEdit(k, v) => Put(before, k, v)
      case RemoveEdit(k) => Del(before, k)
  }

  /** The same updates on a plain map. */
  function EditMap<V>(m: map<Key, V>, edits: seq<Edit<V>>): map<Key, V> {
    if edits == [] then m
    else
      var before := EditMap(m, edits[..|edits| - 1]);
      match edits[|edits| - 1]
      case SetEdit(k, v) => before[k := v]
      case RemoveEdit(k) => before - {k}
  }

  /** Any sequence of `set` and `remove` on an empty index gives the key-ordered listing of the map so built. */
  lemma {:induction false} EditsRefineMap<V>(edits: seq<Edit<V>>)
    ensures Sorted(EditAll([], edits)) && AsMap(EditAll([], edits)) == EditMap(map[], edits)
  {
    hide Lt;
    if edits != [] {
      var before := EditAll([], edits[..|edits| - 1]);
      EditsRefineMap(edits[..|edits| - 1]);
      match edits[|edits| - 1]
      case SetEdit(k, v) =>
        PutSorted(before, k, v);
        PutMap(before, k, v);
      case RemoveEdit(k) =>
        DelSorted(before, k);
        DelMap(before, k);
    }
  }

  /** A map has only one key-ordered listing. */
  lemma {:induction false} ListingIsUnique<V>(a: seq<Entry<V>>, b: seq<Entry<V>>)
    requires Sorted(a) && Sorted(b) && AsMap(a) == AsMap(b)
    ensures a == b
  {
    hide Lt, AsMap;
    if a == [] || b == [] {
      EmptyListing(a);
      EmptyListing(b);
    } else {
      FirstKeys(a, b);
      FirstKeys(b, a);
      LtTotal(a[0].key, b[0].key);
      FindEntry(a, 0);
      FindEntry(b, 0);
      FindInMap(a, a[0].key);
      FindInMap(b, b[0].key);
      TailMap(a);
      TailMap(b);
      SortedTail(a);
      SortedTail(b);
      ListingIsUnique(a[1..], b[1..]);
      assert a == [a[0]] + a[1..] && b == [b[0]] + b[1..];
    }
  }

  lemma EmptyListing<V>(a: seq<Entry<V>>)
    ensures a == [] <==> AsMap(a) == map[]
  {
    KeysOfMap(a, if a == [] then [] else a[0].key);
  }

  lemma FirstKeys<V>(a: seq<Entry<V>>, b: seq<Entry<V>>)
    requires Sorted(a) && Sorted(b) && AsMap(a) == AsMap(b) && a != [] && b != []
    ensures !Lt(a[0].key, b[0].key)
  {
    hide Lt, AsMap;
    KeysOfMap(a, a[0].key);
    KeysOfMap(b, a[0].key);
    var i :| 0 <= i < |b| && b[i].key == a[0].key;
    LtIrreflexive(b[0].key);
    LtAsymmetric(a[0].key, b[0].key);
  }

  lemma TailMap<V>(a: seq<Entry<V>>)
    requires Sorted(a) && a != []
    ensures AsMap(a[1..]) == AsMap(a) - {a[0].key}
  {
    hide Lt;
    SortedTail(a);
    if a[0].key in AsMap(a[1..]) {
      KeysOfMap(a[1..], a[0].key);
      LtIrreflexive(a[0].key);
    }
  }
}
