/**
 * The in-process cache: a map of entries, a recency list of their keys and a
 * byte count, kept in step. Each method is proved to compute the operation of
 * the same name in Lru.
 */
module MemoryCache {
  import opened Common
  import opened Decimal
  import opened Lru

  // ----- the entries in list order ------------------------------------------

  ghost predicate NoRepeats(order: seq<Key>) {
    forall i, j :: 0 <= i < j < |order| ==> order[i] != order[j]
  }

  /** list.Remove of the element holding `k`. */
  function RemoveKey(order: seq<Key>, k: Key): seq<Key> {
    if order == [] then [] else if order[0] == k then order[1..] else [order[0]] + RemoveKey(order[1..], k)
  }

  ghost predicate Filed(order: seq<Key>, items: map<Key, Line>) {
    forall k :: k in order ==> k in items && items[k].key == k
  }

  ghost function Lines(order: seq<Key>, items: map<Key, Line>): seq<Line>
    requires Filed(order, items)
  {
    if order == [] then [] else [items[order[0]]] + Lines(order[1..], items)
  }

  lemma {:induction false} LinesAt(order: seq<Key>, items: map<Key, Line>)
    requires Filed(order, items)
    ensures |Lines(order, items)| == |order|
    ensures forall i :: 0 <= i < |order| ==> Lines(order, items)[i] == items[order[i]]
  {
    if order != [] {
      LinesAt(order[1..], items);
    }
  }

  lemma {:induction false} LinesAgree(order: seq<Key>, items: map<Key, Line>, items': map<Key, Line>)
    requires Filed(order, items)
    requires forall k :: k in order ==> k in items' && items'[k] == items[k]
    ensures Filed(order, items') && Lines(order, items') == Lines(order, items)
  {
    if order != [] {
      LinesAgree(order[1..], items, items');
    }
  }

  lemma {:induction false} RemoveKeyFacts(order: seq<Key>, k: Key)
    requires NoRepeats(order)
    ensures NoRepeats(RemoveKey(order, k))
    ensures forall x :: x in RemoveKey(order, k) <==> x in order && x != k
  {
    if order != [] {
      assert NoRepeats(order[1..]);
      RemoveKeyFacts(order[1..], k);
      assert forall x :: x in order <==> x == order[0] || x in order[1..];
      if order[0] == k {
        assert k !in order[1..];
      } else {
        forall i, j | 0 <= i < j < |RemoveKey(order, k)| ensures RemoveKey(order, k)[i] != RemoveKey(order, k)[j] {
          if i == 0 {
            assert RemoveKey(order[1..], k)[j - 1] in order[1..];
          }
        }
      }
    }
  }

  lemma {:induction false} WithoutAbsent(es: seq<Line>, k: Key)
    requires forall e :: e in es ==> e.key != k
    ensures Without(es, k) == es
  {
    if es != [] {
      assert es[0] in es;
      WithoutAbsent(es[1..], k);
    }
  }

  lemma {:induction false} RemoveKeyIsWithout(order: seq<Key>, items: map<Key, Line>, k: Key)
    requires NoRepeats(order) && Filed(order, items)
    ensures Filed(RemoveKey(order, k), items)
    ensures Lines(RemoveKey(order, k), items) == Without(Lines(order, items), k)
  {
    RemoveKeyFacts(order, k);
    if order != [] {
      assert order[0] in order;
      var rest := order[1..];
      if order[0] == k {
        LinesAt(rest, items);
        forall e | e in Lines(rest, items) ensures e.key != k {
          var i :| 0 <= i < |rest| && Lines(rest, items)[i] == e;
          assert rest[i] in order && order[i + 1] != order[0];
        }
        WithoutAbsent(Lines(rest, items), k);
      } else {
        RemoveKeyIsWithout(rest, items, k);
        RemoveKeyFacts(rest, k);
        assert RemoveKey(order, k)[1..] == RemoveKey(rest, k);
      }
    }
  }

  lemma LinesDistinct(order: seq<Key>, items: map<Key, Line>)
    requires NoRepeats(order) && Filed(order, items)
    ensures Distinct(Lines(order, items))
  {
    LinesAt(order, items);
  }

  /** Looking a key up in the map is finding it in the list. */
  lemma {:induction false} FindIsLookup(order: seq<Key>, items: map<Key, Line>, k: Key)
    requires Filed(order, items)
    ensures Find(Lines(order, items), k) == if k in order then Some(items[k]) else None
  {
    if order != [] {
      assert order[0] in order;
      if order[0] != k {
        FindIsLookup(order[1..], items, k);
      }
    }
  }

  lemma {:induction false} WithoutLast(es: seq<Line>)
    requires es != [] && Distinct(es)
    ensures Without(es, es[|es| - 1].key) == es[..|es| - 1]
  {
    var k := es[|es| - 1].key;
    if |es| > 1 {
      assert es[0].key != k;
      assert Distinct(es[1..]);
      WithoutLast(es[1..]);
      assert es[..|es| - 1] == [es[0]] + es[1..][..|es| - 2];
    }
  }

  lemma {:induction false} SizeWithout(es: seq<Line>, k: Key)
    requires Distinct(es) && Find(es, k).Some?
    ensures Size(Without(es, k)) == Size(es) - |Find(es, k).value.data|
  {
    if es[0].key == k {
      forall e | e in es[1..] ensures e.key != k {
        var i :| 0 <= i < |es| - 1 && es[1..][i] == e;
        assert es[i + 1].key != es[0].key;
      }
      WithoutAbsent(es[1..], k);
    } else {
      assert Distinct(es[1..]);
      SizeWithout(es[1..], k);
    }
  }

  lemma AbsentLine(order: seq<Key>, items: map<Key, Line>, k: Key)
    requires Filed(order, items) && k !in order
    ensures Without(Lines(order, items), k) == Lines(order, items)
  {
    LinesAt(order, items);
    forall e | e in Lines(order, items) ensures e.key != k {
      var i :| 0 <= i < |order| && Lines(order, items)[i] == e;
      assert order[i] in order;
    }
    WithoutAbsent(Lines(order, items), k);
  }

  lemma LastLine(order: seq<Key>, items: map<Key, Line>)
    requires order != [] && NoRepeats(order) && Filed(order, items)
    ensures |Lines(order, items)| == |order|
    ensures order[|order| - 1] in order
    ensures Without(Lines(order, items), order[|order| - 1]) == Lines(order, items)[..|order| - 1]
  {
    LinesDistinct(order, items);
    LinesAt(order, items);
    WithoutLast(Lines(order, items));
  }

  lemma MovedToFront(order: seq<Key>, items: map<Key, Line>, k: Key)
    requires NoRepeats(order) && Filed(order, items) && k in order
    ensures var order' := [k] + RemoveKey(order, k);
            && NoRepeats(order') && Filed(order', items)
            && (forall x :: x in order' <==> x in order)
            && Lines(order', items) == [items[k]] + Without(Lines(order, items), k)
            && Size(Lines(order', items)) == Size(Lines(order, items))
  {
    var rest := RemoveKey(order, k);
    RemoveKeyFacts(order, k);
    RemoveKeyIsWithout(order, items, k);
    assert ([k] + rest)[1..] == rest;
    LinesDistinct(order, items);
    FindIsLookup(order, items, k);
    SizeWithout(Lines(order, items), k);
    SizeConcat([items[k]], Lines(rest, items));
  }

  class MemoryCache {
    var items: map<Key, Line>
    var lruList: seq<Key>
    const maxSize: int
    var currentSize: int

    /** Map keys and list elements coincide, without repeats, and the count is the stored bytes. */
    ghost predicate InStep()
      reads this
    {
      && NoRepeats(lruList)
      && (forall k :: k in items <==> k in lruList)
      && (forall k :: k in items ==> items[k].key == k)
      && currentSize == Size(Lines(lruList, items))
    }

    ghost predicate Valid()
      reads this
    {
      InStep() && currentSize <= Bound(maxSize)
    }

    /** The entries, most recently used first. */
    ghost function View(): seq<Line>
      requires InStep()
      reads this
    {
      Lines(lruList, items)
    }

    constructor (max: int)
      ensures Valid() && View() == [] && maxSize == max
    {
      items := map[];
      lruList := [];
      maxSize := max;
      currentSize := 0;
    }

    method RemoveEntry(k: Key)
      requires InStep() && k in items
      modifies this
      ensures InStep() && View() == Without(old(View()), k)
      ensures items == old(items) - {k} && |lruList| < old(|lruList|)
    {
      LinesDistinct(lruList, items);
      FindIsLookup(lruList, items, k);
      SizeWithout(View(), k);
      RemoveKeyFacts(lruList, k);
      RemoveKeyIsWithout(lruList, items, k);
      LinesAgree(RemoveKey(lruList, k), items, items - {k});
      RemoveKeyLength(lruList, k);
      currentSize := currentSize - |items[k].data|;
      lruList := RemoveKey(lruList, k);
      items := items - {k};
    }

    method EvictLRU()
      requires InStep()
      modifies this
      ensures InStep() && (old(View()) == [] <==> old(lruList) == [])
      ensures View() == if old(View()) == [] then [] else old(View())[..|old(View())| - 1]
      ensures items.Keys <= old(items.Keys) && (old(lruList) != [] ==> |lruList| < old(|lruList|))
    {
      if lruList == [] {
        return;
      }
      var back := lruList[|lruList| - 1];
      LastLine(lruList, items);
      RemoveEntry(back);
    }

    /** The eviction loop of Set and IncrBy. */
    method MakeRoom(size: nat)
      requires InStep()
      modifies this
      ensures InStep() && View() == Fit(old(View()), maxSize - size)
      ensures items.Keys <= old(items.Keys)
    {
      while currentSize + size > maxSize && |lruList| > 0
        invariant InStep() && Fit(View(), maxSize - size) == Fit(old(View()), maxSize - size)
        invariant items.Keys <= old(items.Keys)
        decreases |lruList|
      {
        EvictLRU();
      }
    }

    method PushFront(e: Line)
      requires InStep() && e.key !in items
      modifies this
      ensures InStep() && View() == [e] + old(View())
      ensures currentSize == old(currentSize) + |e.data|
    {
      LinesAgree(lruList, items, items[e.key := e]);
      lruList := [e.key] + lruList;
      items := items[e.key := e];
      currentSize := currentSize + |e.data|;
      assert lruList[1..] == old(lruList);
    }

    method Get(now: int, k: Key) returns (data: seq<Byte>, ok: bool)
      requires Valid()
      modifies this
      ensures Valid() && View() == AfterGet(old(View()), now, k)
      ensures ok <==> k in old(items) && (old(items)[k].expires.None? || now <= old(items)[k].expires.value)
      ensures data == if ok then old(items)[k].data else []
      ensures View() == (if ok then [old(items)[k]] else []) + Without(old(View()), k)
    {
      FindIsLookup(lruList, items, k);
      GetKeepsSize(View(), now, k);
      if k !in items {
        AbsentLine(lruList, items, k);
        return [], false;
      }
      var e := items[k];
      if e.expires.Some? && now > e.expires.value {
        RemoveEntry(k);
        return [], false;
      }
      MoveToFront(k);
      return e.data, true;
    }

    method MoveToFront(k: Key)
      requires InStep() && k in items
      modifies this`lruList
      ensures InStep() && View() == [items[k]] + Without(old(View()), k)
    {
      MovedToFront(lruList, items, k);
      lruList := [k] + RemoveKey(lruList, k);
    }

    method Set(now: int, k: Key, value: seq<Byte>, ttl: int)
      requires Valid()
      modifies this
      ensures Valid() && View() == AfterSet(old(View()), maxSize, now, k, value, ttl)
      ensures if |value| > maxSize then View() == [] else
                View() != [] && View()[0] == Line(k, value, if ttl > 0 then Some(now + ttl) else None)
    {
      SetPutsInFront(View(), maxSize, now, k, value, ttl);
      FindIsLookup(lruList, items, k);
      SetLeavesAtMostMax(View(), maxSize, now, k, value, ttl);
      Discard(k);
      MakeRoom(|value|);
      if |value| > maxSize {
        return;
      }
      PushFront(Line(k, value, if ttl > 0 then Some(now + ttl) else None));
    }

    /** Remove the entry if there is one. */
    method Discard(k: Key)
      requires InStep()
      modifies this
      ensures InStep() && View() == Without(old(View()), k) && k !in items
      ensures Size(View()) <= old(Size(View()))
    {
      WithoutFacts(View(), k);
      if k in items {
        RemoveEntry(k);
      } else {
        AbsentLine(lruList, items, k);
      }
    }

    method Delete(k: Key)
      requires Valid()
      modifies this
      ensures Valid() && View() == Without(old(View()), k)
    {
      Discard(k);
    }

    method Close()
      modifies this
      ensures Valid() && View() == []
    {
      items := map[];
      lruList := [];
      currentSize := 0;
    }

    method IncrBy(now: int, k: Key, n: int, ttl: int) returns (cur: int)
      requires Valid() && IsInt64(n)
      modifies this
      ensures Valid() && View() == AfterIncrBy(old(View()), maxSize, now, k, n, ttl)
      ensures var live := k in old(items) && (old(items)[k].expires.None? || now < old(items)[k].expires.value);
              var start := if live then ParseInt(old(items)[k].data) else 0;
              && cur == Add64(start, n)
              && View() != []
              && View()[0] == Line(k, FormatInt(cur),
                                   if live && old(items)[k].expires.Some? then old(items)[k].expires
                                   else if start == 0 && ttl > 0 then Some(now + ttl) else None)
    {
      StepKeepsBound(View(), maxSize, Op.IncrBy(now, k, n, ttl));
      var e;
      cur, e := NextCount(now, k, n, ttl);
      Discard(k);
      MakeRoom(|e.data|);
      PushFront(e);
    }

    /** The entry IncrBy will write. */
    method NextCount(now: int, k: Key, n: int, ttl: int) returns (cur: int, e: Line)
      requires InStep()
      ensures e == Incremented(Find(View(), k), now, k, n, ttl)
      ensures var live := k in items && (items[k].expires.None? || now < items[k].expires.value);
              var start := if live then ParseInt(items[k].data) else 0;
              && cur == Add64(start, n)
              && e == Line(k, FormatInt(cur),
                           if live && items[k].expires.Some? then items[k].expires
                           else if start == 0 && ttl > 0 then Some(now + ttl) else None)
    {
      FindIsLookup(lruList, items, k);
      ghost var found := Find(View(), k);
      cur := 0;
      var expires := None;
      if k in items {
        var entry := items[k];
        if entry.expires.None? || now < entry.expires.value {
          cur := ParseInt(entry.data);
          expires := entry.expires; // keep the creation-time expiry
        }
      }
      assert cur == CountOf(found, now);
      if cur == 0 && expires.None? && ttl > 0 {
        expires := Some(now + ttl);
      }
      assert expires == ExpiryAfterIncr(found, now, ttl);
      cur := Add64(cur, n);
      e := Line(k, FormatInt(cur), expires);
    }
  }

  lemma {:induction false} RemoveKeyLength(order: seq<Key>, k: Key)
    requires k in order
    ensures |RemoveKey(order, k)| == |order| - 1
  {
    if order[0] != k {
      RemoveKeyLength(order[1..], k);
    }
  }
}
