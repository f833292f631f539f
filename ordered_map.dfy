/** std::map<std::string, V>, the container behind JSONObject: a sequence
    of entries whose keys ascend strictly under std::string operator<.
    Keys are therefore unique, and walking the sequence front to back is
    the map's iteration order. */
module OrderedMap {
  import opened Errors
  import opened Text

  datatype Entry<V> = Entry(key: string, value: V)

  /** The map invariant: keys strictly ascending. */
  ghost predicate Sorted<V>(es: seq<Entry<V>>) {
    forall i, j :: 0 <= i < j < |es| ==> StrLess(es[i].key, es[j].key)
  }

  function Keys<V>(es: seq<Entry<V>>): set<string> {
    if |es| == 0 then {} else {es[0].key} + Keys(es[1..])
  }

  /** map::find: the value stored under k, if any. */
  function Lookup<V>(es: seq<Entry<V>>, k: string): (r: Option<V>)
    ensures r.Some? <==> k in Keys(es)
  {
    if |es| == 0 then None
    else if es[0].key == k then Some(es[0].value)
    else Lookup(es[1..], k)
  }

  /** m[k] = v: overwrites the value under k, or adds k at its place in key
      order. */
  function Insert<V>(es: seq<Entry<V>>, k: string, v: V): seq<Entry<V>> {
    if |es| == 0 then [Entry(k, v)]
    else if es[0].key == k then [Entry(k, v)] + es[1..]
    else if StrLess(k, es[0].key) then [Entry(k, v)] + es
    else [es[0]] + Insert(es[1..], k, v)
  }

  lemma {:induction false} KeyAt<V>(es: seq<Entry<V>>, i: nat)
    requires i < |es|
    ensures es[i].key in Keys(es)
  {
    if i > 0 {
      KeyAt(es[1..], i - 1);
    }
  }

  /** In a sorted map no two entries share a key. */
  lemma SortedKeysUnique<V>(es: seq<Entry<V>>, i: nat, j: nat)
    requires Sorted(es)
    requires i < |es| && j < |es| && i != j
    ensures es[i].key != es[j].key
  {
    if i < j {
      StrLessIrreflexive(es[i].key);
    } else {
      StrLessIrreflexive(es[j].key);
    }
  }

  /** In a sorted map, find returns the entry stored at each position. */
  lemma {:induction false} LookupSorted<V>(es: seq<Entry<V>>, i: nat)
    requires Sorted(es)
    requires i < |es|
    ensures Lookup(es, es[i].key) == Some(es[i].value)
  {
    if i > 0 {
      SortedKeysUnique(es, 0, i);
      assert es[1..][i - 1] == es[i];
      LookupSorted(es[1..], i - 1);
    }
  }

  lemma {:induction false} InsertKeys<V>(es: seq<Entry<V>>, k: string, v: V)
    ensures Keys(Insert(es, k, v)) == Keys(es) + {k}
  {
    if |es| > 0 && es[0].key != k && !StrLess(k, es[0].key) {
      InsertKeys(es[1..], k, v);
    } else if |es| > 0 && es[0].key == k {
      assert Keys([Entry(k, v)] + es[1..]) == {k} + Keys(es[1..]);
    } else if |es| > 0 {
      assert ([Entry(k, v)] + es)[1..] == es;
    }
  }

  lemma SortedCons<V>(e: Entry<V>, rest: seq<Entry<V>>)
    requires Sorted(rest)
    requires forall k :: k in Keys(rest) ==> StrLess(e.key, k)
    ensures Sorted([e] + rest)
  {
    forall j | 0 <= j < |rest|
      ensures StrLess(e.key, rest[j].key)
    {
      KeyAt(rest, j);
    }
  }

  lemma {:induction false} KeysBelow<V>(es: seq<Entry<V>>, k: string)
    requires Sorted(es)
    requires |es| > 0 && StrLess(k, es[0].key)
    ensures forall k' :: k' in Keys(es) ==> StrLess(k, k')
  {
    if |es| > 1 {
      assert Sorted(es[1..]);
      StrLessTransitive(k, es[0].key, es[1].key);
      KeysBelow(es[1..], k);
    }
  }

  /** operator[] keeps the map invariant: keys stay unique and ascending. */
  lemma {:induction false} InsertSorted<V>(es: seq<Entry<V>>, k: string, v: V)
    requires Sorted(es)
    ensures Sorted(Insert(es, k, v))
  {
    if |es| == 0 {
    } else if es[0].key == k {
      assert Sorted(es[1..]);
      if |es| > 1 {
        KeysBelow(es[1..], k);
      }
      SortedCons(Entry(k, v), es[1..]);
    } else if StrLess(k, es[0].key) {
      KeysBelow(es, k);
      SortedCons(Entry(k, v), es);
    } else {
      StrLessTotal(k, es[0].key);
      assert Sorted(es[1..]);
      InsertSorted(es[1..], k, v);
      InsertKeys(es[1..], k, v);
      if |es| > 1 {
        KeysBelow(es[1..], es[0].key);
      }
      SortedCons(es[0], Insert(es[1..], k, v));
    }
  }

  /** After m[k] = v, find(k) gives v and every other key is untouched. */
  lemma {:induction false} LookupInsert<V>(es: seq<Entry<V>>, k: string, v: V, k': string)
    ensures Lookup(Insert(es, k, v), k') == if k' == k then Some(v) else Lookup(es, k')
  {
    if |es| > 0 && es[0].key != k && !StrLess(k, es[0].key) {
      LookupInsert(es[1..], k, v, k');
    } else if |es| > 0 && StrLess(k, es[0].key) {
      assert ([Entry(k, v)] + es)[1..] == es;
    }
  }

  /** Assigning the same key twice keeps only the second value. */
  lemma {:induction false} InsertTwice<V>(es: seq<Entry<V>>, k: string, v1: V, v2: V)
    ensures Insert(Insert(es, k, v1), k, v2) == Insert(es, k, v2)
  {
    if |es| > 0 && es[0].key != k && !StrLess(k, es[0].key) {
      InsertTwice(es[1..], k, v1, v2);
      assert ([es[0]] + Insert(es[1..], k, v1))[1..] == Insert(es[1..], k, v1);
    } else if |es| > 0 && es[0].key == k {
      assert ([Entry(k, v1)] + es[1..])[1..] == es[1..];
    } else if |es| > 0 {
      assert ([Entry(k, v1)] + es)[1..] == es;
    }
  }

  /** m[k] = v adds no entry other than (k, v). */
  lemma {:induction false} InsertEntries<V>(es: seq<Entry<V>>, k: string, v: V)
    ensures forall e :: e in Insert(es, k, v) ==> e == Entry(k, v) || e in es
  {
    if |es| > 0 && es[0].key != k && !StrLess(k, es[0].key) {
      InsertEntries(es[1..], k, v);
      assert forall e :: e in es[1..] ==> e in es;
    } else if |es| > 0 && es[0].key == k {
      assert forall e :: e in es[1..] ==> e in es;
    }
  }

  /** A key above every key in the map is added at the end. */
  lemma {:induction false} InsertLast<V>(es: seq<Entry<V>>, k: string, v: V)
    requires forall i :: 0 <= i < |es| ==> StrLess(es[i].key, k)
    ensures Insert(es, k, v) == es + [Entry(k, v)]
  {
    if |es| > 0 {
      StrLessIrreflexive(k);
      if StrLess(k, es[0].key) {
        StrLessTransitive(k, es[0].key, k);
      }
      InsertLast(es[1..], k, v);
      assert es == [es[0]] + es[1..];
    }
  }
}
