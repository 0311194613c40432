/**
 * A plain JavaScript object used as a dictionary from string keys (socket ids)
 * to string values (user ids). Non-numeric string keys are kept in insertion
 * order, which is the order `Object.values` reports them in. Assigning to an
 * existing key keeps its position; `delete` removes it.
 */
module ObjectMap {
  import opened Wrappers

  type Entries = seq<(string, string)>

  predicate UniqueKeys(e: Entries) {
    forall i, j :: 0 <= i < j < |e| ==> e[i].0 != e[j].0
  }

  /** `Object.keys(o)`. */
  function Keys(e: Entries): (r: seq<string>)
    ensures |r| == |e|
    ensures forall i :: 0 <= i < |e| ==> r[i] == e[i].0
  {
    if e == [] then [] else [e[0].0] + Keys(e[1..])
  }

  /** `Object.values(o)`. */
  function Values(e: Entries): (r: seq<string>)
    ensures |r| == |e|
    ensures forall i :: 0 <= i < |e| ==> r[i] == e[i].1
  {
    if e == [] then [] else [e[0].1] + Values(e[1..])
  }

  /** `o[k]`, with `None` for `undefined`. */
  function Get(e: Entries, k: string): (r: Option<string>)
    ensures r.None? <==> k !in Keys(e)
    ensures r.Some? ==> (k, r.value) in e
  {
    if e == [] then None
    else if e[0].0 == k then Some(e[0].1)
    else
      assert Keys(e) == [e[0].0] + Keys(e[1..]);
      Get(e[1..], k)
  }

  /** `o[k] = v`: overwrite in place when present, append when new. */
  function Set(e: Entries, k: string, v: string): (r: Entries)
    ensures (k, v) in r
    ensures |r| == if k in Keys(e) then |e| else |e| + 1
  {
    if e == [] then [(k, v)]
    else
      assert Keys(e) == [e[0].0] + Keys(e[1..]);
      if e[0].0 == k then [(k, v)] + e[1..]
      else [e[0]] + Set(e[1..], k, v)
  }

  /** `delete o[k]`. */
  function Delete(e: Entries, k: string): (r: Entries)
    ensures k !in Keys(r)
    ensures |r| <= |e|
  {
    if e == [] then []
    else if e[0].0 == k then Delete(e[1..], k)
    else
      var t := Delete(e[1..], k);
      assert Keys([e[0]] + t) == [e[0].0] + Keys(t);
      [e[0]] + t
  }

  lemma UniqueTail(e: Entries)
    requires e != [] && UniqueKeys(e)
    ensures UniqueKeys(e[1..])
    ensures e[0].0 !in Keys(e[1..])
  {
    forall i, j | 0 <= i < j < |e[1..]| ensures e[1..][i].0 != e[1..][j].0 {
      assert e[1..][i] == e[i + 1] && e[1..][j] == e[j + 1];
    }
    forall m | 0 <= m < |e[1..]| ensures Keys(e[1..])[m] != e[0].0 {
      assert e[1..][m] == e[m + 1];
    }
  }

  lemma UniqueCons(p: (string, string), e: Entries)
    requires UniqueKeys(e) && p.0 !in Keys(e)
    ensures UniqueKeys([p] + e)
  {
    forall i, j | 0 <= i < j < |[p] + e| ensures ([p] + e)[i].0 != ([p] + e)[j].0 {
      if i == 0 {
        assert ([p] + e)[j] == e[j - 1];
        assert Keys(e)[j - 1] == e[j - 1].0;
      } else {
        assert ([p] + e)[i] == e[i - 1] && ([p] + e)[j] == e[j - 1];
      }
    }
  }

  /** With unique keys, `o[k] === v` exactly when the pair is one of the entries. */
  lemma {:induction false} GetIffEntry(e: Entries, k: string, v: string)
    requires UniqueKeys(e)
    ensures Get(e, k) == Some(v) <==> (k, v) in e
  {
    if e != [] {
      UniqueTail(e);
      GetIffEntry(e[1..], k, v);
      assert e == [e[0]] + e[1..];
    }
  }

  /** After `o[k] = v`, `o[k]` reads `v` and every other key reads as before. */
  lemma {:induction false} SetGet(e: Entries, k: string, v: string, k': string)
    ensures Get(Set(e, k, v), k') == if k' == k then Some(v) else Get(e, k')
  {
    if e != [] && e[0].0 != k {
      SetGet(e[1..], k, v, k');
    }
  }

  /** Assigning a new key appends it at the end of the insertion order. */
  lemma {:induction false} SetFresh(e: Entries, k: string, v: string)
    requires k !in Keys(e)
    ensures Set(e, k, v) == e + [(k, v)]
  {
    if e != [] {
      assert Keys(e) == [e[0].0] + Keys(e[1..]);
      SetFresh(e[1..], k, v);
      assert e == [e[0]] + e[1..];
    }
  }

  /** Assignment never creates a second property with the same key. */
  lemma {:induction false} SetUnique(e: Entries, k: string, v: string)
    requires UniqueKeys(e)
    ensures UniqueKeys(Set(e, k, v))
  {
    if e == [] {
    } else if e[0].0 == k {
      UniqueTail(e);
      UniqueCons((k, v), e[1..]);
    } else {
      UniqueTail(e);
      SetUnique(e[1..], k, v);
      var t := Set(e[1..], k, v);
      assert e[0].0 !in Keys(t) by {
        SetGet(e[1..], k, v, e[0].0);
      }
      UniqueCons(e[0], t);
    }
  }

  /** After `delete o[k]`, `o[k]` is undefined and every other key reads as before. */
  lemma {:induction false} DeleteGet(e: Entries, k: string, k': string)
    ensures Get(Delete(e, k), k') == if k' == k then None else Get(e, k')
  {
    if e != [] {
      DeleteGet(e[1..], k, k');
    }
  }

  /** The entries left by `delete o[k]` are exactly the old ones with another key. */
  lemma {:induction false} DeleteEntries(e: Entries, k: string, p: (string, string))
    ensures p in Delete(e, k) <==> p in e && p.0 != k
  {
    if e != [] {
      DeleteEntries(e[1..], k, p);
      assert e == [e[0]] + e[1..];
    }
  }

  /** `delete o[k]` takes out the one property with key `k` and keeps the others in order. */
  lemma {:induction false} DeleteAt(e: Entries, k: string, i: int)
    requires UniqueKeys(e) && 0 <= i < |e| && e[i].0 == k
    ensures Delete(e, k) == e[..i] + e[i + 1..]
  {
    UniqueTail(e);
    if i == 0 {
      DeleteAbsent(e[1..], k);
      assert e[..0] + e[1..] == e[1..];
    } else {
      assert e[1..][i - 1] == e[i];
      DeleteAt(e[1..], k, i - 1);
      assert e[0].0 != e[i].0;
      DeleteAtStep(e, k, i);
    }
  }

  /** One step of `DeleteAt`: a first entry with another key stays in front. */
  lemma DeleteAtStep(e: Entries, k: string, i: int)
    requires 0 < i < |e| && e[0].0 != k
    requires Delete(e[1..], k) == e[1..][..i - 1] + e[1..][i..]
    ensures Delete(e, k) == e[..i] + e[i + 1..]
  {
    assert Delete(e, k) == [e[0]] + Delete(e[1..], k);
    ConsSlices(e, i, Delete(e[1..], k));
  }

  /** Putting the first entry back in front of the tail minus its position `i - 1` is `e` minus position `i`. */
  lemma ConsSlices(e: Entries, i: int, d: Entries)
    requires 0 < i < |e| && d == e[1..][..i - 1] + e[1..][i..]
    ensures [e[0]] + d == e[..i] + e[i + 1..]
  {
    assert e[..i] == [e[0]] + e[1..][..i - 1];
    assert e[i + 1..] == e[1..][i..];
  }

  /** Deleting an absent key is harmless and changes nothing. */
  lemma {:induction false} DeleteAbsent(e: Entries, k: string)
    requires k !in Keys(e)
    ensures Delete(e, k) == e
  {
    if e != [] {
      assert Keys(e) == [e[0].0] + Keys(e[1..]);
      DeleteAbsent(e[1..], k);
      assert e == [e[0]] + e[1..];
    }
  }

  /** Deletion keeps keys unique. */
  lemma {:induction false} DeleteUnique(e: Entries, k: string)
    requires UniqueKeys(e)
    ensures UniqueKeys(Delete(e, k))
  {
    if e != [] {
      UniqueTail(e);
      DeleteUnique(e[1..], k);
      if e[0].0 != k {
        var t := Delete(e[1..], k);
        assert e[0].0 !in Keys(t) by {
          DeleteGet(e[1..], k, e[0].0);
        }
        UniqueCons(e[0], t);
      }
    }
  }

  /**
   * Deleting a present key removes exactly one occurrence of its value from
   * `Object.values`.
   */
  lemma {:induction false} DeleteValues(e: Entries, k: string, v: string)
    requires UniqueKeys(e) && Get(e, k) == Some(v)
    ensures multiset(Values(Delete(e, k))) == multiset(Values(e)) - multiset{v}
  {
    UniqueTail(e);
    var rest := Values(e[1..]);
    assert Values(e) == [e[0].1] + rest;
    assert multiset(Values(e)) == multiset{e[0].1} + multiset(rest);
    if e[0].0 == k {
      DeleteAbsent(e[1..], k);
      assert Delete(e, k) == e[1..];
    } else {
      DeleteValues(e[1..], k, v);
      var d := Delete(e[1..], k);
      assert Delete(e, k) == [e[0]] + d;
      assert Values(Delete(e, k)) == [e[0].1] + Values(d);
      assert multiset(Values(Delete(e, k))) == multiset{e[0].1} + multiset(Values(d));
      var j :| 0 <= j < |e[1..]| && e[1..][j] == (k, v);
      assert rest[j] == v;
      MinusFromRight(multiset{e[0].1}, multiset(rest), v);
    }
  }

  /** Taking out an element the right operand holds can be done before the union. */
  lemma MinusFromRight<T>(a: multiset<T>, b: multiset<T>, v: T)
    requires v in b
    ensures (a + b) - multiset{v} == a + (b - multiset{v})
  {
  }
}
