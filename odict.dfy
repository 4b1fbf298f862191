/** Insertion-ordered dictionaries, as Python's `dict` behaves: a sequence of
    key/value pairs with distinct keys. Assigning to a present key keeps its
    position; assigning to a new key appends it. */
module ODict {
  import opened Wrappers

  type Dict<K, V> = seq<(K, V)>

  function Keys<K, V>(d: Dict<K, V>): (ks: seq<K>)
    ensures |ks| == |d|
    ensures forall i :: 0 <= i < |d| ==> ks[i] == d[i].0
  {
    if d == [] then [] else [d[0].0] + Keys(d[1..])
  }

  /** Keys are pairwise distinct. */
  ghost predicate Valid<K, V>(d: Dict<K, V>)
  {
    forall i, j :: 0 <= i < j < |d| ==> d[i].0 != d[j].0
  }

  predicate HasKey<K(==), V>(d: Dict<K, V>, k: K)
  {
    exists i :: 0 <= i < |d| && d[i].0 == k
  }

  /** Position of the first entry with key `k`. */
  function IndexOf<K(==), V>(d: Dict<K, V>, k: K): (r: Option<nat>)
    ensures r.None? <==> !HasKey(d, k)
    ensures r.Some? ==> r.value < |d| && d[r.value].0 == k
                        && forall j :: 0 <= j < r.value ==> d[j].0 != k
  {
    if d == [] then None
    else if d[0].0 == k then Some(0)
    else match IndexOf(d[1..], k)
      case None => None
      case Some(i) => Some(i + 1)
  }

  /** `d.get(k)`. */
  function Get<K(==), V>(d: Dict<K, V>, k: K): (r: Option<V>)
    ensures r.None? <==> !HasKey(d, k)
    ensures r.Some? ==> exists i :: 0 <= i < |d| && d[i] == (k, r.value)
  {
    match IndexOf(d, k)
    case None => None
    case Some(i) => Some(d[i].1)
  }

  lemma GetAt<K, V>(d: Dict<K, V>, i: nat)
    requires Valid(d) && i < |d|
    ensures IndexOf(d, d[i].0) == Some(i)
    ensures Get(d, d[i].0) == Some(d[i].1)
  {
  }

  /** `d[k] = v`. */
  function Set<K(==), V>(d: Dict<K, V>, k: K, v: V): (r: Dict<K, V>)
    ensures HasKey(d, k) ==> |r| == |d|
    ensures !HasKey(d, k) ==> r == d + [(k, v)]
    ensures forall i :: 0 <= i < |d| ==> r[i].0 == d[i].0
    ensures forall i :: 0 <= i < |d| && d[i].0 != k ==> r[i] == d[i]
    ensures HasKey(r, k) && Get(r, k) == Some(v)
  {
    match IndexOf(d, k)
    case None =>
      var r := d + [(k, v)];
      assert r[|d|].0 == k;
      r
    case Some(i) =>
      var r := d[i := (k, v)];
      assert forall j :: 0 <= j < i ==> r[j] == d[j];
      assert r[i].0 == k;
      r
  }

  /** Every entry after an assignment is the new pair or an entry of `d`. */
  lemma SetEntries<K, V>(d: Dict<K, V>, k: K, v: V)
    ensures forall i :: 0 <= i < |Set(d, k, v)| ==> Set(d, k, v)[i] == (k, v) || Set(d, k, v)[i] in d
  {
    var r := Set(d, k, v);
    forall i | 0 <= i < |r| ensures r[i] == (k, v) || r[i] in d {
      if i < |d| && d[i].0 != k {
        assert r[i] == d[i];
      } else if i < |d| {
        assert r[i].0 == k;
        if HasKey(d, k) {
          var j := IndexOf(d, k).value;
          if j != i {
            assert r == d[j := (k, v)];
          }
        }
      }
    }
  }

  lemma SetValid<K, V>(d: Dict<K, V>, k: K, v: V)
    requires Valid(d)
    ensures Valid(Set(d, k, v))
    ensures Keys(Set(d, k, v)) == if HasKey(d, k) then Keys(d) else Keys(d) + [k]
  {
    var r := Set(d, k, v);
    if HasKey(d, k) {
      assert |r| == |d|;
      assert forall i :: 0 <= i < |r| ==> Keys(r)[i] == Keys(d)[i];
    } else {
      assert r == d + [(k, v)];
      assert forall i :: 0 <= i < |d| ==> d[i].0 != k;
      assert forall i :: 0 <= i < |r| ==> Keys(r)[i] == (Keys(d) + [k])[i];
    }
  }

  /** Setting a key adds exactly that key. */
  lemma SetHasKey<K, V>(d: Dict<K, V>, k: K, v: V, k': K)
    ensures HasKey(Set(d, k, v), k') <==> HasKey(d, k') || k' == k
  {
    var r := Set(d, k, v);
    if HasKey(r, k') && k' != k {
      var i :| 0 <= i < |r| && r[i].0 == k';
      assert i < |d|;
      assert d[i].0 == k';
    }
    if HasKey(d, k') {
      var i :| 0 <= i < |d| && d[i].0 == k';
      assert r[i].0 == k';
    }
  }

  lemma SetOther<K, V>(d: Dict<K, V>, k: K, v: V, k': K)
    requires k' != k
    ensures Get(Set(d, k, v), k') == Get(d, k')
  {
    var r := Set(d, k, v);
    assert forall i :: 0 <= i < |d| && d[i].0 == k' ==> r[i] == d[i];
    assert forall i :: 0 <= i < |r| && r[i].0 == k' ==> i < |d| && r[i] == d[i];
  }

  /** `d.pop(k)` for a present key, no-op for an absent one. */
  function Remove<K(==), V>(d: Dict<K, V>, k: K): (r: Dict<K, V>)
    ensures |r| <= |d|
    ensures !HasKey(r, k)
  {
    if d == [] then []
    else if d[0].0 == k then Remove(d[1..], k)
    else [d[0]] + Remove(d[1..], k)
  }

  lemma {:induction false} RemoveKeys<K, V>(d: Dict<K, V>, k: K)
    ensures forall i :: 0 <= i < |Remove(d, k)| ==> HasKey(d, Remove(d, k)[i].0)
    ensures forall i :: 0 <= i < |d| && d[i].0 != k ==> HasKey(Remove(d, k), d[i].0)
  {
    if d != [] {
      RemoveKeys(d[1..], k);
      var t := Remove(d[1..], k);
      forall i | 0 <= i < |t| ensures HasKey(d, t[i].0) {
        var j :| 0 <= j < |d[1..]| && d[1..][j].0 == t[i].0;
        assert d[j + 1].0 == t[i].0;
      }
      var r := Remove(d, k);
      if d[0].0 != k {
        assert r == [d[0]] + t;
        forall i | 0 <= i < |d| && d[i].0 != k ensures HasKey(r, d[i].0) {
          if i > 0 {
            assert d[1..][i - 1] == d[i];
            var j :| 0 <= j < |t| && t[j].0 == d[i].0;
            assert r[j + 1].0 == d[i].0;
          } else {
            assert r[0].0 == d[0].0;
          }
        }
        forall i | 0 <= i < |r| ensures HasKey(d, r[i].0) {
          if i > 0 { assert r[i] == t[i - 1]; } else { assert d[0].0 == r[0].0; }
        }
      } else {
        forall i | 0 <= i < |d| && d[i].0 != k ensures HasKey(r, d[i].0) {
          assert d[1..][i - 1] == d[i];
        }
      }
    }
  }

  /** Removing a key drops exactly that key. */
  lemma RemoveHasKey<K, V>(d: Dict<K, V>, k: K, k': K)
    ensures HasKey(Remove(d, k), k') <==> HasKey(d, k') && k' != k
  {
    RemoveKeys(d, k);
    if HasKey(d, k') && k' != k {
      var i :| 0 <= i < |d| && d[i].0 == k';
    }
  }

  lemma {:induction false} RemoveGet<K, V>(d: Dict<K, V>, k: K, k': K)
    requires Valid(d)
    ensures Valid(Remove(d, k))
    ensures Get(Remove(d, k), k') == if k' == k then None else Get(d, k')
  {
    if d != [] {
      assert Valid(d[1..]);
      RemoveGet(d[1..], k, k');
      var t := Remove(d[1..], k);
      RemoveKeys(d[1..], k);
      if d[0].0 != k {
        var r := [d[0]] + t;
        assert r == Remove(d, k);
        forall i, j | 0 <= i < j < |r| ensures r[i].0 != r[j].0 {
          if i == 0 {
            assert r[j] == t[j - 1];
            var m :| 0 <= m < |d[1..]| && d[1..][m].0 == t[j - 1].0;
            assert d[m + 1].0 == r[j].0;
          }
        }
        if k' != k && k' != d[0].0 {
          GetTail(d, k');
          GetTail(r, k');
        }
      } else if k' != k {
        GetTail(d, k');
      }
    }
  }

  lemma GetTail<K, V>(d: Dict<K, V>, k: K)
    requires d != [] && d[0].0 != k
    ensures Get(d, k) == Get(d[1..], k)
  {
  }

  /** `d.update(e)`: each entry of `e` is assigned in `e`'s order. */
  function Update<K(==), V>(d: Dict<K, V>, e: Dict<K, V>): (r: Dict<K, V>)
    decreases |e|
  {
    if e == [] then d else Update(Set(d, e[0].0, e[0].1), e[1..])
  }

  lemma UpdateValid<K, V>(d: Dict<K, V>, e: Dict<K, V>)
    requires Valid(d)
    ensures Valid(Update(d, e))
    decreases |e|
  {
    if e != [] {
      SetValid(d, e[0].0, e[0].1);
      UpdateValid(Set(d, e[0].0, e[0].1), e[1..]);
    }
  }

  /** An update's keys are those of `d` and those of `e`. */
  lemma {:induction false} UpdateHasKey<K, V>(d: Dict<K, V>, e: Dict<K, V>, k: K)
    ensures HasKey(Update(d, e), k) <==> HasKey(d, k) || HasKey(e, k)
    decreases |e|
  {
    if e != [] {
      var d' := Set(d, e[0].0, e[0].1);
      UpdateHasKey(d', e[1..], k);
      if k != e[0].0 {
        SetOther(d, e[0].0, e[0].1, k);
      }
      assert HasKey(e, k) <==> k == e[0].0 || HasKey(e[1..], k) by {
        if HasKey(e, k) && k != e[0].0 {
          var i :| 0 <= i < |e| && e[i].0 == k;
          assert e[1..][i - 1].0 == k;
        }
        if HasKey(e[1..], k) {
          var i :| 0 <= i < |e[1..]| && e[1..][i].0 == k;
          assert e[i + 1].0 == k;
        }
      }
    }
  }

  /** After an update, a key present in `e` carries `e`'s value, any other
      key keeps its value in `d`. */
  lemma {:induction false} UpdateGet<K, V>(d: Dict<K, V>, e: Dict<K, V>, k: K)
    requires Valid(e)
    ensures Get(Update(d, e), k) == if HasKey(e, k) then Get(e, k) else Get(d, k)
    decreases |e|
  {
    if e != [] {
      var d' := Set(d, e[0].0, e[0].1);
      assert Valid(e[1..]);
      UpdateGet(d', e[1..], k);
      if k == e[0].0 {
        forall i | 0 <= i < |e[1..]| ensures e[1..][i].0 != k {
          assert e[1..][i] == e[i + 1];
        }
      } else {
        SetOther(d, e[0].0, e[0].1, k);
        GetTail(e, k);
        assert HasKey(e, k) <==> HasKey(e[1..], k) by {
          if HasKey(e, k) {
            var i :| 0 <= i < |e| && e[i].0 == k;
            assert e[1..][i - 1].0 == k;
          }
        }
      }
    }
  }
  /** The entries of `d` whose key is not in `ks`, in order: `d` after
      popping every key of `ks`. */
  function Without<K(==), V>(d: Dict<K, V>, ks: set<K>): (r: Dict<K, V>)
    ensures |r| <= |d|
  {
    if d == [] then []
    else if d[0].0 in ks then Without(d[1..], ks)
    else [d[0]] + Without(d[1..], ks)
  }

  /** Popping only deletes: what is left are entries of `d` with keys
      outside `ks`. */
  lemma {:induction false} WithoutEntries<K, V>(d: Dict<K, V>, ks: set<K>)
    ensures forall i :: 0 <= i < |Without(d, ks)| ==> Without(d, ks)[i] in d && Without(d, ks)[i].0 !in ks
  {
    if d != [] {
      WithoutEntries(d[1..], ks);
      var t := Without(d[1..], ks);
      forall i | 0 <= i < |t| ensures t[i] in d {
        var j :| 0 <= j < |d[1..]| && d[1..][j] == t[i];
        assert d[j + 1] == t[i];
      }
    }
  }

  lemma {:induction false} WithoutHasKey<K, V>(d: Dict<K, V>, ks: set<K>, k: K)
    ensures HasKey(Without(d, ks), k) <==> HasKey(d, k) && k !in ks
  {
    if d != [] {
      WithoutHasKey(d[1..], ks, k);
      assert HasKey(d, k) <==> d[0].0 == k || HasKey(d[1..], k) by {
        if HasKey(d, k) && d[0].0 != k {
          var i :| 0 <= i < |d| && d[i].0 == k;
          assert d[1..][i - 1].0 == k;
        }
        if HasKey(d[1..], k) {
          var i :| 0 <= i < |d[1..]| && d[1..][i].0 == k;
          assert d[i + 1].0 == k;
        }
      }
      var t := Without(d[1..], ks);
      if d[0].0 !in ks {
        assert HasKey([d[0]] + t, k) <==> d[0].0 == k || HasKey(t, k) by {
          if HasKey([d[0]] + t, k) && d[0].0 != k {
            var i :| 0 <= i < |[d[0]] + t| && ([d[0]] + t)[i].0 == k;
            assert t[i - 1].0 == k;
          }
          if HasKey(t, k) {
            var i :| 0 <= i < |t| && t[i].0 == k;
            assert ([d[0]] + t)[i + 1].0 == k;
          }
          if d[0].0 == k {
            assert ([d[0]] + t)[0].0 == k;
          }
        }
      }
    }
  }

  lemma {:induction false} WithoutValid<K, V>(d: Dict<K, V>, ks: set<K>)
    requires Valid(d)
    ensures Valid(Without(d, ks))
  {
    if d != [] {
      assert Valid(d[1..]);
      WithoutValid(d[1..], ks);
      WithoutEntries(d[1..], ks);
      if d[0].0 !in ks {
        var t := Without(d[1..], ks);
        forall i | 0 <= i < |t| ensures t[i].0 != d[0].0 {
          var j :| 0 <= j < |d[1..]| && d[1..][j] == t[i];
          assert d[j + 1] == t[i];
        }
      }
    }
  }

  /** Popping keys keeps the values of the others. */
  lemma {:induction false} WithoutGet<K, V>(d: Dict<K, V>, ks: set<K>, k: K)
    requires Valid(d)
    ensures Get(Without(d, ks), k) == if k in ks then None else Get(d, k)
  {
    WithoutHasKey(d, ks, k);
    if d != [] {
      assert Valid(d[1..]);
      WithoutGet(d[1..], ks, k);
      if d[0].0 != k {
        GetTail(d, k);
        if d[0].0 !in ks {
          GetTail([d[0]] + Without(d[1..], ks), k);
          assert ([d[0]] + Without(d[1..], ks))[1..] == Without(d[1..], ks);
        }
      } else if k !in ks {
        assert Without(d, ks)[0] == d[0];
      }
    }
  }

  /** Popping two key sets in turn pops their union. */
  lemma {:induction false} WithoutWithout<K, V>(d: Dict<K, V>, a: set<K>, b: set<K>)
    ensures Without(Without(d, a), b) == Without(d, a + b)
  {
    if d != [] {
      WithoutWithout(d[1..], a, b);
      if d[0].0 !in a {
        assert ([d[0]] + Without(d[1..], a))[1..] == Without(d[1..], a);
      }
    }
  }

  /** `d.pop(k)` is popping the one-key set. */
  lemma {:induction false} RemoveIsWithout<K, V>(d: Dict<K, V>, k: K)
    ensures Remove(d, k) == Without(d, {k})
  {
    if d != [] {
      RemoveIsWithout(d[1..], k);
    }
  }

  /** Popping no key changes nothing. */
  lemma {:induction false} WithoutNone<K, V>(d: Dict<K, V>, ks: set<K>)
    requires forall i :: 0 <= i < |d| ==> d[i].0 !in ks
    ensures Without(d, ks) == d
  {
    if d != [] {
      WithoutNone(d[1..], ks);
      assert [d[0]] + d[1..] == d;
    }
  }

  /** Popping one more key from a dictionary with keys popped. */
  lemma PopOne<K, V>(d: Dict<K, V>, ks: set<K>, k: K)
    ensures Remove(Without(d, ks), k) == Without(d, ks + {k})
  {
    RemoveIsWithout(Without(d, ks), k);
    WithoutWithout(d, ks, {k});
  }
}
