/** Python's `dict`, which remembers insertion order: a sequence of key/value
    pairs with distinct keys. Assigning to a present key keeps its position;
    assigning to a new key appends it. Also the "group by first-seen key"
    idiom `if k in d: d[k].append(v) else: d[k] = [v]` and its declarative
    meaning. */
module OrderedDicts {
  import opened Wrappers

  type Dict<K, V> = seq<(K, V)>

  function Keys<K, V>(d: Dict<K, V>): (ks: seq<K>)
    ensures |ks| == |d|
    ensures forall i :: 0 <= i < |d| ==> ks[i] == d[i].0
  {
    seq(|d|, i requires 0 <= i < |d| => d[i].0)
  }

  predicate Distinct<T(==)>(s: seq<T>) {
    forall i, j :: 0 <= i < j < |s| ==> s[i] != s[j]
  }

  predicate Valid<K(==), V>(d: Dict<K, V>) {
    Distinct(Keys(d))
  }

  /** The position of the first occurrence of `x` in `s`. */
  function IndexOf<T(==)>(s: seq<T>, x: T): (i: nat)
    requires x in s
    ensures i < |s| && s[i] == x && x !in s[..i]
  {
    if s[0] == x then 0 else 1 + IndexOf(s[1..], x)
  }

  lemma IndexOfDistinct<T>(s: seq<T>, i: int)
    requires Distinct(s) && 0 <= i < |s|
    ensures IndexOf(s, s[i]) == i
  {
  }

  /** `d.get(k)`. */
  function Get<K(==), V>(d: Dict<K, V>, k: K): (r: Option<V>)
    ensures r.Some? <==> k in Keys(d)
  {
    if k in Keys(d) then Some(d[IndexOf(Keys(d), k)].1) else None
  }

  /** `d[k] = v`. */
  function Put<K(==), V>(d: Dict<K, V>, k: K, v: V): (r: Dict<K, V>)
    ensures Keys(r) == if k in Keys(d) then Keys(d) else Keys(d) + [k]
    ensures Valid(d) ==> Valid(r)
    ensures Get(r, k) == Some(v)
    ensures Valid(d) ==> forall k' | k' in Keys(r) && k' != k :: Get(r, k') == Get(d, k')
  {
    if k in Keys(d) then
      var i := IndexOf(Keys(d), k);
      var r := d[i := (k, v)];
      assert Keys(r) == Keys(d);
      assert Valid(d) ==> forall k' :: k' != k && k' in Keys(d) ==>
        IndexOf(Keys(r), k') == IndexOf(Keys(d), k') != i;
      r
    else
      var r := d + [(k, v)];
      assert Keys(r) == Keys(d) + [k];
      assert forall k' :: k' in Keys(d) ==> IndexOf(Keys(r), k') == IndexOf(Keys(d), k') by {
        forall k' | k' in Keys(d) ensures IndexOf(Keys(r), k') == IndexOf(Keys(d), k') {
          PrefixIndexOf(Keys(d), [k], k');
        }
      }
      r
  }

  lemma {:induction false} PrefixIndexOf<T>(s: seq<T>, t: seq<T>, x: T)
    requires x in s
    ensures x in s + t && IndexOf(s + t, x) == IndexOf(s, x)
  {
    if s[0] != x {
      assert (s + t)[1..] == s[1..] + t;
      PrefixIndexOf(s[1..], t, x);
    }
  }

  /** `if k in d: d[k].append(v) else: d[k] = [v]`. */
  function Append<K(==), V>(d: Dict<K, seq<V>>, k: K, v: V): Dict<K, seq<V>>
  {
    match Get(d, k)
    case Some(vs) => Put(d, k, vs + [v])
    case None => Put(d, k, [v])
  }

  // ---------------------------------------------------------------------------
  // Grouping by first-seen key

  /** The distinct elements of `ks`, in the order of their first occurrence. */
  function Dedup<T(==)>(ks: seq<T>): (r: seq<T>)
    ensures Distinct(r)
    ensures forall x | x in r :: x in ks
    ensures forall x | x in ks :: x in r
  {
    if |ks| == 0 then []
    else
      var d := Dedup(ks[..|ks| - 1]);
      assert ks == ks[..|ks| - 1] + [ks[|ks| - 1]];
      if ks[|ks| - 1] in d then d else d + [ks[|ks| - 1]]
  }

  /** The values whose key (at the same position) is `k`, in their order. */
  function Select<K(==), V>(ks: seq<K>, vs: seq<V>, k: K): seq<V>
    requires |ks| == |vs|
  {
    if |ks| == 0 then []
    else
      Select(ks[..|ks| - 1], vs[..|vs| - 1], k)
      + (if ks[|ks| - 1] == k then [vs[|vs| - 1]] else [])
  }

  /** The groups of `vs` by key: one group per distinct key, in first-seen
      order, each holding the values with that key in their original order. */
  function GroupBy<K(==), V>(ks: seq<K>, vs: seq<V>): (g: Dict<K, seq<V>>)
    requires |ks| == |vs|
    ensures Keys(g) == Dedup(ks)
  {
    var d := Dedup(ks);
    seq(|d|, i requires 0 <= i < |d| => (d[i], Select(ks, vs, d[i])))
  }

  lemma SelectAbsent<K, V>(ks: seq<K>, vs: seq<V>, k: K)
    requires |ks| == |vs| && k !in ks
    ensures Select(ks, vs, k) == []
  {
    if |ks| > 0 {
      assert k !in ks[..|ks| - 1];
      SelectAbsent(ks[..|ks| - 1], vs[..|vs| - 1], k);
    }
  }

  lemma SelectSnoc<K, V>(ks: seq<K>, vs: seq<V>, k: K, v: V, x: K)
    requires |ks| == |vs|
    ensures Select(ks + [k], vs + [v], x) == Select(ks, vs, x) + (if k == x then [v] else [])
  {
    assert (ks + [k])[..|ks|] == ks;
    assert (vs + [v])[..|vs|] == vs;
  }

  /** One step of the loop `if k in d: d[k].append(v) else: d[k] = [v]` keeps
      the dictionary equal to the declarative grouping. */
  lemma GroupByStep<K, V>(ks: seq<K>, vs: seq<V>, k: K, v: V)
    requires |ks| == |vs|
    ensures GroupBy(ks + [k], vs + [v]) == Append(GroupBy(ks, vs), k, v)
  {
    assert (ks + [k])[..|ks|] == ks;
    if k in Dedup(ks) {
      GroupByStepOld(ks, vs, k, v);
    } else {
      GroupByStepNew(ks, vs, k, v);
    }
  }

  lemma GroupByAt<K, V>(ks: seq<K>, vs: seq<V>, j: int)
    requires |ks| == |vs| && 0 <= j < |Dedup(ks)|
    ensures |GroupBy(ks, vs)| == |Dedup(ks)|
    ensures GroupBy(ks, vs)[j] == (Dedup(ks)[j], Select(ks, vs, Dedup(ks)[j]))
  {
  }

  lemma GroupByStepOld<K, V>(ks: seq<K>, vs: seq<V>, k: K, v: V)
    requires |ks| == |vs| && k in Dedup(ks)
    ensures GroupBy(ks + [k], vs + [v]) == Append(GroupBy(ks, vs), k, v)
  {
    var g := GroupBy(ks, vs);
    var g' := GroupBy(ks + [k], vs + [v]);
    var d := Dedup(ks);
    assert (ks + [k])[..|ks|] == ks;
    assert Dedup(ks + [k]) == d;
    var i := IndexOf(d, k);
    var want := g[i := (k, Select(ks, vs, k) + [v])];
    assert Get(g, k) == Some(Select(ks, vs, k)) by {
      GroupByAt(ks, vs, i);
    }
    assert Append(g, k, v) == want;
    assert |g'| == |d| == |want|;
    forall j | 0 <= j < |g| ensures g'[j] == want[j] {
      GroupByAt(ks, vs, j);
      GroupByAt(ks + [k], vs + [v], j);
      SelectSnoc(ks, vs, k, v, d[j]);
      assert g'[j] == (d[j], Select(ks + [k], vs + [v], d[j]));
      if j != i {
        assert d[j] != k;
        assert Select(ks, vs, d[j]) + [] == Select(ks, vs, d[j]);
        assert want[j] == g[j];
      } else {
        assert want[j] == (k, Select(ks, vs, k) + [v]);
      }
    }
  }

  lemma GroupByStepNew<K, V>(ks: seq<K>, vs: seq<V>, k: K, v: V)
    requires |ks| == |vs| && k !in Dedup(ks)
    ensures GroupBy(ks + [k], vs + [v]) == Append(GroupBy(ks, vs), k, v)
  {
    var g := GroupBy(ks, vs);
    var g' := GroupBy(ks + [k], vs + [v]);
    var d := Dedup(ks);
    assert (ks + [k])[..|ks|] == ks;
    assert Dedup(ks + [k]) == d + [k];
    assert Append(g, k, v) == g + [(k, [v])] by {
      assert Get(g, k) == None;
    }
    assert |g'| == |d| + 1;
    forall j | 0 <= j < |g'| ensures g'[j] == (g + [(k, [v])])[j] {
      GroupByNewAt(ks, vs, k, v, j);
    }
  }

  lemma GroupByNewAt<K, V>(ks: seq<K>, vs: seq<V>, k: K, v: V, j: int)
    requires |ks| == |vs| && k !in Dedup(ks)
    requires Dedup(ks + [k]) == Dedup(ks) + [k]
    requires 0 <= j <= |Dedup(ks)|
    ensures |GroupBy(ks, vs)| == |Dedup(ks)|
    ensures GroupBy(ks + [k], vs + [v])[j] == (GroupBy(ks, vs) + [(k, [v])])[j]
  {
    var d := Dedup(ks);
    GroupByAt(ks + [k], vs + [v], j);
    if j < |d| {
      GroupByAt(ks, vs, j);
      SelectSnoc(ks, vs, k, v, d[j]);
      assert d[j] != k;
      assert Select(ks, vs, d[j]) + [] == Select(ks, vs, d[j]);
    } else {
      SelectSnoc(ks, vs, k, v, k);
      SelectAbsent(ks, vs, k);
      assert (d + [k])[j] == k;
      assert [] + [v] == [v];
      assert (GroupBy(ks, vs) + [(k, [v])])[j] == (k, [v]);
    }
  }

  /** Looking a key up in the grouping gives the values with that key. */
  lemma GroupByGet<K, V>(ks: seq<K>, vs: seq<V>, k: K)
    requires |ks| == |vs|
    ensures Get(GroupBy(ks, vs), k) == if k in ks then Some(Select(ks, vs, k)) else None
  {
    var d := Dedup(ks);
    if k in ks {
      var i := IndexOf(d, k);
      IndexOfDistinct(d, i);
      GroupByAt(ks, vs, i);
    }
  }

  /** The total number of values held by a dictionary of lists. */
  function Size<K, V>(d: Dict<K, seq<V>>): nat
  {
    if |d| == 0 then 0 else Size(d[..|d| - 1]) + |d[|d| - 1].1|
  }

  lemma {:induction false} SizeUpdate<K, V>(d: Dict<K, seq<V>>, i: nat, k: K, x: seq<V>)
    requires i < |d|
    ensures Size(d[i := (k, x)]) + |d[i].1| == Size(d) + |x|
  {
    var d' := d[i := (k, x)];
    if i < |d| - 1 {
      assert d'[..|d| - 1] == d[..|d| - 1][i := (k, x)];
      SizeUpdate(d[..|d| - 1], i, k, x);
    } else {
      assert d'[..|d| - 1] == d[..|d| - 1];
    }
  }

  lemma SizeAppend<K, V>(d: Dict<K, seq<V>>, k: K, v: V)
    ensures Size(Append(d, k, v)) == Size(d) + 1
  {
    if k in Keys(d) {
      var i := IndexOf(Keys(d), k);
      SizeUpdate(d, i, k, d[i].1 + [v]);
    } else {
      assert (d + [(k, [v])])[..|d|] == d;
    }
  }

  /** The groups together hold exactly as many values as were grouped. */
  lemma {:induction false} GroupBySize<K, V>(ks: seq<K>, vs: seq<V>)
    requires |ks| == |vs|
    ensures Size(GroupBy(ks, vs)) == |vs|
  {
    if |ks| > 0 {
      var n := |ks| - 1;
      var ks0, vs0 := ks[..n], vs[..n];
      calc {
        Size(GroupBy(ks, vs));
        { assert ks == ks0 + [ks[n]] && vs == vs0 + [vs[n]]; }
        Size(GroupBy(ks0 + [ks[n]], vs0 + [vs[n]]));
        { GroupByStep(ks0, vs0, ks[n], vs[n]); }
        Size(Append(GroupBy(ks0, vs0), ks[n], vs[n]));
        { SizeAppend(GroupBy(ks0, vs0), ks[n], vs[n]); }
        Size(GroupBy(ks0, vs0)) + 1;
        { GroupBySize(ks0, vs0); }
        |vs|;
      }
    }
  }

  /** Every value lands in the group of its own key, and a group holds only
      values with its key. */
  lemma {:induction false} SelectMembers<K, V>(ks: seq<K>, vs: seq<V>, k: K)
    requires |ks| == |vs|
    ensures forall j :: 0 <= j < |ks| && ks[j] == k ==> vs[j] in Select(ks, vs, k)
    ensures forall x :: x in Select(ks, vs, k) ==>
      exists j :: 0 <= j < |ks| && ks[j] == k && vs[j] == x
  {
    if |ks| > 0 {
      var n := |ks| - 1;
      SelectMembers(ks[..n], vs[..n], k);
    }
  }

  /** The keys of the grouping appear in the order of their first occurrence. */
  lemma {:induction false} DedupFirstSeen<T>(ks: seq<T>)
    ensures forall i, j :: 0 <= i < j < |Dedup(ks)| ==>
      IndexOf(ks, Dedup(ks)[i]) < IndexOf(ks, Dedup(ks)[j])
  {
    if |ks| > 0 {
      var n := |ks| - 1;
      var p := ks[..n];
      DedupFirstSeen(p);
      forall x | x in p ensures IndexOf(ks, x) == IndexOf(p, x) {
        assert ks == p + [ks[n]];
        PrefixIndexOf(p, [ks[n]], x);
      }
      if ks[n] !in p {
        assert ks[..n] == p;
        assert IndexOf(ks, ks[n]) == n;
      }
    }
  }
}
