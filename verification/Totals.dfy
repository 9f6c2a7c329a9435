/** Sums of a weight over the values of a finite map. */
module Totals {
  lemma Smaller<K, V>(m: map<K, V>, k: K)
    requires k in m
    ensures |m - {k}| < |m|
  {
  }

  ghost function Total<K, V>(m: map<K, V>, w: V -> nat): nat
    decreases |m|
  {
    if m == map[] then 0
    else
      var k :| k in m;
      Smaller(m, k);
      w(m[k]) + Total(m - {k}, w)
  }

  /** Any key may be taken out of the sum first. */
  lemma {:induction false} TotalRemove<K, V>(m: map<K, V>, w: V -> nat, k: K)
    requires k in m
    ensures Total(m, w) == w(m[k]) + Total(m - {k}, w)
    decreases |m|
  {
    var j :| j in m && Total(m, w) == w(m[j]) + Total(m - {j}, w);
    if j != k {
      Smaller(m, j);
      Smaller(m, k);
      TotalRemove(m - {j}, w, k);
      TotalRemove(m - {k}, w, j);
      assert m - {j} - {k} == m - {k} - {j};
    }
  }

  lemma TotalInsert<K, V>(m: map<K, V>, w: V -> nat, k: K, v: V)
    ensures Total(m[k := v], w) == Total(m - {k}, w) + w(v)
  {
    TotalRemove(m[k := v], w, k);
    assert m[k := v] - {k} == m - {k};
  }

  lemma TotalAbsent<K, V>(m: map<K, V>, w: V -> nat, k: K)
    requires k !in m
    ensures Total(m - {k}, w) == Total(m, w)
  {
    assert m - {k} == m;
  }

  /** A sum over m1 equals a sum over a larger m2 whose other entries weigh nothing. */
  lemma {:induction false} TotalTransfer<K, V1, V2>(m1: map<K, V1>, w1: V1 -> nat, m2: map<K, V2>, w2: V2 -> nat)
    requires m1.Keys <= m2.Keys
    requires forall k :: k in m1 ==> w1(m1[k]) == w2(m2[k])
    requires forall k :: k in m2 && k !in m1 ==> w2(m2[k]) == 0
    ensures Total(m1, w1) == Total(m2, w2)
    decreases |m2|
  {
    if k :| k in m2 {
      Smaller(m2, k);
      TotalRemove(m2, w2, k);
      if k in m1 {
        TotalRemove(m1, w1, k);
        TotalTransfer(m1 - {k}, w1, m2 - {k}, w2);
      } else {
        TotalTransfer(m1, w1, m2 - {k}, w2);
      }
    }
  }

  lemma {:induction false} TotalAdd<K, V>(m: map<K, V>, w: V -> nat, w1: V -> nat, w2: V -> nat)
    requires forall k :: k in m ==> w(m[k]) == w1(m[k]) + w2(m[k])
    ensures Total(m, w) == Total(m, w1) + Total(m, w2)
    decreases |m|
  {
    if k :| k in m {
      Smaller(m, k);
      TotalRemove(m, w, k);
      TotalRemove(m, w1, k);
      TotalRemove(m, w2, k);
      TotalAdd(m - {k}, w, w1, w2);
    }
  }

  lemma {:induction false} TotalPositive<K, V>(m: map<K, V>, w: V -> nat)
    ensures Total(m, w) > 0 <==> exists k :: k in m && w(m[k]) > 0
    decreases |m|
  {
    if k :| k in m {
      Smaller(m, k);
      TotalRemove(m, w, k);
      var rest := m - {k};
      TotalPositive(rest, w);
      if j :| j in rest && w(rest[j]) > 0 {
        assert j in m && w(m[j]) > 0;
      }
      forall j | j in m && w(m[j]) > 0 ensures Total(m, w) > 0 {
        assert j == k || (j in rest && rest[j] == m[j]);
      }
    }
  }

  /** The weight w counted only on values that c sends to g. */
  ghost function Within<V, G>(w: V -> nat, c: V -> G, g: G): V -> nat {
    v => if c(v) == g then w(v) else 0
  }

  ghost function WithinSet<V, G>(w: V -> nat, c: V -> G, gs: set<G>): V -> nat {
    v => if c(v) in gs then w(v) else 0
  }

  lemma SplitGroups<K, V, G>(m: map<K, V>, w: V -> nat, c: V -> G, gs: set<G>, g: G)
    requires g !in gs
    ensures Total(m, WithinSet(w, c, gs + {g})) == Total(m, Within(w, c, g)) + Total(m, WithinSet(w, c, gs))
  {
  }

  lemma {:induction false} PartialGroups<K, V, G, U>(m: map<K, V>, w: V -> nat, c: V -> G,
                                                     groups: map<G, U>, gw: U -> nat)
    requires forall g :: g in groups ==> gw(groups[g]) == Total(m, Within(w, c, g))
    ensures Total(groups, gw) == Total(m, WithinSet(w, c, groups.Keys))
    decreases |groups|
  {
    if g :| g in groups {
      var rest := groups - {g};
      Smaller(groups, g);
      TotalRemove(groups, gw, g);
      PartialGroups(m, w, c, rest, gw);
      SplitGroups(m, w, c, rest.Keys, g);
      assert groups.Keys == rest.Keys + {g};
    } else {
      TotalPositive(m, WithinSet(w, c, groups.Keys));
    }
  }

  /** Exchange of sums: when every group's weight is the total of its members and no
      member of positive weight is outside the groups, the two totals agree. */
  lemma GroupedTotal<K, V, G, U>(m: map<K, V>, w: V -> nat, c: V -> G, groups: map<G, U>, gw: U -> nat)
    requires forall g :: g in groups ==> gw(groups[g]) == Total(m, Within(w, c, g))
    requires forall k :: k in m && w(m[k]) > 0 ==> c(m[k]) in groups
    ensures Total(groups, gw) == Total(m, w)
  {
    PartialGroups(m, w, c, groups, gw);
    TotalTransfer(m, w, m, WithinSet(w, c, groups.Keys));
  }
}
