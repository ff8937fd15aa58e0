/** The success path of reconciliation (error status noError): the first
    `n` bindings answer the first `n` pending OIDs one to one, the rest are
    dealt round-robin over the pending OIDs that remain. */
module Demux {
  import opened SnmpTypes

  /** The response map after the first `i` turns of the non-repeater loop:
      turn `t` shifts `p[t]` off the pending list and maps it to the single
      pair `vb[t]`. */
  function NonRepeatersUpTo<V>(m: ResponseMap<V>, p: seq<Oid>, vb: seq<VarBind<V>>, i: nat): (r: ResponseMap<V>)
    requires i <= |p| && i <= |vb|
    ensures forall t :: 0 <= t < i ==> p[t] in r && r[p[t]].Bindings?
    ensures forall k :: k in m ==> k in r && (k !in p[..i] ==> r[k] == m[k])
  {
    if i == 0 then m
    else
      var r' := NonRepeatersUpTo(m, p, vb, i - 1);
      assert p[..i] == p[..i - 1] + [p[i - 1]];
      r'[p[i - 1] := Bindings([vb[i - 1]])]
  }

  /** The non-repeater loop adds no key besides the OIDs it shifts. */
  lemma {:induction false} NonRepeatersKeys<V>(m: ResponseMap<V>, p: seq<Oid>, vb: seq<VarBind<V>>, i: nat)
    requires i <= |p| && i <= |vb|
    ensures forall k :: k in NonRepeatersUpTo(m, p, vb, i) ==> k in m || k in p[..i]
  {
    if i > 0 {
      NonRepeatersKeys(m, p, vb, i - 1);
      assert p[..i] == p[..i - 1] + [p[i - 1]];
    }
  }

  /** With distinct pending OIDs, the `t`-th one is mapped to exactly the pair
      `vb[t]`. */
  lemma {:induction false} NonRepeaterAssigned<V>(m: ResponseMap<V>, p: seq<Oid>, vb: seq<VarBind<V>>, i: nat, t: nat)
    requires i <= |p| && i <= |vb| && t < i
    requires forall u :: t < u < i ==> p[u] != p[t]
    ensures NonRepeatersUpTo(m, p, vb, i)[p[t]] == Bindings([vb[t]])
  {
    if t < i - 1 {
      NonRepeaterAssigned(m, p, vb, i - 1, t);
      assert p[t] != p[i - 1];
    }
  }

  /** The repeater position that the binding at index `i` goes to. */
  function Slot(i: nat, n: nat, r: nat): (s: nat)
    requires n <= i && 0 < r
  {
    (i - n) % r
  }

  /** Every binding is dealt to a valid repeater position, and the first `r`
      bindings after the non-repeaters go to positions `0 .. r - 1` in order. */
  lemma SlotInRange(i: nat, n: nat, r: nat)
    requires n <= i && 0 < r
    ensures Slot(i, n, r) < r
    ensures i - n < r ==> Slot(i, n, r) == i - n
  {
  }

  /** `@responses[k] ||= []` followed by `@responses[k] << b`. */
  function Append<V>(m: ResponseMap<V>, k: Oid, b: VarBind<V>): (r: ResponseMap<V>)
    requires k in m ==> m[k].Bindings?
  {
    m[k := Bindings((if k in m then m[k].pairs else []) + [b])]
  }

  /** One turn of the repeater loop adds `b` at the end of `k`'s pair list
      (a fresh one-pair list the first time) and leaves every other key as it
      was. */
  lemma AppendExtends<V>(m: ResponseMap<V>, k: Oid, b: VarBind<V>)
    requires k in m ==> m[k].Bindings?
    ensures Append(m, k, b).Keys == m.Keys + {k}
    ensures k !in m ==> Append(m, k, b)[k] == Bindings([b])
    ensures k in m ==> Append(m, k, b)[k] == Bindings(m[k].pairs + [b])
    ensures forall o :: o in m && o != k ==> Append(m, k, b)[o] == m[o]
  {
  }

  /** The response map after the repeater loop has handled the bindings at
      indices `n` up to (not including) `i`, dealing them over `rest`. */
  function RepeatersUpTo<V>(m: ResponseMap<V>, rest: seq<Oid>, vb: seq<VarBind<V>>, n: nat, i: nat): (r: ResponseMap<V>)
    requires n <= i <= |vb|
    requires n < i ==> 0 < |rest|
    requires forall k :: k in rest && k in m ==> m[k].Bindings?
    ensures forall k :: k in rest && k in r ==> r[k].Bindings?
    decreases i
  {
    if i == n then m
    else Append(RepeatersUpTo(m, rest, vb, n, i - 1), rest[Slot(i - 1, n, |rest|)], vb[i - 1])
  }

  /** The repeater loop touches no key outside `rest`. */
  lemma {:induction false} RepeatersFrame<V>(m: ResponseMap<V>, rest: seq<Oid>, vb: seq<VarBind<V>>, n: nat, i: nat, k: Oid)
    requires n <= i <= |vb|
    requires n < i ==> 0 < |rest|
    requires forall k :: k in rest && k in m ==> m[k].Bindings?
    requires k !in rest
    ensures k in RepeatersUpTo(m, rest, vb, n, i) <==> k in m
    ensures k in m ==> RepeatersUpTo(m, rest, vb, n, i)[k] == m[k]
    decreases i
  {
    if i > n {
      RepeatersFrame(m, rest, vb, n, i - 1, k);
    }
  }

  /** The indices in `[n, i)` whose slot is `j`, in increasing order: the
      bindings repeater position `j` receives. */
  function Column(n: nat, r: nat, j: nat, i: nat): (c: seq<nat>)
    requires 0 < r
    ensures forall t :: 0 <= t < |c| ==> n <= c[t] < i
    decreases i
  {
    if i <= n then []
    else Column(n, r, j, i - 1) + (if Slot(i - 1, n, r) == j then [i - 1] else [])
  }

  /** The bindings at the given indices, in that order. */
  function Pick<V>(vb: seq<VarBind<V>>, c: seq<nat>): (ps: seq<VarBind<V>>)
    requires forall t :: 0 <= t < |c| ==> c[t] < |vb|
  {
    seq(|c|, t requires 0 <= t < |c| => vb[c[t]])
  }

  /** A column is exactly the indices `x` in `[n, i)` with `(x - n) mod r == j`,
      strictly increasing: `n + j, n + j + r, n + j + 2r, ...`. */
  lemma {:induction false} ColumnExactly(n: nat, r: nat, j: nat, i: nat)
    requires 0 < r
    ensures forall a, b :: 0 <= a < b < |Column(n, r, j, i)| ==> Column(n, r, j, i)[a] < Column(n, r, j, i)[b]
    ensures forall x: nat :: x in Column(n, r, j, i) <==> n <= x < i && Slot(x, n, r) == j
  {
    if i > n {
      ColumnExactly(n, r, j, i - 1);
    }
  }

  /** Repeater position `j` receives at least one binding iff `n + j < i`. */
  lemma {:induction false} ColumnNonEmpty(n: nat, r: nat, j: nat, i: nat)
    requires j < r
    ensures |Column(n, r, j, i)| > 0 <==> n + j < i
    decreases i
  {
    if i > n {
      ColumnNonEmpty(n, r, j, i - 1);
      if i - 1 <= n + j {
        SmallMod(i - 1 - n, r);
      }
    }
  }

  lemma SmallMod(a: nat, r: nat)
    requires a < r
    ensures a % r == a
  {
  }

  /** The number of bindings dealt to positions `0 .. j - 1`. */
  function ColumnsSize(n: nat, r: nat, i: nat, j: nat): (size: nat)
    requires 0 < r
  {
    if j == 0 then 0 else ColumnsSize(n, r, i, j - 1) + |Column(n, r, j - 1, i)|
  }

  lemma {:induction false} ColumnsSizeStep(n: nat, r: nat, i: nat, j: nat)
    requires 0 < r && n <= i
    ensures ColumnsSize(n, r, i + 1, j) == ColumnsSize(n, r, i, j) + (if Slot(i, n, r) < j then 1 else 0)
  {
    if j > 0 {
      ColumnsSizeStep(n, r, i, j - 1);
    }
  }

  /** Every binding after the first `n` is dealt to exactly one repeater:
      the columns together hold `i - n` bindings. */
  lemma {:induction false} RepeaterPairsTotal(n: nat, r: nat, i: nat)
    requires 0 < r && n <= i
    ensures ColumnsSize(n, r, i, r) == i - n
  {
    if i > n {
      RepeaterPairsTotal(n, r, i - 1);
      ColumnsSizeStep(n, r, i - 1, r);
    } else {
      ColumnsEmpty(n, r, i, r);
    }
  }

  lemma {:induction false} ColumnsEmpty(n: nat, r: nat, i: nat, j: nat)
    requires 0 < r && i <= n
    ensures ColumnsSize(n, r, i, j) == 0
  {
    if j > 0 {
      ColumnsEmpty(n, r, i, j - 1);
    }
  }

  /** The round-robin loop, column by column: with distinct repeaters that had
      no entry before, repeater position `j` has an entry iff its column is
      non-empty, and then holds exactly the bindings of its column, in order. */
  lemma {:induction false} RepeatersByColumn<V>(m: ResponseMap<V>, rest: seq<Oid>, vb: seq<VarBind<V>>, n: nat, i: nat, j: nat)
    requires n <= i <= |vb| && j < |rest|
    requires forall k :: k in rest ==> k !in m
    requires forall u :: 0 <= u < |rest| && u != j ==> rest[u] != rest[j]
    ensures rest[j] in RepeatersUpTo(m, rest, vb, n, i) <==> |Column(n, |rest|, j, i)| > 0
    ensures rest[j] in RepeatersUpTo(m, rest, vb, n, i) ==>
              RepeatersUpTo(m, rest, vb, n, i)[rest[j]] == Bindings(Pick(vb, Column(n, |rest|, j, i)))
    decreases i
  {
    if i > n {
      var r := |rest|;
      var prev := RepeatersUpTo(m, rest, vb, n, i - 1);
      RepeatersByColumn(m, rest, vb, n, i - 1, j);
      var s := Slot(i - 1, n, r);
      var cur := RepeatersUpTo(m, rest, vb, n, i);
      assert cur == Append(prev, rest[s], vb[i - 1]);
      var cPrev, cCur := Column(n, r, j, i - 1), Column(n, r, j, i);
      assert cCur == cPrev + (if s == j then [i - 1] else []);
      assert s != j ==> rest[s] != rest[j];
      ColumnStep(prev, cur, rest[j], rest[s], vb, cPrev, cCur, i - 1, s == j);
    }
  }

  /** One turn of the repeater loop, seen from repeater `key`: a binding
      dealt to it extends its column; one dealt to another repeater leaves it
      alone. */
  lemma ColumnStep<V>(prev: ResponseMap<V>, cur: ResponseMap<V>, key: Oid, other: Oid, vb: seq<VarBind<V>>,
                      cPrev: seq<nat>, cCur: seq<nat>, x: nat, hit: bool)
    requires forall t :: 0 <= t < |cPrev| ==> cPrev[t] < |vb|
    requires x < |vb| && (other in prev ==> prev[other].Bindings?)
    requires cur == Append(prev, other, vb[x])
    requires hit ==> other == key && cCur == cPrev + [x]
    requires !hit ==> other != key && cCur == cPrev
    requires key in prev <==> |cPrev| > 0
    requires key in prev ==> prev[key] == Bindings(Pick(vb, cPrev))
    ensures forall t :: 0 <= t < |cCur| ==> cCur[t] < |vb|
    ensures key in cur <==> |cCur| > 0
    ensures key in cur ==> cur[key] == Bindings(Pick(vb, cCur))
  {
    if hit {
      PickSnoc(vb, cPrev, x);
    }
  }

  lemma PickSnoc<V>(vb: seq<VarBind<V>>, c: seq<nat>, x: nat)
    requires forall t :: 0 <= t < |c| ==> c[t] < |vb|
    requires x < |vb|
    ensures Pick(vb, c + [x]) == Pick(vb, c) + [vb[x]]
  {
  }

  /** The whole success path: the non-repeater loop, then the repeater loop
      over what is left of the pending list. */
  function AfterSuccess<V>(m: ResponseMap<V>, p: seq<Oid>, vb: seq<VarBind<V>>, n: nat): (r: ResponseMap<V>)
    requires SuccessAdmissible(p, |vb|, n)
    requires forall k :: k in p && k in m ==> m[k].Bindings?
    ensures forall k :: k in r ==> k in m || k in p
  {
    var m' := NonRepeatersUpTo(m, p, vb, n);
    var rest := p[n..];
    NonRepeatersKeys(m, p, vb, n);
    assert forall k :: k in rest && k in m' ==> m'[k].Bindings? by {
      forall k | k in rest && k in m'
        ensures m'[k].Bindings?
      {
        if k in p[..n] {
          var t :| 0 <= t < n && p[..n][t] == k;
          assert p[t] == k;
        }
      }
    }
    var r := RepeatersUpTo(m', rest, vb, n, |vb|);
    assert forall k :: k in r ==> k in m || k in p by {
      forall k | k in r && k !in p
        ensures k in m
      {
        assert k !in rest && k !in p[..n] by {
          assert p == p[..n] + rest;
        }
        RepeatersFrame(m', rest, vb, n, |vb|, k);
      }
    }
    r
  }

  /** What the success path needs of its inputs to run without a Ruby error:
      `n` OIDs to shift and `n` bindings to read, and at least one repeater
      when there are bindings past the first `n` (else `% 0`). */
  predicate SuccessAdmissible(p: seq<Oid>, vbCount: nat, n: nat): (ok: bool)
    ensures ok ==> n <= |p| && n <= vbCount && (n < vbCount ==> n < |p|)
  {
    n <= |p| && n <= vbCount && (n < vbCount ==> n < |p|)
  }

  /** The success path, stated as a whole: the pending OID at position `t`
      has an entry iff `t < |vb|`; the `t`-th non-repeater holds exactly
      `vb[t]`; the one at position `t >= n` (repeater position `t - n`) holds
      exactly the bindings of its column, in order; every other key is
      unchanged. */
  lemma AfterSuccessExactly<V>(m: ResponseMap<V>, p: seq<Oid>, vb: seq<VarBind<V>>, n: nat)
    requires SuccessAdmissible(p, |vb|, n)
    requires Distinct(p) && forall k :: k in p ==> k !in m
    ensures forall t :: 0 <= t < |p| ==> (p[t] in AfterSuccess(m, p, vb, n) <==> t < |vb|)
    ensures forall t :: 0 <= t < n ==> AfterSuccess(m, p, vb, n)[p[t]] == Bindings([vb[t]])
    ensures forall t :: n <= t < |p| && t < |vb| ==>
              AfterSuccess(m, p, vb, n)[p[t]] == Bindings(Pick(vb, Column(n, |p| - n, t - n, |vb|)))
    ensures forall k :: k !in p ==> (k in AfterSuccess(m, p, vb, n) <==> k in m)
    ensures forall k :: k !in p && k in m ==> AfterSuccess(m, p, vb, n)[k] == m[k]
  {
    NonRepeatersSurvive(m, p, vb, n);
    RepeatersPart(m, p, vb, n);
    SuccessFrame(m, p, vb, n);
  }

  /** A distinct list splits into two distinct, disjoint parts. */
  lemma SplitDisjoint(p: seq<Oid>, n: nat)
    requires Distinct(p) && n <= |p|
    ensures Distinct(p[n..])
    ensures forall k :: k in p[n..] ==> k !in p[..n]
  {
    forall k | k in p[n..]
      ensures k !in p[..n]
    {
      var u :| 0 <= u < |p| - n && p[n..][u] == k;
      forall t | 0 <= t < n
        ensures p[..n][t] != k
      {
        assert p[..n][t] == p[t] && p[n..][u] == p[n + u];
      }
    }
  }

  /** After the non-repeater loop no repeater has an entry yet. */
  lemma RestFresh<V>(m: ResponseMap<V>, p: seq<Oid>, vb: seq<VarBind<V>>, n: nat)
    requires SuccessAdmissible(p, |vb|, n)
    requires Distinct(p) && forall k :: k in p ==> k !in m
    ensures Distinct(p[n..])
    ensures forall k :: k in p[n..] ==> k !in NonRepeatersUpTo(m, p, vb, n)
  {
    SplitDisjoint(p, n);
    NonRepeatersKeys(m, p, vb, n);
    forall k | k in p[n..]
      ensures k in p
    {
      var u :| 0 <= u < |p| - n && p[n..][u] == k;
      assert p[n + u] == k;
    }
  }

  lemma NonRepeatersSurvive<V>(m: ResponseMap<V>, p: seq<Oid>, vb: seq<VarBind<V>>, n: nat)
    requires SuccessAdmissible(p, |vb|, n)
    requires Distinct(p) && forall k :: k in p ==> k !in m
    ensures forall t :: 0 <= t < n ==>
              p[t] in AfterSuccess(m, p, vb, n) && AfterSuccess(m, p, vb, n)[p[t]] == Bindings([vb[t]])
  {
    var m' := NonRepeatersUpTo(m, p, vb, n);
    SplitDisjoint(p, n);
    forall t | 0 <= t < n
      ensures p[t] in AfterSuccess(m, p, vb, n) && AfterSuccess(m, p, vb, n)[p[t]] == Bindings([vb[t]])
    {
      assert p[..n][t] == p[t];
      NonRepeaterAssigned(m, p, vb, n, t);
      RestFresh(m, p, vb, n);
      RepeatersFrame(m', p[n..], vb, n, |vb|, p[t]);
    }
  }

  lemma RepeatersPart<V>(m: ResponseMap<V>, p: seq<Oid>, vb: seq<VarBind<V>>, n: nat)
    requires SuccessAdmissible(p, |vb|, n)
    requires Distinct(p) && forall k :: k in p ==> k !in m
    ensures forall t :: n <= t < |p| ==> (p[t] in AfterSuccess(m, p, vb, n) <==> t < |vb|)
    ensures forall t :: n <= t < |p| && t < |vb| ==>
              AfterSuccess(m, p, vb, n)[p[t]] == Bindings(Pick(vb, Column(n, |p| - n, t - n, |vb|)))
  {
    RestFresh(m, p, vb, n);
    forall t | n <= t < |p|
      ensures p[t] in AfterSuccess(m, p, vb, n) <==> t < |vb|
      ensures t < |vb| ==> AfterSuccess(m, p, vb, n)[p[t]] == Bindings(Pick(vb, Column(n, |p| - n, t - n, |vb|)))
    {
      RepeaterAt(m, p, vb, n, t);
    }
  }

  /** The repeater at pending position `t >= n`, one at a time. */
  lemma RepeaterAt<V>(m: ResponseMap<V>, p: seq<Oid>, vb: seq<VarBind<V>>, n: nat, t: nat)
    requires SuccessAdmissible(p, |vb|, n) && n <= t < |p|
    requires Distinct(p[n..]) && forall k :: k in p[n..] ==> k !in NonRepeatersUpTo(m, p, vb, n)
    requires forall k :: k in p && k in m ==> m[k].Bindings?
    ensures p[t] in AfterSuccess(m, p, vb, n) <==> t < |vb|
    ensures t < |vb| ==> AfterSuccess(m, p, vb, n)[p[t]] == Bindings(Pick(vb, Column(n, |p| - n, t - n, |vb|)))
  {
    var rest := p[n..];
    var m' := NonRepeatersUpTo(m, p, vb, n);
    AfterSuccessUnfold(m, p, vb, n);
    DistinctOthers(rest, t - n);
    RepeatersByColumn(m', rest, vb, n, |vb|, t - n);
    ColumnNonEmpty(n, |rest|, t - n, |vb|);
    assert rest[t - n] == p[t];
  }

  /** The success path is the repeater loop run on the map the non-repeater
      loop leaves. */
  lemma AfterSuccessUnfold<V>(m: ResponseMap<V>, p: seq<Oid>, vb: seq<VarBind<V>>, n: nat)
    requires SuccessAdmissible(p, |vb|, n)
    requires forall k :: k in p && k in m ==> m[k].Bindings?
    requires forall k :: k in p[n..] ==> k !in NonRepeatersUpTo(m, p, vb, n)
    ensures AfterSuccess(m, p, vb, n) == RepeatersUpTo(NonRepeatersUpTo(m, p, vb, n), p[n..], vb, n, |vb|)
  {
  }

  lemma DistinctOthers(s: seq<Oid>, j: nat)
    requires Distinct(s) && j < |s|
    ensures forall u :: 0 <= u < |s| && u != j ==> s[u] != s[j]
  {
  }

  lemma SuccessFrame<V>(m: ResponseMap<V>, p: seq<Oid>, vb: seq<VarBind<V>>, n: nat)
    requires SuccessAdmissible(p, |vb|, n)
    requires forall k :: k in p ==> k !in m
    ensures forall k :: k !in p ==> (k in AfterSuccess(m, p, vb, n) <==> k in m)
    ensures forall k :: k !in p && k in m ==> AfterSuccess(m, p, vb, n)[k] == m[k]
  {
    var m' := NonRepeatersUpTo(m, p, vb, n);
    NonRepeatersKeys(m, p, vb, n);
    forall k | k !in p
      ensures (k in AfterSuccess(m, p, vb, n) <==> k in m)
      ensures k in m ==> AfterSuccess(m, p, vb, n)[k] == m[k]
    {
      assert k !in p[n..] && k !in p[..n] by {
        assert p == p[..n] + p[n..];
      }
      RepeatersFrame(m', p[n..], vb, n, |vb|, k);
    }
  }
}
