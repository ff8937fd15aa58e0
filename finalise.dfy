/** Completion of the operation: the OIDs still pending are marked genErr,
    and outside raw mode every value that can be normalised is. */
module Finalise {
  import opened SnmpTypes

  /** The `until @pending_oids.empty?` loop: shifts each leftover OID in turn
      and records a genErr marker for it. */
  function Drain<V>(m: ResponseMap<V>, p: seq<Oid>): (r: ResponseMap<V>)
    ensures forall k :: k in r <==> k in m || k in p
    ensures forall k :: k in p ==> r[k] == Failed(GenErr)
    ensures forall k :: k in m && k !in p ==> r[k] == m[k]
    decreases |p|
  {
    if p == [] then m
    else
      assert forall k :: k in p <==> k == p[0] || k in p[1..] by {
        assert p == [p[0]] + p[1..];
      }
      Drain(m[p[0] := Failed(GenErr)], p[1..])
  }

  /** The body of the `collect!` block for one pair: the value is replaced by
      its normalised form when it has one, and left as it is otherwise. */
  function NormaliseBind<V>(b: VarBind<V>, nz: Normaliser<V>): (r: VarBind<V>)
    ensures r.name == b.name
    ensures nz.respondsToRubify(b.value) ==> r.value == nz.rubify(b.value)
    ensures !nz.respondsToRubify(b.value) ==> r == b
  {
    if nz.respondsToRubify(b.value) then VarBind(b.name, nz.rubify(b.value)) else b
  }

  /** One entry of the response map after normalisation. Error markers are
      left as they are. */
  function NormaliseEntry<V>(e: Entry<V>, nz: Normaliser<V>): (r: Entry<V>)
    ensures e.Failed? ==> r == e
    ensures e.Bindings? ==> r.Bindings? && |r.pairs| == |e.pairs|
    ensures e.Bindings? ==> forall t :: 0 <= t < |e.pairs| ==> r.pairs[t] == NormaliseBind(e.pairs[t], nz)
  {
    match e
    case Bindings(ps) => Bindings(seq(|ps|, t requires 0 <= t < |ps| => NormaliseBind(ps[t], nz)))
    case Failed(_) => e
  }

  /** The whole response map after normalisation: the same keys, the same
      list lengths and pair names, each value normalised when it can be. */
  function Normalised<V>(m: ResponseMap<V>, nz: Normaliser<V>): (r: ResponseMap<V>)
    ensures r.Keys == m.Keys
    ensures forall k :: k in m ==> r[k] == NormaliseEntry(m[k], nz)
  {
    map k | k in m :: NormaliseEntry(m[k], nz)
  }

  /** Normalisation as a whole: the same keys, error markers untouched, and
      each pair list keeps its length and its pair names, with a value
      changed only where it responds to `rubify`, and then to its rubified
      form. */
  lemma NormalisedPairs<V>(m: ResponseMap<V>, nz: Normaliser<V>, k: Oid, t: nat)
    requires k in m
    ensures k in Normalised(m, nz)
    ensures m[k].Failed? ==> Normalised(m, nz)[k] == m[k]
    ensures m[k].Bindings? ==> Normalised(m, nz)[k].Bindings? && |Normalised(m, nz)[k].pairs| == |m[k].pairs|
    ensures m[k].Bindings? && t < |m[k].pairs| ==>
              var before, after := m[k].pairs[t], Normalised(m, nz)[k].pairs[t];
              && after.name == before.name
              && after.value == (if nz.respondsToRubify(before.value) then nz.rubify(before.value) else before.value)
  {
    if m[k].Bindings? && t < |m[k].pairs| {
      var b := m[k].pairs[t];
      assert Normalised(m, nz)[k].pairs[t] == NormaliseBind(b, nz);
    }
  }

  /** What the operation delivers: the drained map, normalised unless raw. */
  function Finalised<V>(m: ResponseMap<V>, p: seq<Oid>, returnRaw: bool, nz: Normaliser<V>): (r: ResponseMap<V>)
    ensures forall k :: k in r <==> k in m || k in p
    ensures forall k :: k in p ==> r[k] == Failed(GenErr)
  {
    if returnRaw then Drain(m, p) else Normalised(Drain(m, p), nz)
  }

  /** Whatever the mode, the delivered map has an entry for every key it had
      and every OID drained, and no other key; genErr markers stay genErr. */
  lemma FinalisedKeys<V>(m: ResponseMap<V>, p: seq<Oid>, returnRaw: bool, nz: Normaliser<V>)
    ensures forall k :: k in Finalised(m, p, returnRaw, nz) <==> k in m || k in p
    ensures forall k :: k in p ==> Finalised(m, p, returnRaw, nz)[k] == Failed(GenErr)
    ensures returnRaw ==> forall k :: k in m && k !in p ==> Finalised(m, p, returnRaw, nz)[k] == m[k]
    ensures !returnRaw ==> forall k :: k in m && k !in p ==>
              Finalised(m, p, returnRaw, nz)[k] == NormaliseEntry(m[k], nz)
  {
  }

  /** The `collect!` over one entry's pairs, done in place on a copy. */
  method CollectNormalised<V>(pairs: seq<VarBind<V>>, nz: Normaliser<V>) returns (collected: seq<VarBind<V>>)
    ensures |collected| == |pairs|
    ensures forall t :: 0 <= t < |pairs| ==> collected[t] == NormaliseBind(pairs[t], nz)
  {
    collected := pairs;
    for t := 0 to |pairs|
      invariant |collected| == |pairs|
      invariant forall u :: 0 <= u < t ==> collected[u] == NormaliseBind(pairs[u], nz)
      invariant forall u :: t <= u < |pairs| ==> collected[u] == pairs[u]
    {
      var oidValue := collected[t];
      if nz.respondsToRubify(oidValue.value) {
        oidValue := oidValue.(value := nz.rubify(oidValue.value));
      }
      collected := collected[t := oidValue];
    }
  }
}
