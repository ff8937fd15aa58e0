/** The error path of reconciliation: the OID the agent's error index points
    at is taken out of the pending list (`delete_at`). */
module Isolate {
  import opened SnmpTypes

  /** The pending list with the element at `i` deleted. */
  function RemoveAt(s: seq<Oid>, i: nat): (r: seq<Oid>)
    requires i < |s|
    ensures |r| == |s| - 1
    ensures forall t :: 0 <= t < i ==> r[t] == s[t]
    ensures forall t :: i <= t < |r| ==> r[t] == s[t + 1]
  {
    s[..i] + s[i + 1..]
  }

  /** Deleting from a duplicate-free list removes exactly the one OID at `i`:
      the rest stay, still duplicate-free, and nothing else is lost or added. */
  lemma RemoveAtExactlyOne(s: seq<Oid>, i: nat)
    requires i < |s| && Distinct(s)
    ensures Distinct(RemoveAt(s, i))
    ensures s[i] !in RemoveAt(s, i)
    ensures forall o :: o in RemoveAt(s, i) <==> o in s && o != s[i]
    ensures multiset(RemoveAt(s, i)) + multiset{s[i]} == multiset(s)
  {
    var r := RemoveAt(s, i);
    assert s == s[..i] + [s[i]] + s[i + 1..];
    forall o | o in s && o != s[i]
      ensures o in r
    {
      var t :| 0 <= t < |s| && s[t] == o;
      if t < i {
        assert r[t] == o;
      } else {
        assert r[t - 1] == o;
      }
    }
    forall o | o in r
      ensures o in s && o != s[i]
    {
      var t :| 0 <= t < |r| && r[t] == o;
      if t < i {
        assert s[t] == o;
      } else {
        assert s[t + 1] == o;
      }
    }
  }

  /** Removing one pending OID keeps the relative order of the others: any
      two that stay appear in the same order as before. */
  lemma RemoveAtKeepsOrder(s: seq<Oid>, i: nat, a: nat, b: nat)
    requires i < |s| && a < b < |s| - 1
    ensures exists a', b' :: 0 <= a' < b' < |s| && s[a'] == RemoveAt(s, i)[a] && s[b'] == RemoveAt(s, i)[b]
  {
    var r := RemoveAt(s, i);
    var a' := if a < i then a else a + 1;
    var b' := if b < i then b else b + 1;
    assert s[a'] == r[a] && s[b'] == r[b];
  }
}
