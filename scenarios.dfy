/** Three runs of a GetBulk operation, driven through the class's
    contracts only. */
module Scenarios {
  import opened SnmpTypes
  import opened Demux
  import opened Isolate
  import opened Finalise
  import opened GetBulkRequest

  /** OIDs A, B, C with one non-repeater and two repetitions; one noError
      response [A:1, B:2, C:3, B:4] gives A the first binding and deals the
      rest B, C, B. */
  method RoundRobinRun() {
    var nz: Normaliser<int> := Normaliser(v => v, v => false);
    var req := new SnmpGetBulkRequest(["A", "B", "C"], Options(None, Some(true), Some(1), Some(2)), nz);
    assert req.sent == [BulkRequest(SNMPv2c, ["A", "B", "C"], 1, 2)];
    var vb := [VarBind("A", 1), VarBind("B", 2), VarBind("C", 3), VarBind("B", 4)];
    req.HandleResponse(Response(NoError, 0, vb));
    ThreeDistinct();
    RoundRobinResult("A", "B", "C", vb);
    assert req.done && |req.sent| == 1 && req.unanswered == {};
    assert req.responses == map["A" := Bindings([VarBind("A", 1)]),
                                "B" := Bindings([VarBind("B", 2), VarBind("B", 4)]),
                                "C" := Bindings([VarBind("C", 3)])];
  }

  lemma RoundRobinResult(a: Oid, b: Oid, c: Oid, vb: seq<VarBind<int>>)
    requires a != b && a != c && b != c && |vb| == 4
    ensures Drain(AfterSuccess(map[], [a, b, c], vb, 1), []) == map[a := Bindings([vb[0]]), b := Bindings([vb[1], vb[3]]), c := Bindings([vb[2]])]
  {
    var r := AfterSuccess(map[], [a, b, c], vb, 1);
    RoundRobinEntries(a, b, c, vb);
    assert r.Keys == {a, b, c};
  }

  lemma RoundRobinEntries(a: Oid, b: Oid, c: Oid, vb: seq<VarBind<int>>)
    requires a != b && a != c && b != c && |vb| == 4
    ensures var r := AfterSuccess(map[], [a, b, c], vb, 1);
      && (forall k :: k in r <==> k == a || k == b || k == c)
      && r[a] == Bindings([vb[0]])
      && r[b] == Bindings([vb[1], vb[3]])
      && r[c] == Bindings([vb[2]])
  {
    var m1 := RoundRobinFirst(a, b, c, vb);
    var r := RepeatersUpTo(m1, [b, c], vb, 1, 4);
    assert [a, b, c][1..] == [b, c];
    assert r == AfterSuccess(map[], [a, b, c], vb, 1);
    RoundRobinDealt(a, b, c, vb, m1);
    forall k | k != b && k != c
      ensures k in r <==> k == a
      ensures k == a ==> r[k] == Bindings([vb[0]])
    {
      RepeatersFrame(m1, [b, c], vb, 1, 4, k);
    }
  }

  /** The non-repeater step of the round-robin run. */
  lemma RoundRobinFirst(a: Oid, b: Oid, c: Oid, vb: seq<VarBind<int>>) returns (m1: ResponseMap<int>)
    requires |vb| == 4
    ensures m1 == NonRepeatersUpTo(map[], [a, b, c], vb, 1)
    ensures m1 == map[a := Bindings([vb[0]])]
  {
    m1 := NonRepeatersUpTo(map[], [a, b, c], vb, 1);
    assert m1 == NonRepeatersUpTo(map[], [a, b, c], vb, 0)[a := Bindings([vb[0]])];
  }

  /** The repeater step of the round-robin run: B gets slots 1 and 3, C slot 2. */
  lemma RoundRobinDealt(a: Oid, b: Oid, c: Oid, vb: seq<VarBind<int>>, m1: ResponseMap<int>)
    requires a != b && a != c && b != c && |vb| == 4
    requires m1 == map[a := Bindings([vb[0]])]
    ensures var r := RepeatersUpTo(m1, [b, c], vb, 1, 4);
      b in r && c in r && r[b] == Bindings([vb[1], vb[3]]) && r[c] == Bindings([vb[2]])
  {
    RoundRobinColumnB(a, b, c, vb, m1);
    RoundRobinColumnC(a, b, c, vb, m1);
  }

  lemma RoundRobinColumnB(a: Oid, b: Oid, c: Oid, vb: seq<VarBind<int>>, m1: ResponseMap<int>)
    requires a != b && a != c && b != c && |vb| == 4
    requires m1 == map[a := Bindings([vb[0]])]
    ensures var r := RepeatersUpTo(m1, [b, c], vb, 1, 4);
      b in r && r[b] == Bindings([vb[1], vb[3]])
  {
    var col := Column(1, 2, 0, 4);
    ColumnB();
    RepeatersByColumn(m1, [b, c], vb, 1, 4, 0);
    assert Pick(vb, col) == [vb[1], vb[3]];
  }

  lemma RoundRobinColumnC(a: Oid, b: Oid, c: Oid, vb: seq<VarBind<int>>, m1: ResponseMap<int>)
    requires a != b && a != c && b != c && |vb| == 4
    requires m1 == map[a := Bindings([vb[0]])]
    ensures var r := RepeatersUpTo(m1, [b, c], vb, 1, 4);
      c in r && r[c] == Bindings([vb[2]])
  {
    var col := Column(1, 2, 1, 4);
    ColumnC();
    RepeatersByColumn(m1, [b, c], vb, 1, 4, 1);
    assert Pick(vb, col) == [vb[2]];
  }

  lemma ThreeDistinct()
    ensures Distinct(["A", "B", "C"])
  {
    assert "A"[0] != "B"[0] && "A"[0] != "C"[0] && "B"[0] != "C"[0];
  }

  lemma ColumnB()
    ensures Column(1, 2, 0, 4) == [1, 3]
  {
    assert Slot(1, 1, 2) == 0 && Slot(2, 1, 2) == 1 && Slot(3, 1, 2) == 0;
  }

  lemma ColumnC()
    ensures Column(1, 2, 1, 4) == [2]
  {
    assert Slot(1, 1, 2) == 0 && Slot(2, 1, 2) == 1 && Slot(3, 1, 2) == 0;
  }

  /** OIDs A, B with a budget of two: an error at index 2 marks B and
      re-sends [A]; an error at index 1 marks A and completes with no genErr
      marker. */
  method ErrorIsolationRun() {
    var nz: Normaliser<int> := Normaliser(v => v, v => false);
    var req := new SnmpGetBulkRequest(["A", "B"], Options(None, Some(true), None, None), nz);
    assert req.errorRetries == 2;
    req.HandleResponse(Response(NoSuchName, 2, []));
    assert RemoveAt(["A", "B"], 1) == ["A"];
    assert !req.done && req.pending == ["A"] && req.errorRetries == 1;
    assert req.sent[1] == BulkRequest(SNMPv2c, ["A"], 0, 10);
    req.HandleResponse(Response(NoSuchName, 1, []));
    assert RemoveAt(["A"], 0) == [];
    assert req.done && req.errorRetries == 1 && |req.sent| == 2;
    assert req.responses == map["B" := Failed(NoSuchName), "A" := Failed(NoSuchName)];
  }

  /** OIDs A, B with two non-repeaters: after an error at index 1 only B is
      pending, and no noError response can be reconciled any more. */
  method NonRepeatersStrandedRun() {
    var nz: Normaliser<int> := Normaliser(v => v, v => false);
    var req := new SnmpGetBulkRequest(["A", "B"], Options(None, Some(true), Some(2), None), nz);
    req.HandleResponse(Response(NoSuchName, 1, []));
    assert RemoveAt(["A", "B"], 0) == ["B"];
    assert req.Valid() && !req.done && req.pending == ["B"] && req.nonRepeaters == 2;
    assert req.sent[1] == BulkRequest(SNMPv2c, ["B"], 2, 10);
    assert forall k: nat :: !SuccessAdmissible(req.pending, k, req.nonRepeaters);
  }
}
