/** The GetBulk request object: it holds the OIDs still to fetch, the
    response map built so far and the shared error-retry budget, reconciles
    each agent response into them, and either re-sends what is still pending
    or completes with the response map. */
module GetBulkRequest {
  import opened SnmpTypes
  import opened Demux
  import opened Isolate
  import opened Finalise

  /** A response reconciliation can take without a Ruby error: on noError the
      success path's needs (see SuccessAdmissible); on an agent error an error
      index that names one of the OIDs just sent. */
  predicate Admissible<V>(resp: Response<V>, pending: seq<Oid>, nonRepeaters: nat): (ok: bool)
    ensures ok && resp.errorStatus != NoError ==>
              0 <= resp.errorIndex - 1 < |pending| && |RemoveAt(pending, resp.errorIndex - 1)| == |pending| - 1
    ensures ok && resp.errorStatus == NoError ==> SuccessAdmissible(pending, |resp.vbList|, nonRepeaters)
  {
    if resp.errorStatus == NoError then SuccessAdmissible(pending, |resp.vbList|, nonRepeaters)
    else 1 <= resp.errorIndex <= |pending|
  }

  /** The non-repeater count is fixed at construction and never clipped to
      the pending list. Once an error round has left fewer OIDs pending than
      `nonRepeaters`, no noError response can be reconciled: the source would
      shift past the end of the pending list. */
  lemma NonRepeatersOutlivePending<V>(p: seq<Oid>, n: nat, i: nat, resp: Response<V>)
    requires 1 <= i <= |p| && |p| <= n && resp.errorStatus == NoError
    ensures !Admissible(resp, RemoveAt(p, i - 1), n)
  {
  }

  class SnmpGetBulkRequest<V> {
    /** The OIDs the operation was created with. */
    ghost const requested: seq<Oid>
    const version: Version
    const returnRaw: bool
    const nonRepeaters: nat
    const maxRepetitions: nat
    const normaliser: Normaliser<V>

    var pending: seq<Oid>
    var responses: ResponseMap<V>
    var errorRetries: nat
    /** Set once, when the response map is delivered. */
    var done: bool
    var result: Option<ResponseMap<V>>
    /** Every request handed to the transport, oldest first. */
    var sent: seq<BulkRequest>
    /** Repeaters cleared from pending by a success round without receiving a
        binding: they end with no entry at all. */
    ghost var unanswered: set<Oid>

    ghost predicate Valid()
      reads this
    {
      && Consistent()
      && (done <==> result.Some?)
      && (done ==> pending == [] && result == Some(responses))
      && (!done ==> sent[|sent| - 1].oids == pending && errorRetries == |pending|)
    }

    /** What holds at every point, also between reconciling a response and
        the termination check. */
    ghost predicate Consistent()
      reads this
    {
      && Distinct(requested)
      && Distinct(pending)
      && (forall o :: o in pending ==> o in requested && o !in responses && o !in unanswered)
      && (forall o :: o in responses ==> o in requested)
      && (forall o :: o in unanswered ==> o in requested && o !in responses)
      && (forall o :: o in requested ==> o in pending || o in responses || o in unanswered)
      && 0 < |sent| && errorRetries + |sent| == |requested| + 1
      && (forall t :: 0 <= t < |sent| ==>
            sent[t] == BulkRequest(version, sent[t].oids, nonRepeaters, maxRepetitions)
            && |sent[t].oids| == |requested| - t)
    }

    /** Sets up the state from the OIDs and the options (defaults SNMPv2c,
        not raw, 0 non-repeaters, 10 repetitions) and sends the first
        request. */
    constructor (oids: seq<Oid>, args: Options, normaliser: Normaliser<V>)
      requires Distinct(oids)
      ensures Valid() && !done
      ensures requested == oids && pending == oids && responses == map[] && unanswered == {}
      ensures errorRetries == |oids|
      ensures version == args.version.GetOr(SNMPv2c)
      ensures returnRaw == args.returnRaw.GetOr(false)
      ensures nonRepeaters == args.nonRepeaters.GetOr(0)
      ensures maxRepetitions == args.maxRepetitions.GetOr(10)
      ensures this.normaliser == normaliser
      ensures sent == [BulkRequest(version, oids, nonRepeaters, maxRepetitions)]
    {
      requested := oids;
      errorRetries := |oids|;
      version := args.version.GetOr(SNMPv2c);
      returnRaw := args.returnRaw.GetOr(false);
      nonRepeaters := args.nonRepeaters.GetOr(0);
      maxRepetitions := args.maxRepetitions.GetOr(10);
      this.normaliser := normaliser;
      responses := map[];
      pending := oids;
      done := false;
      result := None;
      sent := [];
      unanswered := {};
      new;
      Send();
    }

    /** Hands a request for exactly the current pending list, with the fixed
        round parameters, to the transport. */
    method Send()
      modifies this`sent
      ensures sent == old(sent) + [BulkRequest(version, pending, nonRepeaters, maxRepetitions)]
    {
      sent := sent + [BulkRequest(version, pending, nonRepeaters, maxRepetitions)];
    }

    /** Reconciles one agent response, then completes or re-sends. */
    method HandleResponse(resp: Response<V>)
      requires Valid() && !done && Admissible(resp, pending, nonRepeaters)
      modifies this
      ensures Valid()
      ensures resp.errorStatus == NoError ==>
                && done && pending == [] && errorRetries == old(errorRetries) && sent == old(sent)
                && responses == Finalised(AfterSuccess(old(responses), old(pending), resp.vbList, nonRepeaters),
                                          [], returnRaw, normaliser)
                && unanswered == old(unanswered) + (set t | |resp.vbList| <= t < |old(pending)| :: old(pending)[t])
      ensures resp.errorStatus != NoError ==>
                var failed := old(pending)[resp.errorIndex - 1];
                var rest := RemoveAt(old(pending), resp.errorIndex - 1);
                var marked := old(responses)[failed := Failed(resp.errorStatus)];
                && unanswered == old(unanswered)
                && if rest == [] || old(errorRetries) == 0 then
                     && done && pending == [] && errorRetries == old(errorRetries) && sent == old(sent)
                     && responses == Finalised(marked, rest, returnRaw, normaliser)
                   else
                     && !done && pending == rest && responses == marked
                     && errorRetries == old(errorRetries) - 1
                     && sent == old(sent) + [BulkRequest(version, rest, nonRepeaters, maxRepetitions)]
      ensures resp.errorStatus != NoError ==> (done <==> |old(pending)| == 1)
    {
      if resp.errorStatus == NoError {
        ReconcileSuccess(resp.vbList);
      } else {
        ReconcileError(resp.errorStatus, resp.errorIndex);
      }
      CheckTermination();
    }

    /** The noError branch: demultiplex the bindings, then clear pending. */
    method ReconcileSuccess(vb: seq<VarBind<V>>)
      requires Valid() && !done && SuccessAdmissible(pending, |vb|, nonRepeaters)
      modifies this
      ensures Consistent() && !done && result == None
      ensures pending == [] && errorRetries == old(errorRetries) && sent == old(sent)
      ensures responses == AfterSuccess(old(responses), old(pending), vb, nonRepeaters)
      ensures unanswered == old(unanswered) + (set t | |vb| <= t < |old(pending)| :: old(pending)[t])
    {
      ghost var p, m := pending, responses;
      AfterSuccessExactly(m, p, vb, nonRepeaters);
      RestFresh(m, p, vb, nonRepeaters);
      AssignNonRepeaters(vb);
      AssignRepeaters(vb);
      unanswered := unanswered + (set t | |vb| <= t < |p| :: p[t]);
      pending := [];
    }

    /** The error branch: the OID at `errorIndex - 1` leaves pending and is
        marked with the agent's error status. */
    method ReconcileError(status: ErrorStatus, errorIndex: int)
      requires Valid() && !done && 1 <= errorIndex <= |pending|
      modifies this
      ensures Consistent() && !done && result == None
      ensures pending == RemoveAt(old(pending), errorIndex - 1)
      ensures responses == old(responses)[old(pending)[errorIndex - 1] := Failed(status)]
      ensures errorRetries == old(errorRetries) == |pending| + 1
      ensures sent == old(sent) && unanswered == old(unanswered)
    {
      RemoveAtExactlyOne(pending, errorIndex - 1);
      var errorOid := pending[errorIndex - 1];
      pending := RemoveAt(pending, errorIndex - 1);
      responses := responses[errorOid := Failed(status)];
    }

    /** Completes when pending is empty or the budget is spent (draining what
        is left, normalising unless raw); otherwise spends one retry and
        re-sends. */
    method CheckTermination()
      requires Consistent() && !done && result == None
      requires pending == [] || errorRetries == |pending| + 1
      modifies this
      ensures Valid()
      ensures unanswered == old(unanswered)
      ensures old(pending) == [] || old(errorRetries) == 0 ==>
                && done && pending == [] && errorRetries == old(errorRetries) && sent == old(sent)
                && responses == Finalised(old(responses), old(pending), returnRaw, normaliser)
      ensures old(pending) != [] && old(errorRetries) != 0 ==>
                && !done && pending == old(pending) && responses == old(responses)
                && errorRetries == old(errorRetries) - 1
                && sent == old(sent) + [BulkRequest(version, pending, nonRepeaters, maxRepetitions)]
    {
      ghost var m, p := responses, pending;
      if pending == [] || errorRetries == 0 {
        DrainPending();
        if !returnRaw {
          NormaliseResponses();
        }
        FinalisedKeys(m, p, returnRaw, normaliser);
        Succeed();
      } else {
        errorRetries := errorRetries - 1;
        Send();
      }
    }

    /** The `nonrepeaters.times` loop: shifts the first `nonRepeaters` OIDs
        off the pending list, mapping each to its one binding. */
    method AssignNonRepeaters(vb: seq<VarBind<V>>)
      requires nonRepeaters <= |pending| && nonRepeaters <= |vb|
      modifies this`pending, this`responses
      ensures pending == old(pending)[nonRepeaters..]
      ensures responses == NonRepeatersUpTo(old(responses), old(pending), vb, nonRepeaters)
    {
      for i := 0 to nonRepeaters
        invariant pending == old(pending)[i..]
        invariant responses == NonRepeatersUpTo(old(responses), old(pending), vb, i)
      {
        var requestOid := pending[0];
        pending := pending[1..];
        responses := responses[requestOid := Bindings([vb[i]])];
      }
    }

    /** The loop over the bindings after the first `nonRepeaters`: each is
        appended to the entry of the pending OID its slot names. */
    method AssignRepeaters(vb: seq<VarBind<V>>)
      requires nonRepeaters <= |vb| && (nonRepeaters < |vb| ==> 0 < |pending|)
      requires forall k :: k in pending && k in responses ==> responses[k].Bindings?
      modifies this`responses
      ensures responses == RepeatersUpTo(old(responses), pending, vb, nonRepeaters, |vb|)
    {
      for i := nonRepeaters to |vb|
        invariant responses == RepeatersUpTo(old(responses), pending, vb, nonRepeaters, i)
      {
        var requestOid := pending[(i - nonRepeaters) % |pending|];
        if requestOid !in responses {
          responses := responses[requestOid := Bindings([])];
        }
        responses := responses[requestOid := Bindings(responses[requestOid].pairs + [vb[i]])];
      }
    }

    /** The `until @pending_oids.empty?` loop: every OID still pending is
        shifted off and marked genErr. */
    method DrainPending()
      modifies this`pending, this`responses
      ensures pending == [] && responses == Drain(old(responses), old(pending))
    {
      while pending != []
        invariant Drain(responses, pending) == Drain(old(responses), old(pending))
        decreases |pending|
      {
        var errorOid := pending[0];
        pending := pending[1..];
        responses := responses[errorOid := Failed(GenErr)];
      }
    }

    /** The `each_pair` loop: every entry's pairs are normalised in turn. */
    method NormaliseResponses()
      modifies this`responses
      ensures responses == Normalised(old(responses), normaliser)
    {
      var keys := responses.Keys;
      while keys != {}
        invariant keys <= old(responses).Keys
        invariant responses.Keys == old(responses).Keys
        invariant forall k :: k in responses ==>
                    responses[k] == if k in keys then old(responses)[k] else NormaliseEntry(old(responses)[k], normaliser)
        decreases keys
      {
        var searchOid :| searchOid in keys;
        var values := responses[searchOid];
        if values.Bindings? {
          var collected := CollectNormalised(values.pairs, normaliser);
          values := Bindings(collected);
        }
        responses := responses[searchOid := values];
        keys := keys - {searchOid};
      }
    }

    /** The shared budget bounds the rounds: at most `|requested|` requests
        follow the first, and while the operation runs the budget is zero
        exactly when nothing is pending. */
    lemma ResendsBounded()
      requires Valid()
      ensures |sent| - 1 <= |requested| && errorRetries <= |requested|
      ensures !done ==> (errorRetries == 0 <==> pending == [])
    {
    }

    /** Delivers the response map (the Deferrable's `succeed`). */
    method Succeed()
      modifies this`done, this`result
      ensures done && result == Some(responses)
    {
      done := true;
      result := Some(responses);
    }
  }
}
