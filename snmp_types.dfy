/** The values a GetBulk operation works on: OIDs, variable bindings, agent
    responses, the per-OID entries of the response map and the request that is
    sent for each round. */
module SnmpTypes {

  /** An object identifier in its dotted text form. The response map is keyed
      by this form, so an OID and its key are the same value here. */
  type Oid = string

  datatype Option<T> = None | Some(value: T) {
    /** Ruby's `x || default` for an option that may be absent (nil). */
    function GetOr(default: T): (r: T)
      ensures Some? ==> r == value
      ensures None? ==> r == default
    {
      match this
      case Some(v) => v
      case None => default
    }
  }

  datatype Version = SNMPv1 | SNMPv2c

  /** The error-status values an agent may report (section 3 of RFC 3416). */
  datatype ErrorStatus =
    | NoError | TooBig | NoSuchName | BadValue | ReadOnly | GenErr
    | NoAccess | WrongType | WrongLength | WrongEncoding | WrongValue
    | NoCreation | InconsistentValue | ResourceUnavailable | CommitFailed
    | UndoFailed | AuthorizationError | NotWritable | InconsistentName

  /** A (name, value) pair as returned in a response's binding list. */
  datatype VarBind<V> = VarBind(name: Oid, value: V)

  /** What the response map holds for a requested OID: the pairs collected for
      it, or an error marker carrying an error status. */
  datatype Entry<V> = Bindings(pairs: seq<VarBind<V>>) | Failed(status: ErrorStatus)

  type ResponseMap<V> = map<Oid, Entry<V>>

  /** The parts of an agent's response that reconciliation reads. */
  datatype Response<V> = Response(errorStatus: ErrorStatus, errorIndex: int, vbList: seq<VarBind<V>>)

  /** One physical GetBulk request: what one call of `send` hands to the
      transport (the request id is left out). */
  datatype BulkRequest = BulkRequest(version: Version, oids: seq<Oid>, nonRepeaters: nat, maxRepetitions: nat)

  /** The optional construction arguments; `None` is an absent key. */
  datatype Options = Options(
    version: Option<Version>,
    returnRaw: Option<bool>,
    nonRepeaters: Option<nat>,
    maxRepetitions: Option<nat>)

  /** The value-normalisation hook: `rubify` is only applied to values for
      which `respondsToRubify` holds. */
  datatype Normaliser<!V> = Normaliser(rubify: V -> V, respondsToRubify: V -> bool)

  ghost predicate Distinct(s: seq<Oid>) {
    forall i, j :: 0 <= i < j < |s| ==> s[i] != s[j]
  }
}
