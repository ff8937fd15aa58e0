# SNMP GetBulk reconciliation, modelled in Dafny

This project models `SNMP4EM::SnmpGetBulkRequest`, the object that runs one
logical SNMP GetBulk operation over a list of OIDs. It may take several
physical requests to finish. The object sends a request for every OID still
pending and reconciles the agent's response into a response map:

- **noError response.** The first `non_repeaters` bindings go one to one to
  the first `non_repeaters` pending OIDs. The remaining bindings are dealt
  round-robin over the pending OIDs that are left, and pending is cleared.
- **Agent error.** The OID named by the error index is removed from pending
  and marked with the agent's status.

After either kind of response, the object completes if nothing is pending or
the error budget is spent. Completing means:

1. every leftover OID is marked genErr;
2. values are normalised unless raw mode was asked for;
3. the map is delivered.

Otherwise it spends one unit of budget and sends the request again.

Files:

- `snmp_types.dfy`: OIDs, variable bindings, the agent error statuses of
  section 3 of RFC 3416, response-map entries, the options and the request
  record that is handed to the transport.
- `demux.dfy`: the noError path as functions of the old state. These are the
  non-repeater loop, the round-robin repeater loop and their composition
  `AfterSuccess`. The lemmas say exactly which bindings each OID receives.
- `isolate.dfy`: `delete_at` on the pending list and what it preserves.
- `finalise.dfy`: the genErr drain and value normalisation.
- `getbulk_request.dfy`: the class `SnmpGetBulkRequest`. Its fields are
  updated in place by the constructor, `HandleResponse` and `Send`. Each Ruby
  loop is a Dafny loop proved against the functions above. The class
  invariant `Valid()` links pending, responses, the budget and the
  requests sent so far.
- `scenarios.dfy`: three runs that are driven only through the class
  contracts.
  - Round-robin dealing: OIDs A, B, C with one non-repeater and the response
    [A:1, B:2, C:3, B:4].
  - Error isolation: two agent errors in a row.
  - Stranded non-repeaters: two OIDs, both non-repeaters, and one agent
    error. Afterwards no noError response can be reconciled.

### Where the code differs from what one might expect

The model follows the code.

- **When the budget is spent.** One might expect the budget to be spent
  once per error response. The code spends it only on the re-send branch
  (line 80). When the last pending OID errs, the operation completes with
  the budget unspent. So after two errors on two OIDs the budget ends at 1,
  not 0. `Scenarios.ErrorIsolationRun` proves this.
- **Entries are not guaranteed.** One might expect every requested OID to
  end with an entry. In the code, a repeater whose column of bindings is
  empty gets no entry (lines 44-52). The ghost field `unanswered` records
  these OIDs. `Valid()` states the weaker fact that holds: every requested
  OID is pending, has an entry, or is unanswered.
- **The genErr drain never runs here.** With error indices that are always
  in range, the budget equals the number of pending OIDs at every send. The
  drain therefore never finds anything left to mark (`ResendsBounded`). The
  drain itself is still modelled and proved in general (`Finalise.Drain`).

## Model

| member | source | states |
|---|---|---|
| GetBulkRequest.SnmpGetBulkRequest.constructor | lib/snmp4em/requests/snmp_getbulk_request.rb:13-31 | Option defaults: version SNMPv2c, not raw, 0 non-repeaters, 10 repetitions. The budget is the OID count, pending is the OIDs in order, and the map starts empty. Exactly one request has been sent, carrying all the OIDs. The invariant holds. |
| GetBulkRequest.SnmpGetBulkRequest.Send | lib/snmp4em/requests/snmp_getbulk_request.rb:87-98 | One request is appended: the current pending list in order, with the fixed version, non-repeaters and max-repetitions. Nothing else changes. |
| GetBulkRequest.SnmpGetBulkRequest.HandleResponse | lib/snmp4em/requests/snmp_getbulk_request.rb:33-83 | Two outcomes, both keeping `Valid()`. noError: the operation completes in the same call, with the finalised `AfterSuccess` map, no new send and an unchanged budget. Agent error: the named OID leaves pending and is marked with the status. The operation completes iff that OID was the only one pending; otherwise the rest is re-sent with one unit of budget spent. |
| GetBulkRequest.SnmpGetBulkRequest.ReconcileSuccess | lib/snmp4em/requests/snmp_getbulk_request.rb:34-52 | The map becomes `AfterSuccess` of the old map, old pending list and bindings. Pending becomes empty. The repeaters left without a binding are added to `unanswered`. |
| GetBulkRequest.SnmpGetBulkRequest.ReconcileError | lib/snmp4em/requests/snmp_getbulk_request.rb:54-57 | Exactly the OID at `error_index - 1` is deleted from pending. Its entry becomes the error marker and no other entry changes. The budget is untouched and is one more than what is left pending. |
| GetBulkRequest.SnmpGetBulkRequest.CheckTermination | lib/snmp4em/requests/snmp_getbulk_request.rb:60-82 | The operation completes iff pending is empty or the budget is zero. It then delivers `Finalised(responses, pending)` once, with no further send. Otherwise it decrements the budget and re-sends pending unchanged. |
| GetBulkRequest.SnmpGetBulkRequest.AssignNonRepeaters | lib/snmp4em/requests/snmp_getbulk_request.rb:37-42 | The loop shifts exactly the first `non_repeaters` OIDs off pending. The map ends equal to `NonRepeatersUpTo`. |
| GetBulkRequest.SnmpGetBulkRequest.AssignRepeaters | lib/snmp4em/requests/snmp_getbulk_request.rb:44-50 | The `\|\|=` / `<<` loop leaves the map equal to `RepeatersUpTo` over the remaining pending list. |
| GetBulkRequest.SnmpGetBulkRequest.DrainPending | lib/snmp4em/requests/snmp_getbulk_request.rb:61-64 | Pending ends empty and the map equals `Drain` of the old map and old pending list. |
| GetBulkRequest.SnmpGetBulkRequest.NormaliseResponses | lib/snmp4em/requests/snmp_getbulk_request.rb:66-75 | The `each_pair` loop leaves the map equal to `Normalised` of the old map. |
| GetBulkRequest.SnmpGetBulkRequest.ResendsBounded | lib/snmp4em/requests/snmp_getbulk_request.rb:18 | The budget and the number of re-sends never exceed the OID count. While the operation runs, the budget is zero exactly when nothing is pending. |
| GetBulkRequest.SnmpGetBulkRequest.Succeed | lib/snmp4em/requests/snmp_getbulk_request.rb:78 | The operation is marked done and the result is the current map. |
| GetBulkRequest.NonRepeatersOutlivePending | lib/snmp4em/requests/snmp_getbulk_request.rb:37-41 | Suppose an error round leaves fewer OIDs pending than `non_repeaters`. Then no noError response meets the success path's precondition, because the shift loop would run past the end of the pending list. The state is reachable because the class holds `nonRepeaters` as a `const`, fixed at construction. |
| SnmpTypes.Option.GetOr | lib/snmp4em/requests/snmp_getbulk_request.rb:20-24 | Ruby's `args[:key] \|\| default`. A present option is kept and an absent one gives the default. The constructor's contract applies it to each of the four options. |
| GetBulkRequest.Admissible | lib/snmp4em/requests/snmp_getbulk_request.rb:34-57 | A response the source reconciles without raising. An agent error needs an index in range, so `delete_at` removes exactly one OID. A noError response needs `Demux.SuccessAdmissible`. The excluded cases are listed under "Left out". |
| Demux.SuccessAdmissible | lib/snmp4em/requests/snmp_getbulk_request.rb:37-45 | What the noError path needs: `non_repeaters` OIDs to shift, `non_repeaters` bindings to read, and at least one repeater when bindings remain after the non-repeaters (no `% 0`). The excluded cases are listed under "Left out". |
| Demux.SlotInRange | lib/snmp4em/requests/snmp_getbulk_request.rb:45 | `Slot` computes `(i - non_repeaters) % size`. Its result is always a valid repeater position, and the first `size` bindings after the non-repeaters go to positions 0, 1, ... in order. `Demux.ColumnExactly` and `Demux.ColumnNonEmpty` characterise which bindings land on each position. |
| Demux.AppendExtends | lib/snmp4em/requests/snmp_getbulk_request.rb:48-49 | `Append` is `\|\|=` followed by `<<`. The key set gains only the appended key. A fresh key gets the one-pair list, an existing list gets the pair at its end, and every other entry is unchanged. |
| Demux.AfterSuccess | lib/snmp4em/requests/snmp_getbulk_request.rb:37-50 | The whole noError demultiplexing: the non-repeater loop, then the round-robin loop over what is left. It adds no key outside the pending list. `Demux.AfterSuccessExactly` characterises the result completely. |
| Demux.NonRepeatersUpTo | lib/snmp4em/requests/snmp_getbulk_request.rb:37-42 | After `i` turns, each of the first `i` pending OIDs has a pair-list entry. A key that was already present and is not among them keeps its old entry. |
| Demux.NonRepeatersKeys | lib/snmp4em/requests/snmp_getbulk_request.rb:37-42 | The non-repeater loop adds no key other than the OIDs it shifts. |
| Demux.NonRepeaterAssigned | lib/snmp4em/requests/snmp_getbulk_request.rb:37-42 | If a pending OID is not repeated later in the list, the OID at position `t` ends mapped to exactly `[vb[t]]`. |
| Demux.RepeatersUpTo | lib/snmp4em/requests/snmp_getbulk_request.rb:44-50 | Every repeater that has an entry has a pair-list entry. |
| Demux.RepeatersFrame | lib/snmp4em/requests/snmp_getbulk_request.rb:44-50 | The round-robin loop creates, removes and changes no key outside the repeater list. |
| Demux.RepeatersByColumn | lib/snmp4em/requests/snmp_getbulk_request.rb:44-50 | Repeaters are distinct and had no entry before. Repeater `j` then has an entry iff its column is non-empty, and it holds exactly the bindings of its column, in order. |
| Demux.ColumnExactly | lib/snmp4em/requests/snmp_getbulk_request.rb:45 | Column `j` is strictly increasing. It consists of exactly the indices `x` in `[n, i)` with `(x - n) mod R == j`, that is `n+j, n+j+R, ...`. |
| Demux.ColumnNonEmpty | lib/snmp4em/requests/snmp_getbulk_request.rb:44-45 | Repeater `j < R` receives a binding iff `n + j < \|vb\|`. |
| Demux.ColumnsSizeStep | lib/snmp4em/requests/snmp_getbulk_request.rb:45 | One more binding adds one pair to the first `j` columns iff its slot is below `j`. |
| Demux.ColumnsEmpty | lib/snmp4em/requests/snmp_getbulk_request.rb:44 | With no bindings past the first `n`, the columns together hold nothing. |
| Demux.RepeaterPairsTotal | lib/snmp4em/requests/snmp_getbulk_request.rb:44-50 | The `R` columns together hold `\|vb\| - n` bindings, so each binding past the non-repeaters goes to exactly one repeater. |
| Demux.ColumnStep | lib/snmp4em/requests/snmp_getbulk_request.rb:44-50 | One turn of the repeater loop, seen from one repeater. A binding dealt to it extends its column and its pair list together. A binding dealt elsewhere leaves both unchanged. |
| Demux.PickSnoc | lib/snmp4em/requests/snmp_getbulk_request.rb:49 | Extending a column by one index appends that index's binding. |
| Demux.AfterSuccessExactly | lib/snmp4em/requests/snmp_getbulk_request.rb:34-52 | The whole noError path, for distinct pending OIDs without entries. The OID at position `t` gets an entry iff `t < \|vb\|`. The `t`-th non-repeater holds exactly `[vb[t]]`. The repeater at position `t - n` holds exactly its column's bindings, in order. Every other key is unchanged. |
| Demux.SplitDisjoint | lib/snmp4em/requests/snmp_getbulk_request.rb:38 | The OIDs shifted off and the OIDs left behind are disjoint, and both parts stay distinct. |
| Demux.RestFresh | lib/snmp4em/requests/snmp_getbulk_request.rb:37-48 | After the non-repeater loop no repeater has an entry yet, so `\|\|=` always starts it from an empty list. |
| Demux.NonRepeatersSurvive | lib/snmp4em/requests/snmp_getbulk_request.rb:37-50 | The repeater loop leaves each non-repeater's single pair in place. |
| Demux.RepeatersPart | lib/snmp4em/requests/snmp_getbulk_request.rb:44-50 | Every repeater position satisfies the entry-iff and the exact-column contents of the whole noError path. |
| Demux.RepeaterAt | lib/snmp4em/requests/snmp_getbulk_request.rb:44-50 | The same statement for the single repeater at position `t`. |
| Demux.SuccessFrame | lib/snmp4em/requests/snmp_getbulk_request.rb:34-52 | The noError path leaves every key outside the pending list as it was: present iff it was present, with the same entry. |
| Isolate.RemoveAt | lib/snmp4em/requests/snmp_getbulk_request.rb:56 | `delete_at(i)` shortens the list by one. Elements before `i` stay in place and elements after it move down one. |
| Isolate.RemoveAtExactlyOne | lib/snmp4em/requests/snmp_getbulk_request.rb:56 | On a distinct list exactly the OID at `i` is removed. The result stays distinct and no other OID is lost or added, as a multiset equation. |
| Isolate.RemoveAtKeepsOrder | lib/snmp4em/requests/snmp_getbulk_request.rb:56 | Any two OIDs that remain appear in the original list in the same relative order. |
| Finalise.Drain | lib/snmp4em/requests/snmp_getbulk_request.rb:61-64 | The keys become the old keys plus the leftover OIDs. Every leftover OID is marked genErr and every other entry is unchanged. |
| Finalise.NormaliseBind | lib/snmp4em/requests/snmp_getbulk_request.rb:69-70 | The pair's OID is kept. The value is replaced by its normalised form when it has one, and otherwise the pair is unchanged. |
| Finalise.NormaliseEntry | lib/snmp4em/requests/snmp_getbulk_request.rb:67-73 | A pair list keeps its length and is normalised pair by pair. An error marker is left as it is. |
| Finalise.Normalised | lib/snmp4em/requests/snmp_getbulk_request.rb:66-75 | The key set is unchanged and every entry is normalised. |
| Finalise.NormalisedPairs | lib/snmp4em/requests/snmp_getbulk_request.rb:66-75 | Normalising the whole map keeps every key. Error markers are untouched. Each pair list keeps its length and its pair names. A value changes only when it responds to `rubify`, and then becomes its rubified form. |
| Finalise.Finalised | lib/snmp4em/requests/snmp_getbulk_request.rb:60-75 | What the operation delivers: the drain, then normalisation unless in raw mode. Its keys are the old keys plus the leftover OIDs, and the leftovers carry genErr. `Finalise.FinalisedKeys` states what happens to the other entries. |
| Finalise.FinalisedKeys | lib/snmp4em/requests/snmp_getbulk_request.rb:60-78 | Raw or not, the delivered map has exactly the old keys plus the drained OIDs, and drained OIDs carry genErr. In raw mode the other entries are untouched; otherwise they are normalised. |
| Finalise.CollectNormalised | lib/snmp4em/requests/snmp_getbulk_request.rb:68-71 | The in-place `collect!` keeps the list length and leaves each pair normalised. |
| Scenarios.RoundRobinResult | lib/snmp4em/requests/snmp_getbulk_request.rb:37-52 | Take OIDs [A, B, C], one non-repeater and four bindings. The result is A with `[vb[0]]`, B with `[vb[1], vb[3]]` and C with `[vb[2]]`, nothing else. |
| Scenarios.RoundRobinEntries | lib/snmp4em/requests/snmp_getbulk_request.rb:37-50 | The same run, stated key by key. |
| Scenarios.RoundRobinFirst | lib/snmp4em/requests/snmp_getbulk_request.rb:37-42 | The non-repeater step of that run maps A alone to `[vb[0]]`. |
| Scenarios.RoundRobinDealt | lib/snmp4em/requests/snmp_getbulk_request.rb:44-50 | The repeater step of that run deals B slots 1 and 3 and C slot 2. |
| Scenarios.RoundRobinColumnB | lib/snmp4em/requests/snmp_getbulk_request.rb:44-50 | In that run B holds `[vb[1], vb[3]]`. |
| Scenarios.RoundRobinColumnC | lib/snmp4em/requests/snmp_getbulk_request.rb:44-50 | In that run C holds `[vb[2]]`. |
| Scenarios.ColumnB | lib/snmp4em/requests/snmp_getbulk_request.rb:45 | With one non-repeater and two repeaters, repeater 0 gets indices 1 and 3. |
| Scenarios.ColumnC | lib/snmp4em/requests/snmp_getbulk_request.rb:45 | With one non-repeater and two repeaters, repeater 1 gets index 2. |

## Left out

- Request ids (`generate_snmp_id`, `snmp_id`) are not modelled. They only correlate responses on the transport side, and the model treats them as opaque.
- Message construction and transmission are not modelled: `SNMP::VarBindList`, `SNMP::GetBulkRequest`, `SNMP::Message`, the community string and `super(message)`. `Send` records the request's contents (version, OIDs, non-repeaters, max-repetitions) in the `sent` history instead.
- Timeouts are not modelled. `@timeout_timer` and `@timeout_retries` are only stored by this class, and timeout handling belongs to the superclass, which is not part of this model.
- The EventMachine Deferrable (`init_callbacks`, `succeed`) is modelled only as the `done` flag and the `result` value, which is set once.
- What `rubify` computes belongs to the SNMP library. It is a parameter: a `Normaliser` with a normalising function and a "responds to rubify" predicate.
- `SNMP::ResponseError` is modelled only as the `Failed(status)` entry.
- NormaliseEntry: error markers pass through normalisation unchanged, and nothing is stated about what `collect!` would do to them. The source applies `collect!` to error markers too, but their class is not part of this model.
- The `each_pair` visiting order is not modelled. `NormaliseResponses` takes keys in any order, and the result does not depend on it.
- Ruby edge cases are not modelled; they become preconditions of `HandleResponse`:
  - an error index that is zero or out of range (`delete_at` returning nil or counting from the end);
  - `non_repeaters` greater than the pending list or the bindings (`shift` on an empty array, a nil binding). Ordinary use reaches this case: see the HandleResponse line below;
  - bindings past the non-repeaters with no repeater left (`% 0`);
  - a response arriving after completion.
- Negative counts are not modelled. `Options.nonRepeaters` and `Options.maxRepetitions` are `nat`, but Ruby accepts any Integer. A negative `non_repeaters` would make the repeater loop start at `vb_list[-1]`.
- HandleResponse: the class invariant `Valid()` does not guarantee that the operation can finish. After an error round that leaves fewer OIDs pending than `non_repeaters`, no noError response is admissible, because the success path requires `non_repeaters` OIDs to shift. The source is not stuck there. It shifts nil at line 38 and reads `vb_list[i]` at line 39. What happens next depends on the number of bindings. With fewer bindings than `non_repeaters`, that binding is nil, and `.name` raises at line 41. With exactly `non_repeaters` bindings, the pairs read for the nil-shifted OIDs are stored under the key `""`, and the operation completes. With more bindings, the shifts have emptied the pending list, and `% @pending_oids.size` raises ZeroDivisionError at line 45, so `succeed` at line 78 is never reached. The model leaves out all three outcomes. `GetBulkRequest.NonRepeatersOutlivePending` and `Scenarios.NonRepeatersStrandedRun` show that the state is reachable.
- Duplicate input OIDs are excluded by the constructor's precondition, because the response map is keyed by OID.
- `max_repetitions` is only copied into every request. How the agent uses it is outside this class.
