/**
 * The stress-test record and the "stresstest" document collection it is
 * kept in.
 */
module Records {
  import opened Options

  /** The condition a completed test is classified as. */
  datatype Verdict = Pass | Fail

  /** A stored stress-test document: every field of `Device` except its id.
      `assigned` (here `assignee`, since `assigned` is reserved in Dafny)
      and `model` may be missing from a document, which the screens treat
      differently from an empty string; `result` is the field that the
      evaluation writes back. Battery readings are integers. */
  datatype Record = Record(
    imei: string,
    sn: string,
    osVersion: string,
    beforeBattery: int,
    afterBattery: int,
    timeIn: string,
    timeOut: string,
    status: string,
    remarks: string,
    notes: string,
    assignee: Option<string>,
    model: Option<string>,
    result: Option<Verdict>)

  /** A record together with the identifier the store assigned to it. */
  datatype Device = Device(id: string, rec: Record)

  /** JavaScript truthiness of an optional string field. */
  predicate Truthy(field: Option<string>) {
    field.Some? && field.value != ""
  }

  // ---------------------------------------------------------------------
  // The "stresstest" collection as a map from document id to document
  // ---------------------------------------------------------------------

  /** `updateDoc(ref, { result: v })`: a merge of the one field; a missing
      document is left missing (the update is rejected). */
  function WithResult(docs: map<string, Record>, id: string, v: Verdict): (r: map<string, Record>)
    ensures r.Keys == docs.Keys
    ensures id in docs ==> r[id] == docs[id].(result := Some(v))
    ensures forall k :: k in docs && k != id ==> r[k] == docs[k]
  {
    if id in docs then docs[id := docs[id].(result := Some(v))] else docs
  }

  /** Writing the same verdict twice has the effect of writing it once. */
  lemma WithResultIdempotent(docs: map<string, Record>, id: string, v: Verdict)
    ensures WithResult(WithResult(docs, id, v), id, v) == WithResult(docs, id, v)
  {
  }

  /** `updateDoc(ref, data)` with every field of a record: the fields the
      sent record carries replace the stored ones; an optional field that
      the sent record lacks keeps its stored value. */
  function Merge(stored: Record, sent: Record): (r: Record)
    ensures r.(assignee := sent.assignee, model := sent.model, result := sent.result) == sent
    ensures r.assignee == if sent.assignee.Some? then sent.assignee else stored.assignee
    ensures r.model == if sent.model.Some? then sent.model else stored.model
    ensures r.result == if sent.result.Some? then sent.result else stored.result
  {
    sent.(assignee := if sent.assignee.Some? then sent.assignee else stored.assignee,
          model := if sent.model.Some? then sent.model else stored.model,
          result := if sent.result.Some? then sent.result else stored.result)
  }

  /** The "stresstest" collection. Its methods are the store calls the
      screens make; `reachable` stands for whether the call succeeds. */
  class StressStore {
    var docs: map<string, Record>

    constructor (initial: map<string, Record>)
      ensures docs == initial
    {
      docs := initial;
    }

    /** The verdict write of the evaluation. Its promise is not awaited, so
        a failure is not observable by the caller and is not modelled. */
    method WriteResult(id: string, v: Verdict)
      modifies this
      ensures docs == WithResult(old(docs), id, v)
    {
      docs := WithResult(docs, id, v);
    }

    /** `addDoc`: stores `rec` under the fresh identifier `newId`. */
    method Add(newId: string, rec: Record, reachable: bool) returns (ok: bool)
      requires newId !in docs
      modifies this
      ensures ok == reachable
      ensures docs == if ok then old(docs)[newId := rec] else old(docs)
    {
      ok := reachable;
      if ok {
        docs := docs[newId := rec];
      }
    }

    /** `updateDoc(ref, data)`: rejected when the document does not exist. */
    method Update(id: string, sent: Record, reachable: bool) returns (ok: bool)
      modifies this
      ensures ok == (reachable && id in old(docs))
      ensures docs == if ok then old(docs)[id := Merge(old(docs)[id], sent)] else old(docs)
    {
      ok := reachable && id in docs;
      if ok {
        docs := docs[id := Merge(docs[id], sent)];
      }
    }

    /** `deleteDoc`: deleting a missing document is not an error. */
    method Delete(id: string, reachable: bool) returns (ok: bool)
      modifies this
      ensures ok == reachable
      ensures docs == if ok then old(docs) - {id} else old(docs)
    {
      ok := reachable;
      if ok {
        docs := docs - {id};
      }
    }
  }
}
