/**
 * The stress-test page: the list of devices it shows, the open/closed form
 * and the device being edited, kept in step with the "stresstest" store by
 * its add, edit, delete and fetch handlers.
 */
module StressPage {
  import opened Options
  import opened Records
  import opened Seqs
  import DeviceForm

  // ---------------------------------------------------------------------
  // The list updates
  // ---------------------------------------------------------------------

  /** The identifiers of a device list, in order. */
  function Ids(devices: seq<Device>): (ids: seq<string>)
    ensures |ids| == |devices|
    ensures forall i :: 0 <= i < |devices| ==> ids[i] == devices[i].id
  {
    seq(|devices|, i requires 0 <= i < |devices| => devices[i].id)
  }

  /** `prev.map(d => d.id === device.id ? device : d)`. */
  function ReplaceById(devices: seq<Device>, device: Device): (r: seq<Device>)
    ensures |r| == |devices|
    ensures forall i :: 0 <= i < |devices| ==>
              r[i] == if devices[i].id == device.id then device else devices[i]
  {
    seq(|devices|, i requires 0 <= i < |devices| =>
      if devices[i].id == device.id then device else devices[i])
  }

  /** Keeps the devices whose id differs from `id`. */
  function Keeping(id: string): Device -> bool {
    (d: Device) => d.id != id
  }

  /** Selects the devices whose id is `id`. */
  function Having(id: string): Device -> bool {
    (d: Device) => d.id == id
  }

  /** `prev.filter(d => d.id !== id)`. */
  function RemoveById(devices: seq<Device>, id: string): (r: seq<Device>)
    ensures forall d :: d in r <==> d in devices && d.id != id
  {
    Filter(devices, Keeping(id))
  }

  /** A replace keeps the list's identifiers as they were, and every
      entry with the device's id is then that device. */
  lemma ReplaceKeepsIds(devices: seq<Device>, device: Device)
    ensures Ids(ReplaceById(devices, device)) == Ids(devices)
    ensures forall d :: d in ReplaceById(devices, device) && d.id == device.id ==> d == device
  {
  }

  /** Replacing twice with the same device is replacing once. */
  lemma ReplaceIdempotent(devices: seq<Device>, device: Device)
    ensures ReplaceById(ReplaceById(devices, device), device) == ReplaceById(devices, device)
  {
  }

  /** A remove keeps the other devices in their order and drops exactly
      the entries with that id. */
  lemma RemoveKeepsOthers(devices: seq<Device>, id: string)
    ensures IsSubsequence(RemoveById(devices, id), devices)
    ensures |RemoveById(devices, id)| + |Filter(devices, Having(id))| == |devices|
    ensures id !in Ids(RemoveById(devices, id))
  {
    FilterIsSubsequence(devices, Keeping(id));
    CountComplement(devices, Having(id), Keeping(id));
  }

  /** Removing a freshly added device undoes the add. */
  lemma RemoveUndoesAdd(devices: seq<Device>, added: Device)
    requires added.id !in Ids(devices)
    ensures RemoveById(devices + [added], added.id) == devices
  {
    FilterAppend(devices, [added], Keeping(added.id));
    FilterKeepsAll(devices, Keeping(added.id));
    assert Filter([added], Keeping(added.id)) == [];
  }

  /** Removing an id that is not listed changes nothing. */
  lemma RemoveAbsent(devices: seq<Device>, id: string)
    requires id !in Ids(devices)
    ensures RemoveById(devices, id) == devices
  {
    FilterKeepsAll(devices, Keeping(id));
  }

  // ---------------------------------------------------------------------
  // The page
  // ---------------------------------------------------------------------

  /** The fetch loop: one device per stored document, tagged with its id,
      in the order the snapshot lists them. */
  method CollectDevices(snapshot: seq<(string, Record)>) returns (items: seq<Device>)
    ensures |items| == |snapshot|
    ensures forall i :: 0 <= i < |snapshot| ==> items[i] == Device(snapshot[i].0, snapshot[i].1)
  {
    items := [];
    var i := 0;
    while i < |snapshot|
      invariant 0 <= i <= |snapshot|
      invariant |items| == i
      invariant forall j :: 0 <= j < i ==> items[j] == Device(snapshot[j].0, snapshot[j].1)
    {
      items := items + [Device(snapshot[i].0, snapshot[i].1)];
      i := i + 1;
    }
  }

  /** The state of the page and the store it talks to. */
  class DeviceManagement {
    var devices: seq<Device>
    var isFormOpen: bool
    var editingDevice: Option<Device>
    const store: StressStore

    constructor (store: StressStore)
      ensures this.store == store
      ensures devices == [] && !isFormOpen && editingDevice.None?
    {
      this.store := store;
      devices := [];
      isFormOpen := false;
      editingDevice := None;
    }

    /** `fetchUserData`: the list becomes the store's documents, each once,
        in the order `order` the snapshot lists their ids. */
    method Load(order: seq<string>)
      requires ListsEachOnce(order, store.docs.Keys)
      modifies this
      ensures |devices| == |order| == |store.docs|
      ensures forall i :: 0 <= i < |order| ==> devices[i] == Device(order[i], store.docs[order[i]])
      ensures forall id :: id in store.docs ==> Device(id, store.docs[id]) in devices
      ensures isFormOpen == old(isFormOpen) && editingDevice == old(editingDevice)
    {
      var snapshot := seq(|order|, k requires 0 <= k < |order| && order[k] in store.docs reads this, store =>
        (order[k], store.docs[order[k]]));
      devices := CollectDevices(snapshot);
      ListsEachOnceSize(order, store.docs.Keys);
      forall id | id in store.docs
        ensures Device(id, store.docs[id]) in devices
      {
        var i :| 0 <= i < |order| && order[i] == id;
        assert devices[i] == Device(id, store.docs[id]);
      }
    }

    /** `handleAddDevice`: on success the device, with the id the store gave
        it, is appended and the form closes; on failure nothing changes. */
    method HandleAddDevice(rec: Record, newId: string, reachable: bool) returns (ok: bool)
      requires newId !in store.docs
      modifies this, store
      ensures ok == reachable
      ensures store.docs == if ok then old(store.docs)[newId := rec] else old(store.docs)
      ensures devices == if ok then old(devices) + [Device(newId, rec)] else old(devices)
      ensures isFormOpen == (if ok then false else old(isFormOpen))
      ensures editingDevice == old(editingDevice)
    {
      ok := store.Add(newId, rec, reachable);
      if ok {
        devices := devices + [Device(newId, rec)];
        isFormOpen := false;
      }
    }

    /** `handleEditDevice`: every field but the id is sent to the store; on
        success every listed entry with that id becomes the device, and the
        form closes. A failed update (also for a missing document) changes
        nothing. */
    method HandleEditDevice(device: Device, reachable: bool) returns (ok: bool)
      modifies this, store
      ensures ok == (reachable && device.id in old(store.docs))
      ensures store.docs == if ok then old(store.docs)[device.id := Merge(old(store.docs)[device.id], device.rec)]
                            else old(store.docs)
      ensures devices == if ok then ReplaceById(old(devices), device) else old(devices)
      ensures ok ==> editingDevice.None? && !isFormOpen
      ensures !ok ==> editingDevice == old(editingDevice) && isFormOpen == old(isFormOpen)
    {
      ok := store.Update(device.id, device.rec, reachable);
      if ok {
        devices := ReplaceById(devices, device);
        editingDevice := None;
        isFormOpen := false;
      }
    }

    /** `handleDeleteDevice`: a declined confirmation does nothing; otherwise
        the document is deleted and, on success, every entry with that id
        leaves the list. */
    method HandleDeleteDevice(id: string, confirmed: bool, reachable: bool) returns (ok: bool)
      modifies this, store
      ensures ok == (confirmed && reachable)
      ensures store.docs == if ok then old(store.docs) - {id} else old(store.docs)
      ensures devices == if ok then RemoveById(old(devices), id) else old(devices)
      ensures isFormOpen == old(isFormOpen) && editingDevice == old(editingDevice)
    {
      if !confirmed {
        return false;
      }
      ok := store.Delete(id, reachable);
      if ok {
        devices := RemoveById(devices, id);
      }
    }

    /** The Add Device button. */
    method OpenForAdd()
      modifies this
      ensures isFormOpen && editingDevice.None? && devices == old(devices)
    {
      editingDevice := None;
      isFormOpen := true;
    }

    /** `onEdit` from the table. */
    method OpenForEdit(device: Device)
      modifies this
      ensures isFormOpen && editingDevice == Some(device) && devices == old(devices)
    {
      editingDevice := Some(device);
      isFormOpen := true;
    }

    /** `onCancel` from the form. */
    method CancelForm()
      modifies this
      ensures !isFormOpen && editingDevice.None? && devices == old(devices)
    {
      isFormOpen := false;
      editingDevice := None;
    }

    /** `onSave` from the form: an edit when a device is being edited, an
        add otherwise. The form hands back an edited device exactly when it
        was given one. */
    method OnSave(out: DeviceForm.FormOutput, newId: string, reachable: bool) returns (ok: bool)
      requires editingDevice.Some? <==> out.Edited?
      requires out.Added? ==> newId !in store.docs
      modifies this, store
      ensures out.Added? ==> ok == reachable
      ensures out.Added? ==>
                store.docs == if ok then old(store.docs)[newId := out.rec] else old(store.docs)
      ensures out.Added? ==> devices == if ok then old(devices) + [Device(newId, out.rec)] else old(devices)
      ensures out.Edited? ==> ok == (reachable && out.device.id in old(store.docs))
      ensures out.Edited? ==>
                store.docs == if ok then old(store.docs)[out.device.id := Merge(old(store.docs)[out.device.id], out.device.rec)]
                              else old(store.docs)
      ensures out.Edited? ==> devices == if ok then ReplaceById(old(devices), out.device) else old(devices)
      ensures ok ==> !isFormOpen && editingDevice.None?
      ensures !ok ==> isFormOpen == old(isFormOpen) && editingDevice == old(editingDevice)
    {
      if editingDevice.Some? {
        ok := HandleEditDevice(out.device, reachable);
      } else {
        ok := HandleAddDevice(out.rec, newId, reachable);
      }
    }
  }
}
