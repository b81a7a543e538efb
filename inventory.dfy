/**
 * The device inventory list: its search, model and assignment filters and
 * the summary counts shown above it.
 */
module Inventory {
  import opened Options
  import opened Text
  import opened Records
  import opened Seqs
  import StressTable

  /** The search box: serial number, model and assignee compared without
      case, the IMEI as typed; a present model is searched even when empty,
      a present assignee only when non-empty. */
  predicate MatchesSearch(r: Record, term: string) {
    || Contains(Lower(r.sn), Lower(term))
    || Contains(r.imei, term)
    || (r.model.Some? && Contains(Lower(r.model.value), Lower(term)))
    || (Truthy(r.assignee) && Contains(Lower(r.assignee.value), Lower(term)))
  }

  /** The model select: "all", or one exact model. */
  predicate MatchesModel(r: Record, modelFilter: string) {
    modelFilter == "all" || r.model == Some(modelFilter)
  }

  /** The assignment select: "all", "assigned" (a non-empty assignee) or
      "unassigned"; any other value matches nothing. */
  predicate MatchesAssignment(r: Record, assignmentFilter: string) {
    || assignmentFilter == "all"
    || (assignmentFilter == "assigned" && Truthy(r.assignee))
    || (assignmentFilter == "unassigned" && !Truthy(r.assignee))
  }

  /** The three filters together, as the predicate handed to `filter`. */
  function Kept(term: string, modelFilter: string, assignmentFilter: string): Device -> bool {
    (d: Device) =>
      MatchesSearch(d.rec, term) && MatchesModel(d.rec, modelFilter) && MatchesAssignment(d.rec, assignmentFilter)
  }

  /** `filteredDevices`. */
  function FilteredDevices(devices: seq<Device>, term: string, modelFilter: string, assignmentFilter: string)
    : (r: seq<Device>)
    ensures forall d :: d in r <==>
              && d in devices
              && MatchesSearch(d.rec, term)
              && MatchesModel(d.rec, modelFilter)
              && MatchesAssignment(d.rec, assignmentFilter)
  {
    Filter(devices, Kept(term, modelFilter, assignmentFilter))
  }

  /** The filtered list keeps the devices' order. */
  lemma FilteredIsSubsequence(devices: seq<Device>, term: string, modelFilter: string, assignmentFilter: string)
    ensures IsSubsequence(FilteredDevices(devices, term, modelFilter, assignmentFilter), devices)
  {
    FilterIsSubsequence(devices, Kept(term, modelFilter, assignmentFilter));
  }

  /** An empty search term matches every device. */
  lemma EmptyTermMatches(r: Record)
    ensures MatchesSearch(r, "")
  {
    ContainsEmpty(Lower(r.sn));
  }

  /** With an empty term and both selects on "all", the whole list shows. */
  lemma NoFilterKeepsAll(devices: seq<Device>)
    ensures FilteredDevices(devices, "", "all", "all") == devices
  {
    forall d | d in devices
      ensures Kept("", "all", "all")(d)
    {
      EmptyTermMatches(d.rec);
    }
    FilterKeepsAll(devices, Kept("", "all", "all"));
  }

  /** An assignment value other than the three known ones shows nothing. */
  lemma UnknownAssignmentKeepsNothing(devices: seq<Device>, term: string, modelFilter: string, assignmentFilter: string)
    requires assignmentFilter != "all" && assignmentFilter != "assigned" && assignmentFilter != "unassigned"
    ensures FilteredDevices(devices, term, modelFilter, assignmentFilter) == []
  {
    FilterKeepsNone(devices, Kept(term, modelFilter, assignmentFilter));
  }

  /** "assigned" and "unassigned" split the "all" view between them. */
  lemma AssignmentPartition(devices: seq<Device>, term: string, modelFilter: string)
    ensures |FilteredDevices(devices, term, modelFilter, "assigned")|
          + |FilteredDevices(devices, term, modelFilter, "unassigned")|
         == |FilteredDevices(devices, term, modelFilter, "all")|
  {
    CountDisjoint(devices, Kept(term, modelFilter, "assigned"), Kept(term, modelFilter, "unassigned"),
                  Kept(term, modelFilter, "all"));
  }

  /** The IMEI is searched case-sensitively: for a device found only by its
      IMEI, the term must occur in it exactly as typed. */
  lemma ImeiCaseSensitive(r: Record, term: string)
    requires term != "" && r.sn == "" && r.model.None? && r.assignee.None?
    ensures MatchesSearch(r, term) <==> Contains(r.imei, term)
  {
  }

  /** The stress-test table's search also lowers the IMEI, so every device
      this search keeps with the model select on "all" and a present model
      the table keeps too. */
  lemma TableSearchIsWider(r: Record, term: string)
    requires MatchesSearch(r, term)
    requires r.model.Some? ==> r.model.value != ""
    requires Lower(term) == term
    ensures StressTable.MatchesSearch(r, term)
  {
    if Contains(r.imei, term) {
      var i :| 0 <= i <= |r.imei| - |term| && IsPrefixAt(term, r.imei, i);
      if !Contains(Lower(r.imei), Lower(term)) {
        LowerSlice(r.imei, i, i + |term|);
        assert IsPrefixAt(Lower(term), Lower(r.imei), i);
      }
    }
  }

  /** Lowering commutes with slicing. */
  lemma LowerSlice(s: string, i: nat, j: nat)
    requires i <= j <= |s|
    ensures Lower(s)[i..j] == Lower(s[i..j])
  {
  }

  // ---------------------------------------------------------------------
  // stats
  // ---------------------------------------------------------------------

  datatype Stats = Stats(total: nat, assignedCount: nat, unassigned: int, p2Count: nat, v2Count: nat)

  function IsAssigned(): Device -> bool { (d: Device) => Truthy(d.rec.assignee) }
  function IsUnassigned(): Device -> bool { (d: Device) => !Truthy(d.rec.assignee) }
  function HasModel(model: string): Device -> bool { (d: Device) => d.rec.model == Some(model) }
  function HasP2OrV2(): Device -> bool {
    (d: Device) => d.rec.model == Some("P2") || d.rec.model == Some("V2 PRO")
  }

  /** `stats`: the unassigned count is the total less the assigned count,
      which is exactly the number of devices without a (non-empty) assignee;
      the two model counts never exceed the total. */
  function ComputeStats(devices: seq<Device>): (s: Stats)
    ensures s.total == |devices|
    ensures s.assignedCount <= s.total
    ensures s.unassigned == s.total - s.assignedCount
    ensures s.unassigned == |Filter(devices, IsUnassigned())|
    ensures s.p2Count + s.v2Count <= s.total
  {
    CountComplement(devices, IsAssigned(), IsUnassigned());
    CountDisjoint(devices, HasModel("P2"), HasModel("V2 PRO"), HasP2OrV2());
    var assignedCount := |Filter(devices, IsAssigned())|;
    Stats(|devices|, assignedCount, |devices| - assignedCount,
          |Filter(devices, HasModel("P2"))|, |Filter(devices, HasModel("V2 PRO"))|)
  }

  /** The assigned count is what the "assigned" select shows with no other
      filter. */
  lemma AssignedMatchesFilter(devices: seq<Device>)
    ensures ComputeStats(devices).assignedCount == |FilteredDevices(devices, "", "all", "assigned")|
  {
    forall d | d in devices
      ensures IsAssigned()(d) == Kept("", "all", "assigned")(d)
    {
      EmptyTermMatches(d.rec);
    }
    FilterSame(devices, IsAssigned(), Kept("", "all", "assigned"));
  }
}
