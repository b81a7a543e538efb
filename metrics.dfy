/**
 * The dashboard's metric cards: counts over the "stresstest" documents.
 */
module Metrics {
  import opened Options
  import opened Records
  import opened Seqs
  import Inventory

  datatype MetricStats = MetricStats(
    totalDevices: nat,
    activeTests: nat,
    runningTests: nat,
    failedDevices: nat,
    assignedDevice: nat)

  /** A device whose status is exactly `status`. */
  function HasStatus(status: string): Device -> bool {
    (d: Device) => d.rec.status == status
  }

  /** A device whose status is one of the three counted ones. */
  function Counted(): Device -> bool {
    (d: Device) => d.rec.status == "Active" || d.rec.status == "Testing" || d.rec.status == "Failed"
  }

  function ActiveOrTesting(): Device -> bool {
    (d: Device) => d.rec.status == "Active" || d.rec.status == "Testing"
  }

  /** `assigned !== ""`: a document without the field counts as assigned. */
  function NotEmptyAssignee(): Device -> bool {
    (d: Device) => d.rec.assignee != Some("")
  }

  /** The counts of `fetchData`. The three status counts are exact matches,
      so together they never exceed the total. */
  function FetchStats(devices: seq<Device>): (s: MetricStats)
    ensures s.totalDevices == |devices|
    ensures s.activeTests + s.runningTests + s.failedDevices == |Filter(devices, Counted())|
    ensures s.activeTests + s.runningTests + s.failedDevices <= s.totalDevices
    ensures s.assignedDevice <= s.totalDevices
  {
    CountDisjoint(devices, HasStatus("Active"), HasStatus("Testing"), ActiveOrTesting());
    CountDisjoint(devices, ActiveOrTesting(), HasStatus("Failed"), Counted());
    MetricStats(|devices|,
                |Filter(devices, HasStatus("Active"))|,
                |Filter(devices, HasStatus("Testing"))|,
                |Filter(devices, HasStatus("Failed"))|,
                |Filter(devices, NotEmptyAssignee())|)
  }

  /** Documents without an assignee field all count as assigned. */
  lemma MissingAssigneeCounts(devices: seq<Device>)
    requires forall d :: d in devices ==> d.rec.assignee.None?
    ensures FetchStats(devices).assignedDevice == |devices|
  {
    FilterKeepsAll(devices, NotEmptyAssignee());
  }

  /** The inventory's assigned count (a non-empty assignee) never exceeds
      the card's (an assignee that is not exactly ""), on the same devices. */
  lemma InventoryAssignedAtMost(devices: seq<Device>)
    ensures Inventory.ComputeStats(devices).assignedCount <= FetchStats(devices).assignedDevice
  {
    CountMonotone(devices, Inventory.IsAssigned(), NotEmptyAssignee());
  }

  /** A Completed device adds to the total and to none of the status
      counts; it adds to the assigned count exactly when its assignee is not
      "" (a missing field included). */
  lemma CompletedOnlyInTotal(devices: seq<Device>, d: Device)
    requires d.rec.status == "Completed"
    ensures var before, after := FetchStats(devices), FetchStats(devices + [d]);
      && after.totalDevices == before.totalDevices + 1
      && after.activeTests == before.activeTests
      && after.runningTests == before.runningTests
      && after.failedDevices == before.failedDevices
      && after.assignedDevice == before.assignedDevice + (if d.rec.assignee != Some("") then 1 else 0)
  {
    FilterAppend(devices, [d], HasStatus("Active"));
    FilterAppend(devices, [d], HasStatus("Testing"));
    FilterAppend(devices, [d], HasStatus("Failed"));
    FilterAppend(devices, [d], NotEmptyAssignee());
  }

  /** One metric card. */
  datatype MetricCard = MetricCard(title: string, value: nat, color: string)

  /** `metrics`: four cards in a fixed order; the running-test count is
      computed but not shown. */
  function Cards(s: MetricStats): (cards: seq<MetricCard>)
    ensures |cards| == 4
    ensures cards[0].value == s.totalDevices && cards[1].value == s.activeTests
    ensures cards[2].value == s.assignedDevice && cards[3].value == s.failedDevices
  {
    [MetricCard("Total Devices", s.totalDevices, "bg-green-600"),
     MetricCard("Active Tests", s.activeTests, "bg-blue-600"),
     MetricCard("Assigned Device", s.assignedDevice, "bg-purple-600"),
     MetricCard("Failed Devices", s.failedDevices, "bg-red-600")]
  }

  /** The cards do not depend on the running-test count. */
  lemma CardsIgnoreRunning(s: MetricStats, running: nat)
    ensures Cards(s.(runningTests := running)) == Cards(s)
  {
  }
}
