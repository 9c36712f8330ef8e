/** Handler sequences whose combined effect the display relies on. */
module Scenario {
  import opened Slots
  import opened Events
  import opened Download

  /** Freeing a held slot and taking it again restores the occupied set. */
  lemma Refill(occupied: set<int>, k: int, freed: set<int>, refilled: set<int>)
    requires k in occupied && freed == occupied - {k} && refilled == freed + {k}
    ensures refilled == occupied
  {
  }

  /** A task ends and a new one is initialised: when every slot below the
      ended task's slot is still held, the new task takes over exactly the
      slot that was freed, and the set of occupied slots is as before. */
  method EndThenInit(d: Downloader, endId: int, newId: int, filename: string) returns (pid: nat)
    requires d.Valid()
    requires endId in d.activeTasks && newId !in InitIds(d.Log)
    requires forall q :: 0 <= q < d.activeTasks[endId].pid ==> q in d.OccupiedPids()
    modifies d`activeTasks, d`Log
    ensures d.Valid()
    ensures pid == old(d.activeTasks[endId].pid)
    ensures newId in d.activeTasks && d.activeTasks[newId].pid == pid
    ensures d.OccupiedPids() == old(d.OccupiedPids())
  {
    ghost var k, occupied := d.activeTasks[endId].pid, d.OccupiedPids();
    d.ActiveWithinBudget();
    SlotIsOccupied(d.activeTasks, endId);
    d.OnEnd(endId);
    Append(old(d.Log), End(endId));
    ghost var freed := d.OccupiedPids();
    d.OnInit(newId, filename);
    pid := d.activeTasks[newId].pid;
    FreedSlotIsReused(occupied, d.workerCount, k);
    Refill(occupied, k, freed, d.OccupiedPids());
  }
}
