/** src/storage/scan/parallel_scan_state.h: the one shared point of a morsel-driven scan. */
module ParallelScan {
  import opened Wrappers

  /** Segment handed out by the fetch_add that read `index`. */
  function Claimed(segmentCount: nat, index: nat): (r: Option<nat>)
    ensures r.Some? ==> r.value < segmentCount
  {
    if index >= segmentCount then None else Some(index)
  }

  class ParallelScanGlobalState {
    const segmentIds: seq<nat>
    var nextSegment: nat
    var cancelled: bool

    constructor (ids: seq<nat>)
      ensures segmentIds == ids && nextSegment == 0 && !cancelled
    {
      segmentIds := ids;
      nextSegment, cancelled := 0, false;
    }

    method ClaimSegment() returns (r: Option<nat>)
      modifies this`nextSegment
      ensures old(cancelled) ==> r == None && nextSegment == old(nextSegment)
      ensures !old(cancelled) ==> nextSegment == old(nextSegment) + 1
      ensures !old(cancelled) ==>
                r == match Claimed(|segmentIds|, old(nextSegment))
                     case None => None
                     case Some(k) => Some(segmentIds[k])
    {
      if cancelled {
        return None;
      }
      var index := nextSegment;
      nextSegment := nextSegment + 1;
      if index >= |segmentIds| {
        return None;
      }
      r := Some(segmentIds[index]);
    }

    method Cancel()
      modifies this`cancelled
      ensures cancelled
    {
      cancelled := true;
    }
  }

  /** ResolveWorkerCount: bounded by the configuration, the pool, the arenas and the segments. */
  function ResolveWorkerCount(configured: nat, poolThreads: nat, memory: Option<nat>, segments: nat): (count: nat)
    ensures count >= 1
    ensures configured >= 1 && poolThreads >= 1 ==> count <= configured && count <= poolThreads
    ensures memory.Some? && memory.value > 0 ==> count <= memory.value
    ensures segments > 0 ==> count <= segments
    ensures count == 1 || count == configured || count == poolThreads || memory == Some(count) || count == segments
    ensures configured > 1 && poolThreads > 1 && memory != Some(1) && segments != 1 ==> count > 1
  {
    var base := Max(1, Min(configured, poolThreads));
    var byMemory := if memory.Some? && memory.value > 0 then Min(base, memory.value) else base;
    var bySegments := if segments > 0 then Min(byMemory, segments) else byMemory;
    Max(1, bySegments)
  }

  function Min(a: nat, b: nat): nat { if a < b then a else b }

  function Max(a: nat, b: nat): nat { if a < b then b else a }
}
