/** threading::JobQueue: the slot that holds the current job and a version counter. */
module JobQueue {
  import opened Wrappers
  import opened Stratum

  datatype Slot = Slot(current: Option<MiningJob>, version: nat)
  {
    function Publish(job: MiningJob): Slot {
      Slot(Some(job), version + 1)
    }
  }

  /** The slot after publishing the jobs in order. */
  function AfterPublishing(jobs: seq<MiningJob>): Slot {
    if jobs == [] then Slot(None, 0) else AfterPublishing(jobs[..|jobs| - 1]).Publish(jobs[|jobs| - 1])
  }

  /** The version counts the publishes, and the newest job is the one on offer. */
  lemma {:induction false} SlotIsLatest(jobs: seq<MiningJob>)
    ensures AfterPublishing(jobs).version == |jobs|
    ensures AfterPublishing(jobs).current == if jobs == [] then None else Some(jobs[|jobs| - 1])
  {
    if jobs != [] {
      SlotIsLatest(jobs[..|jobs| - 1]);
    }
  }

  /** Each method is one critical section of the queue's mutex. */
  class JobQueue {
    var current: Option<MiningJob>
    var version: nat
    ghost var published: seq<MiningJob>

    ghost predicate Valid()
      reads this
    {
      Slot(current, version) == AfterPublishing(published)
    }

    constructor ()
      ensures Valid() && published == []
    {
      current, version, published := None, 0, [];
    }

    method Publish(job: MiningJob)
      requires Valid()
      modifies this
      ensures Valid() && published == old(published) + [job]
    {
      current := Some(job);
      version := version + 1;
      published := published + [job];
    }

    method Current() returns (job: Option<MiningJob>)
      requires Valid()
      ensures job == if published == [] then None else Some(published[|published| - 1])
    {
      SlotIsLatest(published);
      job := current;
    }

    method Version() returns (v: nat)
      requires Valid()
      ensures v == |published|
    {
      SlotIsLatest(published);
      v := version;
    }
  }
}
