/** pyMusicSync/objects/progress.py, the `Progress` of pyMusicSync/objects.py
    and that of objects.py: counters of finished and expected tracks. */
module ProgressTracker {
  import opened Wrappers

  class Progress {
    var finished: nat
    var total: int

    /** The class attributes `finished = 0` and `total = 0`. */
    constructor()
      ensures finished == 0 && total == 0
    {
      finished, total := 0, 0;
    }

    /** `increase()`: one more finished track. The percentage is computed
        after the increment, so with no expected tracks the call raises
        ZeroDivisionError having already counted the track. */
    method Increase() returns (r: Result<()>)
      modifies this
      ensures finished == old(finished) + 1 && total == old(total)
      ensures r.Err? <==> total == 0
      ensures r.Err? ==> r.error == ZeroDivisionError
    {
      finished := finished + 1;
      if total == 0 {
        return Err(ZeroDivisionError);
      }
      r := Ok(());
    }

    /** `incTotal()`: one more expected track. */
    method IncTotal()
      modifies this
      ensures total == old(total) + 1 && finished == old(finished)
    {
      total := total + 1;
    }

    /** `setTotal(total)` of objects.py, and the assignment
        `self.progress.total = trackCount` of the sync engines. */
    method SetTotal(t: int)
      modifies this
      ensures total == t && finished == old(finished)
    {
      total := t;
    }
  }
}
