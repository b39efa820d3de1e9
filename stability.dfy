/**
 * The stability check a worker runs before it hands a file on: poll the
 * file's stat `checks` times, sleeping `interval` after every good sample.
 * The stat calls are an input sequence: `samples[i]` is what the i-th call
 * answers.
 */
module Stability {
  import opened Events

  /** The interval the worker polls with: one second, in nanoseconds. */
  const WorkerInterval: int := 1_000_000_000

  /** The number of samples the worker asks for. */
  const WorkerChecks: int := 2

  /**
   * What the check answers: every one of the first `checks` samples is a
   * successful stat of something that is not a directory. Sizes play no part.
   */
  predicate Stable(samples: seq<StatResult>, checks: int)
    requires checks <= |samples|
  {
    forall i :: 0 <= i < checks ==> samples[i].IsFile()
  }

  /**
   * isFileStable. `taken` counts the stat calls made and `slept` the time
   * spent in time.Sleep. The check stops at the first failed or directory
   * sample; a sample whose size differs from the previous one only takes the
   * same sleep-and-continue path as a sample whose size is unchanged.
   */
  method IsFileStable(samples: seq<StatResult>, interval: int, checks: int)
    returns (stable: bool, taken: nat, slept: int)
    requires checks <= |samples|
    ensures stable <==> Stable(samples, checks)
    ensures stable ==> taken == (if checks <= 0 then 0 else checks)
    ensures !stable ==> 0 < taken <= checks && !samples[taken - 1].IsFile()
    ensures !stable ==> forall j :: 0 <= j < taken - 1 ==> samples[j].IsFile()
    ensures slept == interval * (if stable then taken else taken - 1)
  {
    var lastSize: int := -1;
    var i := 0;
    taken, slept := 0, 0;
    while i < checks
      invariant 0 <= i && (checks <= 0 ==> i == 0) && (0 < checks ==> i <= checks)
      invariant forall j :: 0 <= j < i ==> samples[j].IsFile()
      invariant lastSize == if i == 0 then -1 else samples[i - 1].size
      invariant taken == i && slept == interval * i
    {
      var info := samples[i];
      taken := taken + 1;
      if !info.IsFile() {
        return false, taken, slept;
      }
      var size := info.size;
      if lastSize != -1 && size != lastSize {
        lastSize := size;
        slept := slept + interval;
        i := i + 1;
        continue;
      }
      lastSize := size;
      slept := slept + interval;
      i := i + 1;
    }
    stable := true;
  }

  /** Any number of checks up to zero is stable without a sample being looked at. */
  lemma NoChecksIsStable(samples: seq<StatResult>, checks: int)
    requires checks <= 0
    ensures Stable(samples, checks)
  {
  }

  /**
   * Only the success and the directory bit of a sample matter: two sample
   * sequences that agree on those within the first `checks` get the same
   * answer, whatever their sizes.
   */
  lemma SizesDoNotMatter(a: seq<StatResult>, b: seq<StatResult>, checks: int)
    requires checks <= |a| && checks <= |b|
    requires forall i :: 0 <= i < checks ==> a[i].IsFile() == b[i].IsFile()
    ensures Stable(a, checks) == Stable(b, checks)
  {
  }

  /** A file that grows between the worker's two samples is still reported stable. */
  lemma GrowingFileIsStable()
    ensures Stable([StatOk(false, 2_500_000), StatOk(false, 5_000_000)], WorkerChecks)
  {
  }
}
