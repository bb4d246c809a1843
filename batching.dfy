/**
 * How sdg splits sample_size samples into batches of batch_size: the
 * number of batches is the ceiling of the quotient, batch k covers the
 * sample indices [k * batch_size, min((k + 1) * batch_size, sample_size)).
 */
module Batching {
  /** num_batches = (sample_size + batch_size - 1) // batch_size; Python's // floors, as Dafny's / does for a positive divisor. */
  function NumBatches(sampleSize: int, batchSize: int): int
    requires batchSize > 0
  {
    (sampleSize + batchSize - 1) / batchSize
  }

  /** start = batch * batch_size */
  function BatchStart(batch: int, batchSize: int): int {
    batch * batchSize
  }

  /** end = min(start + batch_size, sample_size) */
  function BatchEnd(batch: int, batchSize: int, sampleSize: int): int {
    var e := BatchStart(batch, batchSize) + batchSize;
    if e < sampleSize then e else sampleSize
  }

  /** NumBatches is the ceiling of sample_size / batch_size: the least n with n * batch_size >= sample_size. */
  lemma NumBatchesIsCeiling(sampleSize: int, batchSize: int)
    requires batchSize > 0
    ensures var n := NumBatches(sampleSize, batchSize);
            n * batchSize >= sampleSize && (n - 1) * batchSize < sampleSize
  {
    var n := NumBatches(sampleSize, batchSize);
    var r := (sampleSize + batchSize - 1) % batchSize;
    assert n * batchSize + r == sampleSize + batchSize - 1 && 0 <= r < batchSize;
    assert (n - 1) * batchSize == n * batchSize - batchSize;
  }

  /** There are no batches exactly when there are no samples. */
  lemma NoBatchesIffNoSamples(sampleSize: int, batchSize: int)
    requires batchSize > 0
    ensures NumBatches(sampleSize, batchSize) <= 0 <==> sampleSize <= 0
  {
    NumBatchesIsCeiling(sampleSize, batchSize);
    var n := NumBatches(sampleSize, batchSize);
    if n <= 0 {
      assert n * batchSize <= 0;
    } else {
      assert (n - 1) * batchSize >= 0;
    }
  }

  /** Every batch sdg runs is a non-empty range of at most batch_size samples inside [0, sample_size). */
  lemma BatchBounds(sampleSize: int, batchSize: int, batch: int)
    requires batchSize > 0 && 0 <= batch < NumBatches(sampleSize, batchSize)
    ensures 0 <= BatchStart(batch, batchSize) < BatchEnd(batch, batchSize, sampleSize) <= sampleSize
    ensures BatchEnd(batch, batchSize, sampleSize) - BatchStart(batch, batchSize) <= batchSize
  {
    NumBatchesIsCeiling(sampleSize, batchSize);
    var n := NumBatches(sampleSize, batchSize);
    assert batch * batchSize <= (n - 1) * batchSize;
    assert 0 <= batch * batchSize;
  }

  /** Consecutive batches meet: each one starts where the previous ended. */
  lemma BatchesContiguous(sampleSize: int, batchSize: int, batch: int)
    requires batchSize > 0 && 0 <= batch && batch + 1 < NumBatches(sampleSize, batchSize)
    ensures BatchEnd(batch, batchSize, sampleSize) == BatchStart(batch + 1, batchSize)
  {
    BatchBounds(sampleSize, batchSize, batch + 1);
    assert BatchStart(batch + 1, batchSize) == BatchStart(batch, batchSize) + batchSize;
  }

  /** The first batch starts at 0 and the last one ends at sample_size. */
  lemma BatchesCoverAll(sampleSize: int, batchSize: int)
    requires batchSize > 0 && sampleSize > 0
    ensures NumBatches(sampleSize, batchSize) >= 1
    ensures BatchStart(0, batchSize) == 0
    ensures BatchEnd(NumBatches(sampleSize, batchSize) - 1, batchSize, sampleSize) == sampleSize
  {
    NumBatchesIsCeiling(sampleSize, batchSize);
    NoBatchesIffNoSamples(sampleSize, batchSize);
    var n := NumBatches(sampleSize, batchSize);
    assert (n - 1) * batchSize + batchSize == n * batchSize;
  }

  /** Once `for batch in range(num_batches)` has run out, the batches have covered every sample. */
  lemma AllBatchesDone(sampleSize: int, batchSize: int, batch: int)
    requires batchSize > 0 && 0 <= batch && NumBatches(sampleSize, batchSize) <= batch
    requires batch == 0 || batch == NumBatches(sampleSize, batchSize)
    ensures (if batch == 0 then 0 else BatchEnd(batch - 1, batchSize, sampleSize)) == if sampleSize > 0 then sampleSize else 0
  {
    NoBatchesIffNoSamples(sampleSize, batchSize);
    if batch > 0 {
      BatchesCoverAll(sampleSize, batchSize);
    }
  }

  /** A sample inside batch k's range sits at index i - start of that batch's draws. */
  lemma SampleInBatch(sampleSize: int, batchSize: int, batch: int, i: int)
    requires batchSize > 0 && 0 <= batch && BatchStart(batch, batchSize) <= i < BatchEnd(batch, batchSize, sampleSize)
    ensures 0 <= i < sampleSize
    ensures i / batchSize == batch && i % batchSize == i - BatchStart(batch, batchSize)
  {
    MulMonotone(0, batch, batchSize);
    DivModUnique(i, batchSize, batch, i - BatchStart(batch, batchSize));
  }

  /** The batch of sample i starts at most batch_size - 1 samples before it, and at 0 only for batch 0. */
  lemma StartOfBatchOf(batchSize: int, i: int)
    requires batchSize > 0 && i >= 0
    ensures BatchStart(i / batchSize, batchSize) <= i < BatchStart(i / batchSize, batchSize) + batchSize
    ensures BatchStart(i / batchSize, batchSize) > 0 <==> i / batchSize > 0
  {
    var k := i / batchSize;
    assert k * batchSize + i % batchSize == i;
    if k > 0 {
      MulMonotone(1, k, batchSize);
    } else if k < 0 {
      MulMonotone(k, -1, batchSize);
    }
  }

  /** Multiplying by a non-negative factor keeps the order. */
  lemma MulMonotone(a: int, b: int, c: int)
    requires a <= b && c >= 0
    ensures a * c <= b * c
  {
    assert b * c - a * c == (b - a) * c;
  }

  /** Sample i belongs to batch i / batch_size, at offset i % batch_size, and to no other batch. */
  lemma BatchOfSample(sampleSize: int, batchSize: int, i: int)
    requires batchSize > 0 && 0 <= i < sampleSize
    ensures 0 <= i / batchSize < NumBatches(sampleSize, batchSize)
    ensures BatchStart(i / batchSize, batchSize) <= i < BatchEnd(i / batchSize, batchSize, sampleSize)
    ensures i - BatchStart(i / batchSize, batchSize) == i % batchSize
    ensures forall batch :: BatchStart(batch, batchSize) <= i < BatchEnd(batch, batchSize, sampleSize) ==> batch == i / batchSize
  {
    var k := i / batchSize;
    assert k * batchSize + i % batchSize == i;
    StartOfBatchOf(batchSize, i);
    NumBatchesIsCeiling(sampleSize, batchSize);
    var n := NumBatches(sampleSize, batchSize);
    assert k < n by {
      if k >= n {
        MulMonotone(n, k, batchSize);
      }
    }
    forall batch | BatchStart(batch, batchSize) <= i < BatchEnd(batch, batchSize, sampleSize)
      ensures batch == k
    {
      DivModUnique(i, batchSize, batch, i - BatchStart(batch, batchSize));
    }
  }

  /**
   * The batch sample i falls in and its offset there, counted by taking
   * away one batch at a time; LocateIsDivMod shows these are i // batch_size
   * and i % batch_size.
   */
  function Locate(i: nat, batchSize: int): (r: (nat, nat))
    requires batchSize > 0
    ensures r.1 < batchSize && r.1 <= i
    decreases i
  {
    if i < batchSize then (0, i)
    else
      var r := Locate(i - batchSize, batchSize);
      (r.0 + 1, r.1)
  }

  /** A quotient and remainder that rebuild i are i's quotient and remainder. */
  lemma DivModUnique(i: int, b: int, q: int, r: int)
    requires b > 0 && 0 <= r < b && i == q * b + r
    ensures i / b == q && i % b == r
  {
    var q', r' := i / b, i % b;
    assert q' * b + r' == i && 0 <= r' < b;
    if q' < q {
      assert (q' + 1) * b == q' * b + b;
      MulMonotone(q' + 1, q, b);
    } else if q' > q {
      assert (q + 1) * b == q * b + b;
      MulMonotone(q + 1, q', b);
    }
  }

  /** Locate computes i // batch_size and i % batch_size. */
  lemma {:induction false} LocateIsDivMod(i: nat, batchSize: int)
    requires batchSize > 0
    ensures Locate(i, batchSize) == (i / batchSize, i % batchSize)
    decreases i
  {
    if i >= batchSize {
      var j := i - batchSize;
      LocateIsDivMod(j, batchSize);
      assert j == (j / batchSize) * batchSize + j % batchSize;
      assert i == (j / batchSize + 1) * batchSize + j % batchSize;
      DivModUnique(i, batchSize, j / batchSize + 1, j % batchSize);
    } else {
      DivModUnique(i, batchSize, 0, i);
    }
  }

  /** A later sample is in the same batch or a later one. */
  lemma {:induction false} LocateMonotone(i: nat, j: nat, batchSize: int)
    requires batchSize > 0 && i <= j
    ensures Locate(i, batchSize).0 <= Locate(j, batchSize).0
    decreases j
  {
    if i >= batchSize {
      LocateMonotone(i - batchSize, j - batchSize, batchSize);
    }
  }

  /** The number of batches `range(num_batches)` visits: one past the batch of the last sample, or none. */
  function BatchCount(sampleSize: int, batchSize: int): (n: nat)
    requires batchSize > 0
  {
    if sampleSize <= 0 then 0 else Locate(sampleSize - 1, batchSize).0 + 1
  }

  /** BatchCount is num_batches whenever that is positive, and 0 otherwise. */
  lemma BatchCountIsNumBatches(sampleSize: int, batchSize: int)
    requires batchSize > 0
    ensures BatchCount(sampleSize, batchSize) == if NumBatches(sampleSize, batchSize) > 0 then NumBatches(sampleSize, batchSize) else 0
  {
    NoBatchesIffNoSamples(sampleSize, batchSize);
    if sampleSize > 0 {
      var i := sampleSize - 1;
      LocateIsDivMod(i, batchSize);
      var q, r := i / batchSize, i % batchSize;
      assert sampleSize + batchSize - 1 == (q + 1) * batchSize + r;
      DivModUnique(sampleSize + batchSize - 1, batchSize, q + 1, r);
    }
  }

  /** Every sample's batch is one the loop visits, and its offset fits in a draw of batch_size. */
  lemma LocateInRange(sampleSize: int, batchSize: int, i: nat)
    requires batchSize > 0 && i < sampleSize
    ensures Locate(i, batchSize).0 < BatchCount(sampleSize, batchSize) && Locate(i, batchSize).1 < batchSize
  {
    LocateMonotone(i, sampleSize - 1, batchSize);
  }

  /** The batch of a sample starts `offset` samples before it. */
  lemma LocateStart(batchSize: int, i: nat)
    requires batchSize > 0
    ensures BatchStart(Locate(i, batchSize).0, batchSize) == i - Locate(i, batchSize).1
  {
    LocateIsDivMod(i, batchSize);
  }

  /** Number of samples in batch k. */
  function BatchSize(sampleSize: int, batchSize: int, batch: int): int {
    BatchEnd(batch, batchSize, sampleSize) - BatchStart(batch, batchSize)
  }

  /** Total number of samples in batches 0 .. k - 1. */
  function SamplesBefore(sampleSize: int, batchSize: int, k: nat): int {
    if k == 0 then 0 else SamplesBefore(sampleSize, batchSize, k - 1) + BatchSize(sampleSize, batchSize, k - 1)
  }

  /** The first k batches hold exactly the samples before the start of batch k. */
  lemma {:induction false} SamplesBeforeIsStart(sampleSize: int, batchSize: int, k: nat)
    requires batchSize > 0 && sampleSize >= 0 && k <= NumBatches(sampleSize, batchSize)
    ensures SamplesBefore(sampleSize, batchSize, k) == if k == NumBatches(sampleSize, batchSize) then sampleSize else BatchStart(k, batchSize)
  {
    if k > 0 {
      SamplesBeforeIsStart(sampleSize, batchSize, k - 1);
      assert SamplesBefore(sampleSize, batchSize, k - 1) == BatchStart(k - 1, batchSize) by {
        if k - 1 == 0 {
          assert BatchStart(0, batchSize) == 0;
        }
      }
      assert SamplesBefore(sampleSize, batchSize, k) == BatchEnd(k - 1, batchSize, sampleSize);
      if k == NumBatches(sampleSize, batchSize) {
        NoBatchesIffNoSamples(sampleSize, batchSize);
        BatchesCoverAll(sampleSize, batchSize);
      } else {
        BatchesContiguous(sampleSize, batchSize, k - 1);
      }
    } else {
      NoBatchesIffNoSamples(sampleSize, batchSize);
      assert BatchStart(0, batchSize) == 0;
    }
  }

  /** The batches hold sample_size samples in all. */
  lemma BatchSizesSum(sampleSize: int, batchSize: int)
    requires batchSize > 0 && sampleSize >= 0
    ensures NumBatches(sampleSize, batchSize) >= 0
    ensures SamplesBefore(sampleSize, batchSize, NumBatches(sampleSize, batchSize)) == sampleSize
  {
    NoBatchesIffNoSamples(sampleSize, batchSize);
    if sampleSize > 0 {
      SamplesBeforeIsStart(sampleSize, batchSize, NumBatches(sampleSize, batchSize));
    } else {
      assert NumBatches(sampleSize, batchSize) == 0;
    }
  }

  /** Five samples in batches of two: sizes 2, 2 and 1. */
  lemma FiveInTwos()
    ensures NumBatches(5, 2) == 3
    ensures BatchSize(5, 2, 0) == 2 && BatchSize(5, 2, 1) == 2 && BatchSize(5, 2, 2) == 1
  {
    assert NumBatches(5, 2) == 6 / 2 == 3;
    assert BatchStart(0, 2) == 0 && BatchEnd(0, 2, 5) == 2;
    assert BatchStart(1, 2) == 2 && BatchEnd(1, 2, 5) == 4;
    assert BatchStart(2, 2) == 4 && BatchEnd(2, 2, 5) == 5;
  }
}
