/**
 * Part-size arithmetic of upload_to_s3. The storage provider accepts at most MaxParts parts
 * per multipart upload; the part size is 1.2 times archive_size / MaxParts, truncated,
 * and at least 1. It is computed here exactly, as archiveSize * 6 / 5000.
 */
module Upload {

  const MaxParts: nat := 1000

  /** The part size as written: floor(1.2 * archiveSize / MaxParts), raised to 1 when that is 0. */
  function PartSize(archiveSize: nat): (p: nat)
    ensures p >= 1
    ensures 6 * archiveSize >= 5000 ==> p * 5000 <= 6 * archiveSize < (p + 1) * 5000
    ensures 6 * archiveSize < 5000 ==> p == 1
  {
    var scaled := archiveSize * 6 / 5000;
    if scaled < 1 then 1 else scaled
  }

  /** The least number of parts of `partSize` bytes that cover an archive of `archiveSize` bytes. */
  function PartsNeeded(archiveSize: nat, partSize: nat): (c: nat)
    requires partSize >= 1
    ensures c * partSize >= archiveSize
    ensures c == 0 || (c - 1) * partSize < archiveSize
  {
    (archiveSize + partSize - 1) / partSize
  }

  /**
   * The number of parts of the computed size that cover an archive of `archiveSize` bytes,
   * which the MaxParts budget of upload_to_s3 is meant to bound. It is within that budget
   * exactly when MaxParts parts of that size cover the archive.
   */
  function PartCount(archiveSize: nat): (c: nat)
    ensures c * PartSize(archiveSize) >= archiveSize
    ensures c == 0 || (c - 1) * PartSize(archiveSize) < archiveSize
    ensures archiveSize > 0 ==> c >= 1
    ensures c <= MaxParts <==> archiveSize <= MaxParts * PartSize(archiveSize)
  {
    PartsWithinIff(archiveSize, PartSize(archiveSize), MaxParts);
    PartsNeeded(archiveSize, PartSize(archiveSize))
  }

  lemma {:induction false} MulMonotone(a: nat, b: nat, k: nat)
    requires a <= b
    ensures a * k <= b * k
  {
    if k > 0 {
      MulMonotone(a, b, k - 1);
      assert a * k == a * (k - 1) + a;
      assert b * k == b * (k - 1) + b;
    }
  }

  /** A part count stays within a limit exactly when the limit's worth of parts covers the archive. */
  lemma PartsWithinIff(archiveSize: nat, partSize: nat, limit: nat)
    requires partSize >= 1
    ensures PartsNeeded(archiveSize, partSize) <= limit <==> archiveSize <= limit * partSize
  {
    var c := PartsNeeded(archiveSize, partSize);
    if c <= limit {
      MulMonotone(c, limit, partSize);
    } else {
      MulMonotone(limit, c - 1, partSize);
    }
  }

  /** Archives of at most MaxParts bytes use parts of one byte, hence at most MaxParts parts. */
  lemma SmallArchivesWithinLimit(archiveSize: nat)
    requires archiveSize <= MaxParts
    ensures PartCount(archiveSize) <= MaxParts
  {
    PartsWithinIff(archiveSize, PartSize(archiveSize), MaxParts);
  }

  /** From 4167 bytes on, the truncated part size is large enough for the MaxParts ceiling. */
  lemma LargeArchivesWithinLimit(archiveSize: nat)
    requires archiveSize >= 4167
    ensures PartCount(archiveSize) <= MaxParts
  {
    var p := PartSize(archiveSize);
    assert p * 5000 > 6 * archiveSize - 5000;
    if archiveSize < 4999 {
      assert p >= 5;
    }
    assert archiveSize <= MaxParts * p;
    PartsWithinIff(archiveSize, p, MaxParts);
  }

  /**
   * The exact set of archive sizes for which the truncated part size exceeds the ceiling:
   * the four ranges where 1.2 * archiveSize / MaxParts is just above 1, 2, 3 and 4.
   */
  lemma PartLimitExceededExactly(archiveSize: nat)
    ensures PartCount(archiveSize) > MaxParts <==>
      (1001 <= archiveSize <= 1666 || 2001 <= archiveSize <= 2499 ||
       3001 <= archiveSize <= 3333 || 4001 <= archiveSize <= 4166)
  {
    var p := PartSize(archiveSize);
    PartsWithinIff(archiveSize, p, MaxParts);
    if archiveSize >= 4167 {
      LargeArchivesWithinLimit(archiveSize);
    } else if archiveSize <= 1666 {
      assert p == 1;
    } else if archiveSize <= 2499 {
      assert p == 2;
    } else if archiveSize <= 3333 {
      assert p == 3;
    } else {
      assert p == 4;
    }
  }

  /** A 1500-byte archive is cut into 1500 one-byte parts. */
  lemma SmallArchiveExceedsLimit()
    ensures PartSize(1500) == 1 && PartCount(1500) == 1500 > MaxParts
  {
  }

  /** The part size rounded up instead of truncated: ceil(1.2 * archiveSize / MaxParts), at least 1. */
  function PartSizeRoundedUp(archiveSize: nat): (p: nat)
    ensures p >= 1
    ensures p * 5000 >= 6 * archiveSize
    ensures p == 1 || (p - 1) * 5000 < 6 * archiveSize
  {
    var scaled := (archiveSize * 6 + 4999) / 5000;
    if scaled < 1 then 1 else scaled
  }

  /** With the rounded-up part size every archive fits in MaxParts parts. */
  lemma RoundedUpWithinLimit(archiveSize: nat)
    ensures PartsNeeded(archiveSize, PartSizeRoundedUp(archiveSize)) <= MaxParts
  {
    var p := PartSizeRoundedUp(archiveSize);
    assert archiveSize <= MaxParts * p;
    PartsWithinIff(archiveSize, p, MaxParts);
  }
}
