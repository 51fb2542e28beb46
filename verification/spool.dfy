/**
 * Disk-usage estimate of the telemetry spool
 * (Source/santad/rust/spool/mod.rs): a file occupies whole blocks.
 */
module Spool {

  /** The block size the spool assumes for every file. */
  const BlockSize: nat := 4096

  /** Largest value of a 64-bit `usize`. */
  const UsizeMax: nat := 0xFFFF_FFFF_FFFF_FFFF

  predicate IsBlockMultiple(n: nat) {
    n % BlockSize == 0
  }

  /**
   * approx_file_occupation: rounds a file size up to the next full block.
   * The result is the smallest multiple of the block size that is not below
   * the input.
   */
  function ApproxFileOccupation(fileSize: nat): (r: nat)
    requires fileSize <= UsizeMax
    ensures IsBlockMultiple(r)
    ensures fileSize <= r < fileSize + BlockSize
  {
    BlockSize * (fileSize / BlockSize + if fileSize % BlockSize != 0 then 1 else 0)
  }

  /** No smaller multiple of the block size covers the file. */
  lemma OccupationIsLeast(fileSize: nat, m: nat)
    requires fileSize <= UsizeMax
    requires IsBlockMultiple(m) && fileSize <= m
    ensures ApproxFileOccupation(fileSize) <= m
  {
  }

  /** Sizes that already fill whole blocks, 0 included, are left as they are. */
  lemma OccupationOfMultiple(fileSize: nat)
    requires fileSize <= UsizeMax && IsBlockMultiple(fileSize)
    ensures ApproxFileOccupation(fileSize) == fileSize
  {
    OccupationIsLeast(fileSize, fileSize);
  }

  /** Rounding twice is rounding once. */
  lemma OccupationIdempotent(fileSize: nat)
    requires fileSize <= UsizeMax - (BlockSize - 1)
    ensures ApproxFileOccupation(fileSize) <= UsizeMax
    ensures ApproxFileOccupation(ApproxFileOccupation(fileSize)) == ApproxFileOccupation(fileSize)
  {
    OccupationFits(fileSize);
    OccupationOfMultiple(ApproxFileOccupation(fileSize));
  }

  /** Larger files never occupy fewer blocks. */
  lemma OccupationMonotone(n: nat, m: nat)
    requires n <= m <= UsizeMax
    ensures ApproxFileOccupation(n) <= ApproxFileOccupation(m)
  {
    OccupationIsLeast(n, ApproxFileOccupation(m));
  }

  /**
   * The product in approx_file_occupation fits in a 64-bit usize exactly when
   * the size is at most usize::MAX - 4095; above that the Rust expression
   * overflows.
   */
  lemma OccupationFits(fileSize: nat)
    requires fileSize <= UsizeMax
    ensures ApproxFileOccupation(fileSize) <= UsizeMax <==> fileSize <= UsizeMax - (BlockSize - 1)
  {
    var r := ApproxFileOccupation(fileSize);
    // UsizeMax + 1 is itself a multiple of the block size.
    assert (UsizeMax + 1) % BlockSize == 0;
    if fileSize > UsizeMax - (BlockSize - 1) {
      OccupationIsLeast(fileSize, UsizeMax + 1);
    } else {
      OccupationIsLeast(fileSize, UsizeMax + 1 - BlockSize);
    }
  }
}
