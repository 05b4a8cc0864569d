/**
 `postRestoreHandle`: what a user is charged for restoring files that are still in the file directory,
 and which records are then written.
 */
module RestoreCharge {
  import opened Text
  import opened TrackLifecycle

  const HASH_LENGTH := 64

  /** How many segments hold so many bytes. */
  function Blocks(size: nat, segmentSize: nat): nat
    requires 0 < segmentSize
  {
    size / segmentSize + if size % segmentSize != 0 then 1 else 0
  }

  /** The size of a file in whole segments. */
  function Rounded(size: nat, segmentSize: nat): nat
    requires 0 < segmentSize
  {
    Blocks(size, segmentSize) * segmentSize
  }

  function SumRounded(files: seq<string>, dir: map<string, nat>, segmentSize: nat): nat
    requires 0 < segmentSize
  {
    if files == [] then 0
    else
      var last := files[|files| - 1];
      SumRounded(files[..|files| - 1], dir, segmentSize) + if last in dir then Rounded(dir[last], segmentSize) else 0
  }

  function SumSizes(files: seq<string>, dir: map<string, nat>): nat {
    if files == [] then 0
    else SumSizes(files[..|files| - 1], dir) + if files[|files| - 1] in dir then dir[files[|files| - 1]] else 0
  }

  function Existing(files: seq<string>, dir: map<string, nat>): nat {
    if files == [] then 0
    else Existing(files[..|files| - 1], dir) + if files[|files| - 1] in dir then 1 else 0
  }

  function SumBlocks(files: seq<string>, dir: map<string, nat>, segmentSize: nat): nat
    requires 0 < segmentSize
  {
    if files == [] then 0
    else
      var last := files[|files| - 1];
      SumBlocks(files[..|files| - 1], dir, segmentSize) + if last in dir then Blocks(dir[last], segmentSize) else 0
  }

  lemma {:induction false} Distribute(a: nat, b: nat, c: nat)
    ensures (a + b) * c == a * c + b * c
  {
  }

  lemma {:induction false} RoundedBounds(size: nat, segmentSize: nat)
    requires 0 < segmentSize
    ensures size <= Rounded(size, segmentSize) < size + segmentSize
  {
    var q, r := size / segmentSize, size % segmentSize;
    assert size == q * segmentSize + r;
    Distribute(q, 1, segmentSize);
  }

  lemma {:induction false} SumBounds(files: seq<string>, dir: map<string, nat>, segmentSize: nat)
    requires 0 < segmentSize
    ensures SumRounded(files, dir, segmentSize) == SumBlocks(files, dir, segmentSize) * segmentSize
    ensures SumSizes(files, dir) <= SumRounded(files, dir, segmentSize)
    ensures if Existing(files, dir) == 0 then SumRounded(files, dir, segmentSize) == 0
            else SumRounded(files, dir, segmentSize) < SumSizes(files, dir) + Existing(files, dir) * segmentSize
  {
    if files != [] {
      var last, before := files[|files| - 1], files[..|files| - 1];
      SumBounds(before, dir, segmentSize);
      if last in dir {
        RoundedBounds(dir[last], segmentSize);
        Distribute(SumBlocks(before, dir, segmentSize), Blocks(dir[last], segmentSize), segmentSize);
        Distribute(Existing(before, dir), 1, segmentSize);
      }
    }
  }

  // Fifteen tenths of an even number of units leaves no remainder.
  lemma {:induction false} FifteenTenths(whole: nat, half: nat)
    requires whole == 2 * half
    ensures whole * 15 / 10 * 2 == whole * 3
  {
    assert whole * 15 == 10 * (3 * half);
    TenthOfTen(3 * half);
  }

  lemma {:induction false} TenthOfTen(n: nat)
    ensures 10 * n / 10 == n
  {
  }

  // Whole segments of an even size are an even number of units.
  lemma {:induction false} EvenBlocks(blocks: nat, segmentSize: nat) returns (half: nat)
    requires segmentSize % 2 == 0
    ensures blocks * segmentSize == 2 * half
  {
    half := blocks * (segmentSize / 2);
    assert segmentSize == 2 * (segmentSize / 2);
    TwiceProduct(blocks, segmentSize / 2);
  }

  lemma {:induction false} TwiceProduct(a: nat, b: nat)
    ensures a * (2 * b) == 2 * (a * b)
  {
  }

  /**
   The charge is one and a half times the size in whole segments, without rounding when the segment
   size is even: never below one and a half times the bytes, and less than one and a half segments
   above for each file.
   */
  lemma {:induction false} ChargeBounds(files: seq<string>, dir: map<string, nat>, segmentSize: nat)
    requires 0 < segmentSize && segmentSize % 2 == 0
    ensures var used := SumRounded(files, dir, segmentSize) * 15 / 10;
      && used * 2 == SumRounded(files, dir, segmentSize) * 3
      && SumSizes(files, dir) * 3 <= used * 2
      && (if Existing(files, dir) == 0 then used == 0
          else used * 2 < (SumSizes(files, dir) + Existing(files, dir) * segmentSize) * 3)
  {
    SumBounds(files, dir, segmentSize);
    var half := EvenBlocks(SumBlocks(files, dir, segmentSize), segmentSize);
    FifteenTenths(SumRounded(files, dir, segmentSize), half);
  }

  function RestoredRecord(file: string, size: nat, owner: string, bucket: string): Record {
    Record(None, owner, file, "empty", bucket, size, false, 0, false)
  }

  /** The list names this file, it is in the directory, and its record could be written. */
  ghost predicate Restored(files: seq<string>, dir: map<string, nat>, failing: set<nat>, file: string) {
    |file| == HASH_LENGTH && file in dir && exists i: nat :: i < |files| && files[i] == file && i !in failing
  }

  /** The entries of the list for which a record is written. */
  function Recorded(files: seq<string>, dir: map<string, nat>, failing: set<nat>): (recorded: seq<string>)
    ensures |recorded| <= |files|
  {
    if files == [] then []
    else
      var last := |files| - 1;
      Recorded(files[..last], dir, failing) +
      if |files[last]| == HASH_LENGTH && files[last] in dir && last !in failing then [files[last]] else []
  }

  lemma {:induction false} RecordedIsRestored(files: seq<string>, dir: map<string, nat>, failing: set<nat>)
    ensures forall file :: file in Recorded(files, dir, failing) <==> Restored(files, dir, failing, file)
  {
    if files != [] {
      var last := |files| - 1;
      RecordedIsRestored(files[..last], dir, failing);
      forall file ensures Restored(files, dir, failing, file) <==>
        Restored(files[..last], dir, failing, file) ||
          (file == files[last] && |file| == HASH_LENGTH && file in dir && last !in failing)
      {
        assert forall k: nat :: k < last ==> files[..last][k] == files[k];
      }
    }
  }

  lemma {:induction false} SumWith(files: seq<string>, file: string, dir: map<string, nat>, segmentSize: nat)
    requires 0 < segmentSize
    ensures SumRounded(files + [file], dir, segmentSize) ==
      SumRounded(files, dir, segmentSize) + if file in dir then Rounded(dir[file], segmentSize) else 0
  {
    assert (files + [file])[..|files|] == files;
  }

  /** Whatever is recorded is charged for, as often as it is recorded. */
  lemma {:induction false} RecordedIsCharged(
    files: seq<string>, dir: map<string, nat>, failing: set<nat>, segmentSize: nat)
    requires 0 < segmentSize
    ensures SumRounded(Recorded(files, dir, failing), dir, segmentSize) <= SumRounded(files, dir, segmentSize)
  {
    if files != [] {
      var last := |files| - 1;
      RecordedIsCharged(files[..last], dir, failing, segmentSize);
      var before := Recorded(files[..last], dir, failing);
      if |files[last]| == HASH_LENGTH && files[last] in dir && last !in failing {
        SumWith(before, files[last], dir, segmentSize);
      } else {
        assert Recorded(files, dir, failing) == before;
      }
    }
  }

  /** The charge for a list of files; files that are not there cost nothing. */
  method UsedSpace(files: seq<string>, dir: map<string, nat>, segmentSize: nat) returns (usedSpace: nat)
    requires 0 < segmentSize
    ensures usedSpace == SumRounded(files, dir, segmentSize) * 15 / 10
  {
    var allUsedSpace: nat := 0;
    for i := 0 to |files|
      invariant allUsedSpace == SumRounded(files[..i], dir, segmentSize)
    {
      assert files[..i + 1][..i] == files[..i];
      if files[i] in dir {
        var size := dir[files[i]];
        var count := size / segmentSize;
        if size % segmentSize != 0 {
          count := count + 1;
        }
        assert count * segmentSize == Rounded(size, segmentSize);
        allUsedSpace := allUsedSpace + count * segmentSize;
      }
    }
    assert files[..|files|] == files;
    usedSpace := allUsedSpace * 15 / 10;
  }

  /** The second loop; `failing` are the places in the list whose record cannot be written. */
  method WriteRecords(
    files: seq<string>, dir: map<string, nat>, owner: string, bucket: string, failing: set<nat>,
      track: map<string, Record>)
    returns (records: map<string, Record>)
    ensures forall file :: file in records <==> file in track || Restored(files, dir, failing, file)
    ensures forall file :: file in records ==>
      records[file] == if Restored(files, dir, failing, file) then RestoredRecord(file, dir[file], owner, bucket)
        else track[file]
  {
    records := track;
    for i := 0 to |files|
      invariant forall file :: file in records <==> file in track || Restored(files[..i], dir, failing, file)
      invariant forall file :: file in records ==>
        records[file] == if Restored(files[..i], dir, failing, file) then RestoredRecord(file, dir[file], owner, bucket)
          else track[file]
    {
      forall file ensures Restored(files[..i + 1], dir, failing, file) <==>
        Restored(files[..i], dir, failing, file) ||
          (file == files[i] && |file| == HASH_LENGTH && file in dir && i !in failing)
      {
        assert forall k: nat :: k < i ==> files[..i + 1][k] == files[..i][k];
        assert files[..i + 1][i] == files[i];
      }
      if files[i] in dir && |files[i]| == HASH_LENGTH && i !in failing {
        records := records[files[i] := RestoredRecord(files[i], dir[files[i]], owner, bucket)];
      }
    }
    assert files[..|files|] == files;
  }

  /**
   The request as a whole, over a directory that does not change meanwhile: nothing is recorded unless
   the charge fits, and whatever is recorded is charged for and lies under its own root hash.
   */
  method PostRestore(
    files: seq<string>, dir: map<string, nat>, segmentSize: nat, owner: string, bucket: string, remaining: nat,
    failing: set<nat>, track: map<string, Record>)
    returns (accepted: bool, records: map<string, Record>)
    requires 0 < segmentSize
    ensures accepted <==> SumRounded(files, dir, segmentSize) * 15 / 10 <= remaining
    ensures !accepted ==> records == track
    ensures accepted ==> forall file :: file in records <==>
      || file in track
      || (file in dir && |file| == HASH_LENGTH && exists i: nat :: i < |files| && files[i] == file && i !in failing)
    ensures accepted ==> forall file :: file in records ==>
      if file in dir && |file| == HASH_LENGTH && exists i: nat :: i < |files| && files[i] == file && i !in failing
      then records[file] == Record(None, owner, file, "empty", bucket, dir[file], false, 0, false)
      else records[file] == track[file]
    ensures accepted ==>
      && (forall file :: file in Recorded(files, dir, failing) <==> Restored(files, dir, failing, file))
      && SumRounded(Recorded(files, dir, failing), dir, segmentSize) * 15 / 10 <= remaining
  {
    RecordedIsRestored(files, dir, failing);
    RecordedIsCharged(files, dir, failing, segmentSize);
    var usedSpace := UsedSpace(files, dir, segmentSize);
    if usedSpace > remaining {
      return false, track;
    }
    records := WriteRecords(files, dir, owner, bucket, failing, track);
    return true, records;
  }
}
