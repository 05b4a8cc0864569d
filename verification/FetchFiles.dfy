/**
 `fetchFiles`: a file is brought back segment by segment from its fragments, and the segments are
 written one after the other, the last cut to the size of the file.
 */
module FetchFiles {
  import opened Text

  type Bytes = seq<bv8>

  // One segment of the chain's metadata: the hashes of its fragments.
  datatype Meta = Meta(fileSize: nat, segments: seq<seq<string>>)

  // The ways of not getting a file: an error, a panic of the handler, and the end of the process.
  datatype Result = Done(file: Bytes) | Error | Panic | Exited

  // Whether fetching a fragment ends the whole call, what RSRestore makes of the paths it is given for a
  // segment, whether a restored segment cannot be read back, and after how many bytes writing it fails.
  datatype World = World(
    lost: (nat, nat) -> bool, restore: (nat, seq<string>) -> Option<Bytes>, unread: nat -> bool,
      failAfter: nat -> Option<nat>)

  // ----- The slots that RSRestore reads -----

  /** The path in slot k when segment i is restored: that of the latest row so far that is long enough. */
  function Slot(segments: seq<seq<string>>, i: nat, k: nat): string
    requires i < |segments|
  {
    if k < |segments[i]| then segments[i][k] else if i == 0 then "" else Slot(segments, i - 1, k)
  }

  function Slots(segments: seq<seq<string>>, i: nat, width: nat): (slots: seq<string>)
    requires i < |segments|
    ensures |slots| == width
  {
    seq(width, k requires 0 <= k < width => Slot(segments, i, k))
  }

  /** A full row fills every slot with fragments of its own segment. */
  lemma {:induction false} FullRowFillsSlots(segments: seq<seq<string>>, i: nat, width: nat)
    requires i < |segments| && |segments[i]| == width
    ensures Slots(segments, i, width) == segments[i]
  {
  }

  // A row reaches past this slot.
  ghost predicate Covers(segments: seq<seq<string>>, i: nat, k: nat) {
    exists j :: 0 <= j <= i < |segments| && k < |segments[j]|
  }

  lemma {:induction false} SlotFilledIff(segments: seq<seq<string>>, i: nat, k: nat)
    requires i < |segments|
    requires forall j, l :: 0 <= j < |segments| && 0 <= l < |segments[j]| ==> segments[j][l] != ""
    ensures Slot(segments, i, k) != "" <==> Covers(segments, i, k)
  {
    if k >= |segments[i]| && i > 0 {
      SlotFilledIff(segments, i - 1, k);
      assert Covers(segments, i, k) <==> Covers(segments, i - 1, k);
    }
  }

  /**
   A segment is restored from its own fragments only, with every other slot empty, exactly when no row
   before it is longer than its own.
   */
  lemma {:induction false} OwnFragmentsOnlyIff(segments: seq<seq<string>>, i: nat, width: nat)
    requires i < |segments| && forall j :: 0 <= j <= i ==> |segments[j]| <= width
    requires forall j, l :: 0 <= j < |segments| && 0 <= l < |segments[j]| ==> segments[j][l] != ""
    ensures Slots(segments, i, width)[..|segments[i]|] == segments[i]
    ensures (forall k :: |segments[i]| <= k < width ==> Slots(segments, i, width)[k] == "") <==>
      (forall j :: 0 <= j < i ==> |segments[j]| <= |segments[i]|)
  {
    forall k: nat | k < width ensures Slots(segments, i, width)[k] != "" <==> Covers(segments, i, k) {
      SlotFilledIff(segments, i, k);
    }
    forall j | 0 <= j < i && |segments[j]| > |segments[i]| ensures Covers(segments, i, |segments[i]|) {
    }
  }

  /** A short row is topped up with fragments of the segment before it. */
  lemma {:induction false} ShortRowMixesSegments(a: string, b: string, c: string)
    requires b != ""
    ensures Slots([[a, b], [c]], 1, 2) == [c, b]
  {
    var segments := [[a, b], [c]];
    assert Slot(segments, 1, 1) == Slot(segments, 0, 1) == b;
  }

  // ----- Writing the segments -----

  /** What a write leaves in the file: the code does not look at whether it failed. */
  function Put(world: World, i: nat, bytes: Bytes): Bytes {
    var fail := world.failAfter(i);
    if fail.Some? && fail.value < |bytes| then bytes[..fail.value] else bytes
  }

  /** The length of so many segments, added up. */
  function Offset(count: nat, size: nat): nat {
    if count == 0 then 0 else Offset(count - 1, size) + size
  }

  lemma {:induction false} OffsetIsProduct(count: nat, size: nat)
    ensures Offset(count, size) == count * size
  {
    if count > 0 {
      OffsetIsProduct(count - 1, size);
    }
  }

  /** What the file still lacks after so many full segments; negative when they are too many. */
  function Rest(fileSize: nat, segmentSize: nat, count: nat): int {
    fileSize - Offset(count, segmentSize)
  }

  /** The slice of the last segment is within the segment. */
  predicate SliceFits(buffers: seq<Bytes>, fileSize: nat, segmentSize: nat) {
    buffers != [] ==> 0 <= Rest(fileSize, segmentSize, |buffers| - 1) <= |buffers[|buffers| - 1]|
  }

  /** What is to be written for segment i: all of it, or as much of the last one as the file still lacks. */
  function PartAt(buffers: seq<Bytes>, fileSize: nat, segmentSize: nat, i: nat): Bytes
    requires i < |buffers| && SliceFits(buffers, fileSize, segmentSize)
  {
    if i + 1 < |buffers| then buffers[i] else buffers[i][..Rest(fileSize, segmentSize, i)]
  }

  /** What the first n writes leave in the file. */
  function PutFirst(buffers: seq<Bytes>, fileSize: nat, segmentSize: nat, world: World, n: nat): Bytes
    requires n <= |buffers| && SliceFits(buffers, fileSize, segmentSize)
  {
    if n == 0 then []
    else
      PutFirst(buffers, fileSize, segmentSize, world, n - 1) +
      Put(world, n - 1, PartAt(buffers, fileSize, segmentSize, n - 1))
  }

  /** What they are meant to leave. */
  function JoinFirst(buffers: seq<Bytes>, fileSize: nat, segmentSize: nat, n: nat): Bytes
    requires n <= |buffers| && SliceFits(buffers, fileSize, segmentSize)
  {
    if n == 0 then []
    else JoinFirst(buffers, fileSize, segmentSize, n - 1) + PartAt(buffers, fileSize, segmentSize, n - 1)
  }

  /** What the write loop comes to; a slice outside the buffer is a panic. */
  function Written(buffers: seq<Bytes>, fileSize: nat, segmentSize: nat, world: World): Result {
    if exists i: nat :: i < |buffers| && world.unread(i) then Exited
    else if !SliceFits(buffers, fileSize, segmentSize) then Panic
    else Done(PutFirst(buffers, fileSize, segmentSize, world, |buffers|))
  }

  method WriteSegments(buffers: seq<Bytes>, fileSize: nat, segmentSize: nat, world: World) returns (result: Result)
    ensures result == Written(buffers, fileSize, segmentSize, world)
    ensures result.Exited? <==> exists i: nat :: i < |buffers| && world.unread(i)
    ensures result.Panic? <==>
      && (forall i: nat :: i < |buffers| ==> !world.unread(i)) && buffers != []
      && !(0 <= fileSize - (|buffers| - 1) * segmentSize <= |buffers[|buffers| - 1]|)
    ensures !result.Error?
  {
    if buffers != [] {
      OffsetIsProduct(|buffers| - 1, segmentSize);
    }
    var file: Bytes := [];
    var writecount := 0;
    for i := 0 to |buffers|
      invariant writecount == i
      invariant forall k: nat :: k < i ==> !world.unread(k)
      invariant i == |buffers| ==> SliceFits(buffers, fileSize, segmentSize)
      invariant SliceFits(buffers, fileSize, segmentSize) ==> file == PutFirst(buffers, fileSize, segmentSize, world, i)
    {
      if world.unread(i) {
        return Exited;
      }
      if writecount + 1 >= |buffers| {
        var rest := fileSize - writecount * segmentSize;
        OffsetIsProduct(writecount, segmentSize);
        if rest < 0 || rest > |buffers[i]| {
          return Panic;
        }
        file := file + Put(world, i, buffers[i][..rest]);
      } else {
        file := file + Put(world, i, buffers[i]);
      }
      writecount := writecount + 1;
    }
    return Done(file);
  }

  /** The write of segment i fails before the end of what is to be written. */
  ghost predicate Cut(buffers: seq<Bytes>, fileSize: nat, segmentSize: nat, world: World, i: nat)
    requires SliceFits(buffers, fileSize, segmentSize)
  {
    i < |buffers| && world.failAfter(i).Some? && world.failAfter(i).value < |PartAt(buffers, fileSize, segmentSize, i)|
  }

  lemma {:induction false} WholeUnlessCut(buffers: seq<Bytes>, fileSize: nat, segmentSize: nat, world: World, n: nat)
    requires n <= |buffers| && SliceFits(buffers, fileSize, segmentSize)
    ensures var put, meant :=
      PutFirst(buffers, fileSize, segmentSize, world, n), JoinFirst(buffers, fileSize, segmentSize, n);
      && (put == meant || |put| < |meant|)
      && (put == meant <==> forall i: nat :: i < n ==> !Cut(buffers, fileSize, segmentSize, world, i))
  {
    if n > 0 {
      WholeUnlessCut(buffers, fileSize, segmentSize, world, n - 1);
      var part := PartAt(buffers, fileSize, segmentSize, n - 1);
      assert |Put(world, n - 1, part)| <= |part|;
      assert Cut(buffers, fileSize, segmentSize, world, n - 1) <==> |Put(world, n - 1, part)| < |part|;
    }
  }

  /** Nothing stops the call before the segments are written. */
  ghost predicate Fetched(meta: Meta, width: nat, world: World) {
    forall i :: 0 <= i < |meta.segments| ==>
      && |meta.segments[i]| <= width
      && (forall k :: 0 <= k < |meta.segments[i]| ==> !world.lost(i, k))
      && world.restore(i, Slots(meta.segments, i, width)).Some?
  }

  /** `fetchFiles` once the target is known to be absent and no copy is at hand. */
  method FetchFiles(meta: Meta, width: nat, segmentSize: nat, world: World)
    returns (result: Result, ghost buffers: seq<Bytes>)
    ensures |buffers| <= |meta.segments| && forall i :: 0 <= i < |buffers| ==>
      world.restore(i, Slots(meta.segments, i, width)) == Some(buffers[i])
    ensures Fetched(meta, width, world) ==>
      |buffers| == |meta.segments| && result == Written(buffers, meta.fileSize, segmentSize, world)
    ensures result.Done? || result.Exited? ==> Fetched(meta, width, world)
    ensures result.Panic? && !Fetched(meta, width, world) ==>
      exists i :: 0 <= i < |meta.segments| && |meta.segments[i]| > width
    ensures result.Error? ==>
      || (exists i, k :: 0 <= i < |meta.segments| && 0 <= k < |meta.segments[i]| && world.lost(i, k))
      || (exists i :: 0 <= i < |meta.segments| && world.restore(i, Slots(meta.segments, i, width)).None?)
  {
    var segmentspath: seq<Bytes> := [];
    buffers := [];
    var fragmentpaths := new string[width](_ => "");
    for i := 0 to |meta.segments|
      invariant |segmentspath| == i && buffers == segmentspath
      invariant forall k :: 0 <= k < width ==> fragmentpaths[k] == if i == 0 then "" else Slot(meta.segments, i - 1, k)
      invariant forall j :: 0 <= j < i ==>
        && |meta.segments[j]| <= width
        && (forall k :: 0 <= k < |meta.segments[j]| ==> !world.lost(j, k))
        && world.restore(j, Slots(meta.segments, j, width)) == Some(segmentspath[j])
    {
      var row := meta.segments[i];
      for k := 0 to |row|
        invariant k <= width
        invariant forall l :: 0 <= l < k ==> !world.lost(i, l)
        invariant forall s :: 0 <= s < width ==>
          fragmentpaths[s] == if s < k then row[s] else if i == 0 then "" else Slot(meta.segments, i - 1, s)
      {
        if k >= width {
          return Panic, buffers;
        }
        fragmentpaths[k] := row[k];
        if world.lost(i, k) {
          return Error, buffers;
        }
      }
      assert fragmentpaths[..] == Slots(meta.segments, i, width);
      var buffer := world.restore(i, fragmentpaths[..]);
      if buffer.None? {
        return Error, buffers;
      }
      segmentspath := segmentspath + [buffer.value];
      buffers := segmentspath;
    }
    result := WriteSegments(segmentspath, meta.fileSize, segmentSize, world);
  }

  // ----- A file that was cut up the way uploads are -----

  /** Segment i of the zero-padded file. */
  function Segment(data: Bytes, size: nat, i: nat): (segment: Bytes)
    ensures |segment| == size
  {
    var start := Offset(i, size);
    seq(size, k requires 0 <= k < size => if start + k < |data| then data[start + k] else 0)
  }

  /** The fewest segments that hold so many bytes. */
  function SegmentCount(length: nat, size: nat): (n: nat)
    requires 0 < size
    ensures (n == 0 <==> length == 0) && (n > 0 ==> Offset(n - 1, size) < length <= Offset(n, size))
  {
    if length <= size then (if length == 0 then 0 else 1) else SegmentCount(length - size, size) + 1
  }

  function Segments(data: Bytes, size: nat, n: nat): (segments: seq<Bytes>)
    ensures |segments| == n
  {
    seq(n, i requires 0 <= i < n => Segment(data, size, i))
  }

  lemma {:induction false} SegmentIsSlice(data: Bytes, size: nat, i: nat, length: nat)
    requires length <= size && Offset(i, size) + length <= |data|
    ensures Segment(data, size, i)[..length] == data[Offset(i, size)..Offset(i, size) + length]
  {
  }

  lemma {:induction false} OffsetGrows(k: nat, n: nat, size: nat)
    requires k <= n
    ensures Offset(k, size) <= Offset(n, size)
  {
    if k < n {
      OffsetGrows(k, n - 1, size);
    }
  }

  lemma {:induction false} PrefixExtends(data: Bytes, a: nat, b: nat)
    requires a <= b <= |data|
    ensures data[..b] == data[..a] + data[a..b]
  {
  }

  // Buffer i is the i-th full segment of the file.
  ghost predicate IsSlice(buffers: seq<Bytes>, data: Bytes, size: nat, i: nat) {
    i < |buffers| && Offset(i, size) + size <= |data| && buffers[i] == data[Offset(i, size)..Offset(i, size) + size]
  }

  // What is written for the first segments is a prefix of the file.
  lemma {:induction false} PrefixOfFile(buffers: seq<Bytes>, data: Bytes, size: nat, k: nat)
    requires k < |buffers| && SliceFits(buffers, |data|, size) && forall i: nat :: i < k ==>
      IsSlice(buffers, data, size, i)
    ensures Offset(k, size) <= |data| && JoinFirst(buffers, |data|, size, k) == data[..Offset(k, size)]
  {
    if k > 0 {
      PrefixOfFile(buffers, data, size, k - 1);
      assert IsSlice(buffers, data, size, k - 1);
      PrefixExtends(data, Offset(k - 1, size), Offset(k, size));
    }
  }

  lemma {:induction false} FullSegment(data: Bytes, size: nat, n: nat, i: nat)
    requires i + 1 < n && Offset(n - 1, size) <= |data|
    ensures Offset(i, size) + size <= |data|
    ensures Segment(data, size, i) == data[Offset(i, size)..Offset(i, size) + size]
  {
    OffsetGrows(i + 1, n - 1, size);
  }

  lemma {:induction false} SlicesJoin(buffers: seq<Bytes>, data: Bytes, size: nat)
    requires buffers != [] && SliceFits(buffers, |data|, size)
    requires forall i: nat :: i < |buffers| - 1 ==> IsSlice(buffers, data, size, i)
    requires buffers[|buffers| - 1][..Rest(|data|, size, |buffers| - 1)] == data[Offset(|buffers| - 1, size)..]
    ensures JoinFirst(buffers, |data|, size, |buffers|) == data
  {
    var last: nat := |buffers| - 1;
    PrefixOfFile(buffers, data, size, last);
    PrefixExtends(data, Offset(last, size), |data|);
    assert data[..|data|] == data && data[Offset(last, size)..|data|] == data[Offset(last, size)..];
  }

  lemma {:induction false} LastIsRest(data: Bytes, size: nat, last: nat)
    requires Offset(last, size) <= |data| <= Offset(last, size) + size
    ensures Segment(data, size, last)[..|data| - Offset(last, size)] == data[Offset(last, size)..]
  {
    SegmentIsSlice(data, size, last, |data| - Offset(last, size));
  }

  /** Cutting a file into padded segments and taking them together again gives the file, byte for byte. */
  lemma {:induction false} CutAndWriteBack(data: Bytes, size: nat)
    requires 0 < size
    ensures var n := SegmentCount(|data|, size);
      && SliceFits(Segments(data, size, n), |data|, size)
      && JoinFirst(Segments(data, size, n), |data|, size, n) == data
  {
    var n := SegmentCount(|data|, size);
    if n > 0 {
      var buffers := Segments(data, size, n);
      forall i: nat | i < n - 1 ensures IsSlice(buffers, data, size, i) {
        FullSegment(data, size, n, i);
      }
      LastIsRest(data, size, n - 1);
      SlicesJoin(buffers, data, size);
    }
  }

  ghost predicate Faithful(meta: Meta, data: Bytes, width: nat, size: nat, world: World)
    requires 0 < size
  {
    && meta.fileSize == |data| && |meta.segments| == SegmentCount(|data|, size)
    && (forall i :: 0 <= i < |meta.segments| ==> |meta.segments[i]| == width)
    && (forall i :: 0 <= i < |meta.segments| ==>
          var got := world.restore(i, meta.segments[i]);
          got.Some? ==> got.value == Segment(data, size, i))
  }

  /**
   If the rows are full and restoring a segment from its row is exact or fails, a download that gets
   through all segments never slices out of range, and what it returns is the file, byte for byte, if and
   only if no write failed before its end; otherwise it returns a shorter file as a success.
   */
  lemma {:induction false} DownloadIsTheFileIff(
    meta: Meta, data: Bytes, width: nat, size: nat, world: World, buffers: seq<Bytes>)
    requires 0 < size && Faithful(meta, data, width, size, world)
    requires |buffers| == |meta.segments|
    requires forall i :: 0 <= i < |buffers| ==> world.restore(i, Slots(meta.segments, i, width)) == Some(buffers[i])
    ensures SliceFits(buffers, meta.fileSize, size)
    ensures var result := Written(buffers, meta.fileSize, size, world);
      && (result.Exited? <==> exists i: nat :: i < |buffers| && world.unread(i))
      && (!result.Exited? ==> result.Done?)
      && (result.Done? ==> (result.file == data <==> forall i: nat :: !Cut(buffers, meta.fileSize, size, world, i)))
      && (result.Done? && result.file != data ==> |result.file| < |data|)
  {
    forall i | 0 <= i < |buffers| ensures buffers[i] == Segment(data, size, i) {
      FullRowFillsSlots(meta.segments, i, width);
    }
    assert buffers == Segments(data, size, |buffers|);
    CutAndWriteBack(data, size);
    WholeUnlessCut(buffers, meta.fileSize, size, world, |buffers|);
  }
}
