/**
 What the upload handler means: the directory is a partial map from chunk index to chunk, requests
 fill it in any order, and what is delivered is the concatenation in index order.
 */
module ChunkRuns {
  import opened Text
  import opened ChunkUpload

  datatype Upload = Idle | Broken | Active(fileName: string, totalSize: int, got: seq<Option<Bytes>>)

  // ----- The abstract upload -----

  function Joined(got: seq<Option<Bytes>>): Bytes {
    if got == [] then []
    else Joined(got[..|got| - 1]) + if got[|got| - 1].Some? then got[|got| - 1].value else []
  }

  function Missing(got: seq<Option<Bytes>>): nat {
    if got == [] then 0 else Missing(got[..|got| - 1]) + if got[|got| - 1].None? then 1 else 0
  }

  function Got(saved: seq<bool>, files: map<string, Bytes>): (got: seq<Option<Bytes>>)
    ensures |got| == |saved|
  {
    seq(|saved|, i requires 0 <= i < |saved| => if saved[i] then Some(Part(files, i)) else None)
  }

  function Abstract(d: Dir): Upload {
    match d.info
    case Absent => Idle
    case Torn => Broken
    case Stored(info) => Active(info.fileName, info.totalSize, Got(info.savedBlocks, d.files))
  }

  function Swept(u: Upload, r: Request, f: Faults): Upload {
    if r.blockIdx % 7 == 0 && f.expired && u.Active? && !(f.sweepLeft.Some? && f.sweepLeft.value.info) then Idle else u
  }

  /** The upload a request adds to: the one under way, or a new one with the shape its headers give. */
  function Opened(u: Upload, r: Request, f: Faults): (base: Option<Upload>)
    ensures base.Some? ==> base.value.Active?
  {
    if u.Idle? || f.stat then
      if r.blockNum <= 0 || r.totalSize <= 0 || !f.admitted then None
      else Some(Active(r.filename, r.totalSize, seq(r.blockNum, _ => None)))
    else if f.read || u.Broken? then None
    else Some(u)
  }

  ghost predicate Fills(u: Upload, r: Request, f: Faults, got: seq<Option<Bytes>>) {
    var base := Opened(u, r, f);
    && base.Some?
    && 0 <= r.blockIdx < |base.value.got|
    && base.value.got[r.blockIdx].None?
    && got == base.value.got[r.blockIdx := Some(r.data)]
  }

  /** What each reply promises about the upload before and after. */
  ghost predicate Promised(before: Upload, r: Request, f: Faults, reply: Reply, after: Upload) {
    var u := Swept(before, r, f);
    var base := Opened(u, r, f);
    match reply
    case Refused => after == u
    case Failed => after == u || after == Idle || after == Broken
    case AlreadySaved =>
      && after == u
      && base.Some?
      && 0 <= r.blockIdx < |base.value.got|
      && base.value.got[r.blockIdx].Some?
    case Saved(i) =>
      && i == r.blockIdx
      && after.Active?
      && Fills(u, r, f, after.got)
      && after == base.value.(got := after.got)
      && |Joined(after.got)| <= after.totalSize
      && Missing(base.value.got) - 1 == Missing(after.got) >= 1
    case Delivered(file) =>
      && (after == Idle || after == u)
      && base.Some?
      && 0 <= r.blockIdx < |base.value.got|
      && var got := base.value.got[r.blockIdx := Some(r.data)];
      && Fills(u, r, f, got)
      && Missing(got) == 0
      && file == Joined(got)
      && |file| == base.value.totalSize
  }

  // ----- Counting and joining -----

  lemma {:induction false} SetOne(got: seq<Option<Bytes>>, i: nat, data: Bytes)
    requires i < |got| && got[i].None?
    ensures Missing(got[i := Some(data)]) == Missing(got) - 1
    ensures |Joined(got[i := Some(data)])| == |Joined(got)| + |data|
  {
    var last := |got| - 1;
    if i < last {
      SetOne(got[..last], i, data);
      assert got[i := Some(data)][..last] == got[..last][i := Some(data)];
    } else {
      assert got[i := Some(data)][..last] == got[..last];
    }
  }

  lemma {:induction false} NoneMissing(got: seq<Option<Bytes>>, i: nat)
    requires i < |got| && Missing(got) == 0
    ensures got[i].Some?
  {
    if i < |got| - 1 {
      NoneMissing(got[..|got| - 1], i);
    }
  }

  lemma {:induction false} GotCounts(saved: seq<bool>, files: map<string, Bytes>)
    ensures Missing(Got(saved, files)) == |saved| - CountTrue(saved)
    ensures |Joined(Got(saved, files))| == SavedBytes(saved, files)
  {
    if saved != [] {
      var last := |saved| - 1;
      GotCounts(saved[..last], files);
      assert Got(saved, files)[..last] == Got(saved[..last], files);
    }
  }

  lemma {:induction false} GotAfterChunk(saved: seq<bool>, files: map<string, Bytes>, i: nat, data: Bytes)
    requires i < |saved| <= MAX_INT && !saved[i]
    ensures Got(saved[i := true], files[ChunkName(i) := data]) == Got(saved, files)[i := Some(data)]
    ensures Got(saved, files[ChunkName(i) := data]) == Got(saved, files)
  {
    forall j | 0 <= j < |saved| && j != i ensures Part(files[ChunkName(i) := data], j) == Part(files, j) {
      if ChunkName(i) == ChunkName(j) {
        ChunkNameInjective(i, j);
      }
    }
    var got := Got(saved[i := true], files[ChunkName(i) := data]);
    assert forall j :: 0 <= j < |saved| && j != i ==> got[j] == Got(saved, files)[j];
    assert forall j :: 0 <= j < |saved| ==> Got(saved, files[ChunkName(i) := data])[j] == Got(saved, files)[j];
  }

  // ----- The combined file -----

  function Whole(files: map<string, Bytes>, n: nat): Bytes {
    if n == 0 then [] else Whole(files, n - 1) + Part(files, n - 1)
  }

  lemma {:induction false} WholePrefix(files: map<string, Bytes>, k: nat, n: nat)
    requires k <= n
    ensures |Whole(files, k)| <= |Whole(files, n)|
  {
    if k < n {
      WholePrefix(files, k, n - 1);
    }
  }

  lemma {:induction false} WholeIsJoined(saved: seq<bool>, files: map<string, Bytes>)
    requires forall i :: 0 <= i < |saved| ==> saved[i]
    ensures Whole(files, |saved|) == Joined(Got(saved, files))
  {
    if saved != [] {
      var last := |saved| - 1;
      WholeIsJoined(saved[..last], files);
      assert Got(saved, files)[..last] == Got(saved[..last], files);
    }
  }

  ghost predicate AllPresent(files: map<string, Bytes>, n: nat) {
    forall i: nat :: i < n ==> ChunkName(i) in files
  }

  ghost predicate Unshadowed(filename: string, n: nat) {
    forall i: nat :: i < n ==> !Shadows(filename, i)
  }

  lemma {:induction false} PlainEntry(files: map<string, Bytes>, filename: string, i: nat)
    requires i <= MAX_INT && ChunkName(i) in files && !Shadows(filename, i)
    ensures ChunkName(i) != filename
    ensures EntryFor(files[filename := []], filename, i) == Some(ChunkName(i))
  {
    EntryIndexOfChunkName(i);
    LessTotal(filename, ChunkName(i));
  }

  // A chunk the name does not hide is added to what there is.
  lemma {:induction false} PlainStep(files: map<string, Bytes>, filename: string, n: nat)
    requires n < MAX_INT && ChunkName(n) in files && !Shadows(filename, n)
    ensures var before := Assemble(files[filename := []], filename, n);
      Assemble(files[filename := []], filename, n + 1) ==
        if before.None? then None else Some(before.value + Part(files, n))
  {
    PlainEntry(files, filename, n);
  }

  // The hidden chunk is replaced by the combined file itself.
  lemma {:induction false} HiddenStep(files: map<string, Bytes>, filename: string, n: nat)
    requires Shadows(filename, n)
    ensures var before := Assemble(files[filename := []], filename, n);
      Assemble(files[filename := []], filename, n + 1) ==
        if before == Some([]) then Some([]) else None
  {
  }

  lemma {:induction false} AssembleUnshadowed(files: map<string, Bytes>, filename: string, n: nat)
    requires n <= MAX_INT && AllPresent(files, n) && Unshadowed(filename, n)
    ensures Assemble(files[filename := []], filename, n) == Some(Whole(files, n))
  {
    if n > 0 {
      AssembleUnshadowed(files, filename, n - 1);
      PlainStep(files, filename, n - 1);
    }
  }

  // A name stands for at most one chunk.
  lemma {:induction false} OneShadow(filename: string, k: nat)
    requires Shadows(filename, k)
    ensures Unshadowed(filename, k) && forall j: nat :: Shadows(filename, j) <==> j == k
  {
  }

  // One chunk is hidden behind the combined file: the rest still follows, the hidden one does not.
  ghost predicate WithoutHidden(result: Option<Bytes>, files: map<string, Bytes>, n: nat, k: nat) {
    if Whole(files, k) != [] then result == None
    else result.Some? && |result.value| == |Whole(files, n)| - |Part(files, k)| &&
         (Part(files, k) == [] ==> result.value == Whole(files, n))
  }

  lemma {:induction false} HiddenFirst(files: map<string, Bytes>, filename: string, k: nat)
    requires k < MAX_INT && AllPresent(files, k + 1) && Shadows(filename, k)
    ensures WithoutHidden(Assemble(files[filename := []], filename, k + 1), files, k + 1, k)
  {
    OneShadow(filename, k);
    AssembleUnshadowed(files, filename, k);
    HiddenStep(files, filename, k);
    assert Whole(files, k + 1) == Whole(files, k) + Part(files, k);
  }

  lemma {:induction false} HiddenNext(before: Option<Bytes>, files: map<string, Bytes>, n: nat, k: nat)
    requires WithoutHidden(before, files, n, k)
    ensures WithoutHidden(if before.None? then None else Some(before.value + Part(files, n)), files, n + 1, k)
  {
    assert Whole(files, n + 1) == Whole(files, n) + Part(files, n);
  }

  lemma {:induction false} AssembleShadowed(files: map<string, Bytes>, filename: string, n: nat, k: nat)
    requires k < n <= MAX_INT && AllPresent(files, n) && Shadows(filename, k)
    ensures WithoutHidden(Assemble(files[filename := []], filename, n), files, n, k)
  {
    if n - 1 == k {
      HiddenFirst(files, filename, k);
    } else {
      OneShadow(filename, k);
      AssembleShadowed(files, filename, n - 1, k);
      HiddenNext(Assemble(files[filename := []], filename, n - 1), files, n - 1, k);
      PlainStep(files, filename, n - 1);
    }
  }

  /** The name of the file can spoil the result only by standing for a chunk, and then exactly so. */
  lemma {:induction false} AssembleExact(files: map<string, Bytes>, filename: string, n: nat)
    requires n <= MAX_INT && AllPresent(files, n)
    ensures Assemble(files[filename := []], filename, n) == Some(Whole(files, n)) <==>
      forall k: nat :: k < n && Shadows(filename, k) ==> Whole(files, k + 1) == []
    ensures Assemble(files[filename := []], filename, n).Some? ==>
      var file := Assemble(files[filename := []], filename, n).value;
      file == Whole(files, n) || |file| < |Whole(files, n)|
  {
    if Unshadowed(filename, n) {
      AssembleUnshadowed(files, filename, n);
    } else {
      var k: nat :| k < n && Shadows(filename, k);
      AssembleShadowed(files, filename, n, k);
      OneShadow(filename, k);
      assert Whole(files, k + 1) == Whole(files, k) + Part(files, k);
      WholePrefix(files, k + 1, n);
    }
  }

  // ----- One request -----

  lemma {:induction false} FreshIsValid(r: Request, files: map<string, Bytes>)
    requires 0 < r.blockNum && 0 < r.totalSize
    ensures Consistent(Fresh(r)) && Backed(Fresh(r), files)
    ensures Got(Fresh(r).savedBlocks, files) == seq(r.blockNum, _ => None)
  {
    CountTrueFresh(r.blockNum);
    SavedBytesFresh(r.blockNum, files);
  }

  /** When one chunk is left and it arrives, all chunk files are there and join to the whole file. */
  lemma {:induction false} LastChunkCompletes(info: ChunksInfo, files: map<string, Bytes>, i: nat, data: Bytes)
    requires Consistent(info) && Backed(info, files)
    requires i < info.blockNum && !info.savedBlocks[i] && info.blockNum == info.finished + 1
    ensures var there := files[ChunkName(i) := data];
      && AllPresent(there, info.blockNum)
      && Whole(there, info.blockNum) == Joined(Got(info.savedBlocks, files)[i := Some(data)])
      && |Whole(there, info.blockNum)| == info.savedFileSize + |data|
  {
    var there := files[ChunkName(i) := data];
    var saved := info.savedBlocks[i := true];
    forall j: nat | j < info.blockNum ensures saved[j] && ChunkName(j) in there {
      if j != i {
        Pigeonhole(info.savedBlocks, i, j);
      }
    }
    GotAfterChunk(info.savedBlocks, files, i, data);
    WholeIsJoined(saved, there);
    SetOne(Got(info.savedBlocks, files), i, data);
    GotCounts(info.savedBlocks, files);
  }

  /** Serialized, the request that brings the last chunk finds an entry for every index, whatever the file is called. */
  lemma {:induction false} NoChunkIsMissing(d: Dir, r: Request, f: Faults, filename: string, i: nat)
    requires Valid(d) && Readable(d, f) && Load(d.info, r, f).Some?
    requires var info := Load(d.info, r, f).value;
      && 0 <= r.blockIdx < info.blockNum && !info.savedBlocks[r.blockIdx]
      && info.blockNum == info.finished + 1 && i < info.blockNum
    ensures EntryFor(d.files[ChunkName(r.blockIdx) := r.data][filename := []], filename, i).Some?
  {
    LoadIsOpened(d, r, f);
    LastChunkCompletes(Load(d.info, r, f).value, d.files, r.blockIdx, r.data);
  }

  lemma {:induction false} SavedChunkStays(info: ChunksInfo, files: map<string, Bytes>, i: nat, data: Bytes)
    requires Consistent(info) && Backed(info, files)
    requires i < info.blockNum && !info.savedBlocks[i]
    requires |data| + info.savedFileSize <= info.totalSize
    ensures Backed(info, files[ChunkName(i) := data])
    ensures info.blockNum != info.finished + 1 ==>
      var info' := info.(savedFileSize := info.savedFileSize + |data|,
                         savedBlocks := info.savedBlocks[i := true],
                         finished := info.finished + 1);
      Consistent(info') && Backed(info', files[ChunkName(i) := data])
  {
    CountTrueSet(info.savedBlocks, i);
    SavedBytesFrame(info.savedBlocks, files, i, data);
    SavedBytesSet(info.savedBlocks, files[ChunkName(i) := data], i);
  }

  /** The record on disk is misread only if the existence test of chunk-info fails. */
  ghost predicate Readable(d: Dir, f: Faults) {
    f.stat ==> !d.info.Stored?
  }

  // ----- Removals that stop half way -----

  /** If chunk-info is left, so is every chunk it records, as it was. */
  ghost predicate LeavesWhole(d: Dir, filename: string, left: Option<Leftover>) {
    left.Some? && left.value.info && d.info.Stored? ==>
      forall i: nat :: i < |d.info.info.savedBlocks| && d.info.info.savedBlocks[i] ==>
        ChunkName(i) in left.value.names && ChunkName(i) != filename
  }

  lemma {:induction false} SavedBytesSame(saved: seq<bool>, files: map<string, Bytes>, other: map<string, Bytes>)
    requires forall i: nat :: i < |saved| && saved[i] ==> Part(files, i) == Part(other, i)
    ensures SavedBytes(saved, files) == SavedBytes(saved, other)
  {
    if saved != [] {
      SavedBytesSame(saved[..|saved| - 1], files, other);
    }
  }

  /** The chunks that `info` records are the same in both directories. */
  ghost predicate SameChunks(info: InfoFile, filename: string, files: map<string, Bytes>, other: map<string, Bytes>) {
    info.Stored? ==>
      forall i: nat :: i < |info.info.savedBlocks| && info.info.savedBlocks[i] ==>
        ChunkName(i) != filename && ChunkName(i) in files ==>
          ChunkName(i) in other && other[ChunkName(i)] == files[ChunkName(i)]
  }

  // What is left of a directory in which a request has written, when every recorded chunk is.
  lemma {:induction false} LeftWhole(d: Dir, filename: string, files: map<string, Bytes>, left: Option<Leftover>)
    requires Valid(d) && LeavesWhole(d, filename, left) && SameChunks(d.info, filename, d.files, files)
    requires forall name :: name in files ==> IsChunkName(name)
    ensures Valid(Remains(Dir(d.info, files), left))
    ensures Abstract(Remains(Dir(d.info, files), left)) == if left.Some? && left.value.info then Abstract(d) else Idle
  {
    if left.Some? && left.value.info && d.info.Stored? {
      var info, there := d.info.info, Remains(Dir(d.info, files), left).files;
      forall i: nat | i < |info.savedBlocks| && info.savedBlocks[i]
        ensures ChunkName(i) in there && there[ChunkName(i)] == d.files[ChunkName(i)]
      {
        assert ChunkName(i) in d.files;
      }
      SavedBytesSame(info.savedBlocks, d.files, there);
      assert Got(info.savedBlocks, there) == Got(info.savedBlocks, d.files);
    }
  }

  /** What a removal leaves of a consistent upload is consistent exactly if chunk-info went or no recorded chunk did. */
  lemma {:induction false} RemainingValidIff(d: Dir, left: Option<Leftover>)
    requires Valid(d)
    ensures Valid(Remains(d, left)) <==> LeavesWhole(d, "", left)
  {
    if LeavesWhole(d, "", left) {
      LeftWhole(d, "", d.files, left);
    }
  }

  /** What accepting a chunk may do to the upload that `info` records. */
  ghost predicate Accepted(d: Dir, info: ChunksInfo, r: Request, f: Faults, d': Dir, reply: Reply)
    requires 0 <= r.blockIdx < |info.savedBlocks|
  {
    var got := Got(info.savedBlocks, d.files)[r.blockIdx := Some(r.data)];
    && Valid(d')
    && match reply
       case Failed =>
         if f.partial.Some? then Abstract(d') == Abstract(d)
         else if Missing(got) == 0 then Abstract(d') == if f.left.Some? && f.left.value.info then Abstract(d) else Idle
         else if f.record.Kept? then Abstract(d') == Abstract(d)
         else f.record.Ripped? && Abstract(d') == Broken
       case Saved(i) =>
         && i == r.blockIdx
         && Abstract(d') == Active(info.fileName, info.totalSize, got)
         && |Joined(got)| <= info.totalSize
         && Missing(got) >= 1
       case Delivered(file) =>
         && (Abstract(d') == Idle || Abstract(d') == Abstract(d))
         && Missing(got) == 0
         && file == Joined(got)
         && |file| == info.totalSize
       case _ => false
  }

  lemma {:induction false} CombineRefines(d: Dir, info: ChunksInfo, r: Request, f: Faults, d': Dir)
    requires Consistent(info) && Backed(info, d.files)
    requires Valid(d') && Abstract(d') == (if f.left.Some? && f.left.value.info then Abstract(d) else Idle)
    requires f.partial.None? && 0 <= r.blockIdx < info.blockNum && !info.savedBlocks[r.blockIdx]
    requires |r.data| + info.savedFileSize <= info.totalSize && info.blockNum == info.finished + 1
    ensures Accepted(d, info, r, f, d', Combine(d.files[ChunkName(r.blockIdx) := r.data], r.filename, info, f))
  {
    var there := d.files[ChunkName(r.blockIdx) := r.data];
    var got := Got(info.savedBlocks, d.files);
    SetOne(got, r.blockIdx, r.data);
    GotCounts(info.savedBlocks, d.files);
    LastChunkCompletes(info, d.files, r.blockIdx, r.data);
    AssembleExact(there, r.filename, info.blockNum);
    var reply := Combine(there, r.filename, info, f);
    if reply.Delivered? {
      assert Assemble(there[r.filename := []], r.filename, info.blockNum) == Some(reply.file);
      assert reply.file == Whole(there, info.blockNum);
    }
  }

  // A chunk that is not the last leaves one missing.
  lemma {:induction false} StillMissing(info: ChunksInfo, files: map<string, Bytes>, i: nat, data: Bytes)
    requires Consistent(info) && Backed(info, files)
    requires i < info.blockNum && !info.savedBlocks[i] && info.blockNum != info.finished + 1
    ensures var got := Got(info.savedBlocks, files)[i := Some(data)];
      Missing(got) >= 1 && |Joined(got)| == info.savedFileSize + |data|
  {
    SetOne(Got(info.savedBlocks, files), i, data);
    GotCounts(info.savedBlocks, files);
  }

  lemma {:induction false} SaveRefines(d: Dir, info: ChunksInfo, r: Request, f: Faults)
    requires Valid(d) && Consistent(info) && Backed(info, d.files)
    requires d.info.Stored? ==> d.info.info == info
    requires 0 <= r.blockIdx < info.blockNum && !info.savedBlocks[r.blockIdx]
    requires |r.data| + info.savedFileSize <= info.totalSize && info.blockNum != info.finished + 1
    requires f.partial.None?
    ensures Accepted(d, info, r, f, Accept(d, info, r, f).0, Accept(d, info, r, f).1)
  {
    KeepsOldRecord(d, r.blockIdx, r.data);
    StillMissing(info, d.files, r.blockIdx, r.data);
    if f.record.Written? {
      GotAfterChunk(info.savedBlocks, d.files, r.blockIdx, r.data);
      SavedChunkStays(info, d.files, r.blockIdx, r.data);
    }
  }

  // The directory after the last chunk was combined and removed as far as it goes.
  lemma {:induction false} CombineLeaves(d: Dir, info: ChunksInfo, r: Request, f: Faults)
    requires Valid(d) && Consistent(info) && (d.info.Stored? ==> d.info.info == info) &&
      LeavesWhole(d, r.filename, f.left)
    requires 0 <= r.blockIdx < info.blockNum && !info.savedBlocks[r.blockIdx]
    requires info.blockNum == info.finished + 1 && f.partial.None?
    ensures var d' := Accept(d, info, r, f).0;
      Valid(d') && Abstract(d') == if f.left.Some? && f.left.value.info then Abstract(d) else Idle
  {
    var files := d.files[ChunkName(r.blockIdx) := r.data];
    var reply := Combine(files, r.filename, info, f);
    var there := Combined(files, r.filename, reply, f);
    assert IsChunkName(ChunkName(r.blockIdx));
    if d.info.Stored? {
      forall i: nat | i < |info.savedBlocks| && info.savedBlocks[i] ensures ChunkName(i) != ChunkName(r.blockIdx) {
        if ChunkName(i) == ChunkName(r.blockIdx) {
          ChunkNameInjective(i, r.blockIdx);
        }
      }
    }
    LeftWhole(d, r.filename, there, f.left);
  }

  lemma {:induction false} AcceptRefines(d: Dir, info: ChunksInfo, r: Request, f: Faults)
    requires Valid(d) && Consistent(info) && Backed(info, d.files)
    requires d.info.Stored? ==> d.info.info == info
    requires 0 <= r.blockIdx < info.blockNum && !info.savedBlocks[r.blockIdx]
    requires |r.data| + info.savedFileSize <= info.totalSize && LeavesWhole(d, r.filename, f.left)
    ensures Accepted(d, info, r, f, Accept(d, info, r, f).0, Accept(d, info, r, f).1)
  {
    if f.partial.Some? {
      KeepsOldRecord(d, r.blockIdx, f.partial.value);
    } else if info.blockNum == info.finished + 1 {
      CombineLeaves(d, info, r, f);
      CombineRefines(d, info, r, f, Accept(d, info, r, f).0);
    } else {
      SaveRefines(d, info, r, f);
    }
  }

  lemma {:induction false} KeepsOldRecord(d: Dir, i: nat, data: Bytes)
    requires Valid(d) && i <= MAX_INT
    requires d.info.Stored? ==> i < d.info.info.blockNum && !d.info.info.savedBlocks[i]
    ensures Valid(d.(files := d.files[ChunkName(i) := data]))
    ensures Abstract(d.(files := d.files[ChunkName(i) := data])) == Abstract(d)
  {
    if d.info.Stored? {
      SavedBytesFrame(d.info.info.savedBlocks, d.files, i, data);
      GotAfterChunk(d.info.info.savedBlocks, d.files, i, data);
    }
  }

  // The record the handler loads is the upload the request adds to.
  lemma {:induction false} LoadIsOpened(here: Dir, r: Request, f: Faults)
    requires Valid(here) && Readable(here, f)
    ensures var loaded := Load(here.info, r, f);
      if loaded.None? then Opened(Abstract(here), r, f) == None
      else
        var info := loaded.value;
        && Consistent(info) && Backed(info, here.files) && (here.info.Stored? ==> here.info.info == info)
        && Opened(Abstract(here), r, f) ==
          Some(Active(info.fileName, info.totalSize, Got(info.savedBlocks, here.files)))
  {
    if 0 < r.blockNum && 0 < r.totalSize {
      FreshIsValid(r, here.files);
    }
  }

  lemma {:induction false} AcceptKeepsPromise(before: Upload, here: Dir, info: ChunksInfo, r: Request, f: Faults)
    requires Valid(here) && Consistent(info) && Backed(info, here.files)
    requires here.info.Stored? ==> here.info.info == info
    requires 0 <= r.blockIdx < info.blockNum && !info.savedBlocks[r.blockIdx]
    requires |r.data| + info.savedFileSize <= info.totalSize && LeavesWhole(here, r.filename, f.left)
    requires Abstract(here) == Swept(before, r, f)
    requires Opened(Abstract(here), r, f) ==
      Some(Active(info.fileName, info.totalSize, Got(info.savedBlocks, here.files)))
    ensures Valid(Accept(here, info, r, f).0)
    ensures Promised(before, r, f, Accept(here, info, r, f).1, Abstract(Accept(here, info, r, f).0))
  {
    AcceptRefines(here, info, r, f);
    SetOne(Got(info.savedBlocks, here.files), r.blockIdx, r.data);
  }

  /** No removal in this request leaves chunk-info without a chunk that it records. */
  ghost predicate Tidied(d: Dir, r: Request, f: Faults) {
    LeavesWhole(d, "", f.sweepLeft) && LeavesWhole(ChunkUpload.Swept(d, r, f), r.filename, f.left)
  }

  lemma {:induction false} SweepRefines(d: Dir, r: Request, f: Faults)
    requires Valid(d) && LeavesWhole(d, "", f.sweepLeft)
    ensures Valid(ChunkUpload.Swept(d, r, f))
    ensures Abstract(ChunkUpload.Swept(d, r, f)) == Swept(Abstract(d), r, f)
  {
    LeftWhole(d, "", d.files, f.sweepLeft);
  }

  // Every request keeps the directory consistent and does to the upload what its reply says.
  lemma {:induction false} StepPromises(d: Dir, r: Request, f: Faults)
    requires Valid(d) && Readable(d, f) && Tidied(d, r, f)
    ensures Valid(Step(d, r, f).0)
    ensures Promised(Abstract(d), r, f, Step(d, r, f).1, Abstract(Step(d, r, f).0))
  {
    var here := ChunkUpload.Swept(d, r, f);
    SweepRefines(d, r, f);
    LoadIsOpened(here, r, f);
    var loaded := Load(here.info, r, f);
    if loaded.Some? {
      var info := loaded.value;
      if 0 <= r.blockIdx < info.blockNum && !info.savedBlocks[r.blockIdx] &&
        |r.data| + info.savedFileSize <= info.totalSize {
        AcceptKeepsPromise(Abstract(d), here, info, r, f);
      }
    }
  }

  /** Nothing stands between the request and the writing of its chunk. */
  ghost predicate Reaches(u: Upload, r: Request, f: Faults) {
    var base := Opened(u, r, f);
    && !(r.blockIdx % 7 == 0 && f.tooMany) && !f.mkdir && !f.form && !f.create
    && base.Some? && 0 <= r.blockIdx < |base.value.got| && base.value.got[r.blockIdx].None?
    && |Joined(base.value.got)| + |r.data| <= base.value.totalSize && |base.value.fileName| <= 63
  }

  /**
   What becomes of the upload: it gains the chunk if that is recorded, it ends if this was the last chunk, it breaks
   if the record is torn, and otherwise nothing changes, whatever fails.
   */
  ghost function Outcome(u: Upload, r: Request, f: Faults): Upload {
    if !Reaches(u, r, f) || f.partial.Some? then u
    else
      var base := Opened(u, r, f).value;
      if Missing(base.got) == 1 then (if f.left.Some? && f.left.value.info then u else Idle)
      else match f.record
        case Written => base.(got := base.got[r.blockIdx := Some(r.data)])
        case Kept => u
        case Ripped => Broken
  }

  /** Which answer the request gets. */
  ghost predicate Answered(u: Upload, r: Request, f: Faults, reply: Reply) {
    var base := Opened(u, r, f);
    var barred := r.blockIdx % 7 == 0 && f.tooMany;
    var inside := !barred && !f.mkdir && base.Some? && 0 <= r.blockIdx < |base.value.got|;
    && (reply.Refused? <==>
          || barred
          || (!f.mkdir && base.None? && (u.Idle? || f.stat))
          || (!f.mkdir && base.Some? && !inside)
          || (inside && base.value.got[r.blockIdx].None? && !f.form &&
              (|Joined(base.value.got)| + |r.data| > base.value.totalSize || |base.value.fileName| > 63)))
    && (reply.AlreadySaved? <==> inside && base.value.got[r.blockIdx].Some?)
    && (reply.Saved? <==>
          Reaches(u, r, f) && f.partial.None? && Missing(base.value.got) > 1 && f.record.Written?)
    && (reply.Delivered? ==> Reaches(u, r, f) && f.partial.None? && Missing(base.value.got) == 1)
  }

  // A request that loads nothing is refused, or fails.
  lemma {:induction false} LoadsNothing(d: Dir, here: Dir, r: Request, f: Faults)
    requires WellFormed(d) && here == ChunkUpload.Swept(d, r, f) && Valid(here) && Readable(here, f)
    requires Opened(Abstract(here), r, f).None?
    ensures Answered(Abstract(here), r, f, Step(d, r, f).1) && Step(d, r, f).0 == here
  {
    LoadIsOpened(here, r, f);
  }

  // A request that does not reach the writing of its chunk changes nothing.
  lemma {:induction false} StopsShort(d: Dir, here: Dir, r: Request, f: Faults)
    requires WellFormed(d) && here == ChunkUpload.Swept(d, r, f) && Valid(here) && Readable(here, f)
    requires !Reaches(Abstract(here), r, f)
    ensures Answered(Abstract(here), r, f, Step(d, r, f).1) && Step(d, r, f).0 == here
  {
    LoadIsOpened(here, r, f);
    if Load(here.info, r, f).None? {
      LoadsNothing(d, here, r, f);
    } else {
      GotCounts(Load(here.info, r, f).value.savedBlocks, here.files);
    }
  }

  // One that reaches it ends as accepting the chunk does.
  lemma {:induction false} GetsThrough(d: Dir, here: Dir, r: Request, f: Faults)
    requires WellFormed(d) && here == ChunkUpload.Swept(d, r, f) && Valid(here) && Readable(here, f)
    requires Reaches(Abstract(here), r, f)
    ensures Load(here.info, r, f).Some?
    ensures var info := Load(here.info, r, f).value;
      && Consistent(info) && Backed(info, here.files) && (here.info.Stored? ==> here.info.info == info)
      && 0 <= r.blockIdx < info.blockNum && !info.savedBlocks[r.blockIdx]
      && |r.data| + info.savedFileSize <= info.totalSize
      && Opened(Abstract(here), r, f) ==
        Some(Active(info.fileName, info.totalSize, Got(info.savedBlocks, here.files)))
      && Step(d, r, f) == Accept(here, info, r, f)
  {
    LoadIsOpened(here, r, f);
    GotCounts(Load(here.info, r, f).value.savedBlocks, here.files);
  }

  // How accepting a chunk ends.
  lemma {:induction false} AcceptEnds(here: Dir, info: ChunksInfo, r: Request, f: Faults)
    requires Valid(here) && Consistent(info) && Backed(info, here.files)
    requires here.info.Stored? ==> here.info.info == info
    requires 0 <= r.blockIdx < info.blockNum && !info.savedBlocks[r.blockIdx]
    requires |r.data| + info.savedFileSize <= info.totalSize && LeavesWhole(here, r.filename, f.left)
    requires Opened(Abstract(here), r, f) ==
      Some(Active(info.fileName, info.totalSize, Got(info.savedBlocks, here.files)))
    requires Reaches(Abstract(here), r, f)
    ensures Valid(Accept(here, info, r, f).0)
    ensures Abstract(Accept(here, info, r, f).0) == Outcome(Abstract(here), r, f)
    ensures Answered(Abstract(here), r, f, Accept(here, info, r, f).1)
  {
    AcceptRefines(here, info, r, f);
    var got := Got(info.savedBlocks, here.files);
    SetOne(got, r.blockIdx, r.data);
    GotCounts(info.savedBlocks, here.files);
    if f.partial.None? && Missing(got) == 1 {
      CombineLeaves(here, info, r, f);
    }
  }

  /**
   Every request keeps the directory consistent, and exactly what it is answered and what becomes of the upload
   follows from what the upload was: no failure and no refusal costs it a chunk, unless the last one is combined or
   the record is torn.
   */
  lemma {:induction false} StepRefines(d: Dir, r: Request, f: Faults)
    requires Valid(d) && Readable(d, f) && Tidied(d, r, f)
    ensures Valid(Step(d, r, f).0)
    ensures Promised(Abstract(d), r, f, Step(d, r, f).1, Abstract(Step(d, r, f).0))
    ensures var u := Swept(Abstract(d), r, f);
      Abstract(Step(d, r, f).0) == Outcome(u, r, f) && Answered(u, r, f, Step(d, r, f).1)
  {
    StepPromises(d, r, f);
    var here := ChunkUpload.Swept(d, r, f);
    SweepRefines(d, r, f);
    if Reaches(Abstract(here), r, f) {
      GetsThrough(d, here, r, f);
      AcceptEnds(here, Load(here.info, r, f).value, r, f);
    } else {
      StopsShort(d, here, r, f);
    }
  }

  /** What the request is answered does not depend on how the removal at its end goes. */
  lemma {:induction false} ReplyIgnoresLeft(d: Dir, r: Request, f: Faults)
    requires WellFormed(d)
    ensures Step(d, r, f).1 == Step(d, r, f.(left := None)).1
  {
    var here := ChunkUpload.Swept(d, r, f);
    var g := f.(left := None);
    assert Load(here.info, r, f) == Load(here.info, r, g);
    if Load(here.info, r, f).Some? {
      var info := Load(here.info, r, f).value;
      assert forall files :: Combine(files, r.filename, info, f) == Combine(files, r.filename, info, g);
    }
  }

  /** The last request of a run: the record can be seen, and a sweep before it leaves the upload whole. */
  ghost predicate Starts(d: Dir, f: Faults) {
    !f.stat && LeavesWhole(d, "", f.sweepLeft)
  }

  lemma {:induction false} DeliveredMeans(d: Dir, r: Request, f: Faults, file: Bytes)
    requires Valid(d) && Starts(d, f) && Step(d, r, f).1 == Delivered(file)
    ensures exists after :: Promised(Abstract(d), r, f, Delivered(file), after)
  {
    var g := f.(left := None);
    ReplyIgnoresLeft(d, r, f);
    StepPromises(d, r, g);
    assert Promised(Abstract(d), r, f, Delivered(file), Abstract(Step(d, r, g).0));
  }

  /** What a request needs to write other bytes over the recorded chunk i and then not record them. */
  predicate WritesOver(d: Dir, r: Request, f: Faults, i: nat) {
    && f.stat && f.admitted && !f.mkdir && !f.form && !f.create && !(r.blockIdx % 7 == 0 && f.tooMany)
    && 0 < r.blockNum && 0 < r.totalSize && i == r.blockIdx < r.blockNum
    && |r.data| <= r.totalSize && |r.filename| <= MAX_NAME_LENGTH
    && (match f.partial
        case Some(some) => some != Part(d.files, i)
        case None => r.blockNum != 1 && r.data != Part(d.files, i))
  }

  /** The request gets as far as combining. */
  predicate Combines(here: Dir, r: Request, f: Faults)
    requires WellFormed(here)
  {
    && !(r.blockIdx % 7 == 0 && f.tooMany) && !f.mkdir && !f.form && !f.create && f.partial.None?
    && Load(here.info, r, f).Some?
    && var info := Load(here.info, r, f).value;
    && 0 <= r.blockIdx < info.blockNum == |info.savedBlocks| && !info.savedBlocks[r.blockIdx]
    && |r.data| + info.savedFileSize <= info.totalSize && |info.fileName| <= MAX_NAME_LENGTH
    && info.blockNum == info.finished + 1
  }

  /** The removal after combining did not leave chunk i as it was. */
  predicate TakesAway(here: Dir, r: Request, f: Faults, i: nat)
    requires WellFormed(here)
  {
    && Combines(here, r, f) && f.left.Some?
    && var files := here.files[ChunkName(r.blockIdx) := r.data];
    && var there := Combined(files, r.filename, Combine(files, r.filename, Load(here.info, r, f).value, f), f);
    && (if ChunkName(i) in f.left.value.names then Part(there, i) else []) != Part(here.files, i)
  }

  /**
   First write wins as long as chunk-info can be seen and removed: once old uploads are swept, and under an
   unchanged record, a recorded chunk changes exactly when the existence test failed and the chunk was written
   anew, or when the upload was combined and its removal left chunk-info but not the chunk.
   */
  lemma {:induction false} RecordedChunkChangesIff(d: Dir, r: Request, f: Faults, i: nat)
    requires WellFormed(d) && Valid(ChunkUpload.Swept(d, r, f))
    requires var here := ChunkUpload.Swept(d, r, f);
      && here.info.Stored? && i < here.info.info.blockNum && here.info.info.savedBlocks[i]
      && Step(d, r, f).0.info == here.info && !Step(d, r, f).1.Saved?
    ensures var here := ChunkUpload.Swept(d, r, f);
      Part(Step(d, r, f).0.files, i) != Part(here.files, i) <==> WritesOver(here, r, f, i) || TakesAway(here, r, f, i)
  {
    if 0 <= r.blockIdx <= MAX_INT && ChunkName(r.blockIdx) == ChunkName(i) {
      ChunkNameInjective(r.blockIdx, i);
    }
  }

  lemma {:induction false} CombineDeliversIff(files: map<string, Bytes>, filename: string, info: ChunksInfo, f: Faults)
    requires 0 < info.blockNum && AllPresent(files, info.blockNum) && |Whole(files, info.blockNum)| <= info.totalSize
    ensures Combine(files, filename, info, f).Delivered? <==>
      && |Whole(files, info.blockNum)| == info.totalSize
      && !f.output && filename != "" && !(f.unreadable.Some? && 0 <= f.unreadable.value < info.blockNum)
      && forall k: nat :: k < info.blockNum && Shadows(filename, k) ==> Whole(files, k + 1) == []
  {
    AssembleExact(files, filename, info.blockNum);
  }

  lemma {:induction false} CombinesStep(d: Dir, r: Request, f: Faults)
    requires WellFormed(d) && WellFormed(ChunkUpload.Swept(d, r, f)) && Combines(ChunkUpload.Swept(d, r, f), r, f)
    ensures var here := ChunkUpload.Swept(d, r, f);
      Step(d, r, f) == Accept(here, Load(here.info, r, f).value, r, f)
  {
  }

  /** The last chunk is delivered exactly when nothing fails, the sizes add up, and the name is harmless. */
  lemma {:induction false} LastChunkDeliveredIff(d: Dir, r: Request, f: Faults)
    requires WellFormed(d) && Valid(ChunkUpload.Swept(d, r, f)) && Readable(ChunkUpload.Swept(d, r, f), f)
    requires Combines(ChunkUpload.Swept(d, r, f), r, f)
    ensures var here := ChunkUpload.Swept(d, r, f);
      var info := Load(here.info, r, f).value;
      var there := here.files[ChunkName(r.blockIdx) := r.data];
      && (f.left.None? ==> Step(d, r, f).0 == EMPTY)
      && (Step(d, r, f).1.Delivered? <==>
           && info.savedFileSize + |r.data| == info.totalSize
           && !f.output && r.filename != "" && !(f.unreadable.Some? && 0 <= f.unreadable.value < info.blockNum)
           && forall k: nat :: k < info.blockNum && Shadows(r.filename, k) ==> Whole(there, k + 1) == [])
  {
    var here := ChunkUpload.Swept(d, r, f);
    LoadIsOpened(here, r, f);
    CombinesStep(d, r, f);
    var info := Load(here.info, r, f).value;
    LastChunkCompletes(info, here.files, r.blockIdx, r.data);
    CombineDeliversIff(here.files[ChunkName(r.blockIdx) := r.data], r.filename, info, f);
  }

  // ----- Runs -----

  type Run = seq<(Request, Faults)>

  lemma {:induction false} AcceptWellFormed(d: Dir, info: ChunksInfo, r: Request, f: Faults)
    requires WellFormed(d) && Consistent(info)
    requires 0 <= r.blockIdx < info.blockNum && !info.savedBlocks[r.blockIdx]
    requires |r.data| + info.savedFileSize <= info.totalSize
    ensures WellFormed(Accept(d, info, r, f).0)
  {
    CountTrueSet(info.savedBlocks, r.blockIdx);
    assert IsChunkName(ChunkName(r.blockIdx));
  }

  lemma {:induction false} StepWellFormed(d: Dir, r: Request, f: Faults)
    requires WellFormed(d)
    ensures WellFormed(Step(d, r, f).0)
  {
    var here := ChunkUpload.Swept(d, r, f);
    var loaded := Load(here.info, r, f);
    if loaded.Some? {
      if here.info.Absent? || f.stat {
        FreshIsValid(r, here.files);
      }
      var info := loaded.value;
      if 0 <= r.blockIdx < info.blockNum && !info.savedBlocks[r.blockIdx] &&
        |r.data| + info.savedFileSize <= info.totalSize {
        AcceptWellFormed(here, info, r, f);
      }
    }
  }

  /** A new upload directory, and one request after the other. */
  function Serve(run: Run): (result: (Dir, seq<Reply>))
    ensures WellFormed(result.0) && |result.1| == |run|
  {
    if run == [] then (EMPTY, [])
    else
      var (d, replies) := Serve(run[..|run| - 1]);
      var (r, f) := run[|run| - 1];
      StepWellFormed(d, r, f);
      (Step(d, r, f).0, replies + [Step(d, r, f).1])
  }

  /** The existence test of chunk-info never fails. */
  ghost predicate Sighted(run: Run) {
    forall k :: 0 <= k < |run| ==> !run[k].1.stat
  }

  /** Nor does a removal leave chunk-info without a chunk that it records. Everything else may fail. */
  ghost predicate Steady(run: Run) {
    run != [] ==>
      var (r, f) := run[|run| - 1];
      Steady(run[..|run| - 1]) && !f.stat && Tidied(Serve(run[..|run| - 1]).0, r, f)
  }

  /** The same, but for the removal at the very end. */
  ghost predicate SteadyTo(run: Run) {
    run != [] && Steady(run[..|run| - 1]) && Starts(Serve(run[..|run| - 1]).0, run[|run| - 1].1)
  }

  lemma {:induction false} SteadyPrefix(run: Run, k: nat)
    requires Steady(run) && k <= |run|
    ensures Steady(run[..k])
  {
    if k == |run| {
      assert run[..k] == run;
    } else {
      SteadyPrefix(run[..|run| - 1], k);
      assert run[..|run| - 1][..k] == run[..k];
    }
  }

  lemma {:induction false} SteadyAt(run: Run, k: nat)
    requires Steady(run) && k < |run|
    ensures !run[k].1.stat && Tidied(Serve(run[..k]).0, run[k].0, run[k].1)
  {
    SteadyPrefix(run, k + 1);
    assert run[..k + 1][..k] == run[..k];
  }

  lemma {:induction false} ServeValid(run: Run)
    requires Steady(run)
    ensures Valid(Serve(run).0)
  {
    if run != [] {
      ServeValid(run[..|run| - 1]);
      StepPromises(Serve(run[..|run| - 1]).0, run[|run| - 1].0, run[|run| - 1].1);
    }
  }

  /** Request k of the run sent these bytes as chunk i and was answered that they are saved. */
  ghost predicate Recorded(run: Run, k: nat, i: nat, data: Bytes) {
    k < |run| && run[k].0.blockIdx == i && run[k].0.data == data && Serve(run).1[k] == Saved(i)
  }

  ghost predicate FromRun(run: Run, got: seq<Option<Bytes>>) {
    forall i :: 0 <= i < |got| && got[i].Some? ==> exists k: nat :: Recorded(run, k, i, got[i].value)
  }

  // The answers to a run are the answers to its beginning, and more.
  lemma {:induction false} RecordedLonger(run: Run, k: nat, i: nat, data: Bytes)
    requires run != [] && Recorded(run[..|run| - 1], k, i, data)
    ensures Recorded(run, k, i, data)
  {
  }

  // What the upload holds after one more request was recorded by it, or was held before.
  lemma {:induction false} HeldOrSaved(run: Run, i: nat)
    requires Steady(run) && run != [] && Abstract(Serve(run).0).Active?
    requires i < |Abstract(Serve(run).0).got| && Abstract(Serve(run).0).got[i].Some?
    ensures
      var u, after := Abstract(Serve(run[..|run| - 1]).0), Abstract(Serve(run).0);
      || Recorded(run, |run| - 1, i, after.got[i].value)
      || (u.Active? && i < |u.got| && u.got[i] == after.got[i])
  {
    var before := run[..|run| - 1];
    ServeValid(before);
    StepPromises(Serve(before).0, run[|run| - 1].0, run[|run| - 1].1);
  }

  lemma {:induction false} UploadFromRun(run: Run)
    requires Steady(run)
    ensures Abstract(Serve(run).0).Active? ==> FromRun(run, Abstract(Serve(run).0).got)
  {
    var after := Abstract(Serve(run).0);
    if run != [] && after.Active? {
      var before := run[..|run| - 1];
      UploadFromRun(before);
      forall i: nat | i < |after.got| && after.got[i].Some?
        ensures exists k: nat :: Recorded(run, k, i, after.got[i].value)
      {
        HeldOrSaved(run, i);
        if !Recorded(run, |before|, i, after.got[i].value) {
          var k: nat :| Recorded(before, k, i, after.got[i].value);
          RecordedLonger(run, k, i, after.got[i].value);
        }
      }
    }
  }

  /** A complete set of chunks: the last one from request `last`, the others recorded by the run. */
  ghost predicate Explains(run: Run, last: Request, got: seq<Option<Bytes>>) {
    && Missing(got) == 0
    && 0 <= last.blockIdx < |got|
    && got[last.blockIdx] == Some(last.data)
    && forall i :: 0 <= i < |got| && i != last.blockIdx ==>
      got[i].Some? && exists k: nat :: Recorded(run, k, i, got[i].value)
  }

  /**
   Whatever was sent, repeated, refused or lost on the way: a file that reaches `fileProcess` is, in
   index order, chunks of this run that were recorded, and the chunk of the request that completes it.
   */
  lemma {:induction false} DeliveredComesFromRun(run: Run, r: Request, f: Faults, file: Bytes)
    requires Steady(run) && Starts(Serve(run).0, f) && Step(Serve(run).0, r, f).1 == Delivered(file)
    ensures exists got :: Explains(run, r, got) && file == Joined(got)
  {
    UploadFromRun(run);
    ServeValid(run);
    var before := Abstract(Serve(run).0);
    DeliveredMeans(Serve(run).0, r, f, file);
    var u := Swept(before, r, f);
    var got := Opened(u, r, f).value.got[r.blockIdx := Some(r.data)];
    forall i | 0 <= i < |got| && i != r.blockIdx
      ensures got[i].Some? && exists k: nat :: Recorded(run, k, i, got[i].value)
    {
      NoneMissing(got, i);
      assert before.Active? && got[i] == before.got[i];
    }
    assert Explains(run, r, got);
  }

  // ----- A client that sends the pieces of one file -----

  ghost predicate Sends(r: Request, pieces: seq<Bytes>) {
    r.blockNum == |pieces| && (0 <= r.blockIdx < |pieces| ==> r.data == pieces[r.blockIdx])
  }

  ghost predicate AllSend(run: Run, pieces: seq<Bytes>) {
    forall k :: 0 <= k < |run| ==> Sends(run[k].0, pieces)
  }

  lemma {:induction false} JoinedPieces(got: seq<Option<Bytes>>, pieces: seq<Bytes>)
    requires |got| == |pieces| && forall i :: 0 <= i < |got| ==> got[i] == Some(pieces[i])
    ensures Joined(got) == Flatten(pieces)
  {
    if got != [] {
      JoinedPieces(got[..|got| - 1], pieces[..|got| - 1]);
    }
  }

  lemma {:induction false} UploadOfPieces(run: Run, pieces: seq<Bytes>)
    requires Steady(run) && AllSend(run, pieces)
    ensures var u := Abstract(Serve(run).0);
      u.Active? ==> |u.got| == |pieces| && forall i :: 0 <= i < |u.got| && u.got[i].Some? ==>
        u.got[i].value == pieces[i]
  {
    if run != [] {
      var before := run[..|run| - 1];
      UploadOfPieces(before, pieces);
      ServeValid(before);
      StepPromises(Serve(before).0, run[|run| - 1].0, run[|run| - 1].1);
      assert Sends(run[|run| - 1].0, pieces);
    }
  }

  /** Any order, any repeats, any failures: if a file comes out, it is the file that was cut up. */
  lemma {:induction false} DeliveredIsTheFile(run: Run, pieces: seq<Bytes>, file: Bytes)
    requires SteadyTo(run) && AllSend(run, pieces)
    requires Serve(run).1[|run| - 1] == Delivered(file)
    ensures file == Flatten(pieces)
  {
    var before := run[..|run| - 1];
    var (r, f) := run[|run| - 1];
    UploadOfPieces(before, pieces);
    ServeValid(before);
    DeliveredMeans(Serve(before).0, r, f, file);
    assert Sends(r, pieces);
    var got := Opened(Swept(Abstract(Serve(before).0), r, f), r, f).value.got[r.blockIdx := Some(r.data)];
    forall i | 0 <= i < |got| ensures got[i] == Some(pieces[i]) {
      NoneMissing(got, i);
    }
    JoinedPieces(got, pieces);
  }

  /** Two arrival orders of the same pieces cannot end in different files. */
  lemma {:induction false} ArrivalOrderIsImmaterial(
    run: Run, other: Run, pieces: seq<Bytes>, file: Bytes, otherFile: Bytes)
    requires SteadyTo(run) && AllSend(run, pieces) && SteadyTo(other) && AllSend(other, pieces)
    requires Serve(run).1[|run| - 1] == Delivered(file) && Serve(other).1[|other| - 1] == Delivered(otherFile)
    ensures file == otherFile
  {
    DeliveredIsTheFile(run, pieces, file);
    DeliveredIsTheFile(other, pieces, otherFile);
  }

  // ----- The same client when nothing fails -----

  ghost predicate CalmRequest(r: Request, pieces: seq<Bytes>, name: string) {
    && Sends(r, pieces)
    && 0 <= r.blockIdx < |pieces|
    && r.filename == name
    && r.totalSize == |Flatten(pieces)|
  }

  ghost predicate Calm(run: Run, pieces: seq<Bytes>, name: string) {
    forall k :: 0 <= k < |run| ==> run[k].1 == NO_FAULTS && CalmRequest(run[k].0, pieces, name)
  }

  function Covered(run: Run): set<int> {
    if run == [] then {} else Covered(run[..|run| - 1]) + {run[|run| - 1].0.blockIdx as int}
  }

  function Indices(n: nat): (indices: set<int>)
    ensures forall i :: i in indices <==> 0 <= i < n
  {
    if n == 0 then {} else Indices(n - 1) + {n - 1}
  }

  function Arrived(pieces: seq<Bytes>, indices: set<int>): (got: seq<Option<Bytes>>)
    ensures |got| == |pieces|
  {
    seq(|pieces|, i requires 0 <= i < |pieces| => if i in indices then Some(pieces[i]) else None)
  }

  lemma {:induction false} ArrivedCounts(pieces: seq<Bytes>, indices: set<int>)
    ensures |Joined(Arrived(pieces, indices))| <= |Flatten(pieces)|
    ensures Missing(Arrived(pieces, indices)) == 0 <==> Indices(|pieces|) <= indices
  {
    if pieces != [] {
      var last := |pieces| - 1;
      ArrivedCounts(pieces[..last], indices);
      assert Arrived(pieces, indices)[..last] == Arrived(pieces[..last], indices);
      assert Indices(|pieces|) == Indices(last) + {last};
    }
  }

  function Progress(pieces: seq<Bytes>, name: string, indices: set<int>): Upload {
    if indices == {} then Idle else Active(name, |Flatten(pieces)|, Arrived(pieces, indices))
  }

  // Nothing stands between a calm request and the writing of its chunk.
  lemma {:induction false} CalmLoads(d: Dir, r: Request, pieces: seq<Bytes>, name: string, indices: set<int>)
    returns (info: ChunksInfo)
    requires Valid(d) && Abstract(d) == Progress(pieces, name, indices)
    requires CalmRequest(r, pieces, name) && indices <= Indices(|pieces|)
    requires 0 < |Flatten(pieces)| && |name| <= MAX_NAME_LENGTH
    ensures Consistent(info) && Backed(info, d.files) && (d.info.Stored? ==> d.info.info == info)
    ensures info.fileName == name && info.totalSize == |Flatten(pieces)|
    ensures Got(info.savedBlocks, d.files) == Arrived(pieces, indices)
    ensures info.blockNum == |pieces| && (info.savedBlocks[r.blockIdx] <==> r.blockIdx in indices)
    ensures Step(d, r, NO_FAULTS) ==
      if r.blockIdx in indices then (d, AlreadySaved)
      else if |r.data| + info.savedFileSize > info.totalSize then (d, Refused)
      else Accept(d, info, r, NO_FAULTS)
  {
    info := Load(d.info, r, NO_FAULTS).value;
    if indices == {} {
      FreshIsValid(r, d.files);
      assert Arrived(pieces, {}) == seq(|pieces|, _ => None);
    }
    assert Got(info.savedBlocks, d.files) == Arrived(pieces, indices);
    assert Got(info.savedBlocks, d.files)[r.blockIdx] == Arrived(pieces, indices)[r.blockIdx];
  }

  // The calm client sends a piece that is not there yet.
  lemma {:induction false} CalmNew(
    d: Dir, info: ChunksInfo, r: Request, pieces: seq<Bytes>, name: string, indices: set<int>)
    requires Valid(d) && Consistent(info) && Backed(info, d.files) && (d.info.Stored? ==> d.info.info == info)
    requires info.fileName == name && info.totalSize == |Flatten(pieces)|
    requires Got(info.savedBlocks, d.files) == Arrived(pieces, indices)
    requires CalmRequest(r, pieces, name) && info.blockNum == |pieces| && !info.savedBlocks[r.blockIdx] &&
      r.blockIdx !in indices
    ensures var indices' := indices + {r.blockIdx as int};
      var (d', reply) := Accept(d, info, r, NO_FAULTS);
      && |r.data| + info.savedFileSize <= info.totalSize
      && (if !(Indices(|pieces|) <= indices') then
            Abstract(d') == Active(name, |Flatten(pieces)|, Arrived(pieces, indices')) && reply == Saved(r.blockIdx)
          else
            d' == EMPTY && reply == (if Harmless(name, pieces) then Delivered(Flatten(pieces)) else Failed))
  {
    var indices' := indices + {r.blockIdx as int};
    var got := Arrived(pieces, indices);
    ArrivedCounts(pieces, indices');
    assert Arrived(pieces, indices') == got[r.blockIdx := Some(r.data)];
    GotCounts(info.savedBlocks, d.files);
    SetOne(got, r.blockIdx, r.data);
    AcceptRefines(d, info, r, NO_FAULTS);
    if Indices(|pieces|) <= indices' {
      PiecesCombine(d, info, r, NO_FAULTS, pieces, name);
    }
  }

  // One request of the calm client.
  lemma {:induction false} CalmStep(d: Dir, r: Request, pieces: seq<Bytes>, name: string, indices: set<int>)
    requires Valid(d) && Abstract(d) == Progress(pieces, name, indices)
    requires indices <= Indices(|pieces|) && indices != Indices(|pieces|)
    requires CalmRequest(r, pieces, name)
    requires 0 < |Flatten(pieces)| && |name| <= MAX_NAME_LENGTH
    ensures var (d', reply) := Step(d, r, NO_FAULTS);
      var indices' := indices + {r.blockIdx as int};
      if indices' != Indices(|pieces|) then
        && Abstract(d') == Progress(pieces, name, indices')
        && reply == (if r.blockIdx in indices then AlreadySaved else Saved(r.blockIdx))
      else
        d' == EMPTY && (if Harmless(name, pieces) then reply == Delivered(Flatten(pieces)) else reply == Failed)
  {
    var indices' := indices + {r.blockIdx as int};
    var info := CalmLoads(d, r, pieces, name, indices);
    if r.blockIdx in indices {
      assert indices' == indices;
    } else {
      assert indices' <= Indices(|pieces|);
      CalmNew(d, info, r, pieces, name, indices);
    }
  }

  /** The name of the file stands for no chunk, or only for one with nothing in it or before it. */
  ghost predicate Harmless(name: string, pieces: seq<Bytes>) {
    && name != ""
    && forall k: nat :: k < |pieces| && Shadows(name, k) ==> Flatten(pieces[..k + 1]) == []
  }

  // The chunk files join to the pieces.
  lemma {:induction false} FilesArePieces(
    info: ChunksInfo, files: map<string, Bytes>, i: nat, data: Bytes, pieces: seq<Bytes>, k: nat)
    requires Consistent(info) && Backed(info, files) && i < info.blockNum == |pieces| && !info.savedBlocks[i] &&
      k <= |pieces|
    requires var got := Got(info.savedBlocks, files)[i := Some(data)];
      forall j :: 0 <= j < |pieces| ==> got[j] == Some(pieces[j])
    ensures Whole(files[ChunkName(i) := data], k) == Flatten(pieces[..k])
  {
    var there := files[ChunkName(i) := data];
    GotAfterChunk(info.savedBlocks, files, i, data);
    forall j: nat | j < k ensures Part(there, j) == pieces[j] {
      assert Got(info.savedBlocks[i := true], there)[j] == Some(pieces[j]);
    }
    WholeOfPieces(there, pieces, k);
  }

  // All pieces are there: what combining them comes to.
  lemma {:induction false} PiecesCombine(
    d: Dir, info: ChunksInfo, r: Request, f: Faults, pieces: seq<Bytes>, name: string)
    requires Consistent(info) && Backed(info, d.files) && info.totalSize == |Flatten(pieces)|
    requires r.filename == name && 0 <= r.blockIdx < info.blockNum == |pieces|
    requires !info.savedBlocks[r.blockIdx] && info.blockNum == info.finished + 1
    requires var got := Got(info.savedBlocks, d.files)[r.blockIdx := Some(r.data)];
      forall i :: 0 <= i < |pieces| ==> got[i] == Some(pieces[i])
    ensures Combine(d.files[ChunkName(r.blockIdx) := r.data], name, info, f) ==
      if !f.output && !(f.unreadable.Some? && 0 <= f.unreadable.value < info.blockNum) && Harmless(name, pieces)
      then Delivered(Flatten(pieces)) else Failed
  {
    var there := d.files[ChunkName(r.blockIdx) := r.data];
    LastChunkCompletes(info, d.files, r.blockIdx, r.data);
    AssembleExact(there, name, info.blockNum);
    forall k: nat | k <= |pieces| ensures Whole(there, k) == Flatten(pieces[..k]) {
      FilesArePieces(info, d.files, r.blockIdx, r.data, pieces, k);
    }
    assert pieces[..|pieces|] == pieces;
  }

  lemma {:induction false} WholeOfPieces(files: map<string, Bytes>, pieces: seq<Bytes>, k: nat)
    requires k <= |pieces| && forall i: nat :: i < k ==> Part(files, i) == pieces[i]
    ensures Whole(files, k) == Flatten(pieces[..k])
  {
    if k > 0 {
      WholeOfPieces(files, pieces, k - 1);
      assert pieces[..k][..k - 1] == pieces[..k - 1];
    }
  }

  // ----- A client that carries on after failures -----

  ghost predicate AllPieces(run: Run, pieces: seq<Bytes>, name: string) {
    forall k :: 0 <= k < |run| ==> CalmRequest(run[k].0, pieces, name)
  }

  /** The upload holds the pieces with these indices, and some are still to come. */
  ghost predicate Holds(u: Upload, pieces: seq<Bytes>, name: string, indices: set<int>) {
    indices <= Indices(|pieces|) && indices != Indices(|pieces|) && u == Progress(pieces, name, indices)
  }

  ghost predicate Resumable(u: Upload, pieces: seq<Bytes>, name: string) {
    exists indices :: Holds(u, pieces, name, indices)
  }

  lemma {:induction false} SomePieces(pieces: seq<Bytes>)
    requires 0 < |Flatten(pieces)|
    ensures Indices(|pieces|) != {}
  {
    assert 0 in Indices(|pieces|);
  }

  // What a new request is added to: a new upload holds no pieces.
  lemma {:induction false} OpenedHolds(
    u: Upload, r: Request, f: Faults, pieces: seq<Bytes>, name: string, indices: set<int>)
    requires !f.stat && CalmRequest(r, pieces, name) && Opened(u, r, f).Some? && Holds(u, pieces, name, indices)
    ensures Opened(u, r, f).value == Active(name, |Flatten(pieces)|, Arrived(pieces, indices))
  {
    if indices == {} {
      assert Arrived(pieces, {}) == seq(|pieces|, _ => None);
    }
  }

  // A request that is answered as saved adds its own index, and is not the last.
  lemma {:induction false} SavedHolds(u: Upload, r: Request, pieces: seq<Bytes>, name: string, indices: set<int>)
    requires CalmRequest(r, pieces, name) && indices <= Indices(|pieces|)
    requires u == Active(name, |Flatten(pieces)|, Arrived(pieces, indices)[r.blockIdx := Some(r.data)]) &&
      Missing(u.got) >= 1
    ensures Holds(u, pieces, name, indices + {r.blockIdx as int})
  {
    var indices' := indices + {r.blockIdx as int};
    assert u.got == Arrived(pieces, indices');
    ArrivedCounts(pieces, indices');
  }

  lemma {:induction false} PieceKeepsResumable(
    u: Upload, r: Request, f: Faults, reply: Reply, after: Upload, pieces: seq<Bytes>, name: string)
    requires !f.stat && CalmRequest(r, pieces, name) && 0 < |Flatten(pieces)|
    requires (u.Broken? || Resumable(u, pieces, name)) && Promised(u, r, f, reply, after)
    ensures after.Broken? || Resumable(after, pieces, name)
  {
    SomePieces(pieces);
    assert Holds(Idle, pieces, name, {});
    if reply.Saved? {
      var s := Swept(u, r, f);
      var indices :| Holds(s, pieces, name, indices);
      OpenedHolds(s, r, f, pieces, name, indices);
      SavedHolds(after, r, pieces, name, indices);
    }
  }

  /**
   After any run of requests that send the pieces of one file, whatever failed, the record is torn or the
   upload holds a set of pieces that is not complete, and can go on from there.
   */
  lemma {:induction false} StaysResumable(run: Run, pieces: seq<Bytes>, name: string)
    requires Steady(run) && AllPieces(run, pieces, name) && 0 < |Flatten(pieces)|
    ensures Valid(Serve(run).0)
    ensures Serve(run).0.info.Torn? || Resumable(Abstract(Serve(run).0), pieces, name)
  {
    ServeValid(run);
    if run == [] {
      SomePieces(pieces);
      assert Holds(Idle, pieces, name, {});
    } else {
      var before := run[..|run| - 1];
      var (r, f) := run[|run| - 1];
      StaysResumable(before, pieces, name);
      StepPromises(Serve(before).0, r, f);
      PieceKeepsResumable(Abstract(Serve(before).0), r, f, Serve(run).1[|run| - 1], Abstract(Serve(run).0), pieces,
        name);
    }
  }

  /** After a sweep that goes through, a request is answered and works as on an upload that never was. */
  lemma {:induction false} SweepStartsAnew(d: Dir, r: Request, f: Faults)
    requires WellFormed(d) && d.info.Stored? && r.blockIdx % 7 == 0 && f.expired && f.sweepLeft.None?
    ensures Step(d, r, f) == Step(EMPTY, r, f)
  {
    assert ChunkUpload.Swept(d, r, f) == EMPTY == ChunkUpload.Swept(EMPTY, r, f);
  }

  /** The request does not sweep the upload away, does not combine it, and does not tear its record. */
  ghost predicate Gentle(d: Dir, r: Request, f: Faults)
    requires WellFormed(d)
  {
    !(r.blockIdx % 7 == 0 && f.expired) && !Combines(d, r, f) && !f.record.Ripped?
  }

  ghost predicate Undisturbed(run: Run) {
    run != [] ==>
      var (r, f) := run[|run| - 1];
      Undisturbed(run[..|run| - 1]) && Gentle(Serve(run[..|run| - 1]).0, r, f)
  }

  /** The indices that were answered as saved. */
  function SavedIn(run: Run): set<int> {
    if run == [] then {}
    else SavedIn(run[..|run| - 1]) + if Serve(run).1[|run| - 1].Saved? then {run[|run| - 1].0.blockIdx as int} else {}
  }

  // A request that reaches the writing of the last missing chunk, and has all of it, combines.
  lemma {:induction false} LastOneCombines(d: Dir, r: Request, f: Faults)
    requires Valid(d) && Readable(d, f) && d == ChunkUpload.Swept(d, r, f)
    requires Reaches(Abstract(d), r, f) && f.partial.None? && Missing(Opened(Abstract(d), r, f).value.got) == 1
    ensures Combines(d, r, f)
  {
    GetsThrough(d, d, r, f);
    var info := Load(d.info, r, f).value;
    GotCounts(info.savedBlocks, d.files);
  }

  // Whatever else fails, such a request adds its chunk if it says so, and takes none away.
  lemma {:induction false} GentleKeeps(
    d: Dir, r: Request, f: Faults, pieces: seq<Bytes>, name: string, indices: set<int>)
    requires Valid(d) && !f.stat && Tidied(d, r, f) && Gentle(d, r, f) && CalmRequest(r, pieces, name)
    requires Holds(Abstract(d), pieces, name, indices)
    ensures Holds(Abstract(Step(d, r, f).0), pieces, name,
      indices + if Step(d, r, f).1.Saved? then {r.blockIdx as int} else {})
  {
    StepRefines(d, r, f);
    var u := Abstract(d);
    if Reaches(u, r, f) && f.partial.None? {
      if Missing(Opened(u, r, f).value.got) == 1 {
        LastOneCombines(d, r, f);
      }
      if f.record.Written? {
        OpenedHolds(u, r, f, pieces, name, indices);
        SetOne(Arrived(pieces, indices), r.blockIdx, r.data);
        SavedHolds(Abstract(Step(d, r, f).0), r, pieces, name, indices);
      }
    }
    assert indices + {} == indices;
  }

  /**
   The answers tell the truth about what is kept: after any run of requests for the pieces of one file, with any
   failures that do not sweep, combine or tear it, the upload holds exactly the pieces that were answered as saved.
   */
  lemma {:induction false} HoldsWhatWasSaved(run: Run, pieces: seq<Bytes>, name: string)
    requires Steady(run) && AllPieces(run, pieces, name) && Undisturbed(run) && 0 < |Flatten(pieces)|
    ensures Valid(Serve(run).0) && Holds(Abstract(Serve(run).0), pieces, name, SavedIn(run))
  {
    ServeValid(run);
    if run == [] {
      SomePieces(pieces);
    } else {
      var before := run[..|run| - 1];
      HoldsWhatWasSaved(before, pieces, name);
      ServeValid(before);
      GentleKeeps(Serve(before).0, run[|run| - 1].0, run[|run| - 1].1, pieces, name, SavedIn(before));
    }
  }

  /** Once nothing fails, the upload holds what it held and what has arrived since, until that is everything. */
  lemma {:induction false} HoldsWhatArrived(head: Run, tail: Run, pieces: seq<Bytes>, name: string, indices: set<int>)
    requires Valid(Serve(head).0) && Holds(Abstract(Serve(head).0), pieces, name, indices)
    requires Calm(tail, pieces, name) && indices + Covered(tail) != Indices(|pieces|)
    requires 0 < |Flatten(pieces)| && |name| <= MAX_NAME_LENGTH
    ensures Valid(Serve(head + tail).0)
    ensures Holds(Abstract(Serve(head + tail).0), pieces, name, indices + Covered(tail))
    ensures forall k :: |head| <= k < |head + tail| ==>
      Serve(head + tail).1[k].Saved? || Serve(head + tail).1[k].AlreadySaved?
  {
    if tail == [] {
      assert head + tail == head && indices + Covered(tail) == indices;
    } else {
      var before := tail[..|tail| - 1];
      var (r, f) := tail[|tail| - 1];
      assert (head + tail)[..|head + tail| - 1] == head + before;
      CoveredInRange(before, pieces, name);
      CoveredInRange(tail, pieces, name);
      assert indices + Covered(tail) == (indices + Covered(before)) + {r.blockIdx as int};
      HoldsWhatArrived(head, before, pieces, name, indices);
      StepPromises(Serve(head + before).0, r, f);
      CalmStep(Serve(head + before).0, r, pieces, name, indices + Covered(before));
    }
  }

  lemma {:induction false} CoveredInRange(run: Run, pieces: seq<Bytes>, name: string)
    requires AllPieces(run, pieces, name)
    ensures Covered(run) <= Indices(|pieces|)
  {
    if run != [] {
      CoveredInRange(run[..|run| - 1], pieces, name);
    }
  }

  /**
   An upload that failed before can be finished: when the requests of a calm tail first cover all that was
   missing, in whatever order, the last of them ends the upload, and it delivers the file exactly when the
   name of the file is harmless.
   */
  lemma {:induction false} LastMissingPieceDelivers(
    head: Run, tail: Run, pieces: seq<Bytes>, name: string, indices: set<int>)
    requires Valid(Serve(head).0) && Holds(Abstract(Serve(head).0), pieces, name, indices)
    requires Calm(tail, pieces, name) && tail != []
    requires indices + Covered(tail[..|tail| - 1]) != Indices(|pieces|) && indices + Covered(tail) == Indices(|pieces|)
    requires 0 < |Flatten(pieces)| && |name| <= MAX_NAME_LENGTH
    ensures Serve(head + tail).0 == EMPTY
    ensures Serve(head + tail).1[|head + tail| - 1] == if Harmless(name, pieces) then Delivered(Flatten(pieces))
      else Failed
  {
    var before := tail[..|tail| - 1];
    assert (head + tail)[..|head + tail| - 1] == head + before;
    CoveredInRange(before, pieces, name);
    HoldsWhatArrived(head, before, pieces, name, indices);
    assert indices + Covered(tail) == (indices + Covered(before)) + {tail[|tail| - 1].0.blockIdx as int};
    CalmStep(Serve(head + before).0, tail[|tail| - 1].0, pieces, name, indices + Covered(before));
  }

  /** A file called `chunk-file-0` cannot be uploaded in pieces. */
  lemma {:induction false} ChunkFileNameIsNotHarmless()
    ensures !Harmless("chunk-file-0", [[1], [2]])
  {
    EntryIndexOfChunkName(0);
    assert ChunkName(0) == "chunk-file-0";
    LessTotal(ChunkName(0), ChunkName(0));
    var pieces: seq<Bytes> := [[1], [2]];
    assert pieces[..1] == [[1]];
    assert pieces[..1][..0] == [];
    assert Shadows("chunk-file-0", 0);
    assert Flatten(pieces[..1]) == [1];
  }

  lemma {:induction false} TornRecordStays(d: Dir, r: Request, f: Faults)
    requires WellFormed(d) && d.info.Torn? && !f.stat
    ensures Step(d, r, f).0 == d && (Step(d, r, f).1.Failed? || Step(d, r, f).1.Refused?)
  {
  }

  /** A record that no longer parses ends the upload for good: nothing that follows is saved or delivered. */
  lemma {:induction false} TornRecordBlocks(run: Run, tail: Run)
    requires Serve(run).0.info.Torn? && Sighted(tail)
    ensures Serve(run + tail).0 == Serve(run).0
    ensures forall k :: |run| <= k < |run + tail| ==> Serve(run + tail).1[k].Failed? || Serve(run + tail).1[k].Refused?
  {
    if tail == [] {
      assert run + tail == run;
    } else {
      var before := tail[..|tail| - 1];
      assert (run + tail)[..|run + tail| - 1] == run + before;
      TornRecordBlocks(run, before);
      TornRecordStays(Serve(run + before).0, tail[|tail| - 1].0, tail[|tail| - 1].1);
    }
  }

  // A step that delivers did so by combining what it loaded.
  lemma {:induction false} DeliveredByCombining(d: Dir, r: Request, f: Faults)
    requires WellFormed(d) && Step(d, r, f).1.Delivered?
    ensures var here := ChunkUpload.Swept(d, r, f);
      && Load(here.info, r, f).Some?
      && var info := Load(here.info, r, f).value;
      && 0 <= r.blockIdx < info.blockNum == |info.savedBlocks| && !info.savedBlocks[r.blockIdx]
      && info.blockNum == info.finished + 1
      && Combine(here.files[ChunkName(r.blockIdx) := r.data], r.filename, info, f).Delivered?
  {
  }

  // With all but one chunk recorded, and that one arriving, every piece is there.
  lemma {:induction false} LastPieceFills(
    info: ChunksInfo, files: map<string, Bytes>, r: Request, pieces: seq<Bytes>, name: string, held: set<int>)
    requires Consistent(info) && CalmRequest(r, pieces, name) && Got(info.savedBlocks, files) == Arrived(pieces, held)
    requires 0 <= r.blockIdx < info.blockNum && !info.savedBlocks[r.blockIdx] && info.blockNum == info.finished + 1
    ensures info.blockNum == |pieces|
    ensures forall i :: 0 <= i < |pieces| ==>
      Got(info.savedBlocks, files)[r.blockIdx := Some(r.data)][i] == Some(pieces[i])
  {
    var got := Got(info.savedBlocks, files);
    SetOne(got, r.blockIdx, r.data);
    GotCounts(info.savedBlocks, files);
    assert |got| == |pieces|;
    forall i | 0 <= i < |pieces| ensures got[r.blockIdx := Some(r.data)][i] == Some(pieces[i]) {
      NoneMissing(got[r.blockIdx := Some(r.data)], i);
    }
  }

  // A piece that completes the file, whatever failed before it.
  lemma {:induction false} DeliveredPiece(
    d: Dir, r: Request, f: Faults, pieces: seq<Bytes>, name: string, indices: set<int>)
    requires Valid(d) && Starts(d, f) && CalmRequest(r, pieces, name) && 0 < |Flatten(pieces)|
    requires Holds(Abstract(d), pieces, name, indices) && Step(d, r, f).1.Delivered?
    ensures Harmless(name, pieces)
  {
    DeliveredByCombining(d, r, f);
    var here := ChunkUpload.Swept(d, r, f);
    SomePieces(pieces);
    SweepRefines(d, r, f);
    var held := if Abstract(here) == Abstract(d) then indices else {};
    assert Holds(Abstract(here), pieces, name, held);
    LoadIsOpened(here, r, f);
    OpenedHolds(Abstract(here), r, f, pieces, name, held);
    var info := Load(here.info, r, f).value;
    LastPieceFills(info, here.files, r, pieces, name, held);
    PiecesCombine(here, info, r, f, pieces, name);
  }

  /** The answer to request k is the answer of the directory that the requests before it leave. */
  lemma {:induction false} ServeAt(run: Run, k: nat)
    requires k < |run|
    ensures Serve(run).1[k] == Step(Serve(run[..k]).0, run[k].0, run[k].1).1
  {
    if k < |run| - 1 {
      ServeAt(run[..|run| - 1], k);
      assert run[..|run| - 1][..k] == run[..k];
    }
  }

  function PieceRequest(pieces: seq<Bytes>, name: string, i: nat): Request
    requires i < |pieces| <= MAX_INT && |Flatten(pieces)| <= MAX_INT
  {
    Request(name, i, |pieces|, |Flatten(pieces)|, pieces[i])
  }

  // The requests for the first n pieces, in order and with nothing in their way.
  function InOrder(pieces: seq<Bytes>, name: string, n: nat): (run: Run)
    requires n <= |pieces| <= MAX_INT && |Flatten(pieces)| <= MAX_INT
    ensures |run| == n
  {
    if n == 0 then [] else InOrder(pieces, name, n - 1) + [(PieceRequest(pieces, name, n - 1), NO_FAULTS)]
  }

  lemma {:induction false} CalmGrows(run: Run, r: Request, pieces: seq<Bytes>, name: string)
    requires Calm(run, pieces, name) && CalmRequest(r, pieces, name)
    ensures Calm(run + [(r, NO_FAULTS)], pieces, name)
    ensures Covered(run + [(r, NO_FAULTS)]) == Covered(run) + {r.blockIdx as int}
  {
    assert (run + [(r, NO_FAULTS)])[..|run|] == run;
  }

  lemma {:induction false} InOrderIsCalm(pieces: seq<Bytes>, name: string, n: nat)
    requires n <= |pieces| <= MAX_INT && |Flatten(pieces)| <= MAX_INT
    ensures Calm(InOrder(pieces, name, n), pieces, name)
    ensures Covered(InOrder(pieces, name, n)) == Indices(n)
    ensures n > 0 ==> InOrder(pieces, name, n)[..n - 1] == InOrder(pieces, name, n - 1)
  {
    if n > 0 {
      var before := InOrder(pieces, name, n - 1);
      InOrderIsCalm(pieces, name, n - 1);
      CalmGrows(before, PieceRequest(pieces, name, n - 1), pieces, name);
      assert InOrder(pieces, name, n)[..n - 1] == before;
    }
  }

  lemma {:induction false} FirstCover(indices: set<int>, n: nat) returns (k: nat)
    requires indices <= Indices(n) && indices != Indices(n)
    ensures 0 < k <= n && indices + Indices(k) == Indices(n) && indices + Indices(k - 1) != Indices(n)
  {
    k := n;
    assert n > 0;
    while indices + Indices(k - 1) == Indices(n)
      invariant 0 < k <= n && indices + Indices(k) == Indices(n)
      decreases k
    {
      assert k - 1 != 0 by {
        assert indices + Indices(0) == indices;
      }
      k := k - 1;
    }
  }

  lemma {:induction false} CalmIsSteady(run: Run, tail: Run, pieces: seq<Bytes>, name: string)
    requires Steady(run) && Calm(tail, pieces, name)
    ensures Steady(run + tail)
  {
    if tail == [] {
      assert run + tail == run;
    } else {
      assert (run + tail)[..|run + tail| - 1] == run + tail[..|tail| - 1];
      CalmIsSteady(run, tail[..|tail| - 1], pieces, name);
    }
  }

  /** After `run`, some request of `tail` delivers this file. */
  ghost predicate Finishes(run: Run, tail: Run, file: Bytes) {
    exists k :: |run| <= k < |run + tail| && Serve(run + tail).1[k] == Delivered(file)
  }

  /** Some further requests get the file through, whatever fails on the way. */
  ghost predicate CanGoOn(run: Run, pieces: seq<Bytes>, name: string) {
    exists tail ::
      Steady(run + tail) && AllPieces(tail, pieces, name) && Finishes(run, tail, Flatten(pieces))
  }

  lemma {:induction false} CanBeFinished(run: Run, pieces: seq<Bytes>, name: string) returns (tail: Run)
    requires Steady(run) && AllPieces(run, pieces, name) && 0 < |Flatten(pieces)| && |name| <= MAX_NAME_LENGTH
    requires |pieces| <= MAX_INT && |Flatten(pieces)| <= MAX_INT
    requires !Serve(run).0.info.Torn? && Harmless(name, pieces)
    ensures Calm(tail, pieces, name) && Finishes(run, tail, Flatten(pieces))
  {
    StaysResumable(run, pieces, name);
    var indices :| Holds(Abstract(Serve(run).0), pieces, name, indices);
    var n := FirstCover(indices, |pieces|);
    tail := InOrder(pieces, name, n);
    InOrderIsCalm(pieces, name, n);
    InOrderIsCalm(pieces, name, n - 1);
    LastMissingPieceDelivers(run, tail, pieces, name, indices);
  }

  lemma {:induction false} FinishedWasHarmless(run: Run, tail: Run, pieces: seq<Bytes>, name: string)
    requires Steady(run) && AllPieces(run, pieces, name) && 0 < |Flatten(pieces)|
    requires Steady(run + tail) && AllPieces(tail, pieces, name) && Finishes(run, tail, Flatten(pieces))
    ensures !Serve(run).0.info.Torn? && Harmless(name, pieces)
  {
    var whole := run + tail;
    if Serve(run).0.info.Torn? {
      forall k | 0 <= k < |tail| ensures !tail[k].1.stat {
        SteadyAt(whole, |run| + k);
        assert whole[|run| + k] == tail[k];
      }
      TornRecordBlocks(run, tail);
    }
    var k: nat :| |run| <= k < |whole| && Serve(whole).1[k] == Delivered(Flatten(pieces));
    ServeAt(whole, k);
    SteadyPrefix(whole, k);
    SteadyAt(whole, k);
    StaysResumable(whole[..k], pieces, name);
    var d := Serve(whole[..k]).0;
    if d.info.Torn? {
      TornRecordStays(d, whole[k].0, whole[k].1);
    } else {
      var indices :| Holds(Abstract(d), pieces, name, indices);
      DeliveredPiece(d, whole[k].0, whole[k].1, pieces, name, indices);
    }
  }

  /**
   After any run with any failures, the client can still get its file through if and only if the record is
   not torn and the name of the file is harmless.
   */
  lemma {:induction false} CanBeFinishedIff(run: Run, pieces: seq<Bytes>, name: string)
    requires Steady(run) && AllPieces(run, pieces, name) && 0 < |Flatten(pieces)| && |name| <= MAX_NAME_LENGTH
    requires |pieces| <= MAX_INT && |Flatten(pieces)| <= MAX_INT
    ensures CanGoOn(run, pieces, name) <==> !Serve(run).0.info.Torn? && Harmless(name, pieces)
  {
    if !Serve(run).0.info.Torn? && Harmless(name, pieces) {
      var tail := CanBeFinished(run, pieces, name);
      CalmIsSteady(run, tail, pieces, name);
      assert Steady(run + tail) && AllPieces(tail, pieces, name);
    }
    forall tail | Steady(run + tail) && AllPieces(tail, pieces, name) && Finishes(run, tail, Flatten(pieces))
      ensures !Serve(run).0.info.Torn? && Harmless(name, pieces)
    {
      FinishedWasHarmless(run, tail, pieces, name);
    }
  }
}
