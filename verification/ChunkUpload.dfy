/**
 One resumable upload: the directory `savedir` of an (account, bucket, file name) triple, with its
 `chunk-info` record and its `chunk-file-<i>` files, and the request handler that drives it.
 Requests are served one at a time here; ChunkRaces takes the handler apart.
 */
module ChunkUpload {
  import opened Text

  type Bytes = seq<bv8>
  type Int64 = x: int | -MAX_INT - 1 <= x <= MAX_INT

  // sconfig.MaxBucketNameLength, as the error text of node/types.go gives it.
  const MAX_NAME_LENGTH := 63

  datatype ChunksInfo = ChunksInfo(
    blockNum: Int64, savedBlocks: seq<bool>, finished: int,
    savedFileSize: int, fileName: string, totalSize: int)

  // A write of chunk-info that fails may leave the old text, or text that no longer parses.
  datatype InfoFile = Absent | Stored(info: ChunksInfo) | Torn

  datatype Dir = Dir(info: InfoFile, files: map<string, Bytes>)

  const EMPTY := Dir(Absent, map[])

  datatype Request = Request(filename: string, blockIdx: Int64, blockNum: Int64, totalSize: Int64, data: Bytes)

  datatype InfoWrite = Written | Kept | Ripped

  // What a removal of the directory that stopped half way left: chunk-info or not, and files with these names.
  datatype Leftover = Leftover(info: bool, names: set<string>)

  // What the surroundings decide while one request is served. `partial` is what a failed copy of
  // the body left in the chunk file; `unreadable` is the chunk whose copy into the result failed. The last
  // two are what the removal of an old upload and that at the end of an upload left, if they failed.
  datatype Faults = Faults(
    expired: bool, tooMany: bool, mkdir: bool, stat: bool, admitted: bool, read: bool, form: bool,
    create: bool, partial: Option<Bytes>, output: bool, unreadable: Option<int>, record: InfoWrite,
    sweepLeft: Option<Leftover>, left: Option<Leftover>)

  const NO_FAULTS :=
    Faults(false, false, false, false, true, false, false, false, None, false, None, Written, None, None)

  datatype Reply = Refused | AlreadySaved | Failed | Saved(index: int) | Delivered(file: Bytes)

  // ----- Names of directory entries -----

  function ChunkName(i: nat): string {
    "chunk-file-" + Itoa(i)
  }

  /** The index the handler reads off a directory entry. */
  function EntryIndex(name: string): Option<int> {
    if Contains(name, "chunk-file-") then Atoi(LastField(name, '-')) else None
  }

  /** Printing an index into a file name and reading it back undo each other. */
  lemma EntryIndexOfChunkName(i: nat)
    requires i <= MAX_INT
    ensures EntryIndex(ChunkName(i)) == Some(i)
  {
    var name := ChunkName(i);
    assert OccursAt(name, 0, "chunk-file-");
    assert name == "chunk-file" + ['-'] + Itoa(i);
    assert '-' !in Itoa(i) by {
      assert forall k :: 0 <= k < |Itoa(i)| ==> IsDigit(Itoa(i)[k]);
    }
    LastFieldAfterSeparator("chunk-file", '-', Itoa(i));
    AtoiOfItoa(i);
  }

  lemma ChunkNameInjective(i: nat, j: nat)
    requires i <= MAX_INT && j <= MAX_INT && ChunkName(i) == ChunkName(j)
    ensures i == j
  {
    EntryIndexOfChunkName(i);
    EntryIndexOfChunkName(j);
  }

  // ----- The record and what must stand behind it -----

  function CountTrue(s: seq<bool>): (n: nat)
    ensures n <= |s|
  {
    if s == [] then 0 else CountTrue(s[..|s| - 1]) + (if s[|s| - 1] then 1 else 0)
  }

  lemma {:induction false} CountTrueSet(s: seq<bool>, i: nat)
    requires i < |s| && !s[i]
    ensures CountTrue(s[i := true]) == CountTrue(s) + 1
  {
    var last := |s| - 1;
    if i < last {
      CountTrueSet(s[..last], i);
      assert s[i := true][..last] == s[..last][i := true];
    } else {
      assert s[i := true][..last] == s[..last];
    }
  }

  lemma {:induction false} CountTrueFresh(n: nat)
    ensures CountTrue(seq(n, _ => false)) == 0
  {
    if n > 0 {
      assert seq(n, _ => false)[..n - 1] == seq(n - 1, _ => false);
      CountTrueFresh(n - 1);
    }
  }

  /** If all but one bit are set, and bit i is not, every other bit is. */
  lemma Pigeonhole(s: seq<bool>, i: nat, j: nat)
    requires i < |s| && j < |s| && i != j && !s[i] && CountTrue(s) + 1 == |s|
    ensures s[j]
  {
    if !s[j] {
      CountTrueSet(s, i);
      CountTrueSet(s[i := true], j);
    }
  }

  function Part(files: map<string, Bytes>, i: nat): Bytes {
    if ChunkName(i) in files then files[ChunkName(i)] else []
  }

  function SavedBytes(saved: seq<bool>, files: map<string, Bytes>): nat {
    if saved == [] then 0
    else
      var last := |saved| - 1;
      SavedBytes(saved[..last], files) + if saved[last] then |Part(files, last)| else 0
  }

  ghost predicate Consistent(info: ChunksInfo) {
    && |info.savedBlocks| == info.blockNum
    && info.finished == CountTrue(info.savedBlocks) < info.blockNum
    && 0 <= info.savedFileSize <= info.totalSize
    && 0 < info.totalSize
  }

  ghost predicate Backed(info: ChunksInfo, files: map<string, Bytes>)
    requires Consistent(info)
  {
    && (forall i :: 0 <= i < info.blockNum && info.savedBlocks[i] ==> ChunkName(i) in files)
    && info.savedFileSize == SavedBytes(info.savedBlocks, files)
  }

  ghost predicate IsChunkName(name: string) {
    exists i: nat :: i <= MAX_INT && name == ChunkName(i)
  }

  // Kept by every request whatever fails.
  ghost predicate WellFormed(d: Dir) {
    && (d.info.Stored? ==> Consistent(d.info.info))
    && (forall name :: name in d.files ==> IsChunkName(name))
  }

  ghost predicate Valid(d: Dir) {
    WellFormed(d) && (d.info.Stored? ==> Backed(d.info.info, d.files))
  }

  // Writing a chunk that is not recorded yet leaves the recorded ones alone.
  lemma {:induction false} SavedBytesFrame(saved: seq<bool>, files: map<string, Bytes>, i: nat, data: Bytes)
    requires |saved| <= MAX_INT && i <= MAX_INT && (i < |saved| ==> !saved[i])
    ensures SavedBytes(saved, files[ChunkName(i) := data]) == SavedBytes(saved, files)
  {
    if saved != [] {
      var last := |saved| - 1;
      SavedBytesFrame(saved[..last], files, i, data);
      if saved[last] && ChunkName(i) == ChunkName(last) {
        ChunkNameInjective(i, last);
      }
    }
  }

  lemma {:induction false} SavedBytesSet(saved: seq<bool>, files: map<string, Bytes>, i: nat)
    requires i < |saved| && !saved[i]
    ensures SavedBytes(saved[i := true], files) == SavedBytes(saved, files) + |Part(files, i)|
  {
    var last := |saved| - 1;
    if i < last {
      SavedBytesSet(saved[..last], files, i);
      assert saved[i := true][..last] == saved[..last][i := true];
    } else {
      assert saved[i := true][..last] == saved[..last];
    }
  }

  lemma {:induction false} SavedBytesFresh(n: nat, files: map<string, Bytes>)
    ensures SavedBytes(seq(n, _ => false), files) == 0
  {
    if n > 0 {
      assert seq(n, _ => false)[..n - 1] == seq(n - 1, _ => false);
      SavedBytesFresh(n - 1, files);
    }
  }

  // ----- Putting the chunks together -----

  /** The combined file is itself an entry of the directory that is scanned for chunks. */
  predicate Shadows(filename: string, i: nat) {
    EntryIndex(filename) == Some(i) && !Less(filename, ChunkName(i))
  }

  /** The entry the scan leaves in the map for index i: the last one listed that parses to i. */
  function EntryFor(files: map<string, Bytes>, filename: string, i: nat): Option<string> {
    if Shadows(filename, i) then Some(filename)
    else if ChunkName(i) in files then Some(ChunkName(i))
    else if EntryIndex(filename) == Some(i) then Some(filename)
    else None
  }

  /**
   The bytes of the combined file after its first n chunks, or None if a chunk is missing. Copying
   the file to its own end adds nothing while it is empty, and otherwise only ends in a write error.
   */
  function Assemble(files: map<string, Bytes>, filename: string, n: nat): Option<Bytes> {
    if n == 0 then Some([])
    else match Assemble(files, filename, n - 1)
      case None => None
      case Some(done) =>
        match EntryFor(files, filename, n - 1)
        case None => None
        case Some(entry) =>
          if entry == filename then (if done == [] then Some([]) else None)
          else if entry in files then Some(done + files[entry])
          else None
  }

  function Combine(files: map<string, Bytes>, filename: string, info: ChunksInfo, f: Faults): Reply
    requires 0 < info.blockNum
  {
    if f.output || filename == "" then Failed
    else if f.unreadable.Some? && 0 <= f.unreadable.value < info.blockNum then Failed
    else match Assemble(files[filename := []], filename, info.blockNum)
      case None => Failed
      case Some(file) => if |file| == info.totalSize then Delivered(file) else Failed
  }

  // ----- One request -----

  function Fresh(r: Request): ChunksInfo
    requires r.blockNum > 0
  {
    ChunksInfo(r.blockNum, seq(r.blockNum, _ => false), 0, 0, r.filename, r.totalSize)
  }

  /** The record the request works on: read from chunk-info, or made from the headers. */
  function Load(info: InfoFile, r: Request, f: Faults): Option<ChunksInfo> {
    if info.Absent? || f.stat then
      if r.blockNum <= 0 || r.totalSize <= 0 || !f.admitted then None else Some(Fresh(r))
    else if f.read || info.Torn? then None
    else Some(info.info)
  }

  /** `os.RemoveAll(savedir)`, whose error nobody looks at. */
  function Remains(d: Dir, left: Option<Leftover>): Dir {
    match left
    case None => EMPTY
    case Some(some) =>
      Dir(if some.info then d.info else Absent, map name | name in d.files && name in some.names :: d.files[name])
  }

  function Swept(d: Dir, r: Request, f: Faults): Dir {
    if r.blockIdx % 7 == 0 && f.expired && d.info.Stored? then Remains(d, f.sweepLeft) else d
  }

  /** The chunk files after combining: a chunk of the same name is overwritten, or removed with a failed result. */
  function Combined(files: map<string, Bytes>, filename: string, reply: Reply, f: Faults): map<string, Bytes> {
    if filename !in files || f.output then files
    else if reply.Delivered? then files[filename := reply.file]
    else files - {filename}
  }

  function Accept(d: Dir, info: ChunksInfo, r: Request, f: Faults): (Dir, Reply)
    requires 0 <= r.blockIdx < |info.savedBlocks| == info.blockNum
  {
    if f.partial.Some? then (d.(files := d.files[ChunkName(r.blockIdx) := f.partial.value]), Failed)
    else
      var files := d.files[ChunkName(r.blockIdx) := r.data];
      if info.blockNum == info.finished + 1 then
        var reply := Combine(files, r.filename, info, f);
        (Remains(Dir(d.info, Combined(files, r.filename, reply, f)), f.left), reply)
      else
        var info' := info.(savedFileSize := info.savedFileSize + |r.data|,
                           savedBlocks := info.savedBlocks[r.blockIdx := true],
                           finished := info.finished + 1);
        match f.record
        case Written => (Dir(Stored(info'), files), Saved(r.blockIdx))
        case Kept => (Dir(d.info, files), Failed)
        case Ripped => (Dir(Torn, files), Failed)
  }

  function Step(before: Dir, r: Request, f: Faults): (Dir, Reply)
    requires WellFormed(before)
  {
    var d := Swept(before, r, f);
    if r.blockIdx % 7 == 0 && f.tooMany then (d, Refused)
    else if f.mkdir then (d, Failed)
    else match Load(d.info, r, f)
      case None => (d, if d.info.Absent? || f.stat then Refused else Failed)
      case Some(info) =>
        if r.blockIdx < 0 || r.blockIdx >= info.blockNum then (d, Refused)
        else if info.savedBlocks[r.blockIdx] then (d, AlreadySaved)
        else if f.form then (d, Failed)
        else if |r.data| + info.savedFileSize > info.totalSize then (d, Refused)
        else if |info.fileName| > MAX_NAME_LENGTH then (d, Refused)
        else if f.create then (d, Failed)
        else Accept(d, info, r, f)
  }

  // ----- The handler as the gateway runs it -----

  /** `os.ReadDir`: the entries of a directory in byte order. */
  method ReadDir(names: set<string>) returns (entries: seq<string>)
    ensures Listing(entries, names)
  {
    entries := [];
    var left := names;
    while left != {}
      invariant left <= names
      invariant Listing(entries, names - left)
      decreases |left|
    {
      var name :| name in left;
      entries := InsertName(entries, name, names - left);
      left := left - {name};
      assert names - left == names - (left + {name}) + {name};
    }
  }

  method InsertName(entries: seq<string>, name: string, ghost listed: set<string>) returns (result: seq<string>)
    requires Listing(entries, listed) && name !in listed
    ensures Listing(result, listed + {name})
  {
    var k := 0;
    while k < |entries| && Less(entries[k], name)
      invariant 0 <= k <= |entries|
      invariant forall i :: 0 <= i < k ==> Less(entries[i], name)
    {
      k := k + 1;
    }
    forall i | k <= i < |entries| ensures Less(name, entries[i]) {
      LessTotal(name, entries[k]);
      assert entries[k] in listed;
      if i > k {
        LessTransitive(name, entries[k], entries[i]);
      }
    }
    result := entries[..k] + [name] + entries[k..];
    assert forall x :: x in entries <==> x in entries[..k] || x in entries[k..];
  }

  /** The scan: a later entry with the same index replaces an earlier one. */
  method ScanEntries(entries: seq<string>) returns (entryMap: map<int, string>)
    requires Sorted(entries)
    ensures forall i :: i in entryMap <==> exists name :: name in entries && EntryIndex(name) == Some(i)
    ensures forall i :: i in entryMap ==> entryMap[i] in entries && EntryIndex(entryMap[i]) == Some(i)
    ensures forall i, name :: i in entryMap && name in entries && EntryIndex(name) == Some(i) ==>
      !Less(entryMap[i], name)
  {
    entryMap := map[];
    for k := 0 to |entries|
      invariant forall i :: i in entryMap ==> entryMap[i] in entries[..k] && EntryIndex(entryMap[i]) == Some(i)
      invariant forall name :: name in entries[..k] && EntryIndex(name).Some? ==> EntryIndex(name).value in entryMap
      invariant forall i, name :: i in entryMap && name in entries[..k] && EntryIndex(name) == Some(i) ==>
        !Less(entryMap[i], name)
    {
      assert entries[..k + 1] == entries[..k] + [entries[k]];
      forall name | name in entries[..k] ensures !Less(entries[k], name) {
        var j :| 0 <= j < k && entries[j] == name;
        LessTotal(entries[j], entries[k]);
      }
      LessTotal(entries[k], entries[k]);
      var index := EntryIndex(entries[k]);
      if index.Some? {
        entryMap := entryMap[index.value := entries[k]];
      }
    }
    assert entries[..|entries|] == entries;
  }

  // What the scan finds, when the directory holds chunk files and the combined file.
  lemma ScanFinds(files: map<string, Bytes>, filename: string, entryMap: map<int, string>, entries: seq<string>, i: nat)
    requires i <= MAX_INT
    requires forall name :: name in files ==> IsChunkName(name) || name == filename
    requires filename in files && Listing(entries, files.Keys)
    requires i in entryMap <==> exists name :: name in entries && EntryIndex(name) == Some(i)
    requires i in entryMap ==> entryMap[i] in entries && EntryIndex(entryMap[i]) == Some(i)
    requires i in entryMap ==> forall name :: name in entries && EntryIndex(name) == Some(i) ==>
      !Less(entryMap[i], name)
    ensures EntryFor(files, filename, i) == Lookup(entryMap, i)
  {
    EntryIndexOfChunkName(i);
    if i in entryMap {
      var e := entryMap[i];
      if e != filename {
        var j: nat :| j <= MAX_INT && e == ChunkName(j);
        EntryIndexOfChunkName(j);
        LessTotal(e, filename);
      } else {
        LessTotal(e, ChunkName(i));
        assert ChunkName(i) in files ==> ChunkName(i) in entries;
      }
    } else {
      assert filename in entries;
      assert ChunkName(i) in files ==> ChunkName(i) in entries;
    }
  }

  function Lookup(entryMap: map<int, string>, i: int): Option<string> {
    if i in entryMap then Some(entryMap[i]) else None
  }

  /** The copy loop; `out` is what the combined file holds so far. */
  method CopyChunks(
    files: map<string, Bytes>, filename: string, entryMap: map<int, string>, n: nat, unreadable: Option<int>)
    returns (result: Option<Bytes>)
    requires forall i: nat :: i < n ==> EntryFor(files, filename, i) == Lookup(entryMap, i)
    requires forall i :: i in entryMap ==> entryMap[i] in files
    ensures result == if unreadable.Some? && 0 <= unreadable.value < n then None else Assemble(files, filename, n)
  {
    var out: Bytes := [];
    var i := 0;
    while i < n
      invariant 0 <= i <= n
      invariant Assemble(files, filename, i) == Some(out)
      invariant unreadable.Some? ==> !(0 <= unreadable.value < i)
    {
      assert EntryFor(files, filename, i) == Lookup(entryMap, i);
      if i !in entryMap {
        AssembleStuck(files, filename, i + 1, n);
        return None;
      }
      if unreadable == Some(i) {
        return None;
      }
      var entry := entryMap[i];
      if entry == filename {
        if out != [] {
          AssembleStuck(files, filename, i + 1, n);
          return None;
        }
      } else {
        out := out + files[entry];
      }
      i := i + 1;
    }
    return Some(out);
  }

  /** The scan of the directory and the copying; the combined file is one of the entries. */
  method GatherChunks(files: map<string, Bytes>, filename: string, n: nat, unreadable: Option<int>)
    returns (out: Option<Bytes>)
    requires forall name :: name in files ==> IsChunkName(name) || name == filename
    requires filename in files && n <= MAX_INT
    ensures out == if unreadable.Some? && 0 <= unreadable.value < n then None else Assemble(files, filename, n)
  {
    var entries := ReadDir(files.Keys);
    var entryMap := ScanEntries(entries);
    forall i: nat | i < n ensures EntryFor(files, filename, i) == Lookup(entryMap, i) {
      ScanFinds(files, filename, entryMap, entries, i);
    }
    out := CopyChunks(files, filename, entryMap, n, unreadable);
  }

  class UploadDir {
    var info: InfoFile
    var files: map<string, Bytes>

    constructor ()
      ensures View() == EMPTY
    {
      info := Absent;
      files := map[];
    }

    function View(): Dir
      reads this
    {
      Dir(info, files)
    }

    /** `os.RemoveAll(savedir)`. */
    method RemoveAll(left: Option<Leftover>)
      modifies this
      ensures View() == Remains(old(View()), left)
      ensures left.None? ==> info.Absent? && files == map[]
      ensures left.Some? ==>
        && info == (if left.value.info then old(info) else Absent)
        && (forall name :: name in files <==> name in old(files) && name in left.value.names)
        && (forall name :: name in files ==> files[name] == old(files)[name])
    {
      match left {
        case None =>
          info := Absent;
          files := map[];
        case Some(some) =>
          if !some.info {
            info := Absent;
          }
          files := map name | name in files && name in some.names :: files[name];
      }
    }

    /**
     Creates the combined file among the chunks, scans the directory, and copies chunk by chunk. Afterwards
     the combined file is on its way to `fileProcess`; unless it replaced a chunk file it is not kept here.
     */
    method CombineChunks(chunksInfo: ChunksInfo, filename: string, f: Faults) returns (reply: Reply)
      requires 0 < chunksInfo.blockNum
      requires forall name :: name in files ==> IsChunkName(name)
      modifies this`files
      ensures reply == Combine(old(files), filename, chunksInfo, f)
      ensures files == Combined(old(files), filename, reply, f)
      ensures filename !in old(files) || f.output ==> files == old(files)
      ensures filename in old(files) && !f.output ==>
        files == if reply.Delivered? then old(files)[filename := reply.file] else old(files) - {filename}
    {
      if f.output || filename == "" {
        assert filename == "" ==> filename !in files;
        return Failed;
      }
      var chunks := files;
      files := files[filename := []];
      var out := GatherChunks(files, filename, chunksInfo.blockNum, f.unreadable);
      if out.None? || |out.value| != chunksInfo.totalSize {
        files := chunks - {filename};
        return Failed;
      }
      files := if filename in chunks then chunks[filename := out.value] else chunks;
      return Delivered(out.value);
    }

    /** Writes the chunk file, and then records the chunk, or combines all of them if it is the last. */
    method TakeChunk(loaded: ChunksInfo, r: Request, f: Faults) returns (reply: Reply)
      requires 0 <= r.blockIdx < |loaded.savedBlocks| == loaded.blockNum
      requires forall name :: name in files ==> IsChunkName(name)
      modifies this
      ensures (View(), reply) == Accept(old(View()), loaded, r, f)
    {
      var chunksInfo := loaded;
      if f.partial.Some? {
        files := files[ChunkName(r.blockIdx) := f.partial.value];
        return Failed;
      }
      files := files[ChunkName(r.blockIdx) := r.data];
      if chunksInfo.blockNum == chunksInfo.finished + 1 {
        reply := CombineChunks(chunksInfo, r.filename, f);
        RemoveAll(f.left);
        return;
      }
      chunksInfo := chunksInfo.(savedFileSize := chunksInfo.savedFileSize + |r.data|);
      chunksInfo := chunksInfo.(savedBlocks := chunksInfo.savedBlocks[r.blockIdx := true]);
      chunksInfo := chunksInfo.(finished := chunksInfo.finished + 1);
      match f.record {
        case Written =>
          info := Stored(chunksInfo);
          return Saved(r.blockIdx);
        case Kept =>
          return Failed;
        case Ripped =>
          info := Torn;
          return Failed;
      }
    }

    /** `putChunksHandle`, from the sweep of old uploads to the call of `fileProcess`. */
    method Handle(r: Request, f: Faults) returns (reply: Reply)
      requires WellFormed(View())
      modifies this
      ensures (View(), reply) == Step(old(View()), r, f)
    {
      if r.blockIdx % 7 == 0 {
        if f.expired && info.Stored? {
          RemoveAll(f.sweepLeft);
        }
        if f.tooMany {
          return Refused;
        }
      }
      if f.mkdir {
        return Failed;
      }
      var chunksInfo: ChunksInfo;
      if info.Absent? || f.stat {
        if r.blockNum <= 0 || r.totalSize <= 0 || !f.admitted {
          return Refused;
        }
        chunksInfo := Fresh(r);
      } else {
        if f.read || info.Torn? {
          return Failed;
        }
        chunksInfo := info.info;
      }
      if r.blockIdx < 0 || r.blockIdx >= chunksInfo.blockNum {
        return Refused;
      }
      if chunksInfo.savedBlocks[r.blockIdx] {
        return AlreadySaved;
      }
      if f.form {
        return Failed;
      }
      if |r.data| + chunksInfo.savedFileSize > chunksInfo.totalSize || |chunksInfo.fileName| > MAX_NAME_LENGTH {
        return Refused;
      }
      if f.create {
        return Failed;
      }
      reply := TakeChunk(chunksInfo, r, f);
    }
  }

  // A step that cannot be completed is never made up for later.
  lemma {:induction false} AssembleStuck(files: map<string, Bytes>, filename: string, k: nat, n: nat)
    requires k <= n && Assemble(files, filename, k) == None
    ensures Assemble(files, filename, n) == None
  {
    if k < n {
      AssembleStuck(files, filename, k, n - 1);
    }
  }
}
