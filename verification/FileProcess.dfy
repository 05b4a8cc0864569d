/**
 `fileProcess`: an uploaded file, already cut into fragments in its upload directory, is checked against
 the chain, moved to a directory named after its root hash, and recorded for tracking.
 */
module FileProcess {
  import opened Text
  import ChunkUpload

  type Bytes = ChunkUpload.Bytes

  // ----- Renaming a directory -----

  // `unstatted` are the entries whose Stat fails, `stuck` an entry whose rename fails. `removal` is what the
  // removal of the old directory got to before it failed, None if it succeeds.
  datatype RenameFaults = RenameFaults(unstatted: set<string>, stuck: Option<string>, removal: Option<set<string>>)

  /** The file is in one of the two directories, with its bytes. */
  ghost predicate Kept(name: string, bytes: Bytes, oldDir: map<string, Bytes>, newDir: map<string, Bytes>) {
    (name in oldDir && oldDir[name] == bytes) || (name in newDir && newDir[name] == bytes)
  }

  function Only(dir: map<string, Bytes>, names: set<string>): map<string, Bytes> {
    map name | name in dir && name in names :: dir[name]
  }

  lemma {:induction false} MoveOne(
    oldDir: map<string, Bytes>, newDir: map<string, Bytes>, done: set<string>, name: string)
    requires name in oldDir && name !in done
    ensures oldDir - (done + {name}) == (oldDir - done) - {name}
    ensures newDir + Only(oldDir, done + {name}) == (newDir + Only(oldDir, done))[name := oldDir[name]]
  {
  }

  /** The loop of renames; `done` are the files that arrived. */
  method MoveAll(oldDir: map<string, Bytes>, newDir: map<string, Bytes>, entries: seq<string>, f: RenameFaults)
    returns (ok: bool, left: map<string, Bytes>, moved: map<string, Bytes>, ghost done: set<string>)
    requires forall i, j :: 0 <= i < j < |entries| ==> entries[i] != entries[j]
    requires forall i :: 0 <= i < |entries| ==> entries[i] in oldDir
    ensures left == oldDir - done && moved == newDir + Only(oldDir, done)
    ensures forall name :: name in done ==> name in entries && name !in f.unstatted
    ensures ok ==> forall name :: name in entries && name !in f.unstatted ==> name in done
    ensures ok <==> !(f.stuck.Some? && f.stuck.value in entries && f.stuck.value !in f.unstatted)
  {
    left, moved, done := oldDir, newDir, {};
    var i := 0;
    while i < |entries|
      invariant 0 <= i <= |entries|
      invariant left == oldDir - done && moved == newDir + Only(oldDir, done)
      invariant forall name :: name in done ==> name in entries && name !in f.unstatted
      invariant forall k :: 0 <= k < i && entries[k] !in f.unstatted ==>
        entries[k] in done && f.stuck != Some(entries[k])
      invariant forall k :: i <= k < |entries| ==> entries[k] !in done
    {
      var name := entries[i];
      if name !in f.unstatted {
        if f.stuck == Some(name) {
          return false, left, moved, done;
        }
        MoveOne(oldDir, newDir, done, name);
        moved := moved[name := left[name]];
        left := left - {name};
        done := done + {name};
      }
      i := i + 1;
    }
    ok := true;
  }

  /** No rename fails. */
  predicate MovesAll(oldDir: map<string, Bytes>, f: RenameFaults) {
    !(f.stuck.Some? && f.stuck.value in oldDir && f.stuck.value !in f.unstatted)
  }

  /** When a directory can be renamed. */
  predicate Renames(oldDir: map<string, Bytes>, f: RenameFaults) {
    MovesAll(oldDir, f) && f.removal.None?
  }

  /** The file was not moved, because its Stat failed, and the removal got to it. */
  predicate Deleted(name: string, oldDir: map<string, Bytes>, f: RenameFaults) {
    MovesAll(oldDir, f) && name in f.unstatted && (f.removal.None? || name in f.removal.value)
  }

  /**
   `RenameDir`. Success moves exactly the files whose Stat succeeded. However it ends, a file is lost exactly
   if its Stat failed and the removal got to it, unless the new directory had the same file before.
   */
  method RenameDir(oldDir: map<string, Bytes>, newDir: map<string, Bytes>, f: RenameFaults)
    returns (ok: bool, left: map<string, Bytes>, moved: map<string, Bytes>)
    ensures ok <==> Renames(oldDir, f)
    ensures ok ==> left == map[] && moved == newDir + (oldDir - f.unstatted)
    ensures forall name :: name in oldDir ==>
      (Kept(name, oldDir[name], left, moved) <==>
        !Deleted(name, oldDir, f) || (name in newDir && newDir[name] == oldDir[name]))
  {
    var entries := ChunkUpload.ReadDir(oldDir.Keys);
    forall i, j | 0 <= i < j < |entries| ensures entries[i] != entries[j] {
      LessTotal(entries[i], entries[j]);
    }
    assert forall i :: 0 <= i < |entries| ==> entries[i] in oldDir.Keys;
    ghost var done;
    ok, left, moved, done := MoveAll(oldDir, newDir, entries, f);
    if !ok {
      return;
    }
    assert done == oldDir.Keys - f.unstatted;
    assert Only(oldDir, done) == oldDir - f.unstatted;
    if f.removal.Some? {
      return false, left - f.removal.value, moved;
    }
    left := map[];
  }

  // ----- Paths -----

  // Where a fragment path points: into the upload directory or into the directory of the root hash.
  datatype Place = Uploaded | Home
  datatype Path = Path(place: Place, name: string)

  function Moved(row: seq<Path>): (moved: seq<Path>)
    ensures |moved| == |row| && forall j :: 0 <= j < |row| ==> moved[j] == Path(Home, row[j].name)
  {
    seq(|row|, j requires 0 <= j < |row| => Path(Home, row[j].name))
  }

  /** The two rewriting loops. */
  method RewritePaths(segments: seq<seq<Path>>) returns (rewritten: seq<seq<Path>>)
    ensures |rewritten| == |segments|
    ensures forall i :: 0 <= i < |segments| ==> rewritten[i] == Moved(segments[i])
  {
    rewritten := segments;
    for i := 0 to |segments|
      invariant |rewritten| == |segments|
      invariant forall k :: 0 <= k < i ==> rewritten[k] == Moved(segments[k])
      invariant forall k :: i <= k < |segments| ==> rewritten[k] == segments[k]
    {
      var row := rewritten[i];
      for j := 0 to |row|
        invariant |row| == |segments[i]|
        invariant forall k :: 0 <= k < j ==> row[k] == Path(Home, segments[i][k].name)
        invariant forall k :: j <= k < |row| ==> row[k] == segments[i][k]
      {
        row := row[j := Path(Home, row[j].name)];
      }
      rewritten := rewritten[i := row];
    }
  }

  // ----- Records and directories -----

  datatype Tracked = Tracked(segments: seq<seq<Path>>, owner: string, roothash: string, duplicate: bool)

  // The file of a name in the track directory; an interrupted write in place leaves it torn.
  datatype TrackFile = Record(record: Tracked) | Torn

  datatype Disk = Disk(upload: map<string, Bytes>, home: map<string, Bytes>, homeThere: bool,
    track: map<string, TrackFile>)

  ghost predicate Resolves(d: Disk, p: Path, bytes: Bytes) {
    match p.place
    case Uploaded => p.name in d.upload && d.upload[p.name] == bytes
    case Home => p.name in d.home && d.home[p.name] == bytes
  }

  // ----- Deduplication -----

  datatype Chain = Chain(owners: Option<seq<string>>, orderUser: Option<string>, declare: bool)

  datatype PlaceFaults = PlaceFaults(create: bool, write: bool, sync: bool)

  datatype Verdict = Known | New | Duplicated | DeclareFailed | DuplicateOrder | RecordFailed

  /**
   `deduplication`, and exactly when it comes to each of its ends. A file is new if the chain has neither owners
   nor an order for it. It writes its record in place, and only where there was none.
   */
  method Deduplicate(
    chain: Chain, segments: seq<seq<Path>>, roothash: string, owner: string, f: PlaceFaults,
      track: map<string, TrackFile>)
    returns (verdict: Verdict, after: map<string, TrackFile>)
    ensures verdict.New? <==> chain.owners.None? && chain.orderUser.None?
    ensures verdict.Known? <==>
      if chain.owners.Some? then owner in chain.owners.value || !chain.declare else chain.orderUser == Some(owner)
    ensures verdict.DeclareFailed? <==> chain.owners.Some? && owner !in chain.owners.value && chain.declare
    ensures verdict.DuplicateOrder? <==>
      chain.owners.None? && chain.orderUser.Some? && chain.orderUser.value != owner && roothash in track
    ensures verdict.RecordFailed? <==>
      && chain.owners.None? && chain.orderUser.Some? && chain.orderUser.value != owner && roothash !in track
      && (f.create || f.write || f.sync)
    ensures verdict.Duplicated? <==>
      && chain.owners.None? && chain.orderUser.Some? && chain.orderUser.value != owner && roothash !in track
      && !f.create && !f.write && !f.sync
    ensures forall name :: name in track ==> name in after && after[name] == track[name]
    ensures verdict.Duplicated? ==> after == track[roothash := Record(Tracked(segments, owner, roothash, true))]
    ensures !verdict.Duplicated? && !verdict.RecordFailed? ==> after == track
    ensures verdict.RecordFailed? ==>
      after == if f.create then track
               else track[roothash := if f.write then Torn else Record(Tracked(segments, owner, roothash, true))]
  {
    after := track;
    if chain.owners.Some? {
      var owners := chain.owners.value;
      for i := 0 to |owners|
        invariant owner !in owners[..i]
      {
        if owners[i] == owner {
          return Known, after;
        }
      }
      assert owners[..|owners|] == owners;
      return (if chain.declare then DeclareFailed else Known), after;
    }
    if chain.orderUser.None? {
      return New, after;
    }
    if chain.orderUser.value == owner {
      return Known, after;
    }
    if roothash in track {
      return DuplicateOrder, after;
    }
    if f.create {
      return RecordFailed, after;
    }
    if f.write {
      return RecordFailed, after[roothash := Torn];
    }
    after := after[roothash := Record(Tracked(segments, owner, roothash, true))];
    return (if f.sync then RecordFailed else Duplicated), after;
  }

  // ----- The whole -----

  datatype Faults = Faults(
    stat: bool, sharding: bool, place: PlaceFaults, mkdir: bool, rename: RenameFaults, renameFile: bool, cached: bool,
      record: bool)

  datatype Reply = Failed | AlreadyKnown | DuplicateTracked | AlreadyTracked | NowTracked

  // What sharding leaves: the combined file `base`, and the fragments the paths point to, beside it.
  ghost predicate Sharded(upload: map<string, Bytes>, base: string, segments: seq<seq<Path>>, roothash: string) {
    && base in upload && base != roothash
    && (forall i, j :: 0 <= i < |segments| && 0 <= j < |segments[i]| ==>
          var p := segments[i][j];
          p.place.Uploaded? && p.name in upload && p.name != base && p.name != roothash)
  }

  /**
   After relocation every path of the record leads into the new directory, and to the bytes the fragment
   had in the upload directory, exactly if its Stat succeeded (or the new directory held it already).
   */
  ghost predicate Relocated(
    before: Disk, after: Disk, segments: seq<seq<Path>>, rewritten: seq<seq<Path>>, unstatted: set<string>)
  {
    && after.upload == map[]
    && |rewritten| == |segments|
    && (forall i :: 0 <= i < |segments| ==> rewritten[i] == Moved(segments[i]))
    && (forall i, j :: 0 <= i < |segments| && 0 <= j < |segments[i]| ==> (
          var name := segments[i][j].name;
          && name in before.upload
          && (Resolves(after, Path(Home, name), before.upload[name]) <==>
                name !in unstatted || (name in before.home && before.home[name] == before.upload[name]))))
  }

  /**
   After relocation the combined file is in the new directory under the root hash, unless it went on to the cache;
   under its old name it is gone. All other files that could be moved are there, and all that were there before.
   */
  ghost predicate HomeHolds(before: Disk, after: Disk, base: string, roothash: string, f: Faults)
    requires base in before.upload && (base !in f.rename.unstatted || base in before.home)
  {
    && base !in after.home
    && (roothash in after.home <==> !f.cached)
    && (!f.cached ==>
      after.home[roothash] == if base !in f.rename.unstatted then before.upload[base] else before.home[base])
    && (forall name :: name != base && name != roothash ==>
      var source := if name in before.upload && name !in f.rename.unstatted then before.upload else before.home;
      SameFile(name, after.home, source))
  }

  /** Both directories have the file with the same bytes, or neither has it. */
  ghost predicate SameFile(name: string, dir: map<string, Bytes>, other: map<string, Bytes>) {
    (name in dir <==> name in other) && (name in dir ==> dir[name] == other[name])
  }

  /** The record of this file is another account's. */
  predicate OthersRecord(track: map<string, TrackFile>, roothash: string, owner: string) {
    roothash in track && track[roothash].Record? && track[roothash].record.owner != owner
  }

  /** From the upload directory to the directory of the root hash. */
  method Relocate(d: Disk, base: string, segments: seq<seq<Path>>, roothash: string, f: Faults)
    returns (ok: bool, after: Disk, rewritten: seq<seq<Path>>)
    requires Sharded(d.upload, base, segments, roothash)
    ensures after.track == d.track
    ensures ok <==> Renames(d.upload, f.rename) && !f.renameFile && (base !in f.rename.unstatted || base in d.home)
    ensures ok ==> Relocated(d, after, segments, rewritten, f.rename.unstatted)
    ensures ok ==> HomeHolds(d, after, base, roothash, f) && after.homeThere
    ensures !ok && !Renames(d.upload, f.rename) ==> forall name :: name in d.upload ==>
      (Kept(name, d.upload[name], after.upload, after.home) <==>
        !Deleted(name, d.upload, f.rename) || (name in d.home && d.home[name] == d.upload[name]))
    ensures !ok && Renames(d.upload, f.rename) ==> after.upload == map[] && after.home == map[] && !after.homeThere
  {
    var renamed, left, moved := RenameDir(d.upload, d.home, f.rename);
    after := d.(upload := left, home := moved, homeThere := true);
    if !renamed {
      return false, after, [];
    }
    if f.renameFile || base !in moved {
      return false, after.(home := map[], homeThere := false), [];
    }
    var home := (moved - {base})[roothash := moved[base]];
    if f.cached {
      home := home - {roothash};
    }
    after := after.(home := home);
    rewritten := RewritePaths(segments);
    ok := true;
  }

  /** The file can be read, is not empty and can be cut. */
  predicate Cuts(d: Disk, base: string, f: Faults)
    requires base in d.upload
  {
    !f.stat && |d.upload[base]| > 0 && !f.sharding
  }

  /**
   `fileProcess`, and exactly when it gives each of its answers. A file is tracked anew if the chain has neither
   owners nor an order for it, and nothing fails; this replaces the record that another account may have for it. A
   new record is written last, under its own root hash; by then its paths have been rewritten and the fragments are
   behind them.
   */
  method FileProcess(
    d: Disk, base: string, segments: seq<seq<Path>>, roothash: string, owner: string, chain: Chain, f: Faults)
    returns (reply: Reply, after: Disk)
    requires Sharded(d.upload, base, segments, roothash)
    ensures reply.NowTracked? <==>
      && Cuts(d, base, f) && chain.owners.None? && chain.orderUser.None?
      && !(d.homeThere && roothash in d.track) && !f.mkdir
      && Renames(d.upload, f.rename) && !f.renameFile && (base !in f.rename.unstatted || base in d.home)
      && !f.record
    ensures reply.AlreadyKnown? <==>
      Cuts(d, base, f) && if chain.owners.Some? then owner in chain.owners.value || !chain.declare
                          else chain.orderUser == Some(owner)
    ensures reply.DuplicateTracked? <==>
      && Cuts(d, base, f) && chain.owners.None? && chain.orderUser.Some? && chain.orderUser.value != owner
      && roothash !in d.track && !f.place.create && !f.place.write && !f.place.sync
    ensures reply.AlreadyTracked? <==>
      && Cuts(d, base, f) && chain.owners.None? && chain.orderUser.None? && d.homeThere && roothash in d.track
    ensures reply.NowTracked? ==>
      && roothash in after.track && after.track[roothash].Record?
      && var segments' := after.track[roothash].record.segments;
      && after.track == d.track[roothash := Record(Tracked(segments', owner, roothash, false))]
      && Relocated(d, after, segments, segments', f.rename.unstatted)
      && HomeHolds(d, after, base, roothash, f)
    ensures reply.DuplicateTracked? ==>
      after == d.(track := d.track[roothash := Record(Tracked(segments, owner, roothash, true))])
    ensures reply.AlreadyKnown? ==> after == d
    ensures reply.AlreadyTracked? ==> after == d.(home := if f.cached then d.home - {roothash} else d.home)
    ensures !reply.NowTracked? ==> forall name :: name in d.track ==>
      name in after.track && after.track[name] == d.track[name]
    ensures reply.Failed? ==> forall name :: name != roothash ==> (name in after.track <==> name in d.track)
    ensures reply.Failed? && roothash in after.track && roothash !in d.track ==>
      && chain.owners.None? && chain.orderUser.Some? && chain.orderUser.value != owner
      && (f.place.write || f.place.sync)
      && after.track[roothash] == if f.place.write then Torn else Record(Tracked(segments, owner, roothash, true))
    ensures reply.Failed? && (!Cuts(d, base, f) || chain.owners.Some? || chain.orderUser.Some? || f.mkdir) ==>
      after == d.(track := after.track)
    ensures reply.Failed? && Cuts(d, base, f) && chain.owners.None? && chain.orderUser.None? && !f.mkdir ==>
      if Renames(d.upload, f.rename) && !f.renameFile && (base !in f.rename.unstatted || base in d.home)
      then f.record && after.upload == map[] && after.track == d.track && HomeHolds(d, after, base, roothash, f)
      else after.track == d.track
    ensures reply.Failed? && after.upload != d.upload ==>
      Cuts(d, base, f) && chain.owners.None? && chain.orderUser.None? && !f.mkdir && after.track == d.track
    ensures OthersRecord(d.track, roothash, owner) ==>
      (OthersRecord(after.track, roothash, owner) <==> !reply.NowTracked?) && (reply.NowTracked? ==> !d.homeThere)
  {
    after := d;
    if f.stat || |d.upload[base]| == 0 || f.sharding {
      return Failed, after;
    }
    var verdict, track := Deduplicate(chain, segments, roothash, owner, f.place, d.track);
    if !verdict.New? {
      after := after.(track := track);
      return (match verdict
              case Known => AlreadyKnown
              case Duplicated => DuplicateTracked
              case _ => Failed), after;
    }
    if d.homeThere && roothash in d.track {
      return AlreadyTracked, after.(home := if f.cached then d.home - {roothash} else d.home);
    }
    if f.mkdir {
      return Failed, after;
    }
    var ok, rewritten;
    ok, after, rewritten := Relocate(d, base, segments, roothash, f);
    if !ok || f.record {
      return Failed, after;
    }
    after := after.(track := d.track[roothash := Record(Tracked(rewritten, owner, roothash, false))]);
    return NowTracked, after;
  }

  /**
   The end of a chunked upload: the upload directory is removed whatever `fileProcess` did; `stays` are the files
   that a removal that fails does not get to. A new record keeps its fragments; a duplicate's record was written
   without relocation, and each of its paths leads to a fragment exactly if the removal failed on it.
   */
  method FinishChunks(
    d: Disk, base: string, segments: seq<seq<Path>>, roothash: string, owner: string, chain: Chain, f: Faults,
      stays: set<string>)
    returns (reply: Reply, after: Disk)
    requires Sharded(d.upload, base, segments, roothash)
    ensures stays == {} ==> after.upload == map[]
    ensures reply.NowTracked? <==>
      && Cuts(d, base, f) && chain.owners.None? && chain.orderUser.None?
      && !(d.homeThere && roothash in d.track) && !f.mkdir
      && Renames(d.upload, f.rename) && !f.renameFile && (base !in f.rename.unstatted || base in d.home)
      && !f.record
    ensures reply.DuplicateTracked? <==>
      && Cuts(d, base, f) && chain.owners.None? && chain.orderUser.Some? && chain.orderUser.value != owner
      && roothash !in d.track && !f.place.create && !f.place.write && !f.place.sync
    ensures reply.NowTracked? ==>
      && roothash in after.track && after.track[roothash].Record?
      && Relocated(d, after, segments, after.track[roothash].record.segments, f.rename.unstatted)
    ensures reply.DuplicateTracked? ==>
      && roothash in after.track && after.track[roothash].Record?
      && |after.track[roothash].record.segments| == |segments|
      && forall i, j :: 0 <= i < |segments| && 0 <= j < |segments[i]| ==>
           && |after.track[roothash].record.segments[i]| == |segments[i]|
           && var name := segments[i][j].name;
           && (Resolves(after, after.track[roothash].record.segments[i][j], d.upload[name]) <==> name in stays)
  {
    reply, after := FileProcess(d, base, segments, roothash, owner, chain, f);
    after := after.(upload := Only(after.upload, stays));
  }
}
