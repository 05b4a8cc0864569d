/**
 The scanner `tracker` and its workers: which files are being tracked at any moment of any interleaving.
 */
module TrackScheduler {
  const MAX_TRACK_THREAD := 10

  function Added(trackFiles: set<string>, fid: string): (set<string>, bool) {
    if |trackFiles| >= MAX_TRACK_THREAD || fid in trackFiles then (trackFiles, false) else (trackFiles + {fid}, true)
  }

  /** The bounded set behind the lock; each method is one critical section. */
  class TrackFileType {
    var trackFiles: set<string>

    constructor ()
      ensures trackFiles == {}
    {
      trackFiles := {};
    }

    method AddTrackFile(fid: string) returns (ok: bool)
      modifies this
      ensures (trackFiles, ok) == Added(old(trackFiles), fid)
      ensures ok <==> |old(trackFiles)| < 10 && fid !in old(trackFiles)
      ensures trackFiles == old(trackFiles) + if ok then {fid} else {}
    {
      if |trackFiles| >= MAX_TRACK_THREAD {
        return false;
      }
      if fid in trackFiles {
        return false;
      }
      trackFiles := trackFiles + {fid};
      return true;
    }

    method GetTrackFileNum() returns (n: nat)
      ensures n == |trackFiles|
    {
      n := |trackFiles|;
    }

    method DelTrackFile(fid: string)
      modifies this
      ensures trackFiles == old(trackFiles) - {fid}
    {
      trackFiles := trackFiles - {fid};
    }
  }

  // Between its critical sections the scanner holds the files it has still to look at; after a
  // successful AddTrackFile it holds the file it is about to start a worker for.
  datatype Scanner = Idle | Looking(files: seq<string>) | Starting(file: string, files: seq<string>)

  // A worker whose `done` is set has returned from trackFile and has yet to call DelTrackFile.
  datatype Worker = Worker(file: string, done: bool)

  datatype State = State(tracked: set<string>, scanner: Scanner, workers: map<nat, Worker>)

  datatype Move =
    | List(files: seq<string>)        // ListTrackFiles, then the test of GetTrackFileNum
    | Look(there: bool)             // os.Stat and AddTrackFile on the next file
    | Start(id: nat)                  // the go statement
    | Return(id: nat)                 // trackFile returns
    | Delete(id: nat)                 // the deferred DelTrackFile

  const INITIAL := State({}, Idle, map[])

  function Next(s: State, m: Move): State {
    match m
    case List(files) =>
      if s.scanner.Idle? && |s.tracked| < MAX_TRACK_THREAD then s.(scanner := Looking(files)) else s
    case Look(there) =>
      if !s.scanner.Looking? then s
      else if s.scanner.files == [] then s.(scanner := Idle)
      else
        var file, rest := s.scanner.files[0], s.scanner.files[1..];
        var (tracked, ok) := Added(s.tracked, file);
        if !there || !ok then s.(scanner := Looking(rest))
        else s.(tracked := tracked, scanner := Starting(file, rest))
    case Start(id) =>
      if s.scanner.Starting? && id !in s.workers
      then s.(scanner := Looking(s.scanner.files), workers := s.workers[id := Worker(s.scanner.file, false)])
      else s
    case Return(id) =>
      if id in s.workers then s.(workers := s.workers[id := s.workers[id].(done := true)]) else s
    case Delete(id) =>
      if id in s.workers && s.workers[id].done
      then s.(tracked := s.tracked - {s.workers[id].file}, workers := s.workers - {id})
      else s
  }

  function Run(moves: seq<Move>): State {
    if moves == [] then INITIAL else Next(Run(moves[..|moves| - 1]), moves[|moves| - 1])
  }

  ghost predicate Works(s: State, file: string) {
    exists id :: id in s.workers && s.workers[id].file == file
  }

  /** Tracked is whatever has a worker or is about to get one, and no file has two. */
  ghost predicate Inv(s: State) {
    && (forall file :: file in s.tracked <==> Works(s, file) || (s.scanner.Starting? && s.scanner.file == file))
    && (forall id, id' :: id in s.workers && id' in s.workers && s.workers[id].file == s.workers[id'].file ==>
      id == id')
    && (s.scanner.Starting? ==> !Works(s, s.scanner.file))
    && |s.tracked| <= MAX_TRACK_THREAD
  }

  // The files with a worker are those of the workers before, and perhaps one more or one less.
  lemma {:induction false} WorksAfterStart(s: State, id: nat)
    requires s.scanner.Starting? && id !in s.workers
    ensures forall file :: Works(Next(s, Start(id)), file) <==> Works(s, file) || file == s.scanner.file
  {
    var t := Next(s, Start(id));
    forall file ensures Works(t, file) <==> Works(s, file) || file == s.scanner.file {
      if Works(s, file) {
        var w :| w in s.workers && s.workers[w].file == file;
        assert t.workers[w].file == file;
      }
      assert t.workers[id].file == s.scanner.file;
    }
  }

  lemma {:induction false} WorksAfterReturn(s: State, id: nat)
    requires id in s.workers
    ensures forall file :: Works(Next(s, Return(id)), file) <==> Works(s, file)
  {
    var t := Next(s, Return(id));
    forall file ensures Works(t, file) <==> Works(s, file) {
      if Works(s, file) {
        var w :| w in s.workers && s.workers[w].file == file;
        assert t.workers[w].file == file;
      }
    }
  }

  lemma {:induction false} WorksAfterDelete(s: State, id: nat)
    requires Inv(s) && id in s.workers && s.workers[id].done
    ensures forall file :: Works(Next(s, Delete(id)), file) <==> Works(s, file) && file != s.workers[id].file
  {
    var t := Next(s, Delete(id));
    forall file ensures Works(t, file) <==> Works(s, file) && file != s.workers[id].file {
      if Works(s, file) && file != s.workers[id].file {
        var w :| w in s.workers && s.workers[w].file == file;
        assert t.workers[w].file == file;
      }
    }
  }

  lemma {:induction false} LookKeepsInv(s: State, there: bool)
    requires Inv(s)
    ensures Inv(Next(s, Look(there)))
  {
    var t := Next(s, Look(there));
    assert t.workers == s.workers;
    assert forall file :: Works(t, file) <==> Works(s, file);
  }

  lemma {:induction false} StartKeepsInv(s: State, id: nat)
    requires Inv(s)
    ensures Inv(Next(s, Start(id)))
  {
    if s.scanner.Starting? && id !in s.workers {
      WorksAfterStart(s, id);
      assert forall w :: w in s.workers ==> s.workers[w].file != s.scanner.file;
    }
  }

  lemma {:induction false} ReturnKeepsInv(s: State, id: nat)
    requires Inv(s)
    ensures Inv(Next(s, Return(id)))
  {
    if id in s.workers {
      WorksAfterReturn(s, id);
    }
  }

  lemma {:induction false} DeleteKeepsInv(s: State, id: nat)
    requires Inv(s)
    ensures Inv(Next(s, Delete(id)))
  {
    if id in s.workers && s.workers[id].done {
      WorksAfterDelete(s, id);
      assert Works(s, s.workers[id].file);
    }
  }

  lemma {:induction false} NextKeepsInv(s: State, m: Move)
    requires Inv(s)
    ensures Inv(Next(s, m))
  {
    match m
    case List(files) => assert forall file :: Works(Next(s, m), file) <==> Works(s, file);
    case Look(there) => LookKeepsInv(s, there);
    case Start(id) => StartKeepsInv(s, id);
    case Return(id) => ReturnKeepsInv(s, id);
    case Delete(id) => DeleteKeepsInv(s, id);
  }

  lemma {:induction false} RunKeepsInv(moves: seq<Move>)
    ensures Inv(Run(moves))
  {
    if moves != [] {
      RunKeepsInv(moves[..|moves| - 1]);
      NextKeepsInv(Run(moves[..|moves| - 1]), moves[|moves| - 1]);
    }
  }

  // Workers with different files are no more than the files.
  lemma {:induction false} NoMoreWorkersThanFiles(workers: map<nat, Worker>, files: set<string>)
    requires forall id, id' :: id in workers && id' in workers && workers[id].file == workers[id'].file ==> id == id'
    requires forall id :: id in workers ==> workers[id].file in files
    ensures |workers| <= |files|
    decreases |workers|
  {
    if workers != map[] {
      var id :| id in workers;
      var fewer := workers - {id};
      assert fewer.Keys == workers.Keys - {id};
      assert |workers| == |workers.Keys| && |fewer| == |fewer.Keys|;
      NoMoreWorkersThanFiles(fewer, files - {workers[id].file});
    }
  }

  /**
   At every point of every interleaving: the tracked set is the files of the workers and of the one
   being started, no file has two workers, and there are at most ten workers.
   */
  lemma {:induction false} AtMostTenWorkers(moves: seq<Move>)
    ensures var s := Run(moves);
      && |s.tracked| <= 10
      && |s.workers| + (if s.scanner.Starting? then 1 else 0) <= 10
      && (forall id, id' :: id in s.workers && id' in s.workers && s.workers[id].file == s.workers[id'].file ==>
        id == id')
      && (forall file :: file in s.tracked <==> Works(s, file) || (s.scanner.Starting? && s.scanner.file == file))
  {
    RunKeepsInv(moves);
    var s := Run(moves);
    forall id | id in s.workers ensures s.workers[id].file in s.tracked {
      assert Works(s, s.workers[id].file);
    }
    if s.scanner.Starting? {
      forall id | id in s.workers ensures s.workers[id].file in s.tracked - {s.scanner.file} {
        assert Works(s, s.workers[id].file);
      }
      NoMoreWorkersThanFiles(s.workers, s.tracked - {s.scanner.file});
      assert |s.tracked - {s.scanner.file}| == |s.tracked| - 1;
    } else {
      NoMoreWorkersThanFiles(s.workers, s.tracked);
    }
  }

  /** A listed file that is there and free gets a worker as soon as there is room, and is free again when it is done. */
  lemma {:induction false} FreeFileIsTracked(s: State, file: string, rest: seq<string>, id: nat)
    requires s.scanner.Idle? && file !in s.tracked && |s.tracked| < 10 && id !in s.workers
    ensures var looking := Next(s, List([file] + rest));
      var started := Next(Next(looking, Look(true)), Start(id));
      var ended := Next(Next(started, Return(id)), Delete(id));
      && started == State(s.tracked + {file}, Looking(rest), s.workers[id := Worker(file, false)])
      && ended == State(s.tracked, Looking(rest), s.workers)
  {
    var looking := Next(s, List([file] + rest));
    assert ([file] + rest)[1..] == rest;
    var started := Next(Next(looking, Look(true)), Start(id));
    assert s.tracked + {file} - {file} == s.tracked;
    assert s.workers[id := Worker(file, true)] - {id} == s.workers;
    assert started.workers[id := Worker(file, true)] == s.workers[id := Worker(file, true)];
  }

  /** A file that is missing, already tracked, or one too many is passed over; with ten tracked none is looked at. */
  lemma {:induction false} OtherFilesArePassedOver(s: State, there: bool)
    requires s.scanner.Looking? && s.scanner.files != []
    requires !there || s.scanner.files[0] in s.tracked || |s.tracked| >= 10
    ensures Next(s, Look(there)) == s.(scanner := Looking(s.scanner.files[1..]))
    ensures |s.tracked| >= 10 ==> forall files :: Next(s.(scanner := Idle), List(files)) == s.(scanner := Idle)
  {
  }
}
