/**
 Nothing locks one upload against another request for it. Here the handler is taken apart into what
 another request can come between: loading the record, creating the chunk file, which empties it, each
 write to it, and writing the record (or combining and removing the directory). Records are read and
 written whole.
 */
module ChunkRaces {
  import opened ChunkUpload

  // How far a request is with its chunk file. An open file belongs to the directory it was created in, which
  // is known by how often the directory was removed before.
  datatype Stage = Loaded | Opened(removals: nat) | Copied

  // A request that holds its own copy of the record.
  datatype Flight = Flight(info: ChunksInfo, index: nat, size: nat, stage: Stage)

  // `present` says whether the directory exists, `lengths` how long each chunk file in it is.
  datatype State = State(present: bool, removals: nat, record: InfoFile, lengths: map<nat, nat>,
    flights: map<nat, Flight>)

  datatype Move =
    | Begin(id: nat, index: nat, size: nat, r: Request, f: Faults)
    | Open(id: nat)                     // os.Create
    | Write(id: nat, upto: nat)         // io.Copy has come this far
    | Copy(id: nat)                     // io.Copy is done
    | Drop(id: nat)                     // the request ends with an error before its chunk is written
    | Finish(id: nat, write: InfoWrite)

  const START := State(false, 0, Absent, map[], map[])

  function LengthAt(lengths: map<nat, nat>, i: nat): nat {
    if i in lengths then lengths[i] else 0
  }

  function Max(a: nat, b: nat): nat {
    if a < b then b else a
  }

  function Bumped(flight: Flight): ChunksInfo
    requires flight.index < |flight.info.savedBlocks|
  {
    flight.info.(
      savedFileSize := flight.info.savedFileSize + flight.size,
      savedBlocks := flight.info.savedBlocks[flight.index := true],
      finished := flight.info.finished + 1)
  }

  ghost predicate FlightOk(flight: Flight) {
    && Consistent(flight.info)
    && flight.index < flight.info.blockNum && !flight.info.savedBlocks[flight.index]
    && flight.size + flight.info.savedFileSize <= flight.info.totalSize
  }

  ghost predicate Inv(s: State) {
    && (s.record.Stored? ==> Consistent(s.record.info))
    && (forall id :: id in s.flights ==> FlightOk(s.flights[id]))
  }

  /** A write at the end of what this request has written; into a removed directory it has no effect here. */
  function Filled(s: State, id: nat, upto: nat): map<nat, nat>
    requires id in s.flights && s.flights[id].stage.Opened?
  {
    var flight := s.flights[id];
    if flight.stage.removals == s.removals
    then s.lengths[flight.index := Max(LengthAt(s.lengths, flight.index), upto)]
    else s.lengths
  }

  function Move1(s: State, m: Move): State
    requires Inv(s)
  {
    match m
    case Begin(id, index, size, r, f) =>
      var made := s.(present := true);
      var loaded := Load(s.record, r, f);
      if id in s.flights || loaded.None? then made
      else if index >= loaded.value.blockNum || loaded.value.savedBlocks[index] then made
      else if size + loaded.value.savedFileSize > loaded.value.totalSize then made
      else made.(flights := s.flights[id := Flight(loaded.value, index, size, Loaded)])
    case Open(id) =>
      if id !in s.flights || !s.flights[id].stage.Loaded? then s
      else if !s.present then s.(flights := s.flights - {id})
      else
        var flight := s.flights[id];
        s.(lengths := s.lengths[flight.index := 0], flights := s.flights[id := flight.(stage := Opened(s.removals))])
    case Write(id, upto) =>
      if id !in s.flights || !s.flights[id].stage.Opened? || upto > s.flights[id].size then s
      else s.(lengths := Filled(s, id, upto))
    case Copy(id) =>
      if id !in s.flights || !s.flights[id].stage.Opened? then s
      else s.(lengths := Filled(s, id, s.flights[id].size), flights := s.flights[id := s.flights[id].(stage := Copied)])
    case Drop(id) =>
      if id in s.flights && !s.flights[id].stage.Copied? then s.(flights := s.flights - {id}) else s
    case Finish(id, write) =>
      if id !in s.flights || !s.flights[id].stage.Copied? then s
      else
        var flight := s.flights[id];
        var landed := s.(flights := s.flights - {id});
        if flight.info.blockNum == flight.info.finished + 1 then
          landed.(present := false, removals := s.removals + 1, record := Absent, lengths := map[])
        else if !s.present then landed
        else match write
          case Written => landed.(record := Stored(Bumped(flight)))
          case Kept => landed
          case Ripped => landed.(record := Torn)
  }

  lemma {:induction false} FreshIsConsistent(r: Request)
    requires 0 < r.blockNum && 0 < r.totalSize
    ensures Consistent(Fresh(r))
  {
    CountTrueFresh(r.blockNum);
  }

  lemma {:induction false} BumpedIsConsistent(flight: Flight)
    requires FlightOk(flight) && flight.info.blockNum != flight.info.finished + 1
    ensures Consistent(Bumped(flight))
  {
    CountTrueSet(flight.info.savedBlocks, flight.index);
  }

  lemma {:induction false} MoveKeepsInv(s: State, m: Move)
    requires Inv(s)
    ensures Inv(Move1(s, m))
  {
    match m
    case Begin(id, index, size, r, f) =>
      if 0 < r.blockNum && 0 < r.totalSize {
        FreshIsConsistent(r);
      }
    case Open(id) =>
    case Write(id, upto) =>
    case Copy(id) =>
    case Drop(id) =>
    case Finish(id, write) =>
      if id in s.flights && s.flights[id].info.blockNum != s.flights[id].info.finished + 1 {
        BumpedIsConsistent(s.flights[id]);
      }
  }

  function Play(moves: seq<Move>): (s: State)
    ensures Inv(s)
  {
    if moves == [] then START
    else
      var before := Play(moves[..|moves| - 1]);
      MoveKeepsInv(before, moves[|moves| - 1]);
      Move1(before, moves[|moves| - 1])
  }

  /** However requests interleave, the record counts its own bits and stays within the announced size. */
  lemma {:induction false} RecordStaysConsistent(moves: seq<Move>)
    requires Play(moves).record.Stored?
    ensures var info := Play(moves).record.info;
      && 0 <= info.finished < info.blockNum == |info.savedBlocks|
      && info.finished == CountTrue(info.savedBlocks)
      && 0 <= info.savedFileSize <= info.totalSize
  {
    var s := Play(moves);
    assert Inv(s);
  }

  function SumLengths(saved: seq<bool>, lengths: map<nat, nat>): nat {
    if saved == [] then 0
    else
      var last := |saved| - 1;
      SumLengths(saved[..last], lengths) + if saved[last] && last in lengths then lengths[last] else 0
  }

  ghost predicate SizesDisagree(s: State) {
    && s.record.Stored?
    && s.record.info.savedFileSize != SumLengths(s.record.info.savedBlocks, s.lengths)
  }

  /** Request `id` is about to combine, and a chunk it counts on is not there. */
  ghost predicate CombinesWithout(s: State, id: nat, index: nat) {
    && id in s.flights && s.flights[id].stage.Copied?
    && s.flights[id].info.blockNum == s.flights[id].info.finished + 1
    && index < s.flights[id].info.blockNum && index !in s.lengths
  }

  // ----- With a lock -----

  /** What a lock around the handler would give: no request begins while another is in flight. */
  ghost predicate Serialized(moves: seq<Move>) {
    forall k :: 0 <= k < |moves| && moves[k].Begin? ==> !moves[k].f.stat && Play(moves[..k]).flights == map[]
  }

  ghost predicate Last(flight: Flight) {
    flight.info.blockNum == flight.info.finished + 1
  }

  /** The record that a request in flight works on agrees with the chunk files. */
  ghost predicate Agrees(info: ChunksInfo, lengths: map<nat, nat>) {
    && info.savedFileSize == SumLengths(info.savedBlocks, lengths)
    && forall i :: 0 <= i < |info.savedBlocks| && info.savedBlocks[i] ==> i in lengths
  }

  ghost predicate Quiet(s: State) {
    && (forall id, id' :: id in s.flights && id' in s.flights ==> id == id')
    && (s.record.Stored? ==> Agrees(s.record.info, s.lengths))
    && (s.record.Torn? ==> s.flights == map[])
    && (forall id :: id in s.flights ==>
          var flight := s.flights[id];
          && s.present
          && Agrees(flight.info, s.lengths)
          && (s.record.Stored? ==> flight.info == s.record.info)
          && (flight.stage.Opened? ==>
            flight.stage.removals == s.removals && LengthAt(s.lengths, flight.index) <= flight.size)
          && (flight.stage.Copied? ==> flight.index in s.lengths && s.lengths[flight.index] == flight.size))
  }

  // Writing a chunk that is not recorded leaves the sum alone.
  lemma {:induction false} SumLengthsFrame(saved: seq<bool>, lengths: map<nat, nat>, i: nat, size: nat)
    requires i < |saved| ==> !saved[i]
    ensures SumLengths(saved, lengths[i := size]) == SumLengths(saved, lengths)
  {
    if saved != [] {
      SumLengthsFrame(saved[..|saved| - 1], lengths, i, size);
    }
  }

  lemma {:induction false} SumLengthsSet(saved: seq<bool>, lengths: map<nat, nat>, i: nat)
    requires i < |saved| && !saved[i]
    ensures SumLengths(saved[i := true], lengths) == SumLengths(saved, lengths) + LengthAt(lengths, i)
  {
    var last := |saved| - 1;
    if i < last {
      SumLengthsSet(saved[..last], lengths, i);
      assert saved[i := true][..last] == saved[..last][i := true];
    } else {
      assert saved[i := true][..last] == saved[..last];
    }
  }

  // Writing a chunk that is recorded changes the sum by the difference of the lengths.
  lemma {:induction false} SumLengthsOver(saved: seq<bool>, lengths: map<nat, nat>, i: nat, size: nat)
    requires i < |saved| && saved[i]
    ensures SumLengths(saved, lengths[i := size]) == SumLengths(saved, lengths) - LengthAt(lengths, i) + size
  {
    var last := |saved| - 1;
    if i < last {
      SumLengthsOver(saved[..last], lengths, i, size);
    } else {
      SumLengthsFrame(saved[..last], lengths, i, size);
    }
  }

  lemma {:induction false} SumLengthsFresh(n: nat, lengths: map<nat, nat>)
    ensures SumLengths(seq(n, _ => false), lengths) == 0
  {
    if n > 0 {
      assert seq(n, _ => false)[..n - 1] == seq(n - 1, _ => false);
      SumLengthsFresh(n - 1, lengths);
    }
  }

  lemma {:induction false} BeginKeepsQuiet(s: State, m: Move)
    requires Inv(s) && Quiet(s) && m.Begin? && !m.f.stat && s.flights == map[]
    ensures Quiet(Move1(s, m))
  {
    if 0 < m.r.blockNum {
      SumLengthsFresh(m.r.blockNum, s.lengths);
    }
  }

  // Whatever a request does to its own chunk file before the record.
  lemma {:induction false} ChunkKeepsQuiet(s: State, m: Move)
    requires Inv(s) && Quiet(s) && (m.Open? || m.Write? || m.Copy? || m.Drop?)
    ensures Quiet(Move1(s, m))
  {
    if m.id in s.flights && !s.flights[m.id].stage.Copied? {
      var flight := s.flights[m.id];
      var size := if m.Open? then 0
        else Max(LengthAt(s.lengths, flight.index), if m.Write? then m.upto else flight.size);
      SumLengthsFrame(flight.info.savedBlocks, s.lengths, flight.index, size);
    }
  }

  lemma {:induction false} FinishKeepsQuiet(s: State, id: nat, write: InfoWrite)
    requires Inv(s) && Quiet(s)
    ensures Quiet(Move1(s, Finish(id, write)))
  {
    if id in s.flights {
      SumLengthsSet(s.flights[id].info.savedBlocks, s.lengths, s.flights[id].index);
    }
  }

  lemma {:induction false} StaysQuiet(moves: seq<Move>)
    requires Serialized(moves)
    ensures Quiet(Play(moves))
  {
    if moves != [] {
      var before, m := moves[..|moves| - 1], moves[|moves| - 1];
      assert forall k :: 0 <= k < |before| ==> before[..k] == moves[..k];
      StaysQuiet(before);
      match m
      case Begin(_, _, _, _, _) => BeginKeepsQuiet(Play(before), m);
      case Finish(id, write) => FinishKeepsQuiet(Play(before), id, write);
      case _ => ChunkKeepsQuiet(Play(before), m);
    }
  }

  /**
   With a lock around the handler the size account always agrees with the chunk files, and no request
   combines while a chunk is missing.
   */
  lemma {:induction false} SerializedAgrees(moves: seq<Move>)
    requires Serialized(moves)
    ensures !SizesDisagree(Play(moves))
    ensures forall id, index :: !CombinesWithout(Play(moves), id, index)
  {
    StaysQuiet(moves);
    var s := Play(moves);
    forall id, index: nat
      | id in s.flights && s.flights[id].stage.Copied? && Last(s.flights[id]) && index < s.flights[id].info.blockNum
      ensures index in s.lengths
    {
      var flight := s.flights[id];
      if index != flight.index {
        Pigeonhole(flight.info.savedBlocks, flight.index, index);
      }
    }
  }

  // ----- Without it: which step breaks what -----

  /** The account that a request is about to write is not the account of the chunk files. */
  predicate WritesWrongSum(s: State, id: nat)
    requires id in s.flights
  {
    var flight := s.flights[id];
    SumLengths(flight.info.savedBlocks, s.lengths) + LengthAt(s.lengths, flight.index) !=
      flight.info.savedFileSize + flight.size
  }

  /** Writing so many bytes as this chunk changes a chunk that is recorded. */
  predicate Overwrites(s: State, index: nat, size: nat) {
    && s.record.Stored? && index < |s.record.info.savedBlocks| && s.record.info.savedBlocks[index]
    && LengthAt(s.lengths, index) != size
  }

  /** Writing so far makes a recorded chunk longer. */
  predicate Lengthens(s: State, id: nat, upto: nat)
    requires id in s.flights
  {
    Overwrites(s, s.flights[id].index, Max(LengthAt(s.lengths, s.flights[id].index), upto))
  }

  /** What makes a step break the size account. */
  predicate BreaksSizes(s: State, m: Move)
    requires Inv(s)
  {
    match m
    case Begin(_, _, _, _, _) => false
    case Open(id) =>
      id in s.flights && s.flights[id].stage.Loaded? && s.present && Overwrites(s, s.flights[id].index, 0)
    case Write(id, upto) =>
      id in s.flights && s.flights[id].stage == Opened(s.removals) && upto <= s.flights[id].size &&
        Lengthens(s, id, upto)
    case Copy(id) =>
      id in s.flights && s.flights[id].stage == Opened(s.removals) && Lengthens(s, id, s.flights[id].size)
    case Drop(id) => false
    case Finish(id, write) =>
      && id in s.flights && s.flights[id].stage.Copied? && s.present && write.Written?
      && s.flights[id].info.blockNum != s.flights[id].info.finished + 1
      && WritesWrongSum(s, id)
  }

  lemma {:induction false} OverwritesIff(s: State, index: nat, size: nat)
    requires s.record.Stored? && !SizesDisagree(s)
    ensures SumLengths(s.record.info.savedBlocks, s.lengths[index := size]) != s.record.info.savedFileSize <==>
      Overwrites(s, index, size)
  {
    var saved := s.record.info.savedBlocks;
    if index < |saved| && saved[index] {
      SumLengthsOver(saved, s.lengths, index, size);
    } else {
      SumLengthsFrame(saved, s.lengths, index, size);
    }
  }

  /**
   From an agreeing state the account is broken exactly by creating or writing the file of a recorded chunk so
   that its length changes, or by a record that does not add up with the chunk files there when it is written.
   */
  lemma {:induction false} BreaksSizesIff(s: State, m: Move)
    requires Inv(s) && !SizesDisagree(s)
    ensures SizesDisagree(Move1(s, m)) <==> BreaksSizes(s, m)
  {
    match m
    case Begin(_, _, _, _, _) =>
    case Finish(id, write) =>
      if id in s.flights {
        SumLengthsSet(s.flights[id].info.savedBlocks, s.lengths, s.flights[id].index);
      }
    case Open(id) =>
      if id in s.flights && s.record.Stored? {
        OverwritesIff(s, s.flights[id].index, 0);
      }
    case Write(id, upto) =>
      if id in s.flights && s.record.Stored? {
        OverwritesIff(s, s.flights[id].index, Max(LengthAt(s.lengths, s.flights[id].index), upto));
      }
    case Copy(id) =>
      if id in s.flights && s.record.Stored? {
        OverwritesIff(s, s.flights[id].index, Max(LengthAt(s.lengths, s.flights[id].index), s.flights[id].size));
      }
    case Drop(id) =>
  }

  /** A request whose copy of the record is current breaks the account only if its chunk was overwritten. */
  lemma {:induction false} CurrentWritesWrongSumIff(s: State, id: nat)
    requires Inv(s) && !SizesDisagree(s) && id in s.flights && s.record == Stored(s.flights[id].info)
    ensures WritesWrongSum(s, id) <==> LengthAt(s.lengths, s.flights[id].index) != s.flights[id].size
  {
  }

  ghost predicate NoneMissing(s: State) {
    forall id, index :: !CombinesWithout(s, id, index)
  }

  /** When this chunk file is written some chunk is still missing: its own, if the directory was removed meanwhile. */
  ghost predicate LeavesGap(s: State, flight: Flight) {
    exists index: nat ::
      index < flight.info.blockNum && index !in s.lengths &&
        !(index == flight.index && flight.stage == Opened(s.removals))
  }

  /** What brings a request to combining without one of its chunks. */
  ghost predicate Loses(s: State, m: Move) {
    match m
    case Begin(_, _, _, _, _) => false
    case Copy(id) => id in s.flights && s.flights[id].stage.Opened? && Last(s.flights[id]) &&
      LeavesGap(s, s.flights[id])
    case Finish(id, write) =>
      && id in s.flights && s.flights[id].stage.Copied? && Last(s.flights[id])
      && exists other :: other != id && other in s.flights && s.flights[other].stage.Copied? && Last(s.flights[other])
    case _ => false
  }

  lemma {:induction false} CopyLosesIff(s: State, id: nat)
    requires Inv(s) && NoneMissing(s)
    ensures !NoneMissing(Move1(s, Copy(id))) <==> Loses(s, Copy(id))
  {
    var t := Move1(s, Copy(id));
    if Loses(s, Copy(id)) {
      var flight := s.flights[id];
      var index: nat :|
        index < flight.info.blockNum && index !in s.lengths &&
          !(index == flight.index && flight.stage == Opened(s.removals));
      assert CombinesWithout(t, id, index);
    } else {
      forall other, index ensures !CombinesWithout(t, other, index) {
        assert !CombinesWithout(s, other, index);
      }
    }
  }

  lemma {:induction false} FinishLosesIff(s: State, id: nat, write: InfoWrite)
    requires Inv(s) && NoneMissing(s)
    ensures !NoneMissing(Move1(s, Finish(id, write))) <==> Loses(s, Finish(id, write))
  {
    var t := Move1(s, Finish(id, write));
    if Loses(s, Finish(id, write)) {
      var other :| other != id && other in s.flights && s.flights[other].stage.Copied? && Last(s.flights[other]);
      assert FlightOk(s.flights[other]);
      assert CombinesWithout(t, other, 0);
    } else {
      forall other, index ensures !CombinesWithout(t, other, index) {
        assert !CombinesWithout(s, other, index);
      }
    }
  }

  /**
   A chunk comes to be missing exactly when a last chunk is written and another one is not there, or its own
   directory is not, or when a second request is about to combine while the first one ends.
   */
  lemma {:induction false} LosesIff(s: State, m: Move)
    requires Inv(s) && NoneMissing(s)
    ensures !NoneMissing(Move1(s, m)) <==> Loses(s, m)
  {
    match m
    case Copy(id) => CopyLosesIff(s, id);
    case Finish(id, write) => FinishLosesIff(s, id, write);
    case _ =>
      forall other, index ensures !CombinesWithout(Move1(s, m), other, index) {
        assert !CombinesWithout(s, other, index);
      }
  }

  /** The record stays, and says of chunk i that it is saved. */
  predicate SaysSaved(s: State, i: nat) {
    s.record.Stored? && i < |s.record.info.savedBlocks| && s.record.info.savedBlocks[i]
  }

  /** A request whose copy of the record is older than chunk i writes it back. */
  predicate WritesBackOlder(s: State, m: Move, i: nat)
    requires Inv(s)
  {
    && m.Finish? && m.id in s.flights && s.flights[m.id].stage.Copied? && s.present && m.write.Written?
    && s.flights[m.id].info.blockNum != s.flights[m.id].info.finished + 1
    && i != s.flights[m.id].index
    && !(i < |s.flights[m.id].info.savedBlocks| && s.flights[m.id].info.savedBlocks[i])
  }

  /** A chunk that was answered as saved is forgotten, while the record stays, exactly by such a request. */
  lemma {:induction false} ForgetsIff(s: State, m: Move, i: nat)
    requires Inv(s) && SaysSaved(s, i)
    ensures Move1(s, m).record.Stored? && !SaysSaved(Move1(s, m), i) <==> WritesBackOlder(s, m, i)
  {
  }

  // ----- Without it: what does happen -----

  ghost predicate Reached(s: State) {
    exists moves :: Play(moves) == s
  }

  lemma {:induction false} ReachedIsClosed(s: State, m: Move)
    requires Inv(s) && Reached(s)
    ensures Reached(Move1(s, m))
  {
    var moves :| Play(moves) == s;
    assert (moves + [m])[..|moves|] == moves;
    assert Play(moves + [m]) == Move1(s, m);
  }

  /** Holds of the start, and of whatever one more move leads to. */
  ghost predicate Closed(r: State -> bool) {
    r(START) && forall s, m :: Inv(s) && r(s) ==> r(Move1(s, m))
  }

  lemma {:induction false} Onwards(r: State -> bool, s: State, m: Move) returns (s': State)
    requires Closed(r) && Inv(s) && r(s)
    ensures Inv(s') && r(s') && s' == Move1(s, m)
  {
    MoveKeepsInv(s, m);
    s' := Move1(s, m);
  }

  // Requests for a two-chunk upload of at most 100 bytes.
  const HEADERS := Request("movie", 0, 2, 100, [])

  function Arrive(id: nat, index: nat, size: nat): Move {
    Begin(id, index, size, HEADERS, NO_FAULTS)
  }

  // What each kind of move does when nothing is in its way.
  lemma {:induction false} Arriving(r: State -> bool, s: State, id: nat, index: nat, size: nat) returns (s': State)
    requires Closed(r) && Inv(s) && r(s) && id !in s.flights && !s.record.Torn?
    requires var info := if s.record.Stored? then s.record.info else Fresh(HEADERS);
      index < |info.savedBlocks| == info.blockNum && !info.savedBlocks[index] &&
        size + info.savedFileSize <= info.totalSize
    ensures Inv(s') && r(s')
    ensures var info := if s.record.Stored? then s.record.info else Fresh(HEADERS);
      s' == State(true, s.removals, s.record, s.lengths, s.flights[id := Flight(info, index, size, Loaded)])
  {
    s' := Onwards(r, s, Arrive(id, index, size));
  }

  lemma {:induction false} Opening(r: State -> bool, s: State, id: nat) returns (s': State)
    requires Closed(r) && Inv(s) && r(s) && s.present && id in s.flights && s.flights[id].stage.Loaded?
    ensures Inv(s') && r(s')
    ensures s' == State(true, s.removals, s.record, s.lengths[s.flights[id].index := 0],
                        s.flights[id := s.flights[id].(stage := Opened(s.removals))])
  {
    s' := Onwards(r, s, Open(id));
  }

  // Creating the chunk file and writing it, with nothing in between.
  lemma {:induction false} Copying(r: State -> bool, s: State, id: nat) returns (s': State)
    requires Closed(r) && Inv(s) && r(s) && s.present && id in s.flights && s.flights[id].stage.Loaded?
    ensures Inv(s') && r(s')
    ensures s' == State(true, s.removals, s.record, s.lengths[s.flights[id].index := s.flights[id].size],
                        s.flights[id := s.flights[id].(stage := Copied)])
  {
    var created := Opening(r, s, id);
    s' := Onwards(r, created, Copy(id));
    assert s'.lengths == s.lengths[s.flights[id].index := s.flights[id].size];
    assert s'.flights == s.flights[id := s.flights[id].(stage := Copied)];
  }

  lemma {:induction false} Finishing(r: State -> bool, s: State, id: nat) returns (s': State)
    requires Closed(r) && Inv(s) && r(s) && s.present && id in s.flights && s.flights[id].stage.Copied?
    ensures Inv(s') && r(s') && FlightOk(s.flights[id])
    ensures s' ==
      if s.flights[id].info.blockNum == s.flights[id].info.finished + 1
      then State(false, s.removals + 1, Absent, map[], s.flights - {id})
      else State(true, s.removals, Stored(Bumped(s.flights[id])), s.lengths, s.flights - {id})
  {
    s' := Onwards(r, s, Finish(id, Written));
  }

  lemma {:induction false} FreshFlight(i: nat, m: nat) returns (flight: Flight)
    requires i < 2 && m <= 100
    ensures flight == Flight(Fresh(HEADERS), i, m, Loaded) && FlightOk(flight)
  {
    FreshIsConsistent(HEADERS);
    flight := Flight(Fresh(HEADERS), i, m, Loaded);
  }

  // Requests 0 and 1 both load the empty record, and request 0 is recorded first.
  lemma {:induction false} FirstOfTwo(r: State -> bool, i: nat, m: nat, j: nat, n: nat)
    returns (s: State, first: Flight, second: Flight)
    requires Closed(r) && i < 2 && j < 2 && m <= 100 && n <= 100
    ensures first == Flight(Fresh(HEADERS), i, m, Loaded) && second == Flight(Fresh(HEADERS), j, n, Loaded)
    ensures FlightOk(first) && FlightOk(second) && Inv(s) && r(s)
    ensures s == State(true, 0, Stored(Bumped(first)), map[i := m], map[1 := second])
  {
    first := FreshFlight(i, m);
    second := FreshFlight(j, n);
    s := Arriving(r, START, 0, i, m);
    s := Arriving(r, s, 1, j, n);
    s := Copying(r, s, 0);
    assert s.lengths == map[i := m];
    s := Finishing(r, s, 0);
    assert s.flights == map[1 := second];
  }

  lemma {:induction false} SizesCanDisagree(r: State -> bool)
    requires Closed(r)
    ensures exists s :: r(s) && SizesDisagree(s)
  {
    var s, first, second := FirstOfTwo(r, 0, 7, 0, 9);
    s := Copying(r, s, 1);
    var saved := Bumped(first).savedBlocks;
    assert saved == [true, false] && saved[..1] == [true] && saved[..1][..0] == [];
    assert SumLengths([true], map[0 := 9]) == 9;
    assert SizesDisagree(s);
  }

  /** A chunk was recorded, and the next request to be recorded forgets it. */
  ghost predicate IsForgetting(s: State) {
    Inv(s) && SaysSaved(s, 0) && WritesBackOlder(s, Finish(1, Written), 0)
  }

  lemma {:induction false} UpdateCanBeLost(r: State -> bool)
    requires Closed(r)
    ensures exists s :: r(s) && IsForgetting(s)
  {
    var s, first, second := FirstOfTwo(r, 0, 7, 1, 9);
    s := Copying(r, s, 1);
    assert Bumped(first).savedBlocks[0] && !second.info.savedBlocks[0];
    assert IsForgetting(s);
  }

  // A slow request has its chunk written while another one completes the upload and removes the directory.
  lemma {:induction false} SlowOneLeft(r: State -> bool) returns (s: State, slow: Flight)
    requires Closed(r)
    ensures slow == Flight(Fresh(HEADERS), 1, 9, Loaded) && FlightOk(slow) && Inv(s) && r(s)
    ensures s == State(false, 1, Absent, map[], map[1 := slow.(stage := Copied)])
  {
    var first;
    s, first, slow := FirstOfTwo(r, 0, 7, 1, 9);
    s := Copying(r, s, 1);
    s := Arriving(r, s, 2, 1, 9);
    s := Copying(r, s, 2);
    s := Finishing(r, s, 2);
    assert s.flights == map[1 := slow.(stage := Copied)];
  }

  lemma {:induction false} ChunkCanBeMissing(r: State -> bool)
    requires Closed(r)
    ensures exists s :: r(s) && CombinesWithout(s, 4, 1)
  {
    var s, slow := SlowOneLeft(r);
    s := Arriving(r, s, 3, 0, 7);
    s := Finishing(r, s, 1);
    s := Arriving(r, s, 4, 0, 7);
    s := Copying(r, s, 4);
    assert CombinesWithout(s, 4, 1);
  }

  lemma {:induction false} ReachedStates() returns (r: State -> bool)
    ensures Closed(r) && forall s :: r(s) ==> Reached(s)
  {
    r := s => Reached(s);
    assert Play([]) == START;
    forall s, m | Inv(s) && r(s) ensures r(Move1(s, m)) {
      ReachedIsClosed(s, m);
    }
  }

  /** The size account of serialized requests does not survive: one copy stays, the other is counted. */
  lemma {:induction false} SizesDisagreeUnderRaces()
    ensures exists moves :: SizesDisagree(Play(moves))
  {
    var r := ReachedStates();
    SizesCanDisagree(r);
    var s :| r(s) && SizesDisagree(s);
    assert Reached(s);
  }

  /**
   The chunk a record counts on can be gone: a slow request records its chunk after another one has
   completed the upload and removed the directory, and a third has made it anew.
   */
  lemma {:induction false} ChunkMissingUnderRaces()
    ensures exists moves :: CombinesWithout(Play(moves), 4, 1)
  {
    var r := ReachedStates();
    ChunkCanBeMissing(r);
    var s :| r(s) && CombinesWithout(s, 4, 1);
    assert Reached(s);
  }

  /** Two requests load the same record, both are answered as saved, and the second forgets the first. */
  lemma {:induction false} UpdateLostUnderRaces()
    ensures exists moves :: SaysSaved(Play(moves), 0) && Play(moves + [Finish(1, Written)]).record.Stored? &&
                            !SaysSaved(Play(moves + [Finish(1, Written)]), 0)
  {
    var r := ReachedStates();
    UpdateCanBeLost(r);
    var s :| r(s) && IsForgetting(s);
    assert Reached(s);
    var moves :| Play(moves) == s;
    assert (moves + [Finish(1, Written)])[..|moves|] == moves;
    ForgetsIff(s, Finish(1, Written), 0);
  }
}
