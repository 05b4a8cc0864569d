/**
 The track directory: `WriteTrackFile` step by step, with readers under the same lock and removals
 beside it. A record is written to a temporary name first and renamed.
 */
module TrackDirectory {
  import opened Text
  import TrackLifecycle

  // A record in the directory is named by its file hash, a temporary file by a UUID.
  const HASH_LENGTH := 64
  const UUID_LENGTH := 36

  // What matters of a record: the hash it says it is for.
  datatype Content = Partial | Whole(roothash: string)

  datatype Phase = Locked | Created | Filled | Synced | Cleaning | Cleaned

  datatype Writer = Writer(temp: string, name: string, roothash: string, phase: Phase)

  datatype Sight = Listed(names: set<string>) | Parsed(name: string, content: Content)

  // The directory, the holder of the write lock, the holders of the read lock, and what readers saw.
  datatype State = State(dir: map<string, Content>, writer: Option<Writer>, readers: set<nat>, seen: seq<Sight>)

  datatype Move =
    | Lock(temp: string, name: string, roothash: string)      // a new record
    | Rewrite(temp: string, name: string, sight: nat)         // trackFile writes back what it parsed
    | Create(ok: bool) | Fill(ok: bool) | Sync(ok: bool) | Rename(ok: bool) | RemoveTemp | Unlock
    | Delete(name: string)            // DeleteTrackFile, under the write lock
    | Remove(name: string)            // delHandle, under no lock
    | ReadLock(id: nat) | ListAll(id: nat) | Parse(id: nat, name: string) | ReadUnlock(id: nat)
    | CreateInPlace(name: string)     // deduplication, under no lock
    | FillInPlace(name: string, roothash: string)
    | Crash

  const INITIAL := State(map[], None, {}, [])

  function WriterStep(s: State, w: Writer, m: Move): State {
    match (m, w.phase)
    // Without a temporary file there is nothing to remove.
    case (Create(ok), Locked) =>
      if ok then s.(dir := s.dir[w.temp := Partial], writer := Some(w.(phase := Created)))
      else s.(dir := s.dir - {w.temp}, writer := Some(w.(phase := Cleaned)))
    case (Fill(ok), Created) =>
      if ok then s.(dir := s.dir[w.temp := Whole(w.roothash)], writer := Some(w.(phase := Filled)))
      else s.(writer := Some(w.(phase := Cleaning)))
    case (Sync(ok), Filled) => s.(writer := Some(w.(phase := if ok then Synced else Cleaning)))
    case (Rename(ok), Synced) =>
      if ok && w.temp in s.dir
      then s.(dir := (s.dir - {w.temp})[w.name := s.dir[w.temp]], writer := Some(w.(phase := Cleaning)))
      else s.(writer := Some(w.(phase := Cleaning)))
    // The deferred removal runs before the deferred unlock.
    case (RemoveTemp, Cleaning) => s.(dir := s.dir - {w.temp}, writer := Some(w.(phase := Cleaned)))
    case (Unlock, Cleaned) => s.(writer := None)
    case _ => s
  }

  /** A reader has parsed a whole record under this name. */
  predicate ParsedWhole(s: State, sight: nat, name: string) {
    sight < |s.seen| && s.seen[sight].Parsed? && s.seen[sight].name == name && s.seen[sight].content.Whole?
  }

  function Next(s: State, m: Move): State {
    match m
    case Lock(temp, name, roothash) =>
      if s.writer.None? && s.readers == {} && |name| == HASH_LENGTH && |temp| == UUID_LENGTH
      then s.(writer := Some(Writer(temp, name, roothash, Locked)))
      else s
    case Rewrite(temp, name, sight) =>
      if s.writer.None? && s.readers == {} && |name| == HASH_LENGTH && |temp| == UUID_LENGTH &&
        ParsedWhole(s, sight, name)
      then s.(writer := Some(Writer(temp, name, s.seen[sight].content.roothash, Locked)))
      else s
    case Delete(name) =>
      if s.writer.None? && s.readers == {} then s.(dir := s.dir - {name}) else s
    case Remove(name) =>
      if |name| == HASH_LENGTH then s.(dir := s.dir - {name}) else s
    case ReadLock(id) =>
      if s.writer.None? then s.(readers := s.readers + {id}) else s
    case ListAll(id) =>
      if id in s.readers then s.(seen := s.seen + [Listed(s.dir.Keys)]) else s
    case Parse(id, name) =>
      if id in s.readers && name in s.dir then s.(seen := s.seen + [Parsed(name, s.dir[name])]) else s
    case ReadUnlock(id) => s.(readers := s.readers - {id})
    case CreateInPlace(name) => s.(dir := s.dir[name := Partial])
    case FillInPlace(name, roothash) => s.(dir := s.dir[name := Whole(roothash)])
    case Crash => State(s.dir, None, {}, s.seen)
    case _ => if s.writer.Some? then WriterStep(s, s.writer.value, m) else s
  }

  function Run(moves: seq<Move>): State {
    if moves == [] then INITIAL else Next(Run(moves[..|moves| - 1]), moves[|moves| - 1])
  }

  /** Writes through WriteTrackFile only, each record under the hash it carries, and no crash. */
  ghost predicate Orderly(m: Move) {
    && (m.Lock? ==> m.roothash == m.name)
    && !m.CreateInPlace? && !m.FillInPlace? && !m.Crash?
  }

  ghost predicate AllOrderly(moves: seq<Move>) {
    forall k :: 0 <= k < |moves| ==> Orderly(moves[k])
  }

  ghost predicate Proper(name: string, content: Content) {
    |name| == HASH_LENGTH && content == Whole(name)
  }

  ghost predicate ProperSight(sight: Sight) {
    match sight
    case Listed(names) => forall name :: name in names ==> |name| == HASH_LENGTH
    case Parsed(name, content) => Proper(name, content)
  }

  ghost predicate WriterOk(s: State, w: Writer) {
    && s.readers == {}
    && |w.temp| == UUID_LENGTH && |w.name| == HASH_LENGTH && w.roothash == w.name
    && (w.phase.Filled? || w.phase.Synced? ==> w.temp in s.dir ==> s.dir[w.temp] == Whole(w.name))
    && (w.phase.Cleaned? || w.phase.Locked? ==> w.temp !in s.dir)
  }

  ghost predicate Inv(s: State) {
    && (s.writer.Some? ==> WriterOk(s, s.writer.value))
    && (forall name :: name in s.dir && !(s.writer.Some? && name == s.writer.value.temp) ==> Proper(name, s.dir[name]))
    && (forall i :: 0 <= i < |s.seen| ==> ProperSight(s.seen[i]))
  }

  lemma {:induction false} NextKeepsInv(s: State, m: Move)
    requires Inv(s) && Orderly(m)
    ensures Inv(Next(s, m))
  {
  }

  lemma {:induction false} RunKeepsInv(moves: seq<Move>)
    requires AllOrderly(moves)
    ensures Inv(Run(moves))
  {
    if moves != [] {
      RunKeepsInv(moves[..|moves| - 1]);
      NextKeepsInv(Run(moves[..|moves| - 1]), moves[|moves| - 1]);
    }
  }

  /**
   For every interleaving of writers, readers and removals: no reader lists a temporary name, and every
   record a reader parses is whole and lies under its own root hash.
   */
  lemma {:induction false} ReadersSeeWholeRecords(moves: seq<Move>, sight: Sight)
    requires AllOrderly(moves) && sight in Run(moves).seen
    ensures match sight
      case Listed(names) => forall name :: name in names ==> |name| == HASH_LENGTH
      case Parsed(name, content) => content == Whole(name)
  {
    RunKeepsInv(moves);
  }

  /** Between two writes the directory holds whole records only, each under its own root hash. */
  lemma {:induction false} RecordsUnderTheirHash(moves: seq<Move>, name: string)
    requires AllOrderly(moves) && Run(moves).writer.None? && name in Run(moves).dir
    ensures Run(moves).dir[name] == Whole(name)
  {
    RunKeepsInv(moves);
  }

  // ----- All writers, whole files or not -----

  /**
   Every new record is written under the hash it carries; writes in place and crashes included. Nothing is
   asked of the worker that writes back what it parsed.
   */
  ghost predicate Named(m: Move) {
    match m
    case Lock(temp, name, roothash) => roothash == name
    case CreateInPlace(name) => |name| == HASH_LENGTH
    case FillInPlace(name, roothash) => |name| == HASH_LENGTH && roothash == name
    case _ => true
  }

  ghost predicate AllNamed(moves: seq<Move>) {
    forall k :: 0 <= k < |moves| ==> Named(moves[k])
  }

  /** A file of the track directory: a temporary one, or one with at most the record of its own name. */
  ghost predicate OwnOrTemporary(name: string, content: Content) {
    |name| == UUID_LENGTH || (|name| == HASH_LENGTH && (content == Partial || content == Whole(name)))
  }

  ghost predicate OwnHash(s: State) {
    && (forall name :: name in s.dir ==> OwnOrTemporary(name, s.dir[name]))
    && (forall i :: 0 <= i < |s.seen| && s.seen[i].Parsed? ==> OwnOrTemporary(s.seen[i].name, s.seen[i].content))
    && (s.writer.Some? ==>
          var w := s.writer.value;
          && |w.temp| == UUID_LENGTH && |w.name| == HASH_LENGTH && w.roothash == w.name
          && (w.phase.Created? || w.phase.Filled? || w.phase.Synced? ==>
                w.temp in s.dir ==> s.dir[w.temp] == Partial || s.dir[w.temp] == Whole(w.name)))
  }

  lemma {:induction false} NextKeepsOwnHash(s: State, m: Move)
    requires OwnHash(s) && Named(m)
    ensures OwnHash(Next(s, m))
  {
  }

  /**
   With every writer of the gateway, and through crashes: a complete record under the name of a file is
   the record of that file, in the directory and in whatever a reader parsed.
   */
  lemma {:induction false} CompleteRecordsUnderTheirHash(moves: seq<Move>)
    requires AllNamed(moves)
    ensures OwnHash(Run(moves))
    ensures forall name :: name in Run(moves).dir && |name| == HASH_LENGTH && Run(moves).dir[name].Whole? ==>
      Run(moves).dir[name].roothash == name
    ensures forall name, h :: Parsed(name, Whole(h)) in Run(moves).seen ==> h == name || |name| == UUID_LENGTH
  {
    if moves != [] {
      CompleteRecordsUnderTheirHash(moves[..|moves| - 1]);
      NextKeepsOwnHash(Run(moves[..|moves| - 1]), moves[|moves| - 1]);
    }
  }

  /** What the worker writes back carries the name it is written under. */
  lemma {:induction false} WrittenBackUnderItsHash(moves: seq<Move>, temp: string, name: string, sight: nat)
    requires AllNamed(moves) && ParsedWhole(Run(moves), sight, name) && |name| == HASH_LENGTH
    ensures var w := Next(Run(moves), Rewrite(temp, name, sight)).writer;
      Run(moves).writer.None? && w.Some? ==> w.value.roothash == name
  {
    CompleteRecordsUnderTheirHash(moves);
  }

  // What a worker went through: the record it parsed in each turn, and the answers it got.
  type Visits = seq<(TrackLifecycle.Record, TrackLifecycle.Turn)>

  /** Each of these records was parsed from the track directory under this name. */
  ghost predicate Visited(moves: seq<Move>, name: string, visits: Visits) {
    forall k :: 0 <= k < |visits| ==> Parsed(name, Whole(visits[k].0.roothash)) in Run(moves).seen
  }

  /**
   No worker ever gives up a file because its record is for another one, whatever the interleaving of
   writers, removals and crashes and whatever the chain answers, except on the leftover of a crashed write.
   */
  lemma {:induction false} NoWorkerMismatches(moves: seq<Move>, name: string, visits: Visits, self: string, k: nat)
    requires AllNamed(moves) && Visited(moves, name, visits) && k < |visits|
    ensures TrackLifecycle.ExitOf(visits[k].1, visits[k].0, name, self).Mismatch? ==> |name| == UUID_LENGTH
  {
    CompleteRecordsUnderTheirHash(moves);
    assert Parsed(name, Whole(visits[k].0.roothash)) in Run(moves).seen;
    TrackLifecycle.ExitIsDue(visits[k].1, visits[k].0, name, self);
  }

  /** Without a crash and without writes in place not even that happens. */
  lemma {:induction false} NoWorkerMismatchesOrderly(
    moves: seq<Move>, name: string, visits: Visits, self: string, k: nat)
    requires AllOrderly(moves) && Visited(moves, name, visits) && k < |visits|
    ensures !TrackLifecycle.ExitOf(visits[k].1, visits[k].0, name, self).Mismatch?
  {
    assert Parsed(name, Whole(visits[k].0.roothash)) in Run(moves).seen;
    ReadersSeeWholeRecords(moves, Parsed(name, Whole(visits[k].0.roothash)));
    TrackLifecycle.ExitIsDue(visits[k].1, visits[k].0, name, self);
  }

  lemma {:induction false} RunFrom(moves: seq<Move>, m: Move)
    ensures Run(moves + [m]) == Next(Run(moves), m)
  {
    assert (moves + [m])[..|moves|] == moves;
  }

  // ----- What breaks the guarantee -----

  /** A file that is not a whole record under its own hash, and not the temporary of the write under way. */
  ghost predicate Exposed(s: State) {
    exists name :: name in s.dir && !(s.writer.Some? && name == s.writer.value.temp) && !Proper(name, s.dir[name])
  }

  /** The two kinds of step that expose one: a write in place begins, or a crash leaves the temporary behind. */
  predicate Exposes(s: State, m: Move) {
    m.CreateInPlace? || (m.Crash? && s.writer.Some? && s.writer.value.temp in s.dir)
  }

  /** From a directory that is in order, exactly these steps expose a partial or temporary file. */
  lemma {:induction false} ExposesIff(s: State, m: Move)
    requires Inv(s) && Named(m)
    ensures Exposed(Next(s, m)) <==> Exposes(s, m)
    ensures !Exposes(s, m) ==> Inv(Next(s, m))
  {
    var t := Next(s, m);
    match m
    case CreateInPlace(name) =>
      assert name in t.dir && !Proper(name, t.dir[name]);
    case FillInPlace(name, roothash) =>
      assert forall n :: n in t.dir && n != name ==> t.dir[n] == s.dir[n];
    case Crash =>
      if Exposes(s, m) {
        assert s.writer.value.temp in t.dir && !Proper(s.writer.value.temp, t.dir[s.writer.value.temp]);
      }
    case _ =>
      NextKeepsInv(s, m);
  }

  lemma {:induction false} RunPrefix(moves: seq<Move>, k: nat)
    requires k < |moves|
    ensures Run(moves[..k + 1]) == Next(Run(moves[..k]), moves[k])
  {
    assert moves[..k + 1][..k] == moves[..k];
  }

  lemma {:induction false} StaysInOrder(moves: seq<Move>, k: nat)
    requires AllNamed(moves) && k <= |moves|
    requires forall j :: 0 <= j < k ==> !Exposes(Run(moves[..j]), moves[j])
    ensures Inv(Run(moves[..k]))
  {
    if k > 0 {
      StaysInOrder(moves, k - 1);
      RunPrefix(moves, k - 1);
      ExposesIff(Run(moves[..k - 1]), moves[k - 1]);
    }
  }

  // Nothing is exposed in a directory that is in order.
  lemma {:induction false} StepInOrder(s: State, m: Move)
    requires Inv(s) && Named(m) && Inv(Next(s, m))
    ensures !Exposes(s, m)
  {
    ExposesIff(s, m);
  }

  /** A run keeps the guarantee all the way exactly if none of its steps is of these kinds. */
  lemma {:induction false} KeepsGuaranteeIff(moves: seq<Move>)
    requires AllNamed(moves)
    ensures (forall k :: 0 <= k <= |moves| ==> Inv(Run(moves[..k]))) <==>
      (forall k :: 0 <= k < |moves| ==> !Exposes(Run(moves[..k]), moves[k]))
  {
    if forall k :: 0 <= k < |moves| ==> !Exposes(Run(moves[..k]), moves[k]) {
      forall k | 0 <= k <= |moves| ensures Inv(Run(moves[..k])) {
        StaysInOrder(moves, k);
      }
    }
    if forall k :: 0 <= k <= |moves| ==> Inv(Run(moves[..k])) {
      forall k | 0 <= k < |moves| ensures !Exposes(Run(moves[..k]), moves[k]) {
        RunPrefix(moves, k);
        assert Inv(Run(moves[..k + 1]));
        StepInOrder(Run(moves[..k]), moves[k]);
      }
    }
  }

  /** The writer in `deduplication` keeps none of this: a reader can meet its record half written. */
  lemma {:induction false} InPlaceRecordIsSeenPartial(name: string) returns (moves: seq<Move>)
    ensures Parsed(name, Partial) in Run(moves).seen
  {
    var created := [] + [CreateInPlace(name)];
    var reading := created + [ReadLock(0)];
    moves := reading + [Parse(0, name)];
    RunFrom([], CreateInPlace(name));
    assert Run(created) == State(map[name := Partial], None, {}, []);
    RunFrom(created, ReadLock(0));
    assert Run(reading) == State(map[name := Partial], None, {0}, []);
    RunFrom(reading, Parse(0, name));
    assert Run(moves).seen == [Parsed(name, Partial)];
  }

  lemma {:induction false} TemporaryFilled(temp: string, name: string) returns (moves: seq<Move>)
    requires |temp| == UUID_LENGTH && |name| == HASH_LENGTH
    ensures AllNamed(moves) && Run(moves).dir == map[temp := Whole(name)] && Run(moves).seen == []
  {
    var locked := [] + [Lock(temp, name, name)];
    var created := locked + [Create(true)];
    moves := created + [Fill(true)];
    RunFrom([], Lock(temp, name, name));
    assert Run(locked) == State(map[], Some(Writer(temp, name, name, Locked)), {}, []);
    RunFrom(locked, Create(true));
    assert Run(created) == State(map[temp := Partial], Some(Writer(temp, name, name, Created)), {}, []);
    RunFrom(created, Fill(true));
    assert Run(moves).dir == map[temp := Whole(name)];
  }

  // A crash before the rename.
  lemma {:induction false} CrashedFilled(temp: string, name: string) returns (moves: seq<Move>)
    requires |temp| == UUID_LENGTH && |name| == HASH_LENGTH
    ensures AllNamed(moves) && Run(moves) == State(map[temp := Whole(name)], None, {}, [])
  {
    var filled := TemporaryFilled(temp, name);
    moves := filled + [Crash];
    RunFrom(filled, Crash);
  }

  // And then a reader.
  lemma {:induction false} ReaderAfterCrash(temp: string, name: string) returns (moves: seq<Move>)
    requires |temp| == UUID_LENGTH && |name| == HASH_LENGTH
    ensures AllNamed(moves) && Run(moves) == State(map[temp := Whole(name)], None, {0}, [])
  {
    var crashed := CrashedFilled(temp, name);
    moves := crashed + [ReadLock(0)];
    RunFrom(crashed, ReadLock(0));
    assert Next(State(map[temp := Whole(name)], None, {}, []), ReadLock(0)).readers == {0};
  }

  /** After a crash in the middle of a write the temporary name stays in the directory and is listed. */
  lemma {:induction false} CrashLeavesTemporary(temp: string, name: string) returns (moves: seq<Move>)
    requires |temp| == UUID_LENGTH && |name| == HASH_LENGTH
    ensures AllNamed(moves) && exists names :: Listed(names) in Run(moves).seen && temp in names
  {
    var reading := ReaderAfterCrash(temp, name);
    moves := reading + [ListAll(0)];
    RunFrom(reading, ListAll(0));
    assert Run(moves).seen == [Listed(map[temp := Whole(name)].Keys)];
  }

  /** That leftover can be parsed as a record that is not its own, and a worker on it can mismatch. */
  lemma {:induction false} CrashedWriteCanMismatch(temp: string, r: TrackLifecycle.Record, self: string)
    returns (moves: seq<Move>, turn: TrackLifecycle.Turn)
    requires |temp| == UUID_LENGTH && |r.roothash| == HASH_LENGTH
    ensures AllNamed(moves) && Visited(moves, temp, [(r, turn)])
    ensures TrackLifecycle.ExitOf(turn, r, temp, self).Mismatch?
  {
    var reading := ReaderAfterCrash(temp, r.roothash);
    moves := reading + [Parse(0, temp)];
    RunFrom(reading, Parse(0, temp));
    assert Run(moves).seen == [Parsed(temp, Whole(r.roothash))];
    turn := TrackLifecycle.Turn(
      false, TrackLifecycle.Empty, TrackLifecycle.Found, false, TrackLifecycle.NoAccounts, false, TrackLifecycle.Found,
      TrackLifecycle.Empty, false, TrackLifecycle.Empty, false, TrackLifecycle.ShardingFailed, false,
      false, false, false);
  }

  // ----- A write that goes through, and one that does not -----

  /** WriteTrackFile up to its rename, when nothing fails. */
  lemma {:induction false} WriteUpToRename(s: State, temp: string, name: string, roothash: string)
    returns (synced: State)
    requires s.writer.None? && s.readers == {} && |name| == HASH_LENGTH && |temp| == UUID_LENGTH
    ensures synced == Next(Next(Next(Next(s, Lock(temp, name, roothash)), Create(true)), Fill(true)), Sync(true))
    ensures synced == s.(dir := s.dir[temp := Whole(roothash)], writer := Some(Writer(temp, name, roothash, Synced)))
  {
    var locked := Next(s, Lock(temp, name, roothash));
    var created := Next(locked, Create(true));
    var filled := Next(created, Fill(true));
    synced := Next(filled, Sync(true));
    assert created.dir == s.dir[temp := Partial];
    assert filled.dir == s.dir[temp := Whole(roothash)];
  }

  lemma CleansUp(s: State)
    requires s.writer.Some? && s.writer.value.phase == Cleaning
    ensures Next(Next(s, RemoveTemp), Unlock) == s.(dir := s.dir - {s.writer.value.temp}, writer := None)
  {
  }

  /** A write that meets no failure leaves the record under its name, nothing else changed, and the lock free. */
  lemma {:induction false} WriteLeavesRecord(s: State, temp: string, name: string, roothash: string)
    returns (after: State)
    requires s.writer.None? && s.readers == {} && |name| == HASH_LENGTH && |temp| == UUID_LENGTH
    ensures var synced := Next(Next(Next(Next(s, Lock(temp, name, roothash)), Create(true)), Fill(true)), Sync(true));
      after == Next(Next(Next(synced, Rename(true)), RemoveTemp), Unlock)
    ensures after == s.(dir := (s.dir - {temp})[name := Whole(roothash)])
  {
    var synced := WriteUpToRename(s, temp, name, roothash);
    var renamed := Next(synced, Rename(true));
    assert renamed.dir == (s.dir - {temp})[name := Whole(roothash)];
    CleansUp(renamed);
    after := Next(Next(renamed, RemoveTemp), Unlock);
    assert after.dir == (s.dir - {temp})[name := Whole(roothash)];
  }

  /** A write that fails, wherever it does, leaves the records as they were. */
  lemma {:induction false} FailedWriteLeavesRecords(s: State, temp: string, name: string, roothash: string)
    requires s.writer.None? && s.readers == {} && |name| == HASH_LENGTH && |temp| == UUID_LENGTH
    ensures var locked := Next(s, Lock(temp, name, roothash));
      var created := Next(locked, Create(true));
      var filled := Next(created, Fill(true));
      var synced := Next(filled, Sync(true));
      var kept := s.(dir := s.dir - {temp});
      && Next(Next(locked, Create(false)), Unlock) == kept
      && Next(Next(Next(created, Fill(false)), RemoveTemp), Unlock) == kept
      && Next(Next(Next(filled, Sync(false)), RemoveTemp), Unlock) == kept
      && Next(Next(Next(synced, Rename(false)), RemoveTemp), Unlock) == kept
  {
    var w := Writer(temp, name, roothash, Cleaning);
    var partial := s.(dir := s.dir[temp := Partial], writer := Some(w));
    var whole := s.(dir := s.dir[temp := Whole(roothash)], writer := Some(w));
    assert partial.dir - {temp} == s.dir - {temp} && whole.dir - {temp} == s.dir - {temp};
    CleansUp(partial);
    CleansUp(whole);
    var created := Next(Next(s, Lock(temp, name, roothash)), Create(true));
    assert Next(created, Fill(false)) == partial;
    var synced := WriteUpToRename(s, temp, name, roothash);
    var filled := Next(created, Fill(true));
    assert filled.dir == whole.dir;
    assert Next(filled, Sync(false)) == whole;
    assert Next(synced, Rename(false)) == whole;
  }

  /** Either way of removing a record removes just this one; without the lock it can, under it it must wait. */
  lemma {:induction false} RemovedRecordIsGone(s: State, name: string)
    ensures s.writer.None? && s.readers == {} ==> Next(s, Delete(name)) == s.(dir := s.dir - {name})
    ensures !(s.writer.None? && s.readers == {}) ==> Next(s, Delete(name)) == s
    ensures |name| == 64 ==> Next(s, Remove(name)).dir == s.dir - {name}
    ensures Next(s, Crash).dir == s.dir
  {
  }

  /** What was written is what a reader then lists and parses. */
  lemma {:induction false} WrittenRecordIsRead(s: State, name: string, roothash: string, id: nat)
    requires s.writer.None? && name in s.dir && s.dir[name] == Whole(roothash)
    ensures var reading := Next(s, ReadLock(id));
      && Next(reading, Parse(id, name)).seen == s.seen + [Parsed(name, Whole(roothash))]
      && Next(reading, ListAll(id)).seen == s.seen + [Listed(s.dir.Keys)]
      && Next(reading, Parse(id, name)).dir == s.dir && Next(reading, ListAll(id)).dir == s.dir
  {
  }
}
