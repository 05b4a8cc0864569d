/**
 The block scanner: it turns the upload and deletion events of each block into per-user lists, kept in
 the database or, when that fails, in one fallback file per user, and it checkpoints how far it came.
 A run is a list of ticks and may stop anywhere; the next one starts from what is on disk.
 */
module BlockIndex {
  import opened Text
  import opened RestoreList

  type UInt32 = x: int | 0 <= x < 0x1_0000_0000

  const FIRST_BLOCK: UInt32 := 200

  const SYNC_BLOCK := "syncblock"
  const USER_FILES := "userfiles:"
  const USER_DELETED := "userdeletefiles:"

  datatype Kind = Upload | Deletion

  datatype Event = Event(kind: Kind, owner: string, hash: string)

  // A value of the database: a list of files, or a block number. Both are kept as what their text
  // stands for; CheckpointText says that the decimal text of a checkpoint is read back as written.
  datatype Value = List(list: UserFiles) | Number(block: UInt32)

  // What fails while one event is recorded: the first and second Get, the Put, and the operations on
  // the fallback file.
  datatype Faults = Faults(get1: bool, get2: bool, put: bool, read: bool, rename: bool, write: bool)

  // One turn of the scan loop; `crash` stops the process after the events and before the checkpoint.
  datatype Tick = Tick(
    height: Option<UInt32>, hash: bool, uploads: seq<(Event, Faults)>, deletions: seq<(Event, Faults)>,
    crash: bool, put1: bool, put2: bool, writeFile: bool)

  datatype Boot = Boot(get1: bool, get2: bool, readFile: bool, height: UInt32, ticks: seq<Tick>)

  // ----- Keys -----

  datatype Key = ListKey(kind: Kind, owner: string) | BlockKey

  /** The text of a key, as the database sees it. */
  function Rendered(key: Key): string {
    match key
    case ListKey(Upload, owner) => USER_FILES + owner
    case ListKey(Deletion, owner) => USER_DELETED + owner
    case BlockKey => SYNC_BLOCK
  }

  /** No key of one kind or owner is a key of another, or the checkpoint. */
  lemma KeysApart(key: Key, other: Key)
    ensures Rendered(key) == Rendered(other) <==> key == other
  {
    forall k: Key ensures k.ListKey? ==>
      && Rendered(k)[|Rendered(k)| - |k.owner|..] == k.owner
      && Rendered(k)[0] == 'u'
      && Rendered(k)[4] == (if k.kind.Upload? then 'f' else 'd')
    {
      assert USER_FILES[4] == 'f' && USER_DELETED[4] == 'd';
    }
    assert SYNC_BLOCK[0] == 's';
  }

  lemma CheckpointText(block: UInt32)
    ensures Atoi(Itoa(block)) == Some(block)
  {
    AtoiOfItoa(block);
  }

  // ----- The fallback file of one user -----

  /** `saveUserFileToFile` and `saveUserDeletedFileToFile`: the directory afterwards, and success. */
  function Appended(
    tier: map<string, UserFiles>, owner: string, hash: string, f: Faults): (map<string, UserFiles>, bool)
  {
    var single := UserFiles(owner, [hash]);
    if f.read || owner !in tier then
      if f.write then (tier, false) else (tier[owner := single], true)
    else if tier[owner].user != owner then
      if f.rename then (tier, false)
      else
        var moved := (tier - {owner})[tier[owner].user := tier[owner]];
        if f.write then (moved, false) else (moved[owner := single], true)
    else if f.write then (tier, false)
    else (tier[owner := UserFiles(owner, tier[owner].files + [hash])], true)
  }

  function FilesOf(tier: map<string, UserFiles>, owner: string): seq<string> {
    if owner in tier then tier[owner].files else []
  }

  /**
   The fallback file loses entries exactly when it exists with other entries, reading it fails, and
   writing it does not: it is then started anew.
   */
  lemma FallbackKeepsIff(tier: map<string, UserFiles>, owner: string, hash: string, f: Faults)
    requires owner in tier ==> tier[owner].user == owner
    ensures var (after, ok) := Appended(tier, owner, hash, f);
      (forall h :: h in FilesOf(tier, owner) ==> h in FilesOf(after, owner)) <==>
      !(f.read && !f.write && exists h :: h in FilesOf(tier, owner) && h != hash)
  {
    var (after, ok) := Appended(tier, owner, hash, f);
    if f.read && !f.write {
      assert FilesOf(after, owner) == [hash];
      assert forall h :: h in FilesOf(after, owner) <==> h == hash;
    }
  }

  /** A fallback file that names another user is moved to that user's name, and the owner's is started anew. */
  lemma MisnamedFileMoves(tier: map<string, UserFiles>, owner: string, hash: string, f: Faults)
    requires owner in tier && tier[owner].user != owner && !f.read
    ensures var (after, ok) := Appended(tier, owner, hash, f);
      && (ok <==> !f.rename && !f.write)
      && (f.rename ==> after == tier)
      && (!f.rename ==> tier[owner].user in after && after[tier[owner].user] == tier[owner])
      && (!f.rename ==> if f.write then owner !in after else owner in after && after[owner] == UserFiles(owner, [hash]))
      && (forall other :: other != owner && other != tier[owner].user ==>
        (other in after <==> other in tier) && (other in tier ==> after[other] == tier[other]))
  {
  }

  // ----- One event -----

  function ListAt(db: map<Key, Value>, key: Key): seq<string> {
    if key in db && db[key].List? then db[key].list.files else []
  }

  /** What the scan loop does with one event: database, directory of fallback files, and success. */
  function Recorded(db: map<Key, Value>, tier: map<string, UserFiles>, e: Event, f: Faults)
    : (map<Key, Value>, map<string, UserFiles>, bool)
  {
    var key := ListKey(e.kind, e.owner);
    if !f.get1 && key !in db then
      if f.put then (db, tier, false) else (db[key := List(UserFiles(e.owner, [e.hash]))], tier, true)
    else
      var readable := key in db && !(f.get1 && f.get2) && db[key].List?;
      if readable && !f.put then
        (db[key := List(UserFiles(db[key].list.user, db[key].list.files + [e.hash]))], tier, true)
      else
        var (tier', ok) := Appended(tier, e.owner, e.hash, f);
        (db, tier', ok)
  }

  /** Which entries the owner's two lists have afterwards, and that nothing else changed. */
  ghost predicate Effect(
    db: map<Key, Value>, tier: map<string, UserFiles>, e: Event, f: Faults,
    db': map<Key, Value>, tier': map<string, UserFiles>, ok: bool)
  {
    var key := ListKey(e.kind, e.owner);
    && (ok ==> e.hash in ListAt(db', key) || e.hash in FilesOf(tier', e.owner))
    && (!ok ==> db' == db && tier' == tier)
    && (forall h :: h in ListAt(db', key) ==> h in ListAt(db, key) || h == e.hash)
    && (forall h :: h in FilesOf(tier', e.owner) ==> h in FilesOf(tier, e.owner) || h == e.hash)
    && (forall h :: h in ListAt(db, key) ==> h in ListAt(db', key))
    && (!f.read ==> forall h :: h in FilesOf(tier, e.owner) ==> h in FilesOf(tier', e.owner))
    && (key in db' ==> db'[key].List? && db'[key].list.user == e.owner)
    && (e.owner in tier' ==> tier'[e.owner].user == e.owner)
    && (forall other :: other != key ==> (other in db' <==> other in db) && (other in db ==> db'[other] == db[other]))
    && (forall other :: other != e.owner ==>
      (other in tier' <==> other in tier) && (other in tier ==> tier'[other] == tier[other]))
  }

  /**
   An event is found afterwards exactly when it was there or was recorded; it is lost exactly when the
   first list of an owner cannot be put, or when neither the database nor the fallback file takes it.
   */
  lemma RecordedMeans(db: map<Key, Value>, tier: map<string, UserFiles>, e: Event, f: Faults)
    requires var key := ListKey(e.kind, e.owner); key in db ==> db[key].List? && db[key].list.user == e.owner
    requires e.owner in tier ==> tier[e.owner].user == e.owner
    ensures var (db', tier', ok) := Recorded(db, tier, e, f);
      && Effect(db, tier, e, f, db', tier', ok)
      && (ok <==> if !f.get1 && ListKey(e.kind, e.owner) !in db then !f.put
                  else !f.write || (ListKey(e.kind, e.owner) in db && !(f.get1 && f.get2) && !f.put))
  {
  }

  /** The database takes the event: Put succeeds, on a list that was read or that is known not to exist. */
  predicate DbTakes(known: bool, f: Faults) {
    !f.put && if known then !(f.get1 && f.get2) else !f.get1
  }

  /**
   The two lists of the owner, entry by entry: the event goes to the end of the one in the database, or else to
   the end of the one in the fallback file, which a failed read starts anew. The first list of an owner has no
   such second place.
   */
  lemma RecordedInOrder(db: map<Key, Value>, tier: map<string, UserFiles>, e: Event, f: Faults)
    requires var key := ListKey(e.kind, e.owner); key in db ==> db[key].List? && db[key].list.user == e.owner
    requires e.owner in tier ==> tier[e.owner].user == e.owner
    ensures var key, (db', tier', ok) := ListKey(e.kind, e.owner), Recorded(db, tier, e, f);
      var inFile := !DbTakes(key in db, f) && (key in db || f.get1) && !f.write;
      && ListAt(db', key) == ListAt(db, key) + (if DbTakes(key in db, f) then [e.hash] else [])
      && FilesOf(tier', e.owner) ==
        (if inFile then (if f.read then [] else FilesOf(tier, e.owner)) + [e.hash] else FilesOf(tier, e.owner))
  {
  }

  // ----- The two tiers together -----

  function TierOf(
    uploads: map<string, UserFiles>, deletions: map<string, UserFiles>, kind: Kind): map<string, UserFiles>
  {
    if kind.Upload? then uploads else deletions
  }

  /** The event can be found in the database or in a fallback file. */
  ghost predicate Found(
    db: map<Key, Value>, uploads: map<string, UserFiles>, deletions: map<string, UserFiles>, e: Event)
  {
    || e.hash in ListAt(db, ListKey(e.kind, e.owner))
    || e.hash in FilesOf(TierOf(uploads, deletions, e.kind), e.owner)
  }

  ghost predicate OwnLists(db: map<Key, Value>, uploads: map<string, UserFiles>, deletions: map<string, UserFiles>) {
    && (forall key: Key :: key in db && key.ListKey? ==> db[key].List? && db[key].list.user == key.owner)
    && (forall owner :: owner in uploads ==> uploads[owner].user == owner)
    && (forall owner :: owner in deletions ==> deletions[owner].user == owner)
  }

  lemma RecordedKeepsOwners(
    db: map<Key, Value>, uploads: map<string, UserFiles>, deletions: map<string, UserFiles>, e: Event, f: Faults,
    db': map<Key, Value>, uploads': map<string, UserFiles>, deletions': map<string, UserFiles>, ok: bool)
    requires OwnLists(db, uploads, deletions)
    requires Effect(db, TierOf(uploads, deletions, e.kind), e, f, db', TierOf(uploads', deletions', e.kind), ok)
    requires if e.kind.Upload? then deletions' == deletions else uploads' == uploads
    ensures OwnLists(db', uploads', deletions')
  {
  }

  // The event x before and after e is recorded.
  lemma RecordedKeepsOne(
    db: map<Key, Value>, uploads: map<string, UserFiles>, deletions: map<string, UserFiles>, e: Event, f: Faults,
    db': map<Key, Value>, uploads': map<string, UserFiles>, deletions': map<string, UserFiles>, ok: bool, x: Event)
    requires Effect(db, TierOf(uploads, deletions, e.kind), e, f, db', TierOf(uploads', deletions', e.kind), ok)
    requires if e.kind.Upload? then deletions' == deletions else uploads' == uploads
    ensures Found(db', uploads', deletions', x) ==> Found(db, uploads, deletions, x) || x == e
    ensures Found(db, uploads, deletions, x) && !Found(db', uploads', deletions', x) ==>
      f.read && x.kind == e.kind && x.owner == e.owner && x.hash in FilesOf(TierOf(uploads, deletions, e.kind), e.owner)
  {
    var key := ListKey(x.kind, x.owner);
    if key != ListKey(e.kind, e.owner) {
      assert ListAt(db', key) == ListAt(db, key);
      assert FilesOf(TierOf(uploads', deletions', x.kind), x.owner) ==
        FilesOf(TierOf(uploads, deletions, x.kind), x.owner);
    }
  }

  /** What recording one event does to everything else: nothing, unless a fallback file is started anew. */
  lemma RecordedKeeps(
    db: map<Key, Value>, uploads: map<string, UserFiles>, deletions: map<string, UserFiles>, e: Event, f: Faults,
    db': map<Key, Value>, uploads': map<string, UserFiles>, deletions': map<string, UserFiles>, ok: bool)
    requires OwnLists(db, uploads, deletions)
    requires Effect(db, TierOf(uploads, deletions, e.kind), e, f, db', TierOf(uploads', deletions', e.kind), ok)
    requires if e.kind.Upload? then deletions' == deletions else uploads' == uploads
    ensures OwnLists(db', uploads', deletions')
    ensures ok ==> Found(db', uploads', deletions', e)
    ensures !ok ==> db' == db && uploads' == uploads && deletions' == deletions
    ensures forall x :: Found(db', uploads', deletions', x) ==> Found(db, uploads, deletions, x) || x == e
    ensures forall x :: Found(db, uploads, deletions, x) && !Found(db', uploads', deletions', x) ==>
      f.read && x.kind == e.kind && x.owner == e.owner && x.hash in FilesOf(TierOf(uploads, deletions, e.kind), e.owner)
  {
    RecordedKeepsOwners(db, uploads, deletions, e, f, db', uploads', deletions', ok);
    forall x | Found(db', uploads', deletions', x) || Found(db, uploads, deletions, x)
      ensures Found(db', uploads', deletions', x) ==> Found(db, uploads, deletions, x) || x == e
      ensures Found(db, uploads, deletions, x) && !Found(db', uploads', deletions', x) ==>
        f.read && x.kind == e.kind && x.owner == e.owner &&
          x.hash in FilesOf(TierOf(uploads, deletions, e.kind), e.owner)
    {
      RecordedKeepsOne(db, uploads, deletions, e, f, db', uploads', deletions', ok, x);
    }
  }

  function EventsOf(kind: Kind, owner: string, hashes: seq<string>): (events: set<Event>)
    ensures forall e :: e in events <==> e.kind == kind && e.owner == owner && e.hash in hashes
  {
    if hashes == [] then {}
    else EventsOf(kind, owner, hashes[..|hashes| - 1]) + {Event(kind, owner, hashes[|hashes| - 1])}
  }

  /** What can be found was retrieved; what was retrieved can be found, or was logged, or dropped. */
  ghost predicate AccountedIn(
    db: map<Key, Value>, uploads: map<string, UserFiles>, deletions: map<string, UserFiles>,
    retrieved: set<Event>, logged: set<Event>, dropped: set<Event>)
  {
    && (forall e :: Found(db, uploads, deletions, e) ==> e in retrieved)
    && (forall e :: e in retrieved ==> Found(db, uploads, deletions, e) || e in logged || e in dropped)
  }

  lemma RecordedStaysAccounted(
    db: map<Key, Value>, uploads: map<string, UserFiles>, deletions: map<string, UserFiles>, e: Event, f: Faults,
    db': map<Key, Value>, uploads': map<string, UserFiles>, deletions': map<string, UserFiles>, ok: bool,
    retrieved: set<Event>, logged: set<Event>, dropped: set<Event>)
    requires OwnLists(db, uploads, deletions) && AccountedIn(db, uploads, deletions, retrieved, logged, dropped)
    requires Effect(db, TierOf(uploads, deletions, e.kind), e, f, db', TierOf(uploads', deletions', e.kind), ok)
    requires if e.kind.Upload? then deletions' == deletions else uploads' == uploads
    ensures AccountedIn(db', uploads', deletions', retrieved + {e}, logged + (if ok then {} else {e}),
      dropped + if f.read then EventsOf(e.kind, e.owner, FilesOf(TierOf(uploads, deletions, e.kind), e.owner)) else {})
  {
    RecordedKeeps(db, uploads, deletions, e, f, db', uploads', deletions', ok);
  }

  const WELL := Faults(false, false, false, false, false, false)

  function Events(events: seq<(Event, Faults)>): set<Event> {
    if events == [] then {} else Events(events[..|events| - 1]) + {events[|events| - 1].0}
  }

  lemma {:induction false} EventsAre(events: seq<(Event, Faults)>, e: Event)
    ensures e in Events(events) <==> exists k :: 0 <= k < |events| && events[k].0 == e
  {
    if events != [] {
      var before := events[..|events| - 1];
      EventsAre(before, e);
      assert e in Events(before) ==> exists k :: 0 <= k < |before| && events[k].0 == e by {
        if e in Events(before) {
          var k :| 0 <= k < |before| && before[k].0 == e;
          assert events[k].0 == e;
        }
      }
      assert forall k :: 0 <= k < |before| ==> before[k] == events[k];
    }
  }

  /** No read of a fallback file fails. */
  ghost predicate Read(events: seq<(Event, Faults)>) {
    forall k :: 0 <= k < |events| ==> !events[k].1.read
  }

  ghost predicate Well(events: seq<(Event, Faults)>)
    ensures Well(events) ==> Read(events)
  {
    forall k :: 0 <= k < |events| ==> events[k].1 == WELL
  }

  /** The failures with which e is recorded can cost the event x: e itself, or what a fallback file held. */
  predicate Excuses(e: Event, f: Faults, x: Event) {
    x.kind == e.kind && x.owner == e.owner && (f.read || (x == e && (f.put || f.write)))
  }

  ghost predicate ExcusedBy(events: seq<(Event, Faults)>, x: Event) {
    exists k :: 0 <= k < |events| && Excuses(events[k].0, events[k].1, x)
  }

  ghost predicate TickExcuses(tick: Tick, x: Event) {
    ExcusedBy(tick.uploads, x) || ExcusedBy(tick.deletions, x)
  }

  ghost predicate BootExcuses(boot: Boot, x: Event) {
    exists t :: t in boot.ticks && TickExcuses(t, x)
  }

  /** Recording an event, over both tiers and the history. */
  lemma RecordedOverall(
    db: map<Key, Value>, uploads: map<string, UserFiles>, deletions: map<string, UserFiles>, e: Event, f: Faults,
    db': map<Key, Value>, uploads': map<string, UserFiles>, deletions': map<string, UserFiles>, ok: bool,
    retrieved: set<Event>, logged: set<Event>, dropped: set<Event>, logged': set<Event>, dropped': set<Event>)
    requires OwnLists(db, uploads, deletions) && AccountedIn(db, uploads, deletions, retrieved, logged, dropped)
    requires (db', TierOf(uploads', deletions', e.kind), ok) == Recorded(db, TierOf(uploads, deletions, e.kind), e, f)
    requires if e.kind.Upload? then deletions' == deletions else uploads' == uploads
    requires logged' == logged + if ok then {} else {e}
    requires dropped' == dropped +
      if f.read then EventsOf(e.kind, e.owner, FilesOf(TierOf(uploads, deletions, e.kind), e.owner)) else {}
    ensures OwnLists(db', uploads', deletions') &&
      AccountedIn(db', uploads', deletions', retrieved + {e}, logged', dropped')
    ensures forall key: Key :: key != ListKey(e.kind, e.owner) ==>
      (key in db' <==> key in db) && (key in db ==> db'[key] == db[key])
    ensures ok ==> Found(db', uploads', deletions', e)
    ensures f == WELL ==> ok
    ensures !ok ==> db' == db && uploads' == uploads && deletions' == deletions
    ensures forall x :: Found(db', uploads', deletions', x) ==> Found(db, uploads, deletions, x) || x == e
    ensures !f.read ==> forall x :: Found(db, uploads, deletions, x) ==> Found(db', uploads', deletions', x)
    ensures forall x :: x in logged' || x in dropped' ==> x in logged || x in dropped || Excuses(e, f, x)
  {
    RecordedMeans(db, TierOf(uploads, deletions, e.kind), e, f);
    RecordedKeeps(db, uploads, deletions, e, f, db', uploads', deletions', ok);
    RecordedStaysAccounted(db, uploads, deletions, e, f, db', uploads', deletions', ok, retrieved, logged, dropped);
  }

  /** The chain reported this height during the run. */
  ghost predicate Observed(height: int, boot: Boot) {
    height == boot.height || exists t :: t in boot.ticks && t.height.Some? && t.height.value == height
  }

  ghost predicate Below(block: nat, boot: Boot) {
    exists height: UInt32 :: Observed(height, boot) && block < height
  }

  ghost predicate TickReads(tick: Tick) {
    Read(tick.uploads) && Read(tick.deletions)
  }

  ghost predicate TickWell(tick: Tick)
    ensures TickWell(tick) ==> TickReads(tick)
  {
    Well(tick.uploads) && Well(tick.deletions)
  }

  ghost predicate BootReads(boot: Boot) {
    forall t :: t in boot.ticks ==> TickReads(t)
  }

  ghost predicate BootWell(boot: Boot)
    ensures BootWell(boot) ==> BootReads(boot)
  {
    forall t :: t in boot.ticks ==> TickWell(t)
  }

  /** Whether a turn retrieves the block, and the height known after it. */
  function Advance(block: UInt32, height: UInt32, tick: Tick): (result: (bool, UInt32))
    ensures result.0 <==> tick.hash && (block < height || (tick.height.Some? && block < tick.height.value))
    ensures result.0 ==> block < result.1
  {
    if block < height then (tick.hash, height)
    else match tick.height
      case None => (false, 0)
      case Some(now) => (block < now && tick.hash, now)
  }

  // The two persisted checkpoints: in the database and in the file.
  datatype Marks = Marks(db: Option<UInt32>, file: Option<UInt32>)

  /** Where a run starts: the larger checkpoint of those that can be read, or the first block. */
  function FirstSeen(marks: Marks, dbRead: bool, fileRead: bool): (first: UInt32)
    ensures dbRead && marks.db.Some? ==> first >= marks.db.value
    ensures fileRead && marks.file.Some? ==> first >= marks.file.value
    ensures !(dbRead && marks.db.Some?) ==> first >= 200
    ensures (first == 200 && !(dbRead && marks.db.Some?)) || (dbRead && marks.db == Some(first)) ||
      (fileRead && marks.file == Some(first))
  {
    var inDb := if dbRead && marks.db.Some? then marks.db.value else FIRST_BLOCK;
    if fileRead && marks.file.Some? && marks.file.value > inDb then marks.file.value else inDb
  }

  /** Persisting a checkpoint: in the database, again in the database, or in the file. */
  function Saved(marks: Marks, block: UInt32, tick: Tick): Marks {
    if !tick.put1 || !tick.put2 then marks.(db := Some(block))
    else if tick.writeFile then marks
    else marks.(file := Some(block))
  }

  // Where a run stands: the next block, the height, what it was told, and whether it crashed.
  datatype Position = Position(block: UInt32, height: UInt32, told: set<Event>, crashed: bool)

  /** One turn further. */
  function Stepped(p: Position, tick: Tick): (after: Position)
    ensures p.block <= after.block
  {
    if p.crashed then p
    else
      var (scan, now) := Advance(p.block, p.height, tick);
      Position(if scan && !tick.crash then p.block + 1 else p.block, now,
               p.told + (if scan then Events(tick.uploads) + Events(tick.deletions) else {}), tick.crash)
  }

  /** The course of a run: each turn retrieves the next block or waits, until a crash. */
  function Walk(first: UInt32, height: UInt32, ticks: seq<Tick>): (p: Position)
    ensures first <= p.block
  {
    if ticks == [] then Position(first, height, {}, false)
    else Stepped(Walk(first, height, ticks[..|ticks| - 1]), ticks[|ticks| - 1])
  }

  /** The checkpoints after one turn. */
  function MarksStepped(marks: Marks, p: Position, tick: Tick): Marks {
    if !p.crashed && Advance(p.block, p.height, tick).0 && !tick.crash then Saved(marks, p.block + 1, tick) else marks
  }

  /** The checkpoints after a run that starts with `marks`. */
  function MarksAfter(marks: Marks, first: UInt32, height: UInt32, ticks: seq<Tick>): Marks {
    if ticks == [] then marks
    else
      var before, tick := ticks[..|ticks| - 1], ticks[|ticks| - 1];
      MarksStepped(MarksAfter(marks, first, height, before), Walk(first, height, before), tick)
  }

  lemma {:induction false} MarksStep(marks: Marks, first: UInt32, height: UInt32, ticks: seq<Tick>, k: nat)
    requires k < |ticks|
    ensures MarksAfter(marks, first, height, ticks[..k + 1]) ==
      MarksStepped(MarksAfter(marks, first, height, ticks[..k]), Walk(first, height, ticks[..k]), ticks[k])
  {
    assert ticks[..k + 1][..k] == ticks[..k];
  }

  lemma {:induction false} MarksStopped(marks: Marks, first: UInt32, height: UInt32, ticks: seq<Tick>, k: nat)
    requires k <= |ticks| && (k == |ticks| || Walk(first, height, ticks[..k]).crashed)
    ensures MarksAfter(marks, first, height, ticks) == MarksAfter(marks, first, height, ticks[..k])
  {
    if k == |ticks| {
      assert ticks[..k] == ticks;
    } else {
      assert ticks[..|ticks| - 1][..k] == ticks[..k];
      MarksStopped(marks, first, height, ticks[..|ticks| - 1], k);
      WalkStopped(first, height, ticks[..|ticks| - 1], k);
    }
  }

  /**
   If one of the three writes succeeds each time, a restart that reads both goes on where a run stopped: no
   earlier, and exactly there when that run started at the larger checkpoint too.
   */
  lemma {:induction false} RestartGoesOn(marks: Marks, first: UInt32, height: UInt32, ticks: seq<Tick>)
    requires forall t :: t in ticks ==> !(t.put1 && t.put2 && t.writeFile)
    ensures var p, again := Walk(first, height, ticks), FirstSeen(MarksAfter(marks, first, height, ticks), true, true);
      && (p.block > first ==> again >= p.block)
      && (first == FirstSeen(marks, true, true) ==> again == p.block)
  {
    if ticks != [] {
      RestartGoesOn(marks, first, height, ticks[..|ticks| - 1]);
      assert ticks[|ticks| - 1] in ticks;
    }
  }

  lemma {:induction false} WalkStep(first: UInt32, height: UInt32, ticks: seq<Tick>, k: nat)
    requires k < |ticks|
    ensures Walk(first, height, ticks[..k + 1]) == Stepped(Walk(first, height, ticks[..k]), ticks[k])
  {
    assert ticks[..k + 1][..k] == ticks[..k];
  }

  lemma {:induction false} WalkStopped(first: UInt32, height: UInt32, ticks: seq<Tick>, k: nat)
    requires k <= |ticks| && (k == |ticks| || Walk(first, height, ticks[..k]).crashed)
    ensures Walk(first, height, ticks) == Walk(first, height, ticks[..k])
  {
    if k == |ticks| {
      assert ticks[..k] == ticks;
    } else {
      assert ticks[..|ticks| - 1][..k] == ticks[..k];
      WalkStopped(first, height, ticks[..|ticks| - 1], k);
    }
  }

  /** Whatever a run passes lies below a height that the chain reported. */
  lemma {:induction false} WalkBelow(first: UInt32, boot: Boot, k: nat)
    requires k <= |boot.ticks|
    ensures var p := Walk(first, boot.height, boot.ticks[..k]);
      && (p.height == 0 || Observed(p.height, boot))
      && forall b: nat :: first <= b < p.block ==> Below(b, boot)
  {
    if k > 0 {
      WalkBelow(first, boot, k - 1);
      assert boot.ticks[..k][..k - 1] == boot.ticks[..k - 1];
      var before, p := Walk(first, boot.height, boot.ticks[..k - 1]), Walk(first, boot.height, boot.ticks[..k]);
      assert boot.ticks[k - 1] in boot.ticks;
      assert p.height == 0 || Observed(p.height, boot);
      forall b: nat | first <= b < p.block ensures Below(b, boot) {
        if b >= before.block {
          assert Observed(p.height, boot) && b < p.height;
        }
      }
    }
  }

  lemma {:induction false} WalkEnds(first: UInt32, boot: Boot, k: nat)
    requires k <= |boot.ticks| && (k == |boot.ticks| || Walk(first, boot.height, boot.ticks[..k]).crashed)
    ensures Walk(first, boot.height, boot.ticks) == Walk(first, boot.height, boot.ticks[..k])
    ensures forall b: nat :: first <= b < Walk(first, boot.height, boot.ticks).block ==> Below(b, boot)
  {
    WalkStopped(first, boot.height, boot.ticks, k);
    WalkBelow(first, boot, k);
  }

  /** The tick retrieves this block: the chain gives its hash and is known to be past it, and nothing crashes. */
  predicate CanScan(block: nat, height: UInt32, tick: Tick) {
    tick.hash && !tick.crash && (block < height || (tick.height.Some? && block < tick.height.value))
  }

  /** Each tick can retrieve the block that is next if all ticks before it retrieved theirs. */
  ghost predicate Ready(first: nat, boot: Boot) {
    forall k :: 0 <= k < |boot.ticks| ==> ReadyTick(first, boot, k)
  }

  predicate ReadyTick(first: nat, boot: Boot, k: nat)
    requires k < |boot.ticks|
  {
    CanScan(first + k, boot.height, boot.ticks[k])
  }

  ghost predicate Brings(tick: Tick, e: Event) {
    || (exists i :: 0 <= i < |tick.uploads| && tick.uploads[i].0 == e)
    || (exists i :: 0 <= i < |tick.deletions| && tick.deletions[i].0 == e)
  }

  lemma BringsEvents(tick: Tick, e: Event)
    ensures Brings(tick, e) <==> e in Events(tick.uploads) + Events(tick.deletions)
  {
    EventsAre(tick.uploads, e);
    EventsAre(tick.deletions, e);
  }

  ghost predicate Brought(ticks: seq<Tick>, e: Event) {
    exists t :: t in ticks && Brings(t, e)
  }

  lemma BroughtStep(ticks: seq<Tick>, k: nat, e: Event)
    requires k < |ticks|
    ensures Brought(ticks[..k + 1], e) <==> Brought(ticks[..k], e) || Brings(ticks[k], e)
  {
    assert ticks[..k + 1] == ticks[..k] + [ticks[k]];
  }

  // A turn that can retrieve its block does, and is told what the tick brings.
  lemma StepProgresses(p: Position, tick: Tick, height: UInt32)
    requires !p.crashed && p.height >= height && CanScan(p.block, height, tick)
    ensures var q := Stepped(p, tick);
      && q.block == p.block + 1 && !q.crashed && q.height >= height
      && (forall e :: e in q.told <==> e in p.told || Brings(tick, e))
  {
    forall e ensures e in Stepped(p, tick).told <==> e in p.told || Brings(tick, e) {
      BringsEvents(tick, e);
    }
  }

  /** A run that can go on does: after k ticks it has passed k blocks, and was told what these ticks bring. */
  lemma {:induction false} WalkProgresses(first: UInt32, boot: Boot, k: nat)
    requires k <= |boot.ticks| && Ready(first, boot)
    ensures var p := Walk(first, boot.height, boot.ticks[..k]);
      && p.block == first + k && !p.crashed && p.height >= boot.height
      && (forall e :: e in p.told <==> Brought(boot.ticks[..k], e))
  {
    if k > 0 {
      WalkProgresses(first, boot, k - 1);
      WalkStep(first, boot.height, boot.ticks, k - 1);
      assert ReadyTick(first, boot, k - 1);
      var before := Walk(first, boot.height, boot.ticks[..k - 1]);
      StepProgresses(before, boot.ticks[k - 1], boot.height);
      forall e ensures e in Stepped(before, boot.ticks[k - 1]).told <==> Brought(boot.ticks[..k], e) {
        BroughtStep(boot.ticks, k - 1, e);
      }
    }
  }

  lemma {:induction false} RunProgresses(first: UInt32, boot: Boot)
    requires Ready(first, boot)
    ensures var p := Walk(first, boot.height, boot.ticks);
      && p.block == first + |boot.ticks| && !p.crashed
      && (forall e :: e in p.told <==> Brought(boot.ticks, e))
  {
    assert boot.ticks[..|boot.ticks|] == boot.ticks;
    WalkProgresses(first, boot, |boot.ticks|);
  }

  // ----- The index -----

  class Index {
    var db: map<Key, Value>
    var uploadFiles: map<string, UserFiles>
    var deletionFiles: map<string, UserFiles>
    var checkpointFile: Option<UInt32>

    // The history the index is judged by.
    ghost var retrieved: set<Event>
    ghost var logged: set<Event>
    ghost var dropped: set<Event>
    ghost var processed: set<nat>

    constructor ()
      ensures Valid()
      ensures db == map[] && uploadFiles == map[] && deletionFiles == map[] && checkpointFile == None
      ensures retrieved == {} && processed == {} && logged == {} && dropped == {}
    {
      db, uploadFiles, deletionFiles, checkpointFile := map[], map[], map[], None;
      retrieved, logged, dropped, processed := {}, {}, {}, {};
    }

    function Tier(kind: Kind): map<string, UserFiles>
      reads this`uploadFiles, this`deletionFiles
    {
      TierOf(uploadFiles, deletionFiles, kind)
    }

    ghost predicate Has(e: Event)
      reads this`db, this`uploadFiles, this`deletionFiles
    {
      Found(db, uploadFiles, deletionFiles, e)
    }

    ghost predicate HasAll(events: set<Event>)
      reads this`db, this`uploadFiles, this`deletionFiles
    {
      forall e :: e in events ==> Has(e)
    }

    /** Everything that can be found. */
    ghost function Contents(): iset<Event>
      reads this`db, this`uploadFiles, this`deletionFiles
    {
      iset e | Has(e)
    }

    ghost predicate Reached(block: int)
      reads this`processed
    {
      forall b :: FIRST_BLOCK <= b < block ==> b in processed
    }

    ghost predicate Marked()
      reads this
    {
      && (BlockKey in db ==> db[BlockKey].Number? && FIRST_BLOCK <= db[BlockKey].block && Reached(db[BlockKey].block))
      && (checkpointFile.Some? ==> FIRST_BLOCK <= checkpointFile.value && Reached(checkpointFile.value))
    }

    /** The event was logged as lost, or was in a fallback file that was started anew. */
    ghost predicate Lost(x: Event)
      reads this`logged, this`dropped
    {
      x in logged || x in dropped
    }

    ghost predicate Accounted()
      reads this
    {
      AccountedIn(db, uploadFiles, deletionFiles, retrieved, logged, dropped)
    }

    ghost predicate Valid()
      reads this
    {
      OwnLists(db, uploadFiles, deletionFiles) && Marked() && Accounted()
    }

    method SaveToFile(kind: Kind, owner: string, hash: string, f: Faults) returns (ok: bool)
      modifies this`uploadFiles, this`deletionFiles
      ensures (Tier(kind), ok) == Appended(old(Tier(kind)), owner, hash, f)
      ensures if kind.Upload? then deletionFiles == old(deletionFiles) else uploadFiles == old(uploadFiles)
    {
      var tier := if kind.Upload? then uploadFiles else deletionFiles;
      if f.read || owner !in tier {
        if f.write {
          return false;
        }
        tier := tier[owner := UserFiles(owner, [hash])];
      } else {
        var list := tier[owner];
        if list.user != owner {
          if f.rename {
            return false;
          }
          tier := (tier - {owner})[list.user := list];
          list := UserFiles(owner, [hash]);
        } else {
          list := list.(files := list.files + [hash]);
        }
        if !f.write {
          tier := tier[owner := list];
        }
        ok := !f.write;
        if kind.Upload? {
          uploadFiles := tier;
        } else {
          deletionFiles := tier;
        }
        return;
      }
      if kind.Upload? {
        uploadFiles := tier;
      } else {
        deletionFiles := tier;
      }
      return true;
    }

    /** The body of the two event loops, with the history it makes. */
    method Record(e: Event, f: Faults) returns (ok: bool)
      modifies this
      ensures (db, Tier(e.kind), ok) == Recorded(old(db), old(Tier(e.kind)), e, f)
      ensures if e.kind.Upload? then deletionFiles == old(deletionFiles) else uploadFiles == old(uploadFiles)
      ensures checkpointFile == old(checkpointFile) && processed == old(processed)
      ensures retrieved == old(retrieved) + {e}
      ensures logged == old(logged) + if ok then {} else {e}
      ensures dropped == old(dropped) +
        if f.read then EventsOf(e.kind, e.owner, FilesOf(old(Tier(e.kind)), e.owner)) else {}
    {
      retrieved := retrieved + {e};
      if f.read {
        dropped := dropped + EventsOf(e.kind, e.owner, FilesOf(Tier(e.kind), e.owner));
      }
      var key := ListKey(e.kind, e.owner);
      if !f.get1 && key !in db {
        ok := !f.put;
        if ok {
          db := db[key := List(UserFiles(e.owner, [e.hash]))];
        }
      } else {
        var readable := key in db && !(f.get1 && f.get2) && db[key].List?;
        if readable && !f.put {
          var list := db[key].list;
          list := list.(files := list.files + [e.hash]);
          db := db[key := List(list)];
          ok := true;
        } else {
          ok := SaveToFile(e.kind, e.owner, e.hash, f);
        }
      }
      if !ok {
        logged := logged + {e};
      }
    }

    /** Recording an event keeps every list with its owner and every retrieved event accounted for. */
    method RecordEvent(e: Event, f: Faults) returns (ok: bool)
      requires Valid()
      modifies this
      ensures Valid()
      ensures (db, Tier(e.kind), ok) == Recorded(old(db), old(Tier(e.kind)), e, f)
      ensures MarksNow() == old(MarksNow())
      ensures processed == old(processed) && retrieved == old(retrieved) + {e} && old(dropped) <= dropped
      ensures ok ==> Has(e) && logged == old(logged)
      ensures f == WELL ==> ok
      ensures !ok ==> logged == old(logged) + {e} && forall x :: Has(x) <==> old(Has(x))
      ensures forall x :: Has(x) ==> old(Has(x)) || x == e
      ensures !f.read ==> dropped == old(dropped) && forall x :: old(Has(x)) ==> Has(x)
      ensures forall x :: Lost(x) ==> old(Lost(x)) || Excuses(e, f, x)
    {
      ok := Record(e, f);
      RecordedOverall(old(db), old(uploadFiles), old(deletionFiles), e, f, db, uploadFiles, deletionFiles, ok,
                      old(retrieved), old(logged), old(dropped), logged, dropped);
      assert Marked() by {
        assert BlockKey != ListKey(e.kind, e.owner);
      }
    }

    /** One of the two event loops of a block. */
    method RecordAll(events: seq<(Event, Faults)>)
      requires Valid()
      modifies this
      ensures Valid()
      ensures MarksNow() == old(MarksNow())
      ensures processed == old(processed) && old(logged) <= logged && old(dropped) <= dropped
      ensures retrieved == old(retrieved) + Events(events)
      ensures forall x :: Has(x) ==> old(Has(x)) || x in Events(events)
      ensures Read(events) ==> dropped == old(dropped) && forall x :: old(Has(x)) ==> Has(x)
      ensures Well(events) ==> logged == old(logged) && forall x :: x in Events(events) ==> Has(x)
      ensures forall x :: Lost(x) ==> old(Lost(x)) || ExcusedBy(events, x)
    {
      for i := 0 to |events|
        invariant Valid()
        invariant MarksNow() == old(MarksNow())
        invariant processed == old(processed) && old(logged) <= logged && old(dropped) <= dropped
        invariant retrieved == old(retrieved) + Events(events[..i])
        invariant forall x :: Has(x) ==> old(Has(x)) || x in Events(events[..i])
        invariant Read(events) ==> dropped == old(dropped) && forall x :: old(Has(x)) ==> Has(x)
        invariant Well(events) ==> logged == old(logged) && forall x :: x in Events(events[..i]) ==> Has(x)
        invariant forall x :: Lost(x) ==> old(Lost(x)) || ExcusedBy(events, x)
      {
        assert events[..i + 1][..i] == events[..i];
        var ok := RecordEvent(events[i].0, events[i].1);
      }
      assert events[..|events|] == events;
    }

    /** Which block the scan starts with: the larger checkpoint, or the first block if neither is usable. */
    method Start(boot: Boot) returns (block: UInt32)
      requires Valid()
      ensures block >= FIRST_BLOCK && Reached(block)
      ensures block == FirstSeen(MarksNow(), !boot.get2, !boot.readFile)
    {
      block := 0;
      if !boot.get1 && BlockKey !in db {
        block := FIRST_BLOCK;
      }
      if block == 0 {
        if boot.get2 || BlockKey !in db || !db[BlockKey].Number? {
          block := FIRST_BLOCK;
        } else {
          block := db[BlockKey].block;
        }
      }
      if !boot.readFile && checkpointFile.Some? && checkpointFile.value > block {
        block := checkpointFile.value;
      }
    }

    /** The two persisted checkpoints. */
    function MarksNow(): Marks
      reads this`db, this`checkpointFile
    {
      Marks(if BlockKey in db && db[BlockKey].Number? then Some(db[BlockKey].block) else None, checkpointFile)
    }

    /** The larger of the two. */
    function Larger(): UInt32
      reads this`db, this`checkpointFile
    {
      FirstSeen(MarksNow(), true, true)
    }

    /** Persists the next block to scan: in the database, again in the database, or in the file. */
    method SaveCheckpoint(block: UInt32, tick: Tick)
      requires Valid() && block >= FIRST_BLOCK && Reached(block)
      modifies this`db, this`checkpointFile
      ensures Valid()
      ensures Contents() == old(Contents())
      ensures MarksNow() == Saved(old(MarksNow()), block, tick)
      ensures !tick.put1 || !tick.put2 ==>
        db == old(db)[BlockKey := Number(block)] && checkpointFile == old(checkpointFile)
      ensures tick.put1 && tick.put2 ==>
        db == old(db) && checkpointFile == if tick.writeFile then old(checkpointFile) else Some(block)
      ensures !tick.put1 || !tick.put2 || !tick.writeFile ==> Larger() >= block
    {
      if !tick.put1 || !tick.put2 {
        db := db[BlockKey := Number(block)];
      } else if !tick.writeFile {
        checkpointFile := Some(block);
      }
    }

    /**
     Both event loops of a block. Replaying a block all of whose events are recorded changes no list,
     unless a fallback file cannot be read.
     */
    method RecordBlock(tick: Tick)
      requires Valid()
      modifies this
      ensures Valid()
      ensures MarksNow() == old(MarksNow())
      ensures processed == old(processed) && old(logged) <= logged && old(dropped) <= dropped
      ensures retrieved == old(retrieved) + Events(tick.uploads) + Events(tick.deletions)
      ensures forall x :: x in Contents() ==>
        x in old(Contents()) || x in Events(tick.uploads) || x in Events(tick.deletions)
      ensures TickReads(tick) ==> dropped == old(dropped) && old(Contents()) <= Contents()
      ensures TickReads(tick) ==>
        (forall x :: x in Events(tick.uploads) + Events(tick.deletions) ==> x in old(Contents())) ==>
          Contents() == old(Contents())
      ensures TickWell(tick) ==> logged == old(logged)
      ensures TickWell(tick) ==> forall x :: x in Events(tick.uploads) + Events(tick.deletions) ==> x in Contents()
      ensures forall x :: Lost(x) ==> old(Lost(x)) || TickExcuses(tick, x)
    {
      RecordAll(tick.uploads);
      label between:
      RecordAll(tick.deletions);
      forall x | Has(x) ensures old(Has(x)) || x in Events(tick.uploads) || x in Events(tick.deletions) {
        assert old@between(Has(x)) || x in Events(tick.deletions);
      }
      if TickReads(tick) {
        forall x | old(Has(x)) ensures Has(x) {
          assert old@between(Has(x));
        }
      }
      if TickWell(tick) {
        forall x | x in Events(tick.uploads) ensures Has(x) {
          assert old@between(Has(x));
        }
      }
    }

    ghost method Finish(block: UInt32)
      requires Valid() && block >= FIRST_BLOCK && Reached(block)
      modifies this`processed
      ensures Valid() && Reached(block + 1)
      ensures processed == old(processed) + {block}
    {
      processed := processed + {block};
    }

    /** A block is done with: the checkpoint moves behind it. */
    method PassBlock(block: UInt32, tick: Tick)
      requires Valid() && block >= FIRST_BLOCK && Reached(block) && block + 1 < 0x1_0000_0000
      modifies this`db, this`checkpointFile, this`processed
      ensures Valid() && Reached(block + 1)
      ensures processed == old(processed) + {block}
      ensures Contents() == old(Contents())
      ensures MarksNow() == Saved(old(MarksNow()), block + 1, tick)
      ensures !(tick.put1 && tick.put2 && tick.writeFile) ==> Larger() > block
    {
      Finish(block);
      SaveCheckpoint(block + 1, tick);
    }

    /** Retrieves one block: its uploads, its deletions, and the checkpoint after it. */
    method ScanBlock(block: UInt32, tick: Tick)
      requires Valid() && block >= FIRST_BLOCK && Reached(block) && block + 1 < 0x1_0000_0000
      modifies this
      ensures Valid()
      ensures processed == old(processed) + if tick.crash then {} else {block}
      ensures Reached(if tick.crash then block else block + 1)
      ensures MarksNow() == if tick.crash then old(MarksNow()) else Saved(old(MarksNow()), block + 1, tick)
      ensures retrieved == old(retrieved) + Events(tick.uploads) + Events(tick.deletions)
      ensures old(logged) <= logged && old(dropped) <= dropped
      ensures forall x :: x in Contents() ==>
        x in old(Contents()) || x in Events(tick.uploads) || x in Events(tick.deletions)
      ensures TickReads(tick) ==> dropped == old(dropped) && old(Contents()) <= Contents()
      ensures TickWell(tick) ==> logged == old(logged)
      ensures TickWell(tick) ==> forall x :: x in Events(tick.uploads) + Events(tick.deletions) ==> x in Contents()
      ensures forall x :: Lost(x) ==> old(Lost(x)) || TickExcuses(tick, x)
      ensures !tick.crash && !(tick.put1 && tick.put2 && tick.writeFile) ==> Larger() > block
    {
      RecordBlock(tick);
      if !tick.crash {
        PassBlock(block, tick);
      }
    }

    /** One turn of the scan loop: wait for the chain, or retrieve one block. */
    method Turn(tick: Tick, retrievedBlock: UInt32, blockHeight: UInt32) returns (next: UInt32, height: UInt32)
      requires Valid() && retrievedBlock >= FIRST_BLOCK && Reached(retrievedBlock)
      modifies this
      ensures Valid() && next >= FIRST_BLOCK && Reached(next)
      ensures height == (if retrievedBlock < blockHeight then blockHeight
                         else if tick.height.Some? then tick.height.value else 0)
      ensures var scan :=
          tick.hash && (retrievedBlock < blockHeight || (tick.height.Some? && retrievedBlock < tick.height.value));
        && next == (if scan && !tick.crash then retrievedBlock + 1 else retrievedBlock)
        && processed == old(processed) + (if scan && !tick.crash then {retrievedBlock} else {})
        && retrieved == old(retrieved) + (if scan then Events(tick.uploads) + Events(tick.deletions) else {})
        && MarksNow() ==
          (if scan && !tick.crash then Saved(old(MarksNow()), retrievedBlock + 1, tick) else old(MarksNow()))
        && (if scan
            then TickWell(tick) ==> forall x :: x in Events(tick.uploads) + Events(tick.deletions) ==> x in Contents()
            else Contents() == old(Contents()))
      ensures old(logged) <= logged && old(dropped) <= dropped
      ensures TickReads(tick) ==> dropped == old(dropped) && old(Contents()) <= Contents()
      ensures TickWell(tick) ==> logged == old(logged)
      ensures forall x :: Lost(x) ==> old(Lost(x)) || TickExcuses(tick, x)
    {
      next, height := retrievedBlock, blockHeight;
      if retrievedBlock >= blockHeight {
        height := if tick.height.Some? then tick.height.value else 0;
        if tick.height.None? || retrievedBlock >= height {
          return;
        }
      }
      if !tick.hash {
        return;
      }
      ScanBlock(retrievedBlock, tick);
      if !tick.crash {
        next := retrievedBlock + 1;
      }
    }

    /** The same turn, as a step of the course of a run. `base` is what was retrieved before the run. */
    method Stride(tick: Tick, retrievedBlock: UInt32, blockHeight: UInt32, ghost p: Position, ghost base: set<Event>)
      returns (next: UInt32, height: UInt32)
      requires Valid() && retrievedBlock >= FIRST_BLOCK && Reached(retrievedBlock)
      requires p.block == retrievedBlock && p.height == blockHeight && !p.crashed && retrieved == base + p.told
      modifies this
      ensures Valid() && next >= FIRST_BLOCK && Reached(next)
      ensures Stepped(p, tick) == Position(next, height, Stepped(p, tick).told, tick.crash)
      ensures retrieved == base + Stepped(p, tick).told
      ensures forall b :: b in processed <==> b in old(processed) || retrievedBlock <= b < next
      ensures MarksNow() == MarksStepped(old(MarksNow()), p, tick)
      ensures old(logged) <= logged && old(dropped) <= dropped
      ensures TickReads(tick) ==> dropped == old(dropped) && old(Contents()) <= Contents()
      ensures TickWell(tick) ==> logged == old(logged) && (old(HasAll(p.told)) ==> HasAll(Stepped(p, tick).told))
      ensures forall x :: Lost(x) ==> old(Lost(x)) || TickExcuses(tick, x)
    {
      next, height := Turn(tick, retrievedBlock, blockHeight);
      if TickWell(tick) && old(HasAll(p.told)) {
        forall e | e in Stepped(p, tick).told ensures Has(e) {
          if e in p.told {
            assert e in old(Contents());
          } else {
            assert e in Contents();
          }
        }
      }
    }

    /** One run of `syncBlock`, from start-up to the crash or to the end of what is known of it. */
    method SyncBlock(boot: Boot) returns (retrievedBlock: UInt32, ghost first: UInt32)
      requires Valid()
      modifies this
      ensures Valid() && retrievedBlock >= FIRST_BLOCK && Reached(retrievedBlock)
      ensures first >= FIRST_BLOCK && first == FirstSeen(old(MarksNow()), !boot.get2, !boot.readFile)
      ensures MarksNow() == MarksAfter(old(MarksNow()), first, boot.height, boot.ticks)
      ensures var p := Walk(first, boot.height, boot.ticks);
        && retrievedBlock == p.block
        && retrieved == old(retrieved) + p.told
        && (forall b :: b in processed <==> b in old(processed) || first <= b < retrievedBlock)
      ensures forall b :: b in processed - old(processed) ==> Below(b, boot)
      ensures old(logged) <= logged && old(dropped) <= dropped
      ensures BootReads(boot) ==> dropped == old(dropped) && old(Contents()) <= Contents()
      ensures BootWell(boot) ==> logged == old(logged) && HasAll(Walk(first, boot.height, boot.ticks).told)
      ensures Ready(first, boot) ==>
        && retrievedBlock == first + |boot.ticks|
        && (forall e :: e in retrieved <==> e in old(retrieved) || Brought(boot.ticks, e))
        && (BootWell(boot) ==> forall e :: Brought(boot.ticks, e) ==> Has(e))
      ensures forall x :: Lost(x) ==> old(Lost(x)) || BootExcuses(boot, x)
    {
      retrievedBlock := Start(boot);
      first := retrievedBlock;
      var blockHeight: UInt32 := boot.height;
      var k := 0;
      var crashed := false;
      ghost var p := Position(first, boot.height, {}, false);
      while k < |boot.ticks| && !crashed
        invariant 0 <= k <= |boot.ticks|
        invariant Valid() && FIRST_BLOCK <= first <= retrievedBlock && Reached(retrievedBlock)
        invariant p == Walk(first, boot.height, boot.ticks[..k])
        invariant MarksNow() == MarksAfter(old(MarksNow()), first, boot.height, boot.ticks[..k])
        invariant p.block == retrievedBlock && p.height == blockHeight && p.crashed == crashed
        invariant retrieved == old(retrieved) + p.told
        invariant forall b :: b in processed <==> b in old(processed) || first <= b < retrievedBlock
        invariant old(logged) <= logged && old(dropped) <= dropped
        invariant BootReads(boot) ==> dropped == old(dropped) && old(Contents()) <= Contents()
        invariant BootWell(boot) ==> logged == old(logged) && HasAll(p.told)
        invariant forall x :: Lost(x) ==> old(Lost(x)) || BootExcuses(boot, x)
      {
        var tick := boot.ticks[k];
        assert tick in boot.ticks;
        WalkStep(first, boot.height, boot.ticks, k);
        MarksStep(old(MarksNow()), first, boot.height, boot.ticks, k);
        retrievedBlock, blockHeight := Stride(tick, retrievedBlock, blockHeight, p, old(retrieved));
        p := Stepped(p, tick);
        crashed := tick.crash;
        k := k + 1;
      }
      WalkEnds(first, boot, k);
      MarksStopped(old(MarksNow()), first, boot.height, boot.ticks, k);
      if Ready(first, boot) {
        RunProgresses(first, boot);
      }
    }

    /** Found where a read does not fail: in the database, or in the fallback file. */
    ghost predicate Seen(e: Event, get: bool, read: bool)
      reads this`db, this`uploadFiles, this`deletionFiles
    {
      || (!get && e.hash in ListAt(db, ListKey(e.kind, e.owner)))
      || (!read && e.hash in FilesOf(Tier(e.kind), e.owner))
    }

    /** What the answer has, given which of the four reads fail. */
    ghost predicate Answers(
      account: string, h: string, getUploads: bool, readUploads: bool, getDeletions: bool, readDeletions: bool)
      reads this`db, this`uploadFiles, this`deletionFiles
    {
      Seen(Event(Upload, account, h), getUploads, readUploads) &&
        !Seen(Event(Deletion, account, h), getDeletions, readDeletions)
    }

    /**
     `getRestoreHandle` on the index, whichever reads fail: a list that cannot be read counts as empty. None
     is the index panic of the deletion merge.
     */
    method GetRestore(account: string, getUploads: bool, readUploads: bool, getDeletions: bool, readDeletions: bool)
      returns (result: Option<seq<string>>)
      requires Valid()
      ensures result.None? <==>
        !getDeletions && !readDeletions &&
          0 < |FilesOf(deletionFiles, account)| < |ListAt(db, ListKey(Deletion, account))|
      ensures result.Some? ==> forall h :: h in result.value <==>
        Answers(account, h, getUploads, readUploads, getDeletions, readDeletions)
    {
      var uploads, deletions := ListKey(Upload, account), ListKey(Deletion, account);
      var uploadCache := if !getUploads && uploads in db then db[uploads].list else UNREAD;
      var uploadFile := if !readUploads && account in uploadFiles then uploadFiles[account] else UNREAD;
      var deleteCache := if !getDeletions && deletions in db then db[deletions].list else UNREAD;
      var deleteFile := if !readDeletions && account in deletionFiles then deletionFiles[account] else UNREAD;
      result := Answer(account, uploadCache, uploadFile, deleteCache, deleteFile);
    }
  }

  /**
   Failed reads change the answer about a file exactly if they hide its upload and it is not deleted, or if
   they hide its deletion and its upload is seen: then a deleted file is offered for restoring.
   */
  lemma {:induction false} FailedReadsChangeIff(
    index: Index, account: string, h: string, getUploads: bool, readUploads: bool, getDeletions: bool,
      readDeletions: bool)
    ensures var upload, deletion := Event(Upload, account, h), Event(Deletion, account, h);
      index.Answers(account, h, getUploads, readUploads, getDeletions, readDeletions) !=
      index.Answers(account, h, false, false, false, false) <==>
      || (index.Has(upload) && !index.Seen(upload, getUploads, readUploads) && !index.Has(deletion))
      || (index.Seen(upload, getUploads, readUploads) && index.Has(deletion) &&
        !index.Seen(deletion, getDeletions, readDeletions))
  {
  }
}
