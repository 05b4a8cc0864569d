/**
 The scanner against the chain's own log: whatever runs, crashes and restarts there were, the restore list
 is the log's uploads minus its deletions, for the blocks that were scanned.
 */
module BlockLog {
  import opened Text
  import opened RestoreList
  import opened BlockIndex

  // The events of each block.
  type Log = nat -> set<Event>

  function End(first: UInt32, boot: Boot): Position {
    Walk(first, boot.height, boot.ticks)
  }

  /** Turn k of a run retrieves the block at `p`. */
  predicate Retrieves(p: Position, tick: Tick) {
    !p.crashed && Advance(p.block, p.height, tick).0
  }

  function Told(tick: Tick): set<Event> {
    Events(tick.uploads) + Events(tick.deletions)
  }

  /** A turn that retrieves a block deals with exactly its events, or with some of them before it crashes. */
  predicate TellsTrue(p: Position, tick: Tick, log: Log) {
    Retrieves(p, tick) ==> if tick.crash then Told(tick) <= log(p.block) else Told(tick) == log(p.block)
  }

  ghost predicate Follows(first: UInt32, boot: Boot, log: Log) {
    forall k :: 0 <= k < |boot.ticks| ==> TellsTrue(Walk(first, boot.height, boot.ticks[..k]), boot.ticks[k], log)
  }

  /** The event is in a block that one run of the scanner passed. */
  ghost predicate Passed(first: UInt32, p: Position, log: Log, e: Event) {
    exists b: nat :: first <= b < p.block && e in log(b)
  }

  // What a run was told is what is in the blocks it passed, and perhaps some of the block it crashed on.
  lemma {:induction false} WalkTold(first: UInt32, boot: Boot, log: Log, k: nat)
    requires k <= |boot.ticks| && Follows(first, boot, log)
    ensures var p := Walk(first, boot.height, boot.ticks[..k]);
      && (forall e :: Passed(first, p, log, e) ==> e in p.told)
      && (forall e :: e in p.told ==> Passed(first, p, log, e) || (p.crashed && e in log(p.block)))
  {
    if k > 0 {
      WalkTold(first, boot, log, k - 1);
      WalkStep(first, boot.height, boot.ticks, k - 1);
      ToldStep(first, Walk(first, boot.height, boot.ticks[..k - 1]), boot.ticks[k - 1], log);
    }
  }

  lemma {:induction false} EndTold(first: UInt32, boot: Boot, log: Log, e: Event)
    requires Follows(first, boot, log)
    ensures var p := End(first, boot);
      && (Passed(first, p, log, e) ==> e in p.told)
      && (e in p.told ==> Passed(first, p, log, e) || (p.crashed && e in log(p.block)))
  {
    var n := |boot.ticks|;
    assert boot.ticks[..n] == boot.ticks;
    assert Walk(first, boot.height, boot.ticks[..n]) == End(first, boot);
    WalkTold(first, boot, log, n);
    var p := Walk(first, boot.height, boot.ticks[..n]);
    assert Passed(first, p, log, e) ==> e in p.told;
  }

  lemma {:induction false} ToldStep(first: UInt32, p: Position, tick: Tick, log: Log)
    requires first <= p.block && TellsTrue(p, tick, log)
    requires forall e :: Passed(first, p, log, e) ==> e in p.told
    requires forall e :: e in p.told ==> Passed(first, p, log, e) || (p.crashed && e in log(p.block))
    ensures var q := Stepped(p, tick);
      && (forall e :: Passed(first, q, log, e) ==> e in q.told)
      && (forall e :: e in q.told ==> Passed(first, q, log, e) || (q.crashed && e in log(q.block)))
  {
    var q := Stepped(p, tick);
    forall e | Passed(first, q, log, e) ensures e in q.told {
      var b: nat :| first <= b < q.block && e in log(b);
      if b < p.block {
        assert Passed(first, p, log, e);
      }
    }
    forall e | e in q.told ensures Passed(first, q, log, e) || (q.crashed && e in log(q.block)) {
      if Passed(first, p, log, e) {
        var b: nat :| first <= b < p.block && e in log(b);
        assert first <= b < q.block;
      }
    }
  }

  // ----- Many runs -----

  /** The checkpoints that runs on a new index leave. */
  function MarksOf(boots: seq<Boot>): Marks
    decreases |boots|, 0
  {
    if boots == [] then Marks(None, None)
    else
      var before, boot := boots[..|boots| - 1], boots[|boots| - 1];
      MarksAfter(MarksOf(before), FirstOf(before, boot), boot.height, boot.ticks)
  }

  /** Where the next run starts. */
  function FirstOf(before: seq<Boot>, boot: Boot): UInt32
    decreases |before|, 1
  {
    FirstSeen(MarksOf(before), !boot.get2, !boot.readFile)
  }

  /** Where each of the runs starts. */
  function Firsts(boots: seq<Boot>): (firsts: seq<UInt32>)
    ensures |firsts| == |boots|
  {
    if boots == [] then [] else Firsts(boots[..|boots| - 1]) + [FirstOf(boots[..|boots| - 1], boots[|boots| - 1])]
  }

  /** One of the runs passed this block. */
  ghost predicate Scanned(boots: seq<Boot>, firsts: seq<UInt32>, b: nat) {
    exists k :: 0 <= k < |firsts| <= |boots| && firsts[k] <= b < End(firsts[k], boots[k]).block
  }

  ghost predicate AllFollow(boots: seq<Boot>, firsts: seq<UInt32>, log: Log) {
    |firsts| <= |boots| && forall k :: 0 <= k < |firsts| ==> Follows(firsts[k], boots[k], log)
  }

  /** The log has the event in a block that was scanned. */
  ghost predicate Logged(boots: seq<Boot>, firsts: seq<UInt32>, log: Log, e: Event) {
    exists b: nat :: Scanned(boots, firsts, b) && e in log(b)
  }

  /** The log has the event in a block that a run crashed on. */
  ghost predicate Partly(boots: seq<Boot>, firsts: seq<UInt32>, log: Log, e: Event) {
    exists k :: 0 <= k < |firsts| <= |boots| && End(firsts[k], boots[k]).crashed &&
      e in log(End(firsts[k], boots[k]).block)
  }

  /** Each run starts no further than the runs before it came. */
  ghost predicate Started(boots: seq<Boot>, firsts: seq<UInt32>) {
    forall k, b: nat :: 0 <= k < |firsts| && FIRST_BLOCK <= b < firsts[k] ==> Scanned(boots, firsts[..k], b)
  }

  ghost predicate Excused(boots: seq<Boot>, x: Event) {
    exists boot :: boot in boots && BootExcuses(boot, x)
  }

  /** Nothing fails and nothing crashes. */
  ghost predicate Clean(boot: Boot) {
    BootWell(boot) && forall t :: t in boot.ticks ==> !t.crash
  }

  ghost predicate AllClean(boots: seq<Boot>) {
    forall boot :: boot in boots ==> Clean(boot)
  }

  lemma {:induction false} ScannedGrows(boots: seq<Boot>, firsts: seq<UInt32>, first: UInt32, b: nat)
    requires |firsts| < |boots|
    ensures Scanned(boots, firsts + [first], b) <==>
      Scanned(boots, firsts, b) || first <= b < End(first, boots[|firsts|]).block
  {
    var more := firsts + [first];
    if Scanned(boots, firsts, b) {
      var k :| 0 <= k < |firsts| && firsts[k] <= b < End(firsts[k], boots[k]).block;
      assert more[k] == firsts[k];
    }
    assert more[|firsts|] == first;
  }

  lemma {:induction false} LoggedGrows(boots: seq<Boot>, firsts: seq<UInt32>, log: Log, first: UInt32, e: Event)
    requires |firsts| < |boots|
    ensures Logged(boots, firsts + [first], log, e) <==>
      Logged(boots, firsts, log, e) || Passed(first, End(first, boots[|firsts|]), log, e)
  {
    forall b: nat ensures Scanned(boots, firsts + [first], b) <==>
      Scanned(boots, firsts, b) || first <= b < End(first, boots[|firsts|]).block
    {
      ScannedGrows(boots, firsts, first, b);
    }
    if Passed(first, End(first, boots[|firsts|]), log, e) {
      var b: nat :| first <= b < End(first, boots[|firsts|]).block && e in log(b);
      assert Scanned(boots, firsts + [first], b);
    }
    if Logged(boots, firsts, log, e) {
      var b: nat :| Scanned(boots, firsts, b) && e in log(b);
      assert Scanned(boots, firsts + [first], b);
    }
  }

  lemma {:induction false} PartlyGrows(boots: seq<Boot>, firsts: seq<UInt32>, log: Log, first: UInt32, e: Event)
    requires |firsts| < |boots|
    ensures var p := End(first, boots[|firsts|]);
      Partly(boots, firsts + [first], log, e) <==> Partly(boots, firsts, log, e) || (p.crashed && e in log(p.block))
  {
    var more := firsts + [first];
    if Partly(boots, firsts, log, e) {
      var k :| 0 <= k < |firsts| && End(firsts[k], boots[k]).crashed && e in log(End(firsts[k], boots[k]).block);
      assert more[k] == firsts[k];
    }
    assert more[|firsts|] == first;
  }

  /** What was retrieved is what the log has in the scanned blocks, and perhaps some of the blocks of crashes. */
  ghost predicate Matches(boots: seq<Boot>, firsts: seq<UInt32>, log: Log, retrieved: set<Event>) {
    && (forall e :: Logged(boots, firsts, log, e) ==> e in retrieved)
    && (forall e :: e in retrieved ==> Logged(boots, firsts, log, e) || Partly(boots, firsts, log, e))
  }

  lemma {:induction false} MatchesGrows(
    boots: seq<Boot>, firsts: seq<UInt32>, log: Log, first: UInt32, retrieved: set<Event>)
    requires |firsts| < |boots| && Matches(boots, firsts, log, retrieved) && Follows(first, boots[|firsts|], log)
    ensures Matches(boots, firsts + [first], log, retrieved + End(first, boots[|firsts|]).told)
  {
    var boot, more := boots[|firsts|], firsts + [first];
    var told := retrieved + End(first, boot).told;
    forall e | Logged(boots, more, log, e) ensures e in told {
      LoggedGrows(boots, firsts, log, first, e);
      EndTold(first, boot, log, e);
    }
    forall e | e in told ensures Logged(boots, more, log, e) || Partly(boots, more, log, e) {
      LoggedGrows(boots, firsts, log, first, e);
      PartlyGrows(boots, firsts, log, first, e);
      EndTold(first, boot, log, e);
    }
  }

  lemma {:induction false} StartedGrows(boots: seq<Boot>, firsts: seq<UInt32>, first: UInt32)
    requires |firsts| < |boots| && Started(boots, firsts)
    requires forall b: nat :: FIRST_BLOCK <= b < first ==> Scanned(boots, firsts, b)
    ensures Started(boots, firsts + [first])
  {
    var more := firsts + [first];
    forall k, b: nat | 0 <= k < |more| && FIRST_BLOCK <= b < more[k] ensures Scanned(boots, more[..k], b) {
      if k < |firsts| {
        assert more[..k] == firsts[..k];
      } else {
        assert more[..k] == firsts;
      }
    }
  }

  // A run in which nothing crashes does not end in a crash.
  lemma {:induction false} CleanWalk(first: UInt32, boot: Boot, k: nat)
    requires k <= |boot.ticks| && forall t :: t in boot.ticks ==> !t.crash
    ensures !Walk(first, boot.height, boot.ticks[..k]).crashed
  {
    if k > 0 {
      CleanWalk(first, boot, k - 1);
      WalkStep(first, boot.height, boot.ticks, k - 1);
    }
  }

  lemma {:induction false} CleanRuns(boots: seq<Boot>, firsts: seq<UInt32>, log: Log, e: Event)
    requires AllClean(boots)
    ensures !Excused(boots, e) && !Partly(boots, firsts, log, e)
  {
    forall k | 0 <= k < |firsts| <= |boots| ensures !End(firsts[k], boots[k]).crashed {
      assert Clean(boots[k]);
      CleanWalk(firsts[k], boots[k], |boots[k].ticks|);
      assert boots[k].ticks[..|boots[k].ticks|] == boots[k].ticks;
    }
  }

  /** The first run of all starts at the first block. */
  lemma {:induction false} FirstRunStarts(boots: seq<Boot>)
    requires boots != []
    ensures Firsts(boots)[0] == FIRST_BLOCK
  {
    var before := boots[..|boots| - 1];
    if before == [] {
      assert MarksOf(before) == Marks(None, None);
    } else {
      FirstRunStarts(before);
    }
  }

  // The runs so far and one more.
  lemma {:induction false} FirstsGrow(boots: seq<Boot>, k: nat)
    requires k < |boots|
    ensures Firsts(boots[..k + 1]) == Firsts(boots[..k]) + [FirstOf(boots[..k], boots[k])]
    ensures MarksOf(boots[..k + 1]) ==
      MarksAfter(MarksOf(boots[..k]), FirstOf(boots[..k], boots[k]), boots[k].height, boots[k].ticks)
  {
    assert boots[..k + 1][..k] == boots[..k];
  }

  // ----- Runs that go on -----

  function TicksOf(boots: seq<Boot>): nat {
    if boots == [] then 0 else TicksOf(boots[..|boots| - 1]) + |boots[|boots| - 1].ticks|
  }

  /** Both checkpoints can be read, and each time one of the three writes of the next one succeeds. */
  ghost predicate Persists(boot: Boot) {
    !boot.get2 && !boot.readFile && forall t :: t in boot.ticks ==> !(t.put1 && t.put2 && t.writeFile)
  }

  /** Every tick of run k retrieves a block, the first of them the one after the blocks of the runs before. */
  ghost predicate ReadyAt(boots: seq<Boot>, k: nat)
    requires k < |boots|
  {
    Persists(boots[k]) && Ready(FIRST_BLOCK + TicksOf(boots[..k]), boots[k])
  }

  ghost predicate AllReady(boots: seq<Boot>) {
    forall k :: 0 <= k < |boots| ==> ReadyAt(boots, k)
  }

  /** What the ticks bring is what the log has, block by block from the first one. */
  ghost predicate TellsLog(boots: seq<Boot>, log: Log) {
    forall k :: 0 <= k < |boots| ==> TicksTell(FIRST_BLOCK + TicksOf(boots[..k]), boots[k], log)
  }

  ghost predicate TicksTell(first: nat, boot: Boot, log: Log) {
    forall j :: 0 <= j < |boot.ticks| ==> TickTells(boot.ticks[j], log(first + j))
  }

  ghost predicate TickTells(tick: Tick, events: set<Event>) {
    forall e :: Brings(tick, e) <==> e in events
  }

  lemma AllReadyBefore(boots: seq<Boot>)
    requires boots != [] && AllReady(boots)
    ensures AllReady(boots[..|boots| - 1])
  {
    var before := boots[..|boots| - 1];
    forall k | 0 <= k < |before| ensures ReadyAt(before, k) {
      assert before[..k] == boots[..k] && ReadyAt(boots, k);
    }
  }

  lemma ScannedBefore(boots: seq<Boot>, firsts: seq<UInt32>, b: nat)
    requires |firsts| <= |boots|
    ensures Scanned(boots, firsts, b) <==> Scanned(boots[..|firsts|], firsts, b)
  {
    var before := boots[..|firsts|];
    assert forall k :: 0 <= k < |firsts| ==> before[k] == boots[k];
  }

  // The last run adds its blocks.
  lemma {:induction false} ScannedMore(boots: seq<Boot>, b: nat)
    requires boots != []
    ensures var n := |boots| - 1;
      Scanned(boots, Firsts(boots), b) <==>
        Scanned(boots[..n], Firsts(boots[..n]), b) || Firsts(boots)[n] <= b < End(Firsts(boots)[n], boots[n]).block
  {
    var n := |boots| - 1;
    ScannedGrows(boots, Firsts(boots[..n]), Firsts(boots)[n], b);
    ScannedBefore(boots, Firsts(boots[..n]), b);
  }

  // Where one more run would start.
  lemma {:induction false} MarksProgress(boots: seq<Boot>)
    requires AllReady(boots)
    ensures FirstSeen(MarksOf(boots), true, true) == FIRST_BLOCK + TicksOf(boots)
  {
    if boots != [] {
      var n := |boots| - 1;
      var before, boot := boots[..n], boots[n];
      AllReadyBefore(boots);
      MarksProgress(before);
      assert ReadyAt(boots, n);
      var first := FirstOf(before, boot);
      RunProgresses(first, boot);
      RestartGoesOn(MarksOf(before), first, boot.height, boot.ticks);
    }
  }

  // Where the runs start.
  lemma {:induction false} RunsStart(boots: seq<Boot>)
    requires AllReady(boots)
    ensures forall k :: 0 <= k < |boots| ==> Firsts(boots)[k] == FIRST_BLOCK + TicksOf(boots[..k])
  {
    if boots != [] {
      var n := |boots| - 1;
      AllReadyBefore(boots);
      RunsStart(boots[..n]);
      MarksProgress(boots[..n]);
      assert ReadyAt(boots, n);
      assert forall k :: 0 <= k < n ==> boots[..n][..k] == boots[..k];
    }
  }

  /** Runs that can go on do, across every restart: they scan one block a tick, and none twice. */
  lemma {:induction false} RunsProgress(boots: seq<Boot>)
    requires AllReady(boots)
    ensures forall b: nat :: Scanned(boots, Firsts(boots), b) <==> FIRST_BLOCK <= b < FIRST_BLOCK + TicksOf(boots)
  {
    if boots != [] {
      var n := |boots| - 1;
      var before, boot, first := boots[..n], boots[n], Firsts(boots)[n];
      AllReadyBefore(boots);
      RunsProgress(before);
      RunsStart(boots);
      assert ReadyAt(boots, n);
      RunProgresses(first, boot);
      forall b: nat ensures Scanned(boots, Firsts(boots), b) <==>
        Scanned(before, Firsts(before), b) || first <= b < first + |boot.ticks|
      {
        ScannedMore(boots, b);
      }
    }
  }

  // A run that can go on follows the log if its ticks bring it.
  lemma {:induction false} RunFollows(first: UInt32, boot: Boot, log: Log)
    requires Ready(first, boot) && TicksTell(first, boot, log)
    ensures Follows(first, boot, log)
  {
    forall j | 0 <= j < |boot.ticks| ensures TellsTrue(Walk(first, boot.height, boot.ticks[..j]), boot.ticks[j], log) {
      WalkProgresses(first, boot, j);
      assert ReadyTick(first, boot, j) && TickTells(boot.ticks[j], log(first + j));
      forall e ensures e in Told(boot.ticks[j]) <==> e in log(first + j) {
        BringsEvents(boot.ticks[j], e);
      }
    }
  }

  lemma {:induction false} RunsFollow(boots: seq<Boot>, log: Log)
    requires AllReady(boots) && TellsLog(boots, log)
    ensures AllFollow(boots, Firsts(boots), log)
  {
    RunsStart(boots);
    forall k | 0 <= k < |boots| ensures Follows(Firsts(boots)[k], boots[k], log) {
      assert ReadyAt(boots, k);
      RunFollows(Firsts(boots)[k], boots[k], log);
    }
  }

  /** The log has the event in one of the n blocks from the first one. */
  ghost predicate InFirst(log: Log, n: nat, e: Event) {
    exists b: nat :: FIRST_BLOCK <= b < FIRST_BLOCK + n && e in log(b)
  }

  lemma {:induction false} LoggedInFirst(boots: seq<Boot>, log: Log, e: Event)
    requires AllReady(boots)
    ensures Logged(boots, Firsts(boots), log, e) <==> InFirst(log, TicksOf(boots), e)
  {
    RunsProgress(boots);
  }

  /** What is known of an index after some of the runs. */
  ghost predicate After(boots: seq<Boot>, firsts: seq<UInt32>, log: Log, processed: set<nat>, retrieved: set<Event>) {
    && |firsts| <= |boots| && Started(boots, firsts) && (forall k :: 0 <= k < |firsts| ==> firsts[k] >= FIRST_BLOCK)
    && (forall b: nat :: b in processed <==> Scanned(boots, firsts, b))
    && (AllFollow(boots, firsts, log) ==> Matches(boots, firsts, log, retrieved))
  }

  lemma {:induction false} AfterGrows(
    boots: seq<Boot>, firsts: seq<UInt32>, log: Log, first: UInt32,
    processed: set<nat>, retrieved: set<Event>, processed': set<nat>, retrieved': set<Event>)
    requires |firsts| < |boots| && After(boots, firsts, log, processed, retrieved) && first >= FIRST_BLOCK
    requires forall b: nat :: FIRST_BLOCK <= b < first ==> b in processed
    requires forall b :: b in processed' <==> b in processed || first <= b < End(first, boots[|firsts|]).block
    requires retrieved' == retrieved + End(first, boots[|firsts|]).told
    ensures After(boots, firsts + [first], log, processed', retrieved')
  {
    var more := firsts + [first];
    forall b: nat ensures b in processed' <==> Scanned(boots, more, b) {
      ScannedGrows(boots, firsts, first, b);
    }
    StartedGrows(boots, firsts, first);
    if AllFollow(boots, more, log) {
      assert more[|firsts|] == first;
      assert forall j :: 0 <= j < |firsts| ==> more[j] == firsts[j];
      MatchesGrows(boots, firsts, log, first, retrieved);
    }
  }

  /** One run after the other on a new index. */
  method RunAll(boots: seq<Boot>, ghost log: Log) returns (index: Index)
    ensures fresh(index) && index.Valid() && index.MarksNow() == MarksOf(boots)
    ensures After(boots, Firsts(boots), log, index.processed, index.retrieved)
    ensures forall x :: index.Lost(x) ==> Excused(boots, x)
  {
    index := new Index();
    ghost var firsts: seq<UInt32> := [];
    for k := 0 to |boots|
      invariant fresh(index) && index.Valid() && index.MarksNow() == MarksOf(boots[..k])
      invariant |firsts| == k && firsts == Firsts(boots[..k])
      invariant After(boots, firsts, log, index.processed, index.retrieved)
      invariant forall x :: index.Lost(x) ==> Excused(boots, x)
    {
      ghost var processed, retrieved := index.processed, index.retrieved;
      var _, first := index.SyncBlock(boots[k]);
      FirstsGrow(boots, k);
      AfterGrows(boots, firsts, log, first, processed, retrieved, index.processed, index.retrieved);
      firsts := firsts + [first];
    }
    assert boots[..|boots|] == boots;
  }

  /** The index answers to the log: nothing is missing without an excuse, and nothing is there without cause. */
  ghost predicate AnswersToLog(boots: seq<Boot>, firsts: seq<UInt32>, log: Log, contents: iset<Event>) {
    && (forall e :: Logged(boots, firsts, log, e) ==> e in contents || Excused(boots, e))
    && (forall e :: e in contents ==> Logged(boots, firsts, log, e) || Partly(boots, firsts, log, e))
  }

  /** The restore list answers to the log: uploads minus deletions, but for excused events and blocks of crashes. */
  ghost predicate ListAnswers(boots: seq<Boot>, firsts: seq<UInt32>, log: Log, account: string, list: seq<string>) {
    forall h ::
      var upload, deletion := Event(Upload, account, h), Event(Deletion, account, h);
      if h in list then
        && (Logged(boots, firsts, log, upload) || Partly(boots, firsts, log, upload))
        && (Logged(boots, firsts, log, deletion) ==> Excused(boots, deletion))
      else
        Logged(boots, firsts, log, upload) ==>
          Excused(boots, upload) || Logged(boots, firsts, log, deletion) || Partly(boots, firsts, log, deletion)
  }

  /** The restore list is the log's uploads minus its deletions. */
  ghost predicate ListIs(boots: seq<Boot>, firsts: seq<UInt32>, log: Log, account: string, list: seq<string>) {
    forall h :: h in list <==>
      && Logged(boots, firsts, log, Event(Upload, account, h))
      && !Logged(boots, firsts, log, Event(Deletion, account, h))
  }

  lemma {:induction false} ListFollows(
    boots: seq<Boot>, firsts: seq<UInt32>, log: Log, contents: iset<Event>, account: string, list: seq<string>)
    requires AnswersToLog(boots, firsts, log, contents)
    requires forall h :: h in list <==>
      Event(Upload, account, h) in contents && Event(Deletion, account, h) !in contents
    ensures ListAnswers(boots, firsts, log, account, list)
    ensures AllClean(boots) ==> ListIs(boots, firsts, log, account, list)
  {
    if AllClean(boots) {
      forall e ensures e in contents <==> Logged(boots, firsts, log, e) {
        CleanRuns(boots, firsts, log, e);
      }
    }
  }

  /**
   Any number of runs on a new index, each with any failures and perhaps a crash, then one question. The runs
   start where `Firsts` says, and leave the checkpoints that `MarksOf` says. If they were told what the log has,
   then every event of every scanned block can be found unless a failure excuses it, nothing else can be found,
   and the answer is the log's uploads minus its deletions with the same reservations; without failures and
   crashes it is exactly that.
   */
  method RestoreAfterRuns(boots: seq<Boot>, account: string, ghost log: Log)
    returns (index: Index, result: Option<seq<string>>)
    ensures fresh(index) && index.Valid() && index.MarksNow() == MarksOf(boots)
    ensures Started(boots, Firsts(boots)) && forall k :: 0 <= k < |boots| ==> Firsts(boots)[k] >= FIRST_BLOCK
    ensures forall b: nat :: FIRST_BLOCK <= b < index.Larger() ==> Scanned(boots, Firsts(boots), b)
    ensures result.None? <==>
      0 < |FilesOf(index.deletionFiles, account)| < |ListAt(index.db, ListKey(Deletion, account))|
    ensures AllFollow(boots, Firsts(boots), log) ==> AnswersToLog(boots, Firsts(boots), log, index.Contents())
    ensures AllFollow(boots, Firsts(boots), log) && result.Some? ==>
      && ListAnswers(boots, Firsts(boots), log, account, result.value)
      && (AllClean(boots) ==> ListIs(boots, Firsts(boots), log, account, result.value))
    ensures AllReady(boots) ==>
      && index.Larger() == FIRST_BLOCK + TicksOf(boots)
      && (forall b: nat :: b in index.processed <==> FIRST_BLOCK <= b < FIRST_BLOCK + TicksOf(boots))
    ensures result.Some? && AllReady(boots) && TellsLog(boots, log) && AllClean(boots) ==>
      forall h :: h in result.value <==>
        && InFirst(log, TicksOf(boots), Event(Upload, account, h))
        && !InFirst(log, TicksOf(boots), Event(Deletion, account, h))
  {
    index := RunAll(boots, log);
    result := index.GetRestore(account, false, false, false, false);
    if AllFollow(boots, Firsts(boots), log) {
      assert AnswersToLog(boots, Firsts(boots), log, index.Contents());
      if result.Some? {
        ListFollows(boots, Firsts(boots), log, index.Contents(), account, result.value);
      }
    }
    if AllReady(boots) {
      MarksProgress(boots);
      RunsProgress(boots);
      if TellsLog(boots, log) {
        RunsFollow(boots, log);
        forall e ensures Logged(boots, Firsts(boots), log, e) <==> InFirst(log, TicksOf(boots), e) {
          LoggedInFirst(boots, log, e);
        }
      }
    }
  }

  /**
   The index panic of the deletion merge is reached from an empty index by three deletions of one account, the
   last with a Put that fails: two lie in the database and one in the fallback file.
   */
  lemma {:induction false} PanicIsReached(account: string, a: string, b: string, c: string)
    ensures var (db1, tier1, ok1) := Recorded(map[], map[], Event(Deletion, account, a), WELL);
      var (db2, tier2, ok2) := Recorded(db1, tier1, Event(Deletion, account, b), WELL);
      var (db3, tier3, ok3) := Recorded(db2, tier2, Event(Deletion, account, c), WELL.(put := true));
      0 < |FilesOf(tier3, account)| < |ListAt(db3, ListKey(Deletion, account))|
  {
    var (db1, tier1, ok1) := Recorded(map[], map[], Event(Deletion, account, a), WELL);
    assert ListAt(db1, ListKey(Deletion, account)) == [a] && tier1 == map[];
    var (db2, tier2, ok2) := Recorded(db1, tier1, Event(Deletion, account, b), WELL);
    assert ListAt(db2, ListKey(Deletion, account)) == [a, b] && tier2 == map[];
    var (db3, tier3, ok3) := Recorded(db2, tier2, Event(Deletion, account, c), WELL.(put := true));
    assert FilesOf(tier3, account) == [c];
  }
}
