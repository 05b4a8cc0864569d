/**
 `trackFile`: one worker drives one tracked file against the chain until the file is stored, or until
 there is a reason to give up. What the chain and the file system answer is open at every call.
 */
module TrackLifecycle {
  import opened Text

  // The record of a file in the track directory. A restored file has no segments yet.
  datatype Record = Record(
    segments: Option<seq<seq<string>>>, owner: string, roothash: string, filename: string, buckname: string,
    filesize: nat, putflag: bool, count: nat, duplicate: bool)

  // The answer to a query; Empty is the chain's own "there is none".
  datatype Answer = Found | Empty | Broken

  datatype Authority = Accounts(accounts: seq<string>) | NoAccounts | AuthorityBroken

  datatype Sharding = Sharded(segments: seq<seq<string>>, hash: string) | ShardingFailed

  // Everything one turn of the loop may ask for; a Boolean says that the call fails. The last three are
  // removals whose errors nobody looks at: what they were to remove stays, in part at least.
  datatype Turn = Turn(
    parse: bool, file: Answer, order: Answer, reset: bool, authority: Authority, declare: bool, orderAgain: Answer,
    fileAgain: Answer, redeclare: bool, orderOfDuplicate: Answer, promote: bool, sharding: Sharding, store: bool,
    sharedStays: bool, dataStays: bool, recordStays: bool)

  datatype Exit =
    | Stored | Declared | Deauthorised | Mismatch
    | ParseFailed | ChainFailed | WriteFailed | DeclareFailed | DuplicateWaits
    | ReshardFailed | ReshardDiffers | StoreFailed
    | Running

  // What is done to the disk, in order. The data is the directory the fragment paths point into; the
  // shared copy is the file of the same name in the file directory.
  datatype Effect = Wrote(record: Record) | RemovedShared | MovedToShared | RemovedData | RemovedRecord

  /** The same file for the same owner, with the same fragments: only the progress fields may differ. */
  predicate SameFile(r: Record, other: Record) {
    && r.segments == other.segments && r.owner == other.owner && r.roothash == other.roothash
    && r.filename == other.filename && r.buckname == other.buckname && r.filesize == other.filesize
  }

  predicate HasData(r: Record) {
    r.segments.Some? && r.segments.value != []
  }

  /** The effects of the exits that end the tracking of a file. */
  function Ending(exit: Exit, r: Record, turn: Turn): seq<Effect> {
    var data := if HasData(r) && !turn.dataStays then [RemovedData] else [];
    var record := if turn.recordStays then [] else [RemovedRecord];
    match exit
    case Stored => (if HasData(r) && !turn.sharedStays then [RemovedShared] else []) + data + record
    case Declared => (if HasData(r) && !turn.sharedStays then [MovedToShared] else []) + data + record
    case Deauthorised => data + record
    case Mismatch => record
    case _ => []
  }

  predicate Gone(exit: Exit) {
    exit.Stored? || exit.Declared? || exit.Deauthorised? || exit.Mismatch?
  }

  ghost predicate OnlyWrites(effects: seq<Effect>, r: Record) {
    forall i :: 0 <= i < |effects| ==> effects[i].Wrote? && SameFile(effects[i].record, r)
  }

  predicate Authorised(authority: Authority, self: string) {
    authority.Accounts? && self in authority.accounts
  }

  /** Why the turn ended as it did, in terms of the answers it got. */
  ghost predicate Justified(exit: Exit, turn: Turn, r: Record, name: string, self: string) {
    match exit
    case Stored => turn.file.Found?
    case Declared => turn.fileAgain.Found? && !turn.redeclare && r.duplicate
    case Deauthorised => turn.file.Empty? && turn.order.Empty? && !turn.authority.AuthorityBroken? &&
      !Authorised(turn.authority, self)
    case Mismatch => turn.file.Empty? && r.roothash != name
    case ParseFailed => turn.parse
    case ChainFailed =>
      || turn.file.Broken? || turn.order.Broken?
      || (turn.order.Empty? && (turn.authority.AuthorityBroken? || !turn.orderAgain.Found?))
      || (r.duplicate && turn.orderOfDuplicate.Broken?)
    case WriteFailed => (turn.order.Empty? && turn.reset) ||
      (r.duplicate && turn.orderOfDuplicate.Empty? && turn.promote)
    case DeclareFailed => (turn.order.Empty? && turn.declare) || (r.duplicate && turn.redeclare)
    case DuplicateWaits => r.duplicate && !turn.fileAgain.Found? && !turn.orderOfDuplicate.Broken?
    case ReshardFailed => r.segments.None? && turn.sharding.ShardingFailed?
    case ReshardDiffers => r.segments.None? && turn.sharding.Sharded? && turn.sharding.hash != name
    case StoreFailed => turn.store
    case Running => turn.file.Empty? && !turn.order.Broken? && r.roothash == name && !r.duplicate && !turn.store
  }

  /** The chain has an order for the file, an old one or one that was declared in this turn. */
  predicate HasOrder(turn: Turn, self: string) {
    || turn.order.Found?
    || (turn.order.Empty? && !turn.reset && Authorised(turn.authority, self) && !turn.declare && turn.orderAgain.Found?)
  }

  /** Exactly when a turn ends in each way, and exactly when the next turn follows. */
  ghost predicate Due(exit: Exit, turn: Turn, r: Record, name: string, self: string) {
    var asked := !turn.parse && turn.file.Empty?;
    var undeclared := asked && turn.order.Empty? && !turn.reset;
    var authorised := turn.authority.Accounts? && self in turn.authority.accounts;
    var renewed := undeclared && authorised && !turn.declare && turn.orderAgain.Found?;
    var ordered := asked && (turn.order.Found? || renewed);
    var waiting := ordered && r.roothash == name && r.duplicate && !turn.fileAgain.Found?;
    var primary := ordered && r.roothash == name && !r.duplicate;
    && (exit.ParseFailed? <==> turn.parse)
    && (exit.Stored? <==> !turn.parse && turn.file.Found?)
    && (exit.Deauthorised? <==> undeclared && !turn.authority.AuthorityBroken? && !authorised)
    && (exit.Mismatch? <==> ordered && r.roothash != name)
    && (exit.Declared? <==> ordered && r.roothash == name && r.duplicate && turn.fileAgain.Found? && !turn.redeclare)
    && (exit.DeclareFailed? <==>
          || (undeclared && authorised && turn.declare)
          || (ordered && r.roothash == name && r.duplicate && turn.fileAgain.Found? && turn.redeclare))
    && (exit.WriteFailed? <==>
          || (asked && turn.order.Empty? && turn.reset)
          || (waiting && turn.orderOfDuplicate.Empty? && turn.promote))
    && (exit.DuplicateWaits? <==>
          waiting && !turn.orderOfDuplicate.Broken? && !(turn.orderOfDuplicate.Empty? && turn.promote))
    && (exit.ChainFailed? <==>
          || (!turn.parse && turn.file.Broken?)
          || (asked && turn.order.Broken?)
          || (undeclared && turn.authority.AuthorityBroken?)
          || (undeclared && authorised && !turn.declare && !turn.orderAgain.Found?)
          || (waiting && turn.orderOfDuplicate.Broken?))
    && (exit.ReshardFailed? <==> primary && r.segments.None? && turn.sharding.ShardingFailed?)
    && (exit.ReshardDiffers? <==>
          primary && r.segments.None? && turn.sharding.Sharded? && turn.sharding.hash != name)
    && (exit.StoreFailed? || exit.Running? <==>
          primary && (r.segments.Some? || (turn.sharding.Sharded? && turn.sharding.hash == name)))
    && (exit.StoreFailed? ==> turn.store) && (exit.Running? ==> !turn.store)
  }

  /** How a turn ends, question by question. */
  function ExitOf(turn: Turn, r: Record, name: string, self: string): Exit {
    if turn.parse then ParseFailed
    else if turn.file.Found? then Stored
    else if turn.file.Broken? || turn.order.Broken? then ChainFailed
    else if turn.order.Empty? && turn.reset then WriteFailed
    else if turn.order.Empty? && turn.authority.AuthorityBroken? then ChainFailed
    else if turn.order.Empty? && !Authorised(turn.authority, self) then Deauthorised
    else if turn.order.Empty? && turn.declare then DeclareFailed
    else if turn.order.Empty? && !turn.orderAgain.Found? then ChainFailed
    else if name != r.roothash then Mismatch
    else if r.duplicate then
      if turn.fileAgain.Found? then (if turn.redeclare then DeclareFailed else Declared)
      else if turn.orderOfDuplicate.Broken? then ChainFailed
      else if turn.orderOfDuplicate.Empty? && turn.promote then WriteFailed
      else DuplicateWaits
    else if r.segments.None? && turn.sharding.ShardingFailed? then ReshardFailed
    else if r.segments.None? && turn.sharding.hash != name then ReshardDiffers
    else if turn.store then StoreFailed
    else Running
  }

  /** Every end has its reason, and the ends that matter come exactly when they are due. */
  lemma {:induction false} ExitIsDue(turn: Turn, r: Record, name: string, self: string)
    ensures Justified(ExitOf(turn, r, name, self), turn, r, name, self)
    ensures Due(ExitOf(turn, r, name, self), turn, r, name, self)
  {
  }

  /** The record a turn leaves: progress is reset when there is no order, and a duplicate may become primary. */
  function After(r: Record, turn: Turn, exit: Exit): Record {
    var reset := !turn.parse && turn.file.Empty? && turn.order.Empty? && !turn.reset;
    var kept := if reset then r.(putflag := false, count := 0) else r;
    if exit.DuplicateWaits? && turn.orderOfDuplicate.Empty? then kept.(duplicate := false, putflag := false) else kept
  }

  /** The turn finds that there is no order any more, and writes that down. */
  predicate Resets(turn: Turn) {
    !turn.parse && turn.file.Empty? && turn.order.Empty? && !turn.reset
  }

  /** The turn finds that there is no order for a duplicate, and writes down that it is one no longer. */
  predicate Promotes(turn: Turn, r: Record, name: string, self: string) {
    && !turn.parse && turn.file.Empty? && HasOrder(turn, self) && r.roothash == name
    && r.duplicate && !turn.fileAgain.Found? && turn.orderOfDuplicate.Empty? && !turn.promote
  }

  /** Field by field what a turn leaves of a record: the file never changes, the progress fields do as they are due. */
  lemma {:induction false} AfterMeans(r: Record, turn: Turn, name: string, self: string)
    ensures var after := After(r, turn, ExitOf(turn, r, name, self));
      && SameFile(after, r)
      && after.count == (if Resets(turn) then 0 else r.count)
      && (after.putflag <==> r.putflag && !Resets(turn) && !Promotes(turn, r, name, self))
      && (after.duplicate <==> r.duplicate && !Promotes(turn, r, name, self))
  {
    ExitIsDue(turn, r, name, self);
  }

  /** What the writes among the effects leave in the track directory, if `r` was there before. */
  function LastWritten(effects: seq<Effect>, r: Record): Record {
    if effects == [] then r
    else if effects[|effects| - 1].Wrote? then effects[|effects| - 1].record
    else LastWritten(effects[..|effects| - 1], r)
  }

  lemma {:induction false} LastOfBoth(effects: seq<Effect>, more: seq<Effect>, r: Record)
    ensures LastWritten(effects + more, r) == LastWritten(more, LastWritten(effects, r))
  {
    if more == [] {
      assert effects + more == effects;
    } else {
      assert (effects + more)[..|effects + more| - 1] == effects + more[..|more| - 1];
      LastOfBoth(effects, more[..|more| - 1], r);
    }
  }

  lemma {:induction false} NothingWritten(effects: seq<Effect>, r: Record)
    requires forall e :: e in effects ==> !e.Wrote?
    ensures LastWritten(effects, r) == r
  {
    if effects != [] {
      NothingWritten(effects[..|effects| - 1], r);
    }
  }

  lemma {:induction false} WrittenBefore(exit: Exit, r: Record, turn: Turn, writes: seq<Effect>)
    ensures LastWritten(writes + Ending(exit, r, turn), r) == LastWritten(writes, r)
  {
    LastOfBoth(writes, Ending(exit, r, turn), r);
    EndingMeans(exit, r, turn);
    NothingWritten(Ending(exit, r, turn), LastWritten(writes, r));
  }

  // ----- What the effects come to -----

  /** The disk after some of the effects: whether the record is there, and whether the data was removed. */
  function RecordThere(effects: seq<Effect>, k: nat): bool
    requires k <= |effects|
  {
    if k == 0 then true
    else match effects[k - 1]
      case Wrote(_) => true
      case RemovedRecord => false
      case _ => RecordThere(effects, k - 1)
  }

  // Whatever is not the removal of the record leaves it there.
  lemma {:induction false} RecordStays(effects: seq<Effect>, k: nat)
    requires k <= |effects| && forall i :: 0 <= i < k ==> effects[i] != RemovedRecord
    ensures RecordThere(effects, k)
  {
    if k > 0 {
      RecordStays(effects, k - 1);
    }
  }

  /** The shared copy is dealt with before the data is removed: until then there is something to move. */
  ghost predicate SharedFirst(effects: seq<Effect>) {
    forall i, j :: 0 <= i < |effects| && 0 <= j < |effects| ==>
      (effects[i].RemovedShared? || effects[i].MovedToShared?) && effects[j].RemovedData? ==> i < j
  }

  /** What each end removes, and in which order. */
  lemma {:induction false} EndingMeans(exit: Exit, r: Record, turn: Turn)
    ensures var ending := Ending(exit, r, turn);
      && (RemovedRecord in ending <==> Gone(exit) && !turn.recordStays)
      && (RemovedData in ending <==> Gone(exit) && !exit.Mismatch? && HasData(r) && !turn.dataStays)
      && (forall i :: 0 <= i < |ending| && ending[i] == RemovedRecord ==> i == |ending| - 1)
      && (forall e :: e in ending ==> !e.Wrote?)
      && (RemovedShared in ending <==> exit.Stored? && HasData(r) && !turn.sharedStays)
      && (MovedToShared in ending <==> exit.Declared? && HasData(r) && !turn.sharedStays)
      && SharedFirst(ending)
  {
  }

  /** Stop the worker between any two effects: the record goes last, after whatever could be removed. */
  lemma {:induction false} RecordGoesLast(exit: Exit, r: Record, turn: Turn, writes: seq<Effect>, k: nat)
    requires OnlyWrites(writes, r) && k <= |writes + Ending(exit, r, turn)|
    ensures !RecordThere(writes + Ending(exit, r, turn), k) <==>
      Gone(exit) && !turn.recordStays && k == |writes + Ending(exit, r, turn)|
  {
    var effects := writes + Ending(exit, r, turn);
    EndingMeans(exit, r, turn);
    assert forall i :: 0 <= i < |writes| ==> effects[i] == writes[i];
    if k < |effects| || !(Gone(exit) && !turn.recordStays) {
      forall i | 0 <= i < k ensures effects[i] != RemovedRecord {
        if i >= |writes| {
          assert effects[i] == Ending(exit, r, turn)[i - |writes|];
          assert effects[i] in Ending(exit, r, turn);
        }
      }
      RecordStays(effects, k);
    } else {
      assert effects[k - 1] == RemovedRecord;
    }
  }

  /** The answers that end the tracking and take the data along: stored, declared, or not authorised. */
  ghost predicate DataIsDue(turn: Turn, r: Record, name: string, self: string) {
    && !turn.parse
    && (|| turn.file.Found?
        || (turn.file.Empty? && turn.order.Empty? && !turn.reset && !turn.authority.AuthorityBroken? &&
          !Authorised(turn.authority, self))
        || DeclarationIsDue(turn, r, name, self))
  }

  /** The answers that declare a duplicate. */
  ghost predicate DeclarationIsDue(turn: Turn, r: Record, name: string, self: string) {
    && !turn.parse && turn.file.Empty? && HasOrder(turn, self) && r.roothash == name
    && r.duplicate && turn.fileAgain.Found? && !turn.redeclare
  }

  /** Wherever the worker is stopped: once the record is gone, the data is too, exactly unless its removal failed. */
  ghost predicate DataOutlives(effects: seq<Effect>, failed: bool) {
    forall k {:trigger effects[..k]} :: 0 <= k <= |effects| && !RecordThere(effects, k) ==>
      (RemovedData !in effects[..k] <==> failed)
  }

  // What the effects of a whole run come to.
  lemma {:induction false} EffectsOfEnding(turn: Turn, r: Record, name: string, self: string, writes: seq<Effect>)
    requires OnlyWrites(writes, r)
    ensures var exit := ExitOf(turn, r, name, self);
      var effects := writes + Ending(exit, r, turn);
      && (RemovedRecord in effects <==> Gone(exit) && !turn.recordStays)
      && (RemovedData in effects <==> HasData(r) && DataIsDue(turn, r, name, self) && !turn.dataStays)
      && (HasData(r) && !exit.Mismatch? ==> DataOutlives(effects, turn.dataStays))
      && (RemovedShared in effects <==> !turn.parse && turn.file.Found? && HasData(r) && !turn.sharedStays)
      && (MovedToShared in effects <==> DeclarationIsDue(turn, r, name, self) && HasData(r) && !turn.sharedStays)
      && SharedFirst(effects)
  {
    var exit := ExitOf(turn, r, name, self);
    var effects := writes + Ending(exit, r, turn);
    ExitIsDue(turn, r, name, self);
    EndingMeans(exit, r, turn);
    assert forall e :: e in writes ==> e.Wrote?;
    assert forall i :: 0 <= i < |effects| && !effects[i].Wrote? ==>
      i >= |writes| && effects[i] == Ending(exit, r, turn)[i - |writes|];
    forall k | 0 <= k <= |effects| && !RecordThere(effects, k) && HasData(r) && !exit.Mismatch?
      ensures RemovedData !in effects[..k] <==> turn.dataStays
    {
      RecordGoesLast(exit, r, turn, writes, k);
      assert effects[..k] == effects;
    }
  }

  // ----- Turns and runs -----

  /** What one turn does: how it ends, what it writes first, and what it leaves of the record. */
  ghost predicate TurnDoes(
    r: Record, turn: Turn, name: string, self: string, now: Option<Record>, exit: Exit, effects: seq<Effect>,
      writes: seq<Effect>)
  {
    && exit == ExitOf(turn, r, name, self)
    && (now.None? <==> Gone(exit) && !turn.recordStays)
    && OnlyWrites(writes, r)
    && (now.Some? ==> now.value == After(r, turn, exit))
    && (if writes == [] then r else writes[|writes| - 1].record) == After(r, turn, exit)
    && effects == writes + Ending(exit, r, turn)
  }

  /** Where a run stands after `used` turns that called for going on, and perhaps one that ended it. */
  ghost predicate RunDoes(
    r: Record, turns: seq<Turn>, used: nat, name: string, self: string, now: Option<Record>, exit: Exit,
      effects: seq<Effect>, writes: seq<Effect>)
  {
    && used <= |turns| && OnlyWrites(writes, r)
    && (forall k :: 0 <= k < used ==> ExitOf(turns[k], r, name, self).Running?)
    && (now.Some? ==> SameFile(now.value, r) && now.value == LastWritten(writes, r))
    && if exit.Running? then
         now.Some? && ProgressIs(r, turns, used, name, self, now.value, exit) && effects == writes
       else
         && used < |turns|
         && exit == ExitOf(turns[used], r, name, self)
         && effects == writes + Ending(exit, r, turns[used])
         && (now.None? <==> Gone(exit) && !turns[used].recordStays)
         && (now.Some? ==> ProgressIs(r, turns, used, name, self, now.value, exit))
  }

  ghost predicate ResetBefore(turns: seq<Turn>, n: nat) {
    exists k :: 0 <= k < n <= |turns| && Resets(turns[k])
  }

  /** The progress fields after a run: reset if a turn found no order, and promoted if the last turn did that. */
  ghost predicate ProgressIs(
    r: Record, turns: seq<Turn>, used: nat, name: string, self: string, now: Record, exit: Exit)
    requires used <= |turns| && (exit.Running? || used < |turns|)
  {
    var reset := ResetBefore(turns, if exit.Running? then used else used + 1);
    var promoted := !exit.Running? && Promotes(turns[used], r, name, self);
    && now.count == (if reset then 0 else r.count)
    && (now.putflag <==> r.putflag && !reset && !promoted)
    && (now.duplicate <==> r.duplicate && !promoted)
  }

  lemma {:induction false} ProgressStep(
    r: Record, turns: seq<Turn>, used: nat, name: string, self: string, now: Record, after: Record, exit: Exit)
    requires used < |turns| && SameFile(now, r) && ProgressIs(r, turns, used, name, self, now, Running)
    requires exit == ExitOf(turns[used], now, name, self) && after == After(now, turns[used], exit)
    ensures ProgressIs(r, turns, if exit.Running? then used + 1 else used, name, self, after, exit)
  {
    AfterMeans(now, turns[used], name, self);
    ExitIsDue(turns[used], now, name, self);
    assert ResetBefore(turns, used + 1) <==> ResetBefore(turns, used) || Resets(turns[used]);
  }

  // How a turn ends does not depend on the progress fields.
  lemma {:induction false} SameEnd(r: Record, now: Record, turn: Turn, name: string, self: string)
    requires SameFile(now, r) && now.duplicate == r.duplicate
    ensures ExitOf(turn, now, name, self) == ExitOf(turn, r, name, self)
    ensures forall exit :: Ending(exit, now, turn) == Ending(exit, r, turn)
    ensures SameFile(After(now, turn, ExitOf(turn, r, name, self)), r)
    ensures ExitOf(turn, r, name, self).Running? ==> After(now, turn, Running).duplicate == r.duplicate
  {
  }

  lemma {:induction false} WritesOfBoth(r: Record, now: Record, effects: seq<Effect>, wrote: seq<Effect>)
    requires OnlyWrites(effects, r) && OnlyWrites(wrote, now) && SameFile(now, r)
    ensures OnlyWrites(effects + wrote, r)
  {
  }

  lemma {:induction false} Joined(a: seq<Effect>, b: seq<Effect>, c: seq<Effect>)
    ensures a + (b + c) == (a + b) + c
  {
  }

  lemma {:induction false} RunStep(
    r: Record, turns: seq<Turn>, used: nat, name: string, self: string, now: Option<Record>, effects: seq<Effect>,
    after: Option<Record>, exit: Exit, done: seq<Effect>, wrote: seq<Effect>)
    requires RunDoes(r, turns, used, name, self, now, Running, effects, effects) && used < |turns|
    requires TurnDoes(now.value, turns[used], name, self, after, exit, done, wrote)
    ensures var next := if exit.Running? then used + 1 else used;
      RunDoes(r, turns, next, name, self, after, exit, effects + done, effects + wrote)
  {
    SameEnd(r, now.value, turns[used], name, self);
    if after.Some? {
      ProgressStep(r, turns, used, name, self, now.value, after.value, exit);
    }
    WritesOfBoth(r, now.value, effects, wrote);
    LastOfBoth(effects, wrote, r);
    Joined(effects, wrote, Ending(exit, r, turns[used]));
    if exit.Running? {
      assert done == wrote;
    }
  }

  /** What is left of a turn once the file has an order, and `recordFile` is its record. */
  ghost predicate OrderDoes(
    recordFile: Record, turn: Turn, name: string, self: string, now: Option<Record>, exit: Exit, effects: seq<Effect>,
      writes: seq<Effect>)
  {
    && exit == ExitOf(turn, recordFile, name, self)
    && effects == writes + Ending(exit, recordFile, turn)
    && if exit.DuplicateWaits? && turn.orderOfDuplicate.Empty? then
         var primary := recordFile.(duplicate := false, putflag := false);
         now == Some(primary) && writes == [Wrote(primary)]
       else
         writes == [] && now == if Gone(exit) && !turn.recordStays then None else Some(recordFile)
  }

  // The writes before the order was found, and what is left of the turn.
  lemma {:induction false} TurnOfBoth(
    r: Record, turn: Turn, name: string, self: string, now: Option<Record>, exit: Exit, writes: seq<Effect>,
      rest: seq<Effect>, wrote: seq<Effect>)
    requires !turn.parse && turn.file.Empty? && HasOrder(turn, self)
    requires writes == if Resets(turn) then [Wrote(r.(putflag := false, count := 0))] else []
    requires var recordFile := if Resets(turn) then r.(putflag := false, count := 0) else r;
      OrderDoes(recordFile, turn, name, self, now, exit, rest, wrote)
    ensures TurnDoes(r, turn, name, self, now, exit, writes + rest, writes + wrote)
  {
    var recordFile := if Resets(turn) then r.(putflag := false, count := 0) else r;
    SameEnd(r, recordFile, turn, name, self);
    Joined(writes, wrote, Ending(exit, r, turn));
  }

  // What a run that ended did to the disk.
  lemma {:induction false} RunMeans(
    r: Record, turns: seq<Turn>, used: nat, name: string, self: string, now: Option<Record>, exit: Exit,
      effects: seq<Effect>, writes: seq<Effect>)
    requires RunDoes(r, turns, used, name, self, now, exit, effects, writes)
    ensures exit.Running? ==> forall e :: e in effects ==> e.Wrote?
    ensures now.Some? ==> now.value == LastWritten(effects, r)
    ensures !exit.Running? ==>
      && Justified(exit, turns[used], r, name, self) && Due(exit, turns[used], r, name, self)
      && (RemovedRecord in effects <==> Gone(exit) && !turns[used].recordStays)
      && (RemovedData in effects <==>
            HasData(r) && DataIsDue(turns[used], r, name, self) && !turns[used].dataStays)
      && (HasData(r) && !exit.Mismatch? ==> DataOutlives(effects, turns[used].dataStays))
      && (RemovedShared in effects <==> exit.Stored? && HasData(r) && !turns[used].sharedStays)
      && (MovedToShared in effects <==> exit.Declared? && HasData(r) && !turns[used].sharedStays)
      && SharedFirst(effects)
  {
    assert forall e :: e in writes ==> e.Wrote?;
    if !exit.Running? {
      ExitIsDue(turns[used], r, name, self);
      EndingMeans(exit, r, turns[used]);
      WrittenBefore(exit, r, turns[used], writes);
      EffectsOfEnding(turns[used], r, name, self, writes);
    }
  }

  class TrackedFile {
    const name: string
    // The account this gateway signs with.
    const self: string
    // The record stored under `name` in the track directory.
    var record: Option<Record>

    constructor (name: string, self: string, record: Option<Record>)
      ensures this.name == name && this.self == self && this.record == record
    {
      this.name, this.self, this.record := name, self, record;
    }

    /** The removals at an end: the shared copy, the data, and `DeleteTrackFile`. No error is looked at. */
    method EndTracking(exit: Exit, r: Record, turn: Turn) returns (effects: seq<Effect>)
      requires Gone(exit)
      modifies this`record
      ensures record == if turn.recordStays then old(record) else None
      ensures effects == Ending(exit, r, turn)
    {
      var shared, data: seq<Effect> := [], [];
      if HasData(r) && !exit.Mismatch? {
        if exit.Stored? && !turn.sharedStays {
          shared := [RemovedShared];
        }
        if exit.Declared? && !turn.sharedStays {
          shared := [MovedToShared];
        }
        if !turn.dataStays {
          data := [RemovedData];
        }
      }
      effects := shared + data;
      if !turn.recordStays {
        record := None;
        effects := effects + [RemovedRecord];
      }
    }

    /** The part of a turn that deals with a duplicate whose order stands. */
    method TrackDuplicate(turn: Turn, recordFile: Record) returns (exit: Exit, effects: seq<Effect>,
                                                                   ghost writes: seq<Effect>)
      requires recordFile.duplicate && record == Some(recordFile)
      modifies this`record
      ensures exit == (
        if turn.fileAgain.Found? then (if turn.redeclare then DeclareFailed else Declared)
        else if turn.orderOfDuplicate.Broken? then ChainFailed
        else if turn.orderOfDuplicate.Empty? && turn.promote then WriteFailed
        else DuplicateWaits)
      ensures effects == writes + Ending(exit, recordFile, turn)
      ensures forall r :: HasData(r) == HasData(recordFile) ==> Ending(exit, r, turn) == Ending(exit, recordFile, turn)
      ensures if exit.DuplicateWaits? && turn.orderOfDuplicate.Empty?
              then record == Some(recordFile.(duplicate := false, putflag := false)) && writes == [Wrote(record.value)]
              else writes == [] && record == if exit.Declared? && !turn.recordStays then None else old(record)
    {
      effects, writes := [], [];
      if turn.fileAgain.Found? {
        if turn.redeclare {
          return DeclareFailed, effects, writes;
        }
        effects := EndTracking(Declared, recordFile, turn);
        return Declared, effects, writes;
      }
      if turn.orderOfDuplicate.Broken? {
        return ChainFailed, effects, writes;
      }
      if turn.orderOfDuplicate.Empty? {
        if turn.promote {
          return WriteFailed, effects, writes;
        }
        var primary := recordFile.(duplicate := false, putflag := false);
        record := Some(primary);
        effects := [Wrote(primary)];
      }
      return DuplicateWaits, effects, effects;
    }

    /** The rest of a turn, once the file has an order. */
    method TrackOrder(turn: Turn, recordFile: Record) returns (exit: Exit, effects: seq<Effect>,
                                                               ghost writes: seq<Effect>)
      requires record == Some(recordFile) && !turn.parse && turn.file.Empty? && HasOrder(turn, self)
      modifies this`record
      ensures OrderDoes(recordFile, turn, name, self, record, exit, effects, writes)
    {
      if name != recordFile.roothash {
        effects := EndTracking(Mismatch, recordFile, turn);
        return Mismatch, effects, [];
      }
      if recordFile.duplicate {
        exit, effects, writes := TrackDuplicate(turn, recordFile);
        return;
      }
      if recordFile.segments.None? {
        if turn.sharding.ShardingFailed? {
          return ReshardFailed, [], [];
        }
        if turn.sharding.hash != name {
          return ReshardDiffers, [], [];
        }
      }
      return (if turn.store then StoreFailed else Running), [], [];
    }

    /** One turn of the loop; Running means that the next turn follows. `writes` is what came before an ending. */
    method OneTurn(turn: Turn) returns (exit: Exit, effects: seq<Effect>, ghost writes: seq<Effect>)
      modifies this`record
      ensures old(record).None? ==> record.None? && effects == [] && exit.ParseFailed?
      ensures old(record).Some? ==> TurnDoes(old(record).value, turn, name, self, record, exit, effects, writes)
    {
      effects, writes := [], [];
      if turn.parse || record.None? {
        return ParseFailed, [], [];
      }
      var recordFile := record.value;
      if turn.file.Found? {
        effects := EndTracking(Stored, recordFile, turn);
        return Stored, effects, [];
      }
      if turn.file.Broken? || turn.order.Broken? {
        return ChainFailed, [], [];
      }
      if turn.order.Empty? {
        recordFile := recordFile.(putflag := false, count := 0);
        if turn.reset {
          return WriteFailed, [], [];
        }
        record := Some(recordFile);
        effects := [Wrote(recordFile)];
        writes := effects;
        if turn.authority.AuthorityBroken? {
          return ChainFailed, effects, writes;
        }
        if !Authorised(turn.authority, self) {
          var ending := EndTracking(Deauthorised, recordFile, turn);
          return Deauthorised, effects + ending, writes;
        }
        if turn.declare {
          return DeclareFailed, effects, writes;
        }
        if !turn.orderAgain.Found? {
          return ChainFailed, effects, writes;
        }
      }
      var rest;
      ghost var wrote;
      exit, rest, wrote := TrackOrder(turn, recordFile);
      TurnOfBoth(old(record).value, turn, name, self, record, exit, writes, rest, wrote);
      return exit, effects + rest, writes + wrote;
    }

    /**
     A run goes on as long as the turns call for it, and ends as the last turn says. The record goes only for
     one of four reasons; the data goes only with the record and before it, and outlives a record that is gone
     exactly if its removal failed; every other exit leaves the file's identity alone.
     */
    method TrackFile(turns: seq<Turn>) returns (exit: Exit, effects: seq<Effect>, used: nat, ghost writes: seq<Effect>)
      modifies this`record
      ensures old(record).None? ==>
        record.None? && effects == [] && used == 0 && exit == if turns == [] then Running else ParseFailed
      ensures old(record).Some? ==> RunDoes(old(record).value, turns, used, name, self, record, exit, effects, writes)
      ensures exit.Running? ==> used == |turns|
      ensures old(record).Some? && !exit.Running? ==>
        Justified(exit, turns[used], old(record).value, name, self) &&
          Due(exit, turns[used], old(record).value, name, self)
      ensures old(record).Some? && old(record).value.roothash == name ==> !exit.Mismatch?
      ensures old(record).Some? && !exit.Running? ==>
        && (RemovedRecord in effects <==> Gone(exit) && !turns[used].recordStays)
        && (RemovedData in effects <==>
              HasData(old(record).value) && DataIsDue(turns[used], old(record).value, name, self) &&
                !turns[used].dataStays)
        && (HasData(old(record).value) && !exit.Mismatch? ==> DataOutlives(effects, turns[used].dataStays))
      ensures old(record).Some? && !exit.Running? ==>
        var segments := old(record).value.segments;
        var hasData := segments.Some? && segments.value != [];
        && (RemovedShared in effects <==> exit.Stored? && hasData && !turns[used].sharedStays)
        && (MovedToShared in effects <==> exit.Declared? && hasData && !turns[used].sharedStays)
        && (RemovedData in effects <==>
              (exit.Stored? || exit.Declared? || exit.Deauthorised?) && hasData && !turns[used].dataStays)
        && SharedFirst(effects)
      ensures old(record).Some? && exit.Running? ==> forall e :: e in effects ==> e.Wrote?
      ensures old(record).Some? && record.Some? ==>
        SameFile(record.value, old(record).value) && record.value == LastWritten(effects, old(record).value)
    {
      exit, effects, used, writes := Running, [], 0, [];
      while used < |turns| && exit.Running?
        invariant used <= |turns|
        invariant old(record).None? ==>
          record.None? && effects == [] && used == 0 && (exit.Running? || (exit.ParseFailed? && turns != []))
        invariant old(record).Some? ==>
          RunDoes(old(record).value, turns, used, name, self, record, exit, effects, writes)
        decreases |turns| - used, exit.Running?
      {
        ghost var start := record;
        var done;
        ghost var wrote;
        exit, done, wrote := OneTurn(turns[used]);
        if start.Some? {
          RunStep(old(record).value, turns, used, name, self, start, effects, record, exit, done, wrote);
          writes := effects + wrote;
        }
        effects := effects + done;
        if exit.Running? {
          used := used + 1;
        }
      }
      if old(record).Some? {
        RunMeans(old(record).value, turns, used, name, self, record, exit, effects, writes);
      }
    }
  }
}
