/**
 `storageData`: the fragments of a file are regrouped into batches, one fragment of every segment per
 batch, and each batch is sent to a storage peer of its own. Peers come from one shared iterator; map
 order and every network outcome are open.
 */
module Placement {
  import opened Text

  // ----- Grouping -----

  function Column(segments: seq<seq<string>>, index: nat): (column: seq<string>)
    requires forall i :: 0 <= i < |segments| ==> index < |segments[i]|
    ensures |column| == |segments|
    ensures forall i :: 0 <= i < |segments| ==> column[i] == segments[i][index]
  {
    seq(|segments|, i requires 0 <= i < |segments| => segments[i][index])
  }

  ghost predicate RowsReach(segments: seq<seq<string>>, width: nat) {
    forall i :: 0 <= i < |segments| ==> width <= |segments[i]|
  }

  /** The key of a column: its number, counted from one, in eight bits. */
  function KeyOf(index: nat): nat {
    (index + 1) % 256
  }

  /** What lies under a key after the first `width` columns: the columns with that key, one after the other. */
  ghost function Batch(segments: seq<seq<string>>, width: nat, key: nat): seq<string>
    requires RowsReach(segments, width)
  {
    if width == 0 then []
    else Batch(segments, width - 1, key) + if KeyOf(width - 1) == key then Column(segments, width - 1) else []
  }

  /** The inner loop: appends column `index` to what its key already holds. */
  method AppendColumn(segments: seq<seq<string>>, index: nat, dataGroup: map<nat, seq<string>>)
    returns (grown: Option<map<nat, seq<string>>>)
    requires segments != []
    ensures grown.Some? <==> RowsReach(segments, index + 1)
    ensures grown.Some? ==>
      grown.value == dataGroup[KeyOf(index) := Held(dataGroup, KeyOf(index)) + Column(segments, index)]
  {
    var key := KeyOf(index);
    var held := Held(dataGroup, key);
    for i := 0 to |segments|
      invariant forall k :: 0 <= k < i ==> index < |segments[k]|
      invariant held == Held(dataGroup, key) + seq(i, k requires 0 <= k < i => segments[k][index])
    {
      if index >= |segments[i]| {
        return None;
      }
      held := held + [segments[i][index]];
    }
    assert held == Held(dataGroup, key) + Column(segments, index);
    return Some(dataGroup[key := held]);
  }

  function Held(dataGroup: map<nat, seq<string>>, key: nat): seq<string> {
    if key in dataGroup then dataGroup[key] else []
  }

  ghost predicate HasKey(width: nat, key: nat) {
    exists index: nat :: index < width && KeyOf(index) == key
  }

  ghost predicate Grouped(segments: seq<seq<string>>, width: nat, dataGroup: map<nat, seq<string>>)
    requires RowsReach(segments, width)
  {
    && (forall key :: key in dataGroup <==> HasKey(width, key))
    && (forall key :: key in dataGroup ==> dataGroup[key] == Batch(segments, width, key))
  }

  lemma {:induction false} GroupedGrows(
    segments: seq<seq<string>>, index: nat, before: map<nat, seq<string>>, after: map<nat, seq<string>>)
    requires RowsReach(segments, index + 1) && Grouped(segments, index, before)
    requires after == before[KeyOf(index) := Held(before, KeyOf(index)) + Column(segments, index)]
    ensures Grouped(segments, index + 1, after)
  {
    forall key ensures HasKey(index + 1, key) <==> HasKey(index, key) || key == KeyOf(index) {
    }
    if KeyOf(index) !in before {
      BatchBefore(segments, index, KeyOf(index));
    }
    forall key | key in after ensures after[key] == Batch(segments, index + 1, key) {
      if key != KeyOf(index) {
        assert after[key] == before[key];
      }
    }
  }

  /** The keys are the batch numbers the chain counts from one, exactly up to 255 of them. */
  lemma {:induction false} KeysCountFromOneIff(width: nat)
    ensures (forall key: nat :: HasKey(width, key) <==> 1 <= key <= width) <==> width <= 255
  {
    if width <= 255 {
      forall key: nat | 1 <= key <= width ensures HasKey(width, key) {
        assert KeyOf(key - 1) == key;
      }
    } else {
      assert KeyOf(255) == 0;
      assert HasKey(width, 0);
    }
  }

  /** What bags numbered from zero hold together. */
  ghost function BagSum(bag: nat -> multiset<string>, keys: nat): multiset<string> {
    if keys == 0 then multiset{} else BagSum(bag, keys - 1) + bag(keys - 1)
  }

  lemma {:induction false} SumSame(bag: nat -> multiset<string>, other: nat -> multiset<string>, keys: nat)
    requires forall key: nat :: key < keys ==> bag(key) == other(key)
    ensures BagSum(bag, keys) == BagSum(other, keys)
  {
    if keys > 0 {
      SumSame(bag, other, keys - 1);
    }
  }

  lemma {:induction false} SumEmpty(bag: nat -> multiset<string>, keys: nat)
    requires forall key: nat :: key < keys ==> bag(key) == multiset{}
    ensures BagSum(bag, keys) == multiset{}
  {
    if keys > 0 {
      SumEmpty(bag, keys - 1);
    }
  }

  // One bag grows, and so does the sum.
  lemma {:induction false} SumGrows(
    bag: nat -> multiset<string>, other: nat -> multiset<string>, keys: nat, grown: nat, extra: multiset<string>)
    requires forall key: nat :: key < keys ==> other(key) == bag(key) + if key == grown then extra else multiset{}
    ensures BagSum(other, keys) == BagSum(bag, keys) + if grown < keys then extra else multiset{}
  {
    if keys > 0 {
      SumGrows(bag, other, keys - 1, grown, extra);
    }
  }

  lemma {:induction false} SumAdds(
    bag: nat -> multiset<string>, other: nat -> multiset<string>, both: nat -> multiset<string>, n: nat)
    requires forall i: nat :: i < n ==> both(i) == bag(i) + other(i)
    ensures BagSum(both, n) == BagSum(bag, n) + BagSum(other, n)
  {
    if n > 0 {
      SumAdds(bag, other, both, n - 1);
    }
  }

  /** The first `width` fragments of each segment. */
  ghost function RowPart(segments: seq<seq<string>>, width: nat): nat -> multiset<string> {
    (i: nat) => if i < |segments| && width <= |segments[i]| then multiset(segments[i][..width]) else multiset{}
  }

  /** The fragment of each segment in one column. */
  ghost function Cell(segments: seq<seq<string>>, index: nat): nat -> multiset<string> {
    (i: nat) => if i < |segments| && index < |segments[i]| then multiset{segments[i][index]} else multiset{}
  }

  /** All fragments of the first `width` columns, row by row. */
  ghost function RowBag(segments: seq<seq<string>>, width: nat): multiset<string> {
    BagSum(RowPart(segments, width), |segments|)
  }

  lemma {:induction false} PrefixBag(column: seq<string>, n: nat)
    requires 0 < n <= |column|
    ensures multiset(column[..n]) == multiset(column[..n - 1]) + multiset{column[n - 1]}
  {
    assert column[..n] == column[..n - 1] + [column[n - 1]];
  }

  lemma {:induction false} CellsAreColumn(segments: seq<seq<string>>, index: nat, n: nat)
    requires RowsReach(segments, index + 1) && n <= |segments|
    ensures BagSum(Cell(segments, index), n) == multiset(Column(segments, index)[..n])
  {
    var column := Column(segments, index);
    if n > 0 {
      CellsAreColumn(segments, index, n - 1);
      PrefixBag(column, n);
      assert Cell(segments, index)(n - 1) == multiset{column[n - 1]};
    }
  }

  lemma {:induction false} RowBagWider(segments: seq<seq<string>>, width: nat)
    requires RowsReach(segments, width + 1)
    ensures RowBag(segments, width + 1) == RowBag(segments, width) + multiset(Column(segments, width))
  {
    forall i: nat | i < |segments|
      ensures RowPart(segments, width + 1)(i) == RowPart(segments, width)(i) + Cell(segments, width)(i)
    {
      assert segments[i][..width + 1] == segments[i][..width] + [segments[i][width]];
    }
    SumAdds(RowPart(segments, width), Cell(segments, width), RowPart(segments, width + 1), |segments|);
    CellsAreColumn(segments, width, |segments|);
    assert Column(segments, width)[..|segments|] == Column(segments, width);
  }

  lemma {:induction false} RowBagEmpty(segments: seq<seq<string>>, width: nat)
    requires width == 0
    ensures RowBag(segments, width) == multiset{}
  {
    forall i: nat | i < |segments| ensures RowPart(segments, width)(i) == multiset{} {
      assert segments[i][..0] == [];
    }
    SumEmpty(RowPart(segments, width), |segments|);
  }

  /** What each key of a map of batches holds. */
  ghost function HeldBag(groups: map<nat, seq<string>>): nat -> multiset<string> {
    (key: nat) => multiset(Held(groups, key))
  }

  /** What each key holds after `width` columns. */
  ghost function BatchBag(segments: seq<seq<string>>, width: nat): nat -> multiset<string>
    requires RowsReach(segments, width)
  {
    (key: nat) => if RowsReach(segments, width) then multiset(Batch(segments, width, key)) else multiset{}
  }

  lemma {:induction false} BatchWider(segments: seq<seq<string>>, width: nat, key: nat)
    requires RowsReach(segments, width + 1)
    ensures multiset(Batch(segments, width + 1, key)) ==
      multiset(Batch(segments, width, key)) + if KeyOf(width) == key then multiset(Column(segments, width))
        else multiset{}
  {
    if KeyOf(width) == key {
      assert Batch(segments, width + 1, key) == Batch(segments, width, key) + Column(segments, width);
    } else {
      assert Batch(segments, width + 1, key) == Batch(segments, width, key);
    }
  }

  lemma {:induction false} KeyBagWider(segments: seq<seq<string>>, width: nat, key: nat)
    requires RowsReach(segments, width + 1)
    ensures BatchBag(segments, width + 1)(key) ==
      BatchBag(segments, width)(key) + if key == KeyOf(width) then multiset(Column(segments, width)) else multiset{}
  {
    BatchWider(segments, width, key);
  }

  // One more column goes to one key.
  lemma {:induction false} SumWider(segments: seq<seq<string>>, width: nat, keys: nat)
    requires RowsReach(segments, width + 1) && keys >= 256
    ensures BagSum(BatchBag(segments, width + 1), keys) ==
      BagSum(BatchBag(segments, width), keys) + multiset(Column(segments, width))
  {
    var bag, other, grown, extra :=
      BatchBag(segments, width), BatchBag(segments, width + 1), KeyOf(width), multiset(Column(segments, width));
    forall key: nat | key < keys ensures other(key) == bag(key) + if key == grown then extra else multiset{} {
      KeyBagWider(segments, width, key);
    }
    SumGrows(bag, other, keys, grown, extra);
  }

  lemma {:induction false} NoColumns(segments: seq<seq<string>>, width: nat, keys: nat)
    requires RowsReach(segments, width) && width == 0
    ensures BagSum(BatchBag(segments, width), keys) == multiset{}
  {
    forall key: nat | key < keys ensures BatchBag(segments, width)(key) == multiset{} {
      assert Batch(segments, width, key) == [];
    }
    SumEmpty(BatchBag(segments, width), keys);
  }

  /** The batches of the first `width` columns hold what the rows have there. */
  ghost predicate Balanced(segments: seq<seq<string>>, width: nat, keys: nat) {
    RowsReach(segments, width) && BagSum(BatchBag(segments, width), keys) == RowBag(segments, width)
  }

  lemma {:induction false} BalancedFirst(segments: seq<seq<string>>, width: nat, keys: nat)
    requires width == 0
    ensures Balanced(segments, width, keys)
  {
    RowBagEmpty(segments, width);
    NoColumns(segments, width, keys);
  }

  lemma {:induction false} BalancedNext(segments: seq<seq<string>>, width: nat, keys: nat)
    requires RowsReach(segments, width + 1) && keys >= 256 && Balanced(segments, width, keys)
    ensures Balanced(segments, width + 1, keys)
  {
    RowBagWider(segments, width);
    SumWider(segments, width, keys);
  }

  /** No fragment is lost or doubled on the way from segments to batches, even where keys collide. */
  lemma {:induction false} FragmentsConserved(segments: seq<seq<string>>, width: nat, keys: nat)
    requires RowsReach(segments, width) && keys >= 256
    ensures BagSum(BatchBag(segments, width), keys) == RowBag(segments, width)
  {
    var w: nat := 0;
    BalancedFirst(segments, w, keys);
    while w < width
      invariant w <= width && Balanced(segments, w, keys)
    {
      BalancedNext(segments, w, keys);
      w := w + 1;
    }
  }

  lemma {:induction false} HeldIsBatch(segments: seq<seq<string>>, width: nat, groups: map<nat, seq<string>>, key: nat)
    requires RowsReach(segments, width) && Grouped(segments, width, groups)
    ensures Held(groups, key) == Batch(segments, width, key)
  {
    if key !in groups {
      assert !HasKey(width, key);
      BatchBefore(segments, width, key);
    }
  }

  /** The batches hold each fragment of the first `width` columns exactly as often as the segments do. */
  ghost predicate Conserves(segments: seq<seq<string>>, width: nat, groups: map<nat, seq<string>>)
    requires RowsReach(segments, width)
  {
    && (forall key :: key in groups ==> key < 256)
    && (forall keys: nat :: keys >= 256 ==> BagSum(HeldBag(groups), keys) == RowBag(segments, width))
  }

  lemma {:induction false} GroupedConserves(segments: seq<seq<string>>, width: nat, groups: map<nat, seq<string>>)
    requires RowsReach(segments, width) && Grouped(segments, width, groups)
    ensures Conserves(segments, width, groups)
  {
    forall keys: nat | keys >= 256 ensures BagSum(HeldBag(groups), keys) == RowBag(segments, width) {
      forall key: nat | key < keys ensures HeldBag(groups)(key) == BatchBag(segments, width)(key) {
        HeldIsBatch(segments, width, groups, key);
      }
      SumSame(HeldBag(groups), BatchBag(segments, width), keys);
      FragmentsConserved(segments, width, keys);
    }
  }

  /** None is the index panic on a file without segments, or with a row shorter than the first. */
  method GroupFragments(segments: seq<seq<string>>) returns (groups: Option<map<nat, seq<string>>>)
    ensures groups.Some? <==> segments != [] && RowsReach(segments, |segments[0]|)
    ensures groups.Some? ==> Grouped(segments, |segments[0]|, groups.value)
    ensures groups.Some? ==> Conserves(segments, |segments[0]|, groups.value)
  {
    if segments == [] {
      return None;
    }
    var dataGroup: map<nat, seq<string>> := map[];
    var width := |segments[0]|;
    for index := 0 to width
      invariant RowsReach(segments, index)
      invariant Grouped(segments, index, dataGroup)
    {
      var grown := AppendColumn(segments, index, dataGroup);
      if grown.None? {
        return None;
      }
      GroupedGrows(segments, index, dataGroup, grown.value);
      dataGroup := grown.value;
    }
    GroupedConserves(segments, width, dataGroup);
    return Some(dataGroup);
  }

  lemma {:induction false} BatchBefore(segments: seq<seq<string>>, width: nat, key: nat)
    requires RowsReach(segments, width) && forall i :: 0 <= i < width ==> KeyOf(i) != key
    ensures Batch(segments, width, key) == []
  {
    if width > 0 {
      BatchBefore(segments, width - 1, key);
    }
  }

  lemma {:induction false} KeysDiffer(i: nat, j: nat)
    requires i < j < 256
    ensures KeyOf(i) != KeyOf(j)
  {
  }

  lemma {:induction false} BatchIsColumn(segments: seq<seq<string>>, width: nat, index: nat)
    requires index < width <= 256 && RowsReach(segments, width)
    ensures Batch(segments, width, KeyOf(index)) == Column(segments, index)
  {
    if width - 1 == index {
      forall i: nat | i < index ensures KeyOf(i) != KeyOf(index) {
        KeysDiffer(i, index);
      }
      BatchBefore(segments, index, KeyOf(index));
    } else {
      KeysDiffer(index, width - 1);
      BatchIsColumn(segments, width - 1, index);
    }
  }

  lemma {:induction false} BatchGrows(segments: seq<seq<string>>, width: nat, wider: nat, key: nat)
    requires width <= wider && RowsReach(segments, wider)
    ensures |Batch(segments, width, key)| <= |Batch(segments, wider, key)|
  {
    if width < wider {
      BatchGrows(segments, width, wider - 1, key);
    }
  }

  /** Grouping transposes the fragment matrix exactly as long as eight bits tell the columns apart. */
  lemma {:induction false} TransposesIff(segments: seq<seq<string>>, width: nat)
    requires segments != [] && RowsReach(segments, width)
    ensures (forall index :: 0 <= index < width ==>
      Batch(segments, width, KeyOf(index)) == Column(segments, index)) <==> width <= 256
  {
    if width <= 256 {
      forall index | 0 <= index < width ensures Batch(segments, width, KeyOf(index)) == Column(segments, index) {
        BatchIsColumn(segments, width, index);
      }
    } else {
      BatchIsColumn(segments, 256, 0);
      assert KeyOf(0) == KeyOf(256);
      BatchGrows(segments, 256, 256, KeyOf(0));
      BatchGrows(segments, 257, width, KeyOf(0));
      assert |Batch(segments, 257, KeyOf(0))| == 2 * |segments|;
      assert Batch(segments, width, KeyOf(0)) != Column(segments, 0);
    }
  }

  // ----- Sending one batch to one peer -----

  const TRIES := 10

  // The network: whether the peer at a place of the iterator connects, and whether it takes fragment j
  // of the batch on try k.
  datatype Net = Net(connect: nat -> bool, accept: (nat, nat, nat) -> bool)

  datatype Send = Send(batch: nat, place: nat, fragment: nat, ok: bool)

  ghost predicate AcceptedIn(net: Net, place: nat, j: nat, tries: nat) {
    exists k: nat :: k < tries && net.accept(place, j, k)
  }

  ghost predicate Landed(net: Net, place: nat, j: nat) {
    AcceptedIn(net, place, j, TRIES)
  }

  /** The calls for fragment j in so many tries: none after the first that is accepted. */
  ghost function Calls(net: Net, batch: nat, place: nat, j: nat, tries: nat): (calls: seq<Send>)
    ensures |calls| <= tries
  {
    if tries == 0 then []
    else
      Calls(net, batch, place, j, tries - 1) +
      if AcceptedIn(net, place, j, tries - 1) then [] else [Send(batch, place, j, net.accept(place, j, tries - 1))]
  }

  lemma {:induction false} CallsStop(net: Net, batch: nat, place: nat, j: nat, tries: nat, more: nat)
    requires tries <= more && AcceptedIn(net, place, j, tries)
    ensures Calls(net, batch, place, j, more) == Calls(net, batch, place, j, tries)
  {
    if tries < more {
      CallsStop(net, batch, place, j, tries, more - 1);
      assert AcceptedIn(net, place, j, more - 1);
    }
  }

  /** The calls for the fragments before the n-th. */
  ghost function Transfer(net: Net, batch: nat, place: nat, n: nat): (calls: seq<Send>)
    ensures |calls| <= TRIES * n
  {
    if n == 0 then [] else Transfer(net, batch, place, n - 1) + Calls(net, batch, place, n - 1, TRIES)
  }

  /** Up to ten tries for one fragment: each call is one try, all but the last are refused. */
  method SendFragment(net: Net, batch: nat, place: nat, j: nat) returns (accepted: bool, calls: seq<Send>)
    ensures accepted <==> Landed(net, place, j)
    ensures calls == Calls(net, batch, place, j, TRIES)
    ensures accepted <==> exists k: nat :: k < 10 && net.accept(place, j, k)
    ensures 0 < |calls| <= 10 && (accepted || |calls| == 10)
    ensures forall k :: 0 <= k < |calls| ==> calls[k] == Send(batch, place, j, net.accept(place, j, k))
    ensures forall k :: 0 <= k < |calls| - 1 ==> !calls[k].ok
  {
    accepted := false;
    calls := [];
    var k := 0;
    while k < TRIES && !accepted
      invariant 0 <= k <= TRIES
      invariant accepted <==> AcceptedIn(net, place, j, k)
      invariant calls == Calls(net, batch, place, j, k)
      invariant |calls| == k && (k == 0 ==> !accepted)
      invariant forall i :: 0 <= i < k ==> calls[i] == Send(batch, place, j, net.accept(place, j, i))
      invariant forall i :: 0 <= i < k ==> (calls[i].ok <==> accepted && i == k - 1)
    {
      accepted := net.accept(place, j, k);
      calls := calls + [Send(batch, place, j, accepted)];
      k := k + 1;
    }
    if accepted {
      CallsStop(net, batch, place, j, k, TRIES);
    }
  }

  /** The loop over the fragments of a batch. The failure flag is set once for the peer, not for each fragment. */
  method SendBatch(net: Net, batch: nat, place: nat, n: nat)
    returns (failed: bool, calls: seq<Send>, feedback: seq<bool>)
    ensures failed <==> n == 0 || !Landed(net, place, 0)
    ensures calls == if failed && n > 0 then Calls(net, batch, place, 0, TRIES) else Transfer(net, batch, place, n)
    ensures feedback == if n == 0 then [] else [!failed]
  {
    failed := true;
    calls := [];
    feedback := [];
    var j := 0;
    while j < n
      invariant 0 <= j <= n
      invariant failed <==> j == 0
      invariant j > 0 ==> Landed(net, place, 0)
      invariant calls == Transfer(net, batch, place, j)
    {
      var accepted, sent := SendFragment(net, batch, place, j);
      calls := calls + sent;
      if accepted {
        failed := false;
      }
      if failed {
        return true, sent, [false];
      }
      j := j + 1;
    }
    if !failed {
      feedback := [true];
    }
  }

  // ----- The whole call -----

  // A peer the iterator gave out and that was not passed over.
  datatype Attempt = Attempt(batch: nat, place: nat, size: nat, connected: bool, good: bool)

  datatype Feedback = Feedback(peer: string, good: bool)

  ghost function CallsOf(net: Net, a: Attempt): (calls: seq<Send>)
    ensures |calls| <= TRIES * a.size
  {
    if !a.connected || a.size == 0 then []
    else if a.good then Transfer(net, a.batch, a.place, a.size)
    else (assert TRIES <= TRIES * a.size; Calls(net, a.batch, a.place, 0, TRIES))
  }

  ghost function AllCalls(net: Net, attempts: seq<Attempt>): seq<Send> {
    if attempts == [] then []
    else AllCalls(net, attempts[..|attempts| - 1]) + CallsOf(net, attempts[|attempts| - 1])
  }

  function AllFeedback(peers: seq<string>, attempts: seq<Attempt>): (feedback: seq<Feedback>)
    requires forall i :: 0 <= i < |attempts| ==> attempts[i].place < |peers|
    ensures |feedback| == |attempts|
  {
    seq(|attempts|, i requires 0 <= i < |attempts| => Feedback(peers[attempts[i].place], attempts[i].good))
  }

  ghost predicate AttemptOk(
    net: Net, peers: seq<string>, taken: set<string>, groups: map<nat, seq<string>>, reported: seq<nat>, a: Attempt)
  {
    && a.place < |peers| && peers[a.place] !in taken
    && a.batch in groups && a.batch !in reported && a.size == |groups[a.batch]|
    && a.connected == net.connect(a.place)
    && (a.good <==> a.connected && a.size > 0 && Landed(net, a.place, 0))
  }

  /** A later attempt uses a later place of the iterator, and after a success neither its batch nor its peer. */
  ghost predicate Follows(peers: seq<string>, a: Attempt, later: Attempt) {
    && a.place < later.place
    && (a.good && later.place < |peers| ==> a.batch != later.batch && peers[a.place] != peers[later.place])
  }

  ghost predicate Sound(
    net: Net, peers: seq<string>, taken: set<string>, groups: map<nat, seq<string>>, reported: seq<nat>,
      attempts: seq<Attempt>)
  {
    && (forall i :: 0 <= i < |attempts| ==> AttemptOk(net, peers, taken, groups, reported, attempts[i]))
    && (forall i, j :: 0 <= i < j < |attempts| ==> Follows(peers, attempts[i], attempts[j]))
  }

  ghost predicate Placed(attempts: seq<Attempt>, batch: nat) {
    exists i :: 0 <= i < |attempts| && attempts[i].good && attempts[i].batch == batch
  }

  /** The batches the chain has a report for: the index of a report counts in eight bits. */
  function Reported(complete: seq<(nat, Option<string>)>): (batches: seq<nat>)
    ensures |batches| == |complete|
    ensures forall i :: 0 <= i < |complete| ==> batches[i] == complete[i].0 % 256
  {
    if complete == [] then [] else Reported(complete[..|complete| - 1]) + [complete[|complete| - 1].0 % 256]
  }

  /** The peers of the miners that reported, as far as they could be resolved. */
  function Resolved(complete: seq<(nat, Option<string>)>): (resolved: set<string>)
    ensures forall p :: p in resolved <==> exists i :: 0 <= i < |complete| && complete[i].1 == Some(p)
  {
    if complete == [] then {}
    else
      var last := complete[|complete| - 1].1;
      Resolved(complete[..|complete| - 1]) + if last.Some? then {last.value} else {}
  }

  // What a call has done so far: the peers that are taken, and how far the iterator is.
  datatype Log = Log(taken: set<string>, attempts: seq<Attempt>, calls: seq<Send>, feedback: seq<Feedback>, pulled: nat)

  ghost predicate Attempted(attempts: seq<Attempt>, place: nat) {
    exists i :: 0 <= i < |attempts| && attempts[i].place == place
  }

  /** An attempt at an earlier place succeeded with this peer. */
  ghost predicate SucceededBefore(peers: seq<string>, attempts: seq<Attempt>, peer: string, place: nat) {
    exists i :: 0 <= i < |attempts| && attempts[i].good && attempts[i].place < place && attempts[i].place < |peers| &&
      peers[attempts[i].place] == peer
  }

  /** No peer the iterator gave out was passed over without one of the two reasons. */
  ghost predicate NoneWasted(peers: seq<string>, resolved: set<string>, attempts: seq<Attempt>, pulled: nat)
    requires pulled <= |peers|
  {
    forall place: nat :: place < pulled ==>
      Attempted(attempts, place) || peers[place] in resolved || SucceededBefore(peers, attempts, peers[place], place)
  }

  ghost predicate TakenIs(
    peers: seq<string>, resolved: set<string>, attempts: seq<Attempt>, pulled: nat, taken: set<string>)
  {
    && resolved <= taken
    && (forall i :: 0 <= i < |attempts| && attempts[i].good && attempts[i].place < |peers| ==>
      peers[attempts[i].place] in taken)
    && (forall peer :: peer in taken ==> peer in resolved || SucceededBefore(peers, attempts, peer, pulled))
  }

  lemma {:induction false} NoneWastedGrows(
    peers: seq<string>, resolved: set<string>, attempts: seq<Attempt>, pulled: nat, a: Attempt)
    requires pulled < |peers| && NoneWasted(peers, resolved, attempts, pulled) && a.place == pulled
    ensures NoneWasted(peers, resolved, attempts + [a], pulled + 1)
  {
    var more := attempts + [a];
    assert more[|attempts|].place == pulled;
    forall place: nat | place < pulled
      ensures Attempted(more, place) || peers[place] in resolved || SucceededBefore(peers, more, peers[place], place)
    {
      if Attempted(attempts, place) {
        var i :| 0 <= i < |attempts| && attempts[i].place == place;
        assert more[i].place == place;
      } else if SucceededBefore(peers, attempts, peers[place], place) {
        SucceededStays(peers, attempts, a, peers[place], place, place);
      }
    }
  }

  lemma {:induction false} SucceededStays(
    peers: seq<string>, attempts: seq<Attempt>, a: Attempt, peer: string, place: nat, later: nat)
    requires SucceededBefore(peers, attempts, peer, place) && place <= later
    ensures SucceededBefore(peers, attempts + [a], peer, later)
  {
    var i :| 0 <= i < |attempts| && attempts[i].good && attempts[i].place < place && attempts[i].place < |peers| &&
      peers[attempts[i].place] == peer;
    assert (attempts + [a])[i] == attempts[i];
  }

  lemma {:induction false} TakenGrows(
    peers: seq<string>, resolved: set<string>, attempts: seq<Attempt>, pulled: nat, taken: set<string>, a: Attempt)
    requires pulled < |peers| && TakenIs(peers, resolved, attempts, pulled, taken) && a.place == pulled
    ensures TakenIs(peers, resolved, attempts + [a], pulled + 1, taken + if a.good then {peers[pulled]} else {})
  {
    var more, taken' := attempts + [a], taken + if a.good then {peers[pulled]} else {};
    forall peer | peer in taken' ensures peer in resolved || SucceededBefore(peers, more, peer, pulled + 1) {
      if peer in taken {
        if peer !in resolved {
          SucceededStays(peers, attempts, a, peer, pulled, pulled + 1);
        }
      } else {
        assert more[|attempts|].good && peers[more[|attempts|].place] == peer;
      }
    }
  }

  // Passing over a peer that is taken.
  lemma {:induction false} PassOver(
    peers: seq<string>, resolved: set<string>, attempts: seq<Attempt>, pulled: nat, taken: set<string>)
    requires pulled < |peers| && peers[pulled] in taken
    requires NoneWasted(peers, resolved, attempts, pulled) && TakenIs(peers, resolved, attempts, pulled, taken)
    ensures NoneWasted(peers, resolved, attempts, pulled + 1) && TakenIs(peers, resolved, attempts, pulled + 1, taken)
  {
    forall peer | SucceededBefore(peers, attempts, peer, pulled)
      ensures SucceededBefore(peers, attempts, peer, pulled + 1)
    {
    }
  }

  ghost predicate LogOk(
    net: Net, peers: seq<string>, resolved: set<string>, groups: map<nat, seq<string>>, reported: seq<nat>, log: Log)
  {
    && log.pulled <= |peers|
    && Sound(net, peers, resolved, groups, reported, log.attempts)
    && (forall i :: 0 <= i < |log.attempts| ==> log.attempts[i].place < log.pulled)
    && TakenIs(peers, resolved, log.attempts, log.pulled, log.taken)
    && NoneWasted(peers, resolved, log.attempts, log.pulled)
    && log.calls == AllCalls(net, log.attempts)
    && log.feedback == AllFeedback(peers, log.attempts)
  }

  lemma {:induction false} SoundGrows(
    net: Net, peers: seq<string>, resolved: set<string>, groups: map<nat, seq<string>>, reported: seq<nat>,
    attempts: seq<Attempt>, pulled: nat, taken: set<string>, a: Attempt)
    requires Sound(net, peers, resolved, groups, reported, attempts)
    requires AttemptOk(net, peers, resolved, groups, reported, a)
    requires forall i :: 0 <= i < |attempts| ==> attempts[i].place < a.place
    requires TakenIs(peers, resolved, attempts, pulled, taken)
    requires peers[a.place] !in taken && !Placed(attempts, a.batch)
    ensures Sound(net, peers, resolved, groups, reported, attempts + [a])
  {
    forall i | 0 <= i < |attempts| ensures Follows(peers, attempts[i], a) {
      assert !(attempts[i].good && attempts[i].batch == a.batch);
    }
  }

  lemma {:induction false} PlacedGrows(attempts: seq<Attempt>, a: Attempt)
    ensures forall key :: Placed(attempts + [a], key) <==> Placed(attempts, key) || (a.good && key == a.batch)
  {
    var more := attempts + [a];
    forall key ensures Placed(more, key) <==> Placed(attempts, key) || (a.good && key == a.batch) {
      if Placed(attempts, key) {
        var i :| 0 <= i < |attempts| && attempts[i].good && attempts[i].batch == key;
        assert more[i].good && more[i].batch == key;
      }
      if a.good && key == a.batch {
        assert more[|attempts|].good && more[|attempts|].batch == key;
      }
    }
  }

  lemma {:induction false} FeedbackGrows(peers: seq<string>, attempts: seq<Attempt>, a: Attempt)
    requires a.place < |peers| && forall i :: 0 <= i < |attempts| ==> attempts[i].place < |peers|
    ensures AllFeedback(peers, attempts + [a]) == AllFeedback(peers, attempts) + [Feedback(peers[a.place], a.good)]
  {
  }

  lemma {:induction false} CallsGrow(net: Net, attempts: seq<Attempt>, a: Attempt)
    ensures AllCalls(net, attempts + [a]) == AllCalls(net, attempts) + CallsOf(net, a)
  {
    assert (attempts + [a])[..|attempts|] == attempts;
  }

  lemma {:induction false} LogGrows(
    net: Net, peers: seq<string>, resolved: set<string>, groups: map<nat, seq<string>>, reported: seq<nat>, log: Log,
      a: Attempt)
    requires LogOk(net, peers, resolved, groups, reported, log)
    requires AttemptOk(net, peers, resolved, groups, reported, a)
    requires a.place == log.pulled && peers[a.place] !in log.taken && !Placed(log.attempts, a.batch)
    ensures LogOk(net, peers, resolved, groups, reported, Log(
      log.taken + if a.good then {peers[a.place]} else {}, log.attempts + [a], log.calls + CallsOf(net, a),
      log.feedback + [Feedback(peers[a.place], a.good)], log.pulled + 1))
    ensures forall key :: Placed(log.attempts + [a], key) <==> Placed(log.attempts, key) || (a.good && key == a.batch)
  {
    SoundGrows(net, peers, resolved, groups, reported, log.attempts, log.pulled, log.taken, a);
    NoneWastedGrows(peers, resolved, log.attempts, log.pulled, a);
    TakenGrows(peers, resolved, log.attempts, log.pulled, log.taken, a);
    PlacedGrows(log.attempts, a);
    CallsGrow(net, log.attempts, a);
    FeedbackGrows(peers, log.attempts, a);
  }

  /** The loop over the peers the iterator still has, for one batch. */
  method PlaceBatch(net: Net, peers: seq<string>, groups: map<nat, seq<string>>, batch: nat, start: Log,
                    ghost resolved: set<string>, ghost reported: seq<nat>)
    returns (log: Log)
    requires LogOk(net, peers, resolved, groups, reported, start)
    requires batch in groups && groups[batch] != [] && batch !in reported && !Placed(start.attempts, batch)
    ensures LogOk(net, peers, resolved, groups, reported, log)
    ensures start.pulled <= log.pulled
    ensures forall key :: Placed(start.attempts, key) ==> Placed(log.attempts, key)
    ensures forall key :: key != batch && Placed(log.attempts, key) ==> Placed(start.attempts, key)
    ensures Placed(log.attempts, batch) || log.pulled == |peers|
  {
    log := start;
    var done := false;
    while log.pulled < |peers| && !done
      invariant LogOk(net, peers, resolved, groups, reported, log)
      invariant start.pulled <= log.pulled
      invariant forall key :: Placed(start.attempts, key) ==> Placed(log.attempts, key)
      invariant forall key :: key != batch && Placed(log.attempts, key) ==> Placed(start.attempts, key)
      invariant done <==> Placed(log.attempts, batch)
      decreases |peers| - log.pulled
    {
      var place := log.pulled;
      var peer := peers[place];
      if peer in log.taken {
        PassOver(peers, resolved, log.attempts, log.pulled, log.taken);
        log := log.(pulled := log.pulled + 1);
        continue;
      }
      var a := Attempt(batch, place, |groups[batch]|, net.connect(place), false);
      var sent: seq<Send> := [];
      var told := [false];
      if a.connected {
        var failed;
        failed, sent, told := SendBatch(net, batch, place, a.size);
        a := a.(good := !failed);
        done := !failed;
      }
      LogGrows(net, peers, resolved, groups, reported, log, a);
      log := Log(log.taken + if done then {peer} else {}, log.attempts + [a], log.calls + sent,
                 log.feedback + [Feedback(peer, told[0])], log.pulled + 1);
    }
  }

  /**
   The loop over the batches. `order` is the order in which the map hands out its keys; `complete` lists
   the reported batches with the peer of each miner that could be resolved.
   */
  method PlaceBatches(
    groups: map<nat, seq<string>>, order: seq<nat>, peers: seq<string>, complete: seq<(nat, Option<string>)>, net: Net)
    returns (log: Log)
    requires forall key :: key in order <==> key in groups
    requires forall i, j :: 0 <= i < j < |order| ==> order[i] != order[j]
    requires forall key :: key in groups ==> groups[key] != []
    ensures LogOk(net, peers, Resolved(complete), groups, Reported(complete), log)
    ensures forall key :: key in groups && key !in Reported(complete) && !Placed(log.attempts, key) ==>
      log.pulled == |peers|
  {
    log := Log({}, [], [], [], 0);
    for i := 0 to |complete|
      invariant log == Log(Resolved(complete[..i]), [], [], [], 0)
    {
      assert complete[..i + 1][..i] == complete[..i];
      if complete[i].1.Some? {
        log := log.(taken := log.taken + {complete[i].1.value});
      }
    }
    assert complete[..|complete|] == complete;
    for b := 0 to |order|
      invariant LogOk(net, peers, Resolved(complete), groups, Reported(complete), log)
      invariant forall key :: Placed(log.attempts, key) ==> key in order[..b]
      invariant forall key :: key in order[..b] && key !in Reported(complete) && !Placed(log.attempts, key) ==>
        log.pulled == |peers|
    {
      var batch := order[b];
      assert batch !in order[..b] && order[..b + 1] == order[..b] + [batch];
      var completed := false;
      for i := 0 to |complete|
        invariant completed <==> batch in Reported(complete[..i])
      {
        assert complete[..i + 1][..i] == complete[..i];
        if complete[i].0 % 256 == batch {
          completed := true;
        }
      }
      if !completed {
        log := PlaceBatch(net, peers, groups, batch, log, Resolved(complete), Reported(complete));
      }
    }
    assert order[..|order|] == order;
  }

  // ----- What follows for every call -----

  /** One of these calls got fragment j across. */
  ghost predicate Got(calls: seq<Send>, j: nat) {
    exists c :: c in calls && c.fragment == j && c.ok
  }

  lemma {:induction false} GotEither(a: seq<Send>, b: seq<Send>, j: nat)
    ensures Got(a + b, j) <==> Got(a, j) || Got(b, j)
  {
    forall c | c in a && c.fragment == j && c.ok ensures Got(a + b, j) {
      assert c in a + b;
    }
    forall c | c in b && c.fragment == j && c.ok ensures Got(a + b, j) {
      assert c in a + b;
    }
  }

  lemma {:induction false} CallsMean(net: Net, batch: nat, place: nat, j: nat, tries: nat)
    ensures forall c :: c in Calls(net, batch, place, j, tries) ==>
      c.batch == batch && c.place == place && c.fragment == j
    ensures Got(Calls(net, batch, place, j, tries), j) <==> AcceptedIn(net, place, j, tries)
  {
    if tries > 0 {
      CallsMean(net, batch, place, j, tries - 1);
      if !AcceptedIn(net, place, j, tries - 1) {
        var last := Send(batch, place, j, net.accept(place, j, tries - 1));
        GotEither(Calls(net, batch, place, j, tries - 1), [last], j);
        assert last in [last];
      }
    }
  }

  lemma {:induction false} TransferNames(net: Net, batch: nat, place: nat, n: nat)
    ensures forall c :: c in Transfer(net, batch, place, n) ==> c.batch == batch && c.place == place && c.fragment < n
  {
    if n > 0 {
      var before, last := Transfer(net, batch, place, n - 1), Calls(net, batch, place, n - 1, TRIES);
      TransferNames(net, batch, place, n - 1);
      CallsMean(net, batch, place, n - 1, TRIES);
      forall c: Send | c in before + last ensures c.batch == batch && c.place == place && c.fragment < n {
        assert c in before || c in last;
      }
    }
  }

  // Fragment j of the first n, given what holds of the first n - 1.
  lemma {:induction false} TransferOne(net: Net, batch: nat, place: nat, n: nat, j: nat)
    requires j < n
    requires j < n - 1 ==> (Got(Transfer(net, batch, place, n - 1), j) <==> Landed(net, place, j))
    ensures Got(Transfer(net, batch, place, n), j) <==> Landed(net, place, j)
  {
    var before, last := Transfer(net, batch, place, n - 1), Calls(net, batch, place, n - 1, TRIES);
    GotEither(before, last, j);
    CallsMean(net, batch, place, n - 1, TRIES);
    if j < n - 1 {
      assert !Got(last, j);
    } else {
      TransferNames(net, batch, place, n - 1);
      assert !Got(before, j);
    }
  }

  lemma {:induction false} TransferMeans(net: Net, batch: nat, place: nat, n: nat)
    ensures forall c :: c in Transfer(net, batch, place, n) ==> c.batch == batch && c.place == place && c.fragment < n
    ensures forall j: nat :: j < n ==> (Got(Transfer(net, batch, place, n), j) <==> Landed(net, place, j))
  {
    TransferNames(net, batch, place, n);
    if n > 0 {
      TransferMeans(net, batch, place, n - 1);
      forall j: nat | j < n ensures Got(Transfer(net, batch, place, n), j) <==> Landed(net, place, j) {
        TransferOne(net, batch, place, n, j);
      }
    }
  }

  /** Every call belongs to an attempt, and an accepted one to an attempt that counts as a success. */
  lemma {:induction false} CallHasAttempt(net: Net, attempts: seq<Attempt>, c: Send) returns (i: nat)
    requires c in AllCalls(net, attempts)
    requires forall k :: 0 <= k < |attempts| ==>
      (attempts[k].good <==> attempts[k].connected && attempts[k].size > 0 && Landed(net, attempts[k].place, 0))
    ensures i < |attempts| && c.batch == attempts[i].batch && c.place == attempts[i].place
    ensures c.ok ==> attempts[i].good
  {
    var last := |attempts| - 1;
    if c in CallsOf(net, attempts[last]) {
      i := last;
      TransferMeans(net, attempts[i].batch, attempts[i].place, attempts[i].size);
      CallsMean(net, attempts[i].batch, attempts[i].place, 0, TRIES);
    } else {
      i := CallHasAttempt(net, attempts[..last], c);
    }
  }

  /** No peer takes fragments of two batches, and no batch has fragments taken by two peers. */
  lemma {:induction false} OnePeerPerBatch(
    net: Net, peers: seq<string>, taken: set<string>, groups: map<nat, seq<string>>, reported: seq<nat>,
      attempts: seq<Attempt>,
    c: Send, d: Send)
    requires Sound(net, peers, taken, groups, reported, attempts)
    requires c in AllCalls(net, attempts) && d in AllCalls(net, attempts) && c.ok && d.ok
    ensures c.place < |peers| && d.place < |peers| && (peers[c.place] == peers[d.place] <==> c.batch == d.batch)
  {
    var i := CallHasAttempt(net, attempts, c);
    var j := CallHasAttempt(net, attempts, d);
    assert AttemptOk(net, peers, taken, groups, reported, attempts[i]) &&
      AttemptOk(net, peers, taken, groups, reported, attempts[j]);
  }

  /** Nothing is sent for a batch that is reported, or to a peer that is known to hold a reported one. */
  lemma {:induction false} NothingSentTwice(
    net: Net, peers: seq<string>, taken: set<string>, groups: map<nat, seq<string>>, reported: seq<nat>,
      attempts: seq<Attempt>, c: Send)
    requires Sound(net, peers, taken, groups, reported, attempts) && c in AllCalls(net, attempts)
    ensures c.batch in groups && c.batch !in reported && c.place < |peers| && peers[c.place] !in taken
  {
    var i := CallHasAttempt(net, attempts, c);
    assert AttemptOk(net, peers, taken, groups, reported, attempts[i]);
  }

  lemma {:induction false} OneMore(n: nat, bound: nat)
    ensures (n + 1) * bound == n * bound + bound
  {
  }

  lemma {:induction false} CallsWithin(net: Net, attempts: seq<Attempt>, bound: nat)
    requires forall i :: 0 <= i < |attempts| ==> |CallsOf(net, attempts[i])| <= bound
    ensures |AllCalls(net, attempts)| <= |attempts| * bound
  {
    if attempts != [] {
      var last := |attempts| - 1;
      CallsWithin(net, attempts[..last], bound);
      OneMore(last, bound);
    }
  }

  /** At most ten calls for each segment of the file and each attempted peer. */
  lemma {:induction false} CallsBounded(net: Net, attempts: seq<Attempt>, segments: nat)
    requires forall i :: 0 <= i < |attempts| ==> attempts[i].size <= segments
    ensures |AllCalls(net, attempts)| <= |attempts| * (TRIES * segments)
  {
    CallsWithin(net, attempts, TRIES * segments);
  }

  ghost predicate Delivered(net: Net, a: Attempt) {
    forall j: nat :: j < a.size ==> Got(CallsOf(net, a), j)
  }

  /** A peer that counts as a success holds its batch exactly when every fragment got through in ten tries. */
  lemma {:induction false} SuccessDeliversIff(net: Net, a: Attempt)
    requires a.good && a.connected && a.size > 0 && Landed(net, a.place, 0)
    ensures Delivered(net, a) <==> forall j: nat :: j < a.size ==> Landed(net, a.place, j)
    ensures a.size == 1 ==> Delivered(net, a)
  {
    TransferMeans(net, a.batch, a.place, a.size);
    assert CallsOf(net, a) == Transfer(net, a.batch, a.place, a.size);
    forall j: nat | j < a.size ensures Got(CallsOf(net, a), j) <==> Landed(net, a.place, j) {
    }
  }

  /** An attempt that this network brings about and that counts as a success. */
  ghost predicate Succeeds(net: Net, a: Attempt) {
    a.good && a.connected && net.connect(a.place) && a.size > 0 && Landed(net, a.place, 0)
  }

  /** With two or more segments a peer can count as a success and have nothing but the first fragment. */
  lemma {:induction false} SuccessNeedNotDeliver(size: nat) returns (net: Net, a: Attempt)
    requires size >= 2
    ensures Succeeds(net, a) && a.size == size && !Delivered(net, a)
    ensures forall j: nat :: 0 < j < size ==> !Got(CallsOf(net, a), j)
  {
    net := Net((place: nat) => true, (place: nat, j: nat, k: nat) => j == 0);
    a := Attempt(1, 0, size, true, true);
    assert net.accept(0, 0, 0) && forall j: nat :: j > 0 ==> !Landed(net, 0, j);
    TransferMeans(net, a.batch, a.place, a.size);
    assert CallsOf(net, a) == Transfer(net, a.batch, a.place, a.size);
    assert !Got(CallsOf(net, a), 1);
  }

  /** Success guarantees delivery exactly for files of one segment. */
  lemma {:induction false} SuccessGuaranteesDeliveryIff(size: nat)
    requires size > 0
    ensures (forall net, a :: Succeeds(net, a) && a.size == size ==> Delivered(net, a)) <==> size == 1
  {
    if size == 1 {
      forall net, a | Succeeds(net, a) && a.size == size ensures Delivered(net, a) {
        SuccessDeliversIff(net, a);
      }
    } else {
      var net, a := SuccessNeedNotDeliver(size);
    }
  }

  // The batches of a file of at most 256 columns have one fragment of every segment.
  lemma {:induction false} BatchSizes(segments: seq<seq<string>>, width: nat, groups: map<nat, seq<string>>)
    requires RowsReach(segments, width) && Grouped(segments, width, groups)
    ensures segments != [] ==> forall key :: key in groups ==> groups[key] != []
    ensures width <= 256 ==> forall index: nat :: index < width ==>
      KeyOf(index) in groups && groups[KeyOf(index)] == Column(segments, index)
    ensures width <= 256 ==> forall key :: key in groups ==> |groups[key]| == |segments|
  {
    forall key | key in groups
      ensures segments != [] ==> groups[key] != []
      ensures width <= 256 ==> |groups[key]| == |segments|
    {
      var index: nat :| index < width && KeyOf(index) == key;
      if width <= 256 {
        BatchIsColumn(segments, width, index);
      }
      BatchGrows(segments, index + 1, width, key);
    }
    if width <= 256 {
      forall index: nat | index < width
        ensures KeyOf(index) in groups && groups[KeyOf(index)] == Column(segments, index)
      {
        assert HasKey(width, KeyOf(index));
        BatchIsColumn(segments, width, index);
      }
    }
  }

  // Everything sent goes to a batch that is not reported and to a peer that is free, once.
  ghost predicate SentWell(
    peers: seq<string>, complete: seq<(nat, Option<string>)>, groups: map<nat, seq<string>>, calls: seq<Send>)
  {
    && (forall c :: c in calls ==>
          c.batch in groups && c.place < |peers| &&
            forall i :: 0 <= i < |complete| ==> complete[i].0 % 256 != c.batch && complete[i].1 != Some(peers[c.place]))
    && (forall c, d :: c in calls && d in calls && c.ok && d.ok ==>
      (peers[c.place] == peers[d.place] <==> c.batch == d.batch))
  }

  lemma {:induction false} LogSendsWell(
    net: Net, peers: seq<string>, complete: seq<(nat, Option<string>)>, groups: map<nat, seq<string>>, log: Log)
    requires LogOk(net, peers, Resolved(complete), groups, Reported(complete), log)
    ensures SentWell(peers, complete, groups, log.calls)
  {
    forall c | c in log.calls
      ensures c.batch in groups && c.place < |peers| &&
        forall i :: 0 <= i < |complete| ==> complete[i].0 % 256 != c.batch && complete[i].1 != Some(peers[c.place])
    {
      NothingSentTwice(net, peers, Resolved(complete), groups, Reported(complete), log.attempts, c);
    }
    forall c, d | c in log.calls && d in log.calls && c.ok && d.ok
      ensures peers[c.place] == peers[d.place] <==> c.batch == d.batch
    {
      OnePeerPerBatch(net, peers, Resolved(complete), groups, Reported(complete), log.attempts, c, d);
    }
  }

  /**
   `storageData` as a whole, for any map order, iterator and network: None is the index panic of the
   grouping. What is sent goes to free peers, one for each batch that is not reported; every attempted
   peer gets one feedback; a batch is left over only when the iterator is used up.
   */
  method StorageData(
    segments: seq<seq<string>>, order: seq<nat>, peers: seq<string>, complete: seq<(nat, Option<string>)>, net: Net)
    returns (log: Option<Log>, ghost groups: map<nat, seq<string>>)
    requires segments != [] ==> forall key :: key in order <==> HasKey(|segments[0]|, key)
    requires forall i, j :: 0 <= i < j < |order| ==> order[i] != order[j]
    ensures log.Some? <==> segments != [] && RowsReach(segments, |segments[0]|)
    ensures log.Some? ==>
      && Grouped(segments, |segments[0]|, groups)
      && Conserves(segments, |segments[0]|, groups)
      && LogOk(net, peers, Resolved(complete), groups, Reported(complete), log.value)
      && SentWell(peers, complete, groups, log.value.calls)
      && |log.value.feedback| == |log.value.attempts|
      && (forall key :: key in groups && !Placed(log.value.attempts, key) ==>
        log.value.pulled == |peers| || exists i :: 0 <= i < |complete| && complete[i].0 % 256 == key)
    ensures log.Some? && |segments[0]| <= 256 ==>
      && (forall index: nat :: index < |segments[0]| ==>
            KeyOf(index) in groups && groups[KeyOf(index)] == Column(segments, index))
      && |log.value.calls| <= |log.value.feedback| * (TRIES * |segments|)
  {
    groups := map[];
    var dataGroup := GroupFragments(segments);
    if dataGroup.None? {
      return None, groups;
    }
    groups := dataGroup.value;
    BatchSizes(segments, |segments[0]|, groups);
    var placed := PlaceBatches(dataGroup.value, order, peers, complete, net);
    LogSendsWell(net, peers, complete, groups, placed);
    if |segments[0]| <= 256 {
      CallsBounded(net, placed.attempts, |segments|);
    }
    return Some(placed), groups;
  }
}
