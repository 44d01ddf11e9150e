/** The ring under every interleaving of its producer's and its consumer's atomic steps. */
module RingProtocol {
  import opened Base
  import opened Ring

  /** What one side asks for: a single byte or a batch. */
  datatype Put = PutOne(byte: u8) | PutMany(bytes: seq<u8>)
  datatype Take = TakeOne | TakeMany(max: nat)

  /** The producer between two of its atomic steps.  `Storing` has loaded both indices and put the first
      `done` of `bytes` at `at`; storing the index publishes them. */
  datatype Producer = Resting | SawWrite(put: Put, write: Index) | Storing(at: Index, bytes: seq<u8>, done: nat)

  /** The consumer between two of its atomic steps; `Fetching` still has to read `left` bytes from `at` on. */
  datatype Consumer = Idle | SawEnd(take: Take, write: Index) | Fetching(at: Index, left: nat, bytes: seq<u8>)

  /** Shared words, both sides, and the history: bytes published and bytes handed to the reader so far. */
  datatype System = System(s: Shared, p: Producer, c: Consumer, accepted: seq<u8>, delivered: seq<u8>)

  function Start(): System {
    System(Shared(seq(CAPACITY, _ => 0), 0, 0), Resting, Idle, [], [])
  }

  datatype Action = StartPut(put: Put) | StepPut | StartTake(take: Take) | StepTake

  function Bytes(put: Put): seq<u8> {
    match put
    case PutOne(b) => [b]
    case PutMany(bytes) => bytes
  }

  /** How many bytes the producer will put, from the two indices it loaded. */
  function Room(put: Put, write: Index, read: Index): (n: nat)
    ensures n <= |Bytes(put)|
  {
    match put
    case PutOne(_) => if Next(write) == read then 0 else 1
    case PutMany(bytes) => Min(|bytes|, Available(write, read))
  }

  function Stock(take: Take, write: Index, read: Index): nat {
    match take
    case TakeOne => if write == read then 0 else 1
    case TakeMany(max) => Min(Unread(write, read), max)
  }

  /** One atomic step: an index load, one byte access, or an index store. */
  function Step(x: System, a: Action): System {
    match a
    case StartPut(put) =>
      if x.p.Resting? && Bytes(put) != [] then x.(p := SawWrite(put, x.s.write)) else x
    case StepPut =>
      (match x.p
       case Resting => x
       case SawWrite(put, write) =>
         var n := Room(put, write, x.s.read);
         x.(p := if n == 0 then Resting else Storing(write, Bytes(put)[..n], 0))
       case Storing(at, bytes, done) =>
         if done < |bytes| then
           x.(s := x.s.(buf := x.s.buf[at := bytes[done]]), p := Storing(Next(at), bytes, done + 1))
         else x.(s := x.s.(write := at), p := Resting, accepted := x.accepted + bytes))
    case StartTake(take) => if x.c.Idle? then x.(c := SawEnd(take, x.s.write)) else x
    case StepTake =>
      (match x.c
       case Idle => x
       case SawEnd(take, write) =>
         var n := Stock(take, write, x.s.read);
         x.(c := if n == 0 then Idle else Fetching(x.s.read, n, []))
       case Fetching(at, left, bytes) =>
         if left > 0 then x.(c := Fetching(Next(at), left - 1, bytes + [x.s.buf[at]]))
         else x.(s := x.s.(read := at), c := Idle, delivered := x.delivered + bytes))
  }

  function Run(x: System, actions: seq<Action>): System
    decreases |actions|
  {
    if actions == [] then x else Run(Step(x, actions[0]), actions[1..])
  }

  // ---- The invariant ---------------------------------------------------------------------------------------------

  /** The slot of the `k`-th byte ever published. */
  function SlotOf(k: nat): Index {
    k % CAPACITY
  }

  ghost predicate SharedOk(x: System) {
    var written, taken := |x.accepted|, |x.delivered|;
    && taken <= written < taken + CAPACITY
    && x.s.write == SlotOf(written) && x.s.read == SlotOf(taken)
    && forall k: nat :: taken <= k < written ==> x.s.buf[SlotOf(k)] == x.accepted[k]
  }

  /** The producer stays within the slots that were free when it looked. */
  ghost predicate ProducerOk(x: System) {
    var written, taken := |x.accepted|, |x.delivered|;
    match x.p
    case Resting => true
    case SawWrite(put, write) => write == x.s.write && Bytes(put) != []
    case Storing(at, bytes, done) =>
      && done <= |bytes| && at == SlotOf(written + done)
      && written + |bytes| < taken + CAPACITY
      && forall k: nat :: k < done ==> x.s.buf[SlotOf(written + k)] == bytes[k]
  }

  /** The consumer holds a run of published bytes that starts where delivery stopped. */
  ghost predicate ConsumerOk(x: System) {
    var written, taken := |x.accepted|, |x.delivered|;
    match x.c
    case Idle => true
    case SawEnd(_, write) => exists end: nat :: taken <= end <= written && write == SlotOf(end)
    case Fetching(at, left, bytes) =>
      && taken + |bytes| + left <= written && at == SlotOf(taken + |bytes|)
      && bytes == x.accepted[taken..taken + |bytes|]
  }

  ghost predicate Inv(x: System) {
    && SharedOk(x) && ProducerOk(x) && ConsumerOk(x)
    && x.delivered == x.accepted[..|x.delivered|]
  }

  lemma NextSlot(k: nat)
    ensures Next(SlotOf(k)) == SlotOf(k + 1)
  {
  }

  /** Two byte numbers less than a ring apart occupy different slots. */
  lemma SlotsDiffer(j: nat, k: nat)
    requires j < k < j + CAPACITY
    ensures SlotOf(j) != SlotOf(k)
  {
    assert k - j == CAPACITY * (k / CAPACITY - j / CAPACITY) + (SlotOf(k) - SlotOf(j));
  }

  /** What the index arithmetic computes is the number of bytes in between. */
  lemma UnreadCounts(taken: nat, end: nat)
    requires taken <= end < taken + CAPACITY
    ensures Unread(SlotOf(end), SlotOf(taken)) == end - taken
    ensures Available(SlotOf(end), SlotOf(taken)) == CAPACITY - 1 - (end - taken)
  {
    var q, r := taken / CAPACITY, taken % CAPACITY;
    assert taken == CAPACITY * q + r;
    var d := end - taken;
    if r + d < CAPACITY {
      assert end == CAPACITY * q + (r + d);
    } else {
      assert end == CAPACITY * (q + 1) + (r + d - CAPACITY);
    }
  }

  lemma RoomIsFree(put: Put, taken: nat, written: nat)
    requires taken <= written < taken + CAPACITY
    ensures Room(put, SlotOf(written), SlotOf(taken)) == Min(|Bytes(put)|, CAPACITY - 1 - (written - taken))
  {
    UnreadCounts(taken, written);
    AvailableStep(SlotOf(written), SlotOf(taken));
    hide SlotOf, Next, Available, Unread;
  }

  /** How many bytes a read may return. */
  function Wanted(take: Take): nat {
    match take
    case TakeOne => 1
    case TakeMany(max) => max
  }

  lemma StockIsPublished(take: Take, taken: nat, end: nat)
    requires taken <= end < taken + CAPACITY
    ensures Stock(take, SlotOf(end), SlotOf(taken)) == Min(Wanted(take), end - taken)
  {
    UnreadCounts(taken, end);
    AvailableStep(SlotOf(end), SlotOf(taken));
    hide SlotOf, Next, Available, Unread;
  }

  /** A byte put beyond the published ones overwrites none that is published and not yet delivered. */
  lemma PutIsSafe(x: System)
    requires Inv(x) && x.p.Storing? && x.p.done < |x.p.bytes|
    ensures forall k: nat :: |x.delivered| <= k < |x.accepted| + x.p.done ==> SlotOf(k) != x.p.at
  {
    hide SlotOf;
    forall k: nat | |x.delivered| <= k < |x.accepted| + x.p.done
      ensures SlotOf(k) != x.p.at
    {
      SlotsDiffer(k, |x.accepted| + x.p.done);
    }
  }

  lemma PutKeepsInv(x: System)
    requires Inv(x)
    ensures Inv(Step(x, StepPut))
  {
    hide SlotOf, Next, Room, ConsumerOk;
    match x.p
    case Resting =>
    case SawWrite(put, write) =>
      RoomIsFree(put, |x.delivered|, |x.accepted|);
      SameConsumer(x, Step(x, StepPut));
    case Storing(at, bytes, done) =>
      if done < |bytes| {
        StoreKeepsInv(x);
      } else {
        PublishKeepsInv(x);
      }
  }

  lemma SameConsumer(x: System, y: System)
    requires ConsumerOk(x) && y.c == x.c && y.delivered == x.delivered && y.accepted == x.accepted
    ensures ConsumerOk(y)
  {
  }

  lemma StoreKeepsInv(x: System)
    requires Inv(x) && x.p.Storing? && x.p.done < |x.p.bytes|
    ensures Inv(Step(x, StepPut))
  {
    hide SlotOf, Next, ConsumerOk;
    var y := Step(x, StepPut);
    PutIsSafe(x);
    NextSlot(|x.accepted| + x.p.done);
    SameConsumer(x, y);
  }

  lemma PublishKeepsInv(x: System)
    requires Inv(x) && x.p.Storing? && x.p.done == |x.p.bytes|
    ensures Inv(Step(x, StepPut))
  {
    hide SlotOf, ConsumerOk;
    var y := Step(x, StepPut);
    PublishKeepsConsumer(x, y);
    forall k: nat | |x.delivered| <= k < |y.accepted|
      ensures y.s.buf[SlotOf(k)] == y.accepted[k]
    {
      if k >= |x.accepted| {
        assert SlotOf(|x.accepted| + (k - |x.accepted|)) == SlotOf(k);
      }
    }
  }

  lemma PublishKeepsConsumer(x: System, y: System)
    requires Inv(x) && y.c == x.c && y.delivered == x.delivered && x.accepted <= y.accepted
    ensures ConsumerOk(y) && y.delivered == y.accepted[..|y.delivered|]
  {
    hide SlotOf;
    match x.c
    case Idle =>
    case SawEnd(_, write) =>
      var end: nat :| |x.delivered| <= end <= |x.accepted| && write == SlotOf(end);
      assert end <= |y.accepted|;
    case Fetching(at, left, bytes) =>
      var n := |x.delivered|;
      assert y.accepted[n..n + |bytes|] == x.accepted[n..n + |bytes|];
  }

  lemma TakeKeepsInv(x: System)
    requires Inv(x)
    ensures Inv(Step(x, StepTake))
  {
    hide SlotOf, Next, Stock;
    match x.c
    case Idle =>
    case SawEnd(take, write) =>
      var end: nat :| |x.delivered| <= end <= |x.accepted| && write == SlotOf(end);
      StockIsPublished(take, |x.delivered|, end);
    case Fetching(at, left, bytes) =>
      FetchKeepsInv(x);
  }

  lemma SameProducer(x: System, y: System)
    requires ProducerOk(x) && y.p == x.p && y.s.buf == x.s.buf && y.s.write == x.s.write && y.accepted == x.accepted
    requires |y.delivered| >= |x.delivered|
    ensures ProducerOk(y)
  {
  }

  lemma FetchKeepsInv(x: System)
    requires Inv(x) && x.c.Fetching?
    ensures Inv(Step(x, StepTake))
  {
    hide SlotOf, Next, ProducerOk;
    var n, bytes := |x.delivered|, x.c.bytes;
    SameProducer(x, Step(x, StepTake));
    if x.c.left > 0 {
      NextSlot(n + |bytes|);
      assert x.accepted[n..n + |bytes|] + [x.accepted[n + |bytes|]] == x.accepted[n..n + |bytes| + 1];
    } else {
      assert x.accepted[..n] + x.accepted[n..n + |bytes|] == x.accepted[..n + |bytes|];
    }
  }

  lemma StepKeepsInv(x: System, a: Action)
    requires Inv(x)
    ensures Inv(Step(x, a))
  {
    match a
    case StepPut => PutKeepsInv(x);
    case StepTake => TakeKeepsInv(x);
    case StartPut(_) =>
    case StartTake(take) =>
      assert |x.delivered| <= |x.accepted| <= |x.accepted| && x.s.write == SlotOf(|x.accepted|);
  }

  lemma {:induction false} RunKeepsInv(x: System, actions: seq<Action>)
    requires Inv(x)
    ensures Inv(Run(x, actions))
    decreases |actions|
  {
    hide Inv, Step;
    if actions != [] {
      StepKeepsInv(x, actions[0]);
      RunKeepsInv(Step(x, actions[0]), actions[1..]);
    }
  }

  /** Whatever the interleaving of index loads, byte accesses and index stores, and whatever mixture of
      single and batched calls: the bytes delivered are a prefix of the bytes accepted, and never more
      than 4087 bytes are unread. */
  lemma RingSafe(actions: seq<Action>)
    ensures var x := Run(Start(), actions);
            x.delivered <= x.accepted && |x.accepted| - |x.delivered| <= 4087
  {
    Reached(actions);
  }

  /** No step of a run changes a slot that holds an unread byte, and a step that stores hits the buffer at
      a slot outside them. */
  lemma UnreadStays(actions: seq<Action>, a: Action, k: nat)
    requires var x := Run(Start(), actions); |x.delivered| <= k < |x.accepted|
    ensures var x := Run(Start(), actions);
            x.s.buf[SlotOf(k)] == x.accepted[k] && Step(x, a).s.buf[SlotOf(k)] == x.accepted[k]
  {
    Reached(actions);
    var x := Run(Start(), actions);
    if a.StepPut? && x.p.Storing? && x.p.done < |x.p.bytes| {
      PutIsSafe(x);
    }
  }

  /** Nothing is lost: once both sides are at rest, the ring holds exactly the accepted bytes not yet delivered. */
  lemma NothingLost(actions: seq<Action>)
    requires var x := Run(Start(), actions); x.p.Resting? && x.c.Idle?
    ensures var x := Run(Start(), actions);
            x.accepted == x.delivered + Slots(x.s.buf, x.s.read, Unread(x.s.write, x.s.read))
  {
    Reached(actions);
    var x := Run(Start(), actions);
    UnreadCounts(|x.delivered|, |x.accepted|);
    SlotsAre(x, |x.delivered|);
    assert x.accepted[|x.delivered|..] == Slots(x.s.buf, x.s.read, Unread(x.s.write, x.s.read));
  }

  lemma {:induction false} SlotsAre(x: System, from: nat)
    requires SharedOk(x) && |x.delivered| <= from <= |x.accepted|
    ensures Slots(x.s.buf, SlotOf(from), |x.accepted| - from) == x.accepted[from..]
    decreases |x.accepted| - from
  {
    if from < |x.accepted| {
      NextSlot(from);
      SlotsAre(x, from + 1);
    }
  }

  // ---- Whole calls -----------------------------------------------------------------------------------------------

  function Times(a: Action, n: nat): (r: seq<Action>)
    ensures |r| == n && forall k :: 0 <= k < n ==> r[k] == a
  {
    seq(n, _ => a)
  }

  lemma TimesStep(x: System, a: Action, n: nat)
    requires n > 0
    ensures Run(x, Times(a, n)) == Run(Step(x, a), Times(a, n - 1))
  {
    hide Step;
    assert Times(a, n)[1..] == Times(a, n - 1);
  }

  lemma RunFirst(x: System, a: Action, rest: seq<Action>)
    ensures Run(x, [a] + rest) == Run(Step(x, a), rest)
  {
    hide Step;
    assert ([a] + rest)[1..] == rest;
  }

  lemma {:induction false} FetchAll(x: System)
    requires Inv(x) && x.c.Fetching?
    ensures var y := Run(x, Times(StepTake, x.c.left + 1));
            && Inv(y) && y.c.Idle? && y.p == x.p && y.accepted == x.accepted
            && |y.delivered| == |x.delivered| + |x.c.bytes| + x.c.left
    decreases x.c.left
  {
    hide Inv;
    StepKeepsInv(x, StepTake);
    TimesStep(x, StepTake, x.c.left + 1);
    if x.c.left > 0 {
      FetchAll(Step(x, StepTake));
    }
  }

  /** A read that runs by itself, whatever the writer is in the middle of, returns the oldest unread bytes: as many as
      it may, and all of them if there are no more. */
  lemma TakeDelivers(actions: seq<Action>, take: Take)
    requires Run(Start(), actions).c.Idle?
    ensures var x := Run(Start(), actions);
            |x.delivered| <= |x.accepted|
    ensures var x := Run(Start(), actions);
            var n := Min(Wanted(take), |x.accepted| - |x.delivered|);
            var y := Run(x, [StartTake(take)] + Times(StepTake, n + 2));
            && y.c.Idle? && y.p == x.p && y.accepted == x.accepted
            && y.delivered == x.accepted[..|x.delivered| + n]
  {
    hide Run, Step;
    Reached(actions);
    TakeAlone(Run(Start(), actions), take);
  }

  lemma TakeAlone(x: System, take: Take)
    requires Inv(x) && x.c.Idle?
    ensures var n := Min(Wanted(take), |x.accepted| - |x.delivered|);
            var y := Run(x, [StartTake(take)] + Times(StepTake, n + 2));
            && y.c.Idle? && y.p == x.p && y.accepted == x.accepted
            && y.delivered == x.accepted[..|x.delivered| + n]
  {
    hide Stock, SlotOf, ProducerOk, ConsumerOk, Run, Wanted, Times;
    var n := Min(Wanted(take), |x.accepted| - |x.delivered|);
    var u := Step(x, StartTake(take));
    RunFirst(x, StartTake(take), Times(StepTake, n + 2));
    StepKeepsInv(x, StartTake(take));
    TimesStep(u, StepTake, n + 2);
    StockIsPublished(take, |x.delivered|, |x.accepted|);
    StepKeepsInv(u, StepTake);
    var v := Step(u, StepTake);
    if n > 0 {
      FetchAll(v);
    } else {
      TimesStep(v, StepTake, 1);
      RunNothing(Step(v, StepTake), StepTake);
    }
  }

  lemma RunNothing(x: System, a: Action)
    ensures Run(x, Times(a, 0)) == x
  {
  }

  lemma Reached(actions: seq<Action>)
    ensures Inv(Run(Start(), actions))
  {
    hide SlotOf, Run;
    assert Inv(Start()) by {
      assert SlotOf(0) == 0 by {
        SlotZero();
      }
    }
    RunKeepsInv(Start(), actions);
  }

  lemma SlotZero()
    ensures SlotOf(0) == 0
  {
  }

  lemma {:induction false} StoreAll(x: System)
    requires x.p.Storing? && x.p.done <= |x.p.bytes|
    ensures var y := Run(x, Times(StepPut, |x.p.bytes| - x.p.done + 1));
            && y.p.Resting? && y.c == x.c && y.delivered == x.delivered && y.accepted == x.accepted + x.p.bytes
    decreases |x.p.bytes| - x.p.done
  {
    TimesStep(x, StepPut, |x.p.bytes| - x.p.done + 1);
    if x.p.done < |x.p.bytes| {
      StoreAll(Step(x, StepPut));
    }
  }

  /** A write that runs by itself, whatever the reader is in the middle of, publishes its bytes in order: all that fit
      beside the unread ones into 4087 bytes. */
  lemma PutAccepts(actions: seq<Action>, put: Put)
    requires Run(Start(), actions).p.Resting?
    ensures var x := Run(Start(), actions);
            |x.accepted| - |x.delivered| <= 4087
    ensures var x := Run(Start(), actions);
            var n := Min(|Bytes(put)|, 4087 - (|x.accepted| - |x.delivered|));
            var y := Run(x, [StartPut(put)] + Times(StepPut, n + 2));
            && y.p.Resting? && y.c == x.c && y.delivered == x.delivered
            && y.accepted == x.accepted + Bytes(put)[..n]
  {
    hide Run, Step;
    Reached(actions);
    PutAlone(Run(Start(), actions), put);
  }

  lemma PutAlone(x: System, put: Put)
    requires Inv(x) && x.p.Resting?
    ensures var n := Min(|Bytes(put)|, 4087 - (|x.accepted| - |x.delivered|));
            var y := Run(x, [StartPut(put)] + Times(StepPut, n + 2));
            && y.p.Resting? && y.c == x.c && y.delivered == x.delivered
            && y.accepted == x.accepted + Bytes(put)[..n]
  {
    hide Room, SlotOf, ProducerOk, ConsumerOk, Run, Bytes, Times;
    var n := Min(|Bytes(put)|, 4087 - (|x.accepted| - |x.delivered|));
    var u := Step(x, StartPut(put));
    RunFirst(x, StartPut(put), Times(StepPut, n + 2));
    TimesStep(u, StepPut, n + 2);
    RoomIsFree(put, |x.delivered|, |x.accepted|);
    var v := Step(u, StepPut);
    if n > 0 {
      StoreAll(v);
    } else {
      TimesStep(v, StepPut, 1);
      RunNothing(Step(v, StepPut), StepPut);
    }
  }
}
