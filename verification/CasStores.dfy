/** Sub-word stores by any number of workers: a load and a compare-and-exchange on the containing word,
    retried until the exchange succeeds, interleaved arbitrarily. */
module CasStores {
  import opened Base
  import opened Memory
  import opened Dram

  /** A store that passed its checks. */
  datatype Request = Request(offset: u32, w: Width, value: u64)

  predicate RequestOk(b: Shared, r: Request) {
    r.w != W64 && Check(b.size, r.offset, r.w).None?
  }

  /** A worker between two atomic steps.  `Seen` holds the word loaded for the request. */
  datatype Worker = Idle | Trying(req: Request) | Seen(req: Request, word: u32)

  datatype Entry = Entry(worker: nat, req: Request)

  /** Shared words and workers; `issued` and `log` are history: the requests each worker has begun, and
      the stores that took effect, in the order of their effects. */
  datatype System = System(b: Shared, workers: seq<Worker>, issued: seq<seq<Request>>, log: seq<Entry>)

  datatype Action = Begin(worker: nat, req: Request) | LoadWord(worker: nat) | Exchange(worker: nat)

  ghost predicate Formed(x: System) {
    && Fits(x.b) && |x.workers| == |x.issued|
    && forall k :: 0 <= k < |x.workers| ==> (!x.workers[k].Idle? ==> RequestOk(x.b, x.workers[k].req))
  }

  function WordAt(b: Shared, r: Request): nat {
    AtomicIndex(b.base, r.offset - r.offset % 4)
  }

  /** `word` with the bytes of the request replaced. */
  function Merged(word: u32, r: Request): u32 {
    match r.w
    case W8 => WithByte(word, r.offset % 4, r.value)
    case W16 => WithHalf(word, r.offset / 2 % 2, r.value)
    case _ => r.value % TWO_32
  }

  function Finish(x: System, k: nat, word: u32): System
    requires k < |x.workers| && !x.workers[k].Idle? && WordAt(x.b, x.workers[k].req) < |x.b.words|
  {
    x.(b := x.b.(words := x.b.words[WordAt(x.b, x.workers[k].req) := word]),
       workers := x.workers[k := Idle], log := x.log + [Entry(k, x.workers[k].req)])
  }

  /** One atomic step of one worker.  A 32-bit store needs no loop: it is a single atomic store. */
  function Step(x: System, a: Action): (y: System)
    requires Formed(x)
    ensures Formed(y)
  {
    match a
    case Begin(k, r) =>
      if k < |x.workers| && x.workers[k].Idle? && RequestOk(x.b, r)
      then x.(workers := x.workers[k := Trying(r)], issued := x.issued[k := x.issued[k] + [r]])
      else x
    case LoadWord(k) =>
      if k < |x.workers| && x.workers[k].Trying? then
        var r := x.workers[k].req;
        WordInside(x.b, r);
        if r.w == W32 then Finish(x, k, r.value % TWO_32)
        else x.(workers := x.workers[k := Seen(r, x.b.words[WordAt(x.b, r)])])
      else x
    case Exchange(k) =>
      if k < |x.workers| && x.workers[k].Seen? then
        var r := x.workers[k].req;
        WordInside(x.b, r);
        if x.b.words[WordAt(x.b, r)] == x.workers[k].word then Finish(x, k, Merged(x.workers[k].word, r))
        else x.(workers := x.workers[k := Trying(r)])
      else x
  }

  lemma WordInside(b: Shared, r: Request)
    requires Fits(b) && RequestOk(b, r)
    ensures WordAt(b, r) < |b.words|
  {
    IndexFits(b, r.offset - r.offset % 4);
  }

  function Run(x: System, actions: seq<Action>): (y: System)
    requires Formed(x)
    ensures Formed(y)
    decreases |actions|
  {
    if actions == [] then x else Run(Step(x, actions[0]), actions[1..])
  }

  function Start(b: Shared, workers: nat): (x: System)
    requires Fits(b)
    ensures Formed(x)
  {
    System(b, seq(workers, _ => Idle), seq(workers, _ => []), [])
  }

  // ---- Reference: the logged stores one after the other on bytes ----------------------------------------------------

  function StoreAll(data: seq<u8>, log: seq<Entry>): seq<u8>
    decreases |log|
  {
    if log == [] then data
    else
      var before := StoreAll(data, log[..|log| - 1]);
      var r := log[|log| - 1].req;
      match NativeStore(before, r.offset, r.w, r.value)
      case Done(d) => d
      case Failed(_) => before
  }

  /** The requests of one worker that took effect, in order. */
  function EffectsOf(log: seq<Entry>, k: nat): seq<Request>
    decreases |log|
  {
    if log == [] then []
    else
      var last := log[|log| - 1];
      EffectsOf(log[..|log| - 1], k) + (if last.worker == k then [last.req] else [])
  }

  function InFlight(w: Worker): seq<Request> {
    match w
    case Idle => []
    case Trying(r) => [r]
    case Seen(r, _) => [r]
  }

  ghost predicate WorkerExact(x: System, k: nat)
    requires k < |x.workers| == |x.issued|
  {
    EffectsOf(x.log, k) + InFlight(x.workers[k]) == x.issued[k]
  }

  /** Memory is what the logged stores make of the initial bytes, and each worker's requests have taken
      effect once each, in order, except the one in flight. */
  ghost predicate Exact(data: seq<u8>, x: System)
    requires Formed(x)
  {
    View(x.b) == StoreAll(data, x.log) && forall k :: 0 <= k < |x.workers| ==> WorkerExact(x, k)
  }

  /** The same buffer around DRAM. */
  ghost predicate SameAround(b: Shared, n: Shared) {
    |n.words| == |b.words| && n.base == b.base && n.size == b.size && OutsideSame(b, n)
  }

  lemma SameAroundItself(b: Shared)
    ensures SameAround(b, b)
  {
  }

  lemma SameAroundTransitive(a: Shared, b: Shared, c: Shared)
    requires SameAround(a, b) && SameAround(b, c)
    ensures SameAround(a, c)
  {
  }

  /** A successful exchange is the native store of its request. */
  lemma FinishIsStore(b: Shared, r: Request, i: nat)
    requires Fits(b) && RequestOk(b, r) && i == WordAt(b, r) && i < |b.words|
    ensures NativeStore(View(b), r.offset, r.w, r.value) == Done(View(b.(words := b.words[i := Merged(b.words[i], r)])))
    ensures OutsideSame(b, b.(words := b.words[i := Merged(b.words[i], r)]))
  {
    StoreRefines(b, r.offset, r.w, r.value);
    hide View, NativeStore, WithByte, WithHalf, AtomicIndex, OutsideSame;
  }

  lemma FinishExact(data: seq<u8>, x: System, k: nat, word: u32)
    requires Formed(x) && Exact(data, x) && k < |x.workers| && !x.workers[k].Idle?
    requires WordAt(x.b, x.workers[k].req) < |x.b.words|
    requires word == Merged(x.b.words[WordAt(x.b, x.workers[k].req)], x.workers[k].req)
    ensures Formed(Finish(x, k, word)) && Exact(data, Finish(x, k, word))
    ensures SameAround(x.b, Finish(x, k, word).b)
  {
    hide View, NativeStore, Merged, WordAt, OutsideSame, Check;
    var r := x.workers[k].req;
    var y := Finish(x, k, word);
    FinishIsStore(x.b, r, WordAt(x.b, r));
    assert y.log[..|y.log| - 1] == x.log;
    forall j | 0 <= j < |y.workers|
      ensures WorkerExact(y, j)
    {
      assert WorkerExact(x, j);
    }
  }

  lemma StepExact(data: seq<u8>, x: System, a: Action)
    requires Formed(x) && Exact(data, x)
    ensures Exact(data, Step(x, a)) && SameAround(x.b, Step(x, a).b)
  {
    hide View, StoreAll, EffectsOf, Merged, WordAt, Check;
    var y := Step(x, a);
    match a
    case Begin(k, r) =>
      OthersExact(x, y, k);
    case LoadWord(k) =>
      if k < |x.workers| && x.workers[k].Trying? {
        var r := x.workers[k].req;
        WordInside(x.b, r);
        if r.w == W32 {
          MergedWord(x.b.words[WordAt(x.b, r)], r);
          FinishExact(data, x, k, r.value % TWO_32);
        } else {
          OthersExact(x, y, k);
        }
      }
    case Exchange(k) =>
      if k < |x.workers| && x.workers[k].Seen? {
        var r := x.workers[k].req;
        WordInside(x.b, r);
        if x.b.words[WordAt(x.b, r)] == x.workers[k].word {
          FinishExact(data, x, k, Merged(x.workers[k].word, r));
        } else {
          OthersExact(x, y, k);
        }
      }
  }

  lemma MergedWord(word: u32, r: Request)
    requires r.w == W32
    ensures Merged(word, r) == r.value % TWO_32
  {
  }

  /** A step without effect changes only its worker's progress. */
  lemma OthersExact(x: System, y: System, k: nat)
    requires Formed(x) && |y.workers| == |x.workers| && |y.issued| == |x.issued| && y.log == x.log
    requires forall j :: 0 <= j < |x.workers| ==> WorkerExact(x, j)
    requires forall j :: 0 <= j < |x.workers| && j != k ==> y.workers[j] == x.workers[j] && y.issued[j] == x.issued[j]
    requires k < |x.workers| ==>
               || (InFlight(y.workers[k]) == InFlight(x.workers[k]) && y.issued[k] == x.issued[k])
               || (InFlight(x.workers[k]) == [] && y.issued[k] == x.issued[k] + InFlight(y.workers[k]))
    ensures forall j :: 0 <= j < |y.workers| ==> WorkerExact(y, j)
  {
    hide EffectsOf, InFlight;
    forall j | 0 <= j < |y.workers|
      ensures WorkerExact(y, j)
    {
      assert WorkerExact(x, j);
    }
  }

  lemma {:induction false} RunExact(data: seq<u8>, x: System, actions: seq<Action>)
    requires Formed(x) && Exact(data, x)
    ensures Exact(data, Run(x, actions))
    ensures SameAround(x.b, Run(x, actions).b)
    decreases |actions|
  {
    hide Exact, Formed, SameAround, Step;
    if actions != [] {
      StepExact(data, x, actions[0]);
      RunExact(data, Step(x, actions[0]), actions[1..]);
      SameAroundTransitive(x.b, Step(x, actions[0]).b, Run(x, actions).b);
    } else {
      SameAroundItself(x.b);
    }
  }

  /** Sub-word stores lose nothing.  Under every interleaving of the workers' loads and exchanges there is
      one order of the stores, each taking effect once, at its successful exchange, and in its worker's
      program order, such that memory is what plain byte stores in that order produce. */
  lemma StoresExact(b: Shared, workers: nat, actions: seq<Action>)
    requires Fits(b)
    ensures var x := Run(Start(b, workers), actions);
            && View(x.b) == StoreAll(View(b), x.log)
            && |x.workers| == |x.issued|
            && (forall k :: 0 <= k < |x.workers| ==> EffectsOf(x.log, k) + InFlight(x.workers[k]) == x.issued[k])
            && SameAround(b, x.b)
  {
    hide View, StoreAll;
    assert View(b) == StoreAll(View(b), []) by {
      NothingLogged(View(b));
    }
    RunExact(View(b), Start(b, workers), actions);
    var x := Run(Start(b, workers), actions);
    forall k | 0 <= k < |x.workers|
      ensures EffectsOf(x.log, k) + InFlight(x.workers[k]) == x.issued[k]
    {
      assert WorkerExact(x, k);
    }
  }

  lemma NothingLogged(data: seq<u8>)
    ensures StoreAll(data, []) == data
  {
  }
}
