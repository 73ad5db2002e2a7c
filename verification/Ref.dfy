/**
  The reference word `ref<T>` of cluster/clusterLogFile.h: one 32-bit word counts the holders of an object,
  and its high bits say that a thread is loading it, closing it, or that it is to be freed.

  Any number of threads call use() and unuse(); every step is one access to the word, or the call of the
  load function, of close() or of delete. compare_exchange_weak may fail for no reason.
 */
module Ref {
  const IN_CLEAR: nat := 0x8000_0000
  const IN_LOAD: nat := 0xc000_0000
  const NEED_FREE: nat := 0x2000_0000

  /** Where a thread is; `r` is the value it has read. */
  datatype Pc =
    | Out
    | UseRead               // 81
    | UseCas(r: nat)        // 91, 105
    | Loading               // 93-98
    | Loaded                // 99
    | Held
    | UnuseRead             // 53
    | UnuseCas(r: nat)      // 56, 68
    | Closing(r: nat)       // 58
    | Closed(r: nat)        // 59-62

  /**
    `data` tells whether the object's data is loaded. `stuck` and `lost` record that a load failed and that
    needFree found the word in IN_CLEAR or IN_LOAD; `bad` records a violated assertion (line 83) or an
    access to the word after the object was deleted.
   */
  datatype State = State(word: nat, threads: seq<Pc>, data: bool, freed: bool, deletes: nat,
                         stuck: bool, lost: bool, bad: bool)

  /** `ok` chooses the outcome of a weak compare-and-exchange or of the load function. */
  datatype Action = BeginUse(t: nat) | BeginUnuse(t: nat) | Go(t: nat, ok: bool) | NeedFree

  // ---------------------------------------------------------------- the code

  /** All threads outside, or (useForWrite, line 75) thread 0 holding the new object it will write. */
  function Init(n: nat, writer: bool): State {
    State(if writer && n > 0 then 1 else 0,
          seq(n, t => if writer && t == 0 then Held else Out),
          writer && n > 0, false, 0, false, false, false)
  }

  predicate HasFree(r: nat) { r / NEED_FREE % 2 == 1 }

  /** r & ~NEED_FREE */
  function Masked(r: nat): nat { if HasFree(r) then r - NEED_FREE else r }

  /** Inside the loop of use(), where line 83 forbids the free bit. */
  predicate InLoop(pc: Pc) { pc.UseRead? || pc.UseCas? }

  /** The step of a thread that is inside use() or unuse(); `s` is the state, `s.threads[t]` its position. */
  function GoStep(s: State, t: nat, ok: bool): (s': State)
    requires t < |s.threads|
    ensures s'.freed == s.freed && s'.lost == s.lost && (s.stuck ==> s'.stuck) && |s'.threads| == |s.threads|
  {
    var pc := s.threads[t];
    if pc.Out? || pc.Held? then s else
    var s := s.(bad := s.bad || s.deletes > 0);
    match pc
    case UseRead =>
      var s := s.(bad := s.bad || HasFree(s.word));
      if s.word == IN_CLEAR || s.word == IN_LOAD then s else s.(threads := s.threads[t := UseCas(s.word)])
    case UseCas(r) =>
      if s.word != r || !ok then s.(threads := s.threads[t := UseRead])
      else if r == 0 then s.(word := IN_LOAD, threads := s.threads[t := Loading])
      else s.(word := r + 1, threads := s.threads[t := Held])
    case Loading =>
      // a failed load subtracts memory_order_relaxed, that is 0, from the word
      if ok then s.(data := true, threads := s.threads[t := Loaded])
      else s.(stuck := true, threads := s.threads[t := Out])
    case Loaded => s.(word := 1, threads := s.threads[t := Held])
    case UnuseRead => s.(threads := s.threads[t := UnuseCas(s.word)])
    case UnuseCas(r) =>
      if s.word != r || !ok then s.(threads := s.threads[t := UnuseRead])
      else if Masked(r) == 1 then s.(word := IN_CLEAR, threads := s.threads[t := Closing(r)])
      else s.(word := if r > 0 then r - 1 else 0xffff_ffff, threads := s.threads[t := Out])
    case Closing(r) => s.(data := false, threads := s.threads[t := Closed(r)])
    case Closed(r) =>
      if HasFree(r) then s.(deletes := s.deletes + 1, threads := s.threads[t := Out])
      else s.(word := 0, threads := s.threads[t := Out])
  }

  /** Line 46: fetch_or, and delete when the old value was 0. */
  function NeedFreeStep(s: State): State {
    s.(word := if HasFree(s.word) then s.word else s.word + NEED_FREE,
       freed := true,
       lost := s.word == IN_CLEAR || s.word == IN_LOAD,
       deletes := if s.word == 0 then s.deletes + 1 else s.deletes)
  }

  /**
    The callers' side: needFree is called once, and no thread enters or is in the loop of use() from then
    on. Threads may be loading, holding or closing the object when it is called.
   */
  predicate Enabled(s: State, a: Action) {
    match a
    case BeginUse(t) => t < |s.threads| && s.threads[t].Out? && !s.freed
    case BeginUnuse(t) => t < |s.threads| && s.threads[t].Held?
    case Go(t, _) => t < |s.threads|
    case NeedFree => !s.freed && forall t | 0 <= t < |s.threads| :: !InLoop(s.threads[t])
  }

  function Step(s: State, a: Action): State {
    if !Enabled(s, a) then s else
    match a
    case BeginUse(t) => s.(threads := s.threads[t := UseRead])
    case BeginUnuse(t) => s.(threads := s.threads[t := UnuseRead])
    case Go(t, ok) => GoStep(s, t, ok)
    case NeedFree => NeedFreeStep(s)
  }

  function Run(n: nat, writer: bool, run: seq<Action>): State {
    if run == [] then Init(n, writer) else Step(Run(n, writer, run[..|run| - 1]), run[|run| - 1])
  }

  // ---------------------------------------------------------------- the specification

  datatype Kind = Idle | Asking | Loader | Holder | Closer

  function KindOf(pc: Pc): Kind {
    match pc
    case Out => Idle
    case UseRead => Asking
    case UseCas(_) => Asking
    case Loading => Loader
    case Loaded => Loader
    case Held => Holder
    case UnuseRead => Holder
    case UnuseCas(_) => Holder
    case Closing(_) => Closer
    case Closed(_) => Closer
  }

  /** The number of threads of a kind. */
  ghost function Count(threads: seq<Pc>, k: Kind): nat {
    if threads == [] then 0
    else Count(threads[..|threads| - 1], k) + (if KindOf(threads[|threads| - 1]) == k then 1 else 0)
  }

  /** What the word says: who is inside, and whether the object is to be freed. */
  ghost predicate WordOk(s: State) {
    var h, l, c := Count(s.threads, Holder), Count(s.threads, Loader), Count(s.threads, Closer);
    if s.deletes == 1 then h == l == c == 0 && s.freed && !s.lost && !s.stuck && !s.data
    else if s.stuck then
      !s.data && h == l == c == 0 && s.word == IN_LOAD + (if s.freed then NEED_FREE else 0) && s.lost == s.freed
    else if c > 0 then c == 1 && h == l == 0 && (s.word == IN_CLEAR || (s.lost && s.word == IN_CLEAR + NEED_FREE))
    else if l > 0 then l == 1 && h == 0 && s.word == IN_LOAD + (if s.freed then NEED_FREE else 0) && s.lost == s.freed
    else
      && s.word == h + (if s.freed && !s.lost then NEED_FREE else 0)
      && (s.freed && !s.lost ==> h > 0)
      && (h > 0 <==> s.data)
  }

  ghost predicate PcOk(s: State, t: nat)
    requires t < |s.threads|
  {
    match s.threads[t]
    case UseRead => !s.freed
    case UseCas(r) => !s.freed && r < NEED_FREE
    case Loading => !s.data
    case Loaded => s.data
    case Closing(r) => s.data && r == if s.freed && !s.lost then NEED_FREE + 1 else 1
    case Closed(r) => !s.data && r == if s.freed && !s.lost then NEED_FREE + 1 else 1
    case _ => true
  }

  ghost predicate Inv(s: State) {
    && |s.threads| < NEED_FREE
    && !s.bad
    && s.deletes <= 1
    && (s.lost ==> s.freed)
    && WordOk(s)
    && (forall t: nat {:trigger PcOk(s, t)} | t < |s.threads| :: PcOk(s, t))
  }

  // ---------------------------------------------------------------- counting

  lemma {:induction false} CountUpdate(threads: seq<Pc>, t: nat, pc: Pc, k: Kind)
    requires t < |threads|
    ensures Count(threads[t := pc], k) + (if KindOf(threads[t]) == k then 1 else 0)
         == Count(threads, k) + (if KindOf(pc) == k then 1 else 0)
  {
    var n := |threads| - 1;
    if t < n {
      CountUpdate(threads[..n], t, pc, k);
      assert threads[t := pc][..n] == threads[..n][t := pc];
    } else {
      assert threads[t := pc][..n] == threads[..n];
    }
  }

  lemma {:induction false} CountBound(threads: seq<Pc>, k: Kind)
    ensures Count(threads, k) <= |threads|
    ensures (forall t | 0 <= t < |threads| :: KindOf(threads[t]) != k) ==> Count(threads, k) == 0
  {
    if threads != [] {
      CountBound(threads[..|threads| - 1], k);
    }
  }

  lemma CountMove(s: State, t: nat, pc: Pc)
    requires t < |s.threads|
    ensures forall k: Kind :: Count(s.threads[t := pc], k) + (if KindOf(s.threads[t]) == k then 1 else 0)
                           == Count(s.threads, k) + (if KindOf(pc) == k then 1 else 0)
    ensures 1 <= Count(s.threads, KindOf(s.threads[t]))
    ensures Count(s.threads, Holder) <= |s.threads|
  {
    CountUpdate(s.threads, t, if s.threads[t].Out? then Held else Out, KindOf(s.threads[t]));
    forall k: Kind
      ensures Count(s.threads[t := pc], k) + (if KindOf(s.threads[t]) == k then 1 else 0)
           == Count(s.threads, k) + (if KindOf(pc) == k then 1 else 0)
    {
      CountUpdate(s.threads, t, pc, k);
    }
    CountBound(s.threads, Holder);
  }

  // ---------------------------------------------------------------- every step keeps the invariant

  /** A thread that loads or closes the object. */
  predicate InCharge(pc: Pc) { KindOf(pc).Loader? || KindOf(pc).Closer? }

  lemma OneInCharge(s: State, t: nat, u: nat)
    requires Inv(s) && t < |s.threads| && u < |s.threads| && t != u && InCharge(s.threads[t])
    ensures !InCharge(s.threads[u])
  {
    CountMove(s, t, Out);
    CountMove(s.(threads := s.threads[t := Out]), u, Out);
  }

  lemma PcsKeep(s: State, s': State, t: nat)
    requires Inv(s) && t < |s.threads| == |s'.threads| && s'.threads == s.threads[t := s'.threads[t]]
    requires PcOk(s', t)
    requires s'.freed == s.freed && s'.lost == s.lost && (s'.data == s.data || InCharge(s.threads[t]))
    ensures forall u: nat {:trigger PcOk(s', u)} | u < |s'.threads| :: PcOk(s', u)
  {
    forall u: nat | u < |s'.threads| ensures PcOk(s', u) {
      assert PcOk(s, u);
      if u != t && InCharge(s.threads[t]) {
        OneInCharge(s, t, u);
      }
    }
  }

  lemma UseReadKeeps(s: State, t: nat, ok: bool)
    requires Inv(s) && t < |s.threads| && s.threads[t].UseRead?
    ensures Inv(GoStep(s, t, ok))
  {
    var s' := GoStep(s, t, ok);
    assert PcOk(s, t);
    CountMove(s, t, s'.threads[t]);
    Bits(Count(s.threads, Holder));
    PcsKeep(s, s', t);
  }

  lemma UseCasKeeps(s: State, t: nat, ok: bool)
    requires Inv(s) && t < |s.threads| && s.threads[t].UseCas?
    ensures Inv(GoStep(s, t, ok))
  {
    var s' := GoStep(s, t, ok);
    assert PcOk(s, t);
    CountMove(s, t, s'.threads[t]);
    PcsKeep(s, s', t);
  }

  lemma LoadingKeeps(s: State, t: nat, ok: bool)
    requires Inv(s) && t < |s.threads| && s.threads[t].Loading?
    ensures Inv(GoStep(s, t, ok))
  {
    var s' := GoStep(s, t, ok);
    assert PcOk(s, t);
    CountMove(s, t, s'.threads[t]);
    PcsKeep(s, s', t);
  }

  lemma LoadedKeeps(s: State, t: nat, ok: bool)
    requires Inv(s) && t < |s.threads| && s.threads[t].Loaded?
    ensures Inv(GoStep(s, t, ok))
  {
    var s' := GoStep(s, t, ok);
    assert PcOk(s, t);
    CountMove(s, t, s'.threads[t]);
    PcsKeep(s, s', t);
  }

  lemma Bits(h: nat)
    requires h < NEED_FREE
    ensures !HasFree(h) && HasFree(h + NEED_FREE) && Masked(h) == Masked(h + NEED_FREE) == h
  {
  }

  lemma UnuseKeeps(s: State, t: nat, ok: bool)
    requires Inv(s) && t < |s.threads| && KindOf(s.threads[t]).Holder?
    ensures Inv(GoStep(s, t, ok))
  {
    var s', h := GoStep(s, t, ok), Count(s.threads, Holder);
    CountMove(s, t, s'.threads[t]);
    Bits(h);
    assert s.word == h || s.word == h + NEED_FREE;
    PcsKeep(s, s', t);
  }

  lemma CloseKeeps(s: State, t: nat, ok: bool)
    requires Inv(s) && t < |s.threads| && KindOf(s.threads[t]).Closer?
    ensures Inv(GoStep(s, t, ok))
  {
    var s' := GoStep(s, t, ok);
    assert PcOk(s, t);
    CountMove(s, t, s'.threads[t]);
    PcsKeep(s, s', t);
  }

  lemma BeginKeeps(s: State, a: Action)
    requires Inv(s) && Enabled(s, a) && (a.BeginUse? || a.BeginUnuse?)
    ensures Inv(Step(s, a))
  {
    var s' := Step(s, a);
    CountMove(s, a.t, s'.threads[a.t]);
    PcsKeep(s, s', a.t);
  }

  lemma NeedFreeKeeps(s: State)
    requires Inv(s) && Enabled(s, NeedFree)
    ensures Inv(NeedFreeStep(s))
  {
    var s' := NeedFreeStep(s);
    CountBound(s.threads, Loader);
    CountBound(s.threads, Holder);
    forall u: nat | u < |s'.threads| ensures PcOk(s', u) {
      assert PcOk(s, u);
      CountMove(s, u, Out);
    }
  }

  lemma StepKeeps(s: State, a: Action)
    requires Inv(s)
    ensures Inv(Step(s, a))
  {
    if Enabled(s, a) {
      match a
      case Go(t, ok) =>
        if s.threads[t].UseRead? {
          UseReadKeeps(s, t, ok);
        } else if s.threads[t].UseCas? {
          UseCasKeeps(s, t, ok);
        } else if s.threads[t].Loading? {
          LoadingKeeps(s, t, ok);
        } else if s.threads[t].Loaded? {
          LoadedKeeps(s, t, ok);
        } else if KindOf(s.threads[t]).Holder? {
          UnuseKeeps(s, t, ok);
        } else if KindOf(s.threads[t]).Closer? {
          CloseKeeps(s, t, ok);
        }
      case NeedFree => NeedFreeKeeps(s);
      case _ => BeginKeeps(s, a);
    }
  }

  lemma InitInv(n: nat, writer: bool)
    requires n < NEED_FREE
    ensures Inv(Init(n, writer))
  {
    var s := Init(n, writer);
    var outs := seq(n, _ => Out);
    CountBound(outs, Holder);
    CountBound(outs, Loader);
    CountBound(outs, Closer);
    if writer && n > 0 {
      assert s.threads == outs[0 := Held];
      CountUpdate(outs, 0, Held, Holder);
      CountUpdate(outs, 0, Held, Loader);
      CountUpdate(outs, 0, Held, Closer);
    } else {
      assert s.threads == outs;
    }
  }

  lemma {:induction false} RunInv(n: nat, writer: bool, run: seq<Action>)
    requires n < NEED_FREE
    ensures Inv(Run(n, writer, run))
  {
    if run == [] {
      InitInv(n, writer);
    } else {
      RunInv(n, writer, run[..|run| - 1]);
      StepKeeps(Run(n, writer, run[..|run| - 1]), run[|run| - 1]);
    }
  }

  // ---------------------------------------------------------------- what every run guarantees

  /**
    In every run: while nobody is loading or closing, the word (without its free bit) is the number of
    holders; whoever holds the object finds its data loaded and the object not deleted; close() and delete
    run with no holder; the object is deleted at most once; and nobody touches the word after that.
   */
  lemma HoldersAreSafe(n: nat, writer: bool, run: seq<Action>, t: nat)
    requires n < NEED_FREE && t < |Run(n, writer, run).threads|
    ensures Safe(Run(n, writer, run), t)
  {
    RunInv(n, writer, run);
    InvIsSafe(Run(n, writer, run), t);
  }

  /**
    In every run the data is loaded exactly while somebody holds the object, or has just loaded it, or is
    about to close it; so nothing is loaded when the word is 0, and close() meets loaded data.
   */
  lemma LoadedWhileUsed(n: nat, writer: bool, run: seq<Action>)
    requires n < NEED_FREE
    ensures var s := Run(n, writer, run);
            && (s.data <==> exists t :: 0 <= t < |s.threads| && UsesData(s.threads[t]))
            && (s.word == 0 ==> !s.data)
  {
    RunInv(n, writer, run);
    InvUsesData(Run(n, writer, run));
  }

  predicate UsesData(pc: Pc) { KindOf(pc).Holder? || pc.Loaded? || pc.Closing? }

  lemma InvUsesData(s: State)
    requires Inv(s)
    ensures s.data <==> exists t :: 0 <= t < |s.threads| && UsesData(s.threads[t])
    ensures s.word == 0 ==> !s.data
  {
    CountBound(s.threads, Holder);
    CountBound(s.threads, Loader);
    CountBound(s.threads, Closer);
    forall t: nat | t < |s.threads|
      ensures PcOk(s, t) && (KindOf(s.threads[t]).Holder? ==> Count(s.threads, Holder) > 0)
    {
      CountMove(s, t, Out);
    }
    if s.data && Count(s.threads, Holder) == 0 {
      var t :| 0 <= t < |s.threads| && InCharge(s.threads[t]);
      assert PcOk(s, t);
    }
  }

  ghost predicate Safe(s: State, t: nat)
    requires t < |s.threads|
  {
    var h := Count(s.threads, Holder);
    && !s.bad && s.deletes <= 1
    && (KindOf(s.threads[t]).Holder? ==> s.data && s.deletes == 0 && Masked(s.word) == h >= 1)
    && (KindOf(s.threads[t]).Closer? ==> h == 0 && s.deletes == 0)
    && (s.deletes == 1 ==> s.threads[t].Out?)
  }

  lemma InvIsSafe(s: State, t: nat)
    requires Inv(s) && t < |s.threads|
    ensures Safe(s, t)
  {
    assert PcOk(s, t);
    CountMove(s, t, Out);
  }

  /** The steps that a call has left when nobody else moves. */
  function Rank(s: State, t: nat): nat
    requires t < |s.threads|
  {
    match s.threads[t]
    case Out => 0
    case Held => 0
    case UseRead => 4
    case UnuseRead => 4
    case UseCas(r) => if r == s.word then 3 else 5
    case UnuseCas(r) => if r == s.word then 3 else 5
    case Loading => 2
    case Loaded => 1
    case Closing(_) => 2
    case Closed(_) => 1
  }

  /**
    In every state of every run a call of use() or unuse() that nobody disturbs returns within five steps;
    only use() may have to wait, as long as somebody is loading or closing the object or a load has failed.
   */
  lemma CallsReturn(s: State, t: nat)
    requires Inv(s) && t < |s.threads| && !s.threads[t].Out? && !s.threads[t].Held?
    ensures var s' := Step(s, Go(t, true));
            || s'.threads[t].Out? || s'.threads[t].Held? || Rank(s', t) < Rank(s, t) <= 5
            || (s.threads[t].UseRead? && s' == s && Busy(s))
  {
    assert PcOk(s, t);
    CountBound(s.threads, Holder);
    CountBound(s.threads, Loader);
    CountBound(s.threads, Closer);
  }

  /** Everybody has left. */
  ghost predicate Quiet(s: State) { forall t | 0 <= t < |s.threads| :: s.threads[t].Out? }

  /** Somebody is loading or closing the object, or a load has failed. */
  ghost predicate Busy(s: State) {
    s.stuck || exists t: nat :: t < |s.threads| && (KindOf(s.threads[t]).Loader? || KindOf(s.threads[t]).Closer?)
  }

  /** needFree loses its bit exactly when it meets a thread that is loading or closing, or a failed load. */
  lemma LostWhenBusy(s: State)
    requires Inv(s) && Enabled(s, NeedFree)
    ensures Step(s, NeedFree).lost <==> Busy(s)
  {
    if t: nat :| t < |s.threads| && (KindOf(s.threads[t]).Loader? || KindOf(s.threads[t]).Closer?) {
      CountMove(s, t, Out);
    }
    CountBound(s.threads, Loader);
    CountBound(s.threads, Closer);
    CountBound(s.threads, Holder);
  }

  lemma LostStays(s: State, a: Action)
    requires s.freed
    ensures Step(s, a).freed && Step(s, a).lost == s.lost
  {
  }

  lemma {:induction false} LostSince(n: nat, writer: bool, run: seq<Action>, k: nat)
    requires n < NEED_FREE && k < |run| && run[k].NeedFree? && Enabled(Run(n, writer, run[..k]), NeedFree)
    ensures Run(n, writer, run).freed && (Run(n, writer, run).lost <==> Busy(Run(n, writer, run[..k])))
  {
    var r := run[..|run| - 1];
    RunInv(n, writer, r);
    if k < |run| - 1 {
      assert r[..k] == run[..k];
      LostSince(n, writer, r, k);
      LostStays(Run(n, writer, r), run[|run| - 1]);
    } else {
      LostWhenBusy(Run(n, writer, r));
    }
  }

  /**
    When needFree has been called (as action k) and everybody has left, the object has been deleted if and
    only if needFree did not meet a thread that was loading or closing it, or a failed load. Otherwise its
    bit was overwritten and the object is never deleted.
   */
  lemma FreedUnlessBusy(n: nat, writer: bool, run: seq<Action>, k: nat)
    requires n < NEED_FREE && k < |run| && run[k].NeedFree? && Enabled(Run(n, writer, run[..k]), NeedFree)
    requires Quiet(Run(n, writer, run))
    ensures Run(n, writer, run).deletes == 1 <==> !Busy(Run(n, writer, run[..k]))
  {
    RunInv(n, writer, run);
    LostSince(n, writer, run, k);
    var s := Run(n, writer, run);
    CountBound(s.threads, Holder);
    CountBound(s.threads, Loader);
    CountBound(s.threads, Closer);
  }

  lemma RunSnoc(n: nat, writer: bool, run: seq<Action>, a: Action)
    ensures Run(n, writer, run + [a]) == Step(Run(n, writer, run), a)
  {
    assert (run + [a])[..|run|] == run;
  }

  function One(word: nat, pc: Pc, data: bool, freed: bool, deletes: nat, stuck: bool, lost: bool): State {
    State(word, [pc], data, freed, deletes, stuck, lost, false)
  }

  /** Continue a run whose state is known by one action. */
  lemma Then(n: nat, writer: bool, run: seq<Action>, a: Action, s: State) returns (run': seq<Action>)
    requires |s.threads| == 1 == |Step(Run(n, writer, run), a).threads|
    requires Step(Run(n, writer, run), a).threads[0] == s.threads[0]
    requires Step(Run(n, writer, run), a) == s.(threads := Step(Run(n, writer, run), a).threads)
    ensures run' == run + [a] && Run(n, writer, run') == s
  {
    RunSnoc(n, writer, run, a);
    SameState(Step(Run(n, writer, run), a), s);
    run' := run + [a];
  }

  lemma SameState(x: State, s: State)
    requires |x.threads| == 1 == |s.threads| && x.threads[0] == s.threads[0] && x == s.(threads := x.threads)
    ensures x == s
  {
    assert x.threads == s.threads;
  }

  /** The only thread starts closing the object. */
  lemma ReachClosing() returns (run: seq<Action>)
    ensures Run(1, true, run) == One(IN_CLEAR, Closing(1), true, false, 0, false, false)
  {
    assert Init(1, true).threads == [Held];
    assert Masked(1) == 1;
    run := Then(1, true, [], BeginUnuse(0), One(1, UnuseRead, true, false, 0, false, false));
    run := Then(1, true, run, Go(0, true), One(1, UnuseCas(1), true, false, 0, false, false));
    run := Then(1, true, run, Go(0, true), One(IN_CLEAR, Closing(1), true, false, 0, false, false));
  }

  /** needFree while the only thread closes the object: everybody leaves and nothing is deleted. */
  lemma LostWhileClosing() returns (run: seq<Action>)
    ensures var s := Run(1, true, run); s.freed && Quiet(s) && s.deletes == 0
  {
    run := ReachClosing();
    assert !HasFree(IN_CLEAR) && !HasFree(1);
    run := Then(1, true, run, NeedFree, One(IN_CLEAR + NEED_FREE, Closing(1), true, true, 0, false, true));
    run := Then(1, true, run, Go(0, true), One(IN_CLEAR + NEED_FREE, Closed(1), false, true, 0, false, true));
    run := Then(1, true, run, Go(0, true), One(0, Out, false, true, 0, false, true));
  }

  /** The only thread starts loading the object. */
  lemma ReachLoading() returns (run: seq<Action>)
    ensures Run(1, false, run) == One(IN_LOAD, Loading, false, false, 0, false, false)
  {
    assert Init(1, false).threads == [Out];
    run := Then(1, false, [], BeginUse(0), One(0, UseRead, false, false, 0, false, false));
    run := Then(1, false, run, Go(0, true), One(0, UseCas(0), false, false, 0, false, false));
    run := Then(1, false, run, Go(0, true), One(IN_LOAD, Loading, false, false, 0, false, false));
  }

  /** needFree while the only thread loads the object: it then holds an object that is never deleted. */
  lemma LostWhileLoading() returns (run: seq<Action>)
    ensures var s := Run(1, false, run); s.freed && s.threads == [Held] && s.deletes == 0 && s.lost
  {
    run := ReachLoading();
    run := Then(1, false, run, NeedFree, One(IN_LOAD + NEED_FREE, Loading, false, true, 0, false, true));
    run := Then(1, false, run, Go(0, true), One(IN_LOAD + NEED_FREE, Loaded, true, true, 0, false, true));
    run := Then(1, false, run, Go(0, true), One(1, Held, true, true, 0, false, true));
  }

  /** A first load that fails leaves the word in IN_LOAD although nobody is loading. */
  lemma StuckAfterFailedLoad() returns (run: seq<Action>)
    ensures var s := Run(1, false, run); s.stuck && Quiet(s) && s.word == IN_LOAD
  {
    run := ReachLoading();
    run := Then(1, false, run, Go(0, false), One(IN_LOAD, Out, false, false, 0, true, false));
  }

  /** After a failed load the word stays IN_LOAD: in no continuation does any thread hold the object again. */
  lemma {:induction false} FailedLoadIsFinal(n: nat, writer: bool, run: seq<Action>, k: nat, t: nat)
    requires n < NEED_FREE && k <= |run| && Run(n, writer, run[..k]).stuck
    ensures var s := Run(n, writer, run); s.stuck && (t < |s.threads| ==> !KindOf(s.threads[t]).Holder?)
    decreases |run|
  {
    RunInv(n, writer, run);
    if k < |run| {
      var r := run[..|run| - 1];
      assert r[..k] == run[..k];
      FailedLoadIsFinal(n, writer, r, k, t);
      StuckStays(Run(n, writer, r), run[|run| - 1]);
    } else {
      assert run[..k] == run;
    }
    StuckHasNoHolder(Run(n, writer, run), t);
  }

  lemma StuckStays(s: State, a: Action)
    requires s.stuck
    ensures Step(s, a).stuck
  {
  }

  lemma StuckHasNoHolder(s: State, t: nat)
    requires Inv(s) && s.stuck
    ensures t < |s.threads| ==> !KindOf(s.threads[t]).Holder?
  {
    if t < |s.threads| {
      CountMove(s, t, Out);
    }
  }
}
