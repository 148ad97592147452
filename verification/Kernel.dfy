/** hipFileMemcpyKernel: one block of threads copying between the bounce buffer and GPU memory.
    Threads interleave byte by byte; every thread reads the shared result field when it starts. */
module Kernel {
  import opened Memory
  import opened Fallback
  import Bits

  const WORD_BYTES: nat := 8

  /** One launch. `ready` says that size and offset are bound and both pointers are set. The copy goes from
      src[from..] to dst[to..]; a write copies `size` bytes, a read as many as the result field holds. */
  datatype Launch = Launch(kind: IoType, threads: nat, ready: bool, size: nat, src: seq<byte>, from: nat, to: nat)

  datatype Pc = Start | Word(idx: nat, done: nat, n: nat) | Tail(i: nat, n: nat) | Exited

  datatype State = State(pcs: seq<Pc>, dst: seq<byte>, internal: int)

  predicate Valid(k: Launch, internal: int, dst: seq<byte>) {
    && k.threads >= 1
    && (k.ready && internal >= 0 ==>
          k.from + CopySize(k, internal) <= |k.src| && k.to + CopySize(k, internal) <= |dst|)
  }

  function CopySize(k: Launch, internal: int): nat
    requires internal >= 0
  {
    if k.kind == Read then internal else k.size
  }

  /** A thread's byte store, when it has one to make next. */
  function NextByte(pc: Pc): int {
    match pc
    case Word(idx, done, n) => if idx < n / WORD_BYTES then WORD_BYTES * idx + done else -1
    case Tail(i, n) => if i < n then i else -1
    case _ => -1
  }

  function NextPc(k: Launch, t: nat, pc: Pc, internal: int): Pc {
    match pc
    case Start =>
      if internal < 0 || !k.ready then Exited else Word(t, 0, CopySize(k, internal))
    case Word(idx, done, n) =>
      if idx < n / WORD_BYTES then
        if done + 1 < WORD_BYTES then Word(idx, done + 1, n) else Word(idx + k.threads, 0, n)
      else if t == 0 then Tail(n / WORD_BYTES * WORD_BYTES, n)
      else Exited
    case Tail(i, n) => if i < n then Tail(i + 1, n) else Exited
    case Exited => Exited
  }

  /** Thread t takes one step. */
  function Step(k: Launch, s: State, t: nat): State
    requires t < |s.pcs|
  {
    var pc := s.pcs[t];
    var j := NextByte(pc);
    var stored :=
      if 0 <= j && k.to + j < |s.dst| && k.from + j < |k.src| then s.dst[k.to + j := k.src[k.from + j]] else s.dst;
    var internal := if pc == Start && s.internal >= 0 && !k.ready && t == 0 then -INVALID_VALUE else s.internal;
    State(s.pcs[t := NextPc(k, t, pc, s.internal)], stored, internal)
  }

  function Initial(k: Launch, internal: int, dst: seq<byte>): State {
    State(seq(k.threads, i => Start), dst, internal)
  }

  /** A schedule names the thread that moves at each instant. */
  ghost predicate Schedules(k: Launch, schedule: seq<nat>) {
    forall i :: 0 <= i < |schedule| ==> schedule[i] < k.threads
  }

  ghost function Run(k: Launch, s: State, schedule: seq<nat>): (r: State)
    requires |s.pcs| == k.threads && Schedules(k, schedule)
    ensures |r.pcs| == k.threads
    decreases |schedule|
  {
    if schedule == [] then s else Run(k, Step(k, s, schedule[0]), schedule[1..])
  }

  ghost predicate AllExited(s: State) {
    forall t :: 0 <= t < |s.pcs| ==> s.pcs[t] == Exited
  }

  /** The thread that stores byte j of an n-byte copy. */
  function Owner(threads: nat, n: nat, j: nat): nat
    requires threads >= 1
  {
    if j < n / WORD_BYTES * WORD_BYTES then j / WORD_BYTES % threads else 0
  }

  /** Every byte a thread owns below its frontier has been stored. */
  function Frontier(pc: Pc, n: nat): nat {
    match pc
    case Start => 0
    case Word(idx, done, _) => Min(WORD_BYTES * idx + done, n / WORD_BYTES * WORD_BYTES)
    case Tail(i, _) => i
    case Exited => n
  }

  ghost predicate PcOk(k: Launch, t: nat, pc: Pc, n: nat)
    requires k.threads >= 1
  {
    match pc
    case Start => true
    case Word(idx, done, m) =>
      m == n && idx % k.threads == t && done < WORD_BYTES && (done > 0 ==> idx < n / WORD_BYTES)
    case Tail(i, m) => m == n && t == 0 && n / WORD_BYTES * WORD_BYTES <= i <= n
    case Exited => true
  }

  /** Invariant of a copying launch of n bytes over destination d0. */
  ghost predicate Inv(k: Launch, d0: seq<byte>, n: nat, s: State)
    requires k.threads >= 1
  {
    && |s.pcs| == k.threads && |s.dst| == |d0| && s.internal >= 0
    && k.ready && n == CopySize(k, s.internal)
    && k.from + n <= |k.src| && k.to + n <= |d0|
    && (forall t :: 0 <= t < |s.pcs| ==> PcOk(k, t, s.pcs[t], n))
    && (forall i :: 0 <= i < |d0| ==>
          s.dst[i] == d0[i] || (k.to <= i < k.to + n && s.dst[i] == k.src[k.from + (i - k.to)]))
    && (forall j :: 0 <= j < n && j < Frontier(s.pcs[Owner(k.threads, n, j)], n) ==> s.dst[k.to + j] == k.src[k.from + j])
  }

  lemma NoMultipleBetween(w: nat, idx: nat, b: nat)
    requires b > 0 && idx < w < idx + b
    ensures w % b != idx % b
  {
    Remainders(w, idx, b, idx / b, idx % b);
  }

  lemma Remainders(w: nat, idx: nat, b: nat, q: nat, r: nat)
    requires b > 0 && idx < w < idx + b && idx == q * b + r && r < b
    ensures w % b != r
  {
    if r + (w - idx) < b {
      Bits.DivModUnique(w, b, q, r + (w - idx));
    } else {
      NextMultiple(q, b);
      Bits.DivModUnique(w, b, q + 1, r + (w - idx) - b);
    }
  }

  lemma NextMultiple(q: nat, b: nat)
    ensures (q + 1) * b == q * b + b
  {
  }

  lemma AddThreads(idx: nat, b: nat)
    requires b > 0
    ensures (idx + b) % b == idx % b
  {
    NextMultiple(idx / b, b);
    Bits.DivModUnique(idx + b, b, idx / b + 1, idx % b);
  }

  /** A thread only ever stores bytes it owns: no byte is stored by two threads, in any interleaving. */
  lemma StoresOwnBytes(k: Launch, d0: seq<byte>, n: nat, s: State, t: nat)
    requires k.threads >= 1 && Inv(k, d0, n, s) && t < k.threads && NextByte(s.pcs[t]) >= 0
    ensures NextByte(s.pcs[t]) < n
    ensures Owner(k.threads, n, NextByte(s.pcs[t])) == t
  {
    var pc := s.pcs[t];
    assert PcOk(k, t, pc, n);
    if pc.Word? {
      var j := WORD_BYTES * pc.idx + pc.done;
      assert j / WORD_BYTES == pc.idx;
      assert j < n / WORD_BYTES * WORD_BYTES;
    }
  }

  /** Between two words of one thread lie only words of others. */
  lemma WordSkipped(j: nat, idx: nat, b: nat)
    requires b > 0 && WORD_BYTES * (idx + 1) <= j < WORD_BYTES * (idx + b)
    ensures j / WORD_BYTES % b != idx % b
  {
    NoMultipleBetween(j / WORD_BYTES, idx, b);
  }

  /** The bytes a thread owns below its next frontier are those below the current one and the one it stores. */
  lemma FrontierMoves(k: Launch, n: nat, t: nat, pc: Pc, internal: int, j: nat)
    requires k.threads >= 1 && k.ready && internal >= 0 && n == CopySize(k, internal) && t < k.threads
    requires PcOk(k, t, pc, n) && j < n && Owner(k.threads, n, j) == t
    requires j < Frontier(NextPc(k, t, pc, internal), n)
    ensures j < Frontier(pc, n) || j == NextByte(pc)
  {
    match pc
    case Start => NothingBeforeFirstWord(k, n, t, j);
    case Word(idx, done, _) => WordFrontierMoves(k, n, t, idx, done, j);
    case Tail(i, _) =>
    case Exited =>
  }

  lemma NothingBeforeFirstWord(k: Launch, n: nat, t: nat, j: nat)
    requires k.threads >= 1 && t < k.threads && j < n && Owner(k.threads, n, j) == t
    ensures Frontier(Word(t, 0, n), n) <= j
  {
    var w := j / WORD_BYTES;
    if w < t { Bits.SmallMod(w, k.threads); }
  }

  lemma WordFrontierMoves(k: Launch, n: nat, t: nat, idx: nat, done: nat, j: nat)
    requires k.threads >= 1 && PcOk(k, t, Word(idx, done, n), n) && j < n && Owner(k.threads, n, j) == t
    requires j < Frontier(NextPc(k, t, Word(idx, done, n), 0), n)
    ensures j < Frontier(Word(idx, done, n), n) || j == NextByte(Word(idx, done, n))
  {
    var words := n / WORD_BYTES;
    if idx < words && done + 1 == WORD_BYTES {
      if j >= WORD_BYTES * (idx + 1) {
        assert j < words * WORD_BYTES && j < WORD_BYTES * (idx + k.threads);
        WordSkipped(j, idx, k.threads);
      }
    } else if idx >= words {
      assert j < words * WORD_BYTES;
    }
  }

  lemma NextPcOk(k: Launch, n: nat, t: nat, pc: Pc, internal: int)
    requires k.threads >= 1 && k.ready && internal >= 0 && n == CopySize(k, internal) && t < k.threads
    requires PcOk(k, t, pc, n)
    ensures PcOk(k, t, NextPc(k, t, pc, internal), n)
  {
    if pc.Word? { AddThreads(pc.idx, k.threads); }
    if pc.Start? { Bits.SmallMod(t, k.threads); }
  }

  lemma StepKeepsInv(k: Launch, d0: seq<byte>, n: nat, s: State, t: nat)
    requires k.threads >= 1 && Inv(k, d0, n, s) && t < k.threads
    ensures Inv(k, d0, n, Step(k, s, t))
  {
    var s' := Step(k, s, t);
    var pc := s.pcs[t];
    NextPcOk(k, n, t, pc, s.internal);
    if NextByte(pc) >= 0 { StoresOwnBytes(k, d0, n, s, t); }
    forall j | 0 <= j < n && j < Frontier(s'.pcs[Owner(k.threads, n, j)], n)
      ensures s'.dst[k.to + j] == k.src[k.from + j]
    {
      if Owner(k.threads, n, j) == t { FrontierMoves(k, n, t, pc, s.internal, j); }
    }
  }

  lemma {:induction false} RunKeepsInv(k: Launch, d0: seq<byte>, n: nat, s: State, schedule: seq<nat>)
    requires k.threads >= 1 && Inv(k, d0, n, s) && Schedules(k, schedule)
    ensures Inv(k, d0, n, Run(k, s, schedule))
    decreases |schedule|
  {
    if schedule != [] {
      StepKeepsInv(k, d0, n, s, schedule[0]);
      RunKeepsInv(k, d0, n, Step(k, s, schedule[0]), schedule[1..]);
    }
  }

  /** What one launch does: memory and result field afterwards. */
  function Effect(k: Launch, internal: int, dst: seq<byte>): (seq<byte>, int)
    requires Valid(k, internal, dst)
  {
    if internal < 0 then (dst, internal)
    else if !k.ready then (dst, -INVALID_VALUE)
    else
      var n := CopySize(k, internal);
      (Put(dst, k.to, k.src[k.from..k.from + n]), internal)
  }

  /** Invariant of a launch that must not copy. */
  ghost predicate ErrorInv(k: Launch, d0: seq<byte>, internal: int, s: State)
    requires k.threads >= 1
  {
    && |s.pcs| == k.threads && s.dst == d0
    && (forall t :: 0 <= t < |s.pcs| ==> s.pcs[t] == Start || s.pcs[t] == Exited)
    && (internal < 0 ==> s.internal == internal)
    && (internal >= 0 ==> s.internal == if s.pcs[0] == Start then internal else -INVALID_VALUE)
  }

  lemma {:induction false} RunKeepsErrorInv(k: Launch, d0: seq<byte>, internal: int, s: State, schedule: seq<nat>)
    requires k.threads >= 1 && (internal < 0 || !k.ready) && Schedules(k, schedule)
    requires ErrorInv(k, d0, internal, s)
    ensures ErrorInv(k, d0, internal, Run(k, s, schedule))
    decreases |schedule|
  {
    if schedule != [] {
      var t := schedule[0];
      assert s.pcs[t] == Start || s.pcs[t] == Exited;
      RunKeepsErrorInv(k, d0, internal, Step(k, s, t), schedule[1..]);
    }
  }

  lemma FinishedCopy(k: Launch, n: nat, d0: seq<byte>, s: State)
    requires k.threads >= 1 && Inv(k, d0, n, s) && AllExited(s)
    ensures s.dst == Put(d0, k.to, k.src[k.from..k.from + n])
  {
    var data := k.src[k.from..k.from + n];
    forall i | 0 <= i < |d0|
      ensures s.dst[i] == Put(d0, k.to, data)[i]
    {
      if k.to <= i < k.to + n {
        var j := i - k.to;
        assert 0 <= Owner(k.threads, n, j) < k.threads;
        assert s.pcs[Owner(k.threads, n, j)] == Exited;
        assert s.dst[k.to + j] == k.src[k.from + j];
      }
    }
  }

  lemma InitialInv(k: Launch, internal: int, dst: seq<byte>)
    requires Valid(k, internal, dst) && k.ready && internal >= 0
    ensures Inv(k, dst, CopySize(k, internal), Initial(k, internal, dst))
  {
    var n := CopySize(k, internal);
    assert forall j :: 0 <= j < n ==> 0 <= Owner(k.threads, n, j) < k.threads;
  }

  /** Every interleaving in which all threads finish has the effect of one memcpy; a launch that finds an error
      copies nothing and only records it. */
  lemma KernelIsMemcpy(k: Launch, internal: int, dst: seq<byte>, schedule: seq<nat>)
    requires Valid(k, internal, dst) && Schedules(k, schedule)
    requires AllExited(Run(k, Initial(k, internal, dst), schedule))
    ensures var s := Run(k, Initial(k, internal, dst), schedule);
            (s.dst, s.internal) == Effect(k, internal, dst)
  {
    var s0 := Initial(k, internal, dst);
    if internal < 0 || !k.ready {
      RunKeepsErrorInv(k, dst, internal, s0, schedule);
      assert Run(k, s0, schedule).pcs[0] == Exited;
    } else {
      var n := CopySize(k, internal);
      InitialInv(k, internal, dst);
      RunKeepsInv(k, dst, n, s0, schedule);
      RunKeepsInternal(k, s0, schedule);
      FinishedCopy(k, n, dst, Run(k, s0, schedule));
    }
  }

  lemma {:induction false} RunKeepsInternal(k: Launch, s: State, schedule: seq<nat>)
    requires k.ready && |s.pcs| == k.threads && Schedules(k, schedule)
    ensures Run(k, s, schedule).internal == s.internal
    decreases |schedule|
  {
    if schedule != [] { RunKeepsInternal(k, Step(k, s, schedule[0]), schedule[1..]); }
  }

  /** Steps a thread still has to take. */
  function Remaining(pc: Pc, n: nat): nat {
    var words := n / WORD_BYTES;
    match pc
    case Start => n + 4
    case Word(idx, done, _) => if idx < words then Max(n - (WORD_BYTES * idx + done) + 3, 3) else n - words * WORD_BYTES + 2
    case Tail(i, _) => if i < n then n - i + 1 else 1
    case Exited => 0
  }

  /** Every thread is where a launch of n bytes can have it; an error launch has them all at Start or Exited. */
  ghost predicate Going(k: Launch, n: nat, s: State)
    requires k.threads >= 1
  {
    && |s.pcs| == k.threads
    && (k.ready && s.internal >= 0 ==> n == CopySize(k, s.internal))
    && forall t :: 0 <= t < |s.pcs| ==> PcOk(k, t, s.pcs[t], n)
  }

  /** Every step of an unfinished thread brings it nearer its exit, in copying and in failing launches. */
  lemma ThreadsFinish(k: Launch, n: nat, t: nat, pc: Pc, internal: int)
    requires k.threads >= 1 && (k.ready && internal >= 0 ==> n == CopySize(k, internal)) && t < k.threads
    requires PcOk(k, t, pc, n) && pc != Exited
    ensures Remaining(NextPc(k, t, pc, internal), n) < Remaining(pc, n)
    ensures PcOk(k, t, NextPc(k, t, pc, internal), n)
  {
    if pc.Word? { AddThreads(pc.idx, k.threads); }
    if pc.Start? { Bits.SmallMod(t, k.threads); }
  }

  function TotalWork(pcs: seq<Pc>, n: nat): nat {
    if pcs == [] then 0 else TotalWork(pcs[..|pcs| - 1], n) + Remaining(pcs[|pcs| - 1], n)
  }

  lemma {:induction false} TotalUpdate(pcs: seq<Pc>, n: nat, t: nat, pc: Pc)
    requires t < |pcs|
    ensures TotalWork(pcs[t := pc], n) + Remaining(pcs[t], n) == TotalWork(pcs, n) + Remaining(pc, n)
    decreases |pcs|
  {
    var last := |pcs| - 1;
    if t == last {
      assert pcs[t := pc][..last] == pcs[..last];
    } else {
      assert pcs[t := pc][..last] == pcs[..last][t := pc];
      TotalUpdate(pcs[..last], n, t, pc);
    }
  }

  lemma StepKeepsGoing(k: Launch, n: nat, s: State, t: nat)
    requires k.threads >= 1 && Going(k, n, s) && t < k.threads && s.pcs[t] != Exited
    ensures Going(k, n, Step(k, s, t)) && TotalWork(Step(k, s, t).pcs, n) < TotalWork(s.pcs, n)
  {
    ThreadsFinish(k, n, t, s.pcs[t], s.internal);
    TotalUpdate(s.pcs, n, t, NextPc(k, t, s.pcs[t], s.internal));
  }

  /** No instant is given to a thread that has exited. */
  ghost predicate Productive(k: Launch, s: State, schedule: seq<nat>)
    requires |s.pcs| == k.threads && Schedules(k, schedule)
    decreases |schedule|
  {
    schedule != [] ==>
      s.pcs[schedule[0]] != Exited && Productive(k, Step(k, s, schedule[0]), schedule[1..])
  }

  /** Whatever the schedule, the threads take boundedly many steps together. */
  lemma {:induction false} ScheduleIsBounded(k: Launch, n: nat, s: State, schedule: seq<nat>)
    requires k.threads >= 1 && Going(k, n, s) && Schedules(k, schedule) && Productive(k, s, schedule)
    ensures |schedule| + TotalWork(Run(k, s, schedule).pcs, n) <= TotalWork(s.pcs, n)
    decreases |schedule|
  {
    if schedule != [] {
      StepKeepsGoing(k, n, s, schedule[0]);
      ScheduleIsBounded(k, n, Step(k, s, schedule[0]), schedule[1..]);
    }
  }

  lemma RunPrepend(k: Launch, s: State, t: nat, rest: seq<nat>)
    requires |s.pcs| == k.threads && t < k.threads && Schedules(k, rest)
    ensures Schedules(k, [t] + rest) && Run(k, s, [t] + rest) == Run(k, Step(k, s, t), rest)
  {
    assert ([t] + rest)[1..] == rest;
  }

  /** From wherever a launch stands, its threads can all finish. */
  lemma {:induction false} CanFinish(k: Launch, n: nat, s: State) returns (schedule: seq<nat>)
    requires k.threads >= 1 && Going(k, n, s)
    ensures Schedules(k, schedule) && AllExited(Run(k, s, schedule))
    decreases TotalWork(s.pcs, n)
  {
    if AllExited(s) {
      schedule := [];
    } else {
      var t :| 0 <= t < |s.pcs| && s.pcs[t] != Exited;
      StepKeepsGoing(k, n, s, t);
      var rest := CanFinish(k, n, Step(k, s, t));
      RunPrepend(k, s, t, rest);
      schedule := [t] + rest;
    }
  }

  /** Every launch has a finishing schedule, and finishing it is one memcpy or one recorded error. */
  lemma LaunchFinishes(k: Launch, internal: int, dst: seq<byte>) returns (schedule: seq<nat>)
    requires Valid(k, internal, dst)
    ensures Schedules(k, schedule) && AllExited(Run(k, Initial(k, internal, dst), schedule))
    ensures var s := Run(k, Initial(k, internal, dst), schedule); (s.dst, s.internal) == Effect(k, internal, dst)
  {
    var n := if k.ready && internal >= 0 then CopySize(k, internal) else 0;
    schedule := CanFinish(k, n, Initial(k, internal, dst));
    KernelIsMemcpy(k, internal, dst, schedule);
  }

  /** Bytes of dst owned by t below `upto` come from src, all others are as in d0. */
  ghost predicate OwnedCopied(threads: nat, t: nat, n: nat, src: seq<byte>, from: nat, d0: seq<byte>, d: seq<byte>,
                              to: nat, upto: nat)
    requires threads >= 1
  {
    && |d| == |d0| && from + n <= |src| && to + n <= |d0|
    && forall i :: 0 <= i < |d0| ==>
         d[i] == if to <= i < to + Min(upto, n) && Owner(threads, n, i - to) == t then src[from + (i - to)] else d0[i]
  }

  lemma OwnedCopiedSkips(threads: nat, t: nat, n: nat, src: seq<byte>, from: nat, d0: seq<byte>, d: seq<byte>,
                         to: nat, lo: nat, hi: nat)
    requires threads >= 1 && OwnedCopied(threads, t, n, src, from, d0, d, to, lo) && lo <= hi
    requires forall j :: lo <= j < Min(hi, n) ==> Owner(threads, n, j) != t
    ensures OwnedCopied(threads, t, n, src, from, d0, d, to, hi)
  {
    forall i | 0 <= i < |d0|
      ensures d[i] == if to <= i < to + Min(hi, n) && Owner(threads, n, i - to) == t then src[from + (i - to)] else d0[i]
    {
      if to + lo <= i < to + Min(hi, n) {
        var j := i - to;
        assert Owner(threads, n, j) != t;
      }
    }
  }

  /** One thread's byte run, word after word: bytes lo..hi, all owned by t. */
  method CopyOwned(threads: nat, t: nat, n: nat, src: array<byte>, from: nat, dst: array<byte>, to: nat, lo: nat, hi: nat,
                   ghost d0: seq<byte>)
    requires threads >= 1 && src != dst && lo <= hi <= n
    requires OwnedCopied(threads, t, n, src[..], from, d0, dst[..], to, lo)
    requires forall j :: lo <= j < hi ==> Owner(threads, n, j) == t
    modifies dst
    ensures OwnedCopied(threads, t, n, src[..], from, d0, dst[..], to, hi)
  {
    for j := lo to hi
      invariant OwnedCopied(threads, t, n, src[..], from, d0, dst[..], to, j)
    {
      assert Owner(threads, n, j) == t;
      dst[to + j] := src[from + j];
    }
  }

  lemma WordOwner(threads: nat, t: nat, n: nat, idx: nat)
    requires threads >= 1 && idx % threads == t && idx < n / WORD_BYTES
    ensures forall j :: WORD_BYTES * idx <= j < WORD_BYTES * (idx + 1) ==> Owner(threads, n, j) == t
  {
    forall j | WORD_BYTES * idx <= j < WORD_BYTES * (idx + 1)
      ensures Owner(threads, n, j) == t
    {
      assert j / WORD_BYTES == idx;
    }
  }

  lemma SkippedWords(threads: nat, t: nat, n: nat, idx: nat)
    requires threads >= 1 && idx % threads == t
    ensures forall j :: WORD_BYTES * (idx + 1) <= j < Min(Min(WORD_BYTES * (idx + threads), n / WORD_BYTES * WORD_BYTES), n)
                    ==> Owner(threads, n, j) != t
  {
    forall j | WORD_BYTES * (idx + 1) <= j < Min(Min(WORD_BYTES * (idx + threads), n / WORD_BYTES * WORD_BYTES), n)
      ensures Owner(threads, n, j) != t
    {
      WordSkipped(j, idx, threads);
    }
  }

  lemma FirstWords(threads: nat, t: nat, n: nat)
    requires t < threads
    ensures forall j :: 0 <= j < Min(Min(WORD_BYTES * t, n / WORD_BYTES * WORD_BYTES), n) ==> Owner(threads, n, j) != t
  {
    forall j | 0 <= j < Min(Min(WORD_BYTES * t, n / WORD_BYTES * WORD_BYTES), n)
      ensures Owner(threads, n, j) != t
    {
      Bits.SmallMod(j / WORD_BYTES, threads);
    }
  }

  /** The body of one thread as it runs alone: its strided word loop and, for thread 0, the byte tail. It stores
      exactly the bytes it owns. */
  method ThreadBody(threads: nat, t: nat, n: nat, src: array<byte>, from: nat, dst: array<byte>, to: nat)
    requires t < threads && src != dst && from + n <= src.Length && to + n <= dst.Length
    modifies dst
    ensures OwnedCopied(threads, t, n, src[..], from, old(dst[..]), dst[..], to, n)
  {
    ghost var d0 := dst[..];
    var chunks := n / WORD_BYTES;
    var words := chunks * WORD_BYTES;
    var idx := t;
    Bits.SmallMod(t, threads);
    FirstWords(threads, t, n);
    OwnedCopiedSkips(threads, t, n, src[..], from, d0, dst[..], to, 0, Min(WORD_BYTES * idx, words));
    while idx < chunks
      invariant idx % threads == t
      invariant OwnedCopied(threads, t, n, src[..], from, d0, dst[..], to, Min(WORD_BYTES * idx, words))
    {
      WordOwner(threads, t, n, idx);
      CopyOwned(threads, t, n, src, from, dst, to, WORD_BYTES * idx, WORD_BYTES * (idx + 1), d0);
      SkippedWords(threads, t, n, idx);
      OwnedCopiedSkips(threads, t, n, src[..], from, d0, dst[..], to, WORD_BYTES * (idx + 1),
                       Min(WORD_BYTES * (idx + threads), words));
      AddThreads(idx, threads);
      idx := idx + threads;
    }
    if t == 0 {
      CopyOwned(threads, t, n, src, from, dst, to, words, n, d0);
    } else {
      OwnedCopiedSkips(threads, t, n, src[..], from, d0, dst[..], to, words, n);
    }
  }
}
