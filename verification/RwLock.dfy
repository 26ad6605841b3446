/** The Win32 reader/writer lock wrapper (thr_rwlock.h): one untyped unlock decides from a plain
    boolean field whether to release shared or exclusive. Every access to the SRW lock or to the
    field is a step of its own; any number of threads interleave them under sequential consistency. */
module RwLock {
  import opened Wrappers

  type Tid = nat

  datatype Mode = Shared | Exclusive

  /** What the OS lock remembers. Releasing a mode that nobody holds is undefined: Broken. */
  datatype Srw = Srw(readers: nat, writer: bool) | Broken

  const FREE := Srw(0, false)

  predicate CanShare(w: Srw) { w.Srw? && !w.writer }

  predicate CanExclude(w: Srw) { w == FREE }

  function AcquireShared(w: Srw): Srw
    requires CanShare(w)
  {
    w.(readers := w.readers + 1)
  }

  function ReleaseSRWLockShared(w: Srw): Srw {
    if w.Srw? && w.readers > 0 then w.(readers := w.readers - 1) else Broken
  }

  function ReleaseSRWLockExclusive(w: Srw): Srw {
    if w.Srw? && w.writer then w.(writer := false) else Broken
  }

  // ----- The protocol: one program counter per thread -----

  datatype Call = RdLock | TryRdLock | WrLock | TryWrLock

  /** Where a thread stands. The mode in the unlocking states is the one it acquired: a record for
      the statements below, which no step ever looks at. */
  datatype Pc =
    | Idle
    | Enter(call: Call)              // at the acquire primitive
    | SetFlag                        // exclusive acquired, field not yet set
    | Holding(mode: Mode)            // the lock call has returned 0
    | TestFlag(mode: Mode)           // in unlock, about to read the field
    | ClearFlag(mode: Mode)          // read TRUE, about to write FALSE
    | ReleaseExclusive(mode: Mode)   // about to release exclusive
    | ReleaseShared(mode: Mode)      // read FALSE, about to release shared

  datatype State = State(srw: Srw, flag: bool, pcs: map<Tid, Pc>)

  /** One scheduling choice: the thread that moves, and the call it makes if it is idle. */
  datatype Choice = Choice(tid: Tid, call: Call)

  function Init(tids: set<Tid>): State { State(FREE, false, map t | t in tids :: Idle) }

  function Goto(s: State, t: Tid, pc: Pc): State { s.(pcs := s.pcs[t := pc]) }

  /** The part of the state that a step touches: the lock, the field and the moving thread's place. */
  datatype Local = Local(srw: Srw, flag: bool, pc: Pc)

  function Move(l: Local, call: Call): Local {
    match l.pc
    case Idle => l.(pc := Enter(call))
    case Enter(RdLock) => if CanShare(l.srw) then l.(srw := AcquireShared(l.srw), pc := Holding(Shared)) else l
    case Enter(TryRdLock) => if CanShare(l.srw) then l.(srw := AcquireShared(l.srw), pc := Holding(Shared)) else l.(pc := Idle)
    case Enter(WrLock) => if CanExclude(l.srw) then l.(srw := Srw(0, true), pc := SetFlag) else l
    case Enter(TryWrLock) => if CanExclude(l.srw) then l.(srw := Srw(0, true), pc := SetFlag) else l.(pc := Idle)
    case SetFlag => l.(flag := true, pc := Holding(Exclusive))
    case Holding(m) => l.(pc := TestFlag(m))
    case TestFlag(m) => l.(pc := if l.flag then ClearFlag(m) else ReleaseShared(m))
    case ClearFlag(m) => l.(flag := false, pc := ReleaseExclusive(m))
    case ReleaseExclusive(_) => l.(srw := ReleaseSRWLockExclusive(l.srw), pc := Idle)
    case ReleaseShared(_) => l.(srw := ReleaseSRWLockShared(l.srw), pc := Idle)
  }

  function Step(s: State, c: Choice): State {
    if c.tid !in s.pcs then s
    else
      var l := Move(Local(s.srw, s.flag, s.pcs[c.tid]), c.call);
      Goto(s.(srw := l.srw, flag := l.flag), c.tid, l.pc)
  }

  function Exec(s: State, schedule: seq<Choice>): State
    decreases |schedule|
  {
    if schedule == [] then s else Exec(Step(s, schedule[0]), schedule[1..])
  }

  /** What a step does to the lock as its users see it. */
  datatype Label = Tau | Acquire(tid: Tid, mode: Mode) | Busy(tid: Tid, mode: Mode) | Release(tid: Tid, mode: Mode)

  /** The label of a concrete step; a release is labelled by the OS primitive that was called. */
  function LabelOf(s: State, c: Choice): Label {
    if c.tid !in s.pcs then Tau else MoveLabel(Local(s.srw, s.flag, s.pcs[c.tid]), c.tid)
  }

  function MoveLabel(l: Local, t: Tid): Label {
    match l.pc
    case Enter(RdLock) => if CanShare(l.srw) then Acquire(t, Shared) else Tau
    case Enter(TryRdLock) => if CanShare(l.srw) then Acquire(t, Shared) else Busy(t, Shared)
    case Enter(WrLock) => if CanExclude(l.srw) then Acquire(t, Exclusive) else Tau
    case Enter(TryWrLock) => if CanExclude(l.srw) then Acquire(t, Exclusive) else Busy(t, Exclusive)
    case ReleaseExclusive(_) => Release(t, Exclusive)
    case ReleaseShared(_) => Release(t, Shared)
    case _ => Tau
  }

  // ----- Ownership and the invariant -----

  predicate Owns(pc: Pc, m: Mode) {
    match pc
    case Idle => false
    case Enter(_) => false
    case SetFlag => m == Exclusive
    case _ => pc.mode == m
  }

  function Owners(s: State, m: Mode): set<Tid> { set t | t in s.pcs && Owns(s.pcs[t], m) }

  /** The states in which an exclusive owner has its flag up: after setting, before clearing it. */
  predicate FlagUp(pc: Pc) { pc == Holding(Exclusive) || pc == TestFlag(Exclusive) || pc == ClearFlag(Exclusive) }

  /** The unlocking branch a thread took fits the mode it acquired. */
  predicate RightBranch(pc: Pc) {
    && (pc.ClearFlag? || pc.ReleaseExclusive? ==> pc.mode == Exclusive)
    && (pc.ReleaseShared? ==> pc.mode == Shared)
  }

  /** The OS lock counts exactly its owners; a writer excludes readers and other writers. */
  predicate Counts(w: Srw, R: set<Tid>, E: set<Tid>) {
    && w.Srw? && w.readers == |R| && (w.writer <==> E != {})
    && (forall t, u :: t in E && u in E ==> t == u)
    && (R == {} || E == {})
  }

  predicate Inv(s: State) {
    && Counts(s.srw, Owners(s, Shared), Owners(s, Exclusive))
    && (forall t :: t in s.pcs ==> RightBranch(s.pcs[t]))
    && FlagTells(s)
  }

  lemma InitInv(tids: set<Tid>)
    ensures Inv(Init(tids))
  {
    assert Owners(Init(tids), Shared) == {} && Owners(Init(tids), Exclusive) == {};
  }

  lemma OwnersAfter(s: State, t: Tid, pc: Pc, m: Mode)
    ensures Owners(Goto(s, t, pc), m) == if Owns(pc, m) then Owners(s, m) + {t} else Owners(s, m) - {t}
  {
  }

  lemma StepOwners(s: State, c: Choice, m: Mode)
    requires c.tid in s.pcs
    ensures var s' := Step(s, c);
            c.tid in s'.pcs && s'.pcs.Keys == s.pcs.Keys
            && Owners(s', m) == if Owns(s'.pcs[c.tid], m) then Owners(s, m) + {c.tid} else Owners(s, m) - {c.tid}
  {
    OwnersAfter(s, c.tid, Step(s, c).pcs[c.tid], m);
  }

  predicate FlagTells(s: State) { s.flag <==> exists t :: t in s.pcs && FlagUp(s.pcs[t]) }

  /** A step raises the flag, clears it, or leaves it, and its thread's new place fits. */
  lemma MoveFlag(l: Local, call: Call)
    requires RightBranch(l.pc) && (l.pc.TestFlag? ==> (l.flag <==> l.pc.mode == Exclusive))
    ensures var l' := Move(l, call);
            || (l'.flag && FlagUp(l'.pc))
            || (!l'.flag && l.pc == ClearFlag(Exclusive) && !FlagUp(l'.pc))
            || (l'.flag == l.flag && (FlagUp(l.pc) <==> FlagUp(l'.pc)))
    ensures RightBranch(Move(l, call).pc)
  {
  }

  lemma SameFlag(s: State, s': State, t: Tid, pc: Pc)
    requires FlagTells(s) && t in s.pcs && s'.flag == s.flag && s'.pcs == s.pcs[t := pc]
    requires FlagUp(s.pcs[t]) <==> FlagUp(pc)
    ensures FlagTells(s')
  {
    if s.flag {
      var u :| u in s.pcs && FlagUp(s.pcs[u]);
      assert u in s'.pcs && FlagUp(s'.pcs[u]);
    }
  }

  lemma ClearedFlag(s: State, s': State, t: Tid, pc: Pc)
    requires Inv(s) && t in s.pcs && s.pcs[t] == ClearFlag(Exclusive)
    requires !s'.flag && s'.pcs == s.pcs[t := pc] && !FlagUp(pc)
    ensures FlagTells(s')
  {
    assert t in Owners(s, Exclusive);
    forall u | u in s'.pcs ensures !FlagUp(s'.pcs[u]) {
      assert u != t && FlagUp(s.pcs[u]) ==> u in Owners(s, Exclusive);
    }
  }

  lemma StepKeepsFlag(s: State, c: Choice)
    requires Inv(s) && c.tid in s.pcs
    ensures FlagTells(Step(s, c))
  {
    var t, s' := c.tid, Step(s, c);
    if s.pcs[t].TestFlag? { FlagTold(s, t); }
    MoveFlag(Local(s.srw, s.flag, s.pcs[t]), c.call);
    if s'.flag && FlagUp(s'.pcs[t]) {
    } else if s.pcs[t] == ClearFlag(Exclusive) {
      ClearedFlag(s, s', t, s'.pcs[t]);
    } else {
      SameFlag(s, s', t, s'.pcs[t]);
    }
  }

  /** The heart of the protocol: a thread in unlock reads TRUE exactly when it holds exclusive mode. */
  lemma FlagTold(s: State, t: Tid)
    requires Inv(s) && t in s.pcs && s.pcs[t].TestFlag?
    ensures s.flag <==> s.pcs[t].mode == Exclusive
  {
    assert FlagUp(s.pcs[t]) || t in Owners(s, Shared);
    assert forall u :: u in s.pcs && FlagUp(s.pcs[u]) ==> u in Owners(s, Exclusive);
  }

  /** Owners change only at the acquires and releases, and by the moving thread alone. */
  predicate Effect(l: Label, w: Srw, R: set<Tid>, E: set<Tid>, w': Srw, R': set<Tid>, E': set<Tid>) {
    match l
    case Acquire(t, Shared) => t !in R && CanShare(w) && w' == AcquireShared(w) && R' == R + {t} && E' == E
    case Acquire(t, Exclusive) => t !in R && CanExclude(w) && w' == Srw(0, true) && R' == R && E' == E + {t}
    case Release(t, Shared) => t in R && w' == ReleaseSRWLockShared(w) && R' == R - {t} && E' == E
    case Release(t, Exclusive) => t in E && w' == ReleaseSRWLockExclusive(w) && R' == R && E' == E - {t}
    case Busy(_, m) => w' == w && R' == R && E' == E && !(if m == Shared then CanShare(w) else CanExclude(w))
    case Tau => w' == w && R' == R && E' == E
  }

  /** The same for the moving thread alone: what it owns before and after. */
  predicate MoveEffect(b: Label, l: Local, l': Local) {
    match b
    case Acquire(_, m) =>
      && !Owns(l.pc, Shared) && !Owns(l.pc, Exclusive)
      && (Owns(l'.pc, Shared) <==> m == Shared) && (Owns(l'.pc, Exclusive) <==> m == Exclusive)
      && if m == Shared then CanShare(l.srw) && l'.srw == AcquireShared(l.srw) else CanExclude(l.srw) && l'.srw == Srw(0, true)
    case Release(_, m) =>
      && !Owns(l'.pc, Shared) && !Owns(l'.pc, Exclusive)
      && (Owns(l.pc, Shared) <==> m == Shared) && (Owns(l.pc, Exclusive) <==> m == Exclusive)
      && l'.srw == if m == Shared then ReleaseSRWLockShared(l.srw) else ReleaseSRWLockExclusive(l.srw)
    case Busy(_, m) =>
      && l'.srw == l.srw && (Owns(l.pc, Shared) <==> Owns(l'.pc, Shared)) && (Owns(l.pc, Exclusive) <==> Owns(l'.pc, Exclusive))
      && !(if m == Shared then CanShare(l.srw) else CanExclude(l.srw))
    case Tau =>
      l'.srw == l.srw && (Owns(l.pc, Shared) <==> Owns(l'.pc, Shared)) && (Owns(l.pc, Exclusive) <==> Owns(l'.pc, Exclusive))
  }

  predicate OfThread(b: Label, t: Tid) { b.Tau? || b.tid == t }

  lemma MoveHasEffect(l: Local, call: Call, t: Tid)
    requires RightBranch(l.pc)
    ensures MoveEffect(MoveLabel(l, t), l, Move(l, call)) && OfThread(MoveLabel(l, t), t)
  {
  }

  lemma EffectOnOwners(b: Label, l: Local, l': Local, t: Tid, R: set<Tid>, E: set<Tid>, R': set<Tid>, E': set<Tid>)
    requires MoveEffect(b, l, l') && OfThread(b, t)
    requires (t in R <==> Owns(l.pc, Shared)) && R' == if Owns(l'.pc, Shared) then R + {t} else R - {t}
    requires (t in E <==> Owns(l.pc, Exclusive)) && E' == if Owns(l'.pc, Exclusive) then E + {t} else E - {t}
    ensures Effect(b, l.srw, R, E, l'.srw, R', E')
  {
  }

  lemma StepEffect(s: State, c: Choice)
    requires c.tid in s.pcs && RightBranch(s.pcs[c.tid])
    ensures var s' := Step(s, c);
            Effect(LabelOf(s, c), s.srw, Owners(s, Shared), Owners(s, Exclusive),
                   s'.srw, Owners(s', Shared), Owners(s', Exclusive))
  {
    var l, s' := Local(s.srw, s.flag, s.pcs[c.tid]), Step(s, c);
    MoveHasEffect(l, c.call, c.tid);
    StepOwners(s, c, Shared);
    StepOwners(s, c, Exclusive);
    EffectOnOwners(LabelOf(s, c), l, Move(l, c.call), c.tid, Owners(s, Shared), Owners(s, Exclusive),
                   Owners(s', Shared), Owners(s', Exclusive));
  }

  /** Such a change keeps the counts, and it is a step of the typed lock. */
  lemma EffectIsTyped(l: Label, w: Srw, R: set<Tid>, E: set<Tid>, w': Srw, R': set<Tid>, E': set<Tid>)
    requires Counts(w, R, E) && Effect(l, w, R, E, w', R', E')
    ensures Counts(w', R', E') && TypedStep(Typed(R, E), l) == Some(Typed(R', E'))
  {
    assert |R| == 0 <==> R == {};
  }

  /** Every step of every thread keeps the invariant. */
  lemma StepKeepsInv(s: State, c: Choice)
    requires Inv(s)
    ensures Inv(Step(s, c))
  {
    if c.tid in s.pcs {
      var s' := Step(s, c);
      StepEffect(s, c);
      EffectIsTyped(LabelOf(s, c), s.srw, Owners(s, Shared), Owners(s, Exclusive),
                    s'.srw, Owners(s', Shared), Owners(s', Exclusive));
      StepKeepsFlag(s, c);
      StepKeepsBranch(s, c);
    }
  }

  lemma StepKeepsBranch(s: State, c: Choice)
    requires Inv(s) && c.tid in s.pcs
    ensures forall t :: t in Step(s, c).pcs ==> RightBranch(Step(s, c).pcs[t])
  {
    if s.pcs[c.tid].TestFlag? { FlagTold(s, c.tid); }
    MoveFlag(Local(s.srw, s.flag, s.pcs[c.tid]), c.call);
  }

  lemma {:induction false} RunKeepsInv(s: State, schedule: seq<Choice>)
    requires Inv(s)
    ensures Inv(Exec(s, schedule))
    decreases |schedule|
  {
    if schedule == [] {
    } else {
      StepKeepsInv(s, schedule[0]);
      RunKeepsInv(Step(s, schedule[0]), schedule[1..]);
    }
  }

  // ----- The abstract lock: typed unlocks, no flag -----

  datatype Typed = Typed(readers: set<Tid>, writers: set<Tid>)

  predicate Grants(a: Typed, m: Mode) { a.writers == {} && (m == Exclusive ==> a.readers == {}) }

  /** A read-unlock needs a read holder and a write-unlock the write holder; EBUSY needs a conflict. */
  function TypedStep(a: Typed, l: Label): Option<Typed> {
    match l
    case Tau => Some(a)
    case Acquire(t, m) =>
      if !Grants(a, m) || t in a.readers then None
      else if m == Shared then Some(a.(readers := a.readers + {t}))
      else Some(a.(writers := {t}))
    case Busy(t, m) => if Grants(a, m) then None else Some(a)
    case Release(t, Shared) => if t in a.readers then Some(a.(readers := a.readers - {t})) else None
    case Release(t, Exclusive) => if t in a.writers then Some(a.(writers := a.writers - {t})) else None
  }

  function TypedExec(a: Typed, labels: seq<Label>): Option<Typed>
    decreases |labels|
  {
    if labels == [] then Some(a)
    else match TypedStep(a, labels[0]) case None => None case Some(b) => TypedExec(b, labels[1..])
  }

  function Labels(s: State, schedule: seq<Choice>): (labels: seq<Label>)
    ensures |labels| == |schedule|
    decreases |schedule|
  {
    if schedule == [] then [] else [LabelOf(s, schedule[0])] + Labels(Step(s, schedule[0]), schedule[1..])
  }

  function Abs(s: State): Typed { Typed(Owners(s, Shared), Owners(s, Exclusive)) }

  lemma StepRefines(s: State, c: Choice)
    requires Inv(s)
    ensures TypedStep(Abs(s), LabelOf(s, c)) == Some(Abs(Step(s, c)))
  {
    if c.tid in s.pcs {
      var s' := Step(s, c);
      StepEffect(s, c);
      EffectIsTyped(LabelOf(s, c), s.srw, Owners(s, Shared), Owners(s, Exclusive),
                    s'.srw, Owners(s', Shared), Owners(s', Exclusive));
    }
  }

  /** Refinement: for any threads and any schedule, the run is a run of the typed lock, in which every
      unlock releases the mode its thread holds. */
  lemma {:induction false} RunRefines(s: State, schedule: seq<Choice>)
    requires Inv(s)
    ensures TypedExec(Abs(s), Labels(s, schedule)) == Some(Abs(Exec(s, schedule)))
    decreases |schedule|
  {
    if schedule == [] {
    } else {
      StepRefines(s, schedule[0]);
      StepKeepsInv(s, schedule[0]);
      RunRefines(Step(s, schedule[0]), schedule[1..]);
      assert Labels(s, schedule)[1..] == Labels(Step(s, schedule[0]), schedule[1..]);
    }
  }

  /** From initialisation on: the OS lock is never misused, the typed lock explains every run. */
  lemma NativeLockRefinesTyped(tids: set<Tid>, schedule: seq<Choice>)
    ensures var s := Exec(Init(tids), schedule);
            s.srw.Srw? && TypedExec(Typed({}, {}), Labels(Init(tids), schedule)) == Some(Abs(s))
  {
    InitInv(tids);
    RunKeepsInv(Init(tids), schedule);
    RunRefines(Init(tids), schedule);
    assert Abs(Init(tids)) == Typed({}, {});
  }

  /** The flag over every run: up exactly while one thread owns exclusive mode between setting and
      clearing it, hence up for every writer that returned from its lock call, down whenever there is a
      shared owner or nobody owns the lock; readers and a writer never coexist, two writers never do. */
  lemma FlagOverEveryRun(tids: set<Tid>, schedule: seq<Choice>)
    ensures var s := Exec(Init(tids), schedule);
            && (s.flag <==> exists t :: t in s.pcs && FlagUp(s.pcs[t]))
            && (forall t :: t in s.pcs && s.pcs[t] == Holding(Exclusive) ==> s.flag)
            && (Owners(s, Shared) != {} ==> !s.flag && Owners(s, Exclusive) == {})
            && (forall t, u :: t in Owners(s, Exclusive) && u in Owners(s, Exclusive) ==> t == u)
            && (Owners(s, Shared) == {} && Owners(s, Exclusive) == {} ==> !s.flag && s.srw == FREE)
            && (forall t :: t in s.pcs && s.pcs[t].TestFlag? ==> (s.flag <==> s.pcs[t].mode == Exclusive))
  {
    var s := Exec(Init(tids), schedule);
    InitInv(tids);
    RunKeepsInv(Init(tids), schedule);
    assert forall t :: t in s.pcs && FlagUp(s.pcs[t]) ==> t in Owners(s, Exclusive);
    forall t | t in s.pcs && s.pcs[t] == Holding(Exclusive) ensures s.flag { assert FlagUp(s.pcs[t]); }
    forall t | t in s.pcs && s.pcs[t].TestFlag? ensures s.flag <==> s.pcs[t].mode == Exclusive { FlagTold(s, t); }
  }

  /** Only the two blocking acquires ever wait, a reader only for an exclusive owner and a writer only
      for some owner: unlocking never waits, and a free lock lets every waiting thread in. */
  lemma OnlyOwnersBlock(tids: set<Tid>, schedule: seq<Choice>, c: Choice)
    requires c.tid in Exec(Init(tids), schedule).pcs
    ensures var s := Exec(Init(tids), schedule);
            var waits := Step(s, c).pcs[c.tid] == s.pcs[c.tid];
            && c.tid in Step(s, c).pcs
            && (waits <==> (s.pcs[c.tid] == Enter(RdLock) && Owners(s, Exclusive) != {})
                           || (s.pcs[c.tid] == Enter(WrLock) && (Owners(s, Exclusive) != {} || Owners(s, Shared) != {})))
  {
    InitInv(tids);
    RunKeepsInv(Init(tids), schedule);
  }

  // ----- Why the field is cleared before the release -----

  /** The same protocol with the two lines of unlock's exclusive branch swapped. */
  function StepSwapped(s: State, c: Choice): State {
    if c.tid !in s.pcs then s else
    match s.pcs[c.tid]
    case ClearFlag(m) => Goto(s.(srw := ReleaseSRWLockExclusive(s.srw)), c.tid, ReleaseExclusive(m))
    case ReleaseExclusive(_) => Goto(s.(flag := false), c.tid, Idle)
    case _ => Step(s, c)
  }

  function ExecSwapped(s: State, schedule: seq<Choice>): State
    decreases |schedule|
  {
    if schedule == [] then s else ExecSwapped(StepSwapped(s, schedule[0]), schedule[1..])
  }

  function Two(srw: Srw, flag: bool, writer: Pc, reader: Pc): State { State(srw, flag, map[1 := writer, 2 := reader]) }

  lemma TwoGoto(srw: Srw, flag: bool, writer: Pc, reader: Pc, pc: Pc)
    ensures Goto(Two(srw, flag, writer, reader), 1, pc) == Two(srw, flag, pc, reader)
    ensures Goto(Two(srw, flag, writer, reader), 2, pc) == Two(srw, flag, writer, pc)
  {
  }

  lemma StepThen(s: State, c: Choice, rest: seq<Choice>)
    ensures ExecSwapped(s, [c] + rest) == ExecSwapped(StepSwapped(s, c), rest)
  {
    assert ([c] + rest)[1..] == rest;
  }

  /** Release first and clear afterwards, and a reader that slips in between releases exclusive mode,
      which it never had. */
  lemma SwappedOrderBreaks()
    ensures exists schedule :: ExecSwapped(Init({1, 2}), schedule).srw.Broken?
  {
    var w, r := Choice(1, WrLock), Choice(2, RdLock);
    assert Init({1, 2}) == Two(FREE, false, Idle, Idle);
    var reader := [r] + ([r] + ([r] + ([r] + [r])));
    WriterReleases(w, reader);
    ReaderMisled(r);
    assert ExecSwapped(Init({1, 2}), [w] + ([w] + ([w] + ([w] + ([w] + ([w] + reader)))))).srw.Broken?;
  }

  lemma WriterReleases(w: Choice, rest: seq<Choice>)
    requires w == Choice(1, WrLock)
    ensures ExecSwapped(Two(FREE, false, Idle, Idle), [w] + ([w] + ([w] + ([w] + ([w] + ([w] + rest))))))
            == ExecSwapped(Two(FREE, true, ReleaseExclusive(Exclusive), Idle), rest)
  {
    WriterLocks(w, [w] + ([w] + ([w] + rest)));
    WriterUnlocks(w, rest);
  }

  lemma WriterLocks(w: Choice, rest: seq<Choice>)
    requires w == Choice(1, WrLock)
    ensures ExecSwapped(Two(FREE, false, Idle, Idle), [w] + ([w] + ([w] + rest)))
            == ExecSwapped(Two(Srw(0, true), true, Holding(Exclusive), Idle), rest)
  {
    var x := Srw(0, true);
    StepThen(Two(FREE, false, Idle, Idle), w, [w] + ([w] + rest));  TwoGoto(FREE, false, Idle, Idle, Enter(WrLock));
    StepThen(Two(FREE, false, Enter(WrLock), Idle), w, [w] + rest); TwoGoto(x, false, Enter(WrLock), Idle, SetFlag);
    StepThen(Two(x, false, SetFlag, Idle), w, rest);                TwoGoto(x, true, SetFlag, Idle, Holding(Exclusive));
  }

  lemma WriterUnlocks(w: Choice, rest: seq<Choice>)
    requires w == Choice(1, WrLock)
    ensures ExecSwapped(Two(Srw(0, true), true, Holding(Exclusive), Idle), [w] + ([w] + ([w] + rest)))
            == ExecSwapped(Two(FREE, true, ReleaseExclusive(Exclusive), Idle), rest)
  {
    var x := Srw(0, true);
    StepThen(Two(x, true, Holding(Exclusive), Idle), w, [w] + ([w] + rest));
    TwoGoto(x, true, Holding(Exclusive), Idle, TestFlag(Exclusive));
    StepThen(Two(x, true, TestFlag(Exclusive), Idle), w, [w] + rest);
    TwoGoto(x, true, TestFlag(Exclusive), Idle, ClearFlag(Exclusive));
    StepThen(Two(x, true, ClearFlag(Exclusive), Idle), w, rest);
    TwoGoto(FREE, true, ClearFlag(Exclusive), Idle, ReleaseExclusive(Exclusive));
  }

  lemma ReaderMisled(r: Choice)
    requires r == Choice(2, RdLock)
    ensures ExecSwapped(Two(FREE, true, ReleaseExclusive(Exclusive), Idle), [r] + ([r] + ([r] + ([r] + [r])))).srw.Broken?
  {
    ReaderLocks(r, [r] + ([r] + [r]));
    ReaderUnlocks(r);
  }

  lemma ReaderLocks(r: Choice, rest: seq<Choice>)
    requires r == Choice(2, RdLock)
    ensures ExecSwapped(Two(FREE, true, ReleaseExclusive(Exclusive), Idle), [r] + ([r] + rest))
            == ExecSwapped(Two(Srw(1, false), true, ReleaseExclusive(Exclusive), Holding(Shared)), rest)
  {
    var p, x := ReleaseExclusive(Exclusive), Srw(1, false);
    StepThen(Two(FREE, true, p, Idle), r, [r] + rest);    TwoGoto(FREE, true, p, Idle, Enter(RdLock));
    StepThen(Two(FREE, true, p, Enter(RdLock)), r, rest); TwoGoto(x, true, p, Enter(RdLock), Holding(Shared));
  }

  lemma ReaderUnlocks(r: Choice)
    requires r == Choice(2, RdLock)
    ensures ExecSwapped(Two(Srw(1, false), true, ReleaseExclusive(Exclusive), Holding(Shared)), [r] + ([r] + [r])).srw.Broken?
  {
    var p, x := ReleaseExclusive(Exclusive), Srw(1, false);
    StepThen(Two(x, true, p, Holding(Shared)), r, [r] + [r]); TwoGoto(x, true, p, Holding(Shared), TestFlag(Shared));
    StepThen(Two(x, true, p, TestFlag(Shared)), r, [r]);      TwoGoto(x, true, p, TestFlag(Shared), ClearFlag(Shared));
    assert StepSwapped(Two(x, true, p, ClearFlag(Shared)), r).srw == Broken;
    assert [r] == [r] + [];
    StepThen(Two(x, true, p, ClearFlag(Shared)), r, []);
  }

  // ----- The header's functions on the struct, each one run of the protocol by an undisturbed thread -----

  const EBUSY := 16

  lemma ExecThen(s: State, c: Choice, rest: seq<Choice>)
    ensures Exec(s, [c] + rest) == Exec(Step(s, c), rest)
    ensures Exec(s, [c]) == Step(s, c)
  {
    assert ([c] + rest)[1..] == rest && [c][1..] == [];
  }

  lemma ExecUnrolled(s: State, c: Choice)
    ensures Exec(s, [c, c]) == Step(Step(s, c), c)
    ensures Exec(s, [c, c, c]) == Step(Step(Step(s, c), c), c)
    ensures Exec(s, [c, c, c, c]) == Step(Step(Step(Step(s, c), c), c), c)
  {
    assert [c, c] == [c] + [c] && [c, c, c] == [c] + [c, c] && [c, c, c, c] == [c] + [c, c, c];
    var s1 := Step(s, c);
    var s2 := Step(s1, c);
    ExecThen(s, c, [c]); ExecThen(s, c, [c, c]); ExecThen(s, c, [c, c, c]);
    ExecThen(s1, c, [c]); ExecThen(s1, c, [c, c]);
    ExecThen(s2, c, [c]);
  }

  /** What the struct looks like to a caller of unlock. */
  predicate HolderSees(w: Srw, flag: bool, m: Mode) {
    if m == Exclusive then w == Srw(0, true) && flag else CanShare(w) && w.readers > 0 && !flag
  }

  /** In every run, every thread that holds the lock sees the struct as unlock needs it. */
  lemma EveryHolderSees(tids: set<Tid>, schedule: seq<Choice>, t: Tid)
    requires var s := Exec(Init(tids), schedule); t in s.pcs && s.pcs[t].Holding?
    ensures var s := Exec(Init(tids), schedule); HolderSees(s.srw, s.flag, s.pcs[t].mode)
  {
    var s := Exec(Init(tids), schedule);
    FlagOverEveryRun(tids, schedule);
    InitInv(tids);
    RunKeepsInv(Init(tids), schedule);
    assert t in Owners(s, s.pcs[t].mode);
  }

  class NativeRwLock {
    var srwlock: Srw
    var haveExclusive: bool

    /** The struct, seen by one thread that stands at pc. */
    ghost function View(pc: Pc): State
      reads this
    {
      State(srwlock, haveExclusive, map[0 := pc])
    }

    constructor ()
      ensures View(Idle) == Init({0})
    {
      srwlock, haveExclusive := FREE, false;
      new;
      assert View(Idle).pcs == Init({0}).pcs;
    }

    /** Returns once the OS grants shared mode. */
    method RdLock() returns (rc: int)
      requires CanShare(srwlock)
      modifies this
      ensures rc == 0 && View(Holding(Shared)) == Exec(old(View(Idle)), [Choice(0, Call.RdLock), Choice(0, Call.RdLock)])
    {
      ExecUnrolled(View(Idle), Choice(0, Call.RdLock));
      srwlock := AcquireShared(srwlock);
      rc := 0;
    }

    method TryRdLock() returns (rc: int)
      modifies this
      ensures rc == if CanShare(old(srwlock)) then 0 else 16
      ensures View(if rc == 0 then Holding(Shared) else Idle)
              == Exec(old(View(Idle)), [Choice(0, Call.TryRdLock), Choice(0, Call.TryRdLock)])
    {
      ExecUnrolled(View(Idle), Choice(0, Call.TryRdLock));
      if !CanShare(srwlock) {
        return EBUSY;
      }
      srwlock := AcquireShared(srwlock);
      rc := 0;
    }

    /** Returns once the OS grants exclusive mode. */
    method WrLock() returns (rc: int)
      requires CanExclude(srwlock)
      modifies this
      ensures rc == 0 && View(Holding(Exclusive))
                         == Exec(old(View(Idle)), [Choice(0, Call.WrLock), Choice(0, Call.WrLock), Choice(0, Call.WrLock)])
    {
      ExecUnrolled(View(Idle), Choice(0, Call.WrLock));
      srwlock := Srw(0, true);
      haveExclusive := true;
      rc := 0;
    }

    method TryWrLock() returns (rc: int)
      modifies this
      ensures rc == if CanExclude(old(srwlock)) then 0 else 16
      ensures var c := Choice(0, Call.TryWrLock);
              if rc == 0 then View(Holding(Exclusive)) == Exec(old(View(Idle)), [c, c, c])
              else View(Idle) == Exec(old(View(Idle)), [c, c])
    {
      ExecUnrolled(View(Idle), Choice(0, Call.TryWrLock));
      if !CanExclude(srwlock) {
        return EBUSY;
      }
      srwlock := Srw(0, true);
      haveExclusive := true;
      rc := 0;
    }

    /** The caller holds the lock in mode m: exactly that mode is released. */
    method Unlock(ghost m: Mode) returns (rc: int)
      requires HolderSees(srwlock, haveExclusive, m)
      modifies this
      ensures rc == 0 && !haveExclusive
      ensures srwlock == if m == Exclusive then FREE else Srw(old(srwlock.readers) - 1, false)
      ensures var c := Choice(0, Call.RdLock);
              View(Idle) == Exec(old(View(Holding(m))), if m == Exclusive then [c, c, c, c] else [c, c, c])
    {
      ExecUnrolled(View(Holding(m)), Choice(0, Call.RdLock));
      if haveExclusive {
        haveExclusive := false;
        srwlock := ReleaseSRWLockExclusive(srwlock);
      } else {
        srwlock := ReleaseSRWLockShared(srwlock);
      }
      rc := 0;
    }
  }
}
