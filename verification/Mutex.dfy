/** The Win32 mutex wrapper (thr_mutex.h): a critical section is recursive, but trylock must not be. */
module Mutex {
  type Tid = nat

  const EBUSY := 16

  /** The OS object: its owner and RecursionCount. Leaving it as a stranger is undefined: Broken. */
  datatype Cs = Free | Held(owner: Tid, depth: nat) | Broken

  predicate MayEnter(c: Cs, t: Tid) { c.Free? || (c.Held? && c.owner == t) }

  function Enter(c: Cs, t: Tid): Cs
    requires MayEnter(c, t)
  {
    Held(t, RecursionCount(c) + 1)
  }

  function Leave(c: Cs, t: Tid): Cs {
    if !c.Held? || c.owner != t || c.depth == 0 then Broken
    else if c.depth == 1 then Free
    else c.(depth := c.depth - 1)
  }

  function RecursionCount(c: Cs): nat { if c.Held? then c.depth else 0 }

  // ----- The protocol: each access to the critical section is a step -----

  datatype Call = Lock | TryLock | Unlock

  /** held counts the lock and trylock calls that returned 0 and are not yet undone by an unlock. */
  datatype Pc =
    | Outside(held: nat)
    | InLock(held: nat)      // at EnterCriticalSection
    | InTry(held: nat)       // at TryEnterCriticalSection
    | TestDepth(held: nat)   // entered, about to read RecursionCount
    | UndoEnter(held: nat)   // read more than 1, about to leave again
    | InUnlock(held: nat)    // at LeaveCriticalSection

  datatype State = State(cs: Cs, pcs: map<Tid, Pc>)

  datatype Choice = Choice(tid: Tid, call: Call)

  function Init(tids: set<Tid>): State { State(Free, map t | t in tids :: Outside(0)) }

  /** What a step of thread t does to the critical section and to t. A thread unlocks only what it holds. */
  datatype Local = Local(cs: Cs, pc: Pc)

  function Move(l: Local, t: Tid, call: Call): Local {
    var h := l.pc.held;
    match l.pc
    case Outside(_) =>
      if call == Unlock && h == 0 then l
      else l.(pc := match call case Lock => InLock(h) case TryLock => InTry(h) case Unlock => InUnlock(h))
    case InLock(_) => if MayEnter(l.cs, t) then Local(Enter(l.cs, t), Outside(h + 1)) else l
    case InTry(_) => if MayEnter(l.cs, t) then Local(Enter(l.cs, t), TestDepth(h)) else l.(pc := Outside(h))
    case TestDepth(_) => l.(pc := if RecursionCount(l.cs) > 1 then UndoEnter(h) else Outside(h + 1))
    case UndoEnter(_) => Local(Leave(l.cs, t), Outside(h))
    case InUnlock(_) => Local(Leave(l.cs, t), Outside(if h > 0 then h - 1 else 0))
  }

  function Step(s: State, c: Choice): State {
    if c.tid !in s.pcs then s
    else var l := Move(Local(s.cs, s.pcs[c.tid]), c.tid, c.call); State(l.cs, s.pcs[c.tid := l.pc])
  }

  function Exec(s: State, schedule: seq<Choice>): State
    decreases |schedule|
  {
    if schedule == [] then s else Exec(Step(s, schedule[0]), schedule[1..])
  }

  /** How often a thread has entered: its holds, and the entry of a trylock still being decided. */
  function Entered(pc: Pc): nat { if pc.TestDepth? || pc.UndoEnter? then pc.held + 1 else pc.held }

  /** How often the critical section counts a thread in. */
  function DepthOf(cs: Cs, t: Tid): nat { if cs.Held? && cs.owner == t then cs.depth else 0 }

  predicate Fits(cs: Cs, t: Tid, pc: Pc) {
    Entered(pc) == DepthOf(cs, t) && (pc.UndoEnter? || pc.InUnlock? ==> pc.held > 0)
  }

  predicate Inv(s: State) {
    && !s.cs.Broken?
    && (s.cs.Held? ==> s.cs.owner in s.pcs && s.cs.depth > 0)
    && forall t :: t in s.pcs ==> Fits(s.cs, t, s.pcs[t])
  }

  lemma MoveFits(l: Local, t: Tid, call: Call)
    requires !l.cs.Broken? && (l.cs.Held? ==> l.cs.depth > 0) && Fits(l.cs, t, l.pc)
    ensures var l' := Move(l, t, call);
            && !l'.cs.Broken? && (l'.cs.Held? ==> l'.cs.depth > 0) && Fits(l'.cs, t, l'.pc)
            && forall u :: u != t ==> DepthOf(l'.cs, u) == DepthOf(l.cs, u)
    ensures Move(l, t, call).cs.Held? ==> Move(l, t, call).cs.owner == t || Move(l, t, call).cs == l.cs
  {
  }

  lemma StepKeepsInv(s: State, c: Choice)
    requires Inv(s)
    ensures Inv(Step(s, c))
  {
    if c.tid in s.pcs {
      MoveFits(Local(s.cs, s.pcs[c.tid]), c.tid, c.call);
    }
  }

  lemma {:induction false} RunKeepsInv(s: State, schedule: seq<Choice>)
    requires Inv(s)
    ensures Inv(Exec(s, schedule))
    decreases |schedule|
  {
    if schedule == [] {
    } else {
      StepKeepsInv(s, schedule[0]);
      RunKeepsInv(Step(s, schedule[0]), schedule[1..]);
    }
  }

  /** Over every run: the critical section is never left by a stranger, at most one thread holds it, the
      owner's recursion depth is the number of its own holds plus a trylock in progress, and the mutex is
      free exactly when nobody has entered. */
  lemma HoldsOverEveryRun(tids: set<Tid>, schedule: seq<Choice>)
    ensures var s := Exec(Init(tids), schedule);
            && !s.cs.Broken?
            && (forall t, u :: t in s.pcs && u in s.pcs && Entered(s.pcs[t]) > 0 && Entered(s.pcs[u]) > 0 ==> t == u)
            && (forall t :: t in s.pcs && Entered(s.pcs[t]) > 0 ==> s.cs == Held(t, Entered(s.pcs[t])))
            && (s.cs == Free <==> forall t :: t in s.pcs ==> Entered(s.pcs[t]) == 0)
  {
    RunKeepsInv(Init(tids), schedule);
    var s := Exec(Init(tids), schedule);
    if s.cs.Held? {
      assert Entered(s.pcs[s.cs.owner]) > 0;
    }
  }

  // ----- What a trylock does, whatever the other threads do meanwhile -----

  predicate Others(schedule: seq<Choice>, t: Tid) { forall k :: 0 <= k < |schedule| ==> schedule[k].tid != t }

  /** While t is the owner, no step of other threads touches the critical section or t. */
  lemma {:induction false} OwnerUndisturbed(s: State, schedule: seq<Choice>, t: Tid)
    requires Inv(s) && Others(schedule, t) && s.cs.Held? && s.cs.owner == t && t in s.pcs
    ensures var s' := Exec(s, schedule); Inv(s') && s'.cs == s.cs && t in s'.pcs && s'.pcs[t] == s.pcs[t]
    decreases |schedule|
  {
    if schedule == [] {
    } else {
      StepKeepsInv(s, schedule[0]);
      assert Step(s, schedule[0]).cs == s.cs;
      OwnerUndisturbed(Step(s, schedule[0]), schedule[1..], t);
    }
  }

  /** A trylock in any reachable state, its two or three steps interleaved with anything others do.
      From a free mutex it returns 0 and the depth is 1. Against another owner it returns EBUSY in one
      step that changes nothing. Against the caller itself, at any depth, it returns EBUSY and owner and
      depth are those from before the call. So 0 comes only from a free mutex. */
  lemma TryLockOutcome(tids: set<Tid>, before: seq<Choice>, t: Tid, call: Call, meanwhile: seq<Choice>,
      later: seq<Choice>)
    requires var s := Exec(Init(tids), before); t in s.pcs && s.pcs[t].InTry?
    requires Others(meanwhile, t) && Others(later, t)
    ensures var s := Exec(Init(tids), before);
            var h := s.pcs[t].held;
            var a := Step(s, Choice(t, call));
            var b := Step(Exec(a, meanwhile), Choice(t, call));
            var c := Step(Exec(b, later), Choice(t, call));
            match s.cs
            case Free => h == 0 && t in b.pcs && b.pcs[t] == Outside(1) && b.cs == Held(t, 1)
            case Held(o, d) =>
              if o != t then a == s.(pcs := s.pcs[t := Outside(h)])
              else h == d && t in b.pcs && b.pcs[t] == UndoEnter(h)
                   && t in c.pcs && c.pcs[t] == Outside(h) && c.cs == s.cs
            case Broken => false
  {
    var s := Exec(Init(tids), before);
    RunKeepsInv(Init(tids), before);
    assert Fits(s.cs, t, s.pcs[t]);
    if MayEnter(s.cs, t) {
      var a := Step(s, Choice(t, call));
      var b := Step(Exec(a, meanwhile), Choice(t, call));
      TryEnters(s, t, call, meanwhile);
      if b.pcs[t].UndoEnter? { TryUndoes(b, t, call, later); }
    }
  }

  lemma TryEnters(s: State, t: Tid, call: Call, meanwhile: seq<Choice>)
    requires Inv(s) && t in s.pcs && s.pcs[t].InTry? && MayEnter(s.cs, t) && Others(meanwhile, t)
    ensures var h := s.pcs[t].held;
            var b := Step(Exec(Step(s, Choice(t, call)), meanwhile), Choice(t, call));
            && Inv(b) && b.cs == Held(t, h + 1) && t in b.pcs
            && b.pcs[t] == (if h > 0 then UndoEnter(h) else Outside(1)) && h == DepthOf(s.cs, t)
  {
    var a := Step(s, Choice(t, call));
    StepKeepsInv(s, Choice(t, call));
    OwnerUndisturbed(a, meanwhile, t);
    StepKeepsInv(Exec(a, meanwhile), Choice(t, call));
  }

  lemma TryUndoes(b: State, t: Tid, call: Call, later: seq<Choice>)
    requires Inv(b) && t in b.pcs && b.pcs[t].UndoEnter? && Others(later, t)
    requires b.cs == Held(t, b.pcs[t].held + 1)
    ensures var c := Step(Exec(b, later), Choice(t, call));
            t in c.pcs && c.pcs[t] == Outside(b.pcs[t].held) && c.cs == Held(t, b.pcs[t].held)
  {
    OwnerUndisturbed(b, later, t);
  }

  // ----- What a lock and an unlock do -----

  /** A lock waits exactly while another thread owns the mutex; otherwise it leaves the caller one level deeper
      than its earlier holds. */
  lemma LockOutcome(tids: set<Tid>, before: seq<Choice>, t: Tid, call: Call)
    requires var s := Exec(Init(tids), before); t in s.pcs && s.pcs[t].InLock?
    ensures var s := Exec(Init(tids), before);
            var h, a := s.pcs[t].held, Step(s, Choice(t, call));
            if s.cs.Held? && s.cs.owner != t then a == s
            else t in a.pcs && a.pcs[t] == Outside(h + 1) && a.cs == Held(t, h + 1)
  {
    var s := Exec(Init(tids), before);
    RunKeepsInv(Init(tids), before);
    assert Fits(s.cs, t, s.pcs[t]);
    assert s.pcs[t := s.pcs[t]] == s.pcs;
  }

  /** An unlock undoes one hold and frees the mutex with the last. */
  lemma UnlockOutcome(tids: set<Tid>, before: seq<Choice>, t: Tid, call: Call)
    requires var s := Exec(Init(tids), before); t in s.pcs && s.pcs[t].InUnlock?
    ensures var s := Exec(Init(tids), before);
            var h, a := s.pcs[t].held, Step(s, Choice(t, call));
            && h > 0 && s.cs == Held(t, h)
            && t in a.pcs && a.pcs[t] == Outside(h - 1) && a.cs == if h == 1 then Free else Held(t, h - 1)
  {
    var s := Exec(Init(tids), before);
    RunKeepsInv(Init(tids), before);
    assert Fits(s.cs, t, s.pcs[t]);
  }

  // ----- The header's functions on the struct, each one run of the protocol by an undisturbed thread -----

  lemma ExecThen(s: State, c: Choice, rest: seq<Choice>)
    ensures Exec(s, [c] + rest) == Exec(Step(s, c), rest)
    ensures Exec(s, [c]) == Step(s, c)
  {
    assert ([c] + rest)[1..] == rest && [c][1..] == [];
  }

  lemma ExecUnrolled(s: State, c: Choice)
    ensures Exec(s, [c, c]) == Step(Step(s, c), c)
    ensures Exec(s, [c, c, c]) == Step(Step(Step(s, c), c), c)
    ensures Exec(s, [c, c, c, c]) == Step(Step(Step(Step(s, c), c), c), c)
  {
    assert [c, c] == [c] + [c] && [c, c, c] == [c] + [c, c] && [c, c, c, c] == [c] + [c, c, c];
    var s1 := Step(s, c);
    var s2 := Step(s1, c);
    ExecThen(s, c, [c]); ExecThen(s, c, [c, c]); ExecThen(s, c, [c, c, c]);
    ExecThen(s1, c, [c]); ExecThen(s1, c, [c, c]);
    ExecThen(s2, c, [c]);
  }

  /** The protocol with one thread t at pc. */
  function Alone(cs: Cs, t: Tid, pc: Pc): State { State(cs, map[t := pc]) }

  lemma AloneSteps(cs: Cs, t: Tid, pc: Pc, call: Call)
    ensures var l := Move(Local(cs, pc), t, call); Step(Alone(cs, t, pc), Choice(t, call)) == Alone(l.cs, t, l.pc)
  {
    assert map[t := pc][t := Move(Local(cs, pc), t, call).pc] == map[t := Move(Local(cs, pc), t, call).pc];
  }

  class NativeMutex {
    var cs: Cs

    constructor ()
      ensures cs == Free
    {
      cs := Free;
    }

    /** The struct, seen by a thread t that holds it h times, between calls. */
    ghost function View(t: Tid, h: nat): State
      reads this
    {
      Alone(cs, t, Outside(h))
    }

    /** Returns once the caller may enter; the owner may again. */
    method Lock(t: Tid, ghost h: nat) returns (rc: int)
      requires MayEnter(cs, t)
      modifies this
      ensures rc == 0 && cs == Held(t, RecursionCount(old(cs)) + 1)
      ensures var c := Choice(t, Call.Lock); View(t, h + 1) == Exec(old(View(t, h)), [c, c])
    {
      ExecUnrolled(View(t, h), Choice(t, Call.Lock));
      AloneSteps(cs, t, Outside(h), Call.Lock);
      AloneSteps(cs, t, InLock(h), Call.Lock);
      cs := Enter(cs, t);
      rc := 0;
    }

    /** 0 only from a free mutex; any other answer leaves the mutex as it was. */
    method TryLock(t: Tid, ghost h: nat) returns (rc: int)
      requires cs.Free? || (cs.Held? && cs.depth > 0)
      modifies this
      ensures rc == 0 <==> old(cs) == Free
      ensures rc == 0 ==> cs == Held(t, 1)
      ensures rc != 0 ==> rc == 16 && cs == old(cs)
      ensures var c := Choice(t, Call.TryLock);
              View(t, if rc == 0 then h + 1 else h)
              == Exec(old(View(t, h)), if old(cs).Free? then [c, c, c] else if old(cs).owner == t then [c, c, c, c] else [c, c])
    {
      TrySteps(cs, t, h);
      if MayEnter(cs, t) {
        cs := Enter(cs, t);
        if RecursionCount(cs) > 1 {
          cs := Leave(cs, t);
          return EBUSY;
        }
        return 0;
      }
      rc := EBUSY;
    }

    method Unlock(t: Tid, ghost h: nat) returns (rc: int)
      requires cs.Held? && cs.owner == t && cs.depth > 0 && h > 0
      modifies this
      ensures rc == 0 && cs == if old(cs).depth == 1 then Free else Held(t, old(cs).depth - 1)
      ensures var c := Choice(t, Call.Unlock); View(t, h - 1) == Exec(old(View(t, h)), [c, c])
    {
      ExecUnrolled(View(t, h), Choice(t, Call.Unlock));
      AloneSteps(cs, t, Outside(h), Call.Unlock);
      AloneSteps(cs, t, InUnlock(h), Call.Unlock);
      cs := Leave(cs, t);
      rc := 0;
    }
  }

  lemma TrySteps(cs: Cs, t: Tid, h: nat)
    requires cs.Free? || (cs.Held? && cs.depth > 0)
    ensures var s, c := Alone(cs, t, Outside(h)), Choice(t, TryLock);
            if cs.Free? then Exec(s, [c, c, c]) == Alone(Held(t, 1), t, Outside(h + 1))
            else if cs.owner == t then Exec(s, [c, c, c, c]) == s
            else Exec(s, [c, c]) == s
  {
    ExecUnrolled(Alone(cs, t, Outside(h)), Choice(t, TryLock));
    AloneSteps(cs, t, Outside(h), TryLock);
    AloneSteps(cs, t, InTry(h), TryLock);
    if MayEnter(cs, t) {
      var entered := Enter(cs, t);
      AloneSteps(entered, t, TestDepth(h), TryLock);
      AloneSteps(entered, t, UndoEnter(h), TryLock);
    }
  }
}
