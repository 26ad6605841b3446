/** The blacklist dialog (CBlacklistDialog.cpp): a counter that must track a list control, and a kill loop
    that reads process ids back from the text of the rows. */
module Blacklist {
  import opened Words
  import opened Text
  import opened ListCtrl

  /** An entry of a process snapshot. */
  datatype Process = Process(pid: dword, exe: string)

  // ----- The process list -----

  /** The process id is printed with %d, as a signed number. */
  function ProcCells(p: Process): (cells: seq<Cell>)
    ensures |cells| == 2
  {
    [DecN(I32(p.pid)), Txt(p.exe)]
  }

  function ProcRows(procs: seq<Process>): (rows: seq<Item>)
    ensures |rows| == |procs|
    ensures forall i :: 0 <= i < |procs| ==> rows[i] == Row(ProcCells(procs[i]))
  {
    seq(|procs|, i requires 0 <= i < |procs| => Row(ProcCells(procs[i])))
  }

  // ----- The dialog as a state machine over the user's actions -----

  /** The list and its counter. */
  datatype State = State(list: seq<Item>, count: int)

  /** A double click on a row of the process list, on nothing when there is no such row; a change of a
      blacklist row's selection or check box; the removal of the marked rows. */
  datatype Event = DoubleClick(nRow: int) | Mark(row: int, selected: bool, checked: bool) | Remove

  function AddedCells(procList: seq<Item>, nRow: int): (cells: seq<Cell>)
    ensures |cells| == 2
  {
    [Txt(GetItemText(procList, nRow, 0)), Txt(GetItemText(procList, nRow, 1))]
  }

  function Marking(list: seq<Item>, row: int, selected: bool, checked: bool): seq<Item> {
    if 0 <= row < |list| then list[row := list[row].(selected := selected, checked := checked)] else list
  }

  function Step(s: State, procList: seq<Item>, e: Event): State {
    match e
    case DoubleClick(nRow) =>
      State(if s.count >= 0 then Placed(s.list, s.count, AddedCells(procList, nRow)) else s.list, s.count + 1)
    case Mark(row, selected, checked) => s.(list := Marking(s.list, row, selected, checked))
    case Remove => State(Unmarked(s.list), s.count - |MarkedRows(s.list)|)
  }

  function Run(s: State, procList: seq<Item>, events: seq<Event>): State
    decreases |events|
  {
    if events == [] then s else Run(Step(s, procList, events[0]), procList, events[1..])
  }

  predicate Tracks(s: State) { s.count == |s.list| }

  /** No action makes the counter and the list disagree. */
  lemma StepTracks(s: State, procList: seq<Item>, e: Event)
    requires Tracks(s)
    ensures Tracks(Step(s, procList, e))
  {
    SplitConserves(s.list);
    assert |multiset(s.list)| == |s.list|;
    assert |multiset(Unmarked(s.list))| == |Unmarked(s.list)| && |multiset(MarkedRows(s.list))| == |MarkedRows(s.list)|;
  }

  // ----- The same dialog without texts or counter: the process ids picked, and which are marked -----

  datatype Pick = Pick(pid: dword, marked: bool)

  function PidPicked(procs: seq<Process>, nRow: int): dword { if 0 <= nRow < |procs| then procs[nRow].pid else 0 }

  function Kept(picks: seq<Pick>): seq<Pick> {
    if picks == [] then []
    else if picks[0].marked then Kept(picks[1..])
    else [picks[0]] + Kept(picks[1..])
  }

  function PickMarking(picks: seq<Pick>, row: int, marked: bool): (r: seq<Pick>)
    ensures |r| == |picks|
  {
    if 0 <= row < |picks| then picks[row := picks[row].(marked := marked)] else picks
  }

  function PickStep(picks: seq<Pick>, procs: seq<Process>, e: Event): seq<Pick> {
    match e
    case DoubleClick(nRow) => picks + [Pick(PidPicked(procs, nRow), false)]
    case Mark(row, selected, checked) => PickMarking(picks, row, selected || checked)
    case Remove => Kept(picks)
  }

  function PickRun(picks: seq<Pick>, procs: seq<Process>, events: seq<Event>): seq<Pick>
    decreases |events|
  {
    if events == [] then picks else PickRun(PickStep(picks, procs, events[0]), procs, events[1..])
  }

  /** The process id that the kill loop reads from a row: its first text, parsed in base 10 into a DWORD. */
  function RowPid(item: Item): dword { U32(Strtol(TextOf(item, 0), 10)) }

  function Picks(list: seq<Item>): (picks: seq<Pick>)
    ensures |picks| == |list|
  {
    if list == [] then [] else Picks(list[..|list| - 1]) + [PickOf(list[|list| - 1])]
  }

  function PickOf(item: Item): Pick { Pick(RowPid(item), Marked(item)) }

  lemma {:induction false} PickAt(list: seq<Item>, j: nat)
    requires j < |list|
    ensures Picks(list)[j] == PickOf(list[j])
    decreases |list|
  {
    if j == |list| - 1 {
    } else {
      PickAt(list[..|list| - 1], j);
    }
  }

  /** A picked row gives back the process id, over the whole range of a DWORD; a double click on nothing
      adds a row that reads as process 0. */
  lemma AddedPid(procs: seq<Process>, nRow: int)
    ensures var row := Row(AddedCells(ProcRows(procs), nRow));
            && RowPid(row) == PidPicked(procs, nRow) && !Marked(row)
            && (if 0 <= nRow < |procs|
                then RowPid(row) == procs[nRow].pid && TextOf(row, 1) == procs[nRow].exe
                else RowPid(row) == 0 && TextOf(row, 0) == TextOf(row, 1) == "")
  {
    var row := Row(AddedCells(ProcRows(procs), nRow));
    assert TextOf(row, 1) == GetItemText(ProcRows(procs), nRow, 1);
    if 0 <= nRow < |procs| {
      assert TextOf(row, 0) == Dec(I32(procs[nRow].pid));
      DecRoundTrip(procs[nRow].pid);
    } else {
      assert TextOf(row, 0) == "";
      NoDigits();
    }
  }

  lemma NoDigits()
    ensures Strtol("", 10) == 0
  {
    assert Unsigned("", 10) == Parse("", 10, 0) == 0;
  }

  lemma {:induction false} KeptPicks(list: seq<Item>)
    ensures Picks(Unmarked(list)) == Kept(Picks(list))
  {
    if list == [] {
    } else {
      var first, rest := list[0], list[1..];
      KeptPicks(rest);
      FirstPick(first, rest);
      FirstPick(first, Unmarked(rest));
      assert [first] + rest == list && Picks(list)[1..] == Picks(rest);
    }
  }

  lemma FirstPick(first: Item, rest: seq<Item>)
    ensures Picks([first] + rest) == [PickOf(first)] + Picks(rest)
  {
    var list := [first] + rest;
    forall j | 0 <= j < |list| ensures Picks(list)[j] == ([PickOf(first)] + Picks(rest))[j] {
      PickAt(list, j);
      if j > 0 { PickAt(rest, j - 1); }
    }
  }

  /** Each action on rows of text is the action on process ids. */
  lemma StepRefines(s: State, procs: seq<Process>, e: Event)
    requires Tracks(s)
    ensures Picks(Step(s, ProcRows(procs), e).list) == PickStep(Picks(s.list), procs, e)
  {
    match e
    case DoubleClick(nRow) =>
      AddedPid(procs, nRow);
      assert (s.list + [Row(AddedCells(ProcRows(procs), nRow))])[..|s.list|] == s.list;
    case Mark(row, selected, checked) => MarkingKeepsPids(s.list, row, selected, checked);
    case Remove => KeptPicks(s.list);
  }

  lemma MarkingKeepsPids(list: seq<Item>, row: int, selected: bool, checked: bool)
    ensures Picks(Marking(list, row, selected, checked)) == PickMarking(Picks(list), row, selected || checked)
  {
    var changed, picks := Marking(list, row, selected, checked), PickMarking(Picks(list), row, selected || checked);
    forall j | 0 <= j < |list| ensures Picks(changed)[j] == picks[j] {
      MarkingAt(list, row, selected, checked, j);
    }
  }

  lemma MarkingAt(list: seq<Item>, row: int, selected: bool, checked: bool, j: nat)
    requires j < |list|
    ensures Picks(Marking(list, row, selected, checked))[j] == PickMarking(Picks(list), row, selected || checked)[j]
  {
    PickAt(list, j);
    PickAt(Marking(list, row, selected, checked), j);
  }

  /** Over every run the counter is the number of rows, and the rows read as the processes picked and not
      removed, in the order they were picked. */
  lemma {:induction false} RunRefines(s: State, procs: seq<Process>, events: seq<Event>)
    requires Tracks(s)
    ensures var t := Run(s, ProcRows(procs), events); Tracks(t) && Picks(t.list) == PickRun(Picks(s.list), procs, events)
    decreases |events|
  {
    if events == [] {
    } else {
      StepTracks(s, ProcRows(procs), events[0]);
      StepRefines(s, procs, events[0]);
      RunRefines(Step(s, ProcRows(procs), events[0]), procs, events[1..]);
    }
  }

  // ----- Killing -----

  /** The matches of one process among the first j rows. */
  function Hits(pid: dword, picks: seq<Pick>, j: nat): seq<dword>
    requires j <= |picks|
  {
    if j == 0 then [] else if picks[j - 1].pid == pid then Hits(pid, picks, j - 1) + [pid] else Hits(pid, picks, j - 1)
  }

  /** The terminations for the first k processes of a snapshot. */
  function Kills(snapshot: seq<Process>, k: nat, picks: seq<Pick>): seq<dword>
    requires k <= |snapshot|
  {
    if k == 0 then [] else Kills(snapshot, k - 1, picks) + Hits(snapshot[k - 1].pid, picks, |picks|)
  }

  /** Is the process among the first k of a snapshot, or on one of the first j rows? */
  predicate Running(snapshot: seq<Process>, k: nat, p: dword)
    requires k <= |snapshot|
  {
    exists i :: 0 <= i < k && snapshot[i].pid == p
  }

  predicate Listed(picks: seq<Pick>, j: nat, p: dword)
    requires j <= |picks|
  {
    exists m :: 0 <= m < j && picks[m].pid == p
  }

  lemma {:induction false} HitsExactly(pid: dword, picks: seq<Pick>, j: nat, p: dword)
    requires j <= |picks|
    ensures p in Hits(pid, picks, j) <==> p == pid && Listed(picks, j, p)
    decreases j
  {
    if j == 0 {
    } else {
      HitsExactly(pid, picks, j - 1, p);
      assert Listed(picks, j, p) <==> Listed(picks, j - 1, p) || picks[j - 1].pid == p;
    }
  }

  lemma RunningStep(snapshot: seq<Process>, k: nat, p: dword)
    requires 0 < k <= |snapshot|
    ensures Running(snapshot, k, p) <==> Running(snapshot, k - 1, p) || snapshot[k - 1].pid == p
  {
  }

  /** The kill loop terminates exactly the processes of the snapshot whose id is on the list. */
  lemma {:induction false} KillsExactly(snapshot: seq<Process>, k: nat, picks: seq<Pick>, p: dword)
    requires k <= |snapshot|
    ensures p in Kills(snapshot, k, picks) <==> Running(snapshot, k, p) && Listed(picks, |picks|, p)
    decreases k
  {
    if k == 0 {
    } else {
      KillsExactly(snapshot, k - 1, picks, p);
      HitsExactly(snapshot[k - 1].pid, picks, |picks|, p);
      RunningStep(snapshot, k, p);
    }
  }

  function Times(s: seq<dword>, p: dword): nat {
    if s == [] then 0 else Times(s[..|s| - 1], p) + if s[|s| - 1] == p then 1 else 0
  }

  // The ids of the first k processes, and of the first j rows.
  function SnapshotPids(snapshot: seq<Process>, k: nat): seq<dword>
    requires k <= |snapshot|
  {
    if k == 0 then [] else SnapshotPids(snapshot, k - 1) + [snapshot[k - 1].pid]
  }

  function PickedPids(picks: seq<Pick>, j: nat): seq<dword>
    requires j <= |picks|
  {
    if j == 0 then [] else PickedPids(picks, j - 1) + [picks[j - 1].pid]
  }

  lemma {:induction false} HitsCount(pid: dword, picks: seq<Pick>, j: nat, p: dword)
    requires j <= |picks|
    ensures Times(Hits(pid, picks, j), p) == if p == pid then Times(PickedPids(picks, j), p) else 0
    decreases j
  {
    if j == 0 {
    } else {
      HitsCount(pid, picks, j - 1, p);
    }
  }

  /** TerminateProcess is called once for each process and row that match: for an id as often as it is in the
      snapshot, times the rows that have it. */
  lemma {:induction false} KillCount(snapshot: seq<Process>, k: nat, picks: seq<Pick>, p: dword)
    requires k <= |snapshot|
    ensures Times(Kills(snapshot, k, picks), p)
            == Times(SnapshotPids(snapshot, k), p) * Times(PickedPids(picks, |picks|), p)
    decreases k
  {
    if k == 0 {
    } else {
      KillCount(snapshot, k - 1, picks, p);
      CountStep(snapshot, k, picks, p);
      OnceMore(Times(Kills(snapshot, k - 1, picks), p), Times(Kills(snapshot, k, picks), p),
               Times(SnapshotPids(snapshot, k - 1), p), Times(SnapshotPids(snapshot, k), p),
               Times(PickedPids(picks, |picks|), p), snapshot[k - 1].pid == p);
    }
  }

  lemma CountStep(snapshot: seq<Process>, k: nat, picks: seq<Pick>, p: dword)
    requires 0 < k <= |snapshot|
    ensures Times(Kills(snapshot, k, picks), p)
            == Times(Kills(snapshot, k - 1, picks), p)
               + if snapshot[k - 1].pid == p then Times(PickedPids(picks, |picks|), p) else 0
    ensures Times(SnapshotPids(snapshot, k), p)
            == Times(SnapshotPids(snapshot, k - 1), p) + if snapshot[k - 1].pid == p then 1 else 0
  {
    HitsCount(snapshot[k - 1].pid, picks, |picks|, p);
    CountAppended(Kills(snapshot, k - 1, picks), Hits(snapshot[k - 1].pid, picks, |picks|), p);
    CountAppended(SnapshotPids(snapshot, k - 1), [snapshot[k - 1].pid], p);
  }

  lemma {:induction false} CountAppended(s: seq<dword>, t: seq<dword>, p: dword)
    ensures Times(s + t, p) == Times(s, p) + Times(t, p)
    decreases |t|
  {
    if t == [] {
      assert s + t == s;
    } else {
      assert (s + t)[..|s + t| - 1] == s + t[..|t| - 1];
      CountAppended(s, t[..|t| - 1], p);
    }
  }

  lemma OnceMore(kills: nat, killsNow: nat, times: nat, timesNow: nat, rows: nat, more: bool)
    requires kills == times * rows
    requires killsNow == kills + (if more then rows else 0) && timesNow == times + if more then 1 else 0
    ensures killsNow == timesNow * rows
  {
    assert (times + 1) * rows == times * rows + rows;
  }

  /** In terms of the rows: killed are the processes of the snapshot whose id is what some row's first text reads
      as in base 10. */
  lemma KilledByRows(list: seq<Item>, snapshot: seq<Process>, p: dword)
    ensures p in Kills(snapshot, |snapshot|, Picks(list))
            <==> (exists i :: 0 <= i < |snapshot| && snapshot[i].pid == p)
                 && (exists m :: 0 <= m < |list| && U32(Strtol(TextOf(list[m], 0), 10)) == p)
  {
    KillsExactly(snapshot, |snapshot|, Picks(list), p);
    forall m | 0 <= m < |list| ensures Picks(list)[m].pid == U32(Strtol(TextOf(list[m], 0), 10)) {
      PickAt(list, m);
    }
    if m :| 0 <= m < |list| && U32(Strtol(TextOf(list[m], 0), 10)) == p {
      assert Picks(list)[m].pid == p;
    }
  }

  // What the rows of the dialog read as after a run from its opening.
  function PicksAfter(procs: seq<Process>, events: seq<Event>): seq<Pick> {
    Picks(Run(State([], 0), ProcRows(procs), events).list)
  }

  /** After any run of actions, a process of the snapshot is killed if and only if it was picked and not
      removed; process 0 stands for a double click beside the rows. */
  lemma KilledIffPicked(procs: seq<Process>, events: seq<Event>, snapshot: seq<Process>, p: dword)
    ensures p in Kills(snapshot, |snapshot|, PicksAfter(procs, events))
            <==> Running(snapshot, |snapshot|, p) && var picks := PickRun([], procs, events); Listed(picks, |picks|, p)
  {
    RunRefines(State([], 0), procs, events);
    assert Picks([]) == [];
    KillsExactly(snapshot, |snapshot|, PickRun([], procs, events), p);
  }

  lemma {:induction false} RunThen(s: State, procList: seq<Item>, events: seq<Event>, e: Event)
    ensures Run(s, procList, events + [e]) == Step(Run(s, procList, events), procList, e)
    decreases |events|
  {
    if events == [] {
    } else {
      assert (events + [e])[0] == events[0] && (events + [e])[1..] == events[1..] + [e];
      RunThen(Step(s, procList, events[0]), procList, events[1..], e);
    }
  }

  /** Whatever was done before, a double click on a running process puts it on the list: it is killed. */
  lemma PickedIsKilled(procs: seq<Process>, events: seq<Event>, nRow: nat, snapshot: seq<Process>, i: nat)
    requires nRow < |procs| && i < |snapshot| && snapshot[i].pid == procs[nRow].pid
    ensures procs[nRow].pid in Kills(snapshot, |snapshot|, PicksAfter(procs, events + [DoubleClick(nRow)]))
  {
    var s := Run(State([], 0), ProcRows(procs), events);
    RunRefines(State([], 0), procs, events);
    RunThen(State([], 0), ProcRows(procs), events, DoubleClick(nRow));
    AddedPid(procs, nRow);
    var list := s.list + [Row(AddedCells(ProcRows(procs), nRow))];
    assert Step(s, ProcRows(procs), DoubleClick(nRow)).list == list;
    assert RowPid(list[|s.list|]) == procs[nRow].pid;
    KilledByRows(list, snapshot, procs[nRow].pid);
  }

  class BlacklistDialog {
    var blackListCount: int
    var objBlacklist: seq<Item>
    var objProcList: seq<Item>

    constructor ()
      ensures blackListCount == 0 && objBlacklist == [] && objProcList == []
    {
      blackListCount, objBlacklist, objProcList := 0, [], [];
    }

    ghost function Shown(): State
      reads this
    {
      State(objBlacklist, blackListCount)
    }

    /** Fills the new, empty process list from a snapshot. */
    method BLProcess(snapshot: seq<Process>)
      requires objProcList == []
      modifies this`objProcList
      ensures objProcList == ProcRows(snapshot)
      ensures |objProcList| == |snapshot|
      ensures forall i :: 0 <= i < |snapshot| ==>
                objProcList[i] == Item([DecN(I32(snapshot[i].pid)), Txt(snapshot[i].exe)], false, false)
    {
      var i := 0;
      while i < |snapshot|
        invariant 0 <= i <= |snapshot| && objProcList == ProcRows(snapshot[..i])
      {
        objProcList := PutRow(objProcList, i, [DecN(I32(snapshot[i].pid)), Txt(snapshot[i].exe)]);
        i := i + 1;
      }
      assert snapshot[..i] == snapshot;
    }

    method OnDblclkList2(nRow: int)
      requires Tracks(Shown())
      modifies this`blackListCount, this`objBlacklist
      ensures Shown() == Step(old(Shown()), objProcList, DoubleClick(nRow)) && Tracks(Shown())
      ensures objBlacklist == old(objBlacklist)
                + [Item([Txt(GetItemText(objProcList, nRow, 0)), Txt(GetItemText(objProcList, nRow, 1))], false, false)]
      ensures blackListCount == old(blackListCount) + 1
    {
      var strPID := GetItemText(objProcList, nRow, 0);
      var strProcName := GetItemText(objProcList, nRow, 1);
      objBlacklist := PutRow(objBlacklist, blackListCount, [Txt(strPID), Txt(strProcName)]);
      blackListCount := blackListCount + 1;
    }

    /** Removes the marked rows, working up from the last. */
    method OnBnClickedButton2()
      requires Tracks(Shown())
      modifies this`blackListCount, this`objBlacklist
      ensures Shown() == Step(old(Shown()), objProcList, Remove) && Tracks(Shown())
      ensures objBlacklist == Unmarked(old(objBlacklist)) && blackListCount == |objBlacklist|
    {
      ghost var was, start := objBlacklist, Shown();
      var i := |objBlacklist|;
      RemoveEnds(was);
      while i > 0
        invariant 0 <= i <= |was| && objBlacklist == Remaining(was, i) && blackListCount == |was| - |Removed(was, i)|
      {
        RemoveStep(was, i);
        if Marked(objBlacklist[i - 1]) {
          objBlacklist := DeleteItem(objBlacklist, i - 1);
          blackListCount := blackListCount - 1;
        }
        i := i - 1;
      }
      StepTracks(start, objProcList, Remove);
    }

    /** The process ids passed to TerminateProcess, in order. */
    method OnBnClickedButton3(snapshot: seq<Process>) returns (killed: seq<dword>)
      requires Tracks(Shown())
      ensures killed == Kills(snapshot, |snapshot|, Picks(objBlacklist))
    {
      ghost var picks := Picks(objBlacklist);
      killed := [];
      var k := 0;
      while k < |snapshot|
        invariant 0 <= k <= |snapshot| && killed == Kills(snapshot, k, picks)
      {
        var hits := KillMatching(snapshot[k].pid);
        killed := killed + hits;
        k := k + 1;
      }
    }

    // The loop over the rows.
    method KillMatching(pid: dword) returns (hits: seq<dword>)
      requires Tracks(Shown())
      ensures hits == Hits(pid, Picks(objBlacklist), |objBlacklist|)
    {
      ghost var picks := Picks(objBlacklist);
      hits := [];
      var j := 0;
      while j < blackListCount
        invariant 0 <= j <= blackListCount && hits == Hits(pid, picks, j)
      {
        var dwPID := ReadPid(j);
        if pid == dwPID {
          hits := hits + [dwPID];
        }
        j := j + 1;
      }
    }

    method ReadPid(j: nat) returns (dwPID: dword)
      requires j < |objBlacklist|
      ensures dwPID == Picks(objBlacklist)[j].pid
    {
      PickAt(objBlacklist, j);
      dwPID := U32(Strtol(GetItemText(objBlacklist, j, 0), 10));
    }
  }
}
