/** The build-output cleaner (CVSCleanerDialog.cpp): the splitter of the suffix text, the recursive walk
    that fills one shared list at an index of each call's own, and the deletion of the marked rows. */
module VsCleaner {
  import opened Text
  import opened ListCtrl

  // ----- Text search -----

  predicate OccursAt(s: string, sub: string, k: nat) { k + |sub| <= |s| && s[k..k + |sub|] == sub }

  /** CString::Find: the first occurrence, or -1. An empty text occurs at once. */
  function FindFrom(s: string, sub: string, i: nat): (k: int)
    ensures k == -1 || (i <= k && OccursAt(s, sub, k) && forall j: nat :: i <= j < k ==> !OccursAt(s, sub, j))
    ensures k == -1 ==> forall j: nat :: i <= j ==> !OccursAt(s, sub, j)
    decreases |s| - i
  {
    if i + |sub| > |s| then -1 else if OccursAt(s, sub, i) then i else FindFrom(s, sub, i + 1)
  }

  function Find(s: string, sub: string): int { FindFrom(s, sub, 0) }

  // ----- The suffix text: suffixes, each ended by a backslash -----

  const SEPARATOR := "\\"

  /** The suffixes, and the text after the last backslash. */
  datatype Suffixes = Suffixes(tokens: seq<string>, leftover: string)

  function Split(s: string): Suffixes
    decreases |s|
  {
    var k := Find(s, SEPARATOR);
    if k == -1 then Suffixes([], s)
    else var rest := Split(s[k + 1..]); Suffixes([s[..k]] + rest.tokens, rest.leftover)
  }

  function Joined(x: Suffixes): string
    decreases |x.tokens|
  {
    if x.tokens == [] then x.leftover
    else x.tokens[0] + SEPARATOR + Joined(Suffixes(x.tokens[1..], x.leftover))
  }

  predicate Plain(s: string) { '\\' !in s }

  predicate AllPlain(x: Suffixes) { Plain(x.leftover) && forall i :: 0 <= i < |x.tokens| ==> Plain(x.tokens[i]) }

  lemma FirstSeparator(s: string)
    ensures var k := Find(s, SEPARATOR);
            && (k == -1 ==> Plain(s))
            && (k != -1 ==> k < |s| && Plain(s[..k]) && s == s[..k] + SEPARATOR + s[k + 1..])
  {
    var k := Find(s, SEPARATOR);
    forall j | 0 <= j < (if k == -1 then |s| else k) ensures s[j] != '\\' {
      assert !OccursAt(s, SEPARATOR, j);
    }
  }

  /** Nothing of the text is lost, and no part of the result holds a backslash. */
  lemma {:induction false} JoinedSplit(s: string)
    ensures Joined(Split(s)) == s && AllPlain(Split(s))
    decreases |s|
  {
    FirstSeparator(s);
    var k := Find(s, SEPARATOR);
    if k != -1 {
      JoinedSplit(s[k + 1..]);
      var x, rest := Split(s), Split(s[k + 1..]);
      assert x.tokens[1..] == rest.tokens;
    }
  }

  // A text without backslashes, a backslash, and more: the first backslash is that one.
  lemma SeparatorBehind(t: string, more: string)
    requires Plain(t)
    ensures var s := t + SEPARATOR + more;
            Find(s, SEPARATOR) == |t| && s[..|t|] == t && s[|t| + 1..] == more
  {
    var s := t + SEPARATOR + more;
    FirstSeparator(s);
    assert OccursAt(s, SEPARATOR, |t|);
    assert forall j :: 0 <= j < |t| ==> s[j] == t[j];
    assert Find(s, SEPARATOR) == |t|;
  }

  lemma SplitPlain(s: string)
    requires Plain(s)
    ensures Split(s) == Suffixes([], s)
  {
    FirstSeparator(s);
  }

  /** A printed list of suffixes without backslashes is read back as it was; so splitting and joining are
      inverse to each other. */
  lemma {:induction false} SplitJoined(x: Suffixes)
    requires AllPlain(x)
    ensures Split(Joined(x)) == x
    decreases |x.tokens|
  {
    if x.tokens == [] {
      SplitPlain(x.leftover);
    } else {
      var t, rest := x.tokens[0], Suffixes(x.tokens[1..], x.leftover);
      SeparatorBehind(t, Joined(rest));
      SplitJoined(rest);
    }
  }

  // The result when the tokens are split off and s is still to be split.
  function Onward(tokens: seq<string>, s: string): Suffixes { Suffixes(tokens + Split(s).tokens, Split(s).leftover) }

  lemma SplitStep(tokens: seq<string>, s: string)
    requires Find(s, SEPARATOR) != -1
    ensures var k := Find(s, SEPARATOR);
            k + 1 <= |s| && Onward(tokens, s) == Onward(tokens + [s[..k]], s[k + 1..])
  {
    var k := Find(s, SEPARATOR);
    assert tokens + ([s[..k]] + Split(s[k + 1..]).tokens) == tokens + [s[..k]] + Split(s[k + 1..]).tokens;
  }

  // ----- Directory trees -----

  /** What FindFirstFile and FindNextFile report of a directory entry. A directory whose listing is empty is
      one that FindFirstFile cannot list. */
  datatype Entry =
    | File(name: string, hidden: bool)
    | Dir(name: string, hidden: bool, listing: seq<Entry>)

  predicate Skipped(e: Entry) { e.name == "." || e.name == ".." || e.hidden }

  predicate Matches(name: string, tokens: seq<string>) { exists j :: 0 <= j < |tokens| && Find(name, tokens[j]) != -1 }

  function Below(path: string, name: string): string { path + "\\" + name }

  function FileCells(path: string, name: string): (cells: seq<Cell>)
    ensures |cells| == 2
  {
    [Txt(name), Txt(Below(path, name))]
  }

  // ----- The walk, entry by entry -----

  /** The shared list, the index of one call, and the number of warnings shown. */
  datatype Progress = Progress(list: seq<Item>, i: nat, warnings: nat)

  function Walk(p: Progress, path: string, listing: seq<Entry>, tokens: seq<string>): Progress
    decreases listing, |listing| + 1
  {
    if listing == [] then p.(warnings := p.warnings + 1)
    else WalkEntries(p.(i := 0), path, listing, |listing|, tokens).(i := p.i)
  }

  function WalkEntries(p: Progress, path: string, listing: seq<Entry>, n: nat, tokens: seq<string>): Progress
    requires n <= |listing|
    decreases listing, n
  {
    if n == 0 then p else WalkEntry(WalkEntries(p, path, listing, n - 1, tokens), path, listing[n - 1], tokens)
  }

  function WalkEntry(p: Progress, path: string, e: Entry, tokens: seq<string>): Progress
    decreases e
  {
    if Skipped(e) then p
    else if e.Dir? then Walk(p, Below(path, e.name), e.listing, tokens)
    else if Matches(e.name, tokens) then p.(list := Placed(p.list, p.i, FileCells(path, e.name)), i := p.i + 1)
    else p
  }

  // ----- The reference -----

  /** The rows of the first n entries: one for each matching file that is not hidden, here or below a
      directory that is not hidden. */
  function Expected(path: string, listing: seq<Entry>, n: nat, tokens: seq<string>): seq<Item>
    requires n <= |listing|
    decreases listing, n
  {
    if n == 0 then [] else Expected(path, listing, n - 1, tokens) + RowsOf(path, listing[n - 1], tokens)
  }

  function RowsOf(path: string, e: Entry, tokens: seq<string>): seq<Item>
    decreases e
  {
    if Skipped(e) then []
    else if e.Dir? then Expected(Below(path, e.name), e.listing, |e.listing|, tokens)
    else if Matches(e.name, tokens) then [Row(FileCells(path, e.name))]
    else []
  }

  /** How many directories reached on the way cannot be listed. */
  function Unlisted(listing: seq<Entry>, n: nat): nat
    requires n <= |listing|
    decreases listing, n
  {
    if n == 0 then 0 else Unlisted(listing, n - 1) + UnlistedOf(listing[n - 1])
  }

  function UnlistedOf(e: Entry): nat
    decreases e
  {
    if Skipped(e) || e.File? then 0 else if e.listing == [] then 1 else Unlisted(e.listing, |e.listing|)
  }

  /** A name matches when it holds some suffix text anywhere, not only at its end. */
  lemma MatchesAnywhere(name: string, tokens: seq<string>)
    ensures Matches(name, tokens) <==> exists j, before, after :: 0 <= j < |tokens| && name == before + tokens[j] + after
  {
    if j, before, after :| 0 <= j < |tokens| && name == before + tokens[j] + after {
      OccursBetween(before, tokens[j], after);
    }
    if j :| 0 <= j < |tokens| && Find(name, tokens[j]) != -1 {
      var k := Find(name, tokens[j]);
      assert name == name[..k] + tokens[j] + name[k + |tokens[j]|..];
    }
  }

  lemma OccursBetween(before: string, token: string, after: string)
    ensures Find(before + token + after, token) != -1
  {
    var name := before + token + after;
    assert name[|before|..|before| + |token|] == token;
    assert OccursAt(name, token, |before|);
  }

  /** The walk adds exactly the expected rows to the list and loses none, although nested calls insert at
      indices of their own: no index ever passes the end of the list, where a row would come in empty. */
  lemma {:induction false} EntriesConserve(p: Progress, path: string, listing: seq<Entry>, n: nat, tokens: seq<string>)
    requires n <= |listing| && p.i <= |p.list|
    ensures var q := WalkEntries(p, path, listing, n, tokens);
            && q.i <= |q.list| && q.warnings == p.warnings + Unlisted(listing, n)
            && multiset(q.list) == multiset(p.list) + multiset(Expected(path, listing, n, tokens))
    decreases listing, n
  {
    if n == 0 {
    } else {
      EntriesConserve(p, path, listing, n - 1, tokens);
      EntryConserves(WalkEntries(p, path, listing, n - 1, tokens), path, listing[n - 1], tokens);
    }
  }

  lemma {:induction false} EntryConserves(p: Progress, path: string, e: Entry, tokens: seq<string>)
    requires p.i <= |p.list|
    ensures var q := WalkEntry(p, path, e, tokens);
            && q.i <= |q.list| && q.warnings == p.warnings + UnlistedOf(e)
            && multiset(q.list) == multiset(p.list) + multiset(RowsOf(path, e, tokens))
    decreases e
  {
    if !Skipped(e) {
      if e.Dir? {
        WalkConserves(p, Below(path, e.name), e.listing, tokens);
      } else if Matches(e.name, tokens) {
        PlacedConserves(p.list, p.i, FileCells(path, e.name));
      }
    }
  }

  lemma {:induction false} WalkConserves(p: Progress, path: string, listing: seq<Entry>, tokens: seq<string>)
    requires p.i <= |p.list|
    ensures var q := Walk(p, path, listing, tokens);
            && q.i == p.i && |q.list| >= |p.list|
            && q.warnings == p.warnings + (if listing == [] then 1 else Unlisted(listing, |listing|))
            && multiset(q.list) == multiset(p.list) + multiset(Expected(path, listing, |listing|, tokens))
    decreases listing, |listing| + 1
  {
    if listing == [] {
    } else {
      EntriesConserve(p.(i := 0), path, listing, |listing|, tokens);
    }
    var q := Walk(p, path, listing, tokens);
    assert |q.list| == |multiset(q.list)| && |p.list| == |multiset(p.list)|;
  }

  // ----- Deleting -----

  /** The paths of the rows, last row first. */
  function PathsBackward(rows: seq<Item>): seq<string> {
    if rows == [] then [] else PathsBackward(rows[1..]) + [TextOf(rows[0], 1)]
  }

  lemma PathsStep(row: Item, rows: seq<Item>)
    ensures PathsBackward([row] + rows) == PathsBackward(rows) + [TextOf(row, 1)]
  {
    assert ([row] + rows)[1..] == rows;
  }

  class VsCleanerDialog {
    var postfixVt: seq<string>
    var strPostfix: string
    var objDelOptList: seq<Item>
    var warnings: nat // message boxes shown

    constructor ()
      ensures postfixVt == [] && strPostfix == "" && objDelOptList == [] && warnings == 0
    {
      postfixVt, strPostfix, objDelOptList, warnings := [], "", [], 0;
    }

    /** Reads the suffixes from the edit box. */
    method OnBnClickedButton6(editText: string)
      modifies this`postfixVt, this`strPostfix
      ensures Suffixes(postfixVt, strPostfix) == Split(editText)
    {
      strPostfix := editText;
      postfixVt := [];
      var index := Find(strPostfix, "\\");
      while index != -1
        invariant index == Find(strPostfix, SEPARATOR)
        invariant Onward(postfixVt, strPostfix) == Split(editText)
        decreases |strPostfix|
      {
        SplitStep(postfixVt, strPostfix);
        var tmpStr := strPostfix[..index];
        postfixVt := postfixVt + [tmpStr];
        strPostfix := strPostfix[index + 1..];
        index := Find(strPostfix, "\\");
      }
    }

    ghost function State(i: nat): Progress
      reads this
    {
      Progress(objDelOptList, i, warnings)
    }

    /** Scans the chosen folder into the emptied list. */
    method OnBnClickedButton3(strProjPath: string, listing: seq<Entry>)
      modifies this`objDelOptList, this`warnings
      ensures State(0) == Walk(Progress([], 0, old(warnings)), strProjPath, listing, postfixVt)
      ensures multiset(objDelOptList) == multiset(Expected(strProjPath, listing, |listing|, postfixVt))
    {
      objDelOptList := [];
      WalkConserves(State(0), strProjPath, listing, postfixVt);
      EnumFilesPostfix(strProjPath, listing, 0);
    }

    /** The recursive walk; its index starts at 0 in every call, and the caller's index is not touched. */
    method EnumFilesPostfix(szPath: string, listing: seq<Entry>, ghost callerIndex: nat)
      modifies this`objDelOptList, this`warnings
      ensures State(callerIndex) == Walk(old(State(callerIndex)), szPath, listing, postfixVt)
      decreases listing
    {
      if listing == [] {
        warnings := warnings + 1;
        return;
      }
      ghost var start := State(0);
      var i, k := 0, 0;
      while k < |listing|
        invariant 0 <= k <= |listing| && State(i) == WalkEntries(start, szPath, listing, k, postfixVt)
      {
        var fd := listing[k];
        k := k + 1;
        if fd.name == "." || fd.name == ".." {
          continue;
        }
        if fd.hidden {
          continue;
        }
        if fd.Dir? {
          EnumFilesPostfix(szPath + "\\" + fd.name, fd.listing, i);
        } else {
          var found := HasPostfix(fd.name);
          if found {
            objDelOptList := PutRow(objDelOptList, i, [Txt(fd.name), Txt(szPath + "\\" + fd.name)]);
            i := i + 1;
          }
        }
      }
    }

    method HasPostfix(fileName: string) returns (found: bool)
      ensures found == Matches(fileName, postfixVt)
    {
      var j := 0;
      while j < |postfixVt|
        invariant 0 <= j <= |postfixVt|
        invariant forall m :: 0 <= m < j ==> Find(fileName, postfixVt[m]) == -1
      {
        if Find(fileName, postfixVt[j]) != -1 {
          return true;
        }
        j := j + 1;
      }
      return false;
    }

    /** Deletes the file of every selected or checked row and the row, working up from the last. Exactly the
        other rows stay, in their order. */
    method OnBnClickedButton4() returns (deleted: seq<string>)
      modifies this`objDelOptList
      ensures objDelOptList == Unmarked(old(objDelOptList))
      ensures deleted == PathsBackward(MarkedRows(old(objDelOptList)))
    {
      ghost var was := objDelOptList;
      deleted := [];
      var i := |objDelOptList|;
      RemoveEnds(was);
      while i > 0
        invariant 0 <= i <= |was| && objDelOptList == Remaining(was, i) && deleted == PathsBackward(Removed(was, i))
      {
        RemoveStep(was, i);
        PathsStep(was[i - 1], Removed(was, i));
        if Marked(objDelOptList[i - 1]) {
          var path := GetItemText(objDelOptList, i - 1, 1);
          deleted := deleted + [path];
          objDelOptList := DeleteItem(objDelOptList, i - 1);
        }
        i := i - 1;
      }
    }
  }
}
