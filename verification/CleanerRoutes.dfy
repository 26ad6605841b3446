/** What the cleaner's list holds after a scan, and what its deletion removes, told by the routes through the
    directory tree. */
module CleanerRoutes {
  import opened Text
  import opened ListCtrl
  import opened VsCleaner

  // ----- Routes -----

  /** What a route may lead to: a file whose name matches, or a directory that cannot be listed. */
  datatype Goal = MatchingFile(tokens: seq<string>) | EmptyListing

  predicate IsGoal(e: Entry, goal: Goal) {
    match goal
    case MatchingFile(tokens) => e.File? && Matches(e.name, tokens)
    case EmptyListing => e.Dir? && e.listing == []
  }

  /** A route is the entry numbers from the start of the walk down to a goal. No entry on it is hidden or one of
      the two that stand for the directory itself and the one above. */
  predicate Leads(listing: seq<Entry>, route: seq<nat>, goal: Goal)
    decreases |route|
  {
    && route != [] && route[0] < |listing|
    && var e := listing[route[0]];
       && e.name != "." && e.name != ".." && !e.hidden
       && if |route| == 1 then IsGoal(e, goal) else e.Dir? && Leads(e.listing, route[1..], goal)
  }

  function LastEntry(listing: seq<Entry>, route: seq<nat>, goal: Goal): Entry
    requires Leads(listing, route, goal)
    decreases |route|
  {
    if |route| == 1 then listing[route[0]] else LastEntry(listing[route[0]].listing, route[1..], goal)
  }

  /** The names along a route, each behind a backslash. */
  function Trail(listing: seq<Entry>, route: seq<nat>, goal: Goal): string
    requires Leads(listing, route, goal)
    decreases |route|
  {
    var e := listing[route[0]];
    "\\" + e.name + if |route| == 1 then "" else Trail(e.listing, route[1..], goal)
  }

  function Deeper(i: nat, routes: seq<seq<nat>>): (r: seq<seq<nat>>)
    ensures |r| == |routes|
  {
    if routes == [] then [] else Deeper(i, routes[..|routes| - 1]) + [[i] + routes[|routes| - 1]]
  }

  lemma {:induction false} DeeperAt(i: nat, routes: seq<seq<nat>>, k: nat)
    requires k < |routes|
    ensures Deeper(i, routes)[k] == [i] + routes[k]
    decreases |routes|
  {
    if k == |routes| - 1 {
    } else {
      DeeperAt(i, routes[..|routes| - 1], k);
    }
  }

  /** The routes through the first n entries, in the order of the walk. */
  function Routes(listing: seq<Entry>, n: nat, goal: Goal): seq<seq<nat>>
    requires n <= |listing|
    decreases listing, n
  {
    if n == 0 then [] else Routes(listing, n - 1, goal) + RoutesOf(listing[n - 1], n - 1, goal)
  }

  function RoutesOf(e: Entry, i: nat, goal: Goal): seq<seq<nat>>
    decreases e
  {
    if Skipped(e) then []
    else if IsGoal(e, goal) then [[i]]
    else if e.Dir? then Deeper(i, Routes(e.listing, |e.listing|, goal))
    else []
  }

  /** They are exactly the routes that lead to a goal. */
  lemma {:induction false} RoutesExactly(listing: seq<Entry>, n: nat, goal: Goal, route: seq<nat>)
    requires n <= |listing|
    ensures route in Routes(listing, n, goal) <==> Leads(listing, route, goal) && route[0] < n
    decreases listing, n
  {
    if n == 0 {
    } else {
      RoutesExactly(listing, n - 1, goal, route);
      RoutesExactlyOf(listing, n - 1, goal, route);
    }
  }

  lemma {:induction false} RoutesExactlyOf(listing: seq<Entry>, i: nat, goal: Goal, route: seq<nat>)
    requires i < |listing|
    ensures route in RoutesOf(listing[i], i, goal) <==> Leads(listing, route, goal) && route[0] == i
    decreases listing[i]
  {
    var e := listing[i];
    if Skipped(e) {
    } else if IsGoal(e, goal) {
      if route == [i] { assert [[i]][0] == route; }
      if Leads(listing, route, goal) && route[0] == i { NothingBelow(listing, i, goal, route); }
    } else if e.Dir? {
      RoutesBelow(i, Routes(e.listing, |e.listing|, goal), route);
      if |route| > 1 {
        RoutesExactly(e.listing, |e.listing|, goal, route[1..]);
      } else if route != [] {
        RoutesExactly(e.listing, |e.listing|, goal, []);
        assert route[1..] == [];
      }
    }
  }

  // A goal has no goals below it.
  lemma NothingBelow(listing: seq<Entry>, i: nat, goal: Goal, route: seq<nat>)
    requires i < |listing| && IsGoal(listing[i], goal)
    requires Leads(listing, route, goal) && route[0] == i
    ensures route == [i]
  {
    NoWay(route[1..], goal);
  }

  lemma NoWay(route: seq<nat>, goal: Goal)
    ensures !Leads([], route, goal)
  {
  }

  lemma RoutesBelow(i: nat, inner: seq<seq<nat>>, route: seq<nat>)
    ensures route in Deeper(i, inner) <==> route != [] && route[0] == i && route[1..] in inner
  {
    if k :| 0 <= k < |inner| && Deeper(i, inner)[k] == route {
      DeeperAt(i, inner, k);
      assert route[1..] == inner[k];
    }
    if route != [] && route[0] == i && route[1..] in inner {
      var k :| 0 <= k < |inner| && inner[k] == route[1..];
      DeeperAt(i, inner, k);
      assert route == [i] + route[1..];
    }
  }

  predicate AllDifferent(routes: seq<seq<nat>>) { forall j, k :: 0 <= j < k < |routes| ==> routes[j] != routes[k] }

  /** No route occurs twice. */
  lemma {:induction false} RoutesDiffer(listing: seq<Entry>, n: nat, goal: Goal)
    requires n <= |listing|
    ensures AllDifferent(Routes(listing, n, goal))
    decreases listing, n
  {
    if n == 0 {
    } else {
      var routes, more := Routes(listing, n - 1, goal), RoutesOf(listing[n - 1], n - 1, goal);
      RoutesDiffer(listing, n - 1, goal);
      RoutesDifferOf(listing[n - 1], n - 1, goal);
      forall r | r in routes ensures r !in more {
        RoutesExactly(listing, n - 1, goal, r);
        RoutesExactlyOf(listing, n - 1, goal, r);
      }
      JoinedDiffer(routes, more);
    }
  }

  lemma JoinedDiffer(routes: seq<seq<nat>>, more: seq<seq<nat>>)
    requires AllDifferent(routes) && AllDifferent(more) && forall r :: r in routes ==> r !in more
    ensures AllDifferent(routes + more)
  {
    forall j, k | 0 <= j < k < |routes + more| ensures (routes + more)[j] != (routes + more)[k] {
      if j < |routes| <= k {
        assert routes[j] in routes && more[k - |routes|] in more;
      }
    }
  }

  lemma {:induction false} RoutesDifferOf(e: Entry, i: nat, goal: Goal)
    ensures AllDifferent(RoutesOf(e, i, goal))
    decreases e
  {
    if Skipped(e) || IsGoal(e, goal) || e.File? {
    } else {
      RoutesDiffer(e.listing, |e.listing|, goal);
      DeeperDiffers(i, Routes(e.listing, |e.listing|, goal));
    }
  }

  lemma DeeperDiffers(i: nat, inner: seq<seq<nat>>)
    requires AllDifferent(inner)
    ensures AllDifferent(Deeper(i, inner))
  {
    forall j, k | 0 <= j < k < |inner| ensures Deeper(i, inner)[j] != Deeper(i, inner)[k] {
      DeeperAt(i, inner, j);
      DeeperAt(i, inner, k);
      assert ([i] + inner[j])[1..] == inner[j] && ([i] + inner[k])[1..] == inner[k];
    }
  }

  // ----- One row for each file -----

  lemma {:induction false} OneRouteEach(path: string, listing: seq<Entry>, n: nat, tokens: seq<string>)
    requires n <= |listing|
    ensures |Expected(path, listing, n, tokens)| == |Routes(listing, n, MatchingFile(tokens))|
    decreases listing, n
  {
    if n == 0 {
    } else {
      OneRouteEach(path, listing, n - 1, tokens);
      OneRouteEachOf(path, listing[n - 1], n - 1, tokens);
    }
  }

  lemma {:induction false} OneRouteEachOf(path: string, e: Entry, i: nat, tokens: seq<string>)
    ensures |RowsOf(path, e, tokens)| == |RoutesOf(e, i, MatchingFile(tokens))|
    decreases e
  {
    if e.Dir? {
      OneRouteEach(Below(path, e.name), e.listing, |e.listing|, tokens);
    }
  }

  /** The row of the file at the end of a route: its name, and the start of the walk followed by the names on the
      route; neither selected nor checked. */
  predicate RowAtEnd(path: string, listing: seq<Entry>, route: seq<nat>, tokens: seq<string>, row: Item) {
    && Leads(listing, route, MatchingFile(tokens))
    && row == Item([Txt(LastEntry(listing, route, MatchingFile(tokens)).name),
                    Txt(path + Trail(listing, route, MatchingFile(tokens)))], false, false)
  }

  /** Row k is that of the file at the end of route k. */
  lemma {:induction false} RowsAreReached(path: string, listing: seq<Entry>, n: nat, tokens: seq<string>, k: nat)
    requires n <= |listing| && k < |Expected(path, listing, n, tokens)| == |Routes(listing, n, MatchingFile(tokens))|
    ensures RowAtEnd(path, listing, Routes(listing, n, MatchingFile(tokens))[k], tokens, Expected(path,
                     listing, n, tokens)[k])
    decreases listing, n
  {
    var before := |Expected(path, listing, n - 1, tokens)|;
    OneRouteEach(path, listing, n - 1, tokens);
    if k < before {
      RowsAreReached(path, listing, n - 1, tokens, k);
    } else {
      OneRouteEachOf(path, listing[n - 1], n - 1, tokens);
      RowsAreReachedOf(path, listing, n - 1, tokens, k - before);
    }
  }

  lemma {:induction false} RowsAreReachedOf(path: string, listing: seq<Entry>, i: nat, tokens: seq<string>, k: nat)
    requires i < |listing| && k < |RowsOf(path, listing[i], tokens)| == |RoutesOf(listing[i], i, MatchingFile(tokens))|
    ensures RowAtEnd(path, listing, RoutesOf(listing[i], i, MatchingFile(tokens))[k], tokens, RowsOf(path,
                     listing[i], tokens)[k])
    decreases listing[i]
  {
    var e := listing[i];
    if e.Dir? {
      var inner := Routes(e.listing, |e.listing|, MatchingFile(tokens));
      RowsAreReached(Below(path, e.name), e.listing, |e.listing|, tokens, k);
      DeeperAt(i, inner, k);
      Downward(path, listing, i, inner[k], tokens, RowsOf(path, e, tokens)[k]);
    } else {
      FileRow(path, listing, i, tokens);
    }
  }

  lemma Downward(path: string, listing: seq<Entry>, i: nat, rest: seq<nat>, tokens: seq<string>, row: Item)
    requires i < |listing| && !Skipped(listing[i]) && listing[i].Dir?
    requires RowAtEnd(Below(path, listing[i].name), listing[i].listing, rest, tokens, row)
    ensures RowAtEnd(path, listing, [i] + rest, tokens, row)
  {
    var e, route, goal := listing[i], [i] + rest, MatchingFile(tokens);
    assert route[1..] == rest;
    assert Trail(listing, route, goal) == "\\" + e.name + Trail(e.listing, rest, goal);
    Joined3(path, "\\" + e.name, Trail(e.listing, rest, goal));
    assert Below(path, e.name) == path + ("\\" + e.name);
  }

  lemma Joined3(a: string, b: string, c: string)
    ensures a + b + c == a + (b + c)
  {
  }

  lemma FileRow(path: string, listing: seq<Entry>, i: nat, tokens: seq<string>)
    requires i < |listing| && !Skipped(listing[i]) && listing[i].File? && Matches(listing[i].name, tokens)
    ensures RowAtEnd(path, listing, [i], tokens, Row(FileCells(path, listing[i].name)))
  {
    var name := listing[i].name;
    assert Trail(listing, [i], MatchingFile(tokens)) == "\\" + name;
    assert Below(path, name) == path + ("\\" + name);
  }

  /** The expected rows are those of the matching files, one row for each: row k belongs to route k, the routes
      are all different, and they are exactly the routes to matching files. */
  lemma OneRowPerFile(path: string, listing: seq<Entry>, tokens: seq<string>)
    ensures var rows, routes := Expected(path, listing, |listing|, tokens), Routes(listing, |listing|, MatchingFile(tokens));
            && |rows| == |routes|
            && (forall k :: 0 <= k < |routes| ==> RowAtEnd(path, listing, routes[k], tokens, rows[k]))
            && AllDifferent(routes)
            && (forall r :: r in routes <==> Leads(listing, r, MatchingFile(tokens)))
  {
    var routes := Routes(listing, |listing|, MatchingFile(tokens));
    OneRouteEach(path, listing, |listing|, tokens);
    forall k | 0 <= k < |routes|
      ensures RowAtEnd(path, listing, routes[k], tokens, Expected(path, listing, |listing|, tokens)[k])
    {
      RowsAreReached(path, listing, |listing|, tokens, k);
    }
    RoutesDiffer(listing, |listing|, MatchingFile(tokens));
    forall r ensures r in routes <==> Leads(listing, r, MatchingFile(tokens)) {
      RoutesExactly(listing, |listing|, MatchingFile(tokens), r);
    }
  }

  // ----- One warning for each directory that cannot be listed -----

  lemma {:induction false} OneWarningEach(listing: seq<Entry>, n: nat)
    requires n <= |listing|
    ensures Unlisted(listing, n) == |Routes(listing, n, EmptyListing)|
    decreases listing, n
  {
    if n == 0 {
    } else {
      OneWarningEach(listing, n - 1);
      OneWarningEachOf(listing[n - 1], n - 1);
    }
  }

  lemma {:induction false} OneWarningEachOf(e: Entry, i: nat)
    ensures UnlistedOf(e) == |RoutesOf(e, i, EmptyListing)|
    decreases e
  {
    if Skipped(e) || e.File? || e.listing == [] {
    } else {
      OneWarningEach(e.listing, |e.listing|);
    }
  }

  /** The warnings of a walk are one for each directory reached that cannot be listed. */
  lemma OneWarningPerDirectory(listing: seq<Entry>)
    ensures var routes := Routes(listing, |listing|, EmptyListing);
            && Unlisted(listing, |listing|) == |routes| && AllDifferent(routes)
            && (forall r :: r in routes <==> Leads(listing, r, EmptyListing))
  {
    OneWarningEach(listing, |listing|);
    RoutesDiffer(listing, |listing|, EmptyListing);
    forall r ensures r in Routes(listing, |listing|, EmptyListing) <==> Leads(listing, r, EmptyListing) {
      RoutesExactly(listing, |listing|, EmptyListing, r);
    }
  }

  // ----- The order of the rows -----

  /** All rows of a are in b, in the same order. */
  ghost predicate KeepsOrder(a: seq<Item>, b: seq<Item>) {
    exists numbers :: Increasing(numbers) && RowsAt(a, b, numbers)
  }

  lemma SameOrder(a: seq<Item>)
    ensures KeepsOrder(a, a)
  {
    var numbers := seq(|a|, k requires 0 <= k < |a| => k);
    assert Increasing(numbers) && RowsAt(a, a, numbers);
  }

  lemma OrderKept(a: seq<Item>, b: seq<Item>, c: seq<Item>)
    requires KeepsOrder(a, b) && KeepsOrder(b, c)
    ensures KeepsOrder(a, c)
  {
    var m :| Increasing(m) && RowsAt(a, b, m);
    var n :| Increasing(n) && RowsAt(b, c, n);
    var numbers := seq(|m|, k requires 0 <= k < |m| => n[m[k]]);
    assert Increasing(numbers) && RowsAt(a, c, numbers);
  }

  lemma PlacedKeepsOrder(list: seq<Item>, i: nat, cells: seq<Cell>)
    requires i <= |list|
    ensures KeepsOrder(list, Placed(list, i, cells))
  {
    var numbers := seq(|list|, k requires 0 <= k < |list| => if k < i then k else k + 1);
    assert Increasing(numbers) && RowsAt(list, Placed(list, i, cells), numbers);
  }

  lemma {:induction false} EntriesKeepOrder(p: Progress, path: string, listing: seq<Entry>, n: nat, tokens: seq<string>)
    requires n <= |listing| && p.i <= |p.list|
    ensures KeepsOrder(p.list, WalkEntries(p, path, listing, n, tokens).list)
    decreases listing, n
  {
    if n == 0 {
      SameOrder(p.list);
    } else {
      EntriesKeepOrder(p, path, listing, n - 1, tokens);
      EntriesConserve(p, path, listing, n - 1, tokens);
      EntryKeepsOrder(p.list, WalkEntries(p, path, listing, n - 1, tokens), path, listing[n - 1], tokens);
    }
  }

  lemma {:induction false} EntryKeepsOrder(start: seq<Item>, p: Progress, path: string, e: Entry, tokens: seq<string>)
    requires p.i <= |p.list| && KeepsOrder(start, p.list)
    ensures KeepsOrder(start, WalkEntry(p, path, e, tokens).list)
    decreases e
  {
    if Skipped(e) {
    } else if e.Dir? {
      WalkKeepsOrder(p, Below(path, e.name), e.listing, tokens);
      OrderKept(start, p.list, Walk(p, Below(path, e.name), e.listing, tokens).list);
    } else if Matches(e.name, tokens) {
      PlacedKeepsOrder(p.list, p.i, FileCells(path, e.name));
      OrderKept(start, p.list, Placed(p.list, p.i, FileCells(path, e.name)));
    }
  }

  /** The rows already in the list keep their order, wherever nested calls insert. */
  lemma {:induction false} WalkKeepsOrder(p: Progress, path: string, listing: seq<Entry>, tokens: seq<string>)
    requires p.i <= |p.list|
    ensures KeepsOrder(p.list, Walk(p, path, listing, tokens).list)
    decreases listing, |listing| + 1
  {
    SameOrder(p.list);
    if listing == [] {
    } else {
      EntriesKeepOrder(p.(i := 0), path, listing, |listing|, tokens);
    }
  }

  lemma {:induction false} EntriesInFront(q: Progress, back: seq<Item>, path: string, listing: seq<Entry>,
      n: nat, tokens: seq<string>)
    requires n <= |listing| && q.i <= |q.list|
    ensures var w := WalkEntries(q.(list := q.list + back), path, listing, n, tokens);
            var r := WalkEntries(q, path, listing, n, tokens);
            w == r.(list := r.list + back)
    decreases listing, n
  {
    if n == 0 {
    } else {
      EntriesInFront(q, back, path, listing, n - 1, tokens);
      EntriesConserve(q, path, listing, n - 1, tokens);
      EntryInFront(WalkEntries(q, path, listing, n - 1, tokens), back, path, listing[n - 1], tokens);
    }
  }

  lemma {:induction false} EntryInFront(q: Progress, back: seq<Item>, path: string, e: Entry, tokens: seq<string>)
    requires q.i <= |q.list|
    ensures var w, r := WalkEntry(q.(list := q.list + back), path, e, tokens), WalkEntry(q, path, e, tokens);
            w == r.(list := r.list + back)
    decreases e
  {
    if Skipped(e) {
    } else if e.Dir? {
      CallInFront(q, back, Below(path, e.name), e.listing, tokens);
    } else if Matches(e.name, tokens) {
      PlacedInFront(q.list, back, q.i, FileCells(path, e.name));
    }
  }

  lemma {:induction false} CallInFront(q: Progress, back: seq<Item>, path: string, listing: seq<Entry>,
      tokens: seq<string>)
    ensures var w, r := Walk(q.(list := q.list + back), path, listing, tokens), Walk(q, path, listing, tokens);
            w == r.(list := r.list + back)
    decreases listing, |listing| + 1
  {
    if listing == [] {
    } else {
      EntriesInFront(q.(i := 0), back, path, listing, |listing|, tokens);
    }
  }

  lemma PlacedInFront(front: seq<Item>, back: seq<Item>, i: nat, cells: seq<Cell>)
    requires i <= |front|
    ensures Placed(front + back, i, cells) == Placed(front, i, cells) + back
  {
    PlacedInside(front, i, cells);
    PlacedInside(front + back, i, cells);
    assert (front + back)[..i] == front[..i] && (front + back)[i..] == front[i..] + back;
    Joined4(front[..i], [Row(cells)], front[i..], back);
  }

  lemma PlacedInside(list: seq<Item>, i: nat, cells: seq<Cell>)
    requires i <= |list|
    ensures Placed(list, i, cells) == list[..i] + [Row(cells)] + list[i..]
  {
  }

  lemma Joined4<T>(a: seq<T>, b: seq<T>, c: seq<T>, d: seq<T>)
    ensures a + b + (c + d) == a + b + c + d
  {
  }

  /** Each call puts its rows in front of all earlier ones, wherever its caller is about to insert, and in the
      order they would have in a list of their own. */
  lemma WalkInFront(p: Progress, path: string, listing: seq<Entry>, tokens: seq<string>)
    ensures Walk(p, path, listing, tokens).list == Walk(Progress([], 0, 0), path, listing, tokens).list + p.list
    ensures Walk(p, path, listing, tokens).i == p.i
  {
    CallInFront(p.(list := []), p.list, path, listing, tokens);
    assert p.(list := []).(list := [] + p.list) == p;
    OwnList(p.i, p.warnings, path, listing, tokens);
  }

  // The index and the warnings of the caller do not matter to the rows of a call.
  lemma OwnList(i: nat, warnings: nat, path: string, listing: seq<Entry>, tokens: seq<string>)
    ensures Walk(Progress([], i, warnings), path, listing, tokens).list == Walk(Progress([], 0, 0), path, listing, tokens).list
  {
    if listing == [] {
    } else {
      EntriesAnyWarnings(Progress([], 0, warnings), Progress([], 0, 0), path, listing, |listing|, tokens);
    }
  }

  lemma {:induction false} EntriesAnyWarnings(p: Progress, q: Progress, path: string, listing: seq<Entry>,
      n: nat, tokens: seq<string>)
    requires n <= |listing| && p.list == q.list && p.i == q.i
    ensures var v, w := WalkEntries(p, path, listing, n, tokens), WalkEntries(q, path, listing, n, tokens);
            v.list == w.list && v.i == w.i
    decreases listing, n
  {
    if n == 0 {
    } else {
      EntriesAnyWarnings(p, q, path, listing, n - 1, tokens);
      var v, w := WalkEntries(p, path, listing, n - 1, tokens), WalkEntries(q, path, listing, n - 1, tokens);
      EntryAnyWarnings(v, w, path, listing[n - 1], tokens);
    }
  }

  lemma {:induction false} EntryAnyWarnings(p: Progress, q: Progress, path: string, e: Entry, tokens: seq<string>)
    requires p.list == q.list && p.i == q.i
    ensures var v, w := WalkEntry(p, path, e, tokens), WalkEntry(q, path, e, tokens); v.list == w.list && v.i == w.i
    decreases e
  {
    if !Skipped(e) && e.Dir? && e.listing != [] {
      EntriesAnyWarnings(p.(i := 0), q.(i := 0), Below(path, e.name), e.listing, |e.listing|, tokens);
    }
  }

  /** A folder without subfolders puts its rows in front of the earlier ones, in the order of its entries. */
  lemma {:induction false} FlatFolder(p: Progress, path: string, listing: seq<Entry>, n: nat, tokens: seq<string>)
    requires n <= |listing| && p.i == 0 && forall k :: 0 <= k < |listing| ==> listing[k].File?
    ensures var q, rows := WalkEntries(p, path, listing, n, tokens), Expected(path, listing, n, tokens);
            q.list == rows + p.list && q.i == |rows|
    decreases n
  {
    if n == 0 {
    } else {
      FlatFolder(p, path, listing, n - 1, tokens);
      var q, rows := WalkEntries(p, path, listing, n - 1, tokens), Expected(path, listing, n - 1, tokens);
      FlatStep(q, path, listing[n - 1], tokens, rows, p.list);
    }
  }

  lemma FlatStep(q: Progress, path: string, e: Entry, tokens: seq<string>, rows: seq<Item>, back: seq<Item>)
    requires e.File? && q.list == rows + back && q.i == |rows|
    ensures var r, more := WalkEntry(q, path, e, tokens), RowsOf(path, e, tokens);
            r.list == rows + more + back && r.i == |rows + more|
  {
    if !Skipped(e) && Matches(e.name, tokens) {
      PlacedBetween(rows, back, FileCells(path, e.name));
    } else {
      assert rows + [] == rows;
    }
  }

  lemma PlacedBetween(front: seq<Item>, back: seq<Item>, cells: seq<Cell>)
    ensures Placed(front + back, |front|, cells) == front + [Row(cells)] + back
  {
    assert (front + back)[..|front|] == front && (front + back)[|front|..] == back;
  }

  // ----- What the deletion deletes -----

  lemma {:induction false} PathsBackwardAt(rows: seq<Item>, m: nat)
    ensures |PathsBackward(rows)| == |rows|
    ensures m < |rows| ==> PathsBackward(rows)[m] == TextOf(rows[|rows| - 1 - m], 1)
    decreases |rows|
  {
    if rows == [] {
    } else {
      PathsBackwardAt(rows[1..], m);
    }
  }

  /** A row with the texts of a matching file's row; it may be selected or checked by now. */
  predicate RowOfRoute(path: string, listing: seq<Entry>, tokens: seq<string>, item: Item, route: seq<nat>) {
    && Leads(listing, route, MatchingFile(tokens))
    && item.cells == [Txt(LastEntry(listing, route, MatchingFile(tokens)).name),
                      Txt(path + Trail(listing, route, MatchingFile(tokens)))]
  }

  predicate RowsOfRoutes(path: string, listing: seq<Entry>, tokens: seq<string>, list: seq<Item>, routes: seq<seq<nat>>) {
    |list| == |routes| && forall i :: 0 <= i < |list| ==> RowOfRoute(path, listing, tokens, list[i], routes[i])
  }

  lemma DeletedBackward(list: seq<Item>, m: nat)
    ensures var removed, deleted := Numbers(list, 0, true), PathsBackward(MarkedRows(list));
            && |deleted| == |removed|
            && (m < |removed| ==> var i := removed[|removed| - 1 - m];
                                  i < |list| && deleted[m] == TextOf(list[i], 1))
  {
    RowsOfNumbers(list, 0);
    assert list[0..] == list;
    PathsBackwardAt(MarkedRows(list), m);
  }

  /** The text is the start of the walk followed by the names on the way to a matching file. */
  predicate PathAlong(path: string, listing: seq<Entry>, tokens: seq<string>, text: string, route: seq<nat>) {
    && Leads(listing, route, MatchingFile(tokens))
    && text == path + Trail(listing, route, MatchingFile(tokens))
  }

  /** What is deleted m-th belongs to the marked row that is m-th from the end. */
  predicate DeletesAlong(path: string, listing: seq<Entry>, tokens: seq<string>, deleted: seq<string>, removed: seq<nat>,
      routes: seq<seq<nat>>, m: nat) {
    m < |deleted| == |removed| &&
    var i := removed[|removed| - 1 - m];
    i < |routes| && PathAlong(path, listing, tokens, deleted[m], routes[i])
  }

  lemma DeletedPath(path: string, listing: seq<Entry>, tokens: seq<string>, list: seq<Item>,
      routes: seq<seq<nat>>, m: nat)
    requires RowsOfRoutes(path, listing, tokens, list, routes) && m < |PathsBackward(MarkedRows(list))|
    ensures DeletesAlong(path, listing, tokens, PathsBackward(MarkedRows(list)), Numbers(list, 0, true), routes, m)
  {
    var removed := Numbers(list, 0, true);
    DeletedBackward(list, m);
    var i := removed[|removed| - 1 - m];
    PathOfRow(path, listing, tokens, list[i], routes[i]);
  }

  lemma PathOfRow(path: string, listing: seq<Entry>, tokens: seq<string>, item: Item, route: seq<nat>)
    requires RowOfRoute(path, listing, tokens, item, route)
    ensures PathAlong(path, listing, tokens, TextOf(item, 1), route)
  {
  }

  /** When the list holds rows of matching files, the deletion goes through the selected and the checked ones from
      the last to the first, and each time deletes the path along the row's own route. */
  lemma DeletesMarkedFiles(path: string, listing: seq<Entry>, tokens: seq<string>, list: seq<Item>, routes: seq<seq<nat>>)
    requires RowsOfRoutes(path, listing, tokens, list, routes)
    ensures var removed, deleted := Numbers(list, 0, true), PathsBackward(MarkedRows(list));
            && Increasing(removed)
            && (forall i :: i in removed <==> 0 <= i < |list| && (list[i].selected || list[i].checked))
            && |deleted| == |removed|
            && (forall m :: 0 <= m < |deleted| ==> DeletesAlong(path, listing, tokens, deleted, removed, routes, m))
  {
    NumbersAre(list, 0, true);
    DeletedBackward(list, 0);
    forall m | 0 <= m < |PathsBackward(MarkedRows(list))|
      ensures DeletesAlong(path, listing, tokens, PathsBackward(MarkedRows(list)), Numbers(list, 0, true), routes, m)
    {
      DeletedPath(path, listing, tokens, list, routes, m);
    }
  }

  // ----- Scan, mark, delete -----

  function Without<T>(s: seq<T>, k: nat): (r: seq<T>)
    requires k < |s|
    ensures |r| == |s| - 1
    ensures forall i :: 0 <= i < |r| ==> r[i] == s[if i < k then i else i + 1]
  {
    s[..k] + s[k + 1..]
  }

  lemma WithoutOne<T>(s: seq<T>, k: nat)
    requires k < |s|
    ensures multiset(s) == multiset{s[k]} + multiset(Without(s, k))
    ensures multiset(Without(s, k)) == multiset(s) - multiset{s[k]}
  {
    assert s == s[..k] + [s[k]] + s[k + 1..];
  }

  lemma SameRest(list: seq<Item>, rows: seq<Item>, k: nat)
    requires list != [] && multiset(list) == multiset(rows) && k < |rows| && rows[k] == list[0]
    ensures multiset(list[1..]) == multiset(Without(rows, k))
  {
    WithoutOne(rows, k);
    WithoutOne(list, 0);
    assert Without(list, 0) == list[1..];
  }

  /** The row and the route stand side by side somewhere. */
  predicate SideBySide(rows: seq<Item>, routes: seq<seq<nat>>, row: Item, route: seq<nat>) {
    exists k :: 0 <= k < |rows| && k < |routes| && rows[k] == row && routes[k] == route
  }

  predicate AllSideBySide(rows: seq<Item>, routes: seq<seq<nat>>, list: seq<Item>, arranged: seq<seq<nat>>) {
    |list| == |arranged| && forall i :: 0 <= i < |list| ==> SideBySide(rows, routes, list[i], arranged[i])
  }

  lemma SameLength(list: seq<Item>, rows: seq<Item>)
    requires multiset(list) == multiset(rows)
    ensures |list| == |rows|
    ensures list != [] ==> list[0] in rows
  {
    assert |list| == |multiset(list)| == |multiset(rows)| == |rows|;
    assert list != [] ==> list[0] in multiset(rows);
  }

  /** When the rows are in another order, their routes can be put in that order too. */
  lemma {:induction false} Arranged(list: seq<Item>, rows: seq<Item>,
      routes: seq<seq<nat>>) returns (arranged: seq<seq<nat>>)
    requires multiset(list) == multiset(rows) && |rows| == |routes|
    ensures multiset(arranged) == multiset(routes) && AllSideBySide(rows, routes, list, arranged)
    decreases |list|
  {
    SameLength(list, rows);
    if list == [] {
      arranged := [];
    } else {
      var k :| 0 <= k < |rows| && rows[k] == list[0];
      SameRest(list, rows, k);
      WithoutOne(routes, k);
      var rest := Arranged(list[1..], Without(rows, k), Without(routes, k));
      arranged := [routes[k]] + rest;
      OneMoreBeside(rows, routes, list, rest, k);
    }
  }

  lemma OneMoreBeside(rows: seq<Item>, routes: seq<seq<nat>>, list: seq<Item>, rest: seq<seq<nat>>, k: nat)
    requires k < |rows| == |routes| && list != [] && rows[k] == list[0]
    requires AllSideBySide(Without(rows, k), Without(routes, k), list[1..], rest)
    ensures AllSideBySide(rows, routes, list, [routes[k]] + rest)
  {
    assert SideBySide(rows, routes, list[0], routes[k]);
    forall i | 0 < i < |list| ensures SideBySide(rows, routes, list[i], ([routes[k]] + rest)[i]) {
      assert SideBySide(Without(rows, k), Without(routes, k), list[1..][i - 1], rest[i - 1]);
      var m :| 0 <= m < |rows| - 1 && Without(rows, k)[m] == list[i] && Without(routes, k)[m] == rest[i - 1];
      var n := if m < k then m else m + 1;
      assert rows[n] == list[i] && routes[n] == rest[i - 1];
    }
  }

  lemma ArrangedRows(path: string, listing: seq<Entry>, tokens: seq<string>, rows: seq<Item>, routes: seq<seq<nat>>,
      list: seq<Item>, arranged: seq<seq<nat>>)
    requires RowsOfRoutes(path, listing, tokens, rows, routes) && AllSideBySide(rows, routes, list, arranged)
    ensures RowsOfRoutes(path, listing, tokens, list, arranged)
  {
    forall i | 0 <= i < |list| ensures RowOfRoute(path, listing, tokens, list[i], arranged[i]) {
      assert SideBySide(rows, routes, list[i], arranged[i]);
      var k :| 0 <= k < |rows| && rows[k] == list[i] && routes[k] == arranged[i];
      assert RowOfRoute(path, listing, tokens, rows[k], routes[k]);
    }
  }

  /** After a scan, whatever rows are then selected or checked: the rows stand for the matching files, one row for
      each route, and the deletion deletes the files of the marked rows along their routes, the last row first. */
  lemma ScanThenDelete(path: string, listing: seq<Entry>, tokens: seq<string>, scanned: seq<Item>, list: seq<Item>)
      returns (routes: seq<seq<nat>>)
    requires multiset(scanned) == multiset(Expected(path, listing, |listing|, tokens))
    requires |list| == |scanned| && forall i :: 0 <= i < |list| ==> list[i].cells == scanned[i].cells
    ensures |routes| == |list| && multiset(routes) == multiset(Routes(listing, |listing|, MatchingFile(tokens)))
    ensures forall r :: r in routes <==> Leads(listing, r, MatchingFile(tokens))
    ensures var removed, deleted := Numbers(list, 0, true), PathsBackward(MarkedRows(list));
            && Increasing(removed)
            && (forall i :: i in removed <==> 0 <= i < |list| && (list[i].selected || list[i].checked))
            && |deleted| == |removed|
            && (forall m :: 0 <= m < |deleted| ==> DeletesAlong(path, listing, tokens, deleted, removed, routes, m))
  {
    var all := Routes(listing, |listing|, MatchingFile(tokens));
    ExpectedRows(path, listing, tokens);
    routes := Arranged(scanned, Expected(path, listing, |listing|, tokens), all);
    ArrangedRows(path, listing, tokens, Expected(path, listing, |listing|, tokens), all, scanned, routes);
    MarkingKeeps(path, listing, tokens, scanned, list, routes);
    DeletesMarkedFiles(path, listing, tokens, list, routes);
    forall r ensures r in routes <==> Leads(listing, r, MatchingFile(tokens)) {
      RoutesExactly(listing, |listing|, MatchingFile(tokens), r);
      assert r in routes <==> r in multiset(all);
    }
  }

  lemma ExpectedRows(path: string, listing: seq<Entry>, tokens: seq<string>)
    ensures RowsOfRoutes(path, listing, tokens, Expected(path, listing, |listing|, tokens),
                         Routes(listing, |listing|, MatchingFile(tokens)))
  {
    var rows, routes := Expected(path, listing, |listing|, tokens), Routes(listing, |listing|, MatchingFile(tokens));
    OneRouteEach(path, listing, |listing|, tokens);
    forall k | 0 <= k < |rows| ensures RowOfRoute(path, listing, tokens, rows[k], routes[k]) {
      RowsAreReached(path, listing, |listing|, tokens, k);
    }
  }

  lemma MarkingKeeps(path: string, listing: seq<Entry>, tokens: seq<string>, scanned: seq<Item>,
      list: seq<Item>, routes: seq<seq<nat>>)
    requires |list| == |scanned| && forall i :: 0 <= i < |list| ==> list[i].cells == scanned[i].cells
    requires RowsOfRoutes(path, listing, tokens, scanned, routes)
    ensures RowsOfRoutes(path, listing, tokens, list, routes)
  {
    forall i | 0 <= i < |list| ensures RowOfRoute(path, listing, tokens, list[i], routes[i]) {
      assert RowOfRoute(path, listing, tokens, scanned[i], routes[i]);
    }
  }
}
