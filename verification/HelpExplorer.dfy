/**
  The worklist of `main` in bench/cli_help_coverage.py: command routes are probed for help, and
  the subcommands a help text lists are probed in turn. What a command answers is an arbitrary
  function, as is the list of subcommands in a text; texts stand for their hashes.
 */
module HelpExplorer {
  import opened Wrappers

  type Route = seq<string>

  /** The answer to `route --help`; no code when the process timed out or could not start. */
  datatype Help = Help(code: Option<int>, stdout: string)

  datatype Status = HelpOnly | HelpFailed | HelpBlocked

  datatype Row = Row(route: Route, status: Status, warning: bool)

  type Probe = Route -> Help
  type Children = string -> seq<string>

  const DEPTH: nat := 6

  predicate Answers(help: Probe, r: Route) {
    help(r).code == Some(0)
  }

  function StatusOf(help: Probe, r: Route): Status {
    match help(r).code
    case None => HelpBlocked
    case Some(code) => if code == 0 then HelpOnly else HelpFailed
  }

  /** `help_identity`: the executable and the text it printed. */
  function Identity(help: Probe, r: Route): (string, string) {
    (if r == [] then "" else r[0], help(r).stdout)
  }

  function ChildRoutes(r: Route, names: seq<string>): (rs: seq<Route>)
    ensures |rs| == |names| && forall i | 0 <= i < |names| :: rs[i] == r + [names[i]]
  {
    if names == [] then [] else [r + [names[0]]] + ChildRoutes(r, names[1..])
  }

  function Singles(entries: seq<string>): (rs: seq<Route>)
    ensures |rs| == |entries| && forall i | 0 <= i < |entries| :: rs[i] == [entries[i]]
  {
    if entries == [] then [] else [[entries[0]]] + Singles(entries[1..])
  }

  function Seeds(entries: seq<string>): seq<Route> {
    Singles(entries) + [["simplicio-loop", "tasks"], ["simplicio-loop", "tasks", "run"]]
  }

  // ---- termination ------------------------------------------------------------------------

  /** How many routes of length `d` are pending. */
  function AtDepth(pending: seq<Route>, d: nat): nat {
    if pending == [] then 0 else (if |pending[0]| == d then 1 else 0) + AtDepth(pending[1..], d)
  }

  lemma {:induction false} AtDepthOfAppend(a: seq<Route>, b: seq<Route>, d: nat)
    ensures AtDepth(a + b, d) == AtDepth(a, d) + AtDepth(b, d)
  {
    if a == [] {
      assert a + b == b;
    } else {
      assert (a + b)[1..] == a[1..] + b;
      AtDepthOfAppend(a[1..], b, d);
    }
  }

  lemma {:induction false} AtDepthOfEqual(rs: seq<Route>, k: nat, d: nat)
    requires d != k && forall i | 0 <= i < |rs| :: |rs[i]| == k
    ensures AtDepth(rs, d) == 0
  {
    if rs != [] {
      AtDepthOfEqual(rs[1..], k, d);
    }
  }

  // ---- what an exploration is -------------------------------------------------------------

  /** `r` is a seed or a child that was listed by a route chosen for expansion. */
  ghost predicate Justified(help: Probe, children: Children, seeds: seq<Route>,
                            chosen: map<(string, string), Route>, r: Route) {
    r in seeds ||
    (|r| > 1 && var parent, name := r[..|r| - 1], r[|r| - 1];
     Identity(help, parent) in chosen && chosen[Identity(help, parent)] == parent
     && name in children(help(parent).stdout))
  }

  ghost predicate Probed(rows: seq<Row>, r: Route) {
    exists i :: 0 <= i < |rows| && rows[i].route == r
  }

  /** A probed route is short, and a seed or a listed child of a route chosen for expansion; its
      status is that of the probe; a text that may be expanded is expanded, and when it was not
      for this route the listed children are warned about. */
  ghost predicate RowIsRight(help: Probe, children: Children, seeds: seq<Route>,
                             chosen: map<(string, string), Route>, row: Row) {
    var r := row.route;
    && 1 <= |r| <= DEPTH && Justified(help, children, seeds, chosen, r)
    && row.status == StatusOf(help, r)
    && (row.warning <==> Answers(help, r) && children(help(r).stdout) != []
                         && !(Identity(help, r) in chosen && chosen[Identity(help, r)] == r))
    && (Answers(help, r) && |r| < DEPTH ==> Identity(help, r) in chosen)
  }

  /** The rows so far, and for every help text expanded so far the one route it was expanded for:
      no route is probed twice, and only probed routes are expanded. */
  ghost predicate Consistent(help: Probe, children: Children, seeds: seq<Route>, rows: seq<Row>,
                             chosen: map<(string, string), Route>) {
    && (forall i, j | 0 <= i < j < |rows| :: rows[i].route != rows[j].route)
    && (forall i | 0 <= i < |rows| :: RowIsRight(help, children, seeds, chosen, rows[i]))
    && (forall k | k in chosen ::
          Probed(rows, chosen[k])
          && Identity(help, chosen[k]) == k && Answers(help, chosen[k]) && |chosen[k]| < DEPTH)
  }

  /** Nothing that had to be probed was left out: the seeds, and the children of chosen routes. */
  ghost predicate Complete(help: Probe, children: Children, seeds: seq<Route>, rows: seq<Row>,
                           chosen: map<(string, string), Route>, pending: seq<Route>) {
    && (forall r | r in seeds :: Probed(rows, r) || r in pending)
    && (forall k, name | k in chosen && name in children(help(chosen[k]).stdout) ::
          Probed(rows, chosen[k] + [name]) || (chosen[k] + [name]) in pending)
  }

  /** The body of the loop on a route that was not seen: a row, and the routes to append. */
  method ProbeRoute(help: Probe, children: Children, expanded: set<(string, string)>, route: Route)
    returns (row: Row, expands: bool, found: seq<Route>)
    ensures row.route == route && row.status == StatusOf(help, route)
    ensures row.status == HelpOnly <==> help(route).code == Some(0)
    ensures row.status == HelpBlocked <==> help(route).code == None
    ensures expands <==> Answers(help, route) && Identity(help, route) !in expanded && |route| < DEPTH
    ensures found == if expands then ChildRoutes(route, children(help(route).stdout)) else []
    ensures row.warning <==> !expands && Answers(help, route) && children(help(route).stdout) != []
  {
    var answer := help(route);
    var names := children(answer.stdout);
    var identity := Identity(help, route);
    var warning := false;
    found := [];
    expands := answer.code == Some(0) && identity !in expanded && |route| < DEPTH;
    if expands {
      found := ChildRoutes(route, names);
    } else if answer.code == Some(0) && names != [] {
      warning := true;
    }
    row := Row(route, StatusOf(help, route), warning);
  }

  /** The map of expanded texts after a route was probed. */
  function Choose(help: Probe, chosen: map<(string, string), Route>, r: Route, expands: bool): map<(string, string), Route> {
    if expands then chosen[Identity(help, r) := r] else chosen
  }

  /** Recording one more probed route keeps the rows consistent. */
  lemma RowAdded(help: Probe, children: Children, seeds: seq<Route>, rows: seq<Row>,
                 chosen: map<(string, string), Route>, row: Row, expands: bool)
    requires Consistent(help, children, seeds, rows, chosen)
    requires !Probed(rows, row.route) && 1 <= |row.route| <= DEPTH
    requires Justified(help, children, seeds, chosen, row.route)
    requires row.status == StatusOf(help, row.route)
    requires expands <==> Answers(help, row.route) && Identity(help, row.route) !in chosen && |row.route| < DEPTH
    requires row.warning <==> !expands && Answers(help, row.route) && children(help(row.route).stdout) != []
    ensures Consistent(help, children, seeds, rows + [row], Choose(help, chosen, row.route, expands))
  {
    var k := Identity(help, row.route);
    var chosen' := Choose(help, chosen, row.route, expands);
    var rows' := rows + [row];
    forall i, j | 0 <= i < j < |rows'| ensures rows'[i].route != rows'[j].route {
      if j == |rows| {
        assert rows'[i] == rows[i];
      }
    }
    assert k in chosen ==> Probed(rows, chosen[k]);
    forall i | 0 <= i < |rows'|
      ensures RowIsRight(help, children, seeds, chosen', rows'[i])
    {
      if i < |rows| {
        assert rows'[i] == rows[i] && RowIsRight(help, children, seeds, chosen, rows[i]);
      }
    }
    forall x | x in chosen'
      ensures Probed(rows', chosen'[x])
      ensures Identity(help, chosen'[x]) == x && Answers(help, chosen'[x]) && |chosen'[x]| < DEPTH
    {
      ProbedGrows(rows, row, chosen'[x]);
    }
  }

  /** Taking out the first pending route and appending longer ones is a lexicographic decrease. */
  lemma PopDecreases(pending: seq<Route>, found: seq<Route>, d: nat)
    requires pending != [] && forall i | 0 <= i < |found| :: |found[i]| == |pending[0]| + 1
    ensures d < |pending[0]| ==> AtDepth(pending[1..] + found, d) == AtDepth(pending, d)
    ensures d == |pending[0]| ==> AtDepth(pending[1..] + found, d) == AtDepth(pending, d) - 1
  {
    AtDepthOfAppend(pending[1..], found, d);
    if d <= |pending[0]| {
      AtDepthOfEqual(found, |pending[0]| + 1, d);
    }
  }

  ghost predicate Waiting(help: Probe, children: Children, seeds: seq<Route>,
                          chosen: map<(string, string), Route>, pending: seq<Route>) {
    forall i | 0 <= i < |pending| ::
      1 <= |pending[i]| <= DEPTH && Justified(help, children, seeds, chosen, pending[i])
  }

  lemma ChildIsJustified(help: Probe, children: Children, seeds: seq<Route>,
                         chosen: map<(string, string), Route>, route: Route, name: string)
    requires route != [] && Identity(help, route) in chosen && chosen[Identity(help, route)] == route
    requires name in children(help(route).stdout)
    ensures Justified(help, children, seeds, chosen, route + [name])
  {
    var r := route + [name];
    assert r[..|r| - 1] == route;
  }

  lemma JustifiedGrows(help: Probe, children: Children, seeds: seq<Route>,
                       chosen: map<(string, string), Route>, k: (string, string), route: Route, r: Route)
    requires Justified(help, children, seeds, chosen, r) && k !in chosen
    ensures Justified(help, children, seeds, chosen[k := route], r)
  {
  }

  /** The pending routes after a probe are again short and justified. */
  lemma StillWaiting(help: Probe, children: Children, seeds: seq<Route>, chosen: map<(string, string), Route>,
                     pending: seq<Route>, route: Route, expands: bool)
    requires Waiting(help, children, seeds, chosen, pending)
    requires 1 <= |route| && (expands ==> |route| < DEPTH && Identity(help, route) !in chosen)
    ensures var chosen' := Choose(help, chosen, route, expands);
            var found := if expands then ChildRoutes(route, children(help(route).stdout)) else [];
            Waiting(help, children, seeds, chosen', pending + found)
  {
    if expands {
      var k := Identity(help, route);
      var names := children(help(route).stdout);
      var all := pending + ChildRoutes(route, names);
      forall i | 0 <= i < |all|
        ensures 1 <= |all[i]| <= DEPTH && Justified(help, children, seeds, chosen[k := route], all[i])
      {
        if i < |pending| {
          assert all[i] == pending[i];
          JustifiedGrows(help, children, seeds, chosen, k, route, pending[i]);
        } else {
          ChildIsJustified(help, children, seeds, chosen[k := route], route, names[i - |pending|]);
        }
      }
    } else {
      assert pending + [] == pending;
    }
  }

  lemma StillComplete(help: Probe, children: Children, seeds: seq<Route>, rows: seq<Row>,
                      chosen: map<(string, string), Route>, pending: seq<Route>, row: Row, expands: bool)
    requires Complete(help, children, seeds, rows, chosen, [row.route] + pending)
    ensures var chosen' := Choose(help, chosen, row.route, expands);
            var found := if expands then ChildRoutes(row.route, children(help(row.route).stdout)) else [];
            Complete(help, children, seeds, rows + [row], chosen', pending + found)
  {
    var route := row.route;
    var names := children(help(route).stdout);
    var chosen' := if expands then chosen[Identity(help, route) := route] else chosen;
    var found := if expands then ChildRoutes(route, names) else [];
    forall r | Probed(rows, r) || r in [route] + pending
      ensures Probed(rows + [row], r) || r in pending + found
    {
      ProbedGrows(rows, row, r);
    }
    forall k, name | k in chosen' && name in children(help(chosen'[k]).stdout)
      ensures Probed(rows + [row], chosen'[k] + [name]) || (chosen'[k] + [name]) in pending + found
    {
      if expands && k == Identity(help, route) {
        var i :| 0 <= i < |names| && names[i] == name;
        assert found[i] == route + [name] && found[i] in found;
      }
    }
  }

  lemma ProbedGrows(rows: seq<Row>, row: Row, r: Route)
    ensures Probed(rows + [row], r) <==> Probed(rows, r) || r == row.route
  {
    var rows' := rows + [row];
    if Probed(rows, r) {
      var i :| 0 <= i < |rows| && rows[i].route == r;
      assert rows'[i].route == r;
    }
    assert rows'[|rows|] == row;
  }

  ghost predicate Inv(help: Probe, children: Children, seeds: seq<Route>, rows: seq<Row>,
                      chosen: map<(string, string), Route>, pending: seq<Route>, seen: set<Route>) {
    && Waiting(help, children, seeds, chosen, pending)
    && (forall r :: r in seen <==> Probed(rows, r))
    && Consistent(help, children, seeds, rows, chosen)
    && Complete(help, children, seeds, rows, chosen, pending)
  }

  lemma SkipKeepsInv(help: Probe, children: Children, seeds: seq<Route>, rows: seq<Row>,
                     chosen: map<(string, string), Route>, pending: seq<Route>, seen: set<Route>)
    requires Inv(help, children, seeds, rows, chosen, pending, seen)
    requires pending != [] && pending[0] in seen
    ensures Inv(help, children, seeds, rows, chosen, pending[1..], seen)
  {
    assert pending == [pending[0]] + pending[1..];
  }

  lemma ProbeKeepsInv(help: Probe, children: Children, seeds: seq<Route>, rows: seq<Row>,
                      chosen: map<(string, string), Route>, pending: seq<Route>, seen: set<Route>,
                      row: Row, expands: bool, found: seq<Route>)
    requires Inv(help, children, seeds, rows, chosen, pending, seen)
    requires pending != [] && pending[0] !in seen && row.route == pending[0]
    requires row.status == StatusOf(help, row.route)
    requires expands <==> Answers(help, row.route) && Identity(help, row.route) !in chosen && |row.route| < DEPTH
    requires found == if expands then ChildRoutes(row.route, children(help(row.route).stdout)) else []
    requires row.warning <==> !expands && Answers(help, row.route) && children(help(row.route).stdout) != []
    ensures Inv(help, children, seeds, rows + [row], Choose(help, chosen, row.route, expands),
                pending[1..] + found, seen + {row.route})
  {
    var rest := pending[1..];
    assert pending == [row.route] + rest;
    assert 1 <= |pending[0]| <= DEPTH && Justified(help, children, seeds, chosen, pending[0]);
    RowAdded(help, children, seeds, rows, chosen, row, expands);
    StillWaiting(help, children, seeds, chosen, rest, row.route, expands);
    StillComplete(help, children, seeds, rows, chosen, rest, row, expands);
    forall r ensures r in seen + {row.route} <==> Probed(rows + [row], r) {
      ProbedGrows(rows, row, r);
    }
  }

  lemma StartInv(help: Probe, children: Children, entries: seq<string>)
    ensures Inv(help, children, Seeds(entries), [], map[], Seeds(entries), {})
  {
    var seeds := Seeds(entries);
    forall i | 0 <= i < |seeds|
      ensures 1 <= |seeds[i]| <= DEPTH && Justified(help, children, seeds, map[], seeds[i])
    {
      assert seeds[i] in seeds;
    }
  }

  /** The lexicographic measure: how many routes of length 1 to 6 are pending. */
  datatype Depths = Depths(n1: nat, n2: nat, n3: nat, n4: nat, n5: nat, n6: nat)

  function DepthsOf(pending: seq<Route>): Depths {
    Depths(AtDepth(pending, 1), AtDepth(pending, 2), AtDepth(pending, 3),
           AtDepth(pending, 4), AtDepth(pending, 5), AtDepth(pending, 6))
  }

  predicate Smaller(b: Depths, a: Depths) {
    a.n1 < b.n1 || (a.n1 == b.n1 && (
    a.n2 < b.n2 || (a.n2 == b.n2 && (
    a.n3 < b.n3 || (a.n3 == b.n3 && (
    a.n4 < b.n4 || (a.n4 == b.n4 && (
    a.n5 < b.n5 || (a.n5 == b.n5 && a.n6 < b.n6)))))))))
  }

  lemma PopIsSmaller(pending: seq<Route>, found: seq<Route>)
    requires pending != [] && forall i | 0 <= i < |found| :: |found[i]| == |pending[0]| + 1
    requires 1 <= |pending[0]| <= DEPTH
    ensures Smaller(DepthsOf(pending), DepthsOf(pending[1..] + found))
  {
    PopDecreases(pending, found, 1);
    PopDecreases(pending, found, 2);
    PopDecreases(pending, found, 3);
    PopDecreases(pending, found, 4);
    PopDecreases(pending, found, 5);
    PopDecreases(pending, found, 6);
  }

  /** One round of the loop. */
  method Round(help: Probe, children: Children, ghost seeds: seq<Route>, rows: seq<Row>,
               ghost chosen: map<(string, string), Route>, pending: seq<Route>, seen: set<Route>,
               expanded: set<(string, string)>)
    returns (rows': seq<Row>, ghost chosen': map<(string, string), Route>, pending': seq<Route>,
             seen': set<Route>, expanded': set<(string, string)>)
    requires pending != [] && expanded == chosen.Keys
    requires Inv(help, children, seeds, rows, chosen, pending, seen)
    ensures expanded' == chosen'.Keys
    ensures Inv(help, children, seeds, rows', chosen', pending', seen')
    ensures Smaller(DepthsOf(pending), DepthsOf(pending'))
  {
    var route := pending[0];
    rows', chosen', seen', expanded' := rows, chosen, seen, expanded;
    if route in seen {
      pending' := pending[1..];
      PopIsSmaller(pending, []);
      assert pending[1..] + [] == pending[1..];
      SkipKeepsInv(help, children, seeds, rows, chosen, pending, seen);
    } else {
      var row, expands, found := ProbeRoute(help, children, expanded, route);
      PopIsSmaller(pending, found);
      ProbeKeepsInv(help, children, seeds, rows, chosen, pending, seen, row, expands, found);
      rows', seen', pending' := rows + [row], seen + {route}, pending[1..] + found;
      chosen' := Choose(help, chosen, route, expands);
      expanded' := if expands then expanded + {Identity(help, route)} else expanded;
    }
  }

  /** The worklist loop. For every `--help` oracle with finite lists of children it ends, with
      consistent rows that left nothing out; the exit code is 0 when every route gave its help. */
  method Explore(help: Probe, children: Children, entries: seq<string>)
    returns (rows: seq<Row>, exitCode: int, ghost chosen: map<(string, string), Route>)
    ensures Consistent(help, children, Seeds(entries), rows, chosen)
    ensures Complete(help, children, Seeds(entries), rows, chosen, [])
    ensures exitCode == 0 <==> forall i | 0 <= i < |rows| :: help(rows[i].route).code == Some(0)
  {
    ghost var seeds := Seeds(entries);
    var pending := Seeds(entries);
    var seen: set<Route> := {};
    var expanded: set<(string, string)> := {};
    rows, chosen := [], map[];
    StartInv(help, children, entries);
    while pending != []
      invariant expanded == chosen.Keys
      invariant Inv(help, children, seeds, rows, chosen, pending, seen)
      decreases DepthsOf(pending).n1, DepthsOf(pending).n2, DepthsOf(pending).n3,
                DepthsOf(pending).n4, DepthsOf(pending).n5, DepthsOf(pending).n6
    {
      rows, chosen, pending, seen, expanded :=
        Round(help, children, seeds, rows, chosen, pending, seen, expanded);
    }
    exitCode := if forall row | row in rows :: row.status == HelpOnly then 0 else 1;
    forall i | 0 <= i < |rows| ensures rows[i].status == HelpOnly <==> help(rows[i].route).code == Some(0) {
      assert RowIsRight(help, children, seeds, chosen, rows[i]);
    }
  }

  // ---- what follows for a finished exploration --------------------------------------------

  /** Where the exploration starts. */
  lemma SeedsAre(entries: seq<string>, r: Route)
    ensures r in Seeds(entries) <==>
              || (|r| == 1 && r[0] in entries)
              || r == ["simplicio-loop", "tasks"] || r == ["simplicio-loop", "tasks", "run"]
  {
    var rs := Singles(entries);
    assert forall i | 0 <= i < |rs| :: rs[i] in Seeds(entries);
    if |r| == 1 && r[0] in entries {
      var i :| 0 <= i < |entries| && entries[i] == r[0];
      assert rs[i] == r;
    }
  }

  /** What a row tells: the route has at most six words, the status is that of the exit code, and there is a
      warning if commands are listed that were not probed because of this route. */
  lemma RowsAreRight(help: Probe, children: Children, seeds: seq<Route>, rows: seq<Row>,
                     chosen: map<(string, string), Route>, row: Row)
    requires Consistent(help, children, seeds, rows, chosen) && row in rows
    ensures var r, code := row.route, help(row.route).code;
            && 1 <= |r| <= 6
            && row.status == (if code == None then HelpBlocked else if code == Some(0) then HelpOnly else HelpFailed)
            && (row.warning <==> code == Some(0) && children(help(r).stdout) != []
                                 && !((r[0], help(r).stdout) in chosen && chosen[(r[0], help(r).stdout)] == r))
  {
    assert RowIsRight(help, children, seeds, chosen, row);
  }

  /** The entry points and the two routes named by the source are probed. */
  lemma SeedsAreProbed(help: Probe, children: Children, entries: seq<string>, rows: seq<Row>,
                       chosen: map<(string, string), Route>)
    requires Complete(help, children, Seeds(entries), rows, chosen, [])
    ensures forall e | e in entries :: Probed(rows, [e])
    ensures Probed(rows, ["simplicio-loop", "tasks"]) && Probed(rows, ["simplicio-loop", "tasks", "run"])
  {
    forall r: Route ensures r in Seeds(entries) ==> Probed(rows, r) {
    }
    forall e | e in entries ensures Probed(rows, [e]) {
      SeedsAre(entries, [e]);
    }
    SeedsAre(entries, ["simplicio-loop", "tasks"]);
    SeedsAre(entries, ["simplicio-loop", "tasks", "run"]);
  }

  /** A text is expanded for one route only: two routes with the same executable and text do not
      both have subcommands that were probed because of them. */
  lemma ExpandedOnce(help: Probe, children: Children, seeds: seq<Route>, rows: seq<Row>,
                     chosen: map<(string, string), Route>, a: Route, x: string, b: Route, y: string)
    requires Consistent(help, children, seeds, rows, chosen)
    requires a != [] && b != [] && a[0] == b[0] && help(a).stdout == help(b).stdout
    requires Probed(rows, a + [x]) && a + [x] !in seeds
    requires Probed(rows, b + [y]) && b + [y] !in seeds
    ensures a == b
  {
    ParentIsChosen(help, children, seeds, rows, chosen, a, x);
    ParentIsChosen(help, children, seeds, rows, chosen, b, y);
  }

  /** A probed route that is no seed was listed by its parent, which was probed and answered. */
  lemma ParentIsChosen(help: Probe, children: Children, seeds: seq<Route>, rows: seq<Row>,
                       chosen: map<(string, string), Route>, a: Route, x: string)
    requires Consistent(help, children, seeds, rows, chosen)
    requires a != [] && Probed(rows, a + [x]) && a + [x] !in seeds
    ensures Identity(help, a) in chosen && chosen[Identity(help, a)] == a
    ensures Probed(rows, a) && Answers(help, a) && |a| < DEPTH && x in children(help(a).stdout)
  {
    var r := a + [x];
    var i :| 0 <= i < |rows| && rows[i].route == r;
    assert RowIsRight(help, children, seeds, chosen, rows[i]);
    assert r[..|r| - 1] == a;
  }

  /** Every help text that was printed above the depth bound is explored: some probed route with
      the same executable and text has all its listed subcommands probed. */
  lemma EveryTextIsExplored(help: Probe, children: Children, seeds: seq<Route>, rows: seq<Row>,
                            chosen: map<(string, string), Route>, r: Route)
    requires Consistent(help, children, seeds, rows, chosen)
    requires Complete(help, children, seeds, rows, chosen, [])
    requires Probed(rows, r) && help(r).code == Some(0) && |r| < 6
    ensures exists q :: Probed(rows, q) && q != [] && r != [] && q[0] == r[0] && help(q).stdout == help(r).stdout
              && forall name | name in children(help(r).stdout) :: Probed(rows, q + [name])
  {
    var i :| 0 <= i < |rows| && rows[i].route == r;
    assert RowIsRight(help, children, seeds, chosen, rows[i]);
    var q := chosen[Identity(help, r)];
    assert Probed(rows, q) && Identity(help, q) == Identity(help, r);
    var j :| 0 <= j < |rows| && rows[j].route == q;
    assert RowIsRight(help, children, seeds, chosen, rows[j]);
    assert forall name | name in children(help(r).stdout) :: Probed(rows, q + [name]);
  }
}
