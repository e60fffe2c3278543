/** The responder allocator: tickets go greedily to the eligible responder with most hours
    left. The batch keeps its own copy of the hours left and decrements it, while the
    truth is what the table of assignments adds up to. */
module Allocator {
  import opened Wrappers
  import opened Text

  datatype Profile = Profile(username: string, resourceNames: set<string>, weeklyHours: real, active: bool)

  datatype Status = Assigned | InProgress | Done

  datatype Assignment = Assignment(incidentId: string, assignee: string, service: string, hours: real, status: Status)

  datatype Ticket = Ticket(incidentId: string, service: string, severity: string, resourceNames: seq<string>)

  datatype Row = Row(profile: Profile, booked: real, remaining: real)

  // ---------- capacity ----------

  predicate Counts(a: Assignment, username: string) {
    a.assignee == username && a.status != Done
  }

  /** Hours the table of assignments gives a responder. */
  function Allocated(table: seq<Assignment>, username: string): real {
    if table == [] then 0.0 else
      var last := table[|table| - 1];
      Allocated(table[..|table| - 1], username) + if Counts(last, username) then last.hours else 0.0
  }

  function RowOf(p: Profile, table: seq<Assignment>): Row {
    var used := Allocated(table, p.username);
    Row(p, used, if p.weeklyHours > used then p.weeklyHours - used else 0.0)
  }

  predicate Before(a: string, b: string) {
    if a == "" then b != ""
    else if b == "" then false
    else a[0] < b[0] || (a[0] == b[0] && Before(a[1..], b[1..]))
  }

  function Inserted(sorted: seq<Profile>, p: Profile): seq<Profile> {
    if sorted == [] || Before(p.username, sorted[0].username) then [p] + sorted
    else [sorted[0]] + Inserted(sorted[1..], p)
  }

  /** `sorted(CAPACITY_PROFILES.items())` */
  function ByUsername(profiles: seq<Profile>): seq<Profile> {
    if profiles == [] then [] else Inserted(ByUsername(profiles[1..]), profiles[0])
  }

  /** What `_capacity_rows` computes. */
  function CapacityRows(profiles: seq<Profile>, table: seq<Assignment>): seq<Row> {
    var sorted := ByUsername(profiles);
    seq(|sorted|, i requires 0 <= i < |sorted| => RowOf(sorted[i], table))
  }

  ghost predicate DistinctNames(profiles: seq<Profile>) {
    profiles == [] ||
    ((forall q :: q in profiles[1..] ==> q.username != profiles[0].username) && DistinctNames(profiles[1..]))
  }

  // ---------- choosing ----------

  function LowerAll(names: set<string>): set<string> {
    set n | n in names :: Lower(n)
  }

  function Required(t: Ticket): set<string> {
    set n | n in [t.service] + t.resourceNames && n != "" :: Lower(n)
  }

  predicate Matches(p: Profile, t: Ticket) {
    p.active && (LowerAll(p.resourceNames) * Required(t) != {} || "all" in LowerAll(p.resourceNames))
  }

  predicate Eligible(row: Row, t: Ticket) {
    row.remaining > 0.0 && Matches(row.profile, t)
  }

  /** `max(candidates, key=remaining_hours)`: the first of the eligible rows with most left. */
  function Best(rows: seq<Row>, t: Ticket): Option<nat> {
    if rows == [] then None else
      var k := |rows| - 1;
      var best := Best(rows[..k], t);
      if Eligible(rows[k], t) && (best.None? || (best.value < k && rows[best.value].remaining < rows[k].remaining))
      then Some(k) else best
  }

  lemma {:induction false} BestIsFirstMaximum(rows: seq<Row>, t: Ticket)
    ensures Best(rows, t).None? <==> forall i :: 0 <= i < |rows| ==> !Eligible(rows[i], t)
    ensures Best(rows, t).Some? ==>
      var b := Best(rows, t).value;
      && b < |rows| && Eligible(rows[b], t)
      && (forall i :: 0 <= i < |rows| && Eligible(rows[i], t) ==> rows[i].remaining <= rows[b].remaining)
      && (forall i :: 0 <= i < b && Eligible(rows[i], t) ==> rows[i].remaining < rows[b].remaining)
  {
    if rows != [] {
      var k := |rows| - 1;
      BestIsFirstMaximum(rows[..k], t);
      assert forall i :: 0 <= i < k ==> rows[..k][i] == rows[i];
    }
  }

  function SeverityHours(severity: string): (hours: real)
    ensures 1.0 <= hours <= 4.0
  {
    var s := Lower(severity);
    if s == "critical" then 4.0
    else if s == "high" then 3.0
    else if s == "medium" then 2.0
    else if s == "low" then 1.0
    else 2.0
  }

  /** Hours by severity, whatever its case; any other severity counts as medium. */
  lemma SeverityHoursExactly(severity: string)
    ensures SeverityHours(severity) == 4.0 <==> Lower(severity) == "critical"
    ensures SeverityHours(severity) == 3.0 <==> Lower(severity) == "high"
    ensures SeverityHours(severity) == 1.0 <==> Lower(severity) == "low"
    ensures SeverityHours(severity) == 2.0 <==> Lower(severity) !in {"critical", "high", "low"}
  {
    hide Lower;
    assert "critical"[0] == 'c' && "high"[0] == 'h' && "medium"[0] == 'm' && "low"[0] == 'l';
  }

  /** The responder is active and has a resource that is "all", or is called like the ticket's
      service or one of its resources, whatever the case. */
  ghost predicate Suits(p: Profile, t: Ticket) {
    p.active && exists name :: name in p.resourceNames && Covers(name, t)
  }

  ghost predicate Covers(name: string, t: Ticket) {
    || Lower(name) == "all"
    || (t.service != "" && Lower(name) == Lower(t.service))
    || exists i :: 0 <= i < |t.resourceNames| && t.resourceNames[i] != "" && Lower(name) == Lower(t.resourceNames[i])
  }

  lemma RequiredExactly(t: Ticket, low: string)
    ensures low in Required(t) <==>
      (t.service != "" && low == Lower(t.service)) ||
      exists i :: 0 <= i < |t.resourceNames| && t.resourceNames[i] != "" && low == Lower(t.resourceNames[i])
  {
    hide Lower;
    var all := [t.service] + t.resourceNames;
    assert all[0] == t.service && forall i :: 0 < i < |all| ==> all[i] == t.resourceNames[i - 1];
    if low in Required(t) {
      var n :| n in all && n != "" && low == Lower(n);
      var i :| 0 <= i < |all| && all[i] == n;
      assert i > 0 ==> t.resourceNames[i - 1] != "";
    }
    if t.service != "" && low == Lower(t.service) {
      assert t.service in all;
    }
    if i :| 0 <= i < |t.resourceNames| && t.resourceNames[i] != "" && low == Lower(t.resourceNames[i]) {
      assert all[i + 1] in all;
    }
  }

  lemma MatchesExactly(p: Profile, t: Ticket)
    ensures Matches(p, t) <==> Suits(p, t)
  {
    hide Lower, Required;
    forall low ensures low in Required(t) <==>
      (t.service != "" && low == Lower(t.service)) ||
      exists i :: 0 <= i < |t.resourceNames| && t.resourceNames[i] != "" && low == Lower(t.resourceNames[i])
    {
      RequiredExactly(t, low);
    }
    if Matches(p, t) && "all" !in LowerAll(p.resourceNames) {
      var low :| low in LowerAll(p.resourceNames) * Required(t);
    }
    if Suits(p, t) && "all" !in LowerAll(p.resourceNames) {
      var name :| name in p.resourceNames && Covers(name, t);
      assert Lower(name) in LowerAll(p.resourceNames) * Required(t);
    }
  }

  function Min(a: real, b: real): real {
    if a <= b then a else b
  }

  predicate Taken(table: seq<Assignment>, incidentId: string) {
    exists i :: 0 <= i < |table| && table[i].incidentId == incidentId
  }

  function NewAssignment(row: Row, t: Ticket): Assignment {
    Assignment(t.incidentId, row.profile.username, t.service, Min(row.remaining, SeverityHours(t.severity)), Assigned)
  }

  // ---------- a batch, recomputing the capacity for every ticket ----------

  /** The table after one ticket. */
  function AfterTicket(profiles: seq<Profile>, table: seq<Assignment>, t: Ticket): seq<Assignment> {
    var rows := CapacityRows(profiles, table);
    var best := Best(rows, t);
    if !Taken(table, t.incidentId) && best.Some? && best.value < |rows| then table + [NewAssignment(rows[best.value], t)] else table
  }

  function AfterBatch(profiles: seq<Profile>, table: seq<Assignment>, tickets: seq<Ticket>): seq<Assignment> {
    if tickets == [] then table else
      AfterTicket(profiles, AfterBatch(profiles, table, tickets[..|tickets| - 1]), tickets[|tickets| - 1])
  }

  predicate Unmatched(profiles: seq<Profile>, table: seq<Assignment>, t: Ticket) {
    !Taken(table, t.incidentId) && Best(CapacityRows(profiles, table), t).None?
  }

  function UnmatchedIn(profiles: seq<Profile>, table: seq<Assignment>, tickets: seq<Ticket>): seq<string> {
    if tickets == [] then [] else
      var init, t := tickets[..|tickets| - 1], tickets[|tickets| - 1];
      UnmatchedIn(profiles, table, init) +
      if Unmatched(profiles, AfterBatch(profiles, table, init), t) then [t.incidentId] else []
  }

  /** Tickets that already have an assignment when their turn comes. */
  function SkippedIn(profiles: seq<Profile>, table: seq<Assignment>, tickets: seq<Ticket>): nat {
    if tickets == [] then 0 else
      var init, t := tickets[..|tickets| - 1], tickets[|tickets| - 1];
      SkippedIn(profiles, table, init) + if Taken(AfterBatch(profiles, table, init), t.incidentId) then 1 else 0
  }

  // ---------- one ticket ----------

  lemma AllocatedPush(table: seq<Assignment>, a: Assignment, username: string)
    ensures Allocated(table + [a], username) == Allocated(table, username) + if Counts(a, username) then a.hours else 0.0
  {
    assert (table + [a])[..|table|] == table;
  }

  lemma {:induction false} InsertedNames(sorted: seq<Profile>, p: Profile)
    requires DistinctNames(sorted) && forall q :: q in sorted ==> q.username != p.username
    ensures DistinctNames(Inserted(sorted, p))
    ensures forall q :: q in Inserted(sorted, p) <==> q == p || q in sorted
  {
    if sorted != [] && !Before(p.username, sorted[0].username) {
      InsertedNames(sorted[1..], p);
      assert Inserted(sorted, p)[1..] == Inserted(sorted[1..], p);
      assert forall q :: q in sorted <==> q == sorted[0] || q in sorted[1..];
    }
  }

  lemma {:induction false} DistinctAt(profiles: seq<Profile>, i: nat, j: nat)
    requires DistinctNames(profiles) && i < j < |profiles|
    ensures profiles[i].username != profiles[j].username
  {
    if i > 0 {
      DistinctAt(profiles[1..], i - 1, j - 1);
    }
  }

  lemma {:induction false} BeforeAsymmetric(a: string, b: string)
    requires Before(a, b)
    ensures !Before(b, a)
  {
    if a != "" && a[0] == b[0] {
      BeforeAsymmetric(a[1..], b[1..]);
    }
  }

  /** Names in order: one is a beginning of the other, or smaller at the first difference. */
  lemma {:induction false} BeforeExactly(a: string, b: string)
    ensures Before(a, b) <==>
      exists k :: 0 <= k <= |a| && k < |b| && a[..k] == b[..k] && (k < |a| ==> a[k] < b[k])
  {
    if a != "" && b != "" {
      var s, t := a[1..], b[1..];
      BeforeExactly(s, t);
      if k :| 0 <= k <= |s| && k < |t| && s[..k] == t[..k] && (k < |s| ==> s[k] < t[k]) {
        if a[0] == b[0] {
          assert a[..k + 1] == [a[0]] + s[..k] == b[..k + 1];
        }
      }
      if k :| 0 <= k <= |a| && k < |b| && a[..k] == b[..k] && (k < |a| ==> a[k] < b[k]) {
        if k > 0 {
          assert a[0] == a[..k][0] == b[..k][0] == b[0];
          assert s[..k - 1] == a[..k][1..] == b[..k][1..] == t[..k - 1];
        }
      }
      if a[0] < b[0] {
        assert a[..0] == b[..0];
      }
    } else if b != "" {
      assert a[..0] == b[..0];
    }
  }

  lemma {:induction false} BeforeTotal(a: string, b: string)
    ensures a == b || Before(a, b) || Before(b, a)
  {
    if a != "" && b != "" && a[0] == b[0] {
      BeforeTotal(a[1..], b[1..]);
      assert a == [a[0]] + a[1..] && b == [b[0]] + b[1..];
    }
  }

  lemma {:induction false} BeforeTransitive(a: string, b: string, c: string)
    requires Before(a, b) && Before(b, c)
    ensures Before(a, c)
  {
    if a != "" && a[0] == b[0] && b[0] == c[0] {
      BeforeTransitive(a[1..], b[1..], c[1..]);
    }
  }

  ghost predicate Ascending(profiles: seq<Profile>) {
    forall i :: 0 < i < |profiles| ==> !Before(profiles[i].username, profiles[i - 1].username)
  }

  lemma {:induction false} InsertedAscending(sorted: seq<Profile>, p: Profile)
    requires Ascending(sorted)
    ensures Ascending(Inserted(sorted, p))
    ensures Inserted(sorted, p)[0] == p || (sorted != [] && Inserted(sorted, p)[0] == sorted[0])
  {
    if sorted == [] {
    } else if Before(p.username, sorted[0].username) {
      BeforeAsymmetric(p.username, sorted[0].username);
    } else {
      assert forall i :: 0 < i < |sorted[1..]| ==> sorted[1..][i] == sorted[i + 1] && sorted[1..][i - 1] == sorted[i];
      InsertedAscending(sorted[1..], p);
    }
  }

  /** The rows stand in the order of the responders' names. */
  lemma {:induction false} ByUsernameAscending(profiles: seq<Profile>)
    ensures Ascending(ByUsername(profiles))
  {
    if profiles != [] {
      ByUsernameAscending(profiles[1..]);
      InsertedAscending(ByUsername(profiles[1..]), profiles[0]);
    }
  }

  lemma {:induction false} ByUsernameNames(profiles: seq<Profile>)
    requires DistinctNames(profiles)
    ensures DistinctNames(ByUsername(profiles))
    ensures forall q :: q in ByUsername(profiles) <==> q in profiles
  {
    if profiles != [] {
      ByUsernameNames(profiles[1..]);
      InsertedNames(ByUsername(profiles[1..]), profiles[0]);
      assert forall q :: q in profiles <==> q == profiles[0] || q in profiles[1..];
    }
  }

  /** Two of the rows stand in the order of their names. */
  lemma {:induction false} AscendingAt(profiles: seq<Profile>, i: nat, j: nat)
    requires Ascending(profiles) && DistinctNames(profiles) && i < j < |profiles|
    ensures Before(profiles[i].username, profiles[j].username)
  {
    hide Before;
    DistinctAt(profiles, j - 1, j);
    BeforeTotal(profiles[j - 1].username, profiles[j].username);
    if i < j - 1 {
      AscendingAt(profiles, i, j - 1);
      BeforeTransitive(profiles[i].username, profiles[j - 1].username, profiles[j].username);
    }
  }

  /** The same responders with the same hours left. The batch does not keep the hours
      allocated up to date in its rows. */
  ghost predicate SameCapacity(a: seq<Row>, b: seq<Row>) {
    |a| == |b| && forall i :: 0 <= i < |a| ==> a[i].profile == b[i].profile && a[i].remaining == b[i].remaining
  }

  lemma {:induction false} BestOfSame(a: seq<Row>, b: seq<Row>, t: Ticket)
    requires SameCapacity(a, b)
    ensures Best(a, t) == Best(b, t)
  {
    hide Matches;
    if a != [] {
      BestIsFirstMaximum(a[..|a| - 1], t);
      BestOfSame(a[..|a| - 1], b[..|b| - 1], t);
    }
  }

  /** The chosen responder's hours left, decremented in place, are what recomputing from the
      grown table gives; those of every other responder stay. */
  lemma DecrementIsRecompute(profiles: seq<Profile>, table: seq<Assignment>, available: seq<Row>, b: nat, t: Ticket)
    requires DistinctNames(profiles) && SameCapacity(available, CapacityRows(profiles, table))
    requires b < |available| && Eligible(available[b], t)
    ensures var a := NewAssignment(available[b], t);
      && a == NewAssignment(CapacityRows(profiles, table)[b], t) && a.hours > 0.0
      && SameCapacity(available[b := available[b].(remaining := available[b].remaining - a.hours)],
                      CapacityRows(profiles, table + [a]))
  {
    hide ByUsername, Allocated, DistinctNames, SeverityHours, Matches;
    var rows := CapacityRows(profiles, table);
    var a := NewAssignment(available[b], t);
    var rows' := CapacityRows(profiles, table + [a]);
    var sorted := ByUsername(profiles);
    ByUsernameNames(profiles);
    forall i | 0 <= i < |sorted|
      ensures rows'[i].profile == rows[i].profile
      ensures rows'[i].remaining == if i == b then rows[b].remaining - a.hours else rows[i].remaining
    {
      AllocatedPush(table, a, sorted[i].username);
      if i < b {
        DistinctAt(sorted, i, b);
      } else if b < i {
        DistinctAt(sorted, b, i);
      }
    }
  }

  // ---------- a batch never overbooks ----------

  /** Weekly hours of a responder; zero when there is no profile. */
  function Weekly(profiles: seq<Profile>, username: string): real {
    if profiles == [] then 0.0
    else if profiles[0].username == username then profiles[0].weeklyHours
    else Weekly(profiles[1..], username)
  }

  lemma WeeklyOf(profiles: seq<Profile>, p: Profile)
    requires DistinctNames(profiles) && p in profiles
    ensures Weekly(profiles, p.username) == p.weeklyHours
  {
  }

  lemma TicketBound(profiles: seq<Profile>, table: seq<Assignment>, t: Ticket, username: string)
    requires DistinctNames(profiles)
    ensures var table' := AfterTicket(profiles, table, t);
      && table <= table' && |table'| <= |table| + 1
      && Allocated(table, username) <= Allocated(table', username)
      && (Allocated(table', username) == Allocated(table, username) ||
          Allocated(table', username) <= Weekly(profiles, username))
      && (table' != table ==>
            && table'[|table|].hours > 0.0 && table'[|table|].status == Assigned
            && table'[|table|].incidentId == t.incidentId && !Taken(table, t.incidentId))
  {
    var rows := CapacityRows(profiles, table);
    BestIsFirstMaximum(rows, t);
    if AfterTicket(profiles, table, t) != table {
      var b := Best(rows, t).value;
      var p := rows[b].profile;
      DecrementIsRecompute(profiles, table, rows, b, t);
      AllocatedPush(table, NewAssignment(rows[b], t), username);
      ByUsernameNames(profiles);
      assert p == ByUsername(profiles)[b];
      WeeklyOf(profiles, p);
    }
  }

  /** Whatever was booked before, no batch takes a responder beyond the weekly hours unless
      nothing was added; existing assignments stay, and every new one has positive hours. */
  lemma {:induction false} BatchBound(profiles: seq<Profile>, table: seq<Assignment>, tickets: seq<Ticket>, username: string)
    requires DistinctNames(profiles)
    ensures var table' := AfterBatch(profiles, table, tickets);
      && table <= table'
      && Allocated(table, username) <= Allocated(table', username)
      && (Allocated(table', username) == Allocated(table, username) ||
          Allocated(table', username) <= Weekly(profiles, username))
      && (forall i :: |table| <= i < |table'| ==> table'[i].hours > 0.0)
  {
    if tickets != [] {
      var init, t := tickets[..|tickets| - 1], tickets[|tickets| - 1];
      BatchBound(profiles, table, init, username);
      TicketBound(profiles, AfterBatch(profiles, table, init), t, username);
    }
  }

  /** Hours that the assignments made so far leave a responder. */
  ghost function Left(p: Profile, table: seq<Assignment>): real {
    p.weeklyHours - Allocated(table, p.username)
  }

  /** The assignment gives the ticket to this responder, who suits it and has hours left: as
      many as its severity calls for, or all that are left. Nobody else who suits it has more
      left, and whoever has as many has a later name. */
  ghost predicate GivenTo(profiles: seq<Profile>, before: seq<Assignment>, a: Assignment, t: Ticket, p: Profile) {
    var left, severity := Left(p, before), Lower(t.severity);
    && Suits(p, t) && left > 0.0 && a.assignee == p.username
    && a.incidentId == t.incidentId && a.service == t.service && a.status == Assigned
    && (severity == "critical" ==> a.hours == if left < 4.0 then left else 4.0)
    && (severity == "high" ==> a.hours == if left < 3.0 then left else 3.0)
    && (severity == "low" ==> a.hours == if left < 1.0 then left else 1.0)
    && (severity !in {"critical", "high", "low"} ==> a.hours == if left < 2.0 then left else 2.0)
    && (forall q :: q in profiles && Suits(q, t) ==> NoBetter(q, p, before))
  }

  ghost predicate NoBetter(q: Profile, p: Profile, table: seq<Assignment>) {
    q == p || Left(q, table) < Left(p, table) || (Left(q, table) == Left(p, table) && Before(p.username, q.username))
  }

  ghost predicate RightlyMade(profiles: seq<Profile>, tickets: seq<Ticket>, table: seq<Assignment>, i: nat)
    requires i < |table|
  {
    exists t, p :: t in tickets && p in profiles && GivenTo(profiles, table[..i], table[i], t, p)
  }

  lemma RowLeft(p: Profile, table: seq<Assignment>)
    ensures RowOf(p, table).profile == p
    ensures RowOf(p, table).remaining == if Left(p, table) > 0.0 then Left(p, table) else 0.0
  {
  }

  /** The row chosen is the best for the ticket. */
  lemma BestIsNoWorse(profiles: seq<Profile>, table: seq<Assignment>, t: Ticket, q: Profile)
    requires DistinctNames(profiles) && Best(CapacityRows(profiles, table), t).Some?
    requires q in profiles && Suits(q, t)
    ensures var b := Best(CapacityRows(profiles, table), t).value;
      && b < |ByUsername(profiles)| && Left(ByUsername(profiles)[b], table) > 0.0
      && NoBetter(q, ByUsername(profiles)[b], table)
  {
    hide Suits, Matches, ByUsername, DistinctNames, Before, Left, RowOf, Ascending;
    var rows, sorted := CapacityRows(profiles, table), ByUsername(profiles);
    BestIsFirstMaximum(rows, t);
    ByUsernameNames(profiles);
    ByUsernameAscending(profiles);
    var b := Best(rows, t).value;
    var i :| 0 <= i < |sorted| && sorted[i] == q;
    RowLeft(sorted[b], table);
    RowLeft(q, table);
    MatchesExactly(q, t);
    assert rows[i] == RowOf(q, table) && rows[b] == RowOf(sorted[b], table);
    if b < i {
      AscendingAt(sorted, b, i);
    }
  }

  lemma TicketMatches(profiles: seq<Profile>, table: seq<Assignment>, t: Ticket) returns (p: Option<Profile>)
    requires DistinctNames(profiles)
    ensures p.None? ==> AfterTicket(profiles, table, t) == table
    ensures p.Some? ==> p.value in profiles && exists a :: AfterTicket(profiles, table, t) == table + [a] && GivenTo(profiles, table, a, t, p.value)
  {
    hide SeverityHours, Matches, Suits, ByUsername, DistinctNames, Left, RowOf, NoBetter, Lower;
    var rows := CapacityRows(profiles, table);
    BestIsFirstMaximum(rows, t);
    p := None;
    if !Taken(table, t.incidentId) && Best(rows, t).Some? {
      var row := rows[Best(rows, t).value];
      ByUsernameNames(profiles);
      var r := ByUsername(profiles)[Best(rows, t).value];
      assert row == RowOf(r, table);
      RowLeft(r, table);
      MatchesExactly(r, t);
      SeverityHoursExactly(t.severity);
      forall q | q in profiles && Suits(q, t) ensures NoBetter(q, r, table) {
        BestIsNoWorse(profiles, table, t, q);
      }
      p := Some(r);
      assert GivenTo(profiles, table, NewAssignment(row, t), t, r);
    }
  }

  /** A ticket goes unmatched exactly when nobody has its incident and everybody who suits it
      has all their hours booked. */
  lemma UnmatchedExactly(profiles: seq<Profile>, table: seq<Assignment>, t: Ticket)
    requires DistinctNames(profiles)
    ensures Unmatched(profiles, table, t) <==>
      && (forall i :: 0 <= i < |table| ==> table[i].incidentId != t.incidentId)
      && (forall q :: q in profiles && Suits(q, t) ==> q.weeklyHours <= Allocated(table, q.username))
  {
    hide Matches, Suits, ByUsername, DistinctNames, Allocated;
    var rows, sorted := CapacityRows(profiles, table), ByUsername(profiles);
    BestIsFirstMaximum(rows, t);
    ByUsernameNames(profiles);
    forall i | 0 <= i < |rows|
      ensures Eligible(rows[i], t) <==> Suits(sorted[i], t) && sorted[i].weeklyHours > Allocated(table, sorted[i].username)
    {
      MatchesExactly(sorted[i], t);
    }
    forall q | q in profiles ensures exists i :: 0 <= i < |sorted| && sorted[i] == q {
      assert q in sorted;
    }
  }

  /** Every assignment a batch adds is the right one for its ticket at its turn. */
  lemma {:induction false} BatchMatches(profiles: seq<Profile>, table: seq<Assignment>, tickets: seq<Ticket>)
    requires DistinctNames(profiles)
    ensures var table' := AfterBatch(profiles, table, tickets);
      && table <= table'
      && forall i :: |table| <= i < |table'| ==> RightlyMade(profiles, tickets, table', i)
  {
    hide AfterTicket, GivenTo, DistinctNames;
    if tickets != [] {
      var init, t := tickets[..|tickets| - 1], tickets[|tickets| - 1];
      BatchMatches(profiles, table, init);
      var before := AfterBatch(profiles, table, init);
      var p := TicketMatches(profiles, before, t);
      var table' := AfterBatch(profiles, table, tickets);
      assert tickets == init + [t];
      forall i | |table| <= i < |table'| ensures RightlyMade(profiles, tickets, table', i) {
        if i < |before| {
          assert RightlyMade(profiles, init, before, i) && table'[..i] == before[..i] && table'[i] == before[i];
          var u, q :| u in init && q in profiles && GivenTo(profiles, before[..i], before[i], u, q);
          assert u in tickets;
        } else {
          assert table'[..i] == before && t in tickets;
        }
      }
    }
  }

  /** Each ticket is assigned, unmatched or skipped. */
  lemma {:induction false} BatchCounts(profiles: seq<Profile>, table: seq<Assignment>, tickets: seq<Ticket>)
    requires DistinctNames(profiles)
    ensures |AfterBatch(profiles, table, tickets)| - |table| + |UnmatchedIn(profiles, table, tickets)|
      + SkippedIn(profiles, table, tickets) == |tickets|
  {
    if tickets != [] {
      var init, t := tickets[..|tickets| - 1], tickets[|tickets| - 1];
      BatchCounts(profiles, table, init);
      BestIsFirstMaximum(CapacityRows(profiles, AfterBatch(profiles, table, init)), t);
    }
  }

  // ---------- repeating a batch ----------

  /** Nobody can take the ticket, or somebody has it. */
  predicate Closed(profiles: seq<Profile>, table: seq<Assignment>, t: Ticket) {
    Taken(table, t.incidentId) || Best(CapacityRows(profiles, table), t).None?
  }

  /** Capacity only shrinks during a batch, so a ticket nobody can take stays so. */
  lemma StaysClosed(profiles: seq<Profile>, table: seq<Assignment>, t: Ticket, u: Ticket)
    requires DistinctNames(profiles) && Closed(profiles, table, t)
    ensures Closed(profiles, AfterTicket(profiles, table, u), t)
  {
    var table' := AfterTicket(profiles, table, u);
    TicketBound(profiles, table, u, "");
    if Taken(table, t.incidentId) {
      var i :| 0 <= i < |table| && table[i].incidentId == t.incidentId;
      assert table'[i].incidentId == t.incidentId;
    } else {
      var rows, rows' := CapacityRows(profiles, table), CapacityRows(profiles, table');
      BestIsFirstMaximum(rows, t);
      BestIsFirstMaximum(rows', t);
      forall i | 0 <= i < |rows'| ensures !Eligible(rows'[i], t) {
        TicketBound(profiles, table, u, rows[i].profile.username);
        assert !Eligible(rows[i], t);
      }
    }
  }

  lemma TicketCloses(profiles: seq<Profile>, table: seq<Assignment>, t: Ticket)
    requires DistinctNames(profiles)
    ensures Closed(profiles, AfterTicket(profiles, table, t), t)
  {
    var rows := CapacityRows(profiles, table);
    var table' := AfterTicket(profiles, table, t);
    BestIsFirstMaximum(rows, t);
    if table' != table {
      assert table'[|table|].incidentId == t.incidentId;
    }
  }

  lemma {:induction false} BatchCloses(profiles: seq<Profile>, table: seq<Assignment>, tickets: seq<Ticket>, t: Ticket)
    requires DistinctNames(profiles) && t in tickets
    ensures Closed(profiles, AfterBatch(profiles, table, tickets), t)
  {
    var init, last := tickets[..|tickets| - 1], tickets[|tickets| - 1];
    assert tickets == init + [last];
    if t in init {
      BatchCloses(profiles, table, init, t);
      StaysClosed(profiles, AfterBatch(profiles, table, init), t, last);
    } else {
      TicketCloses(profiles, AfterBatch(profiles, table, init), t);
    }
  }

  lemma {:induction false} ClosedBatch(profiles: seq<Profile>, table: seq<Assignment>, tickets: seq<Ticket>)
    requires forall t :: t in tickets ==> Closed(profiles, table, t)
    ensures AfterBatch(profiles, table, tickets) == table
  {
    if tickets != [] {
      var init, last := tickets[..|tickets| - 1], tickets[|tickets| - 1];
      assert tickets == init + [last];
      ClosedBatch(profiles, table, init);
      assert Closed(profiles, table, last);
    }
  }

  /** Repeating a request at once assigns nothing and changes nothing. */
  lemma RepeatAssignsNothing(profiles: seq<Profile>, table: seq<Assignment>, tickets: seq<Ticket>)
    requires DistinctNames(profiles)
    ensures var table' := AfterBatch(profiles, table, tickets);
      AfterBatch(profiles, table', tickets) == table'
  {
    forall t | t in tickets ensures Closed(profiles, AfterBatch(profiles, table, tickets), t) {
      BatchCloses(profiles, table, tickets, t);
    }
    ClosedBatch(profiles, AfterBatch(profiles, table, tickets), tickets);
  }

  // ---------- any interleaving of profile updates, batches and restarts ----------

  /** `CAPACITY_PROFILES[username] = profile` */
  function PutProfile(profiles: seq<Profile>, p: Profile): seq<Profile> {
    if profiles == [] then [p]
    else if profiles[0].username == p.username then [p] + profiles[1..]
    else [profiles[0]] + PutProfile(profiles[1..], p)
  }

  lemma {:induction false} PutKeepsNames(profiles: seq<Profile>, p: Profile, username: string)
    requires DistinctNames(profiles)
    ensures var profiles' := PutProfile(profiles, p);
      && DistinctNames(profiles')
      && (forall q :: q in profiles' <==> q == p || (q in profiles && q.username != p.username))
      && Weekly(profiles', username) == if username == p.username then p.weeklyHours else Weekly(profiles, username)
  {
    if profiles != [] {
      if profiles[0].username == p.username {
        assert PutProfile(profiles, p)[1..] == profiles[1..];
      } else {
        PutKeepsNames(profiles[1..], p, username);
        assert PutProfile(profiles, p)[1..] == PutProfile(profiles[1..], p);
      }
    }
  }

  /** Profiles and assignments live in the service's memory, which a restart empties. */
  datatype Op = Put(profile: Profile) | Batch(tickets: seq<Ticket>) | Restart

  datatype State = State(profiles: seq<Profile>, table: seq<Assignment>)

  function After(ops: seq<Op>): State {
    if ops == [] then State([], []) else
      var s := After(ops[..|ops| - 1]);
      match ops[|ops| - 1]
      case Put(p) => s.(profiles := PutProfile(s.profiles, p))
      case Batch(tickets) => s.(table := AfterBatch(s.profiles, s.table, tickets))
      case Restart => State([], [])
  }

  /** The most weekly hours a responder's profile has ever offered. */
  function Peak(ops: seq<Op>, username: string): (peak: real)
    ensures peak >= 0.0
  {
    if ops == [] then 0.0 else
      var before, last := Peak(ops[..|ops| - 1], username), ops[|ops| - 1];
      if last.Put? && last.profile.username == username && last.profile.weeklyHours > before
      then last.profile.weeklyHours else before
  }

  /** Each incident has at most one assignment. */
  ghost predicate DistinctIncidents(table: seq<Assignment>) {
    forall i, j :: 0 <= i < j < |table| ==> table[i].incidentId != table[j].incidentId
  }

  lemma {:induction false} BatchKeepsIncidents(profiles: seq<Profile>, table: seq<Assignment>, tickets: seq<Ticket>)
    requires DistinctNames(profiles) && DistinctIncidents(table)
    ensures DistinctIncidents(AfterBatch(profiles, table, tickets))
  {
    if tickets != [] {
      var init, t := tickets[..|tickets| - 1], tickets[|tickets| - 1];
      BatchKeepsIncidents(profiles, table, init);
      TicketBound(profiles, AfterBatch(profiles, table, init), t, "");
    }
  }

  /** Over every run, a responder is never given more than the most hours the profile ever
      offered, every assignment has positive hours, and no incident is assigned twice
      between restarts. */
  lemma {:induction false} NeverOverbooked(ops: seq<Op>, username: string)
    ensures var s := After(ops);
      && DistinctNames(s.profiles) && DistinctIncidents(s.table)
      && Weekly(s.profiles, username) <= Peak(ops, username)
      && Allocated(s.table, username) <= Peak(ops, username)
      && (forall i :: 0 <= i < |s.table| ==> s.table[i].hours > 0.0)
  {
    if ops != [] {
      var init := ops[..|ops| - 1];
      NeverOverbooked(init, username);
      match ops[|ops| - 1] {
        case Put(p) => PutKeepsNames(After(init).profiles, p, username);
        case Batch(tickets) =>
          BatchBound(After(init).profiles, After(init).table, tickets, username);
          BatchKeepsIncidents(After(init).profiles, After(init).table, tickets);
        case Restart =>
      }
    }
  }

  // ---------- the service ----------

  datatype PutReply =
    | BadRequest                                          // 400
    | Unprocessable                                       // 422
    | Stored(allocatedHours: real, remainingHours: real)

  datatype ProfileRequest = ProfileRequest(
    username: string, resourceNames: seq<string>, weeklyHours: real, workingDays: seq<int>,
    workStart: string, workEnd: string, active: bool)

  /** Two digits, a colon, two digits. */
  predicate IsClock(s: string) {
    |s| == 5 && s[2] == ':' && forall i :: 0 <= i < 5 && i != 2 ==> '0' <= s[i] <= '9'
  }

  ghost predicate TwoDigits(s: string) {
    |s| == 2 && '0' <= s[0] <= '9' && '0' <= s[1] <= '9'
  }

  ghost predicate IsClockTime(s: string) {
    exists hours, minutes :: TwoDigits(hours) && TwoDigits(minutes) && s == hours + ":" + minutes
  }

  lemma ClockExactly(s: string)
    ensures IsClock(s) <==> IsClockTime(s)
  {
    if IsClock(s) {
      assert TwoDigits(s[..2]) && TwoDigits(s[3..]) && s == s[..2] + ":" + s[3..];
    }
    if IsClockTime(s) {
      var hours, minutes :| TwoDigits(hours) && TwoDigits(minutes) && s == hours + ":" + minutes;
    }
  }

  /** What the request's declared fields demand. */
  predicate WellFormed(request: ProfileRequest) {
    && 1 <= |request.username| <= 128 && 0.0 < request.weeklyHours <= 168.0
    && IsClock(request.workStart) && IsClock(request.workEnd)
  }

  function ProfileOf(request: ProfileRequest): Profile {
    Profile(Strip(request.username),
            set n | n in request.resourceNames && Strip(n) != "" :: Strip(n),
            request.weeklyHours, request.active)
  }

  /** The profile that a request asks for: stripped names, blank ones left out. */
  ghost predicate Asked(username: string, request: ProfileRequest, p: Profile) {
    && p.username == Strip(username) && p.weeklyHours == request.weeklyHours && p.active == request.active
    && forall n :: n in p.resourceNames <==>
         n != "" && exists i :: 0 <= i < |request.resourceNames| && n == Strip(request.resourceNames[i])
  }

  /** The profile is there instead of any other of its name, and the others stay. */
  ghost predicate Replaces(before: seq<Profile>, p: Profile, after: seq<Profile>) {
    forall q :: q in after <==> q == p || (q in before && q.username != p.username)
  }

  lemma ProfileIsAsked(username: string, request: ProfileRequest)
    requires Strip(username) == Strip(request.username)
    ensures Asked(username, request, ProfileOf(request))
  {
    hide Strip;
    forall n ensures n in ProfileOf(request).resourceNames <==>
      n != "" && exists i :: 0 <= i < |request.resourceNames| && n == Strip(request.resourceNames[i])
    {
      if i :| n != "" && 0 <= i < |request.resourceNames| && n == Strip(request.resourceNames[i]) {
        assert request.resourceNames[i] in request.resourceNames;
      }
    }
  }

  /** The reply to an accepted update claims that nothing is allocated. */
  function ReplyTo(p: Profile): PutReply {
    Stored(0.0, p.weeklyHours)
  }

  predicate HasOpen(table: seq<Assignment>, username: string) {
    exists i :: 0 <= i < |table| && Counts(table[i], username)
  }

  lemma {:induction false} AllocatedNothing(table: seq<Assignment>, username: string)
    requires forall i :: 0 <= i < |table| ==> table[i].hours > 0.0
    ensures Allocated(table, username) >= 0.0
    ensures Allocated(table, username) == 0.0 <==> !HasOpen(table, username)
  {
    if table != [] {
      var n := |table| - 1;
      var init := table[..n];
      AllocatedNothing(init, username);
      assert forall i :: 0 <= i < n ==> init[i] == table[i];
      if HasOpen(init, username) {
        var i :| 0 <= i < n && Counts(init[i], username);
        assert Counts(table[i], username);
      }
    }
  }

  lemma AfterPut(ops: seq<Op>, p: Profile)
    ensures After(ops + [Put(p)]) == State(PutProfile(After(ops).profiles, p), After(ops).table)
  {
    assert (ops + [Put(p)])[..|ops|] == ops;
  }

  /** The listing's row for a responder. */
  ghost predicate Lists(s: State, row: Row) {
    exists i :: 0 <= i < |CapacityRows(s.profiles, s.table)| && CapacityRows(s.profiles, s.table)[i] == row
  }

  /** After any run, the reply to one more update agrees with the row that the capacity
      listing then shows exactly when no open assignment names the responder. */
  lemma PutReplyIsRightExactly(ops: seq<Op>, p: Profile) returns (row: Row)
    requires p.weeklyHours > 0.0
    ensures var s := After(ops + [Put(p)]);
      && Lists(s, row) && row.profile == p
      && (ReplyTo(p) == Stored(row.booked, row.remaining) <==> !HasOpen(s.table, p.username))
  {
    var s := After(ops + [Put(p)]);
    NeverOverbooked(ops, p.username);
    AfterPut(ops, p);
    PutKeepsNames(After(ops).profiles, p, p.username);
    ByUsernameNames(s.profiles);
    var i :| 0 <= i < |ByUsername(s.profiles)| && ByUsername(s.profiles)[i] == p;
    row := RowOf(p, s.table);
    assert CapacityRows(s.profiles, s.table)[i] == row;
    AllocatedNothing(s.table, p.username);
  }

  /** A responder who takes any ticket. */
  function Generalist(username: string): Profile {
    Profile(username, {"all"}, 8.0, true)
  }

  /** A responder is given a ticket and then updated: the reply claims eight hours left where
      six are. */
  lemma PutReplyIsWrongWhenBooked(username: string, incidentId: string)
    ensures var p := Generalist(username);
      var t := Ticket(incidentId, "billing", "medium", []);
      var s := After([Put(p), Batch([t])] + [Put(p)]);
      && s.table == [Assignment(incidentId, username, "billing", 2.0, Assigned)]
      && ReplyTo(p) == Stored(0.0, 8.0) && Lists(s, Row(p, 2.0, 6.0))
  {
    var p, t := Generalist(username), Ticket(incidentId, "billing", "medium", []);
    AfterPut([], p);
    assert [] + [Put(p)] == [Put(p)];
    assert [Put(p), Batch([t])][..1] == [Put(p)];
    FirstTicket(p, t);
    AfterPut([Put(p), Batch([t])], p);
    var table := [Assignment(incidentId, username, "billing", 2.0, Assigned)];
    AllocatedPush([], table[0], username);
    assert [] + [table[0]] == table;
    var s := After([Put(p), Batch([t])] + [Put(p)]);
    assert s.profiles == [p];
    OneRow(p, table);
    assert CapacityRows(s.profiles, s.table)[0] == Row(p, 2.0, 6.0);
  }

  lemma OneRow(p: Profile, table: seq<Assignment>)
    ensures CapacityRows([p], table) == [RowOf(p, table)]
  {
    assert ByUsername([p]) == [p] by { assert [p][1..] == []; }
  }

  /** The only responder takes the first ticket. */
  lemma FirstTicket(p: Profile, t: Ticket)
    requires p == Generalist(p.username) && t.severity == "medium"
    ensures AfterBatch([p], [], [t]) == [Assignment(t.incidentId, p.username, t.service, 2.0, Assigned)]
  {
    hide Required;
    var row := RowOf(p, []);
    OneRow(p, []);
    assert "all" in LowerAll(p.resourceNames) by { assert Lower("all") == "all"; }
    assert [row][..0] == [] && Best([row], t) == Some(0);
    MediumHours();
    assert [t][..0] == [];
  }

  lemma MediumHours()
    ensures SeverityHours("medium") == 2.0
  {
    assert Lower("medium") == "medium";
    assert "medium"[0] == 'm' && "critical"[0] == 'c' && "high"[0] == 'h';
  }

  class ApprovalService {
    var profiles: seq<Profile>
    var assignments: seq<Assignment>

    ghost predicate Valid()
      reads this
    {
      DistinctNames(profiles)
    }

    constructor ()
      ensures Valid() && profiles == [] && assignments == []
    {
      profiles, assignments := [], [];
    }

    /** Adds up the table once, then reads every row off the sums. */
    method ListCapacity() returns (rows: seq<Row>)
      ensures rows == CapacityRows(profiles, assignments)
    {
      var totals: map<string, real> := map[];
      for k := 0 to |assignments|
        invariant forall u :: (if u in totals then totals[u] else 0.0) == Allocated(assignments[..k], u)
      {
        assert assignments[..k + 1][..k] == assignments[..k];
        var a := assignments[k];
        if a.status != Done {
          totals := totals[a.assignee := (if a.assignee in totals then totals[a.assignee] else 0.0) + a.hours];
        }
      }
      assert assignments[..|assignments|] == assignments;
      rows := [];
      var sorted := ByUsername(profiles);
      for k := 0 to |sorted|
        invariant rows == CapacityRows(profiles, assignments)[..k]
      {
        var p := sorted[k];
        var used := if p.username in totals then totals[p.username] else 0.0;
        var left := p.weeklyHours - used;
        rows := rows + [Row(p, used, if left > 0.0 then left else 0.0)];
      }
    }

    method PutCapacity(username: string, request: ProfileRequest) returns (reply: PutReply)
      requires Valid()
      modifies this`profiles
      ensures Valid()
      ensures reply.Stored? <==>
        && WellFormed(request)
        && Strip(username) != "" && Strip(username) == Strip(request.username)
        && forall d :: d in request.workingDays ==> 0 <= d <= 6
      ensures reply == BadRequest <==> WellFormed(request) && (Strip(username) == "" || Strip(username) != Strip(request.username))
      ensures reply.Stored? ==> reply == ReplyTo(ProfileOf(request))
      ensures WellFormed(request) <==>
        && 1 <= |request.username| <= 128 && 0.0 < request.weeklyHours && request.weeklyHours <= 168.0
        && IsClockTime(request.workStart) && IsClockTime(request.workEnd)
      ensures reply.Stored? ==> exists p :: Asked(username, request, p) && Replaces(old(profiles), p, profiles)
      ensures profiles == if reply.Stored? then PutProfile(old(profiles), ProfileOf(request)) else old(profiles)
    {
      ClockExactly(request.workStart);
      ClockExactly(request.workEnd);
      if !WellFormed(request) {
        return Unprocessable;
      }
      var normalized := Strip(username);
      if normalized == "" || normalized != Strip(request.username) {
        return BadRequest;
      }
      if exists d :: d in request.workingDays && (d < 0 || d > 6) {
        return Unprocessable;
      }
      PutKeepsNames(profiles, ProfileOf(request), "");
      ProfileIsAsked(username, request);
      assert Replaces(profiles, ProfileOf(request), PutProfile(profiles, ProfileOf(request)));
      profiles := PutProfile(profiles, ProfileOf(request));
      reply := Stored(0.0, request.weeklyHours);
    }

    /** `max(candidates, key=remaining_hours)` over the rows that are eligible. */
    method Choose(available: seq<Row>, t: Ticket) returns (best: Option<nat>)
      ensures best == Best(available, t)
    {
      best := None;
      for k := 0 to |available|
        invariant best == Best(available[..k], t) && (best.Some? ==> best.value < k)
      {
        assert available[..k + 1][..k] == available[..k];
        if Eligible(available[k], t) && (best.None? || available[best.value].remaining < available[k].remaining) {
          best := Some(k);
        }
      }
      assert available[..|available|] == available;
    }

    /** The batch reads the capacity once and keeps its own count of hours left; it does
        what recomputing the capacity before every ticket would do. */
    method AutoAssign(tickets: seq<Ticket>) returns (added: nat, unmatched: seq<string>)
      requires Valid()
      modifies this`assignments
      ensures Valid()
      ensures assignments == AfterBatch(profiles, old(assignments), tickets)
      ensures added == |assignments| - |old(assignments)|
      ensures unmatched == UnmatchedIn(profiles, old(assignments), tickets)
    {
      hide Best, CapacityRows, NewAssignment, DistinctNames, Eligible, Taken;
      var available := ListCapacity();
      added, unmatched := 0, [];
      for k := 0 to |tickets|
        invariant SameCapacity(available, CapacityRows(profiles, assignments))
        invariant assignments == AfterBatch(profiles, old(assignments), tickets[..k])
        invariant added == |assignments| - |old(assignments)|
        invariant unmatched == UnmatchedIn(profiles, old(assignments), tickets[..k])
      {
        assert tickets[..k + 1][..k] == tickets[..k];
        var t := tickets[k];
        if Taken(assignments, t.incidentId) {
          continue;
        }
        var best := Choose(available, t);
        BestOfSame(available, CapacityRows(profiles, assignments), t);
        BestIsFirstMaximum(available, t);
        if best.None? {
          unmatched := unmatched + [t.incidentId];
          continue;
        }
        var a := NewAssignment(available[best.value], t);
        DecrementIsRecompute(profiles, assignments, available, best.value, t);
        assignments := assignments + [a];
        available := available[best.value := available[best.value].(remaining := available[best.value].remaining - a.hours)];
        added := added + 1;
      }
      assert tickets[..|tickets|] == tickets;
    }
  }
}
