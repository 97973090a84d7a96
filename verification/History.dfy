/** Deploy history: the roll-up per feature version, and the list per environment and
    feature. Both keep one entry per deploy out of its rows. */
module History {
  import opened Basics
  import opened Model
  import opened Compute
  import opened DeployLog
  import opened DeployRuns

  datatype Version = Version(feature: string, version: string)

  datatype RecentDeploy = RecentDeploy(feature: string, version: string, total: nat, deployed: nat, failed: nat,
                                       pending: nat,
                                       lastDeploy: int, assignment: AssignmentId)

  datatype DeployEntry = DeployEntry(diid: Diid, environment: EnvId, assignment: AssignmentId, feature: string,
                                     version: string,
                                     hash: string, created: int, status: DeployStatus, lastModified: int)

  function VersionOf(r: DeployRow): Version {
    Version(r.feature, r.version)
  }

  function StatusText(s: DeployStatus): string {
    match s
    case Unknown => ""
    case Sent => "sent"
    case Installing => "installing"
    case Deployed => "deployed"
    case Failed => "failed"
    case Other(text) => text
  }

  function ToUpper(s: string): string {
    if s == [] then []
    else [if 'a' <= s[0] <= 'z' then (s[0] as int - 32) as char else s[0]] + ToUpper(s[1..])
  }

  function NormalizeStatus(s: string): string {
    if s == "" then "UNKNOWN" else ToUpper(s)
  }

  datatype Kind = Success | Failure | Underway | Uncounted

  function KindOf(s: DeployStatus): Kind {
    var text := NormalizeStatus(StatusText(s));
    if text == "DEPLOYED" then Success
    else if text == "FAILED" then Failure
    else if text == "SENT" || text == "INSTALLING" then Underway
    else Uncounted
  }

  // ----- Specification of the roll-up -----

  predicate HasDiid(rows: seq<DeployRow>, d: Diid) {
    exists r :: r in rows && r.diid == d
  }

  /** The first row of each deploy. */
  function Firsts(rows: seq<DeployRow>): seq<DeployRow> {
    if rows == [] then []
    else
      var n := |rows| - 1;
      Firsts(rows[..n]) + if HasDiid(rows[..n], rows[n].diid) then [] else [rows[n]]
  }

  function OfVersion(rows: seq<DeployRow>, v: Version): seq<DeployRow> {
    if rows == [] then []
    else
      var n := |rows| - 1;
      OfVersion(rows[..n], v) + if VersionOf(rows[n]) == v then [rows[n]] else []
  }

  /** The versions of the rows, each once, by first appearance. */
  function Versions(rows: seq<DeployRow>): seq<Version> {
    if rows == [] then []
    else
      var n := |rows| - 1;
      var before := Versions(rows[..n]);
      before + if VersionOf(rows[n]) in before then [] else [VersionOf(rows[n])]
  }

  function Count(rows: seq<DeployRow>, kind: Kind): nat {
    if rows == [] then 0
    else
      var n := |rows| - 1;
      Count(rows[..n], kind) + if KindOf(rows[n].status) == kind then 1 else 0
  }

  function Summary(firsts: seq<DeployRow>): RecentDeploy
    requires firsts != []
  {
    RecentDeploy(firsts[0].feature, firsts[0].version, |firsts|, Count(firsts, Success), Count(firsts, Failure),
                 Count(firsts, Underway),
                 firsts[0].created, firsts[0].assignment)
  }

  /** The group of a version in the roll-up of the rows. */
  function GroupRows(rows: seq<DeployRow>, v: Version): seq<DeployRow> {
    OfVersion(Firsts(rows), v)
  }

  ghost predicate IsRollUp(rows: seq<DeployRow>, groups: nat, result: seq<RecentDeploy>) {
    var versions := Versions(Firsts(rows));
    && |result| == (if groups < |versions| then groups else |versions|)
    && forall i :: 0 <= i < |result| ==> Sums(result[i], GroupRows(rows, versions[i]))
  }

  ghost predicate Sums(g: RecentDeploy, group: seq<DeployRow>) {
    group != [] && g == Summary(group)
  }

  // ----- The roll-up -----

  ghost predicate Tracks(byKey: map<Version, RecentDeploy>, firsts: seq<DeployRow>) {
    forall v :: Shows(byKey, v, OfVersion(firsts, v))
  }

  ghost predicate Shows(byKey: map<Version, RecentDeploy>, v: Version, group: seq<DeployRow>) {
    if group == [] then v !in byKey else v in byKey && byKey[v] == Summary(group)
  }

  lemma {:induction false} OfVersionAppended(rows: seq<DeployRow>, r: DeployRow, v: Version)
    ensures OfVersion(rows + [r], v) == if VersionOf(r) == v then OfVersion(rows, v) + [r] else OfVersion(rows, v)
  {
    assert (rows + [r])[..|rows|] == rows;
  }

  lemma {:induction false} VersionsAppended(rows: seq<DeployRow>, r: DeployRow)
    ensures Versions(rows + [r]) == if VersionOf(r) in Versions(rows) then Versions(rows)
            else Versions(rows) + [VersionOf(r)]
  {
    assert (rows + [r])[..|rows|] == rows;
  }

  lemma {:induction false} CountAppended(rows: seq<DeployRow>, r: DeployRow, kind: Kind)
    ensures Count(rows + [r], kind) == Count(rows, kind) + if KindOf(r.status) == kind then 1 else 0
  {
    assert (rows + [r])[..|rows|] == rows;
  }

  /** The group with one more deploy. */
  function Add(g: RecentDeploy, kind: Kind): RecentDeploy {
    match kind
    case Success => g.(total := g.total + 1, deployed := g.deployed + 1)
    case Failure => g.(total := g.total + 1, failed := g.failed + 1)
    case Underway => g.(total := g.total + 1, pending := g.pending + 1)
    case Uncounted => g.(total := g.total + 1)
  }

  lemma {:induction false} SummaryGrows(group: seq<DeployRow>, r: DeployRow)
    ensures var g := if group == [] then RecentDeploy(r.feature, r.version, 0, 0, 0, 0, r.created, r.assignment)
            else Summary(group);
            Summary(group + [r]) == Add(g, KindOf(r.status))
  {
    CountAppended(group, r, Success);
    CountAppended(group, r, Failure);
    CountAppended(group, r, Underway);
  }

  lemma {:induction false} TracksGrows(byKey: map<Version, RecentDeploy>, firsts: seq<DeployRow>, r: DeployRow,
                                       g: RecentDeploy)
    requires Tracks(byKey, firsts)
    requires g == Summary(OfVersion(firsts, VersionOf(r)) + [r])
    ensures Tracks(byKey[VersionOf(r) := g], firsts + [r])
  {
    var now := byKey[VersionOf(r) := g];
    forall v ensures Shows(now, v, OfVersion(firsts + [r], v)) {
      OfVersionAppended(firsts, r, v);
      assert Shows(byKey, v, OfVersion(firsts, v));
    }
  }

  method Tally(byKey: map<Version, RecentDeploy>, r: DeployRow, ghost firsts: seq<DeployRow>)
    returns (now: map<Version, RecentDeploy>)
    requires Tracks(byKey, firsts)
    ensures Tracks(now, firsts + [r])
  {
    var k := VersionOf(r);
    assert Shows(byKey, k, OfVersion(firsts, k));
    var g := if k in byKey then byKey[k] else RecentDeploy(r.feature, r.version, 0, 0, 0, 0, r.created, r.assignment);
    SummaryGrows(OfVersion(firsts, k), r);
    g := CountDeploy(g, KindOf(r.status));
    TracksGrows(byKey, firsts, r, g);
    now := byKey[k := g];
  }

  method CountDeploy(group: RecentDeploy, kind: Kind) returns (g: RecentDeploy)
    ensures g == Add(group, kind)
  {
    g := group.(total := group.total + 1);
    match kind {
      case Success => g := g.(deployed := g.deployed + 1);
      case Failure => g := g.(failed := g.failed + 1);
      case Underway => g := g.(pending := g.pending + 1);
      case Uncounted =>
    }
  }

  /** A deploy seen for the first time. */
  method Visit(byKey: map<Version, RecentDeploy>, order: seq<Version>, r: DeployRow, ghost firsts: seq<DeployRow>)
    returns (byKey': map<Version, RecentDeploy>, order': seq<Version>)
    requires order == Versions(firsts) && Tracks(byKey, firsts)
    ensures order' == Versions(firsts + [r]) && Tracks(byKey', firsts + [r])
  {
    KnownVersion(byKey, firsts, VersionOf(r));
    order' := order;
    if VersionOf(r) !in byKey {
      order' := order + [VersionOf(r)];
    }
    VersionsAppended(firsts, r);
    byKey' := Tally(byKey, r, firsts);
  }

  lemma {:induction false} KnownVersion(byKey: map<Version, RecentDeploy>, firsts: seq<DeployRow>, v: Version)
    requires Tracks(byKey, firsts)
    ensures v in byKey <==> v in Versions(firsts)
    ensures v in byKey ==> Sums(byKey[v], OfVersion(firsts, v))
  {
    VersionsMembers(firsts, v);
    assert Shows(byKey, v, OfVersion(firsts, v));
  }

  /** None where Go panics: a slice of negative length. Rows come newest first. */
  method AggregateRecentDeploys(rows: seq<DeployRow>, groups: int) returns (result: Option<seq<RecentDeploy>>)
    ensures result.None? <==> groups < 0
    ensures groups >= 0 ==> IsRollUp(rows, groups, result.value)
  {
    var byKey, order := RollUp(rows);
    if groups < 0 {
      return None;
    }
    var list := FirstGroups(byKey, order, groups, rows);
    result := Some(list);
  }

  ghost predicate Seen(seenDiid: set<Diid>, rows: seq<DeployRow>) {
    forall d :: d in seenDiid <==> HasDiid(rows, d)
  }

  lemma {:induction false} SeenStep(seenDiid: set<Diid>, rows: seq<DeployRow>, i: nat)
    requires i < |rows| && Seen(seenDiid, rows[..i])
    ensures Seen(seenDiid + {rows[i].diid}, rows[..i + 1])
    ensures rows[i].diid in seenDiid ==> Seen(seenDiid, rows[..i + 1])
  {
    HasDiidStep(rows, i);
    assert rows[i].diid in seenDiid ==> seenDiid + {rows[i].diid} == seenDiid;
  }

  /** Where the loop stands after the first i rows. */
  ghost predicate RolledUp(byKey: map<Version, RecentDeploy>, order: seq<Version>, seenDiid: set<Diid>,
                           rows: seq<DeployRow>, i: nat)
    requires i <= |rows|
  {
    && Seen(seenDiid, rows[..i])
    && order == Versions(Firsts(rows[..i]))
    && Tracks(byKey, Firsts(rows[..i]))
  }

  method RollUp(rows: seq<DeployRow>) returns (byKey: map<Version, RecentDeploy>, order: seq<Version>)
    ensures order == Versions(Firsts(rows)) && Tracks(byKey, Firsts(rows))
  {
    byKey, order := map[], [];
    var seenDiid: set<Diid> := {};
    for i := 0 to |rows|
      invariant RolledUp(byKey, order, seenDiid, rows, i)
    {
      byKey, order, seenDiid := RollUpRow(byKey, order, seenDiid, rows, i);
    }
    assert rows[..|rows|] == rows;
  }

  /** The body of the loop over the rows. */
  method RollUpRow(byKey: map<Version, RecentDeploy>, order: seq<Version>, seenDiid: set<Diid>, rows: seq<DeployRow>,
                   i: nat)
    returns (byKey': map<Version, RecentDeploy>, order': seq<Version>, seenDiid': set<Diid>)
    requires i < |rows| && RolledUp(byKey, order, seenDiid, rows, i)
    ensures RolledUp(byKey', order', seenDiid', rows, i + 1)
  {
    byKey', order', seenDiid' := byKey, order, seenDiid;
    var r := rows[i];
    FirstsStep(rows, i);
    SeenStep(seenDiid, rows, i);
    if r.diid in seenDiid {
      return;
    }
    seenDiid' := seenDiid + {r.diid};
    byKey', order' := Visit(byKey, order, r, Firsts(rows[..i]));
  }

  lemma {:induction false} FirstsStep(rows: seq<DeployRow>, i: nat)
    requires i < |rows|
    ensures Firsts(rows[..i + 1]) == if HasDiid(rows[..i], rows[i].diid) then Firsts(rows[..i])
            else Firsts(rows[..i]) + [rows[i]]
  {
    assert rows[..i + 1][..i] == rows[..i];
  }

  method FirstGroups(byKey: map<Version, RecentDeploy>, order: seq<Version>, groups: nat, ghost rows: seq<DeployRow>)
    returns (list: seq<RecentDeploy>)
    requires order == Versions(Firsts(rows)) && Tracks(byKey, Firsts(rows))
    ensures IsRollUp(rows, groups, list)
  {
    forall k | 0 <= k < |order| ensures order[k] in byKey && Sums(byKey[order[k]], GroupRows(rows, order[k])) {
      assert order[k] in order;
      KnownVersion(byKey, Firsts(rows), order[k]);
    }
    list := Picked(byKey, order, if groups > |order| then |order| else groups);
  }

  method Picked(byKey: map<Version, RecentDeploy>, order: seq<Version>, shown: nat) returns (list: seq<RecentDeploy>)
    requires shown <= |order| && forall k :: 0 <= k < |order| ==> order[k] in byKey
    ensures |list| == shown && forall k :: 0 <= k < shown ==> list[k] == byKey[order[k]]
  {
    list := [];
    for i := 0 to shown
      invariant |list| == i && forall k :: 0 <= k < i ==> list[k] == byKey[order[k]]
    {
      list := list + [byKey[order[i]]];
    }
  }

  lemma {:induction false} HasDiidStep(rows: seq<DeployRow>, i: nat)
    requires i < |rows|
    ensures forall d :: HasDiid(rows[..i + 1], d) <==> HasDiid(rows[..i], d) || d == rows[i].diid
  {
    assert rows[..i + 1] == rows[..i] + [rows[i]];
    forall d ensures HasDiid(rows[..i + 1], d) <==> HasDiid(rows[..i], d) || d == rows[i].diid {
      if d == rows[i].diid {
        assert rows[i] in rows[..i + 1];
      }
      if HasDiid(rows[..i], d) {
        var r :| r in rows[..i] && r.diid == d;
        assert r in rows[..i + 1];
      }
    }
  }

  lemma {:induction false} VersionsMembers(rows: seq<DeployRow>, v: Version)
    ensures v in Versions(rows) <==> OfVersion(rows, v) != []
  {
    if rows != [] {
      VersionsMembers(rows[..|rows| - 1], v);
    }
  }

  // ----- What the roll-up says -----

  function Reversed(rows: seq<DeployRow>): seq<DeployRow> {
    if rows == [] then [] else [rows[|rows| - 1]] + Reversed(rows[..|rows| - 1])
  }

  /** The newest rows of the log from position m on, newest first: what the query returns. */
  function Window(log: seq<DeployRow>, m: nat): seq<DeployRow>
    requires m <= |log|
  {
    Reversed(log[m..])
  }

  /** Rows of one deploy differ in status and time only. */
  ghost predicate Consistent(rows: seq<DeployRow>) {
    forall r, s :: r in rows && s in rows && r.diid == s.diid ==> SameDeploy(r, s)
  }

  lemma {:induction false} LineageConsistent(log: seq<DeployRow>)
    requires Lineage(log)
    ensures Consistent(log)
  {
    forall r, s | r in log && s in log && r.diid == s.diid ensures SameDeploy(r, s) {
      assert Descends(log, r) && Descends(log, s);
    }
  }

  lemma {:induction false} ReversedMembers(rows: seq<DeployRow>)
    ensures forall r :: r in Reversed(rows) <==> r in rows
  {
    if rows != [] {
      ReversedMembers(rows[..|rows| - 1]);
      assert rows == rows[..|rows| - 1] + [rows[|rows| - 1]];
    }
  }

  lemma {:induction false} FirstOfJoined(a: seq<DeployRow>, b: seq<DeployRow>, d: Diid)
    ensures FirstOfDiid(a + b, d) == if FirstOfDiid(a, d).Some? then FirstOfDiid(a, d) else FirstOfDiid(b, d)
  {
    if b == [] {
      assert a + b == a;
    } else {
      var n := |b| - 1;
      assert (a + b)[..|a + b| - 1] == a + b[..n];
      FirstOfJoined(a, b[..n], d);
    }
  }

  lemma {:induction false} FirstInReversed(rows: seq<DeployRow>, d: Diid)
    ensures FirstOfDiid(Reversed(rows), d) == LatestOfDiid(rows, d)
  {
    if rows != [] {
      var n := |rows| - 1;
      FirstInReversed(rows[..n], d);
      FirstOfJoined([rows[n]], Reversed(rows[..n]), d);
      assert [rows[n]][..0] == [];
      assert FirstOfDiid([], d) == None;
    }
  }

  lemma {:induction false} LatestInTail(log: seq<DeployRow>, m: nat, d: Diid)
    requires m <= |log| && LatestOfDiid(log[m..], d).Some?
    ensures LatestOfDiid(log[m..], d) == LatestOfDiid(log, d)
  {
    var n := |log| - 1;
    if log[n].diid != d {
      assert log[m..][..n - m] == log[..n][m..];
      LatestInTail(log[..n], m, d);
    }
  }

  lemma {:induction false} FirstsMeaning(rows: seq<DeployRow>)
    ensures forall r :: r in Firsts(rows) <==> FirstOfDiid(rows, r.diid) == Some(r)
    ensures forall i, j :: 0 <= i < j < |Firsts(rows)| ==> Firsts(rows)[i].diid != Firsts(rows)[j].diid
  {
    if rows != [] {
      var n := |rows| - 1;
      FirstsMeaning(rows[..n]);
      FirstOfDiidFound(rows[..n], rows[n].diid);
      var before := Firsts(rows[..n]);
      forall i | 0 <= i < |before| ensures HasDiid(rows[..n], before[i].diid) {
        FirstOfDiidFound(rows[..n], before[i].diid);
        assert before[i] in before;
      }
    }
  }

  lemma {:induction false} OfVersionMeaning(rows: seq<DeployRow>, v: Version)
    requires forall i, j :: 0 <= i < j < |rows| ==> rows[i].diid != rows[j].diid
    ensures forall r :: r in OfVersion(rows, v) <==> r in rows && VersionOf(r) == v
    ensures forall i, j :: 0 <= i < j < |OfVersion(rows, v)| ==>
            OfVersion(rows, v)[i].diid != OfVersion(rows, v)[j].diid
  {
    if rows != [] {
      var n := |rows| - 1;
      OfVersionMeaning(rows[..n], v);
      assert rows == rows[..n] + [rows[n]];
      var before := OfVersion(rows[..n], v);
      forall i | 0 <= i < |before| ensures before[i].diid != rows[n].diid {
        assert before[i] in before;
        var k :| 0 <= k < n && rows[k] == before[i];
      }
    }
  }

  /** The deploys of a list, optionally of one kind. */
  ghost function Diids(rows: seq<DeployRow>): set<Diid> {
    set r | r in rows :: r.diid
  }

  ghost function DiidsOfKind(rows: seq<DeployRow>, kind: Kind): set<Diid> {
    set r | r in rows && KindOf(r.status) == kind :: r.diid
  }

  lemma {:induction false} TotalIsSize(rows: seq<DeployRow>)
    requires forall i, j :: 0 <= i < j < |rows| ==> rows[i].diid != rows[j].diid
    ensures |Diids(rows)| == |rows|
  {
    if rows != [] {
      var n := |rows| - 1;
      TotalIsSize(rows[..n]);
      assert rows == rows[..n] + [rows[n]];
      assert Diids(rows) == Diids(rows[..n]) + {rows[n].diid};
    }
  }

  ghost function DiidsWhere(rows: seq<DeployRow>, f: DeployRow -> bool): set<Diid> {
    set r | r in rows && f(r) :: r.diid
  }

  lemma {:induction false} WhereStep(rows: seq<DeployRow>, last: DeployRow, f: DeployRow -> bool)
    requires forall r :: r in rows ==> r.diid != last.diid
    ensures |DiidsWhere(rows + [last], f)| == |DiidsWhere(rows, f)| + if f(last) then 1 else 0
  {
    var before, after := DiidsWhere(rows, f), DiidsWhere(rows + [last], f);
    assert last in rows + [last];
    if f(last) {
      assert after == before + {last.diid};
    } else {
      assert after == before;
    }
  }

  ghost function CountWhere(rows: seq<DeployRow>, f: DeployRow -> bool): nat {
    if rows == [] then 0 else CountWhere(rows[..|rows| - 1], f) + if f(rows[|rows| - 1]) then 1 else 0
  }

  lemma {:induction false} WhereIsSize(rows: seq<DeployRow>, f: DeployRow -> bool)
    requires forall i, j :: 0 <= i < j < |rows| ==> rows[i].diid != rows[j].diid
    ensures |DiidsWhere(rows, f)| == CountWhere(rows, f)
  {
    if rows != [] {
      var n := |rows| - 1;
      WhereIsSize(rows[..n], f);
      WhereStep(rows[..n], rows[n], f);
      assert rows == rows[..n] + [rows[n]];
    }
  }

  lemma {:induction false} CountIsWhere(rows: seq<DeployRow>, kind: Kind, f: DeployRow -> bool)
    requires forall r :: f(r) <==> KindOf(r.status) == kind
    ensures Count(rows, kind) == CountWhere(rows, f)
  {
    if rows != [] {
      CountIsWhere(rows[..|rows| - 1], kind, f);
    }
  }

  lemma {:induction false} CountIsSize(rows: seq<DeployRow>, kind: Kind)
    requires forall i, j :: 0 <= i < j < |rows| ==> rows[i].diid != rows[j].diid
    ensures |DiidsOfKind(rows, kind)| == Count(rows, kind)
  {
    var f := (r: DeployRow) => KindOf(r.status) == kind;
    WhereIsSize(rows, f);
    CountIsWhere(rows, kind, f);
    assert DiidsOfKind(rows, kind) == DiidsWhere(rows, f);
  }

  lemma {:induction false} CountsBounded(rows: seq<DeployRow>)
    ensures Count(rows, Success) + Count(rows, Failure) + Count(rows, Underway) + Count(rows, Uncounted) == |rows|
  {
    if rows != [] {
      CountsBounded(rows[..|rows| - 1]);
    }
  }

  /** The deploys of a version with a row in the window, by the status they have in the log. */
  ghost function DeploysIn(log: seq<DeployRow>, m: nat, v: Version): set<Diid>
    requires m <= |log|
  {
    set r | r in log[m..] && VersionOf(r) == v :: r.diid
  }

  ghost function DeploysInKind(log: seq<DeployRow>, m: nat, v: Version, kind: Kind): set<Diid>
    requires m <= |log|
  {
    set d | d in DeploysIn(log, m, v) && LatestOfDiid(log, d).Some? &&
      KindOf(LatestOfDiid(log, d).value.status) == kind :: d
  }

  lemma {:induction false} GroupMembers(log: seq<DeployRow>, m: nat, v: Version, r: DeployRow)
    requires m <= |log| && Lineage(log)
    ensures r in GroupRows(Window(log, m), v) <==>
            r.diid in DeploysIn(log, m, v) && LatestOfDiid(log, r.diid) == Some(r)
  {
    var rows := Window(log, m);
    LineageConsistent(log);
    FirstsMeaning(rows);
    OfVersionMeaning(Firsts(rows), v);
    FirstInReversed(log[m..], r.diid);
    LatestOfDiidFound(log[m..], r.diid);
    if LatestOfDiid(log[m..], r.diid).Some? {
      LatestInTail(log, m, r.diid);
    }
    assert forall x :: x in log[m..] ==> x in log;
  }

  lemma {:induction false} GroupSets(log: seq<DeployRow>, m: nat, v: Version, kind: Kind)
    requires m <= |log| && Lineage(log)
    ensures Diids(GroupRows(Window(log, m), v)) == DeploysIn(log, m, v)
    ensures DiidsOfKind(GroupRows(Window(log, m), v), kind) == DeploysInKind(log, m, v, kind)
  {
    var group := GroupRows(Window(log, m), v);
    forall d | d in DeploysIn(log, m, v) ensures LatestOfDiid(log, d).Some? && LatestOfDiid(log, d).value in group {
      LatestOfDiidFound(log, d);
      GroupMembers(log, m, v, LatestOfDiid(log, d).value);
    }
    forall r | r in group ensures r.diid in DeploysIn(log, m, v) && LatestOfDiid(log, r.diid) == Some(r) {
      GroupMembers(log, m, v, r);
    }
    forall d | d in DeploysIn(log, m, v) ensures LatestOfDiid(log, d).value.diid == d {
      LatestOfDiidFound(log, d);
    }
  }

  // ----- Which statuses are counted as what -----

  /** The character in upper case, as for ASCII. */
  predicate UpperOf(u: char, c: char) {
    if 'a' <= c <= 'z' then u as int == c as int - 32 else u == c
  }

  lemma {:induction false} ToUpperExactly(s: string)
    ensures |ToUpper(s)| == |s| && forall i :: 0 <= i < |s| ==> UpperOf(ToUpper(s)[i], s[i])
  {
    if s != [] {
      ToUpperExactly(s[1..]);
    }
  }

  /** The text is the name, in whatever case. */
  predicate Spells(text: string, name: string) {
    |text| == |name| && forall i :: 0 <= i < |text| ==> UpperOf(name[i], text[i])
  }

  lemma {:induction false} SpellsExactly(text: string, name: string)
    ensures Spells(text, name) <==> ToUpper(text) == name
  {
    ToUpperExactly(text);
  }

  /** A stored status: one of the known ones, or another text. */
  predicate SaysDeployed(s: DeployStatus) {
    s == Deployed || (s.Other? && Spells(s.text, "DEPLOYED"))
  }

  predicate SaysFailed(s: DeployStatus) {
    s == Failed || (s.Other? && Spells(s.text, "FAILED"))
  }

  predicate SaysPending(s: DeployStatus) {
    s == Sent || s == Installing || (s.Other? && (Spells(s.text, "SENT") || Spells(s.text, "INSTALLING")))
  }

  lemma {:induction false} SpellsDeployed()
    ensures ToUpper("deployed") == "DEPLOYED"
  {
    SpellsExactly("deployed", "DEPLOYED");
  }

  lemma {:induction false} SpellsFailed()
    ensures ToUpper("failed") == "FAILED"
  {
    SpellsExactly("failed", "FAILED");
  }

  lemma {:induction false} SpellsSent()
    ensures ToUpper("sent") == "SENT"
  {
    SpellsExactly("sent", "SENT");
  }

  lemma {:induction false} SpellsInstalling()
    ensures ToUpper("installing") == "INSTALLING"
  {
    SpellsExactly("insta", "INSTA");
    SpellsExactly("lling", "LLING");
    ToUpperJoined("insta", "lling");
    assert "installing" == "insta" + "lling" && "INSTALLING" == "INSTA" + "LLING";
  }

  lemma {:induction false} ToUpperJoined(a: string, b: string)
    ensures ToUpper(a + b) == ToUpper(a) + ToUpper(b)
  {
    if a == [] {
      assert a + b == b;
    } else {
      assert (a + b)[1..] == a[1..] + b;
      ToUpperJoined(a[1..], b);
    }
  }

  lemma {:induction false} OtherKind(text: string)
    ensures KindOf(Other(text)) == Success <==> Spells(text, "DEPLOYED")
    ensures KindOf(Other(text)) == Failure <==> Spells(text, "FAILED")
    ensures KindOf(Other(text)) == Underway <==> Spells(text, "SENT") || Spells(text, "INSTALLING")
  {
    SpellsExactly(text, "DEPLOYED");
    SpellsExactly(text, "FAILED");
    SpellsExactly(text, "SENT");
    SpellsExactly(text, "INSTALLING");
  }

  lemma {:induction false} KnownText(s: DeployStatus)
    requires !s.Other?
    ensures NormalizeStatus(StatusText(s)) ==
            match s
            case Unknown => "UNKNOWN"
            case Sent => "SENT"
            case Installing => "INSTALLING"
            case Deployed => "DEPLOYED"
            case _ => "FAILED"
  {
    SpellsDeployed();
    SpellsFailed();
    SpellsSent();
    SpellsInstalling();
  }

  lemma {:induction false} KnownKind(s: DeployStatus)
    requires !s.Other?
    ensures KindOf(s) == Success <==> s == Deployed
    ensures KindOf(s) == Failure <==> s == Failed
    ensures KindOf(s) == Underway <==> s == Sent || s == Installing
  {
    KnownText(s);
  }

  lemma {:induction false} KindExactly(s: DeployStatus)
    ensures KindOf(s) == Success <==> SaysDeployed(s)
    ensures KindOf(s) == Failure <==> SaysFailed(s)
    ensures KindOf(s) == Underway <==> SaysPending(s)
  {
    if s.Other? {
      OtherKind(s.text);
    } else {
      KnownKind(s);
    }
  }

  /** The deploys of a version in the window whose last row in the log has such a status. */
  ghost function DeploysNow(log: seq<DeployRow>, m: nat, v: Version, says: DeployStatus -> bool): set<Diid>
    requires m <= |log|
  {
    set d | d in DeploysIn(log, m, v) && exists i: nat ::
      LastOfDeploy(log, i) && log[i].diid == d && says(log[i].status)
  }

  lemma {:induction false} DeploysNowAreOfKind(log: seq<DeployRow>, m: nat, v: Version, kind: Kind,
                                               says: DeployStatus -> bool)
    requires m <= |log| && forall s :: says(s) <==> KindOf(s) == kind
    ensures DeploysNow(log, m, v, says) == DeploysInKind(log, m, v, kind)
  {
    forall d | d in DeploysIn(log, m, v)
      ensures LatestOfDiid(log, d).Some?
      ensures (exists i: nat :: LastOfDeploy(log, i) && log[i].diid == d && says(log[i].status)) <==>
              KindOf(LatestOfDiid(log, d).value.status) == kind
    {
      LatestOfDiidByIndex(log, d);
      LatestOfDiidFound(log, d);
      assert exists r :: r in log && r.diid == d;
      forall i: nat, j: nat |
        LastOfDeploy(log, i) && LastOfDeploy(log, j) && log[i].diid == log[j].diid
        ensures i == j
      {
      }
    }
  }

  /** In the roll-up of a log that keeps the lineage, a version's total is its number of
      deploys in the window, and each count the number of them whose last row in the log
      has that status; the counts and the uncounted make up the total. */
  lemma {:induction false} RollUpConserves(log: seq<DeployRow>, m: nat, v: Version)
    requires m <= |log| && Lineage(log) && GroupRows(Window(log, m), v) != []
    ensures var g := Summary(GroupRows(Window(log, m), v));
            && Version(g.feature, g.version) == v
            && g.total == |DeploysIn(log, m, v)|
            && g.deployed == |DeploysNow(log, m, v, SaysDeployed)|
            && g.failed == |DeploysNow(log, m, v, SaysFailed)|
            && g.pending == |DeploysNow(log, m, v, SaysPending)|
            && g.deployed + g.failed + g.pending + |DeploysNow(log, m, v, SaysNothing)| == g.total
  {
    RollUpByKind(log, m, v);
    forall s ensures (KindOf(s) == Success <==> SaysDeployed(s)) && (KindOf(s) == Failure <==> SaysFailed(s)) &&
                     (KindOf(s) == Underway <==> SaysPending(s))
    {
      KindExactly(s);
    }
    DeploysNowAreOfKind(log, m, v, Success, SaysDeployed);
    DeploysNowAreOfKind(log, m, v, Failure, SaysFailed);
    DeploysNowAreOfKind(log, m, v, Underway, SaysPending);
    DeploysNowAreOfKind(log, m, v, Uncounted, SaysNothing);
  }

  predicate SaysNothing(s: DeployStatus) {
    !SaysDeployed(s) && !SaysFailed(s) && !SaysPending(s)
  }

  lemma {:induction false} RollUpByKind(log: seq<DeployRow>, m: nat, v: Version)
    requires m <= |log| && Lineage(log) && GroupRows(Window(log, m), v) != []
    ensures var g := Summary(GroupRows(Window(log, m), v));
            && Version(g.feature, g.version) == v
            && g.total == |DeploysIn(log, m, v)|
            && g.deployed == |DeploysInKind(log, m, v, Success)|
            && g.failed == |DeploysInKind(log, m, v, Failure)|
            && g.pending == |DeploysInKind(log, m, v, Underway)|
            && g.deployed + g.failed + g.pending + |DeploysInKind(log, m, v, Uncounted)| == g.total
  {
    var rows := Window(log, m);
    var group := GroupRows(rows, v);
    FirstsMeaning(rows);
    OfVersionMeaning(Firsts(rows), v);
    CountsBounded(group);
    assert group[0] in group;
    TotalIsSize(group);
    forall kind ensures |DeploysInKind(log, m, v, kind)| == Count(group, kind) && |group| == |DeploysIn(log, m, v)| {
      CountIsSize(group, kind);
      GroupSets(log, m, v, kind);
    }
  }

  // ----- Order and times of the groups -----

  lemma {:induction false} SeenVersion(rows: seq<DeployRow>, r: DeployRow)
    requires HasDiid(rows, r.diid) && forall s :: s in rows && s.diid == r.diid ==> SameDeploy(s, r)
    ensures VersionOf(r) in Versions(rows)
  {
    var s :| s in rows && s.diid == r.diid;
    VersionsNone(rows);
    var q :| 0 <= q < |rows| && rows[q] == s;
    assert VersionOf(rows[q]) == VersionOf(r);
  }

  lemma {:induction false} FirstsKeepVersions(rows: seq<DeployRow>)
    requires Consistent(rows)
    ensures Versions(Firsts(rows)) == Versions(rows)
  {
    if rows != [] {
      var n := |rows| - 1;
      var before := rows[..n];
      assert forall r :: r in before ==> r in rows;
      FirstsKeepVersions(before);
      if HasDiid(before, rows[n].diid) {
        SeenVersion(before, rows[n]);
        assert Versions(rows) == Versions(before) && Firsts(rows) == Firsts(before);
      } else {
        VersionsAppended(Firsts(before), rows[n]);
      }
    }
  }

  /** The newest row of a version: where it first shows up. */
  predicate NewestAt(rows: seq<DeployRow>, v: Version, p: nat) {
    p < |rows| && VersionOf(rows[p]) == v && forall q :: 0 <= q < p ==> VersionOf(rows[q]) != v
  }

  lemma {:induction false} VersionsByNewest(rows: seq<DeployRow>, i: nat) returns (p: nat)
    requires i < |Versions(rows)|
    ensures NewestAt(rows, Versions(rows)[i], p)
    ensures forall j :: i < j < |Versions(rows)| ==> forall q :: 0 <= q <= p ==> VersionOf(rows[q]) != Versions(rows)[j]
  {
    var n := |rows| - 1;
    var before := Versions(rows[..n]);
    VersionsNone(rows[..n]);
    assert forall q :: 0 <= q < n ==> rows[..n][q] == rows[q];
    assert Versions(rows) == before || Versions(rows) == before + [VersionOf(rows[n])];
    if i == |before| {
      p := n;
    } else {
      p := VersionsByNewest(rows[..n], i);
    }
  }

  lemma {:induction false} VersionsNone(rows: seq<DeployRow>)
    ensures forall q :: 0 <= q < |rows| ==> VersionOf(rows[q]) in Versions(rows)
  {
    if rows != [] {
      VersionsNone(rows[..|rows| - 1]);
      assert forall q :: 0 <= q < |rows| - 1 ==> rows[..|rows| - 1][q] == rows[q];
    }
  }

  lemma {:induction false} SameVersion(rows: seq<DeployRow>, i: nat, j: nat)
    requires Consistent(rows) && i < |rows| && j < |rows|
    ensures rows[i].diid != rows[j].diid || VersionOf(rows[i]) == VersionOf(rows[j])
  {
    assert rows[i] in rows && rows[j] in rows;
  }

  lemma {:induction false} NewDeploy(rows: seq<DeployRow>, v: Version)
    requires Consistent(rows) && rows != [] && NewestAt(rows, v, |rows| - 1)
    ensures !HasDiid(rows[..|rows| - 1], rows[|rows| - 1].diid)
  {
    var n := |rows| - 1;
    forall r | r in rows[..n] ensures r.diid != rows[n].diid {
      var q :| 0 <= q < n && rows[q] == r;
      SameVersion(rows, q, n);
    }
  }

  lemma {:induction false} GroupNext(rows: seq<DeployRow>, v: Version)
    requires rows != []
    ensures var n := |rows| - 1;
            GroupRows(rows, v) ==
            if HasDiid(rows[..n], rows[n].diid) || VersionOf(rows[n]) != v then GroupRows(rows[..n], v)
            else GroupRows(rows[..n], v) + [rows[n]]
  {
    OfVersionAppended(Firsts(rows[..|rows| - 1]), rows[|rows| - 1], v);
    assert Firsts(rows[..|rows| - 1]) + [] == Firsts(rows[..|rows| - 1]);
  }

  lemma {:induction false} GroupStartsNewest(rows: seq<DeployRow>, v: Version, p: nat)
    requires Consistent(rows) && NewestAt(rows, v, p)
    ensures GroupRows(rows, v) != [] && GroupRows(rows, v)[0] == rows[p]
  {
    var n := |rows| - 1;
    if p < n {
      ConsistentPrefix(rows);
      GroupStartsNewest(rows[..n], v, p);
      GroupNext(rows, v);
    } else {
      GroupStartsHere(rows, v);
    }
  }

  lemma {:induction false} ConsistentPrefix(rows: seq<DeployRow>)
    requires rows != [] && Consistent(rows)
    ensures Consistent(rows[..|rows| - 1])
  {
    assert forall r :: r in rows[..|rows| - 1] ==> r in rows;
  }

  lemma {:induction false} GroupStartsHere(rows: seq<DeployRow>, v: Version)
    requires Consistent(rows) && rows != [] && NewestAt(rows, v, |rows| - 1)
    ensures GroupRows(rows, v) == [rows[|rows| - 1]]
  {
    NoneYet(rows[..|rows| - 1], v);
    NewDeploy(rows, v);
    GroupNext(rows, v);
  }

  lemma {:induction false} NoneYet(rows: seq<DeployRow>, v: Version)
    requires forall q :: 0 <= q < |rows| ==> VersionOf(rows[q]) != v
    ensures GroupRows(rows, v) == []
  {
    FirstsMeaning(rows);
    OfVersionMeaning(Firsts(rows), v);
    if GroupRows(rows, v) != [] {
      var r := GroupRows(rows, v)[0];
      assert r in GroupRows(rows, v) && FirstOfDiid(rows, r.diid) == Some(r);
      FirstOfDiidFound(rows, r.diid);
      assert false;
    }
  }

  /** The groups are the versions with a row in the window, each once; a group's last
      deploy is its version's newest row; groups come by their newest rows, newest first. */
  lemma {:induction false} RollUpOrder(log: seq<DeployRow>, m: nat, i: nat) returns (p: nat)
    requires m <= |log| && Lineage(log) && i < |Versions(Firsts(Window(log, m)))|
    ensures var rows := Window(log, m);
            var versions := Versions(Firsts(rows));
            && NewestAt(rows, versions[i], p)
            && GroupRows(rows, versions[i]) != []
            && Summary(GroupRows(rows, versions[i])).lastDeploy == rows[p].created
            && Summary(GroupRows(rows, versions[i])).assignment == rows[p].assignment
            && (forall j :: i < j < |versions| ==> forall q :: 0 <= q <= p ==> VersionOf(rows[q]) != versions[j])
            && (forall r :: r in rows ==> VersionOf(r) in versions)
  {
    var rows := Window(log, m);
    LineageConsistent(log);
    ReversedMembers(log[m..]);
    assert forall r :: r in rows ==> r in log;
    FirstsKeepVersions(rows);
    VersionsNone(rows);
    forall r | r in rows ensures VersionOf(r) in Versions(rows) {
      var q :| 0 <= q < |rows| && rows[q] == r;
    }
    p := VersionsByNewest(rows, i);
    GroupStartsNewest(rows, Versions(rows)[i], p);
  }

  // ----- The list per environment and feature -----

  /** The deploys by first appearance. */
  function Order(rows: seq<DeployRow>): seq<Diid> {
    if rows == [] then []
    else
      var n := |rows| - 1;
      Order(rows[..n]) + if HasDiid(rows[..n], rows[n].diid) then [] else [rows[n].diid]
  }

  /** Identity, version, hash and time from the first row, status from the last. */
  function Entry(first: DeployRow, last: DeployRow): DeployEntry {
    DeployEntry(first.diid, first.environment, first.assignment, first.feature, first.version, first.hash,
                first.created, last.status, last.created)
  }

  ghost predicate HasEntry(rows: seq<DeployRow>, d: Diid, e: DeployEntry) {
    FirstOfDiid(rows, d).Some? && LatestOfDiid(rows, d).Some? &&
      e == Entry(FirstOfDiid(rows, d).value, LatestOfDiid(rows, d).value)
  }

  ghost predicate IsHistory(rows: seq<DeployRow>, limit: int, result: seq<DeployEntry>) {
    var order := Order(rows);
    && |result| == (if 0 < limit < |order| then limit else |order|)
    && forall i :: 0 <= i < |result| ==> HasEntry(rows, order[|order| - 1 - i], result[i])
  }

  ghost predicate Collects(byDiid: map<Diid, DeployEntry>, rows: seq<DeployRow>) {
    forall d :: Collected(byDiid, rows, d)
  }

  ghost predicate Collected(byDiid: map<Diid, DeployEntry>, rows: seq<DeployRow>, d: Diid) {
    if HasDiid(rows, d) then d in byDiid && HasEntry(rows, d, byDiid[d]) else d !in byDiid
  }

  /** Rows come oldest first. */
  method ListRecentDeployInstructions(rows: seq<DeployRow>, limit: int) returns (result: seq<DeployEntry>)
    ensures IsHistory(rows, limit, result)
  {
    var byDiid: map<Diid, DeployEntry> := map[];
    var order: seq<Diid> := [];
    for i := 0 to |rows|
      invariant Collects(byDiid, rows[..i])
      invariant order == Order(rows[..i])
    {
      var r := rows[i];
      assert rows[..i + 1][..i] == rows[..i];
      assert Collected(byDiid, rows[..i], r.diid);
      if r.diid !in byDiid {
        order := order + [r.diid];
      }
      byDiid := Collect(byDiid, r, rows[..i]);
      assert rows[..i] + [r] == rows[..i + 1];
    }
    assert rows[..|rows|] == rows;
    result := [];
    var i := |order|;
    while i > 0
      invariant 0 <= i <= |order| && |result| == |order| - i
      invariant forall k :: 0 <= k < |result| ==> HasEntry(rows, order[|order| - 1 - k], result[k])
    {
      i := i - 1;
      OrderMembers(rows, i);
      assert Collected(byDiid, rows, order[i]);
      result := result + [byDiid[order[i]]];
    }
    if limit > 0 && |result| > limit {
      result := result[..limit];
    }
  }

  method Collect(byDiid: map<Diid, DeployEntry>, r: DeployRow, ghost rows: seq<DeployRow>)
    returns (now: map<Diid, DeployEntry>)
    requires Collects(byDiid, rows)
    ensures Collects(now, rows + [r])
  {
    assert Collected(byDiid, rows, r.diid);
    Appended(rows, r);
    FirstOfDiidFound(rows, r.diid);
    now := byDiid;
    if r.diid !in now {
      now := now[r.diid := DeployEntry(r.diid, r.environment, r.assignment, r.feature, r.version, r.hash, r.created,
                                       Unknown, 0)];
    }
    now := now[r.diid := now[r.diid].(status := r.status, lastModified := r.created)];
    forall d ensures Collected(now, rows + [r], d) {
      assert Collected(byDiid, rows, d);
      HasDiidAppended(rows, r, d);
    }
  }

  lemma {:induction false} HasDiidAppended(rows: seq<DeployRow>, r: DeployRow, d: Diid)
    ensures HasDiid(rows + [r], d) <==> HasDiid(rows, d) || d == r.diid
  {
    assert (rows + [r])[..|rows|] == rows;
    HasDiidStep(rows + [r], |rows|);
    assert (rows + [r])[..|rows| + 1] == rows + [r];
  }

  lemma {:induction false} OrderMembers(rows: seq<DeployRow>, i: nat)
    requires i < |Order(rows)|
    ensures HasDiid(rows, Order(rows)[i])
  {
    var n := |rows| - 1;
    HasDiidStep(rows, n);
    assert rows[..n + 1] == rows;
    if i < |Order(rows[..n])| {
      OrderMembers(rows[..n], i);
    }
  }

  function RowsOf(log: seq<DeployRow>, p: Pair): seq<DeployRow> {
    if log == [] then []
    else
      var n := |log| - 1;
      RowsOf(log[..n], p) + if PairOf(log[n]) == p then [log[n]] else []
  }

  /** A deploy is in its pair's rows with all its rows, and in no other pair's. */
  lemma {:induction false} PairHasWholeDeploys(log: seq<DeployRow>, p: Pair, d: Diid)
    requires Lineage(log)
    ensures var whole := LatestOfDiid(log, d).Some? && PairOf(LatestOfDiid(log, d).value) == p;
            && FirstOfDiid(RowsOf(log, p), d) == (if whole then FirstOfDiid(log, d) else None)
            && LatestOfDiid(RowsOf(log, p), d) == (if whole then LatestOfDiid(log, d) else None)
  {
    if log != [] {
      var n := |log| - 1;
      LineagePrefix(log);
      PairHasWholeDeploys(log[..n], p, d);
      var before := RowsOf(log[..n], p);
      assert log == log[..n] + [log[n]];
      assert RowsOf(log, p) == if PairOf(log[n]) == p then before + [log[n]] else before;
      Appended(log[..n], log[n]);
      Appended(before, log[n]);
      LatestOfDiidFound(log[..n], d);
      FirstOfDiidFound(log[..n], d);
      if log[n].diid == d && LatestOfDiid(log[..n], d).Some? {
        assert Descends(log, log[n]) && Descends(log, LatestOfDiid(log[..n], d).value);
      }
    }
  }

  /** The two histories agree: for any deploy, the list of its pair starts it at its first
      row in the log and shows the status the roll-up counts it under. */
  lemma {:induction false} HistoriesAgree(log: seq<DeployRow>, m: nat, v: Version, r: DeployRow, e: DeployEntry)
    requires Lineage(log) && m <= |log| && r in GroupRows(Window(log, m), v)
    requires HasEntry(RowsOf(log, PairOf(r)), r.diid, e)
    ensures e.status == r.status && e.lastModified == r.created
    ensures FirstOfDiid(log, r.diid).Some? && FirstOfDiid(log, r.diid).value.status == Sent &&
            e.created == FirstOfDiid(log, r.diid).value.created
    ensures e.hash == r.hash && Version(e.feature, e.version) == v && e.assignment == r.assignment
  {
    GroupMembers(log, m, v, r);
    PairHasWholeDeploys(log, PairOf(r), r.diid);
    LatestOfDiidFound(log, r.diid);
    assert Descends(log, r);
    FirstsMeaning(Window(log, m));
    OfVersionMeaning(Firsts(Window(log, m)), v);
  }

  // ----- The two results, entry by entry -----

  /** Position p is where the version shows up first, counting from the newest row. */
  predicate NewestOfVersion(log: seq<DeployRow>, m: nat, v: Version, p: nat) {
    && m <= p < |log| && log[p].feature == v.feature && log[p].version == v.version
    && forall q :: p < q < |log| ==> !(log[q].feature == v.feature && log[q].version == v.version)
  }

  lemma {:induction false} ReversedAt(rows: seq<DeployRow>, p: nat)
    requires p < |rows|
    ensures |Reversed(rows)| == |rows| && Reversed(rows)[p] == rows[|rows| - 1 - p]
  {
    if p > 0 {
      ReversedAt(rows[..|rows| - 1], p - 1);
    } else if |rows| > 1 {
      ReversedAt(rows[..|rows| - 1], 0);
    }
  }

  lemma {:induction false} NewestInLog(log: seq<DeployRow>, m: nat, v: Version, p: nat)
    requires m <= |log| && NewestAt(Window(log, m), v, p)
    ensures p < |log| - m && NewestOfVersion(log, m, v, |log| - 1 - p) && Window(log, m)[p] == log[|log| - 1 - p]
  {
    var tail := log[m..];
    assert tail != [] by {
      assert Window(log, m) != [];
    }
    ReversedAt(tail, 0);
    forall q: nat | q < |tail| ensures Window(log, m)[q] == log[|log| - 1 - q] {
      ReversedAt(tail, q);
    }
    forall q | |log| - 1 - p < q < |log| ensures VersionOf(log[q]) != v {
      assert Window(log, m)[|log| - 1 - q] == log[q];
    }
  }

  predicate IsVersion(g: RecentDeploy, r: DeployRow) {
    g.feature == r.feature && g.version == r.version
  }

  /** The group is that of the version with its newest row at the position, and counts the
      version's deploys. */
  ghost predicate GroupAt(log: seq<DeployRow>, m: nat, g: RecentDeploy, p: nat)
    requires m <= |log|
  {
    var v := Version(g.feature, g.version);
    && NewestOfVersion(log, m, v, p)
    && g.lastDeploy == log[p].created && g.assignment == log[p].assignment
    && g.total == |DeploysIn(log, m, v)|
    && g.deployed == |DeploysNow(log, m, v, SaysDeployed)|
    && g.failed == |DeploysNow(log, m, v, SaysFailed)|
    && g.pending == |DeploysNow(log, m, v, SaysPending)|
  }

  /** The roll-up of the window, group by group: each is of a version, dated by its newest
      row and counting its deploys; newer groups come first; each version has a group unless
      the number asked for cuts it off. */
  lemma {:induction false} RollUpEntries(log: seq<DeployRow>, m: nat, groups: nat, result: seq<RecentDeploy>)
    returns (at: seq<nat>)
    requires m <= |log| && Lineage(log) && IsRollUp(Window(log, m), groups, result)
    ensures |at| == |result| <= groups
    ensures forall i :: 0 <= i < |at| ==> GroupAt(log, m, result[i], at[i])
    ensures forall i, j :: 0 <= i < j < |at| ==> at[i] > at[j]
    ensures |result| < groups ==>
              forall p :: m <= p < |log| ==> exists i :: 0 <= i < |result| && IsVersion(result[i], log[p])
  {
    var rows := Window(log, m);
    var versions := Versions(Firsts(rows));
    at := RollUpPositions(log, m, |result|);
    forall i | 0 <= i < |result|
      ensures GroupAt(log, m, result[i], at[i]) && Version(result[i].feature, result[i].version) == versions[i]
    {
      assert Sums(result[i], GroupRows(rows, versions[i]));
      assert PositionOf(log, m, versions[i], at[i]);
      RollUpConserves(log, m, versions[i]);
    }
    forall i, j | 0 <= i < j < |at| ensures at[i] > at[j] {
      assert Before(log, versions, at, i, j);
    }
    if |result| < groups {
      forall p | m <= p < |log| ensures exists i :: 0 <= i < |result| && IsVersion(result[i], log[p]) {
        VersionListed(log, m, p);
        var i :| 0 <= i < |versions| && versions[i] == VersionOf(log[p]);
        assert Version(result[i].feature, result[i].version) == versions[i];
      }
    }
  }

  lemma {:induction false} VersionListed(log: seq<DeployRow>, m: nat, p: nat)
    requires m <= p < |log| && Lineage(log)
    ensures VersionOf(log[p]) in Versions(Firsts(Window(log, m)))
  {
    LineageConsistent(log);
    ReversedMembers(log[m..]);
    assert forall r :: r in Window(log, m) ==> r in log;
    FirstsKeepVersions(Window(log, m));
    VersionsNone(Window(log, m));
    assert log[p] in log[m..] by {
      assert log[m..][p - m] == log[p];
    }
    var q :| 0 <= q < |Window(log, m)| && Window(log, m)[q] == log[p];
  }

  ghost predicate PositionOf(log: seq<DeployRow>, m: nat, v: Version, p: nat)
    requires m <= |log|
  {
    var group := GroupRows(Window(log, m), v);
    && NewestOfVersion(log, m, v, p) && group != []
    && Summary(group).lastDeploy == log[p].created && Summary(group).assignment == log[p].assignment
  }

  /** Up to version i's newest row there is no row of version j. */
  predicate Before(log: seq<DeployRow>, versions: seq<Version>, at: seq<nat>, i: nat, j: nat) {
    i < |at| && j < |versions| && forall x :: at[i] <= x < |log| ==> VersionOf(log[x]) != versions[j]
  }

  ghost predicate Positions(log: seq<DeployRow>, m: nat, versions: seq<Version>, at: seq<nat>)
    requires m <= |log|
  {
    && |at| <= |versions| && (forall i :: 0 <= i < |at| ==> PositionOf(log, m, versions[i], at[i]))
    && forall i, j :: 0 <= i < |at| && i < j < |versions| ==> Before(log, versions, at, i, j)
  }

  lemma {:induction false} MorePositions(log: seq<DeployRow>, m: nat, versions: seq<Version>, at: seq<nat>, q: nat)
    requires m <= |log| && Positions(log, m, versions, at) && |at| < |versions|
    requires PositionOf(log, m, versions[|at|], q)
    requires forall j :: |at| < j < |versions| ==> forall x :: q <= x < |log| ==> VersionOf(log[x]) != versions[j]
    ensures Positions(log, m, versions, at + [q])
  {
    var more := at + [q];
    forall i | 0 <= i < |more| ensures PositionOf(log, m, versions[i], more[i]) {
      assert i < |at| ==> more[i] == at[i];
    }
    forall i, j | 0 <= i < |more| && i < j < |versions| ensures Before(log, versions, more, i, j) {
      if i < |at| {
        StillBefore(log, versions, at, q, i, j);
      } else {
        assert more[i] == q;
      }
    }
  }

  lemma {:induction false} StillBefore(log: seq<DeployRow>, versions: seq<Version>, at: seq<nat>, q: nat, i: nat,
                                       j: nat)
    requires i < |at| && Before(log, versions, at, i, j)
    ensures Before(log, versions, at + [q], i, j)
  {}

  lemma {:induction false} RollUpPositions(log: seq<DeployRow>, m: nat, n: nat) returns (at: seq<nat>)
    requires m <= |log| && Lineage(log) && n <= |Versions(Firsts(Window(log, m)))|
    ensures |at| == n && Positions(log, m, Versions(Firsts(Window(log, m))), at)
  {
    at := [];
    if n > 0 {
      at := RollUpPositions(log, m, n - 1);
      var q := NextPosition(log, m, n - 1);
      MorePositions(log, m, Versions(Firsts(Window(log, m))), at, q);
      at := at + [q];
    }
  }

  lemma {:induction false} NextPosition(log: seq<DeployRow>, m: nat, i: nat) returns (q: nat)
    requires m <= |log| && Lineage(log) && i < |Versions(Firsts(Window(log, m)))|
    ensures var versions := Versions(Firsts(Window(log, m)));
            && PositionOf(log, m, versions[i], q)
            && forall j :: i < j < |versions| ==> forall x :: q <= x < |log| ==> VersionOf(log[x]) != versions[j]
  {
    var p := RollUpOrder(log, m, i);
    var versions := Versions(Firsts(Window(log, m)));
    NewestInLog(log, m, versions[i], p);
    q := |log| - 1 - p;
    forall j, x | i < j < |versions| && q <= x < |log| ensures VersionOf(log[x]) != versions[j] {
      InWindow(log, m, x);
      assert VersionOf(Window(log, m)[|log| - 1 - x]) != versions[j];
    }
  }

  lemma {:induction false} InWindow(log: seq<DeployRow>, m: nat, x: nat)
    requires m <= x < |log|
    ensures |Window(log, m)| == |log| - m && Window(log, m)[|log| - 1 - x] == log[x]
  {
    ReversedAt(log[m..], |log| - 1 - x);
  }

  /** The first row of a deploy. */
  predicate FirstOfDeploy(log: seq<DeployRow>, i: nat) {
    i < |log| && forall j :: 0 <= j < i ==> log[j].diid != log[i].diid
  }

  lemma {:induction false} FirstOfDiidAt(rows: seq<DeployRow>, i: nat)
    requires FirstOfDeploy(rows, i)
    ensures FirstOfDiid(rows, rows[i].diid) == Some(rows[i])
  {
    var n := |rows| - 1;
    if i < n {
      assert FirstOfDeploy(rows[..n], i);
      FirstOfDiidAt(rows[..n], i);
    } else {
      FirstOfDiidFound(rows[..n], rows[n].diid);
      assert forall r :: r in rows[..n] ==> r.diid != rows[n].diid;
    }
  }

  /** These are the positions at which a deploy of the list begins. */
  ghost predicate Begin(rows: seq<DeployRow>, order: seq<Diid>, which: seq<nat>) {
    && Picks(which, |rows|) && |which| == |order|
    && (forall k :: 0 <= k < |which| ==> order[k] == rows[which[k]].diid)
    && (forall i: nat :: i in which <==> FirstOfDeploy(rows, i))
  }

  lemma {:induction false} BeginNext(rows: seq<DeployRow>, order: seq<Diid>, which: seq<nat>, take: bool)
    requires rows != [] && Begin(rows[..|rows| - 1], order, which)
    requires take <==> !HasDiid(rows[..|rows| - 1], rows[|rows| - 1].diid)
    ensures var n := |rows| - 1;
            Begin(rows, order + if take then [rows[n].diid] else [], PickNext(which, n, take))
  {
    var n := |rows| - 1;
    PicksNext(which, n, take);
    forall i: nat ensures i in PickNext(which, n, take) <==> FirstOfDeploy(rows, i) {
      FirstOfDeployNext(rows, i);
    }
  }

  lemma {:induction false} OrderIsFirsts(rows: seq<DeployRow>) returns (which: seq<nat>)
    ensures Begin(rows, Order(rows), which)
  {
    if rows == [] {
      which := [];
    } else {
      var n := |rows| - 1;
      var earlier := OrderIsFirsts(rows[..n]);
      var take := !HasDiid(rows[..n], rows[n].diid);
      BeginNext(rows, Order(rows[..n]), earlier, take);
      which := PickNext(earlier, n, take);
    }
  }

  lemma {:induction false} FirstOfDeployNext(rows: seq<DeployRow>, i: nat)
    requires rows != []
    ensures var n := |rows| - 1;
            FirstOfDeploy(rows, i) <==>
              FirstOfDeploy(rows[..n], i) || (i == n && !HasDiid(rows[..n], rows[n].diid))
  {
    var n := |rows| - 1;
    if i == n {
      if HasDiid(rows[..n], rows[n].diid) {
        var r :| r in rows[..n] && r.diid == rows[n].diid;
        var j :| 0 <= j < n && rows[..n][j] == r;
        assert rows[j].diid == rows[n].diid;
      }
      forall j | 0 <= j < n && rows[j].diid == rows[n].diid ensures HasDiid(rows[..n], rows[n].diid) {
        assert rows[..n][j] in rows[..n];
      }
    } else if i < n {
      assert forall j :: 0 <= j <= i ==> rows[..n][j] == rows[j];
    }
  }

  /** The entry tells of a deploy by its first and its last row. */
  predicate Tells(e: DeployEntry, first: DeployRow, last: DeployRow) {
    && e.diid == first.diid == last.diid
    && e.environment == first.environment && e.assignment == first.assignment && e.feature == first.feature
    && e.version == first.version && e.hash == first.hash && e.created == first.created
    && e.status == last.status && e.lastModified == last.created
  }

  /** The entry is of the deploy that begins at the position. */
  ghost predicate EntryAt(rows: seq<DeployRow>, e: DeployEntry, p: nat) {
    FirstOfDeploy(rows, p) && exists i: nat :: LastOfDeploy(rows, i) && Tells(e, rows[p], rows[i])
  }

  /** The list, entry by entry: one for each deploy, from its first and its last row, those
      that began last coming first; a positive limit cuts it. */
  lemma {:induction false} ListEntries(rows: seq<DeployRow>, limit: int, result: seq<DeployEntry>)
    returns (at: seq<nat>)
    requires IsHistory(rows, limit, result)
    ensures |at| == |result| && (limit > 0 ==> |result| <= limit)
    ensures forall k :: 0 <= k < |at| ==> EntryAt(rows, result[k], at[k])
    ensures forall k, l :: 0 <= k < l < |at| ==> at[k] > at[l]
    ensures limit <= 0 || |result| < limit ==> forall i: nat :: FirstOfDeploy(rows, i) ==> i in at
  {
    var which := OrderIsFirsts(rows);
    at := seq(|result|, k requires 0 <= k < |result| => which[|which| - 1 - k]);
    EntriesTell(rows, limit, result, which, at);
    if limit <= 0 || |result| < limit {
      assert |result| == |which|;
      ReversedHasAll(which, at);
      assert forall i: nat :: FirstOfDeploy(rows, i) ==> i in which;
    }
  }

  lemma {:induction false} EntriesTell(rows: seq<DeployRow>, limit: int, result: seq<DeployEntry>, which: seq<nat>,
                                       at: seq<nat>)
    requires IsHistory(rows, limit, result) && Begin(rows, Order(rows), which)
    requires |at| == |result| && forall k :: 0 <= k < |at| ==> at[k] == which[|which| - 1 - k]
    ensures forall k :: 0 <= k < |at| ==> EntryAt(rows, result[k], at[k])
  {
    forall k | 0 <= k < |at| ensures EntryAt(rows, result[k], at[k]) {
      EntryTells(rows, which, k, result[k]);
    }
  }

  lemma {:induction false} ReversedHasAll(which: seq<nat>, at: seq<nat>)
    requires |at| == |which| && forall k :: 0 <= k < |at| ==> at[k] == which[|which| - 1 - k]
    ensures forall i :: i in which ==> i in at
  {
    forall i | i in which ensures i in at {
      var k :| 0 <= k < |which| && which[k] == i;
      assert at[|which| - 1 - k] == i;
    }
  }

  lemma {:induction false} EntryTells(rows: seq<DeployRow>, which: seq<nat>, k: nat, e: DeployEntry)
    requires Begin(rows, Order(rows), which) && k < |which|
    requires HasEntry(rows, Order(rows)[|which| - 1 - k], e)
    ensures EntryAt(rows, e, which[|which| - 1 - k])
  {
    var i := which[|which| - 1 - k];
    assert i in which;
    FirstOfDiidAt(rows, i);
    LatestOfDiidByIndex(rows, rows[i].diid);
  }
}
