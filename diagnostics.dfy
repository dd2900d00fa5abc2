/**
 * The report side of the scheduler diagnostics (app/diagnostics/scheduler.py):
 * `compute_summary`, which counts the checks by status and names a suspected root cause, and
 * `generate_recommendations`, which turns failed checks into prioritised advice. The checks
 * themselves (SQL queries) are inputs. Each fixed message is a constructor whose text is given
 * by a function.
 */
module Diagnostics {
  import opened Wrappers
  import opened Text

  datatype Status = Pass | Warn | Fail | OtherStatus

  /**
   * The `details` entries the report reads. A missing numeric entry is None and reads as 0
   * (`.get(key, 0)`); a missing `by_status` is the empty dictionary.
   */
  datatype Details = Details(totalRows: Option<int>, futureRows: Option<int>,
                             futureEventsFound: Option<int>, totalEventsInDb: Option<int>,
                             byStatus: seq<(string, int)>)

  /** One diagnostic check; `likelyRootCause` and `nextActions` are None when the key is absent. */
  datatype Check = Check(name: string, status: Status, details: Details,
                         likelyRootCause: Option<string>, nextActions: Option<seq<string>>)

  /** The suspected root causes `compute_summary` can name. */
  datatype Cause = Unknown | MissingSchema | NoJobsCreated | JobsAllPast | NothingToImport
                 | OrgIdMismatch | DatabaseConnection

  function CauseText(c: Cause): string {
    match c
    case Unknown => "Unknown"
    case MissingSchema => "Missing database tables or schema"
    case NoJobsCreated => "No scheduled jobs have been created (fetch button not used)"
    case JobsAllPast => "All scheduled jobs are in the past (show_past=false filters them out)"
    case NothingToImport => "No future events exist (fetch has nothing to import)"
    case OrgIdMismatch => "Org ID mismatch (events exist but jobs don't)"
    case DatabaseConnection => "Database connection issue"
  }

  /** The lines of `key_evidence`, by the rule that adds them. */
  datatype Evidence =
    | TablesMissing
    | TableEmpty
    | NoFutureRows(totalRows: int)
    | NoFutureEvents
    | OrgScoping(text: string)
    | DatabaseUnreachable
    | StatusDistribution(byStatus: seq<(string, int)>)
    | FutureEventsAvailable(count: int)

  datatype Summary = Summary(suspectedRootCause: Cause, confidence: nat, keyEvidence: seq<Evidence>,
                             total: nat, passed: nat, warnings: nat, failed: nat)

  const MAX_EVIDENCE := 6

  /** `.get(key, 0)` */
  function Get(v: Option<int>): int {
    if v.Some? then v.value else 0
  }

  /** `next((c for c in checks if c["name"] == name), None)` */
  function FirstNamed(checks: seq<Check>, name: string): (r: Option<Check>)
    ensures r.Some? ==> r.value in checks && r.value.name == name
    ensures r.None? <==> forall k :: 0 <= k < |checks| ==> checks[k].name != name
  {
    if checks == [] then None
    else if checks[0].name == name then Some(checks[0])
    else FirstNamed(checks[1..], name)
  }

  /** `sum(1 for c in checks if c["status"] == status)` */
  function CountStatus(checks: seq<Check>, status: Status): (n: nat)
    ensures n <= |checks|
  {
    if checks == [] then 0
    else (if checks[0].status == status then 1 else 0) + CountStatus(checks[1..], status)
  }

  /** A check has one status, so the three counts together cover at most every check. */
  lemma {:induction false} CountsBounded(checks: seq<Check>)
    ensures CountStatus(checks, Pass) + CountStatus(checks, Warn) + CountStatus(checks, Fail) <= |checks|
  {
    if checks != [] {
      CountsBounded(checks[1..]);
    }
  }

  // ---------------------------------------------------------------------------
  // The conditions both functions test
  // ---------------------------------------------------------------------------

  predicate Failed(c: Option<Check>) {
    c.Some? && c.value.status == Fail
  }

  /** The checks both functions look up by name (the first of each name). */
  datatype Lookup = Lookup(schema: Option<Check>, data: Option<Check>, fetch: Option<Check>,
                           org: Option<Check>, db: Option<Check>)

  function LookUp(checks: seq<Check>): (l: Lookup)
    ensures l.db.Some? ==> l.db.value in checks && l.db.value.name == "DB_FINGERPRINT"
    ensures l.db.None? ==> forall k :: 0 <= k < |checks| ==> checks[k].name != "DB_FINGERPRINT"
  {
    Lookup(FirstNamed(checks, "SCHEMA_CHECK"), FirstNamed(checks, "SCHEDULED_MESSAGES_DATA"),
           FirstNamed(checks, "FETCH_DIAGNOSTICS"), FirstNamed(checks, "ORG_SCOPING_CHECK"),
           FirstNamed(checks, "DB_FINGERPRINT"))
  }

  /** The scheduled-messages table has no rows. */
  predicate NoJobs(l: Lookup) {
    l.data.Some? && Get(l.data.value.details.totalRows) == 0
  }

  /** It has rows, none of them in the future. */
  predicate AllJobsInPast(l: Lookup) {
    l.data.Some? && Get(l.data.value.details.totalRows) > 0 && Get(l.data.value.details.futureRows) == 0
  }

  /** The fetch check found no future event. */
  predicate NoFutureEventsFound(l: Lookup) {
    l.fetch.Some? && Get(l.fetch.value.details.futureEventsFound) == 0
  }

  predicate OrgWarns(l: Lookup) {
    l.org.Some? && l.org.value.status == Warn
  }

  /** `org_check.get("likely_root_cause", default)` */
  function OrgCause(l: Lookup, default: string): string {
    if l.org.Some? && l.org.value.likelyRootCause.Some? then l.org.value.likelyRootCause.value else default
  }

  // ---------------------------------------------------------------------------
  // compute_summary
  // ---------------------------------------------------------------------------

  /** One root-cause rule: whether it fires, and what it then sets and adds. */
  datatype Rule = Rule(fires: bool, cause: Cause, confidence: nat, evidence: Evidence)

  /** The cause, confidence and evidence after applying a run of rules. */
  datatype Verdict = Verdict(cause: Cause, confidence: nat, evidence: seq<Evidence>)

  /** The root-cause rules of `compute_summary`, in the order it applies them. */
  function Rules(l: Lookup): (rules: seq<Rule>)
    ensures |rules| == 6 && rules[5].fires == Failed(l.db) && rules[5].cause == DatabaseConnection
    ensures forall k :: 0 <= k < 5 ==> rules[k].cause != DatabaseConnection && rules[k].cause != Unknown
  {
    [ Rule(Failed(l.schema), MissingSchema, 95, TablesMissing),
      Rule(NoJobs(l), NoJobsCreated, 90, TableEmpty),
      Rule(AllJobsInPast(l), JobsAllPast, 85,
           NoFutureRows(if l.data.Some? then Get(l.data.value.details.totalRows) else 0)),
      Rule(NoFutureEventsFound(l) && NoJobs(l), NothingToImport, 85, NoFutureEvents),
      Rule(OrgWarns(l) && Contains(OrgCause(l, ""), "has"), OrgIdMismatch, 75, OrgScoping(OrgCause(l, ""))),
      Rule(Failed(l.db), DatabaseConnection, 95, DatabaseUnreachable) ]
  }

  /** Apply the rules in order: each one that fires overwrites the cause and adds its evidence. */
  function Decide(rules: seq<Rule>): (v: Verdict)
    ensures |v.evidence| <= |rules|
  {
    if rules == [] then Verdict(Unknown, 0, [])
    else
      var before := Decide(rules[..|rules| - 1]);
      var rule := rules[|rules| - 1];
      if rule.fires then Verdict(rule.cause, rule.confidence, before.evidence + [rule.evidence])
      else before
  }

  /** With no rule firing the verdict is "Unknown" with confidence 0 and no evidence. */
  lemma {:induction false} DecideNoneFires(rules: seq<Rule>)
    requires forall k :: 0 <= k < |rules| ==> !rules[k].fires
    ensures Decide(rules) == Verdict(Unknown, 0, [])
  {
    if rules != [] {
      DecideNoneFires(rules[..|rules| - 1]);
    }
  }

  /** The last rule that fires decides the cause and the confidence. */
  lemma {:induction false} DecideLastWins(rules: seq<Rule>, i: nat)
    requires i < |rules| && rules[i].fires
    requires forall k :: i < k < |rules| ==> !rules[k].fires
    ensures Decide(rules).cause == rules[i].cause && Decide(rules).confidence == rules[i].confidence
  {
    if i < |rules| - 1 {
      DecideLastWins(rules[..|rules| - 1], i);
    }
  }

  /** The verdict's cause is Unknown or the cause of a rule that fired. */
  lemma {:induction false} DecideCauseFrom(rules: seq<Rule>)
    ensures Decide(rules).cause == Unknown
            || exists k :: 0 <= k < |rules| && rules[k].fires && rules[k].cause == Decide(rules).cause
  {
    if rules != [] {
      var init := rules[..|rules| - 1];
      DecideCauseFrom(init);
      if !rules[|rules| - 1].fires && Decide(init).cause != Unknown {
        var k :| 0 <= k < |init| && init[k].fires && init[k].cause == Decide(init).cause;
        assert rules[k] == init[k];
      }
    }
  }

  /** The extra evidence lines: the status distribution and the future-event count. */
  function ExtraEvidence(l: Lookup): (e: seq<Evidence>)
    ensures |e| <= 2
  {
    (if l.data.Some? && l.data.value.details.byStatus != [] then [StatusDistribution(l.data.value.details.byStatus)] else [])
    + (if l.fetch.Some? then [FutureEventsAvailable(Get(l.fetch.value.details.futureEventsFound))] else [])
  }

  /** `compute_summary` */
  function ComputeSummary(checks: seq<Check>): (s: Summary)
    ensures s.total == |checks|
    ensures s.passed == CountStatus(checks, Pass) && s.warnings == CountStatus(checks, Warn)
            && s.failed == CountStatus(checks, Fail)
    ensures |s.keyEvidence| <= MAX_EVIDENCE
    ensures s.keyEvidence <= Decide(Rules(LookUp(checks))).evidence + ExtraEvidence(LookUp(checks))
    ensures Decide(Rules(LookUp(checks))).evidence <= s.keyEvidence
    ensures var all := Decide(Rules(LookUp(checks))).evidence + ExtraEvidence(LookUp(checks));
      |s.keyEvidence| == if |all| <= MAX_EVIDENCE then |all| else MAX_EVIDENCE
  {
    var l := LookUp(checks);
    var v := Decide(Rules(l));
    var evidence := v.evidence + ExtraEvidence(l);
    var kept := if |evidence| <= MAX_EVIDENCE then evidence else evidence[..MAX_EVIDENCE];
    Summary(v.cause, v.confidence, kept, |checks|, CountStatus(checks, Pass), CountStatus(checks, Warn),
            CountStatus(checks, Fail))
  }

  /** The three status counts never exceed the number of checks. */
  lemma SummaryCountsBounded(checks: seq<Check>)
    ensures var s := ComputeSummary(checks);
            s.passed + s.warnings + s.failed <= s.total
  {
    CountsBounded(checks);
  }

  /** No root-cause rule fires for these checks. */
  predicate NoRuleFires(checks: seq<Check>) {
    var rules := Rules(LookUp(checks));
    forall k :: 0 <= k < |rules| ==> !rules[k].fires
  }

  /** No rule fires: the cause is "Unknown" with confidence 0. */
  lemma SummaryUnknown(checks: seq<Check>)
    requires NoRuleFires(checks)
    ensures ComputeSummary(checks).suspectedRootCause == Unknown
    ensures ComputeSummary(checks).confidence == 0
  {
    DecideNoneFires(Rules(LookUp(checks)));
  }

  /** And "Unknown" means no rule fired. */
  lemma SummaryUnknownIff(checks: seq<Check>)
    ensures ComputeSummary(checks).suspectedRootCause == Unknown <==> NoRuleFires(checks)
  {
    var rules := Rules(LookUp(checks));
    if NoRuleFires(checks) {
      SummaryUnknown(checks);
    } else {
      var i :| 0 <= i < |rules| && rules[i].fires;
      LastFiring(rules, i);
    }
  }

  /** If some rule fires, the last one that does names the cause, which is then not Unknown. */
  lemma LastFiring(rules: seq<Rule>, i: nat)
    requires i < |rules| && rules[i].fires
    requires forall k :: 0 <= k < |rules| ==> rules[k].cause != Unknown
    ensures Decide(rules).cause != Unknown
  {
    var j := i;
    while j + 1 < |rules| && exists k :: j < k < |rules| && rules[k].fires
      invariant i <= j < |rules| && rules[j].fires
      decreases |rules| - j
    {
      var k :| j < k < |rules| && rules[k].fires;
      j := k;
    }
    DecideLastWins(rules, j);
  }

  /** A failed DB_FINGERPRINT check wins over every other rule, since it is applied last. */
  lemma SummaryDatabaseFailure(checks: seq<Check>)
    requires Failed(LookUp(checks).db)
    ensures ComputeSummary(checks).suspectedRootCause == DatabaseConnection
    ensures ComputeSummary(checks).confidence == 95
  {
    DecideLastWins(Rules(LookUp(checks)), 5);
  }

  /** And it is the only way to get that cause. */
  lemma SummaryDatabaseCauseIff(checks: seq<Check>)
    ensures ComputeSummary(checks).suspectedRootCause == DatabaseConnection <==> Failed(LookUp(checks).db)
  {
    if Failed(LookUp(checks).db) {
      SummaryDatabaseFailure(checks);
    } else {
      DecideCauseFrom(Rules(LookUp(checks)));
    }
  }

  // ---------------------------------------------------------------------------
  // generate_recommendations
  // ---------------------------------------------------------------------------

  datatype Priority = P0 | P1 | P2 | Info

  /** The recommendations; only the org-scoping one carries text taken from its check. */
  datatype Recommendation =
    | RunMigrations
    | FixDatabase
    | CreateJobs
    | CreateEvents
    | CreateFutureEvents
    | ShowPastJobs
    | CheckOrgScoping(description: string, commands: seq<string>)
    | AllChecksPassed

  function PriorityOf(r: Recommendation): Priority {
    match r
    case RunMigrations => P0
    case FixDatabase => P0
    case CreateJobs => P1
    case CreateEvents => P1
    case CreateFutureEvents => P1
    case ShowPastJobs => P2
    case CheckOrgScoping(_, _) => P2
    case AllChecksPassed => Info
  }

  function Title(r: Recommendation): string {
    match r
    case RunMigrations => "Run database migrations"
    case FixDatabase => "Fix database connection"
    case CreateJobs => "Create scheduled jobs using fetch button"
    case CreateEvents => "Create events"
    case CreateFutureEvents => "Create events with future dates"
    case ShowPastJobs => "Show past jobs in UI"
    case CheckOrgScoping(_, _) => "Check org_id scoping"
    case AllChecksPassed => "All checks passed"
  }

  function Rank(p: Priority): nat {
    match p
    case P0 => 0
    case P1 => 1
    case P2 => 2
    case Info => 3
  }

  predicate ByPriority(recs: seq<Recommendation>) {
    forall i, j :: 0 <= i < j < |recs| ==> Rank(PriorityOf(recs[i])) <= Rank(PriorityOf(recs[j]))
  }

  predicate AllOf(recs: seq<Recommendation>, p: Priority) {
    forall i :: 0 <= i < |recs| ==> PriorityOf(recs[i]) == p
  }

  /** The critical items: missing schema, unreachable database. */
  function P0Items(l: Lookup): (recs: seq<Recommendation>)
    ensures AllOf(recs, P0)
    ensures FixDatabase in recs <==> Failed(l.db)
  {
    (if Failed(l.schema) then [RunMigrations] else [])
    + (if Failed(l.db) then [FixDatabase] else [])
  }

  /** The major items: no jobs, no future events (told apart by whether any event exists). */
  function P1Items(l: Lookup): (recs: seq<Recommendation>)
    ensures AllOf(recs, P1)
  {
    (if NoJobs(l) then [CreateJobs] else [])
    + (if NoFutureEventsFound(l) then
         (if Get(l.fetch.value.details.totalEventsInDb) == 0 then [CreateEvents] else [CreateFutureEvents])
       else [])
  }

  /** The minor items: jobs only in the past, and the org-scoping warning with its own advice. */
  function P2Items(l: Lookup): (recs: seq<Recommendation>)
    ensures AllOf(recs, P2)
  {
    (if AllJobsInPast(l) then [ShowPastJobs] else [])
    + (if OrgWarns(l) then
         var actions := l.org.value.nextActions;
         [CheckOrgScoping(OrgCause(l, "Verify org_id filtering"), if actions.Some? then actions.value else [])]
       else [])
  }

  /** The items found, most urgent block first. */
  function Found(l: Lookup): (found: seq<Recommendation>)
    ensures |found| <= 6
    ensures ByPriority(found)
    ensures forall i :: 0 <= i < |found| ==> PriorityOf(found[i]) != Info
    ensures FixDatabase in found <==> Failed(l.db)
  {
    OrderedBlocks(P0Items(l), P1Items(l), P2Items(l));
    assert FixDatabase !in P1Items(l) + P2Items(l);
    P0Items(l) + P1Items(l) + P2Items(l)
  }

  /** `generate_recommendations`: the items found, or the single INFO item when there are none. */
  function GenerateRecommendations(checks: seq<Check>): (recs: seq<Recommendation>)
    ensures recs != []
    ensures |recs| <= 6
    ensures ByPriority(recs)
    ensures (exists i :: 0 <= i < |recs| && PriorityOf(recs[i]) == Info) <==> recs == [AllChecksPassed]
    ensures recs == [AllChecksPassed] <==> Found(LookUp(checks)) == []
  {
    var found := Found(LookUp(checks));
    if found == [] then
      var info := [AllChecksPassed];
      assert PriorityOf(info[0]) == Info;
      info
    else
      assert PriorityOf(found[0]) != Info;
      found
  }

  /** Three blocks of increasing priority, joined, are ordered by priority and hold no INFO item. */
  lemma OrderedBlocks(a: seq<Recommendation>, b: seq<Recommendation>, c: seq<Recommendation>)
    requires AllOf(a, P0) && AllOf(b, P1) && AllOf(c, P2)
    ensures ByPriority(a + b + c)
    ensures forall i :: 0 <= i < |a + b + c| ==> PriorityOf((a + b + c)[i]) != Info
  {
    var s := a + b + c;
    forall i | 0 <= i < |s|
      ensures Rank(PriorityOf(s[i])) == if i < |a| then 0 else if i < |a| + |b| then 1 else 2
    {
      if i < |a| {
        assert s[i] == a[i];
      } else if i < |a| + |b| {
        assert s[i] == b[i - |a|];
      } else {
        assert s[i] == c[i - |a| - |b|];
      }
    }
  }

  /** The database advice appears exactly when the summary blames the database connection. */
  lemma DatabaseAdviceAgrees(checks: seq<Check>)
    ensures FixDatabase in GenerateRecommendations(checks)
            <==> ComputeSummary(checks).suspectedRootCause == DatabaseConnection
  {
    SummaryDatabaseCauseIff(checks);
  }
}
