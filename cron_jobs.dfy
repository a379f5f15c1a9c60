/**
 * The maintenance job an install registers with the account's task
 * scheduler, and the scoping rule that keeps registration idempotent: a job
 * belongs to a document root when its command contains a space followed by
 * that root.
 */
module CronJobs {
  import opened Php

  /** One crontab line: five schedule fields, the command and the owning account. */
  datatype CronJob = CronJob(
    minute: string, hour: string, dayOfMonth: string, month: string, dayOfWeek: string,
    command: string, owner: string)

  /** `'php -q ' . $docroot . '/crons/cron.php'`. */
  function CronCommand(docroot: string): string {
    "php -q " + docroot + "/crons/cron.php"
  }

  /** The job added by an install: every five minutes, run the WHMCS cron script. */
  function MaintenanceJob(docroot: string, owner: string): CronJob {
    CronJob("*/5", "*", "*", "*", "*", CronCommand(docroot), owner)
  }

  /** The text a job's command must contain to belong to docroot: `' ' . $docroot`. */
  function ScopePattern(docroot: string): string {
    " " + docroot
  }

  /** `crontab_match_job(preg_quote(' ' . $docroot), $owner)`: some job of owner is scoped to docroot. */
  predicate HasJobFor(jobs: seq<CronJob>, docroot: string, owner: string) {
    exists j | j in jobs :: j.owner == owner && Contains(j.command, ScopePattern(docroot))
  }

  /** The command that is added is itself matched by the scope test. */
  lemma CommandIsScoped(docroot: string)
    ensures Contains(CronCommand(docroot), ScopePattern(docroot))
  {
    assert CronCommand(docroot) == "php -q" + ScopePattern(docroot) + "/crons/cron.php";
    ContainsInfix("php -q", ScopePattern(docroot), "/crons/cron.php");
  }

  /** The scheduling step of the install: add the maintenance job unless a scoped job of the owner exists. */
  function EnsureJob(jobs: seq<CronJob>, docroot: string, owner: string): (r: seq<CronJob>)
    ensures HasJobFor(r, docroot, owner)
    ensures HasJobFor(jobs, docroot, owner) ==> r == jobs
    ensures !HasJobFor(jobs, docroot, owner) ==> r == jobs + [MaintenanceJob(docroot, owner)]
  {
    if HasJobFor(jobs, docroot, owner) then jobs
    else
      var r := jobs + [MaintenanceJob(docroot, owner)];
      CommandIsScoped(docroot);
      assert MaintenanceJob(docroot, owner) in r;
      r
  }

  /** Registering twice is the same as registering once. */
  lemma EnsureJobIdempotent(jobs: seq<CronJob>, docroot: string, owner: string)
    ensures EnsureJob(EnsureJob(jobs, docroot, owner), docroot, owner) == EnsureJob(jobs, docroot, owner)
  {
  }

  /** The number of jobs of the owner scoped to docroot. */
  function ScopedCount(jobs: seq<CronJob>, docroot: string, owner: string): nat {
    if jobs == [] then 0
    else
      var last := jobs[|jobs| - 1];
      ScopedCount(jobs[..|jobs| - 1], docroot, owner)
        + (if last.owner == owner && Contains(last.command, ScopePattern(docroot)) then 1 else 0)
  }

  lemma {:induction false} ScopedCountZero(jobs: seq<CronJob>, docroot: string, owner: string)
    requires !HasJobFor(jobs, docroot, owner)
    ensures ScopedCount(jobs, docroot, owner) == 0
  {
    if jobs != [] {
      var front := jobs[..|jobs| - 1];
      assert forall j | j in front :: j in jobs;
      ScopedCountZero(front, docroot, owner);
    }
  }

  /** n registrations in a row. */
  function Repeat(jobs: seq<CronJob>, docroot: string, owner: string, n: nat): seq<CronJob> {
    if n == 0 then jobs else EnsureJob(Repeat(jobs, docroot, owner, n - 1), docroot, owner)
  }

  /** Any positive number of registrations has the effect of one. */
  lemma {:induction false} RepeatIsOnce(jobs: seq<CronJob>, docroot: string, owner: string, n: nat)
    ensures Repeat(jobs, docroot, owner, n + 1) == EnsureJob(jobs, docroot, owner)
  {
    if n > 0 {
      RepeatIsOnce(jobs, docroot, owner, n - 1);
      EnsureJobIdempotent(jobs, docroot, owner);
    }
  }

  /** Starting from no scoped job, any number of registrations leaves exactly one. */
  lemma {:induction false} RegistrationsLeaveOneJob(jobs: seq<CronJob>, docroot: string, owner: string, n: nat)
    requires !HasJobFor(jobs, docroot, owner)
    ensures ScopedCount(Repeat(jobs, docroot, owner, n + 1), docroot, owner) == 1
  {
    RepeatIsOnce(jobs, docroot, owner, n);
    var once := EnsureJob(jobs, docroot, owner);
    ScopedCountZero(jobs, docroot, owner);
    assert once[..|once| - 1] == jobs;
    CommandIsScoped(docroot);
  }

  /**
   * The scope test is a substring test: the job of a root that extends
   * docroot (a sibling `docroot + "2"`, a nested `docroot + "/sub"`) counts
   * as docroot's own, so no job is added for docroot and removing docroot's
   * jobs removes that one as well.
   */
  lemma {:induction false} ExtendedRootCounts(docroot: string, rest: string, owner: string)
    ensures HasJobFor([MaintenanceJob(docroot + rest, owner)], docroot, owner)
    ensures EnsureJob([MaintenanceJob(docroot + rest, owner)], docroot, owner) == [MaintenanceJob(docroot + rest, owner)]
    ensures RemoveScoped([MaintenanceJob(docroot + rest, owner)], docroot) == []
  {
    var j := MaintenanceJob(docroot + rest, owner);
    assert j.command == "php -q" + ScopePattern(docroot) + (rest + "/crons/cron.php");
    ContainsInfix("php -q", ScopePattern(docroot), rest + "/crons/cron.php");
    assert j in [j];
  }

  /** Jobs the uninstall removes for an application root: those whose command is scoped to it. */
  function RemoveScoped(jobs: seq<CronJob>, root: string): (r: seq<CronJob>)
    ensures forall j :: j in r <==> j in jobs && !Contains(j.command, ScopePattern(root))
    ensures forall j :: multiset(r)[j] == if Contains(j.command, ScopePattern(root)) then 0 else multiset(jobs)[j]
  {
    if jobs == [] then []
    else
      var rest := RemoveScoped(jobs[1..], root);
      assert jobs == [jobs[0]] + jobs[1..];
      assert forall j :: j in jobs <==> j == jobs[0] || j in jobs[1..];
      if Contains(jobs[0].command, ScopePattern(root)) then rest else [jobs[0]] + rest
  }

  /** After the scoped jobs are removed, a fresh install adds its maintenance job again. */
  lemma RemoveThenEnsure(jobs: seq<CronJob>, root: string, owner: string)
    ensures EnsureJob(RemoveScoped(jobs, root), root, owner)
              == RemoveScoped(jobs, root) + [MaintenanceJob(root, owner)]
  {
  }
}
