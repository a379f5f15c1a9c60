/**
 * The WHMCS web-app module of the control panel: install, uninstall, the
 * release catalog it installs from, the "is this WHMCS?" probe and the
 * extraction of the live database configuration.
 *
 * Everything the module asks of the panel (is MySQL enabled, download this
 * archive, create this database, run this subprocess, ...) is a collaborator.
 * A collaborator's answer is an input (`Collaborators`), and every call with
 * a side effect is appended, in order, to the `effects` log of the module
 * object, so that contracts can say which calls were made and in what order.
 */
module WhmcsModule {
  import opened Php
  import opened ReleaseCatalog
  import opened CronJobs

  const AppName := "WHMCS"

  /** The connection-limit floor the install imposes on the generated database user. */
  const MinConnectionLimit := 15

  /** The file whose presence marks a WHMCS install, relative to the application root. */
  const LicenseMarker := "/vendor/whmcs/whmcs-foundation/lib/License.php"

  /** The file the configuration extraction needs, relative to the application root. */
  const ConfigFile := "/configuration.php"

  /** `\Opcenter\Auth\Password::generate(10)`: the admin password. */
  type AdminPassword = s: string | |s| == 10 witness "0000000000"

  /** `\Opcenter\Auth\Password::generate(64)`: the card-data encryption secret. */
  type EncryptionHash = s: string | |s| == 64 witness seq(64, _ => '0')

  /** What `DatabaseGenerator::mysql` produces. */
  datatype DbCredentials = DbCredentials(
    hostname: string, username: string, password: string, database: string, connectionLimit: int)

  /** The JSON document piped to the WHMCS installer (`run_install`). */
  datatype InstallerPayload = InstallerPayload(
    adminUsername: string, adminPassword: string,
    license: string, dbHost: string, dbUsername: string, dbPassword: string, dbName: string,
    ccEncryptionHash: string, mysqlCharset: string)

  /** A call with a side effect, in the order the module makes it. */
  datatype Effect =
    | EnableCrontab                                              // crontab_toggle_status(1)
    | FetchCatalog(url: string)                                  // file_get_contents of the catalog endpoint
    | Download(url: string, docroot: string)                     // download and unpack the release
    | CreateDatabase(db: DbCredentials)                          // $db->create()
    | RunInstaller(docroot: string, payload: InstallerPayload)   // pman_run of install/bin/installer.php
    | DeleteDirectory(path: string)                              // file_delete(..., recursive)
    | AddCronJob(job: CronJob)                                   // crontab_add_job
    | InitializeMeta(docroot: string, opts: map<string, string>)
    | Fortify(hostname: string, path: string)
    | NotifyInstalled(hostname: string, path: string, opts: map<string, string>)
    | RemoveJobs(appRoot: string)
    | ParentUninstall(hostname: string, path: string, delete: string)

  /** Why an install returned false (the message given to `error()`, or the failing collaborator). */
  datatype FailReason =
    | MysqlDisabled
    | NoDocumentRoot
    | InvalidOptions
    | CrontabNotPermitted
    | CrontabEnableFailed
    | NoLicenseKey
    | NoAdminUsername
    | NoInstallUrl
    | DownloadFailed
    | DatabaseCreationFailed

  /** `true`, or `false` together with its reason. */
  datatype InstallResult = Installed | Failed(reason: FailReason)

  /** The answers the panel's collaborators give during one install. */
  datatype Collaborators = Collaborators(
    mysqlEnabled: bool,                               // mysql_enabled()
    documentRoot: string,                             // getDocumentRoot($hostname, $path)
    optionsAccepted: bool,                            // parseInstallOptions($opts, ...)
    crontabPermitted: bool,                           // crontab_permitted()
    crontabToggleSucceeds: bool,                      // crontab_toggle_status(1)
    fetchedReleases: Option<ReleasesDocument>,        // json_decode of the endpoint's answer (null when falsy)
    downloadSucceeds: bool,                           // download($url, $docroot, true)
    dbGenerated: DbCredentials,                       // DatabaseGenerator::mysql(...)
    dbCreateSucceeds: bool,                           // $db->create()
    installerSucceeds: bool,                          // $install['success']
    docrootOwner: string,                             // getDocrootUser($docroot)
    cronAddSucceeds: bool,                            // crontab_add_job(...), whose answer the install ignores
    generatedPassword: AdminPassword,
    encryptionHash: EncryptionHash)

  /** `max($db->connectionLimit, 15)`, applied to the generated credentials. */
  function WithConnectionFloor(db: DbCredentials): (db': DbCredentials)
    ensures db'.connectionLimit >= MinConnectionLimit && db'.connectionLimit >= db.connectionLimit
    ensures db'.connectionLimit == MinConnectionLimit || db'.connectionLimit == db.connectionLimit
    ensures db' == db.(connectionLimit := db'.connectionLimit)
  {
    db.(connectionLimit := Max(db.connectionLimit, MinConnectionLimit))
  }

  /** The installer's input document, as `run_install` builds it. */
  function InstallerPayloadFor(
    username: string, password: string, license: string, db: DbCredentials, hash: string): InstallerPayload
  {
    InstallerPayload(username, password, license, db.hostname, db.username, db.password, db.database, hash, "utf8")
  }

  /** `$opts['version']`; a missing key reads as null, which indexes the catalog as "". */
  function RequestedVersion(opts: map<string, string>): string {
    if "version" in opts then opts["version"] else ""
  }

  /** `_getReleaseData()[$v]` given the cached catalog and the decoded endpoint answer. */
  function CatalogLookup(cache: Option<Catalog>, fetched: Option<ReleasesDocument>, v: string): Option<Release> {
    if cache.Some? then Find(cache.value, v)
    else if fetched.None? then None
    else Expected(Records(fetched.value), v)
  }

  // The stages an install gets through, each implying the previous one.

  /** The four checks that precede every side effect. */
  predicate PassesGate(env: Collaborators) {
    env.mysqlEnabled && !Falsy(env.documentRoot) && env.optionsAccepted && env.crontabPermitted
  }

  /** Task scheduling is on, or switching it on succeeds. */
  predicate SchedulingReady(env: Collaborators, wasEnabled: bool) {
    wasEnabled || env.crontabToggleSucceeds
  }

  predicate Validated(env: Collaborators, opts: map<string, string>, wasEnabled: bool) {
    PassesGate(env) && SchedulingReady(env, wasEnabled)
    && !Empty(opts, "license_key") && !Empty(opts, "whmcs_username")
  }

  predicate Resolved(env: Collaborators, opts: map<string, string>, wasEnabled: bool, cache: Option<Catalog>) {
    Validated(env, opts, wasEnabled) && CatalogLookup(cache, env.fetchedReleases, RequestedVersion(opts)).Some?
  }

  predicate Provisioned(env: Collaborators, opts: map<string, string>, wasEnabled: bool, cache: Option<Catalog>) {
    Resolved(env, opts, wasEnabled, cache) && env.downloadSucceeds && env.dbCreateSucceeds
  }

  /** The first admission check that fails, in the order the install makes them; none once validated. */
  function AdmissionFailure(env: Collaborators, opts: map<string, string>, wasEnabled: bool): (r: Option<FailReason>)
    ensures r.None? <==> Validated(env, opts, wasEnabled)
  {
    if !env.mysqlEnabled then Some(MysqlDisabled)
    else if Falsy(env.documentRoot) then Some(NoDocumentRoot)
    else if !env.optionsAccepted then Some(InvalidOptions)
    else if !env.crontabPermitted then Some(CrontabNotPermitted)
    else if !SchedulingReady(env, wasEnabled) then Some(CrontabEnableFailed)
    else if Empty(opts, "license_key") then Some(NoLicenseKey)
    else if Empty(opts, "whmcs_username") then Some(NoAdminUsername)
    else None
  }

  /** The only call admission makes: switching scheduling on, once the first four checks pass. */
  function AdmissionTrace(env: Collaborators, wasEnabled: bool): seq<Effect> {
    if PassesGate(env) && !wasEnabled then [EnableCrontab] else []
  }

  /**
   * Scheduling is switched on before the required options are looked at:
   * an install without a license key still leaves task scheduling enabled.
   */
  lemma SchedulingPrecedesOptions(env: Collaborators, opts: map<string, string>)
    requires PassesGate(env) && env.crontabToggleSucceeds && Empty(opts, "license_key")
    ensures AdmissionFailure(env, opts, false) == Some(NoLicenseKey)
    ensures AdmissionTrace(env, false) == [EnableCrontab]
  {
  }

  /** The first deployment step that fails: no release URL, the download, or the database. */
  function DeployFailure(env: Collaborators, opts: map<string, string>, cache: Option<Catalog>): Option<FailReason> {
    if CatalogLookup(cache, env.fetchedReleases, RequestedVersion(opts)).None? then Some(NoInstallUrl)
    else if !env.downloadSucceeds then Some(DownloadFailed)
    else if !env.dbCreateSucceeds then Some(DatabaseCreationFailed)
    else None
  }

  function FetchTrace(cache: Option<Catalog>): seq<Effect> {
    if cache.Some? then [] else [FetchCatalog(VersionCheckUrl)]
  }

  /**
   * The calls made once the options are valid, in order: the catalog (when
   * not cached), the download, the database, the installer, the clean-up
   * of `install/` when the installer succeeded, the maintenance job when the
   * owner has none for the root, then metadata, fortification and the
   * notification. Each failing step ends the sequence.
   */
  function DeployTrace(
    hostname: string, path: string, opts: map<string, string>, env: Collaborators,
    cache: Option<Catalog>, jobs: seq<CronJob>, username: string): seq<Effect>
    requires "license_key" in opts
  {
    var fetched := FetchTrace(cache);
    if CatalogLookup(cache, env.fetchedReleases, RequestedVersion(opts)).None? then fetched
    else
      var downloaded := fetched + [Download(UrlPrefix + RequestedVersion(opts) + UrlSuffix, env.documentRoot)];
      if !env.downloadSucceeds then downloaded
      else
        var created := downloaded + [CreateDatabase(WithConnectionFloor(env.dbGenerated))];
        if !env.dbCreateSucceeds then created
        else created + CompletionTrace(hostname, path, opts, env, jobs, username)
  }

  /** The calls after the database exists: installer, clean-up, maintenance job, metadata, fortification, notification. */
  function CompletionTrace(
    hostname: string, path: string, opts: map<string, string>, env: Collaborators,
    jobs: seq<CronJob>, username: string): seq<Effect>
    requires "license_key" in opts
  {
    var docroot := env.documentRoot;
    var opts' := opts["whmcs_password" := env.generatedPassword];
    var payload := InstallerPayloadFor(
      username, env.generatedPassword, opts["license_key"], WithConnectionFloor(env.dbGenerated), env.encryptionHash);
    [RunInstaller(docroot, payload)]
    + (if env.installerSucceeds then [DeleteDirectory(docroot + "/install")] else [])
    + (if HasJobFor(jobs, docroot, env.docrootOwner) then []
       else [AddCronJob(MaintenanceJob(docroot, env.docrootOwner))])
    + [InitializeMeta(docroot, opts'), Fortify(hostname, path), NotifyInstalled(hostname, path, opts')]
  }

  /**
   * The crontab after a complete install: the maintenance job is ensured,
   * unless the scheduler refuses to add it, which the install does not notice.
   */
  function JobsAfterInstall(jobs: seq<CronJob>, env: Collaborators): seq<CronJob> {
    if env.cronAddSucceeds then EnsureJob(jobs, env.documentRoot, env.docrootOwner) else jobs
  }

  /**
   * The state a deployment leaves: its result, the crontab (the maintenance
   * job is ensured exactly when every step succeeded) and the catalog cache
   * (filled when it was empty and the endpoint's answer decoded).
   */
  ghost predicate Deployed(
    opts: map<string, string>, env: Collaborators, cache0: Option<Catalog>, jobs0: seq<CronJob>,
    result: InstallResult, cache: Option<Catalog>, jobs: seq<CronJob>)
  {
    && (DeployFailure(env, opts, cache0).Some? ==> result == Failed(DeployFailure(env, opts, cache0).value) && jobs == jobs0)
    && (DeployFailure(env, opts, cache0).None? ==>
          result == Installed && jobs == JobsAfterInstall(jobs0, env))
    && (cache0.None? && env.fetchedReleases.Some? ==> cache.Some? && IsCatalogOf(cache.value, env.fetchedReleases.value))
    && (cache0.Some? || env.fetchedReleases.None? ==> cache == cache0)
  }

  /** The call each position of a deployment can hold, by the step that made it. */
  lemma DeployTraceMembers(
    hostname: string, path: string, opts: map<string, string>, env: Collaborators,
    cache: Option<Catalog>, jobs: seq<CronJob>, username: string)
    requires "license_key" in opts
    ensures forall e | e in DeployTrace(hostname, path, opts, env, cache, jobs, username) ::
              || e in FetchTrace(cache)
              || (DeployFailure(env, opts, cache) != Some(NoInstallUrl)
                  && e == Download(UrlPrefix + RequestedVersion(opts) + UrlSuffix, env.documentRoot))
              || (DeployFailure(env, opts, cache) != Some(NoInstallUrl) && env.downloadSucceeds
                  && e == CreateDatabase(WithConnectionFloor(env.dbGenerated)))
              || (DeployFailure(env, opts, cache).None? && e in CompletionTrace(hostname, path, opts, env, jobs, username))
    ensures DeployFailure(env, opts, cache).None? ==>
              forall e | e in CompletionTrace(hostname, path, opts, env, jobs, username) ::
                e in DeployTrace(hostname, path, opts, env, cache, jobs, username)
  {
  }

  /** The calls after the database exists, one by one. */
  lemma CompletionTraceMembers(
    hostname: string, path: string, opts: map<string, string>, env: Collaborators,
    jobs: seq<CronJob>, username: string)
    requires "license_key" in opts
    ensures forall e | e in CompletionTrace(hostname, path, opts, env, jobs, username) ::
              || e == RunInstaller(env.documentRoot, InstallerPayloadFor(
                   username, env.generatedPassword, opts["license_key"], WithConnectionFloor(env.dbGenerated),
                   env.encryptionHash))
              || (env.installerSucceeds && e == DeleteDirectory(env.documentRoot + "/install"))
              || (!HasJobFor(jobs, env.documentRoot, env.docrootOwner)
                  && e == AddCronJob(MaintenanceJob(env.documentRoot, env.docrootOwner)))
              || e.InitializeMeta? || e.Fortify? || e.NotifyInstalled?
    ensures env.installerSucceeds ==>
              DeleteDirectory(env.documentRoot + "/install") in CompletionTrace(hostname, path, opts, env, jobs, username)
  {
  }

  /** Every database an install creates allows at least 15 connections, and never fewer than generated. */
  lemma DatabaseConnectionFloor(
    hostname: string, path: string, opts: map<string, string>, env: Collaborators,
    cache: Option<Catalog>, jobs: seq<CronJob>, username: string)
    requires "license_key" in opts
    ensures forall e | e in DeployTrace(hostname, path, opts, env, cache, jobs, username) && e.CreateDatabase? ::
              e.db.connectionLimit >= MinConnectionLimit && e.db.connectionLimit >= env.dbGenerated.connectionLimit
              && e.db.database == env.dbGenerated.database && e.db.username == env.dbGenerated.username
  {
    DeployTraceMembers(hostname, path, opts, env, cache, jobs, username);
    CompletionTraceMembers(hostname, path, opts, env, jobs, username);
  }

  /**
   * The installer runs only after the download and the database succeeded,
   * as the requested admin with the generated password, the license key,
   * the new database's credentials and the utf8 charset.
   */
  lemma InstallerPayloadContents(
    hostname: string, path: string, opts: map<string, string>, env: Collaborators,
    cache: Option<Catalog>, jobs: seq<CronJob>, username: string)
    requires "license_key" in opts
    ensures forall e | e in DeployTrace(hostname, path, opts, env, cache, jobs, username) && e.RunInstaller? ::
              && DeployFailure(env, opts, cache).None?
              && e.docroot == env.documentRoot
              && e.payload.adminUsername == username && e.payload.adminPassword == env.generatedPassword
              && e.payload.license == opts["license_key"] && e.payload.mysqlCharset == "utf8"
              && e.payload.dbHost == env.dbGenerated.hostname && e.payload.dbUsername == env.dbGenerated.username
              && e.payload.dbName == env.dbGenerated.database && e.payload.dbPassword == env.dbGenerated.password
              && e.payload.ccEncryptionHash == env.encryptionHash
  {
    DeployTraceMembers(hostname, path, opts, env, cache, jobs, username);
    CompletionTraceMembers(hostname, path, opts, env, jobs, username);
  }

  /** `install/` is deleted exactly when the whole deployment ran and the installer reported success. */
  lemma InstallDirectoryRemoval(
    hostname: string, path: string, opts: map<string, string>, env: Collaborators,
    cache: Option<Catalog>, jobs: seq<CronJob>, username: string)
    requires "license_key" in opts
    ensures DeleteDirectory(env.documentRoot + "/install") in DeployTrace(hostname, path, opts, env, cache, jobs, username)
            <==> DeployFailure(env, opts, cache).None? && env.installerSucceeds
  {
    DeployTraceMembers(hostname, path, opts, env, cache, jobs, username);
    CompletionTraceMembers(hostname, path, opts, env, jobs, username);
  }

  /** A maintenance job is added only when the owner has none for the document root, and it is that root's job. */
  lemma MaintenanceJobAdded(
    hostname: string, path: string, opts: map<string, string>, env: Collaborators,
    cache: Option<Catalog>, jobs: seq<CronJob>, username: string)
    requires "license_key" in opts
    ensures forall e | e in DeployTrace(hostname, path, opts, env, cache, jobs, username) && e.AddCronJob? ::
              && e.job == MaintenanceJob(env.documentRoot, env.docrootOwner)
              && !HasJobFor(jobs, env.documentRoot, env.docrootOwner)
              && DeployFailure(env, opts, cache).None?
  {
    DeployTraceMembers(hostname, path, opts, env, cache, jobs, username);
    CompletionTraceMembers(hostname, path, opts, env, jobs, username);
  }

  /** A failed step is the last call: nothing is created or run after it. */
  lemma FailureStopsDeployment(
    hostname: string, path: string, opts: map<string, string>, env: Collaborators,
    cache: Option<Catalog>, jobs: seq<CronJob>, username: string)
    requires "license_key" in opts
    ensures var t := DeployTrace(hostname, path, opts, env, cache, jobs, username);
            && (DeployFailure(env, opts, cache) == Some(NoInstallUrl) ==> t == FetchTrace(cache))
            && (DeployFailure(env, opts, cache) == Some(DownloadFailed) ==> t[|t| - 1].Download?)
            && (DeployFailure(env, opts, cache) == Some(DatabaseCreationFailed) ==> t[|t| - 1].CreateDatabase?)
            && (DeployFailure(env, opts, cache).None? ==> t[|t| - 1] == NotifyInstalled(hostname, path, opts["whmcs_password" := env.generatedPassword]))
  {
  }

  lemma AppendAssociative(a: seq<Effect>, b: seq<Effect>, c: seq<Effect>)
    ensures a + b + c == a + (b + c)
  {
  }

  /**
   * The module object. Its own fields are `whmcs_username` and
   * `whmcs_password`; the account's scheduler state, its crontab and the
   * process-wide catalog cache are fields here too, since the module's calls
   * read and change them.
   */
  class WhmcsModule {
    var whmcsUsername: string
    var whmcsPassword: Option<string>
    var crontabEnabled: bool
    var jobs: seq<CronJob>
    var cache: Option<Catalog>
    var effects: seq<Effect>

    /** A cached catalog is complete: sorted, and each key holds its own release. */
    ghost predicate Valid()
      reads this
    {
      cache.Some? ==> WellFormed(cache.value)
    }

    constructor (crontabEnabled: bool, jobs: seq<CronJob>, cache: Option<Catalog>)
      requires cache.Some? ==> WellFormed(cache.value)
      ensures Valid()
      ensures whmcsUsername == "admin" && whmcsPassword == None
      ensures this.crontabEnabled == crontabEnabled && this.jobs == jobs && this.cache == cache
      ensures effects == []
    {
      whmcsUsername := "admin";
      whmcsPassword := None;
      this.crontabEnabled := crontabEnabled;
      this.jobs := jobs;
      this.cache := cache;
      effects := [];
    }

    /**
     * `_getReleaseData`: a cached catalog is returned as it is; otherwise the
     * endpoint is fetched, an answer that does not decode gives an empty
     * catalog and leaves the cache alone, and a decoded one is built, sorted
     * and cached.
     */
    method GetReleaseData(fetched: Option<ReleasesDocument>) returns (versions: Catalog)
      requires Valid()
      modifies this`cache, this`effects
      ensures Valid() && WellFormed(versions)
      ensures forall v :: Find(versions, v) == CatalogLookup(old(cache), fetched, v)
      ensures effects == old(effects) + FetchTrace(old(cache))
      ensures old(cache).Some? ==> versions == old(cache).value && cache == old(cache)
      ensures old(cache).None? && fetched.None? ==> versions == [] && cache == None
      ensures old(cache).None? && fetched.Some? ==> cache == Some(versions) && IsCatalogOf(versions, fetched.value)
    {
      if cache.Some? {
        return cache.value;
      }
      effects := effects + [FetchCatalog(VersionCheckUrl)];
      if fetched.None? {
        return [];
      }
      versions := BuildVersions(fetched.value);
      CatalogOfIsWellFormed(versions, fetched.value);
      cache := Some(versions);
    }

    /**
     * Two catalog reads in a row: once a decoded answer is cached the endpoint
     * is not asked again and the same catalog comes back; an answer that
     * does not decode is not cached, so the second read asks again.
     */
    method GetReleaseDataTwice(fetched: Option<ReleasesDocument>) returns (first: Catalog, second: Catalog)
      requires Valid()
      modifies this`cache, this`effects
      ensures Valid()
      ensures forall v :: Find(second, v) == Find(first, v)
      ensures old(cache).Some? || fetched.Some? ==>
                second == first && effects == old(effects) + FetchTrace(old(cache))
      ensures old(cache).None? && fetched.None? ==>
                effects == old(effects) + [FetchCatalog(VersionCheckUrl), FetchCatalog(VersionCheckUrl)]
    {
      first := GetReleaseData(fetched);
      second := GetReleaseData(fetched);
    }

    /** `get_versions`: the catalog's keys, in `ksort` order. */
    method GetVersions(fetched: Option<ReleasesDocument>) returns (versions: seq<string>)
      requires Valid()
      modifies this`cache, this`effects
      ensures Valid()
      ensures forall i, j | 0 <= i < j < |versions| :: StrLess(versions[i], versions[j])
      ensures forall v :: v in versions <==> CatalogLookup(old(cache), fetched, v).Some?
      ensures effects == old(effects) + FetchTrace(old(cache))
      ensures old(cache).None? && fetched.Some? ==> cache.Some? && IsCatalogOf(cache.value, fetched.value)
      ensures old(cache).Some? || fetched.None? ==> cache == old(cache)
    {
      var c := GetReleaseData(fetched);
      versions := seq(|c|, i requires 0 <= i < |c| => c[i].key);
      forall v ensures v in versions <==> Find(c, v).Some? {
        if Find(c, v).Some? {
          var i :| 0 <= i < |c| && c[i] == Entry(v, Find(c, v).value);
          assert versions[i] == v;
        }
      }
    }

    /**
     * The admission part of `install`: the checks in order, switching
     * scheduling on before the required options are looked at, then the
     * admin credentials.
     */
    method Admit(opts: map<string, string>, env: Collaborators)
      returns (failure: Option<FailReason>, ghost trace: seq<Effect>)
      requires Valid()
      modifies this`crontabEnabled, this`effects, this`whmcsUsername, this`whmcsPassword
      ensures Valid()
      ensures failure == AdmissionFailure(env, opts, old(crontabEnabled))
      ensures trace == AdmissionTrace(env, old(crontabEnabled)) && effects == old(effects) + trace
      ensures crontabEnabled == (old(crontabEnabled) || (PassesGate(env) && env.crontabToggleSucceeds))
      ensures failure.None? ==>
                whmcsUsername == opts["whmcs_username"] && whmcsPassword == Some(env.generatedPassword)
      ensures failure.Some? ==> whmcsUsername == old(whmcsUsername) && whmcsPassword == old(whmcsPassword)
    {
      trace := [];
      if !env.mysqlEnabled {
        return Some(MysqlDisabled), trace;
      }
      if Falsy(env.documentRoot) {
        return Some(NoDocumentRoot), trace;
      }
      if !env.optionsAccepted {
        return Some(InvalidOptions), trace;
      }
      if !env.crontabPermitted {
        return Some(CrontabNotPermitted), trace;
      }
      if !crontabEnabled {
        effects := effects + [EnableCrontab];
        trace := [EnableCrontab];
        if !env.crontabToggleSucceeds {
          return Some(CrontabEnableFailed), trace;
        }
        crontabEnabled := true;
      }
      if Empty(opts, "license_key") {
        return Some(NoLicenseKey), trace;
      }
      if Empty(opts, "whmcs_username") {
        return Some(NoAdminUsername), trace;
      }
      whmcsUsername := opts["whmcs_username"];
      whmcsPassword := Some(env.generatedPassword);
      failure := None;
    }

    /**
     * The release lookup of `install`: `array_get($release, 'url')` on the
     * catalog entry of the version, and the falsy test on it.
     */
    method Resolve(version: string, fetched: Option<ReleasesDocument>) returns (url: Option<string>)
      requires Valid()
      modifies this`cache, this`effects
      ensures Valid()
      ensures url.Some? <==> CatalogLookup(old(cache), fetched, version).Some?
      ensures url.Some? ==> url.value == UrlPrefix + version + UrlSuffix
      ensures effects == old(effects) + FetchTrace(old(cache))
      ensures old(cache).None? && fetched.Some? ==> cache.Some? && IsCatalogOf(cache.value, fetched.value)
      ensures old(cache).Some? || fetched.None? ==> cache == old(cache)
    {
      var versions := GetReleaseData(fetched);
      var release := Find(versions, version);
      if release.None? {
        return None;
      }
      FindInWellFormed(versions, version);
      if Falsy(release.value.url) {
        return None;
      }
      url := Some(release.value.url);
    }

    /**
     * The deployment part of `install`: look the version up, download it,
     * create the database, run the installer, register the maintenance job
     * and finish with metadata, fortification and the notification.
     */
    method Deploy(hostname: string, path: string, opts: map<string, string>, env: Collaborators)
      returns (result: InstallResult, ghost trace: seq<Effect>)
      requires Valid() && "license_key" in opts
      modifies this`cache, this`jobs, this`effects
      ensures Valid()
      ensures trace == DeployTrace(hostname, path, opts, env, old(cache), old(jobs), whmcsUsername)
      ensures effects == old(effects) + trace
      ensures Deployed(opts, env, old(cache), old(jobs), result, cache, jobs)
    {
      var docroot := env.documentRoot;
      trace := FetchTrace(cache);
      var found := Resolve(RequestedVersion(opts), env.fetchedReleases);
      if found.None? {
        return Failed(NoInstallUrl), trace;
      }
      var url := found.value;

      effects := effects + [Download(url, docroot)];
      AppendAssociative(old(effects), trace, [Download(url, docroot)]);
      trace := trace + [Download(url, docroot)];
      if !env.downloadSucceeds {
        return Failed(DownloadFailed), trace;
      }

      var db := WithConnectionFloor(env.dbGenerated);
      effects := effects + [CreateDatabase(db)];
      AppendAssociative(old(effects), trace, [CreateDatabase(db)]);
      trace := trace + [CreateDatabase(db)];
      if !env.dbCreateSucceeds {
        return Failed(DatabaseCreationFailed), trace;
      }

      ghost var completion;
      completion := Complete(hostname, path, opts, env);
      AppendAssociative(old(effects), trace, completion);
      trace := trace + completion;
      return Installed, trace;
    }

    /** The end of `install`: everything after the database is created. */
    method Complete(hostname: string, path: string, opts: map<string, string>, env: Collaborators)
      returns (ghost trace: seq<Effect>)
      requires "license_key" in opts
      modifies this`jobs, this`effects
      ensures trace == CompletionTrace(hostname, path, opts, env, old(jobs), whmcsUsername)
      ensures effects == old(effects) + trace
      ensures jobs == JobsAfterInstall(old(jobs), env)
    {
      var docroot := env.documentRoot;
      var opts' := opts["whmcs_password" := env.generatedPassword];
      var db := WithConnectionFloor(env.dbGenerated);
      var payload := InstallerPayloadFor(whmcsUsername, env.generatedPassword, opts["license_key"], db, env.encryptionHash);
      var calls := [RunInstaller(docroot, payload)];
      if env.installerSucceeds {
        calls := calls + [DeleteDirectory(docroot + "/install")];
      }
      var owner := env.docrootOwner;
      if !HasJobFor(jobs, docroot, owner) {
        var job := MaintenanceJob(docroot, owner);
        if env.cronAddSucceeds {
          jobs := jobs + [job];
        }
        calls := calls + [AddCronJob(job)];
      }
      calls := calls + [InitializeMeta(docroot, opts'), Fortify(hostname, path), NotifyInstalled(hostname, path, opts')];
      effects := effects + calls;
      trace := calls;
    }

    /**
     * `install`. The first failing check decides the result; scheduling is
     * switched on before the license and user name are checked; the admin
     * password is always a generated one; a failed installer does not fail
     * the install, it only keeps `install/` in place.
     */
    method Install(hostname: string, path: string, opts: map<string, string>, env: Collaborators)
      returns (result: InstallResult, ghost trace: seq<Effect>)
      requires Valid()
      modifies this
      ensures Valid()
      ensures effects == old(effects) + trace
      ensures result == Installed <==> Provisioned(env, opts, old(crontabEnabled), old(cache))
      ensures crontabEnabled == (old(crontabEnabled) || (PassesGate(env) && env.crontabToggleSucceeds))
      ensures AdmissionFailure(env, opts, old(crontabEnabled)).Some? ==>
                && result == Failed(AdmissionFailure(env, opts, old(crontabEnabled)).value)
                && trace == AdmissionTrace(env, old(crontabEnabled))
                && whmcsUsername == old(whmcsUsername) && whmcsPassword == old(whmcsPassword)
                && jobs == old(jobs) && cache == old(cache)
      ensures Validated(env, opts, old(crontabEnabled)) ==>
                && whmcsUsername == opts["whmcs_username"] && whmcsPassword == Some(env.generatedPassword)
                && trace == AdmissionTrace(env, old(crontabEnabled))
                            + DeployTrace(hostname, path, opts, env, old(cache), old(jobs), opts["whmcs_username"])
                && Deployed(opts, env, old(cache), old(jobs), result, cache, jobs)
    {
      var failure;
      ghost var admitted, deployed;
      failure, admitted := Admit(opts, env);
      if failure.Some? {
        return Failed(failure.value), admitted;
      }
      result, deployed := Deploy(hostname, path, opts, env);
      trace := admitted + deployed;
      AppendAssociative(old(effects), admitted, deployed);
    }

    /**
     * Two installs into the same document root: the second adds no further
     * maintenance job, so exactly one job of the owner is scoped to the root,
     * or none when the scheduler refuses the job.
     */
    method InstallTwice(hostname: string, path: string, opts: map<string, string>, env: Collaborators)
      returns (first: InstallResult, second: InstallResult)
      requires Valid()
      requires !HasJobFor(jobs, env.documentRoot, env.docrootOwner)
      modifies this
      ensures Valid()
      ensures first == Installed ==> second == Installed
      ensures first == Installed ==>
                ScopedCount(jobs, env.documentRoot, env.docrootOwner) == if env.cronAddSucceeds then 1 else 0
    {
      ghost var jobs0 := jobs;
      ghost var cache0 := cache;
      ghost var trace;
      first, trace := Install(hostname, path, opts, env);
      ghost var jobs1 := jobs;
      ghost var cache1 := cache;
      second, trace := Install(hostname, path, opts, env);
      if first == Installed {
        var v := RequestedVersion(opts);
        assert CatalogLookup(cache1, env.fetchedReleases, v) == CatalogLookup(cache0, env.fetchedReleases, v);
        assert jobs == JobsAfterInstall(jobs1, env);
        if env.cronAddSucceeds {
          RegistrationsLeaveOneJob(jobs0, env.documentRoot, env.docrootOwner, 0);
          assert Repeat(jobs0, env.documentRoot, env.docrootOwner, 1) == jobs1;
        } else {
          ScopedCountZero(jobs0, env.documentRoot, env.docrootOwner);
        }
      }
    }

    /** `uninstall`: the root's scheduled jobs go first, then the panel's generic uninstall. */
    method Uninstall(hostname: string, path: string, delete: string, appRoot: string, parentResult: bool)
      returns (ok: bool)
      requires Valid()
      modifies this`jobs, this`effects
      ensures Valid()
      ensures jobs == RemoveScoped(old(jobs), appRoot)
      ensures effects == old(effects) + [RemoveJobs(appRoot), ParentUninstall(hostname, path, delete)]
      ensures ok == parentResult
    {
      jobs := RemoveScoped(jobs, appRoot);
      effects := effects + [RemoveJobs(appRoot)];
      effects := effects + [ParentUninstall(hostname, path, delete)];
      ok := parentResult;
    }
  }

  /** `valid`: a name that does not start with '/' is a host name, resolved to its document root first. */
  function AppRootOf(mixed: string, path: string, documentRoot: (string, string) -> string): (root: string)
    ensures IsPrefix("/", mixed) ==> root == mixed
    ensures !IsPrefix("/", mixed) ==> root == documentRoot(mixed, path)
  {
    if |mixed| > 0 && mixed[0] == '/' then mixed else documentRoot(mixed, path)
  }

  /**
   * `valid`: the WHMCS license library exists under the resolved root. An
   * absolute path is probed as it is; anything else, "" included, is first
   * resolved as a host name.
   */
  function IsWhmcsInstall(
    mixed: string, path: string, documentRoot: (string, string) -> string,
    fsPath: string -> string, files: set<string>): (r: bool)
    ensures IsPrefix("/", mixed) ==> (r <==> fsPath(mixed) + LicenseMarker in files)
    ensures !IsPrefix("/", mixed) ==> (r <==> fsPath(documentRoot(mixed, path)) + LicenseMarker in files)
  {
    fsPath(AppRootOf(mixed, path, documentRoot)) + LicenseMarker in files
  }

  /** Asking with a host name is asking with its document root. */
  lemma HostNameProbesDocumentRoot(
    host: string, path: string, other: string, documentRoot: (string, string) -> string,
    fsPath: string -> string, files: set<string>)
    requires !IsPrefix("/", host) && IsPrefix("/", documentRoot(host, path))
    ensures IsWhmcsInstall(host, path, documentRoot, fsPath, files)
              == IsWhmcsInstall(documentRoot(host, path), other, documentRoot, fsPath, files)
  {
  }

  /** The outcome of a `pman_run` subprocess. */
  datatype ProcessResult = ProcessResult(success: bool, stdout: string, stderr: string)

  /**
   * `db_config`. The first two cases are both PHP's `false` (`error()`
   * logs its message and returns false); the message is the logged text.
   */
  datatype DbConfigResult =
    | ConfigNotFound
    | ExtractionFailed(message: string)
    | Extracted(serialized: string)      // the helper's trimmed output, to be unserialized

  function DbConfig(appRoot: string, files: set<string>, helper: ProcessResult): (r: DbConfigResult)
    ensures r.ConfigNotFound? <==> appRoot + ConfigFile !in files
    ensures r.ExtractionFailed? <==> appRoot + ConfigFile in files && !helper.success
    ensures r.ExtractionFailed? ==> Contains(r.message, appRoot) && Contains(r.message, helper.stderr)
    ensures r.Extracted? ==> r.serialized == Trim(helper.stdout)
  {
    if appRoot + ConfigFile !in files then ConfigNotFound
    else if !helper.success then
      var lead := "failed to obtain " + AppName + " configuration for `";
      var message := lead + appRoot + "': " + helper.stderr;
      ContainsInfix(lead, appRoot, "': " + helper.stderr);
      ContainsInfix(lead + appRoot + "': ", helper.stderr, []);
      assert lead + appRoot + ("': " + helper.stderr) == message;
      assert lead + appRoot + "': " + helper.stderr + [] == message;
      ExtractionFailed(message)
    else
      Extracted(Trim(helper.stdout))
  }
}
