# WHMCS web-app module, modelled in Dafny

This project models the WHMCS integration of a hosting control panel's
web-app framework. It covers two PHP classes.

- `Whmcs_Module` (lib/module.php) installs WHMCS into a document root:
  - it checks the account;
  - it switches task scheduling on;
  - it picks a release from the vendor's catalog and downloads it;
  - it creates a database and runs the WHMCS installer;
  - it registers a maintenance cron job.

  The class also builds and caches that release catalog, recognises an
  existing WHMCS install, extracts the live database configuration, and
  removes the cron jobs on uninstall.
- `Handler` (lib/handler.php) describes the application to the panel with a
  few constants. It routes `liwhmcs_*` API calls through `__call`, and it
  implements `handle`.

Everything the module asks of the panel is a collaborator. The MySQL and
crontab state, downloads, database creation, subprocesses, the file system,
metadata, fortification and notifications all fall in this group. Each
collaborator's answer is an input (`WhmcsModule.Collaborators`). Every call
with a side effect is appended, in order, to the module object's `effects`
log. Contracts can then state the exact sequence of calls an install makes,
and where a failure cuts it short.

Modules:

| module | file | models |
|---|---|---|
| Php | php.dfy | PHP built-ins the source relies on: truthiness, `empty()`, `strpos`, `explode` on one character, `str_replace`, `strcmp` order, `trim` |
| ReleaseCatalog | release_catalog.dfy | the catalog built by `_getReleaseData`: a PHP array as a sequence of entries with distinct keys, assignment, lookup, `ksort` |
| CronJobs | cron_jobs.dfy | the maintenance job, the `' ' . $docroot` scope test, idempotent registration, removal on uninstall |
| Fortification | fortification.dfy | the `$aclList` table |
| WhmcsModule | whmcs_module.dfy | the module object (class `WhmcsModule`): `install` in its phases, the catalog cache, `get_versions`, `uninstall`, `valid`, `db_config`, the installer payload |
| WhmcsHandler | handler.dfy | the handler's constants, `__call` routing, `getClassMapping`, `handle` |

How the install is specified:

- `AdmissionFailure` gives the first failing check, in source order.
- `AdmissionTrace` is the only call made before validation completes: switching scheduling on.
- `DeployFailure` and `DeployTrace` give the first failing deployment step and the exact calls made.
- `Deployed` states the crontab and cache a deployment leaves.
- `WhmcsModule.Install` is proved against these: its result, its trace, its fields, the crontab and the cache.
- Lemmas about `DeployTrace` state the properties the source promises. Examples: the connection floor, the installer payload, and when `install/` is deleted.

## Model

| member | source | states |
|---|---|---|
| WhmcsModule.WhmcsModule.Install | lib/module.php:63-140 | The first failing check decides the result, in the order mysql, document root, options, crontab permitted, scheduling enabled, license key, admin user name. Before validation the only call is switching scheduling on, made only when it is off and before the license check. After validation the trace is exactly the deployment trace. The admin user name and a generated password are stored once validation passes. The result is true exactly when validation, the catalog lookup, the download and the database creation all succeed, whatever the installer reports. |
| WhmcsModule.WhmcsModule.Admit | lib/module.php:65-99 | The failure is the first failing check. The trace is the scheduling switch, made only when scheduling was off and the first four checks passed. Scheduling ends up on when it was on or the switch succeeded. The credentials are set only on success. |
| WhmcsModule.AdmissionFailure | lib/module.php:65-96 | No check fails exactly when the install is validated. |
| WhmcsModule.SchedulingPrecedesOptions | lib/module.php:86-92 | With scheduling off and no license key, the install fails with NoLicenseKey after switching scheduling on. |
| WhmcsModule.WhmcsModule.Resolve | lib/module.php:101-107 | A URL is found exactly when the version is in the catalog (cached, or built from the fetched answer). That URL is the download template with the version substituted. |
| WhmcsModule.WhmcsModule.Deploy | lib/module.php:101-137 | The calls made are exactly the deployment trace. The result, the crontab and the cache are as the deployment outcome states: the first failing step fails the install and leaves the crontab unchanged. A complete deployment succeeds even when the scheduler refuses the maintenance job. |
| WhmcsModule.WhmcsModule.Complete | lib/module.php:120-137 | The calls are installer, clean-up, job, metadata, fortify and notify, in that order. The crontab becomes the result of ensuring the maintenance job, or stays as it was when the scheduler refuses the job, whose answer is ignored. |
| WhmcsModule.FailureStopsDeployment | lib/module.php:103-118 | A missing URL, a failed download or a failed database creation is the last call made: no database after a failed download, no installer after a failed database. A complete run ends with the notification. |
| WhmcsModule.WithConnectionFloor | lib/module.php:113-114 | The connection limit becomes max(generated, 15). Every other credential is unchanged. |
| WhmcsModule.DatabaseConnectionFloor | lib/module.php:113-116 | Every database an install creates has a connection limit of at least 15 and at least the generated limit. |
| WhmcsModule.InstallerPayloadContents | lib/module.php:270-286 | The installer runs only after download and database succeeded. It receives the requested admin name, the generated password, the license key, the new database's host, user name, password and name, the generated encryption secret and charset utf8. |
| WhmcsModule.InstallDirectoryRemoval | lib/module.php:120-123 | `<docroot>/install` is deleted exactly when the deployment completed and the installer reported success. |
| WhmcsModule.MaintenanceJobAdded | lib/module.php:125-128 | A cron job is requested only after a complete deployment, only when the owner has no job scoped to the root, and it is that root's maintenance job. |
| WhmcsModule.WhmcsModule.InstallTwice | lib/module.php:125-128 | Starting with no scoped job, two installs with the same answers: when the first succeeds, so does the second, and exactly one job of the owner is scoped to the root afterwards (none when the scheduler refuses to add it). Nothing is claimed about the crontab when the first install fails. |
| WhmcsModule.WhmcsModule.constructor | lib/module.php:18-19 | The admin user name starts as "admin" and the password is unset. |
| WhmcsModule.WhmcsModule.GetReleaseData | lib/module.php:209-242 | A cache hit returns the stored catalog and makes no call. On a miss the endpoint is fetched once. An answer that does not decode gives an empty catalog and leaves the cache empty. A decoded answer gives the catalog of that answer, which is cached. Either way the lookups agree with `CatalogLookup`. |
| WhmcsModule.WhmcsModule.GetReleaseDataTwice | lib/module.php:211-219 | Once a decoded answer is cached, a second read makes no request and returns the same catalog. A failed decode is not cached, so the second read fetches again. |
| WhmcsModule.WhmcsModule.GetVersions | lib/module.php:199-239 | Returns the catalog's keys in strictly increasing `strcmp` order. A version is listed exactly when the catalog holds it. On a miss the endpoint is fetched; a decoded answer's catalog is cached, and an answer that does not decode leaves the cache empty. A hit leaves the cache as it was. |
| WhmcsModule.WhmcsModule.Uninstall | lib/module.php:182-190 | The root's scoped jobs are removed before the generic uninstall runs. Its answer is returned unchanged. |
| WhmcsModule.AppRootOf | lib/module.php:47-49 | A name starting with '/' is a path and used as is. Anything else, the empty string included, is a host name resolved to its document root. |
| WhmcsModule.IsWhmcsInstall | lib/module.php:43-52 | An absolute path is probed as it is; any other name, "" included, is first resolved to its document root. The answer is whether the license library exists below the probed root. |
| WhmcsModule.HostNameProbesDocumentRoot | lib/module.php:43-52 | Asking `valid` with a host name gives the same answer as asking with its document root. |
| WhmcsModule.DbConfig | lib/module.php:145-170 | Two outcomes are PHP's `false`. `ConfigNotFound` happens exactly when `configuration.php` is missing. `ExtractionFailed` happens exactly when the file exists and the helper fails; its message is the text `error()` logs, which names the root and carries the helper's stderr. Otherwise the result is `trim` of the helper's stdout. |
| ReleaseCatalog.BuildVersions | lib/module.php:221-237 | The catalog holds exactly the releases of the latest record and the LTS records, keyed by version, each key holding its last record, sorted by key. |
| ReleaseCatalog.CatalogOfIsWellFormed | lib/module.php:221-237 | Each entry of a built catalog has version equal to its key and URL equal to the template with that key substituted. |
| ReleaseCatalog.FindInWellFormed | lib/module.php:103-105 | The release found under v has version v and v's download URL. |
| ReleaseCatalog.DownloadUrl | lib/module.php:223-224 | Replacing `{VERSION}` in the template gives prefix + version + suffix. |
| ReleaseCatalog.Find | lib/module.php:103 | `$versions[$k]` is null exactly when no entry has key k. Otherwise it is the value stored under k. |
| ReleaseCatalog.Put | lib/module.php:229 | Assignment keeps keys distinct and changes only key k. A new key is appended at the end. An existing key is overwritten at its own position, and every other entry stays where it was. |
| ReleaseCatalog.Insert | lib/module.php:237 | One insertion step of the sort keeps keys sorted, adds exactly the new entry, and keeps every other lookup. |
| ReleaseCatalog.KSort | lib/module.php:237 | `ksort` gives a catalog sorted by key with the same length and the same value under every key. |
| ReleaseCatalog.LastWith | lib/module.php:228-235 | The record kept for k has version k and is one of the records. There is none exactly when no record has version k. |
| ReleaseCatalog.LastWithAfter | lib/module.php:228-235 | The record kept for k is the last record with version k: later assignments overwrite earlier ones. |
| ReleaseCatalog.LatestIsListed | lib/module.php:221-226 | The latest release is always in the catalog. |
| ReleaseCatalog.ListedVersions | lib/module.php:221-235 | A version is listed exactly when it is the latest or an LTS release. |
| ReleaseCatalog.LtsOverridesEarlier | lib/module.php:228-235 | An LTS record overwrites an earlier entry of its version, the latest release included. |
| CronJobs.CommandIsScoped | lib/module.php:126-127 | The command an install adds contains `' ' . $docroot`, so its own scope test matches it. |
| CronJobs.EnsureJob | lib/module.php:125-128 | Afterwards a scoped job exists. The crontab is unchanged when one existed; otherwise exactly the maintenance job is appended. |
| CronJobs.EnsureJobIdempotent | lib/module.php:125-128 | Registering twice is registering once. |
| CronJobs.RepeatIsOnce | lib/module.php:125-128 | Any positive number of registrations has the effect of one. |
| CronJobs.RegistrationsLeaveOneJob | lib/module.php:125-128 | From a crontab with no scoped job, any number of registrations leaves exactly one. |
| CronJobs.ExtendedRootCounts | lib/module.php:126 | The job of a root that extends the document root, such as a sibling `site2` or a nested `site/sub`, satisfies the document root's scope test: no job is added for it, and removal takes that job too. |
| CronJobs.RemoveScoped | lib/module.php:187 | A job remains exactly when it was there and its command does not contain `' ' . $approot`. Every kept job keeps its number of copies; scoped jobs have none left. |
| CronJobs.RemoveThenEnsure | lib/module.php:125-128 | After the uninstall removes a root's jobs, a new install adds its maintenance job again. |
| Fortification.AclLevels | lib/module.php:21-33 | Only "min" and "max" have entries. "min" is "max" plus `.htaccess`. |
| WhmcsHandler.HandlerConstants | lib/handler.php:23-54 | `display` is true, `hasInstall` is false, `getVersions` is ['1.0'], the mapping is "liwhmcs", fortification defaults to "max", SSL is allowed and recovery is not. |
| WhmcsHandler.Call | lib/handler.php:64-85 | Every branch calls the parent with the same name and arguments. A debug line is produced exactly in debug mode for a name whose prefix is the mapping. |
| WhmcsHandler.RouteSplits | lib/handler.php:66-74 | A name without '_' is unqualified. Otherwise prefix + "_" + rest gives the name back, and the prefix has no '_'. |
| WhmcsHandler.EchoOnlyForMapping | lib/handler.php:71-82 | A debug line is possible only for names starting with `liwhmcs_`. |
| WhmcsHandler.MappedNames | lib/handler.php:70-71 | `liwhmcs_` + fn is routed as mapped with function fn, even when fn contains '_'. |
| WhmcsHandler.Handle | lib/handler.php:97-105 | With a non-empty `say`, it calls `liwhmcs_hello` through the mapped route and reports success. Otherwise it hands the same parameters to the parent and returns its answer. |
| Php.IndexOf | lib/handler.php:66 | `strpos` of one character: none exactly when absent, otherwise the first occurrence. |
| Php.SplitFirst | lib/handler.php:70 | `explode('_', $name, 2)` gives a part without '_' and the rest, which glue back to the name. |
| Php.StrReplaceTemplate | lib/module.php:223-224 | `str_replace` on a template with one placeholder replaces exactly that placeholder. |
| Php.StrLessTotal | lib/module.php:237 | `strcmp` order is total: of two different keys, one sorts before the other. |
| Php.Trim | lib/module.php:169 | `trim` gives the slice of its input left once whitespace is cut at both ends. Everything cut is whitespace, and the result neither starts nor ends with whitespace. |
| Php.TrimUnique | lib/module.php:169 | Only one such slice exists, so the contract of `trim` fixes its result. |

## Left out

- Network fetch and JSON decoding of the catalog endpoint (lib/module.php:216-217). The decoded answer is an input: `None` when it is falsy or does not decode. A decoded answer is assumed to have the `latestVersion`/`ltsReleases` shape.
- A failed fetch. Under `strict_types=1` (lib/module.php:3), `file_get_contents` returning false makes `json_decode(false, true)` throw a `TypeError` instead of yielding an empty catalog. The model has no fetch failure: every fetch gives an answer, and only an undecodable answer gives the empty catalog.
- The cache's implementation and expiry. The cache is the optional catalog in the module object's `cache` field.
- Subprocesses. The installer run and the configuration helper are abstracted to their outcome: success, stdout, stderr. `json_encode` of the payload is left out; the payload is a record. `unserialize` of the helper's output is left out; `DbConfig` returns the trimmed text that would be unserialized.
- Random generation of the admin password and the card-data encryption secret. Each is an input of the stated length (10 and 64).
- Downloading and unpacking, database creation, file deletion, `initializeMeta`, `fortify`, `notifyInstalled` and the parent's `uninstall`. Each is an oracle answer and/or a recorded effect. `parseInstallOptions` is an oracle answer too; whatever it may change in the options is not modelled.
- `removeJobs` belongs to the parent class, which is not part of this model. It is modelled as removing every job whose command contains `' ' . $approot`. This is the install's substring test, but it applies to the jobs of every owner, while the install's test also requires the docroot's owner.
- `get_version` (marked "Not implemented" in the source) and `getModule` (delegates to the parent). Neither is modelled.
- The email template (views/job-installed.blade.php) is not logic and is not modelled.
- The debug `echo` in `__call` is recorded as the line it would print. `parent::__call` and `parent::handle` are the framework's and are not modelled; their answers are inputs.
- ReleaseCatalog.KSort: PHP's `ksort` compares two numeric-string keys as numbers. Version keys such as "8.10.1" are not numeric strings, so the model uses `strcmp` order only.
- WhmcsModule.AppRootOf: `$mixed[0]` on an empty string reads as "" (with a warning). The model treats an empty name as a host name, as that read does.
- WhmcsModule.DbConfig: the error message models `error()`'s formatted text. The framework's logging of it is not modelled.
