# Froxlor installer steps and chroot jail cron, modelled in Dafny

This project models two small pieces of the Froxlor hosting panel.

1. The web installer's form handling (`Froxlor\Install\Install`):
   - the validation of a step's submitted fields (`validateRequest`, `validateAttribute`);
   - the admin user and system checks (`checkAdminUser`, `checkSystem`);
   - the PHP extension preflight (`checkExtensions`);
   - the wizard's step transition (`handleFormData`), together with the step bookkeeping of the constructor.
2. The chroot jail cron job (`Froxlor\Cron\System\ChrootJails`). For every customer with chroot enabled it runs at most one of jail create, remove or update. Each of these is a fixed sequence of shell commands.

PHP semantics the code relies on are written out in module `Php`:
- `empty()` on strings and null;
- `trim()` with its default character list;
- the `??` operator;
- loose `==` / `!=` between two strings, where two numeric strings compare as numbers.

The session array, the `Location` header, `FileDir::safe_exec`, the logger and the database queries do not exist in the model. The installer returns them as values: a `FormEffect` record or an error. The cron class appends them to two logs (`commands`, `log`). Query results are inputs.

Files:
- `php.dfy`: modules `Wrappers` and `Php`.
- `install_request.dfy`: module `InstallRequest`.
- `install_checks.dfy`: module `InstallChecks`.
- `install_preflight.dfy`: module `InstallPreflight`.
- `install_wizard.dfy`: module `InstallWizard`.
- `chroot_jails.dfy`: module `ChrootJails`.

## Model

| member | source | states |
|---|---|---|
| `Php.LeadingZerosLooselyEqual` | lib/Froxlor/Install/Install.php:279 | loose string comparison treats the different strings "007" and "7" as equal |
| `InstallRequest.ValidateAttribute` | lib/Froxlor/Install/Install.php:232-239 | fails exactly when the field is mandatory and the value is empty (null, "" or "0"); otherwise it returns the value unchanged |
| `InstallRequest.ValidateRequest` | lib/Froxlor/Install/Install.php:216-226 | succeeds exactly when no mandatory field at any depth of `next_to` is empty. The result's keys are exactly the field names of the whole tree, and each maps to its unchanged request value, so later merges never change a value |
| `InstallRequest.NamesCover` | lib/Froxlor/Install/Install.php:219-223 | every field's name, and every name nested beside it, is among the collected names |
| `InstallRequest.MandatoryFieldBlocks` | lib/Froxlor/Install/Install.php:219-223 | a mandatory empty field, or a failing nested list, makes the whole list fail |
| `InstallChecks.CheckAdminUserAsWritten` | lib/Froxlor/Install/Install.php:265-284 | when accepted: the name has no control character; the login name matches the pattern; the email is non-blank after `trim()` and valid; the password is non-empty, loosely equal to its confirmation and different from the login name |
| `InstallChecks.CheckAdminUser` | lib/Froxlor/Install/Install.php:265-284 | the corrected check: the same guarantees, except that the password is identical to its confirmation |
| `InstallChecks.AdminFirstFailureDecides` | lib/Froxlor/Install/Install.php:273-283 | in the `if`/`elseif` chain the admin check is built on, the error is the first rule that fails, in source order (name, login, email, confirmation, password differs from login). All five rules holding is exactly success |
| `InstallChecks.NameRule` | lib/Froxlor/Install/Install.php:273-274 | the name is rejected iff it contains one of \r \n \t \f \0; a missing name defaults to "Administrator" and passes |
| `InstallChecks.LoginRule` | lib/Froxlor/Install/Install.php:275-276 | once the name passes, the login name is rejected iff the pattern `^[a-z][a-z0-9]+$` does not match it |
| `InstallChecks.LoginTrimGuardRedundant` | lib/Froxlor/Install/Install.php:275 | a login name the pattern matches is never empty after `trim()`, so the emptiness test adds nothing |
| `InstallChecks.LoginShape` | lib/Froxlor/Install/Install.php:275 | an accepted login name, without its optional final newline, is a lower-case letter followed by at least one lower-case letter or digit, and it is non-blank after `trim()` |
| `InstallChecks.LoginTrailingNewline` | lib/Froxlor/Install/Install.php:275 | without the D modifier a valid login name with one trailing newline is accepted; with two trailing newlines it is not |
| `InstallChecks.PasswordRules` | lib/Froxlor/Install/Install.php:279-282 | an accepted password is non-empty, matches its confirmation under the comparison used, and differs from the login name. Once the earlier rules pass, the confirmation error occurs iff the password is empty or does not match |
| `InstallChecks.LooselyConfirmedPasses` | lib/Froxlor/Install/Install.php:279-282 | a confirmation that is loosely equal to the password but not identical passes the as-written check and fails the corrected one |
| `InstallChecks.LooseConfirmationAccepted` | lib/Froxlor/Install/Install.php:279 | as written, password "007" with confirmation "7" is accepted; the corrected check rejects it |
| `InstallChecks.CheckSystem` | lib/Froxlor/Install/Install.php:244-260 | when accepted: the server IP is valid; the server name is a valid domain or local host name; the web server user and group exist (defaults `''` and `www-data`) |
| `InstallChecks.SystemFirstFailureDecides` | lib/Froxlor/Install/Install.php:251-259 | the error is the first failing rule in order IP, server name (domain or local host name), user, group; all holding is exactly success |
| `InstallPreflight.MissingMembers` | lib/Froxlor/Install/Install.php:177-190 | an extension is reported missing iff it is wanted and not loaded |
| `InstallPreflight.MissingInOrder` | lib/Froxlor/Install/Install.php:177-190 | the missing extensions appear in declaration order (a subsequence of the wanted list) |
| `InstallPreflight.NothingMissingWhenAllLoaded` | lib/Froxlor/Install/Install.php:177-190 | with every wanted extension loaded nothing is reported |
| `InstallPreflight.AppendMissing` | lib/Froxlor/Install/Install.php:181 | appending under "missing_extensions" keeps earlier entries as a prefix and leaves every other key alone. The key is created only when something is appended |
| `InstallPreflight.Install.constructor` | lib/Froxlor/Install/Install.php:42-45 | the required list (session … json) and the suggested list (bcmath, zip) are fixed; the reports start empty |
| `InstallPreflight.Install.CheckExtensions` | lib/Froxlor/Install/Install.php:174-197 | criticals and suggestions each get exactly the missing required or suggested extensions appended, and nothing else changes |
| `InstallWizard.Open` | lib/Froxlor/Install/Install.php:77-92 | maxSteps is the number of sections; at step 0 the stored session is dropped, otherwise kept |
| `InstallWizard.StepCheck` | lib/Froxlor/Install/Install.php:139-149 | step 1 runs the database probe, step 2 the admin user check, step 3 the system check, and every other step passes. The admin step uses the loose comparison of the code when `strict` is false and the corrected check when it is true |
| `InstallWizard.AdminStepAcceptsLooseConfirmation` | lib/Froxlor/Install/Install.php:143-151 | at the admin step, the code as written passes password "007" with confirmation "7" on to be stored; the corrected comparison rejects it |
| `InstallWizard.Effect` | lib/Froxlor/Install/Install.php:137-168 | the data is merged into the session (new values win, other keys kept) only when the step is at most maxSteps. Install runs iff the step is maxSteps-1, with the merged session. The redirect is home iff the step is maxSteps, otherwise the next step |
| `InstallWizard.HandleFormData` | lib/Froxlor/Install/Install.php:131-169 | a missing section, an empty mandatory field, or a failing step check (run only when step ≤ maxSteps) gives an error and no effect. Otherwise the effect is `Effect` of the validated data. With `strict` false this is the code as written |
| `InstallWizard.WalkFrom` | lib/Froxlor/Install/Install.php:151-168 | submitting every remaining step in order, following the redirects, installs once unless it starts at the last step, and ends with every step's data stored |
| `InstallWizard.CompletingWizardInstallsOnce` | lib/Froxlor/Install/Install.php:151-168 | going through the whole wizard from step 1 installs exactly once, with the data of every step but the last |
| `ChrootJails.GetChrootDirectory` | lib/Froxlor/Cron/System/ChrootJails.php:72-75 | the jail path is `/var/jails/` followed by exactly the user name |
| `ChrootJails.ChrootDirectoryInjective` | lib/Froxlor/Cron/System/ChrootJails.php:72-75 | distinct user names get distinct jail paths |
| `ChrootJails.CommandsNameTheirJail` | lib/Froxlor/Cron/System/ChrootJails.php:54-64 | the create, unmount and remove commands each contain the folder they were given; the unmount names `<folder>/home/<user>` |
| `ChrootJails.DeleteAndUpdateOrder` | lib/Froxlor/Cron/System/ChrootJails.php:59-70 | delete is an `umount` then a `sudo rm -r`; update is delete's two commands followed by the create command |
| `ChrootJails.Cron.JailCreate` | lib/Froxlor/Cron/System/ChrootJails.php:54-57 | appends exactly `sudo bash ./JailBin/make_jail.sh <folder> <user>` |
| `ChrootJails.Cron.JailDelete` | lib/Froxlor/Cron/System/ChrootJails.php:59-64 | appends exactly `umount <folder>/home/<user>` and then `sudo rm -r <folder>` |
| `ChrootJails.Cron.JailUpdate` | lib/Froxlor/Cron/System/ChrootJails.php:66-70 | appends delete's commands and then create's, with no check between them |
| `ChrootJails.CustomerDispatch` | lib/Froxlor/Cron/System/ChrootJails.php:42-51 | at most one action runs, with priority create > remove > update, and none without a flag. There are at most three commands, each on `/var/jails/<login>`. A failed query runs nothing |
| `ChrootJails.Cron.RunCustomer` | lib/Froxlor/Cron/System/ChrootJails.php:27-52 | a failed customer query only logs the error with its message; otherwise the dispatched commands are appended |
| `ChrootJails.Cron.Run` | lib/Froxlor/Cron/System/ChrootJails.php:11-25 | logs the start. A failed id query logs an error and issues no command. Otherwise every row's customer commands and log lines are appended in row order |
| `ChrootJails.RunCommandsAppend` | lib/Froxlor/Cron/System/ChrootJails.php:22-24 | a run's commands split at any boundary between customers |
| `ChrootJails.FailedCustomerIsolated` | lib/Froxlor/Cron/System/ChrootJails.php:22-38 | a customer whose query fails contributes nothing; the customers before and after it still run |
| `ChrootJails.NoFlagsNoCommands` | lib/Froxlor/Cron/System/ChrootJails.php:29-51 | when no row carries a jail flag (the customer query does not select them), a run issues no command |

## Findings

| source | as written | input that shows it | evidently intended | confidence | as-written member | corrected member |
|---|---|---|---|---|---|---|
| lib/Froxlor/Install/Install.php:279 | `$password != $password_confirm` is PHP's loose comparison, and two numeric strings compare as numbers | admin_pass "007", admin_pass_confirm "7" (the other admin fields valid): accepted | the confirmation must be the identical string (`!==`) | medium, not executed | `InstallChecks.LooseConfirmationAccepted` | `InstallChecks.CheckAdminUser` |

`InstallWizard.StepCheck` and `InstallWizard.HandleFormData` take a `strict` flag. With `strict` false the wizard runs `CheckAdminUserAsWritten`, as the code does, and `InstallWizard.AdminStepAcceptsLooseConfirmation` shows it accepting the input above. With `strict` true it runs the corrected `CheckAdminUser`.

## Left out

- `checkDatabase` (PDO connection, `CREATE`/`DROP` probes): it is database I/O. Its verdict is the parameter `Environment.databaseOk`.
- `Validate::validateEmail`, `Validate::validate_ip2`, `Validate::validateDomain`, `Validate::validateLocalHostname`, `posix_getpwnam` and `posix_getgrnam` are library calls. They are uninterpreted predicates in `Validators`.
- `handle`: template rendering, the `submit`/non-zero-step guard before `handleFormData`, and showing the caught exception message.
- The constructor's distribution list (glob, `ConfigParser`), loading the formfield file, twig globals and `phpversion()`: filesystem and framework I/O. The sections are an input to `Open` and `HandleFormData`.
- `getInformationText`: it depends on `version_compare` against the running PHP. The text it returns and the entry it adds to the criticals are not modelled.
- `guessWebserver`, `guessDistribution`: they read `$_SERVER`, `php_sapi_name()` and `/etc/os-release`.
- `Core::doInstall`: only the data it is given is modelled (`FormEffect.install`), not what it does.
- `Core::doInstall` failing is not modelled. In the code the session is already merged when it throws, and no redirect follows. The model cannot produce that outcome: an install effect always comes with a redirect.
- `Php.LooseEquals`: recognises integer numeric strings only: an optional sign, digits, and a value in the 64-bit range. PHP also treats leading or trailing whitespace, fractions, exponents and out-of-range integers as numeric. For those the model compares bytes, so the as-written check accepts fewer passwords than PHP does.
- The current step is taken as an integer, and request values as strings or null. Array-valued request parameters are not modelled.
- A step with no section makes PHP pass null to `validateRequest`. That raises a `TypeError`, which `handle` does not catch. The model returns `NoSuchStep`.
- Field names are string keys. PHP turns integer-like names into integer keys, and `array_merge` renumbers those; that case is not modelled.
- `isset($field['next_to'])` is modelled as a non-empty `nextTo` list. An explicitly empty `next_to` gives the same result.
- In the cron job, `FileDir::safe_exec`, `Database::*` and `FroxlorLogger` become the `commands` log, inputs and the `log` log. The commands are not executed, and their exit status is not read, as in the code.
- The cron's PHP type errors are not modelled: rows from `fetchAll` passed as `int`, and array access on a `fetchObject` object. A `fetchObject` without a row is not modelled either. Inputs are already-typed `CustomerInfo` values.
- The SQL text of the customer query (ChrootJails.php:29) is not interpreted. Its `password?` column would likely make every `pexecute` throw; the model covers that run through `QueryFailed` but does not force it.
- The login name is put into the shell commands without validation or quoting. The model keeps the strings exactly as built and adds no sanitising.
- A desired-versus-actual reconciler with configuration fingerprints, filesystem probing, unmount ordering by depth, rollback on failure, timeouts and locking is not in the code. The code's decision is an unfinished TODO (ChrootJails.php:44). The model follows the code.
