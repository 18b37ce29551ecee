/**
 * The installer's per-step checks on validated form data: the admin user
 * step (Install::checkAdminUser) and the system step (Install::checkSystem).
 * Both are chains of rules where the first rule that fails decides the error.
 */
module InstallChecks {

  import opened Wrappers
  import opened Php

  /** The validators the installer calls but does not define; they stay uninterpreted. */
  datatype Validators = Validators(
    validEmail: string -> bool,          // Validate::validateEmail
    validIp: string -> bool,             // Validate::validate_ip2 with the installer's flags
    validDomain: string -> bool,         // Validate::validateDomain
    validLocalHostname: string -> bool,  // Validate::validateLocalHostname
    userExists: string -> bool,          // posix_getpwnam(...) !== false
    groupExists: string -> bool)         // posix_getgrnam(...) !== false

  // ---------------------------------------------------------------------------
  // Admin user
  // ---------------------------------------------------------------------------

  /** The message kinds of checkAdminUser, in the order its rules are tried. */
  datatype AdminError = NameFormat | LoginName | EmailInvalid | PasswordConfirm | PasswordIsLogin

  function AdminRank(k: AdminError): (rank: nat)
  {
    match k
    case NameFormat => 0
    case LoginName => 1
    case EmailInvalid => 2
    case PasswordConfirm => 3
    case PasswordIsLogin => 4
  }

  /** The five admin fields after `??` has filled in the defaults. */
  datatype AdminInput = AdminInput(name: string, login: string, email: string, password: string, confirm: string)

  function AdminInputOf(data: Data): (input: AdminInput)
  {
    AdminInput(
      Coalesce(data, "admin_name", "Administrator"),
      Coalesce(data, "admin_user", ""),
      Coalesce(data, "admin_email", ""),
      Coalesce(data, "admin_pass", ""),
      Coalesce(data, "admin_pass_confirm", ""))
  }

  /** The characters the display name may not contain: \r, \n, \t, \f and \0. */
  predicate IsControl(c: char)
  {
    c == '\r' || c == '\n' || c == '\t' || c == '\U{000C}' || c == '\0'
  }

  /** `/^[^\r\n\t\f\0]*$/D`: with the D modifier `$` only matches at the very end. */
  predicate NameMatches(name: string)
  {
    forall i :: 0 <= i < |name| ==> !IsControl(name[i])
  }

  predicate IsLower(c: char)
  {
    'a' <= c <= 'z'
  }

  predicate IsLowerOrDigit(c: char)
  {
    IsLower(c) || IsDigit(c)
  }

  /** `[a-z][a-z0-9]+` covering the whole string. */
  predicate LoginBody(s: string)
  {
    |s| >= 2 && IsLower(s[0]) && forall i :: 1 <= i < |s| ==> IsLowerOrDigit(s[i])
  }

  /** `/^[a-z][a-z0-9]+$/`: without the D modifier `$` also matches just before a final newline. */
  predicate LoginMatches(s: string)
  {
    LoginBody(s) || (|s| > 0 && s[|s| - 1] == '\n' && LoginBody(s[..|s| - 1]))
  }

  /** The string comparison used by the password rules: loose (`==`) or identical (`===`). */
  predicate SameString(a: string, b: string, strict: bool)
  {
    if strict then a == b else LooseEquals(a, b)
  }

  /** Whether each of checkAdminUser's five rules is satisfied, in the order they are tried. */
  datatype AdminRules = AdminRules(name: bool, login: bool, email: bool, confirm: bool, differs: bool)

  /** Whether the rule that would raise error `k` is satisfied. */
  predicate AdminRuleHolds(k: AdminError, rules: AdminRules)
  {
    match k
    case NameFormat => rules.name
    case LoginName => rules.login
    case EmailInvalid => rules.email
    case PasswordConfirm => rules.confirm
    case PasswordIsLogin => rules.differs
  }

  /** The five rules of checkAdminUser evaluated on the input, each the negation of its `if` condition. */
  function AdminRulesOf(a: AdminInput, validEmail: string -> bool, strict: bool): (rules: AdminRules)
  {
    AdminRules(
      NameMatches(a.name),
      !EmptyString(Trim(a.login)) && LoginMatches(a.login),
      !EmptyString(Trim(a.email)) && validEmail(a.email),
      !EmptyString(a.password) && SameString(a.password, a.confirm, strict),
      EmptyString(a.password) || !SameString(a.password, a.login, strict))
  }

  /** The `if`/`elseif` chain: the first rule that does not hold raises its error. */
  function FirstFailure(rules: AdminRules): (verdict: Outcome<AdminError>)
  {
    if !rules.name then Fail(NameFormat)
    else if !rules.login then Fail(LoginName)
    else if !rules.email then Fail(EmailInvalid)
    else if !rules.confirm then Fail(PasswordConfirm)
    else if !rules.differs then Fail(PasswordIsLogin)
    else Pass
  }

  /**
   * checkAdminUser, with the two password comparisons either loose (as the
   * code writes them) or strict (as intended).
   */
  function AdminUserVerdict(a: AdminInput, validEmail: string -> bool, strict: bool): (verdict: Outcome<AdminError>)
  {
    FirstFailure(AdminRulesOf(a, validEmail, strict))
  }

  /** checkAdminUser as written: `$password != $password_confirm` compares loosely. */
  function CheckAdminUserAsWritten(data: Data, validEmail: string -> bool): (r: Outcome<AdminError>)
    ensures r.Pass? ==> var a := AdminInputOf(data);
      && NameMatches(a.name) && LoginMatches(a.login) && !EmptyString(Trim(a.email)) && validEmail(a.email)
      && !EmptyString(a.password) && LooseEquals(a.password, a.confirm) && a.password != a.login
  {
    var a := AdminInputOf(data);
    var r := AdminUserVerdict(a, validEmail, false);
    if r.Pass? then AcceptedRulesHold(a, validEmail, false); LooselyDifferent(a.password, a.login); r else r
  }

  /** An accepted input satisfies all five rules. */
  lemma AcceptedRulesHold(a: AdminInput, validEmail: string -> bool, strict: bool)
    ensures AdminUserVerdict(a, validEmail, strict) == Pass ==>
      AdminRulesOf(a, validEmail, strict) == AdminRules(true, true, true, true, true)
  {
  }

  /** A password loosely different from a login name that starts with a letter is a different string. */
  lemma LooselyDifferent(password: string, login: string)
    requires |login| > 0 && IsLower(login[0])
    requires !LooseEquals(password, login)
    ensures password != login
  {
    LetterStartNotNumeric(login);
  }

  /** checkAdminUser with the confirmation compared as identical strings; the wizard uses this one. */
  function CheckAdminUser(data: Data, validEmail: string -> bool): (r: Outcome<AdminError>)
    ensures r.Pass? ==> var a := AdminInputOf(data);
      && NameMatches(a.name) && LoginMatches(a.login) && !EmptyString(Trim(a.email)) && validEmail(a.email)
      && !EmptyString(a.password) && a.password == a.confirm && a.password != a.login
  {
    AdminUserVerdict(AdminInputOf(data), validEmail, true)
  }

  /** The first failing rule, in source order, decides the error; all rules holding means success. */
  lemma AdminFirstFailureDecides(rules: AdminRules, k: AdminError)
    ensures FirstFailure(rules) == Fail(k) <==>
      (!AdminRuleHolds(k, rules) && forall j :: AdminRank(j) < AdminRank(k) ==> AdminRuleHolds(j, rules))
    ensures FirstFailure(rules) == Pass <==> forall j :: AdminRuleHolds(j, rules)
  {
    forall j ensures AdminRank(j) < AdminRank(k) <==> (match k
      case NameFormat => false
      case LoginName => j == NameFormat
      case EmailInvalid => j in {NameFormat, LoginName}
      case PasswordConfirm => j in {NameFormat, LoginName, EmailInvalid}
      case PasswordIsLogin => j != PasswordIsLogin)
    {
    }
    forall j ensures AdminRuleHolds(j, rules) == (match j
      case NameFormat => rules.name
      case LoginName => rules.login
      case EmailInvalid => rules.email
      case PasswordConfirm => rules.confirm
      case PasswordIsLogin => rules.differs)
    {
    }
    assert AdminRuleHolds(NameFormat, rules) == rules.name && AdminRuleHolds(LoginName, rules) == rules.login;
    assert AdminRuleHolds(EmailInvalid, rules) == rules.email && AdminRuleHolds(PasswordConfirm, rules) == rules.confirm;
    assert AdminRuleHolds(PasswordIsLogin, rules) == rules.differs;
  }

  /** The display name is rejected exactly when it holds a control character; the default name passes. */
  lemma NameRule(data: Data, validEmail: string -> bool, strict: bool)
    ensures var name := AdminInputOf(data).name;
      AdminUserVerdict(AdminInputOf(data), validEmail, strict) == Fail(NameFormat) <==>
        exists i :: 0 <= i < |name| && IsControl(name[i])
    ensures ("admin_name" !in data || data["admin_name"].Null?) ==>
      AdminUserVerdict(AdminInputOf(data), validEmail, strict) != Fail(NameFormat)
  {
    var a := AdminInputOf(data);
    NameVerdict(a, validEmail, strict);
    if "admin_name" !in data || data["admin_name"].Null? {
      assert a.name == "Administrator";
      DefaultNameMatches();
    }
  }

  lemma NameVerdict(a: AdminInput, validEmail: string -> bool, strict: bool)
    ensures AdminUserVerdict(a, validEmail, strict) == Fail(NameFormat) <==> !NameMatches(a.name)
  {
    assert AdminRulesOf(a, validEmail, strict).name == NameMatches(a.name);
  }

  lemma DefaultNameMatches()
    ensures NameMatches("Administrator")
  {
    var name := "Administrator";
    forall i | 0 <= i < |name| ensures !IsControl(name[i]) {
      assert 'A' <= name[i] <= 'z';
    }
  }

  /** A login name the pattern accepts is never empty after trim(), so the pattern alone decides. */
  lemma LoginTrimGuardRedundant(s: string)
    ensures LoginMatches(s) ==> !EmptyString(Trim(s))
  {
    if LoginMatches(s) {
      assert IsLower(s[0]);
      TrimKeepsFirst(s);
    }
  }

  /** Once the name is accepted, the login name is rejected exactly when the pattern does not match it. */
  lemma LoginRule(a: AdminInput, validEmail: string -> bool, strict: bool)
    requires NameMatches(a.name)
    ensures AdminUserVerdict(a, validEmail, strict) == Fail(LoginName) <==> !LoginMatches(a.login)
  {
    LoginTrimGuardRedundant(a.login);
    assert AdminUserVerdict(a, validEmail, strict) == Fail(LoginName) <==>
      EmptyString(Trim(a.login)) || !LoginMatches(a.login);
  }

  /**
   * An accepted login name, without its optional final newline, is a
   * lower-case letter followed by at least one lower-case letter or digit.
   */
  lemma LoginShape(s: string)
    requires LoginMatches(s)
    ensures var body := if s[|s| - 1] == '\n' then s[..|s| - 1] else s;
      |body| >= 2 && IsLower(body[0]) && forall i :: 1 <= i < |body| ==> IsLowerOrDigit(body[i])
    ensures !EmptyString(Trim(s))
  {
    LoginTrimGuardRedundant(s);
    if s[|s| - 1] == '\n' {
      assert !IsLowerOrDigit(s[|s| - 1]);
      assert !LoginBody(s);
    }
  }

  /** A valid login name followed by one newline is still accepted; followed by two it is not. */
  lemma LoginTrailingNewline(t: string)
    requires LoginBody(t)
    ensures LoginMatches(t + "\n")
    ensures !LoginMatches(t + "\n\n")
    ensures !LoginBody(t + "\n")
  {
    var u := t + "\n";
    assert u[..|u| - 1] == t;
    var v := t + "\n\n";
    assert v[..|v| - 1] == u;
    assert !IsLowerOrDigit(v[|v| - 1]);
    assert !IsLowerOrDigit(u[|u| - 1]);
  }

  /** With either comparison an accepted password is non-empty, confirmed, and differs from the login name. */
  lemma PasswordRules(a: AdminInput, validEmail: string -> bool, strict: bool)
    ensures AdminUserVerdict(a, validEmail, strict) == Pass ==>
      !EmptyString(a.password) && SameString(a.password, a.confirm, strict) && a.password != a.login
    ensures (NameMatches(a.name) && LoginMatches(a.login) && !EmptyString(Trim(a.email)) && validEmail(a.email)) ==>
      (AdminUserVerdict(a, validEmail, strict) == Fail(PasswordConfirm) <==>
         EmptyString(a.password) || !SameString(a.password, a.confirm, strict))
  {
    LoginTrimGuardRedundant(a.login);
    if AdminUserVerdict(a, validEmail, strict) == Pass {
      LetterStartNotNumeric(a.login);
    }
  }

  /** The form data that exposes the loose confirmation check. */
  function LeadingZeroPasswordData(): (data: Data)
  {
    map["admin_user" := Str("admin"), "admin_email" := Str("admin@example.org"),
        "admin_pass" := Str("007"), "admin_pass_confirm" := Str("7")]
  }

  lemma LeadingZeroInput()
    ensures AdminInputOf(LeadingZeroPasswordData()) == AdminInput("Administrator", "admin", "admin@example.org", "007", "7")
  {
    var data := LeadingZeroPasswordData();
    assert "admin_name" !in data;
  }

  /**
   * As written, the password "007" is accepted with the confirmation "7",
   * because two numeric strings compare as numbers; the strict check rejects it.
   */
  lemma LooseConfirmationAccepted(validEmail: string -> bool)
    requires validEmail("admin@example.org")
    ensures var a := AdminInputOf(LeadingZeroPasswordData());
      a.password != a.confirm && CheckAdminUserAsWritten(LeadingZeroPasswordData(), validEmail) == Pass
    ensures CheckAdminUser(LeadingZeroPasswordData(), validEmail) == Fail(PasswordConfirm)
  {
    var a := AdminInput("Administrator", "admin", "admin@example.org", "007", "7");
    LeadingZeroInput();
    DefaultNameMatches();
    assert LoginBody(a.login);
    TrimKeepsFirst(a.email);
    LeadingZerosLooselyEqual();
    LooselyConfirmedPasses(a, validEmail);
  }

  /** Every other rule satisfied, a loosely equal but different confirmation splits the two comparisons. */
  lemma LooselyConfirmedPasses(a: AdminInput, validEmail: string -> bool)
    requires NameMatches(a.name) && LoginBody(a.login)
    requires !EmptyString(Trim(a.email)) && validEmail(a.email)
    requires !EmptyString(a.password) && LooseEquals(a.password, a.confirm) && a.password != a.confirm
    requires a.password != a.login
    ensures AdminUserVerdict(a, validEmail, false) == Pass
    ensures AdminUserVerdict(a, validEmail, true) == Fail(PasswordConfirm)
  {
    LoginTrimGuardRedundant(a.login);
    LetterStartNotNumeric(a.login);
    assert !SameString(a.password, a.login, false);
  }

  // ---------------------------------------------------------------------------
  // System data
  // ---------------------------------------------------------------------------

  /** The message kinds of checkSystem, in the order its rules are tried. */
  datatype SystemError = InvalidIp | InvalidServerName | WebUserMissing | WebGroupMissing

  function SystemRank(k: SystemError): (rank: nat)
  {
    match k
    case InvalidIp => 0
    case InvalidServerName => 1
    case WebUserMissing => 2
    case WebGroupMissing => 3
  }

  /** Whether the rule that would raise error `k` is satisfied by the data. */
  predicate SystemRuleHolds(k: SystemError, data: Data, v: Validators)
  {
    match k
    case InvalidIp => v.validIp(Coalesce(data, "serverip", ""))
    case InvalidServerName =>
      var servername := Coalesce(data, "servername", "");
      v.validDomain(servername) || v.validLocalHostname(servername)
    case WebUserMissing => v.userExists(Coalesce(data, "httpuser", "www-data"))
    case WebGroupMissing => v.groupExists(Coalesce(data, "httpgroup", "www-data"))
  }

  /** checkSystem: IP, then server name, then web server user, then web server group. */
  function CheckSystem(data: Data, v: Validators): (r: Outcome<SystemError>)
    ensures r.Pass? ==> v.validIp(Coalesce(data, "serverip", ""))
    ensures r.Pass? ==> var servername := Coalesce(data, "servername", "");
      v.validDomain(servername) || v.validLocalHostname(servername)
    ensures r.Pass? ==> v.userExists(Coalesce(data, "httpuser", "www-data"))
    ensures r.Pass? ==> v.groupExists(Coalesce(data, "httpgroup", "www-data"))
  {
    var serverip := Coalesce(data, "serverip", "");
    var servername := Coalesce(data, "servername", "");
    var httpuser := Coalesce(data, "httpuser", "www-data");
    var httpgroup := Coalesce(data, "httpgroup", "www-data");
    if !v.validIp(serverip) then Fail(InvalidIp)
    else if !v.validDomain(servername) && !v.validLocalHostname(servername) then Fail(InvalidServerName)
    else if !v.userExists(httpuser) then Fail(WebUserMissing)
    else if !v.groupExists(httpgroup) then Fail(WebGroupMissing)
    else Pass
  }

  /** The first failing rule, in source order, decides the error; all rules holding means success. */
  lemma SystemFirstFailureDecides(data: Data, v: Validators, k: SystemError)
    ensures CheckSystem(data, v) == Fail(k) <==>
      (!SystemRuleHolds(k, data, v) && forall j :: SystemRank(j) < SystemRank(k) ==> SystemRuleHolds(j, data, v))
    ensures CheckSystem(data, v) == Pass <==> forall j :: SystemRuleHolds(j, data, v)
  {
    var h0 := SystemRuleHolds(InvalidIp, data, v);
    var h1 := SystemRuleHolds(InvalidServerName, data, v);
    var h2 := SystemRuleHolds(WebUserMissing, data, v);
    var h3 := SystemRuleHolds(WebGroupMissing, data, v);
    assert CheckSystem(data, v) ==
      if !h0 then Fail(InvalidIp) else if !h1 then Fail(InvalidServerName)
      else if !h2 then Fail(WebUserMissing) else if !h3 then Fail(WebGroupMissing) else Pass;
    assert forall j :: (SystemRuleHolds(j, data, v) ==
      match j
      case InvalidIp => h0
      case InvalidServerName => h1
      case WebUserMissing => h2
      case WebGroupMissing => h3);
  }
}
