/** The ACME orchestrator's parameter derivation and outcome classification
    (mcp-acme/orchestrator.py): which directory URL and key length an issue
    or renew runs with, the acme.sh command lines it builds, how the CLI's
    output is classified, the HTTP-01 token map handed to the BIG-IP, and
    the BIG-IP object names a deployment uses. The CLI runs themselves, the
    filesystem and the stores are outside the model: their results are
    parameters. */
module Acme {
  import opened Wrappers
  import opened Text
  import RetryAfter
  import BigIp

  // ------------------------------------------------------------------
  // Providers and key types
  // ------------------------------------------------------------------

  /** The placeholder the provider table uses for CAs without a fixed URL. */
  const Custom := "custom"
  const LetsEncrypt := "lets-encrypt"
  const LetsEncryptUrl := "https://acme-v02.api.letsencrypt.org/directory"
  const GoogleUrl := "https://dv.acme-v02.api.pki.goog/directory"
  const ZeroSslUrl := "https://acme.zerossl.com/v2/DV90"

  /** The provider table (`PROVIDERS`). */
  const Providers: map<string, string> := map[
    LetsEncrypt := LetsEncryptUrl,
    "google" := GoogleUrl,
    "zerossl" := ZeroSslUrl,
    "sectigo" := Custom,
    "digicert" := Custom]

  /** `PROVIDERS.get(provider, "custom")`. */
  function ProviderDirectory(provider: string): string {
    if provider in Providers then Providers[provider] else Custom
  }

  /** The three providers with a built-in URL; every other name resolves to
      the placeholder. */
  lemma ProviderTable(provider: string)
    ensures ProviderDirectory(LetsEncrypt) == LetsEncryptUrl
    ensures ProviderDirectory("google") == GoogleUrl
    ensures ProviderDirectory("zerossl") == ZeroSslUrl
    ensures provider != LetsEncrypt && provider != "google" && provider != "zerossl"
            ==> ProviderDirectory(provider) == Custom
  {
  }

  /** The key-type table of `request_certificate`. */
  const KeyLengths: map<string, string> := map[
    "EC256" := "ec-256", "EC384" := "ec-384",
    "RSA2048" := "2048", "RSA3072" := "3072", "RSA4096" := "4096"]

  /** `key_type_map.get(key_type, "ec-256")`. */
  function KeyLength(keyType: string): string {
    if keyType in KeyLengths then KeyLengths[keyType] else "ec-256"
  }

  lemma KeyLengthTable(keyType: string)
    ensures KeyLength("EC256") == "ec-256" && KeyLength("EC384") == "ec-384"
    ensures KeyLength("RSA2048") == "2048" && KeyLength("RSA3072") == "3072"
    ensures KeyLength("RSA4096") == "4096"
    ensures keyType !in {"EC256", "EC384", "RSA2048", "RSA3072", "RSA4096"}
            ==> KeyLength(keyType) == "ec-256"
  {
  }

  // ------------------------------------------------------------------
  // The acme.sh command line
  // ------------------------------------------------------------------

  const AcmeSh := "/usr/local/bin/acme.sh"

  /** The orchestrator's settings: `ACME_HOME`, `ACME_DEBUG` and the key
      type used when a request names none. */
  datatype Config = Config(home: string, debug: string, defaultKeyType: string)

  /** `str(acme_debug).lower() in ("1", "true", "yes")`. */
  predicate DebugOn(debug: string) {
    Lower(debug) in {"1", "true", "yes"}
  }

  /** `expected` appears in `argv` starting at position `k`. */
  predicate ArgsAt(argv: seq<string>, k: int, expected: seq<string>) {
    0 <= k && k + |expected| <= |argv|
    && forall m :: 0 <= m < |expected| ==> argv[k + m] == expected[m]
  }

  lemma ArgsAtShift(a: seq<string>, b: seq<string>, k: int, expected: seq<string>)
    requires ArgsAt(b, k, expected)
    ensures ArgsAt(a + b, |a| + k, expected)
  {
    forall m | 0 <= m < |expected|
      ensures (a + b)[|a| + k + m] == expected[m]
    {
      assert b[k + m] == expected[m];
    }
  }

  lemma ArgsAtExtend(a: seq<string>, b: seq<string>, k: int, expected: seq<string>)
    requires ArgsAt(a, k, expected)
    ensures ArgsAt(a + b, k, expected)
  {
    forall m | 0 <= m < |expected|
      ensures (a + b)[k + m] == expected[m]
    {
      assert a[k + m] == expected[m];
    }
  }

  lemma ArgsAtWithin(outer: seq<string>, inner: seq<string>, k: int, j: int, expected: seq<string>)
    requires ArgsAt(outer, k, inner) && ArgsAt(inner, j, expected)
    ensures ArgsAt(outer, k + j, expected)
  {
    forall m | 0 <= m < |expected|
      ensures outer[k + j + m] == expected[m]
    {
      assert inner[j + m] == expected[m];
      assert outer[k + (j + m)] == inner[j + m];
    }
  }

  /** A sequence appears at the start of any extension of itself. */
  lemma ArgsAtStart(a: seq<string>, b: seq<string>)
    ensures ArgsAt(a + b, 0, a)
  {
  }

  /** `_acme(*args)`: the CLI with its home, the arguments, and the debug
      flag at the end when debugging is on. */
  function AcmeArgv(cfg: Config, args: seq<string>): (argv: seq<string>)
    ensures |argv| == 3 + |args| + (if DebugOn(cfg.debug) then 2 else 0)
    ensures ArgsAt(argv, 0, [AcmeSh, "--home", cfg.home])
    ensures ArgsAt(argv, 3, args)
    ensures DebugOn(cfg.debug) ==> ArgsAt(argv, 3 + |args|, ["--debug", "2"])
  {
    [AcmeSh, "--home", cfg.home] + args + (if DebugOn(cfg.debug) then ["--debug", "2"] else [])
  }

  /** The `-d <domain> -w <webroot>` pairs, one per domain, in order. */
  function DomainArgs(domains: seq<string>, webroot: string): seq<string> {
    if domains == [] then []
    else DomainArgs(domains[..|domains| - 1], webroot) + ["-d", domains[|domains| - 1], "-w", webroot]
  }

  /** The `--accountemail <email>` pairs, one per address, in order. */
  function EmailArgs(emails: seq<string>): seq<string> {
    if emails == [] then []
    else EmailArgs(emails[..|emails| - 1]) + ["--accountemail", emails[|emails| - 1]]
  }

  predicate DomainPairAt(argv: seq<string>, k: int, domain: string, webroot: string) {
    ArgsAt(argv, k, ["-d", domain, "-w", webroot])
  }

  predicate EmailPairAt(argv: seq<string>, k: int, email: string) {
    ArgsAt(argv, k, ["--accountemail", email])
  }

  lemma {:induction false} DomainArgsAt(domains: seq<string>, webroot: string)
    ensures |DomainArgs(domains, webroot)| == 4 * |domains|
    ensures forall i :: 0 <= i < |domains| ==> DomainPairAt(DomainArgs(domains, webroot), 4 * i, domains[i], webroot)
  {
    if domains != [] {
      var init := domains[..|domains| - 1];
      DomainArgsAt(init, webroot);
      forall i | 0 <= i < |init|
        ensures DomainPairAt(DomainArgs(domains, webroot), 4 * i, domains[i], webroot)
      {
        assert DomainPairAt(DomainArgs(init, webroot), 4 * i, init[i], webroot);
      }
    }
  }

  lemma {:induction false} EmailArgsAt(emails: seq<string>)
    ensures |EmailArgs(emails)| == 2 * |emails|
    ensures forall j :: 0 <= j < |emails| ==> EmailPairAt(EmailArgs(emails), 2 * j, emails[j])
  {
    if emails != [] {
      var init := emails[..|emails| - 1];
      EmailArgsAt(init);
      forall j | 0 <= j < |init|
        ensures EmailPairAt(EmailArgs(emails), 2 * j, emails[j])
      {
        assert EmailPairAt(EmailArgs(init), 2 * j, init[j]);
      }
    }
  }

  /** `cmd += ["-d", d, "-w", webroot]` for each domain. */
  method AppendDomainArgs(argv: seq<string>, domains: seq<string>, webroot: string)
    returns (cmd: seq<string>)
    ensures cmd == argv + DomainArgs(domains, webroot)
  {
    cmd := argv;
    var i := 0;
    while i < |domains|
      invariant 0 <= i <= |domains|
      invariant cmd == argv + DomainArgs(domains[..i], webroot)
    {
      assert domains[..i + 1][..i] == domains[..i];
      cmd := cmd + ["-d", domains[i], "-w", webroot];
      i := i + 1;
    }
    assert domains[..i] == domains;
  }

  /** `cmd += ["--accountemail", email]` for each address. */
  method AppendEmailArgs(argv: seq<string>, emails: seq<string>) returns (cmd: seq<string>)
    ensures cmd == argv + EmailArgs(emails)
  {
    cmd := argv;
    var i := 0;
    while i < |emails|
      invariant 0 <= i <= |emails|
      invariant cmd == argv + EmailArgs(emails[..i])
    {
      assert emails[..i + 1][..i] == emails[..i];
      cmd := cmd + ["--accountemail", emails[i]];
      i := i + 1;
    }
    assert emails[..i] == emails;
  }

  // ------------------------------------------------------------------
  // Issue
  // ------------------------------------------------------------------

  /** The request fields `request_certificate` reads. A missing or empty
      value is `""` (every use tests truthiness); `provider` is the value
      after its `"lets-encrypt"` default is applied. */
  datatype IssueParams = IssueParams(
    domains: seq<string>,
    provider: string,
    directoryUrl: string,
    keyType: string,
    eabSecret: string,
    contactEmails: seq<string>,
    keySecretPath: string)

  /** The `kid` and `hmac_key` read from the EAB secret; `""` when the
      secret or the field is missing. */
  datatype Eab = Eab(kid: string, hmacKey: string)

  datatype RequestError =
    | NoDomains              // "At least one domain is required"
    | CustomNeedsDirectory   // "Custom provider requires directory_url"
    | NoKeySecretPath        // "key_secret_path (Vault KV v2) is required"
    | EabIncomplete          // "EAB secret missing kid/hmac_key fields"
    | UnknownCert            // "Unknown cert_id"

  /** Directory resolution on issue: an explicit URL wins, otherwise the
      provider table, and the placeholder without an explicit URL is an
      error. */
  function IssueDirectory(directoryUrl: string, provider: string): Result<string, RequestError> {
    var directory := if directoryUrl != "" then directoryUrl else ProviderDirectory(provider);
    if directory == Custom && directoryUrl == "" then Failure(CustomNeedsDirectory)
    else Success(if directory != Custom then directory else directoryUrl)
  }

  lemma IssueDirectoryResolves(directoryUrl: string, provider: string)
    ensures IssueDirectory(directoryUrl, provider).Failure?
            <==> directoryUrl == "" && ProviderDirectory(provider) == Custom
    ensures directoryUrl != "" ==> IssueDirectory(directoryUrl, provider) == Success(directoryUrl)
    ensures directoryUrl == "" && ProviderDirectory(provider) != Custom
            ==> IssueDirectory(directoryUrl, provider) == Success(ProviderDirectory(provider))
  {
  }

  /** What an issue runs with once its parameters are accepted. */
  datatype IssueSettings = IssueSettings(directory: string, keyLength: string)

  /** The checks `request_certificate` makes before it creates the work
      directory, in the order it makes them. */
  function PrecheckIssue(p: IssueParams, defaultKeyType: string): Result<IssueSettings, RequestError> {
    if p.domains == [] then Failure(NoDomains)
    else
      match IssueDirectory(p.directoryUrl, p.provider)
      case Failure(e) => Failure(e)
      case Success(directory) =>
        if p.keySecretPath == "" then Failure(NoKeySecretPath)
        else
          var keyType := if p.keyType != "" then p.keyType else defaultKeyType;
          Success(IssueSettings(directory, KeyLength(keyType)))
  }

  /** The error checks come in source order: no domains first, then the
      directory, then the key secret path. */
  lemma PrecheckOrder(p: IssueParams, defaultKeyType: string)
    ensures p.domains == [] ==> PrecheckIssue(p, defaultKeyType) == Failure(NoDomains)
    ensures p.domains != [] && IssueDirectory(p.directoryUrl, p.provider).Failure?
            ==> PrecheckIssue(p, defaultKeyType) == Failure(CustomNeedsDirectory)
    ensures p.domains != [] && IssueDirectory(p.directoryUrl, p.provider).Success? && p.keySecretPath == ""
            ==> PrecheckIssue(p, defaultKeyType) == Failure(NoKeySecretPath)
    ensures PrecheckIssue(p, defaultKeyType).Success? <==>
            p.domains != [] && IssueDirectory(p.directoryUrl, p.provider).Success? && p.keySecretPath != ""
  {
  }

  /** The work directory `/work/<cert_id>` and its webroot. */
  function WorkDir(certId: string): string { "/work/" + certId }

  function IssueWebroot(certId: string): string { WorkDir(certId) + "/webroot" }

  function EabArgs(eab: Eab): seq<string> {
    ["--eab-kid", eab.kid, "--eab-hmac-key", eab.hmacKey]
  }

  /** `not (kid and hmk)`. */
  predicate EabMissing(eab: Eab) {
    eab.kid == "" || eab.hmacKey == ""
  }

  /** The issue command. With `force` it is the retry made after acme.sh
      reports the certificate as already current (`--force` follows the
      base arguments). */
  function IssueCommand(cfg: Config, p: IssueParams, certId: string, eab: Eab, force: bool)
    : (r: Result<seq<string>, RequestError>)
    ensures PrecheckIssue(p, cfg.defaultKeyType).Failure? ==> r == Failure(PrecheckIssue(p, cfg.defaultKeyType).error)
    ensures PrecheckIssue(p, cfg.defaultKeyType).Success? && p.eabSecret != "" && EabMissing(eab) ==> r == Failure(EabIncomplete)
    ensures r.Success? <==> PrecheckIssue(p, cfg.defaultKeyType).Success? && !(p.eabSecret != "" && EabMissing(eab))
  {
    match PrecheckIssue(p, cfg.defaultKeyType)
    case Failure(e) => Failure(e)
    case Success(s) =>
      if p.eabSecret != "" && EabMissing(eab) then Failure(EabIncomplete)
      else Success(IssueArgv(cfg, s, p, certId, eab, force))
  }

  /** The issue command once the parameter checks have passed. */
  function IssueArgv(cfg: Config, s: IssueSettings, p: IssueParams, certId: string, eab: Eab, force: bool)
    : seq<string>
  {
    var base := ["--issue", "--server", s.directory, "--keylength", s.keyLength]
      + (if force then ["--force"] else []);
    Command(AcmeArgv(cfg, base), p.domains, IssueWebroot(certId), p.contactEmails,
            if p.eabSecret != "" then EabArgs(eab) else [])
  }

  /** A command built as a head, the domain pairs, the e-mail pairs and a
      tail. */
  function Command(head: seq<string>, domains: seq<string>, webroot: string,
                   emails: seq<string>, tail: seq<string>): seq<string>
  {
    head + DomainArgs(domains, webroot) + EmailArgs(emails) + tail
  }

  /** `request_certificate` up to the command it runs: returns the command,
      or the error it raises, and whether the work directory was created
      (it is, exactly when the parameter checks pass, even if the EAB
      check fails afterwards). */
  method BuildIssueCommand(cfg: Config, p: IssueParams, certId: string, eab: Eab, force: bool)
    returns (r: Result<seq<string>, RequestError>, madeWorkDir: bool)
    ensures r == IssueCommand(cfg, p, certId, eab, force)
    ensures madeWorkDir <==> PrecheckIssue(p, cfg.defaultKeyType).Success?
  {
    var pre := PrecheckIssue(p, cfg.defaultKeyType);
    if pre.Failure? {
      return Failure(pre.error), false;
    }
    madeWorkDir := true;
    var s := pre.value;
    var webroot := IssueWebroot(certId);
    var base := ["--issue", "--server", s.directory, "--keylength", s.keyLength]
      + (if force then ["--force"] else []);
    var cmd := AcmeArgv(cfg, base);
    cmd := AppendDomainArgs(cmd, p.domains, webroot);
    cmd := AppendEmailArgs(cmd, p.contactEmails);
    var eabArgs := [];
    if p.eabSecret != "" {
      if EabMissing(eab) {
        return Failure(EabIncomplete), true;
      }
      eabArgs := EabArgs(eab);
    }
    r := Success(cmd + eabArgs);
  }

  lemma SliceAfter(a: seq<string>, b: seq<string>, i: int, j: int)
    requires 0 <= i <= j <= |b|
    ensures (a + b)[|a| + i..|a| + j] == b[i..j]
  {
  }

  /** Where the pieces of a command built as head, domain pairs, e-mail
      pairs and tail sit: first the domain pairs, */
  lemma DomainPairsLayout(head: seq<string>, domains: seq<string>, webroot: string,
                          emails: seq<string>, tail: seq<string>, h: nat)
    requires h == |head|
    ensures var argv := head + DomainArgs(domains, webroot) + EmailArgs(emails) + tail;
            forall i :: 0 <= i < |domains| ==> DomainPairAt(argv, h + 4 * i, domains[i], webroot)
  {
    var ds := DomainArgs(domains, webroot);
    var es := EmailArgs(emails);
    DomainArgsAt(domains, webroot);
    forall i | 0 <= i < |domains|
      ensures DomainPairAt(head + ds + es + tail, |head| + 4 * i, domains[i], webroot)
    {
      ArgsAtShift(head, ds, 4 * i, ["-d", domains[i], "-w", webroot]);
      ArgsAtExtend(head + ds, es, |head| + 4 * i, ["-d", domains[i], "-w", webroot]);
      ArgsAtExtend(head + ds + es, tail, |head| + 4 * i, ["-d", domains[i], "-w", webroot]);
    }
  }

  /** then the e-mail pairs, */
  lemma EmailPairsLayout(head: seq<string>, domains: seq<string>, webroot: string,
                         emails: seq<string>, tail: seq<string>, e: nat)
    requires e == |head| + 4 * |domains|
    ensures var argv := head + DomainArgs(domains, webroot) + EmailArgs(emails) + tail;
            forall j :: 0 <= j < |emails| ==> EmailPairAt(argv, e + 2 * j, emails[j])
  {
    var ds := DomainArgs(domains, webroot);
    var es := EmailArgs(emails);
    DomainArgsAt(domains, webroot);
    EmailArgsAt(emails);
    assert |head| + |ds| == e;
    forall j | 0 <= j < |emails|
      ensures EmailPairAt(head + ds + es + tail, e + 2 * j, emails[j])
    {
      ArgsAtShift(head + ds, es, 2 * j, ["--accountemail", emails[j]]);
      ArgsAtExtend(head + ds + es, tail, |head| + |ds| + 2 * j, ["--accountemail", emails[j]]);
    }
  }

  /** and the head and tail at the two ends. */
  lemma EndsLayout(head: seq<string>, domains: seq<string>, webroot: string,
                   emails: seq<string>, tail: seq<string>)
    ensures var argv := head + DomainArgs(domains, webroot) + EmailArgs(emails) + tail;
            && |argv| == |head| + 4 * |domains| + 2 * |emails| + |tail|
            && ArgsAt(argv, 0, head)
            && ArgsAt(argv, |argv| - |tail|, tail)
  {
    var ds := DomainArgs(domains, webroot);
    var es := EmailArgs(emails);
    DomainArgsAt(domains, webroot);
    EmailArgsAt(emails);
    ArgsAtStart(head, ds);
    ArgsAtExtend(head + ds, es, 0, head);
    ArgsAtExtend(head + ds + es, tail, 0, head);
    assert ArgsAt(tail, 0, tail);
    ArgsAtShift(head + ds + es, tail, 0, tail);
  }

  /** All of the layout at once, for a head of length `h` and a tail of
      length `t`. */
  lemma CommandLayout(head: seq<string>, domains: seq<string>, webroot: string,
                      emails: seq<string>, tail: seq<string>, h: nat, t: nat)
    requires |head| == h && |tail| == t
    ensures var argv := Command(head, domains, webroot, emails, tail);
            var e := h + 4 * |domains|;
            && |argv| == e + 2 * |emails| + t
            && (forall i :: 0 <= i < |domains| ==> DomainPairAt(argv, h + 4 * i, domains[i], webroot))
            && (forall j :: 0 <= j < |emails| ==> EmailPairAt(argv, e + 2 * j, emails[j]))
            && ArgsAt(argv, |argv| - t, tail)
  {
    DomainPairsLayout(head, domains, webroot, emails, tail, h);
    EmailPairsLayout(head, domains, webroot, emails, tail, h + 4 * |domains|);
    EndsLayout(head, domains, webroot, emails, tail);
  }

  /** The issue command's base: the CLI, its home, `--issue --server <dir>
      --keylength <len>`, then `--force` on the retry, then `--debug 2`
      when debugging. */
  lemma IssueCommandHead(cfg: Config, p: IssueParams, certId: string, eab: Eab, force: bool)
    requires IssueCommand(cfg, p, certId, eab, force).Success?
    ensures var argv := IssueCommand(cfg, p, certId, eab, force).value;
            var s := PrecheckIssue(p, cfg.defaultKeyType).value;
            var h := 8 + (if force then 1 else 0) + (if DebugOn(cfg.debug) then 2 else 0);
            && ArgsAt(argv, 0, [AcmeSh, "--home", cfg.home])
            && ArgsAt(argv, 3, ["--issue", "--server", s.directory, "--keylength", s.keyLength])
            && (force ==> ArgsAt(argv, 8, ["--force"]))
            && (DebugOn(cfg.debug) ==> ArgsAt(argv, h - 2, ["--debug", "2"]))
  {
    IssueArgvHead(cfg, PrecheckIssue(p, cfg.defaultKeyType).value, p, certId, eab, force);
  }

  lemma IssueArgvHead(cfg: Config, s: IssueSettings, p: IssueParams, certId: string, eab: Eab, force: bool)
    ensures var argv := IssueArgv(cfg, s, p, certId, eab, force);
            var h := 8 + (if force then 1 else 0) + (if DebugOn(cfg.debug) then 2 else 0);
            && ArgsAt(argv, 0, [AcmeSh, "--home", cfg.home])
            && ArgsAt(argv, 3, ["--issue", "--server", s.directory, "--keylength", s.keyLength])
            && (force ==> ArgsAt(argv, 8, ["--force"]))
            && (DebugOn(cfg.debug) ==> ArgsAt(argv, h - 2, ["--debug", "2"]))
  {
    var five := ["--issue", "--server", s.directory, "--keylength", s.keyLength];
    var forced := if force then ["--force"] else [];
    var base := five + forced;
    var head := AcmeArgv(cfg, base);
    var w := IssueWebroot(certId);
    var tail := if p.eabSecret != "" then EabArgs(eab) else [];
    EndsLayout(head, p.domains, w, p.contactEmails, tail);
    var argv := head + DomainArgs(p.domains, w) + EmailArgs(p.contactEmails) + tail;
    assert argv == IssueArgv(cfg, s, p, certId, eab, force);
    ArgsAtWithin(argv, head, 0, 0, [AcmeSh, "--home", cfg.home]);
    ArgsAtStart(five, forced);
    ArgsAtWithin(head, base, 3, 0, five);
    ArgsAtWithin(argv, head, 0, 3, five);
    if force {
      assert ArgsAt(forced, 0, forced);
      ArgsAtShift(five, forced, 0, forced);
      ArgsAtWithin(head, base, 3, 5, forced);
      ArgsAtWithin(argv, head, 0, 8, forced);
    }
    if DebugOn(cfg.debug) {
      ArgsAtWithin(argv, head, 0, 3 + |base|, ["--debug", "2"]);
    }
  }

  /** After the base: one `-d <domain> -w <webroot>` per domain in order,
      one `--accountemail <e>` per address in order, and the EAB pair last
      when an EAB secret is given. */
  lemma IssueCommandPairs(cfg: Config, p: IssueParams, certId: string, eab: Eab, force: bool)
    requires IssueCommand(cfg, p, certId, eab, force).Success?
    ensures var argv := IssueCommand(cfg, p, certId, eab, force).value;
            var h := 8 + (if force then 1 else 0) + (if DebugOn(cfg.debug) then 2 else 0);
            var e := h + 4 * |p.domains|;
            && |argv| == e + 2 * |p.contactEmails| + (if p.eabSecret != "" then 4 else 0)
            && (forall i :: 0 <= i < |p.domains| ==>
                  DomainPairAt(argv, h + 4 * i, p.domains[i], IssueWebroot(certId)))
            && (forall j :: 0 <= j < |p.contactEmails| ==> EmailPairAt(argv, e + 2 * j, p.contactEmails[j]))
            && (p.eabSecret != "" ==> ArgsAt(argv, |argv| - 4, EabArgs(eab)))
  {
    IssueArgvPairs(cfg, PrecheckIssue(p, cfg.defaultKeyType).value, p, certId, eab, force);
  }

  lemma IssueArgvPairs(cfg: Config, s: IssueSettings, p: IssueParams, certId: string, eab: Eab, force: bool)
    ensures var argv := IssueArgv(cfg, s, p, certId, eab, force);
            var h := 8 + (if force then 1 else 0) + (if DebugOn(cfg.debug) then 2 else 0);
            var e := h + 4 * |p.domains|;
            && |argv| == e + 2 * |p.contactEmails| + (if p.eabSecret != "" then 4 else 0)
            && (forall i :: 0 <= i < |p.domains| ==>
                  DomainPairAt(argv, h + 4 * i, p.domains[i], IssueWebroot(certId)))
            && (forall j :: 0 <= j < |p.contactEmails| ==> EmailPairAt(argv, e + 2 * j, p.contactEmails[j]))
            && (p.eabSecret != "" ==> ArgsAt(argv, |argv| - 4, EabArgs(eab)))
  {
    var base := ["--issue", "--server", s.directory, "--keylength", s.keyLength]
      + (if force then ["--force"] else []);
    var head := AcmeArgv(cfg, base);
    var w := IssueWebroot(certId);
    var h := 8 + (if force then 1 else 0) + (if DebugOn(cfg.debug) then 2 else 0);
    if p.eabSecret != "" {
      CommandLayout(head, p.domains, w, p.contactEmails, EabArgs(eab), h, 4);
    } else {
      CommandLayout(head, p.domains, w, p.contactEmails, [], h, 0);
    }
  }

  // ------------------------------------------------------------------
  // Renew
  // ------------------------------------------------------------------

  /** The inventory fields `renew_certificate` reads; a missing or null
      `directory_url` is `""`. */
  datatype CertRecord = CertRecord(mainDomain: string, san: seq<string>, directoryUrl: string, path: string)

  /** The keyword arguments of `renew_certificate`; `""` and `[]` stand for
      None. */
  datatype RenewParams = RenewParams(
    provider: string,
    directoryUrl: string,
    accountEmails: seq<string>,
    eabSecret: string)

  /** Directory resolution on renew: an explicit URL wins; otherwise the
      previous URL; otherwise the provider table (`lets-encrypt` when none
      is named), where the placeholder falls back to the previous URL. */
  function RenewDirectory(directoryUrl: string, prevDir: string, provider: string): (d: string)
    ensures directoryUrl != "" ==> d == directoryUrl
    ensures directoryUrl == "" && prevDir != "" ==> d == prevDir
    ensures directoryUrl == "" && prevDir == "" ==>
              var table := ProviderDirectory(if provider != "" then provider else LetsEncrypt);
              && d != Custom
              && (d == "" <==> table == Custom)
              && (d != "" ==> d == table)
  {
    if directoryUrl != "" then directoryUrl
    else
      var d := if prevDir != "" then prevDir
               else ProviderDirectory(if provider != "" then provider else LetsEncrypt);
      if d == Custom then prevDir else d
  }

  /** `bool(directory_url and prev_dir and directory_url != prev_dir)`. */
  predicate MigratesCa(directory: string, prevDir: string) {
    directory != "" && prevDir != "" && directory != prevDir
  }

  /** A renew migrates to another CA exactly when an explicit URL is given
      that differs from a non-empty previous one: with no explicit URL the
      previous one is kept whenever there is one. */
  lemma MigratesOnlyOnExplicitChange(directoryUrl: string, prevDir: string, provider: string)
    ensures MigratesCa(RenewDirectory(directoryUrl, prevDir, provider), prevDir)
            <==> directoryUrl != "" && prevDir != "" && directoryUrl != prevDir
    ensures directoryUrl == "" && prevDir != "" ==> RenewDirectory(directoryUrl, prevDir, provider) == prevDir
  {
  }

  /** With neither an explicit nor a previous URL, an unknown provider
      leaves the renew without `--server`. */
  lemma RenewWithoutServer(provider: string)
    requires ProviderDirectory(if provider != "" then provider else LetsEncrypt) == Custom
    ensures RenewDirectory("", "", provider) == ""
  {
  }

  /** `os.path.join(a, b)` for a relative `b`. */
  function JoinPath(a: string, b: string): string {
    if a == "" || a[|a| - 1] == '/' then a + b else a + "/" + b
  }

  /** The renew command for an inventory record (None when the id is
      unknown), with the EAB fields read from its secret. */
  function RenewCommand(cfg: Config, rec: Option<CertRecord>, rp: RenewParams, eab: Eab)
    : (r: Result<seq<string>, RequestError>)
    ensures rec.None? ==> r == Failure(UnknownCert)
    ensures rec.Some? ==> (r.Failure? <==> rp.eabSecret != "" && EabMissing(eab))
    ensures rec.Some? && r.Failure? ==> r.error == EabIncomplete
  {
    match rec
    case None => Failure(UnknownCert)
    case Some(c) =>
      if rp.eabSecret != "" && EabMissing(eab) then Failure(EabIncomplete)
      else
        var san := if c.san != [] then c.san else [c.mainDomain];
        var prevDir := Strip(c.directoryUrl);
        var directory := RenewDirectory(rp.directoryUrl, prevDir, rp.provider);
        var webroot := JoinPath(c.path, "webroot");
        var eabArgs := if rp.eabSecret != "" then EabArgs(eab) else [];
        if MigratesCa(directory, prevDir) then
          Success(MigrateArgv(cfg, directory, san, webroot, eabArgs, rp.accountEmails))
        else
          Success(PlainRenewArgv(cfg, directory, c.mainDomain, webroot, eabArgs, rp.accountEmails))
  }

  /** The command of a renew that moves to another CA: a fresh issue. */
  function MigrateArgv(cfg: Config, directory: string, san: seq<string>, webroot: string,
                       eabArgs: seq<string>, emails: seq<string>): seq<string>
  {
    AcmeArgv(cfg, ["--issue", "--server", directory, "--keylength", "ec-256"] + eabArgs)
      + DomainArgs(san, webroot) + EmailArgs(emails)
  }

  /** The command of a renew with the same CA. */
  function PlainRenewArgv(cfg: Config, directory: string, mainDomain: string, webroot: string,
                          eabArgs: seq<string>, emails: seq<string>): seq<string>
  {
    AcmeArgv(cfg, (if directory != "" then ["--server", directory] else [])
      + ["--renew", "-d", mainDomain, "--force", "-w", webroot] + eabArgs)
      + EmailArgs(emails)
  }

  /** `renew_certificate` up to the command it runs; `madeWebroot` says
      whether the webroot was created (before the EAB check). */
  method BuildRenewCommand(cfg: Config, rec: Option<CertRecord>, rp: RenewParams, eab: Eab)
    returns (r: Result<seq<string>, RequestError>, madeWebroot: bool)
    ensures r == RenewCommand(cfg, rec, rp, eab)
    ensures madeWebroot <==> rec.Some?
  {
    if rec.None? {
      return Failure(UnknownCert), false;
    }
    var c := rec.value;
    var san := if c.san != [] then c.san else [c.mainDomain];
    var prevDir := Strip(c.directoryUrl);
    var directory := RenewDirectory(rp.directoryUrl, prevDir, rp.provider);
    var webroot := JoinPath(c.path, "webroot");
    madeWebroot := true;
    var eabArgs := [];
    if rp.eabSecret != "" {
      if EabMissing(eab) {
        return Failure(EabIncomplete), true;
      }
      eabArgs := EabArgs(eab);
    }
    var cmd;
    if MigratesCa(directory, prevDir) {
      cmd := AcmeArgv(cfg, ["--issue", "--server", directory, "--keylength", "ec-256"] + eabArgs);
      cmd := AppendDomainArgs(cmd, san, webroot);
    } else {
      var server := [];
      if directory != "" {
        server := ["--server", directory];
      }
      cmd := AcmeArgv(cfg, server + ["--renew", "-d", c.mainDomain, "--force", "-w", webroot] + eabArgs);
    }
    cmd := AppendEmailArgs(cmd, rp.accountEmails);
    r := Success(cmd);
  }

  /** The layout of a migration, which re-issues every SAN (the main domain
      alone when the record has none) with an `ec-256` key at the new
      directory: the CLI and home, the five fixed arguments, the EAB
      arguments, the debug flag when on, then the SAN pairs and the account
      e-mail pairs, and nothing else. */
  predicate MigrateLayout(argv: seq<string>, cfg: Config, directory: string, san: seq<string>, webroot: string,
                          eabArgs: seq<string>, emails: seq<string>)
  {
    var h := 8 + |eabArgs| + (if DebugOn(cfg.debug) then 2 else 0);
    var e := h + 4 * |san|;
    && |argv| == e + 2 * |emails|
    && ArgsAt(argv, 0, [AcmeSh, "--home", cfg.home])
    && ArgsAt(argv, 3, ["--issue", "--server", directory, "--keylength", "ec-256"])
    && ArgsAt(argv, 8, eabArgs)
    && (DebugOn(cfg.debug) ==> ArgsAt(argv, 8 + |eabArgs|, ["--debug", "2"]))
    && (forall i :: 0 <= i < |san| ==> DomainPairAt(argv, h + 4 * i, san[i], webroot))
    && (forall j :: 0 <= j < |emails| ==> EmailPairAt(argv, e + 2 * j, emails[j]))
  }

  /** A migration has the layout above. */
  lemma MigrateArgvShape(cfg: Config, directory: string, san: seq<string>, webroot: string,
                         eabArgs: seq<string>, emails: seq<string>)
    ensures MigrateLayout(MigrateArgv(cfg, directory, san, webroot, eabArgs, emails),
                          cfg, directory, san, webroot, eabArgs, emails)
  {
    var five := ["--issue", "--server", directory, "--keylength", "ec-256"];
    var head := AcmeArgv(cfg, five + eabArgs);
    var h := 8 + |eabArgs| + (if DebugOn(cfg.debug) then 2 else 0);
    var rest := DomainArgs(san, webroot) + EmailArgs(emails);
    var argv := MigrateArgv(cfg, directory, san, webroot, eabArgs, emails);
    assert argv == Command(head, san, webroot, emails, []);
    assert argv == head + rest;
    MigrateLayoutOfParts(argv, cfg, directory, san, webroot, eabArgs, emails);
  }

  /** A command made of a migration's `_acme` arguments, then the SAN and
      e-mail pairs, has the migration layout. */
  lemma MigrateLayoutOfParts(argv: seq<string>, cfg: Config, directory: string, san: seq<string>,
                             webroot: string, eabArgs: seq<string>, emails: seq<string>)
    requires var head := AcmeArgv(cfg, ["--issue", "--server", directory, "--keylength", "ec-256"] + eabArgs);
             && argv == Command(head, san, webroot, emails, [])
             && argv == head + (DomainArgs(san, webroot) + EmailArgs(emails))
    ensures MigrateLayout(argv, cfg, directory, san, webroot, eabArgs, emails)
  {
    var five := ["--issue", "--server", directory, "--keylength", "ec-256"];
    var head := AcmeArgv(cfg, five + eabArgs);
    var h := 8 + |eabArgs| + (if DebugOn(cfg.debug) then 2 else 0);
    var e := h + 4 * |san|;
    CommandLayout(head, san, webroot, emails, [], h, 0);
    assert forall i :: 0 <= i < |san| ==> DomainPairAt(argv, h + 4 * i, san[i], webroot);
    assert forall j :: 0 <= j < |emails| ==> EmailPairAt(argv, e + 2 * j, emails[j]);
    MigrateHead(cfg, five, eabArgs, DomainArgs(san, webroot) + EmailArgs(emails));
  }

  /** Where the pieces of a migration's `_acme` arguments land, whatever
      follows them. */
  lemma MigrateHead(cfg: Config, five: seq<string>, eabArgs: seq<string>, rest: seq<string>)
    requires |five| == 5
    ensures var argv := AcmeArgv(cfg, five + eabArgs) + rest;
            && ArgsAt(argv, 0, [AcmeSh, "--home", cfg.home])
            && ArgsAt(argv, 3, five)
            && ArgsAt(argv, 8, eabArgs)
            && (DebugOn(cfg.debug) ==> ArgsAt(argv, 8 + |eabArgs|, ["--debug", "2"]))
  {
    var args := five + eabArgs;
    ArgsAtStart(five, eabArgs);
    HeadLayout(cfg, args, rest, 0, five);
    assert ArgsAt(eabArgs, 0, eabArgs);
    ArgsAtShift(five, eabArgs, 0, eabArgs);
    HeadLayout(cfg, args, rest, 5, eabArgs);
    DebugLayout(cfg, args, rest);
  }

  /** The debug flag, when on, ends the arguments of `_acme`. */
  lemma DebugLayout(cfg: Config, args: seq<string>, rest: seq<string>)
    ensures DebugOn(cfg.debug) ==> ArgsAt(AcmeArgv(cfg, args) + rest, 3 + |args|, ["--debug", "2"])
  {
    if DebugOn(cfg.debug) {
      ArgsAtExtend(AcmeArgv(cfg, args), rest, 3 + |args|, ["--debug", "2"]);
    }
  }

  /** The layout of a renew without a migration, which names only the
      main domain, forced, and passes `--server` exactly when a directory
      is known; the EAB arguments and the debug flag follow, then the
      account e-mail pairs, and nothing else. */
  predicate PlainRenewLayout(argv: seq<string>, cfg: Config, directory: string, mainDomain: string,
                             webroot: string, eabArgs: seq<string>, emails: seq<string>)
  {
    var k := if directory != "" then 2 else 0;
    var e := 9 + k + |eabArgs| + (if DebugOn(cfg.debug) then 2 else 0);
    && |argv| == e + 2 * |emails|
    && ArgsAt(argv, 0, [AcmeSh, "--home", cfg.home])
    && (directory != "" ==> ArgsAt(argv, 3, ["--server", directory]))
    && ArgsAt(argv, 3 + k, ["--renew", "-d", mainDomain, "--force", "-w", webroot])
    && ArgsAt(argv, 9 + k, eabArgs)
    && (DebugOn(cfg.debug) ==> ArgsAt(argv, 9 + k + |eabArgs|, ["--debug", "2"]))
    && (forall j :: 0 <= j < |emails| ==> EmailPairAt(argv, e + 2 * j, emails[j]))
  }

  /** A plain renew has the layout above. */
  lemma PlainRenewArgvShape(cfg: Config, directory: string, mainDomain: string, webroot: string,
                            eabArgs: seq<string>, emails: seq<string>)
    ensures PlainRenewLayout(PlainRenewArgv(cfg, directory, mainDomain, webroot, eabArgs, emails),
                             cfg, directory, mainDomain, webroot, eabArgs, emails)
  {
    var server := if directory != "" then ["--server", directory] else [];
    var six := ["--renew", "-d", mainDomain, "--force", "-w", webroot];
    var head := AcmeArgv(cfg, server + six + eabArgs);
    EmailTailLayout(head, emails, 9 + |server| + |eabArgs| + (if DebugOn(cfg.debug) then 2 else 0));
    PlainRenewHead(cfg, server, six, eabArgs, EmailArgs(emails));
    assert PlainRenewArgv(cfg, directory, mainDomain, webroot, eabArgs, emails) == head + EmailArgs(emails);
  }

  /** What a known record's renew runs: with a complete EAB secret the
      command is built; a change of CA re-issues the record's SANs (the
      main domain alone when it has none) with an `ec-256` key at the new
      directory, and otherwise the main domain is renewed with `--force`,
      `--server` given iff a directory is known. Both use the record's
      `webroot` folder and end with the account e-mail pairs. */
  lemma RenewCommandShape(cfg: Config, c: CertRecord, rp: RenewParams, eab: Eab)
    requires rp.eabSecret == "" || !EabMissing(eab)
    ensures RenewCommand(cfg, Some(c), rp, eab).Success?
    ensures var argv := RenewCommand(cfg, Some(c), rp, eab).value;
            var prevDir := Strip(c.directoryUrl);
            var directory := RenewDirectory(rp.directoryUrl, prevDir, rp.provider);
            var webroot := JoinPath(c.path, "webroot");
            var san := if c.san != [] then c.san else [c.mainDomain];
            var eabArgs := if rp.eabSecret != "" then EabArgs(eab) else [];
            && (MigratesCa(directory, prevDir) ==>
                  MigrateLayout(argv, cfg, directory, san, webroot, eabArgs, rp.accountEmails))
            && (!MigratesCa(directory, prevDir) ==>
                  PlainRenewLayout(argv, cfg, directory, c.mainDomain, webroot, eabArgs, rp.accountEmails))
  {
    var prevDir := Strip(c.directoryUrl);
    var directory := RenewDirectory(rp.directoryUrl, prevDir, rp.provider);
    var webroot := JoinPath(c.path, "webroot");
    var san := if c.san != [] then c.san else [c.mainDomain];
    var eabArgs := if rp.eabSecret != "" then EabArgs(eab) else [];
    RenewCommandPicks(cfg, c, rp, eab);
    if MigratesCa(directory, prevDir) {
      MigrateArgvShape(cfg, directory, san, webroot, eabArgs, rp.accountEmails);
    } else {
      PlainRenewArgvShape(cfg, directory, c.mainDomain, webroot, eabArgs, rp.accountEmails);
    }
  }

  /** Which of the two commands a known record's renew builds. */
  lemma RenewCommandPicks(cfg: Config, c: CertRecord, rp: RenewParams, eab: Eab)
    requires rp.eabSecret == "" || !EabMissing(eab)
    ensures var prevDir := Strip(c.directoryUrl);
            var directory := RenewDirectory(rp.directoryUrl, prevDir, rp.provider);
            var webroot := JoinPath(c.path, "webroot");
            var san := if c.san != [] then c.san else [c.mainDomain];
            var eabArgs := if rp.eabSecret != "" then EabArgs(eab) else [];
            RenewCommand(cfg, Some(c), rp, eab)
            == Success(if MigratesCa(directory, prevDir)
                       then MigrateArgv(cfg, directory, san, webroot, eabArgs, rp.accountEmails)
                       else PlainRenewArgv(cfg, directory, c.mainDomain, webroot, eabArgs, rp.accountEmails))
  {
  }

  /** The account e-mail pairs that end a command. */
  lemma EmailTailLayout(head: seq<string>, emails: seq<string>, e: nat)
    requires |head| == e
    ensures |head + EmailArgs(emails)| == e + 2 * |emails|
    ensures forall j :: 0 <= j < |emails| ==> EmailPairAt(head + EmailArgs(emails), e + 2 * j, emails[j])
  {
    EmailArgsAt(emails);
    forall j | 0 <= j < |emails|
      ensures EmailPairAt(head + EmailArgs(emails), e + 2 * j, emails[j])
    {
      ArgsAtShift(head, EmailArgs(emails), 2 * j, ["--accountemail", emails[j]]);
    }
  }

  /** Where the pieces of a plain renew's `_acme` arguments land, whatever
      follows them. */
  lemma PlainRenewHead(cfg: Config, server: seq<string>, six: seq<string>, eabArgs: seq<string>, rest: seq<string>)
    requires |six| == 6
    ensures var argv := AcmeArgv(cfg, server + six + eabArgs) + rest;
            && ArgsAt(argv, 0, [AcmeSh, "--home", cfg.home])
            && ArgsAt(argv, 3, server)
            && ArgsAt(argv, 3 + |server|, six)
            && ArgsAt(argv, 9 + |server|, eabArgs)
            && (DebugOn(cfg.debug) ==> ArgsAt(argv, 9 + |server| + |eabArgs|, ["--debug", "2"]))
  {
    var args := server + six + eabArgs;
    RenewArgsLayout(server, six, eabArgs);
    HeadLayout(cfg, args, rest, |server|, six);
    HeadLayout(cfg, args, rest, |server| + 6, eabArgs);
    HeadLayout(cfg, args, rest, 0, server);
    DebugLayout(cfg, args, rest);
  }

  lemma RenewArgsLayout(server: seq<string>, six: seq<string>, eabArgs: seq<string>)
    ensures ArgsAt(server + six + eabArgs, 0, server)
    ensures ArgsAt(server + six + eabArgs, |server|, six)
    ensures ArgsAt(server + six + eabArgs, |server| + |six|, eabArgs)
  {
    assert ArgsAt(six, 0, six);
    ArgsAtShift(server, six, 0, six);
    ArgsAtExtend(server + six, eabArgs, |server|, six);
    assert ArgsAt(eabArgs, 0, eabArgs);
    ArgsAtShift(server + six, eabArgs, 0, eabArgs);
    ArgsAtStart(server, six);
    ArgsAtExtend(server + six, eabArgs, 0, server);
  }

  /** A piece of the arguments of `_acme` sits three places further on in
      its command, whatever follows the command. */
  lemma HeadLayout(cfg: Config, args: seq<string>, rest: seq<string>, j: int, expected: seq<string>)
    requires ArgsAt(args, j, expected)
    ensures ArgsAt(AcmeArgv(cfg, args) + rest, 0, [AcmeSh, "--home", cfg.home])
    ensures ArgsAt(AcmeArgv(cfg, args) + rest, 3 + j, expected)
  {
    var head := AcmeArgv(cfg, args);
    ArgsAtStart(head, rest);
    ArgsAtWithin(head + rest, head, 0, 0, [AcmeSh, "--home", cfg.home]);
    ArgsAtWithin(head, args, 3, j, expected);
    ArgsAtWithin(head + rest, head, 0, 3 + j, expected);
  }

  // ------------------------------------------------------------------
  // Classifying acme.sh output
  // ------------------------------------------------------------------

  const RateLimitedMark := "acme:error:rateLimited"
  const TooManyMark := "too many certificates"
  const EabRequiredMark := "externalAccountRequired"
  const NotIssuedMark := "is not an issued domain"

  /** The errors the orchestrator raises for a recognised CLI failure. */
  datatype KnownFailure =
    | RateLimited(nextRetry: Option<string>, directoryUrl: string)   // AcmeRateLimitError
    | EabRequired(directoryUrl: string)                              // AcmeEabRequiredError
    | NotManaged                                                     // "ACME_NOT_MANAGED"

  /** The text classified: standard error, then standard output. */
  function FailureText(out: string, err: string): string { err + out }

  predicate RateLimitText(txt: string) {
    Contains(txt, RateLimitedMark) || Contains(txt, TooManyMark)
  }

  /** `_raise_for_known_errors`: a rate limit is reported before an EAB
      requirement; None when neither is recognised. */
  function KnownError(txt: string, directoryUrl: string): (r: Option<KnownFailure>)
    ensures r.None? <==> !RateLimitText(txt) && !Contains(txt, EabRequiredMark)
    ensures RateLimitText(txt) ==> r == Some(RateLimited(RetryAfter.ExtractRetryAfterIso(txt), directoryUrl))
    ensures r == Some(EabRequired(directoryUrl)) <==> !RateLimitText(txt) && Contains(txt, EabRequiredMark)
    ensures r != Some(NotManaged)
  {
    if RateLimitText(txt) then Some(RateLimited(RetryAfter.ExtractRetryAfterIso(txt), directoryUrl))
    else if Contains(txt, EabRequiredMark) then Some(EabRequired(directoryUrl))
    else None
  }

  /** A marker in either stream is recognised, and a rate-limit marker wins
      over an EAB marker wherever the two appear. */
  lemma KnownErrorFromEitherStream(out: string, err: string, directoryUrl: string)
    ensures Contains(out, RateLimitedMark) || Contains(err, RateLimitedMark)
            || Contains(out, TooManyMark) || Contains(err, TooManyMark)
            ==> KnownError(FailureText(out, err), directoryUrl).Some?
                && KnownError(FailureText(out, err), directoryUrl).value.RateLimited?
    ensures Contains(out, EabRequiredMark) || Contains(err, EabRequiredMark)
            ==> KnownError(FailureText(out, err), directoryUrl).Some?
  {
    if Contains(out, RateLimitedMark) || Contains(err, RateLimitedMark) {
      ContainsInConcat(err, out, RateLimitedMark);
    }
    if Contains(out, TooManyMark) || Contains(err, TooManyMark) {
      ContainsInConcat(err, out, TooManyMark);
    }
    if Contains(out, EabRequiredMark) || Contains(err, EabRequiredMark) {
      ContainsInConcat(err, out, EabRequiredMark);
    }
  }

  /** A rate-limit report whose first `retry after <date> <time> UTC` is
      well formed carries that time, rewritten in ISO form, wherever the
      rate-limit marker stands. */
  lemma RateLimitCarriesRetryTime(prefix: string, st: RetryAfter.Stamp, tail: string, directoryUrl: string)
    requires RetryAfter.Printable(st) && RetryAfter.ValidStamp(st)
    requires RetryAfter.NoMatchBefore(prefix + RetryAfter.Message(st, tail), |prefix|)
    requires Contains(prefix, RateLimitedMark) || Contains(tail, RateLimitedMark)
    ensures KnownError(prefix + RetryAfter.Message(st, tail), directoryUrl)
            == Some(RateLimited(Some(RetryAfter.IsoOf(st)), directoryUrl))
  {
    if Contains(tail, RateLimitedMark) {
      var t1 := " UTC" + tail;
      var t2 := RetryAfter.TimeText(st) + t1;
      var t3 := " " + t2;
      var t4 := RetryAfter.DateText(st) + t3;
      var t5 := " " + t4;
      ContainsInConcat(" UTC", tail, RateLimitedMark);
      ContainsInConcat(RetryAfter.TimeText(st), t1, RateLimitedMark);
      ContainsInConcat(" ", t2, RateLimitedMark);
      ContainsInConcat(RetryAfter.DateText(st), t3, RateLimitedMark);
      ContainsInConcat(" ", t4, RateLimitedMark);
      ContainsInConcat(RetryAfter.RetryWord, t5, RateLimitedMark);
      assert RetryAfter.Message(st, tail) == RetryAfter.RetryWord + t5;
    }
    ContainsInConcat(prefix, RetryAfter.Message(st, tail), RateLimitedMark);
    RetryAfter.ExtractFromMessage(prefix, st, tail);
  }

  /** Renew's first look at the output (before it knows whether challenge
      files appeared) checks only for an EAB requirement. */
  function RenewEarlyFailure(txt: string, directoryUrl: string): (r: Option<KnownFailure>)
    ensures r.Some? <==> Contains(txt, EabRequiredMark)
    ensures r.Some? ==> r.value == EabRequired(directoryUrl)
  {
    if Contains(txt, EabRequiredMark) then Some(EabRequired(directoryUrl)) else None
  }

  /** Renew's classification of a failed run: the known errors, then an
      unmanaged domain. */
  function RenewExitFailure(txt: string, directoryUrl: string): (r: Option<KnownFailure>)
    ensures r.None? <==> !RateLimitText(txt) && !Contains(txt, EabRequiredMark) && !Contains(txt, NotIssuedMark)
  {
    match KnownError(txt, directoryUrl)
    case Some(f) => Some(f)
    case None => if Contains(txt, NotIssuedMark) then Some(NotManaged) else None
  }

  /** On output that has both markers, renew's early check reports the EAB
      requirement while the issue path reports the rate limit. */
  lemma EarlyCheckOrderDiffers(txt: string, directoryUrl: string)
    requires Contains(txt, RateLimitedMark) && Contains(txt, EabRequiredMark)
    ensures RenewEarlyFailure(txt, directoryUrl) == Some(EabRequired(directoryUrl))
    ensures KnownError(txt, directoryUrl).Some? && KnownError(txt, directoryUrl).value.RateLimited?
  {
  }

  /** The renew exit classification agrees with the issue path wherever
      that recognises something, and adds only the unmanaged-domain case. */
  lemma RenewExitRefinesKnown(txt: string, directoryUrl: string)
    ensures KnownError(txt, directoryUrl).Some? ==>
            RenewExitFailure(txt, directoryUrl) == KnownError(txt, directoryUrl)
    ensures RenewExitFailure(txt, directoryUrl) == Some(NotManaged)
            <==> KnownError(txt, directoryUrl).None? && Contains(txt, NotIssuedMark)
  {
  }

  /** The notices after which an issue is retried with `--force`. */
  predicate AlreadyCurrent(out: string) {
    Contains(out, "Skipping. Next renewal time is:") || Contains(out, "Domains not changed.")
  }

  /** The phrases `_acme_likely_succeeded` looks for. */
  const Needles: seq<string> := [
    "is already verified, skipping http-01.",
    "Verification finished, beginning signing.",
    "Downloading cert.",
    "Cert success.",
    "Installing cert to:",
    "Your cert is in:",
    "full-chain cert is in:"]

  /** `any(n in s for n in needles)`. */
  function AnyIn(s: string, needles: seq<string>): (r: bool)
    ensures r <==> exists i :: 0 <= i < |needles| && Contains(s, needles[i])
  {
    if needles == [] then false
    else Contains(s, needles[0]) || AnyIn(s, needles[1..])
  }

  /** `_acme_likely_succeeded`: empty output never counts. */
  predicate LikelySucceeded(out: string) {
    out != "" && AnyIn(out, Needles)
  }

  lemma LikelySucceededIff(out: string)
    ensures LikelySucceeded(out) <==> exists i :: 0 <= i < |Needles| && Contains(out, Needles[i])
  {
    if exists i :: 0 <= i < |Needles| && Contains(out, Needles[i]) {
      var i :| 0 <= i < |Needles| && Contains(out, Needles[i]);
      assert |Needles[i]| > 0;
    }
  }

  // ------------------------------------------------------------------
  // What a run's outcome leads to
  // ------------------------------------------------------------------

  /** What `_wait_for_challenge_files_or_proc` reports: whether token files
      appeared, and the exit code and output of the run (a missing stream
      is `""`, as `out0 or ""` makes it). */
  datatype Wait = Wait(hadFiles: bool, rc: int, out: string, err: string)

  /** Where a step of `request_certificate` or `renew_certificate` goes
      next: wait for the run to exit, go straight to installing the
      certificate, raise a recognised error, retry the issue with
      `--force`, or raise a plain `RuntimeError`. */
  datatype Step = AwaitExit | Install | Raise(failure: KnownFailure) | RetryForced | Fail

  /** The first wait of an issue: token files mean a challenge to publish;
      without them, exit 0 with a success phrase means a reused
      validation, and anything else is classified, an already-current
      notice leading to a forced retry. */
  function IssueFirstStep(w: Wait, directoryUrl: string): (r: Step)
    ensures w.hadFiles <==> r == AwaitExit
    ensures r == Install <==> !w.hadFiles && w.rc == 0 && LikelySucceeded(w.out)
    ensures r.Raise? ==> !w.hadFiles && KnownError(FailureText(w.out, w.err), directoryUrl) == Some(r.failure)
    ensures r == RetryForced ==> AlreadyCurrent(w.out) && KnownError(FailureText(w.out, w.err), directoryUrl).None?
    ensures r == Fail ==> !AlreadyCurrent(w.out) && KnownError(FailureText(w.out, w.err), directoryUrl).None?
  {
    if w.hadFiles then AwaitExit
    else if w.rc == 0 && LikelySucceeded(w.out) then Install
    else match KnownError(FailureText(w.out, w.err), directoryUrl)
      case Some(f) => Raise(f)
      case None => if AlreadyCurrent(w.out) then RetryForced else Fail
  }

  /** The first wait of the forced retry: unlike the first attempt, a
      success without token files still waits for the exit. */
  function ForcedFirstStep(w: Wait, directoryUrl: string): (r: Step)
    ensures r == AwaitExit <==> w.hadFiles || (w.rc == 0 && LikelySucceeded(w.out))
    ensures r.Raise? ==> KnownError(FailureText(w.out, w.err), directoryUrl) == Some(r.failure)
    ensures r == Fail ==> KnownError(FailureText(w.out, w.err), directoryUrl).None?
    ensures r == AwaitExit || r == Fail || r.Raise?
  {
    if !w.hadFiles && !(w.rc == 0 && LikelySucceeded(w.out)) then
      match KnownError(FailureText(w.out, w.err), directoryUrl)
      case Some(f) => Raise(f)
      case None => Fail
    else AwaitExit
  }

  /** The exit of an issue run: a non-zero code is classified, and an
      unrecognised failure is a `RuntimeError`. */
  function IssueExitStep(rc: int, out: string, err: string, directoryUrl: string): (r: Step)
    ensures r == Install <==> rc == 0
    ensures r.Raise? <==> rc != 0 && KnownError(FailureText(out, err), directoryUrl).Some?
    ensures r.Raise? ==> r.failure == KnownError(FailureText(out, err), directoryUrl).value
    ensures r == Install || r == Fail || r.Raise?
  {
    if rc == 0 then Install
    else match KnownError(FailureText(out, err), directoryUrl)
      case Some(f) => Raise(f)
      case None => Fail
  }

  /** The first wait of a renew: an EAB requirement anywhere is raised at
      once; without token files, only exit 0 with a success phrase goes on,
      a rate limit is raised and anything else fails. Renew always waits
      for the exit afterwards. */
  function RenewFirstStep(w: Wait, directoryUrl: string): (r: Step)
    ensures r == Raise(EabRequired(directoryUrl)) <==> Contains(FailureText(w.out, w.err), EabRequiredMark)
    ensures r == AwaitExit <==>
              !Contains(FailureText(w.out, w.err), EabRequiredMark)
              && (w.hadFiles || (w.rc == 0 && LikelySucceeded(w.out)))
    ensures r.Raise? && r.failure.RateLimited? ==>
              !w.hadFiles && r.failure == RateLimited(RetryAfter.ExtractRetryAfterIso(FailureText(w.out, w.err)), directoryUrl)
    ensures r != Install && r != RetryForced
  {
    var txt := FailureText(w.out, w.err);
    match RenewEarlyFailure(txt, directoryUrl)
    case Some(f) => Raise(f)
    case None =>
      if w.hadFiles || (w.rc == 0 && LikelySucceeded(w.out)) then AwaitExit
      else if RateLimitText(txt) then Raise(RateLimited(RetryAfter.ExtractRetryAfterIso(txt), directoryUrl))
      else Fail
  }

  /** The exit of a renew run, classified with the unmanaged-domain case. */
  function RenewExitStep(rc: int, out: string, err: string, directoryUrl: string): (r: Step)
    ensures r == Install <==> rc == 0
    ensures r.Raise? ==> rc != 0 && RenewExitFailure(FailureText(out, err), directoryUrl) == Some(r.failure)
    ensures r == Fail <==> rc != 0 && RenewExitFailure(FailureText(out, err), directoryUrl).None?
  {
    if rc == 0 then Install
    else match RenewExitFailure(FailureText(out, err), directoryUrl)
      case Some(f) => Raise(f)
      case None => Fail
  }

  /** An issue run that leaves no token files but exits 0 with a success
      phrase is installed, whatever error markers its output also holds. */
  lemma IssueSuccessPhraseWins(out: string, err: string, directoryUrl: string)
    requires LikelySucceeded(out)
    ensures IssueFirstStep(Wait(false, 0, out, err), directoryUrl) == Install
  {
  }

  /** A renew run is not: an EAB marker is raised even next to a success
      phrase and a zero exit code. */
  lemma RenewEabMarkerWins(out: string, err: string, directoryUrl: string)
    requires LikelySucceeded(out) && Contains(err, EabRequiredMark)
    ensures RenewFirstStep(Wait(false, 0, out, err), directoryUrl) == Raise(EabRequired(directoryUrl))
    ensures IssueFirstStep(Wait(false, 0, out, err), directoryUrl) == Install
  {
    ContainsInConcat(err, out, EabRequiredMark);
  }

  /** The two exit classifications differ only where renew recognises an
      unmanaged domain. */
  lemma ExitStepsAgree(rc: int, out: string, err: string, directoryUrl: string)
    ensures RenewExitStep(rc, out, err, directoryUrl) != IssueExitStep(rc, out, err, directoryUrl)
            <==> rc != 0 && RenewExitStep(rc, out, err, directoryUrl) == Raise(NotManaged)
  {
    RenewExitRefinesKnown(FailureText(out, err), directoryUrl);
  }

  // ------------------------------------------------------------------
  // The HTTP-01 token map
  // ------------------------------------------------------------------

  /** One challenge as posted; a missing key is `""`. */
  datatype Challenge = Challenge(path: string, keyAuthorization: string)

  predicate Usable(c: Challenge) {
    c.path != "" && c.keyAuthorization != ""
  }

  /** `path.rsplit("/", 1)[-1]`: what follows the last `/`, or the whole
      path when it has none. */
  function LastSegment(path: string): (r: string)
    ensures '/' !in r && |r| <= |path|
  {
    if path == [] || path[|path| - 1] == '/' then []
    else LastSegment(path[..|path| - 1]) + [path[|path| - 1]]
  }

  /** The token is a tail of the path, and either the whole path or the
      part right after a `/`. */
  lemma {:induction false} LastSegmentIsTail(path: string)
    ensures var r := LastSegment(path);
            forall k :: 0 <= k < |r| ==> r[k] == path[|path| - |r| + k]
    ensures var r := LastSegment(path);
            |r| < |path| ==> path[|path| - |r| - 1] == '/'
  {
    if path != [] && path[|path| - 1] != '/' {
      var init := path[..|path| - 1];
      LastSegmentIsTail(init);
      var r := LastSegment(init);
      assert LastSegment(path) == r + [path[|path| - 1]];
    }
  }

  /** The token map the loop builds: later challenges overwrite earlier
      ones with the same token. */
  function TokenMapOf(chs: seq<Challenge>): (m: map<string, string>)
    ensures forall t :: t in m ==> m[t] != "" && '/' !in t
  {
    if chs == [] then map[]
    else
      var m := TokenMapOf(chs[..|chs| - 1]);
      var c := chs[|chs| - 1];
      if Usable(c) then m[LastSegment(c.path) := c.keyAuthorization] else m
  }

  datatype PublishError =
    | NoChallenges   // "challenges array is empty"
    | NoValidPairs   // "No valid token/keyAuthorization pairs found in challenges"

  /** The token-map part of `publish_http01_challenges`. */
  method BuildTokenMap(chs: seq<Challenge>) returns (r: Result<map<string, string>, PublishError>)
    ensures chs == [] ==> r == Failure(NoChallenges)
    ensures chs != [] && TokenMapOf(chs) == map[] ==> r == Failure(NoValidPairs)
    ensures chs != [] && TokenMapOf(chs) != map[] ==> r == Success(TokenMapOf(chs))
  {
    if chs == [] {
      return Failure(NoChallenges);
    }
    var tokenMap: map<string, string> := map[];
    var i := 0;
    while i < |chs|
      invariant 0 <= i <= |chs|
      invariant tokenMap == TokenMapOf(chs[..i])
    {
      assert chs[..i + 1][..i] == chs[..i];
      var c := chs[i];
      if c.path != "" && c.keyAuthorization != "" {
        tokenMap := tokenMap[LastSegment(c.path) := c.keyAuthorization];
      }
      i := i + 1;
    }
    assert chs[..i] == chs;
    if tokenMap == map[] {
      return Failure(NoValidPairs);
    }
    r := Success(tokenMap);
  }

  /** A token is in the map exactly when some usable challenge ends in it. */
  lemma {:induction false} TokenMapKeys(chs: seq<Challenge>, t: string)
    ensures t in TokenMapOf(chs) <==>
            exists i :: 0 <= i < |chs| && Usable(chs[i]) && LastSegment(chs[i].path) == t
  {
    if chs != [] {
      var init := chs[..|chs| - 1];
      TokenMapKeys(init, t);
      if exists i :: 0 <= i < |init| && Usable(init[i]) && LastSegment(init[i].path) == t {
        var i :| 0 <= i < |init| && Usable(init[i]) && LastSegment(init[i].path) == t;
        assert chs[i] == init[i];
      }
      if exists i :: 0 <= i < |chs| && Usable(chs[i]) && LastSegment(chs[i].path) == t {
        var i :| 0 <= i < |chs| && Usable(chs[i]) && LastSegment(chs[i].path) == t;
        if i < |init| {
          assert init[i] == chs[i];
        }
      }
    }
  }

  /** The value stored for a token is the key of the last usable challenge
      with that token. */
  lemma {:induction false} TokenMapLastWins(chs: seq<Challenge>, i: int)
    requires 0 <= i < |chs| && Usable(chs[i])
    requires forall j :: i < j < |chs| && Usable(chs[j]) ==> LastSegment(chs[j].path) != LastSegment(chs[i].path)
    ensures LastSegment(chs[i].path) in TokenMapOf(chs)
    ensures TokenMapOf(chs)[LastSegment(chs[i].path)] == chs[i].keyAuthorization
  {
    if i < |chs| - 1 {
      var init := chs[..|chs| - 1];
      assert init[i] == chs[i];
      forall j | i < j < |init| && Usable(init[j])
        ensures LastSegment(init[j].path) != LastSegment(init[i].path)
      {
        assert init[j] == chs[j];
      }
      TokenMapLastWins(init, i);
    }
  }

  /** Publishing fails with "no valid pairs" exactly when the list is
      non-empty and no challenge has both a path and a key. */
  lemma NoValidPairsIff(chs: seq<Challenge>)
    ensures TokenMapOf(chs) == map[] <==> forall i :: 0 <= i < |chs| ==> !Usable(chs[i])
  {
    if exists i :: 0 <= i < |chs| && Usable(chs[i]) {
      var i :| 0 <= i < |chs| && Usable(chs[i]);
      TokenMapKeys(chs, LastSegment(chs[i].path));
    } else if TokenMapOf(chs) != map[] {
      var t :| t in TokenMapOf(chs);
      TokenMapKeys(chs, t);
    }
  }

  // ------------------------------------------------------------------
  // Deployment names
  // ------------------------------------------------------------------

  /** `main.replace("*", "wildcard").replace(".", "_")`. */
  function NameSafe(mainDomain: string): (r: string)
    ensures '*' !in r && '.' !in r
  {
    Replace(Replace(mainDomain, '*', "wildcard"), '.', "_")
  }

  /** The safe name is made character by character: `*` becomes
      `wildcard`, `.` becomes `_`, and every other character stays. */
  lemma NameSafeConcat(a: string, b: string)
    ensures NameSafe(a + b) == NameSafe(a) + NameSafe(b)
  {
    ReplaceConcat(a, b, '*', "wildcard");
    ReplaceConcat(Replace(a, '*', "wildcard"), Replace(b, '*', "wildcard"), '.', "_");
  }

  lemma NameSafeChar(x: char)
    ensures NameSafe([x]) == if x == '*' then "wildcard" else if x == '.' then "_" else [x]
  {
    ReplaceChar(x, '*', "wildcard");
    if x == '*' {
      ReplaceAbsent("wildcard", '.', "_");
    } else {
      ReplaceChar(x, '.', "_");
    }
  }

  /** A wildcard certificate for `*.<host>.<tld>` is named
      `wildcard_<host>_<tld>` (`*.example.com` gives
      `wildcard_example_com`). */
  lemma NameSafeWildcard(host: string, tld: string)
    requires '*' !in host && '.' !in host && '*' !in tld && '.' !in tld
    ensures NameSafe("*" + ("." + (host + ("." + tld)))) == "wildcard" + ("_" + (host + ("_" + tld)))
  {
    NameSafeDot(tld);
    NameSafeUnchanged(host);
    NameSafeUnchanged(tld);
    NameSafeConcat(host, "." + tld);
    NameSafeDot(host + ("." + tld));
    NameSafeStar("." + (host + ("." + tld)));
  }

  lemma NameSafeStar(rest: string)
    ensures NameSafe("*" + rest) == "wildcard" + NameSafe(rest)
  {
    NameSafeConcat("*", rest);
    NameSafeChar('*');
  }

  lemma NameSafeDot(rest: string)
    ensures NameSafe("." + rest) == "_" + NameSafe(rest)
  {
    NameSafeConcat(".", rest);
    NameSafeChar('.');
  }

  lemma NameSafeUnchanged(s: string)
    requires '*' !in s && '.' !in s
    ensures NameSafe(s) == s
  {
    ReplaceAbsent(s, '*', "wildcard");
    ReplaceAbsent(s, '.', "_");
  }

  /** `f"{namesafe}_{cert_id[:8]}"`. */
  function BaseName(mainDomain: string, certId: string): string {
    NameSafe(mainDomain) + "_" + certId[..if |certId| < 8 then |certId| else 8]
  }

  function KeyName(base: string): string { base + ".key" }
  function CertName(base: string): string { base + ".crt" }
  function ChainName(base: string): string { base + "_chain.crt" }

  /** The profile used when the caller names none: `clientssl_<namesafe>`. */
  function ClientSslName(clientssl: string, mainDomain: string): (r: string)
    ensures clientssl != "" ==> r == clientssl
    ensures clientssl == "" ==>
              StartsWith(r, "clientssl_") && r[10..] == NameSafe(mainDomain) && '*' !in r[10..] && '.' !in r[10..]
  {
    if clientssl != "" then clientssl else "clientssl_" + NameSafe(mainDomain)
  }

  /** The profile `deploy_to_bigip` reports: `/<partition>/<clientssl>`,
      replaced by what `ensure_clientssl_profile` returns when it is asked
      to create profiles; a failed lookup, or a failed create after a 404,
      ends the deployment with its status. */
  function DeployProfile(partition: string, clientssl: string, createProfile: bool,
                         lookupStatus: int, createStatus: int): (r: Result<string, int>)
    ensures r.Success? ==> r.value == BigIp.FullPath(partition, clientssl)
    ensures r.Failure? <==>
              && createProfile && BigIp.HttpError(lookupStatus)
              && (lookupStatus != 404 || BigIp.HttpError(createStatus))
  {
    var profFull := BigIp.FullPath(partition, clientssl);
    if createProfile then BigIp.EnsureClientsslProfile(partition, clientssl, lookupStatus, createStatus).path
    else Success(profFull)
  }

  /** With the attach resolving names as the rest of the adapter does, the
      profile the certificate is attached to is the one the deployment
      reports, whether or not it was created, for a relative profile
      name. */
  lemma DeployAttachesReported(partition: string, clientssl: string, createProfile: bool,
                               lookupStatus: int, createStatus: int,
                               keyname: string, certname: string, chainname: string)
    requires !StartsWith(clientssl, "/")
    requires DeployProfile(partition, clientssl, createProfile, lookupStatus, createStatus).Success?
    ensures BigIp.Attach(partition, clientssl, keyname, certname, chainname).profile
            == DeployProfile(partition, clientssl, createProfile, lookupStatus, createStatus).value
  {
  }
  /** An absolute profile name is not: the deployment reports (and, when
      asked, ensures) `/<partition>/` followed by the whole absolute name,
      while the attach, as written and corrected alike, keeps the name as
      it is. */
  lemma DeployAbsoluteNameDiffers(partition: string, clientssl: string, createProfile: bool,
                                  lookupStatus: int, createStatus: int,
                                  keyname: string, certname: string, chainname: string)
    requires StartsWith(clientssl, "/")
    requires DeployProfile(partition, clientssl, createProfile, lookupStatus, createStatus).Success?
    ensures DeployProfile(partition, clientssl, createProfile, lookupStatus, createStatus).value
            == "/" + StripChar(partition, '/') + "/" + clientssl
    ensures BigIp.AttachProfileAsWritten(partition, clientssl) == clientssl
    ensures BigIp.Attach(partition, clientssl, keyname, certname, chainname).profile == clientssl
    ensures DeployProfile(partition, clientssl, createProfile, lookupStatus, createStatus).value != clientssl
  {
    var reported := DeployProfile(partition, clientssl, createProfile, lookupStatus, createStatus).value;
    assert |reported| == |StripChar(partition, '/')| + |clientssl| + 2;
  }


  /** The key, certificate and chain object names are distinct and share
      the base name. For a certificate id without `.` or `*` (a UUID is hex
      digits and dashes) the base holds neither, so the extension is all
      that follows the first `.`. */
  lemma DeployNames(mainDomain: string, certId: string)
    requires '.' !in certId && '*' !in certId
    ensures var base := BaseName(mainDomain, certId);
            && KeyName(base) != CertName(base) && CertName(base) != ChainName(base)
            && KeyName(base) != ChainName(base)
            && '.' !in base && '*' !in base
            && |base| == |NameSafe(mainDomain)| + 1 + (if |certId| < 8 then |certId| else 8)
  {
    var base := BaseName(mainDomain, certId);
    var ns := NameSafe(mainDomain);
    var cut := certId[..if |certId| < 8 then |certId| else 8];
    assert KeyName(base)[|base| + 3] == 'y' && CertName(base)[|base| + 3] == 't';
    assert |ChainName(base)| != |CertName(base)|;
    assert |ChainName(base)| != |KeyName(base)|;
    assert forall c :: c in cut ==> c in certId;
  }
}
