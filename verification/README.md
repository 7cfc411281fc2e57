# mcp-acme core, modelled in Dafny

`mcp-acme` obtains TLS certificates from an ACME certificate authority through
the `acme.sh` command-line client. It publishes the HTTP-01 challenge tokens to
an F5 BIG-IP internal data group, keeps the private key in HashiCorp Vault
(KV v2), and installs the certificate on the BIG-IP. The certificate is
attached to a client-ssl profile and, optionally, to a virtual server.

A guided flow (`/guided/start`, `/guided/answer`, `/guided/commit`) collects
the parameters as named *slots*. A session store keeps the slots, the next
question and a status. The commit runs the orchestrator's issue or renew and
then the deployment.

The model has eight modules, one per file:

- `wrappers.dfy` (Wrappers): `Option` and `Result`.
- `text.dfy` (Text): the Python string operations the core relies on.
  - `strip()` with Python's whitespace set, and `strip`/`lstrip` of one character.
  - `split` on a character, with its `join` round trip.
  - ASCII `lower()`, substring search, and one-character `replace`.
  - Decimal rendering and parsing.
  - The code-point order that `sorted()` uses on names.
- `json.dfy` (Json): slot values as JSON values.
  - Python truthiness and `dict.get`.
  - The template "blank" test `in (None, "", [], {})`.
- `guided.dfy` (Guided): the guided flow of `mcp-acme/guided_api.py`.
  - Slot normalisation and the requirement resolver.
  - Slot validation and template defaults.
  - The virtual-server probe and the commit decision.
  - The session store as a class whose `Start`, `Answer` and `Commit` update its session map.
- `acme.dfy` (Acme): the parameter and command logic of `mcp-acme/orchestrator.py`.
  - Provider and key-type tables.
  - The `acme.sh` argv of issue, forced re-issue, CA migration and renew.
  - Classification of CLI output: rate limit, EAB required, not managed, and "likely succeeded".
  - The HTTP-01 token map.
  - The object and profile names of a deployment.
- `retry.dfy` (RetryAfter): `_extract_retry_after_iso`.
  - The case-insensitive `retry after <date> <time> UTC` search.
  - `strptime`'s calendar check.
  - The ISO rendering.
- `bigip.dfy` (BigIp): the BIG-IP adapter `mcp-acme/adapters/bigip.py`.
  - The chunked upload loop. A post is recorded as its chunk plus the span and total that its `Content-Range` and `Content-Length` headers are written from. `RangeHeader` and `LengthHeader` give the header text.
  - The HTTP-01 data group, as a class whose `Upsert` and `Delete` rewrite its records only when something changed.
  - The REST paths of data groups and client-ssl profiles.
  - Profile creation and the cert-key-chain attach.
- `vault.dfy` (Vault): `_normalize_kv2` and the KV v2 URL built from it.

Outside systems are parameters of the model:

- the status BIG-IP answers to each upload chunk or to a profile lookup;
- the profiles a virtual server lookup returns, or `None` when it raises;
- the inventory hit;
- whether the call deleting a virtual server's client-ssl profiles raises;
- how the certificate step of a commit ended;
- what an `acme.sh` run reports: whether token files appeared, its exit code and its output;
- the EAB fields read from Vault;
- the fresh session id.

What the code does, which the model follows:

- Slots are only trimmed. Nothing is lower-cased, duplicate domains are not
  rejected, and key and challenge types are not checked against a closed set.
- The requirement resolver never asks for `eab_secret` or `directory_url`. An
  EAB requirement surfaces only at commit, as a 400 reply.
- A session's status is `collecting`, `ready` or `done`. There is no `open`,
  `committing`, `failed` or `expired` status.
- `answer` does not look at the status, so a committed session can be answered again.
- A failed commit leaves the session unchanged.
- On renew, the first look at the CLI output tests for an EAB requirement
  before a rate limit. The issue path tests in the opposite order.

## Model

| member | source | states |
|---|---|---|
| Text.Strip | mcp-acme/guided_api.py:65 | the result neither starts nor ends with Python whitespace |
| Text.StripIsInterior | mcp-acme/guided_api.py:65 | `strip()` removes only the surrounding whitespace: the result is a contiguous piece of the input with only whitespace before and after it |
| Text.StripIdempotent | mcp-acme/guided_api.py:65 | stripping twice is stripping once |
| Text.StripKeepsChars | mcp-acme/guided_api.py:65 | stripping adds no character |
| Text.JoinSplit | mcp-acme/guided_api.py:67 | joining the parts of `split(",")` with `,` gives back the string |
| Text.Split | mcp-acme/guided_api.py:67 | there is at least one part, and no part holds the separator |
| Text.StripChar | mcp-acme/adapters/bigip.py:150 | `strip('/')` leaves neither end a `/` |
| Text.StripCharIsInterior | mcp-acme/adapters/bigip.py:150 | `strip(c)` removes only surrounding copies of `c`: the result is a contiguous piece of the input with only `c` before and after it |
| Text.StripCharWrapped | mcp-acme/adapters/bigip.py:150 | one `/` on either or both ends of a slash-free-ended name is removed, and the name itself is kept |
| Text.ParseNatToString | mcp-acme/adapters/bigip.py:62 | the decimal text of a number reads back as that number |
| Text.LessTotal | mcp-acme/adapters/bigip.py:178 | `sorted()` order on distinct names is total |
| Text.LessTransitive | mcp-acme/adapters/bigip.py:178 | the name order is transitive |
| Text.Lower | mcp-acme/guided_api.py:71 | `lower()` keeps the length and leaves no ASCII capital; a capital becomes its small letter, and every other character is kept |
| Text.LowerChar | mcp-acme/guided_api.py:71 | an ASCII capital becomes its small letter, and every other character is kept |
| Text.LowerIdempotent | mcp-acme/guided_api.py:71 | lowering twice is lowering once |
| Text.ReplaceConcat | mcp-acme/orchestrator.py:441 | `replace` of one character works piece by piece: on a concatenation it gives the concatenation of the replaced pieces |
| Text.ReplaceChar | mcp-acme/orchestrator.py:441 | one character becomes the replacement when it is the pattern and stays otherwise |
| Text.ReplaceAbsent | mcp-acme/orchestrator.py:441 | a string without the pattern is unchanged |
| Json.BlankIsFalsy | mcp-acme/guided_api.py:129 | a template-blank value is falsy, but `False` and `0` are falsy without being blank, so a template never fills them |
| Guided.NormalizeSlots | mcp-acme/guided_api.py:62-68 | the loop computes exactly `Normalized` of the slots |
| Guided.TrimStrings | mcp-acme/guided_api.py:64-65 | the loop trims every string slot and nothing else (`Trimmed`) |
| Guided.Normalized | mcp-acme/guided_api.py:62-68 | normalisation keeps the set of slot names |
| Guided.NormalizedValues | mcp-acme/guided_api.py:62-68 | a non-string keeps its value; any other string is trimmed; a string `domains` becomes the list of its trimmed, non-empty comma parts |
| Guided.DomainPartsShape | mcp-acme/guided_api.py:67 | every domain from a string is non-empty, already stripped, and comma-free |
| Guided.NormalizedIdempotent | mcp-acme/guided_api.py:62-68 | normalising normalised slots changes nothing, so a second normalisation on answer or commit is harmless |
| Guided.ScanFrom | mcp-acme/guided_api.py:78-82 | the scan stops at the first reported slot at or after `i`, and every slot before it is present |
| Guided.FirstMissing | mcp-acme/guided_api.py:70-83 | a returned slot is required for the mode and missing; `None` iff every required slot is present |
| Guided.FirstMissingIsFirst | mcp-acme/guided_api.py:78-82 | the returned slot is the earliest missing one in the mode's list |
| Guided.RenewNeverAsksIssueOnly | mcp-acme/guided_api.py:72-76 | renew never asks for provider, contact emails, key type or challenge type |
| Guided.NeverAsksEab | mcp-acme/guided_api.py:72-77 | `eab_secret` is never asked for |
| Guided.NeverAsksDirectoryUrl | mcp-acme/guided_api.py:72-76 | `directory_url` is never asked for, even for a custom provider |
| Guided.DomainsGateCompletion | mcp-acme/guided_api.py:72-82 | without truthy domains the session is never complete |
| Guided.ClientsslProfileException | mcp-acme/guided_api.py:79-81 | an absent or `""` client-ssl profile is not asked for; an explicit `None` keeps the session incomplete |
| Guided.FirstWildcard | mcp-acme/guided_api.py:87 | the index is the first `*.`-prefixed string domain, with none before it |
| Guided.FirstInvalid | mcp-acme/guided_api.py:91-93 | the index is the first domain that is not a matching string, with all before it valid |
| Guided.WildcardIsInvalid | mcp-acme/guided_api.py:87-93 | a wildcard domain would also fail the FQDN pattern |
| Guided.Validate | mcp-acme/guided_api.py:85-97 | validation passes iff the slots are acceptable: no wildcard; every domain a string matching the pattern; and outside renew a custom provider has a directory URL |
| Guided.ValidateWildcard | mcp-acme/guided_api.py:87-88 | the wildcard error is reported iff some domain is a wildcard string |
| Guided.ValidateNamesInvalidDomain | mcp-acme/guided_api.py:91-93 | an "Invalid domain" error names a listed domain that fails the pattern |
| Guided.FqdnBodyHead | mcp-acme/guided_api.py:90 | a name matching the pattern body starts with a host character |
| Guided.FqdnAcceptsTrailingNewline | mcp-acme/guided_api.py:90-92 | `example.com\n` passes, because `$` also matches before a final newline |
| Guided.WithTemplate | mcp-acme/guided_api.py:127-130 | the slots gain every template key except the four metadata keys |
| Guided.WithTemplateValues | mcp-acme/guided_api.py:127-130 | a template value fills exactly the absent or blank slots; every other slot is kept |
| Guided.TemplateKeepsAnswers | mcp-acme/guided_api.py:129 | a non-blank slot is never overwritten by the template |
| Guided.ApplyTemplate | mcp-acme/guided_api.py:127-130 | the loop computes exactly `WithTemplate` |
| Guided.LowerModeName | mcp-acme/guided_api.py:131 | the stored mode is already lower case, so the resolver's `lower()` keeps it |
| Guided.StartSlots | mcp-acme/guided_api.py:121-131 | the started slots carry the requested mode, readable, and renew iff the request was renew |
| Guided.AnsweredSlots | mcp-acme/guided_api.py:143-145 | the answered slot holds the raw value, and no other slot is added |
| Guided.AnswerReplacesOneSlot | mcp-acme/guided_api.py:143-145 | every other slot is its normalised stored value |
| Guided.NormalizedModeReadable | mcp-acme/guided_api.py:178-180 | normalising keeps the mode readable by the resolver |
| Guided.StatusFor | mcp-acme/guided_api.py:135 | the status is `collecting` iff a question is pending, and never `done` |
| Guided.ClientSslPaths | mcp-acme/guided_api.py:154-157 | every collected path contains `client-ssl`, and every clientside client-ssl profile is collected |
| Guided.CollectClientSsl | mcp-acme/guided_api.py:154-157 | the loop computes exactly `ClientSslPaths` |
| Guided.ProbeVirtualServer | mcp-acme/guided_api.py:148-160 | there is a check iff the answer is the virtual server and host and server are set; it is found with the client-ssl profiles iff the lookup answered; otherwise not found with no profiles |
| Guided.HttpStatus | mcp-acme/guided_api.py:246-277 | 400 iff the EAB reply or a bad request; 429 iff the rate-limit reply; 404 iff not found; 500 iff an uncaught exception; 200 iff any other reply |
| Guided.RateLimitMessage | mcp-acme/guided_api.py:269-272 | the 429 message opens with the rate-limit sentence; a non-empty retry time is named at its end, and without one it asks to try again later |
| Guided.RateLimitReplyNamesRetry | mcp-acme/guided_api.py:262-276 | a commit whose certificate step hit the rate limit answers 429 with a message naming the provider's retry time |
| Guided.CommitDecision | mcp-acme/guided_api.py:175-291 | an unreadable mode is an internal fault; a missing slot is refused first and a failed validation next, each with its own error; "virtual server not found" iff the slots are complete and valid and the server is not a string or its lookup raised; once the certificate step is reached, an EAB need is the EAB reply, a rate limit the 429 reply with its retry time and directory, any other error a server error, and an obtained certificate a commit unless `domains[0]` is missing or the deploy raised; a commit needs `domains[0]`, and its `cert_id` is the issued one, the inventory hit, or the slot's; a server error for the profile deletion iff it raises after the earlier checks pass; a server error for `domains[0]` iff it is missing where the path reads it; 404 iff a renew without `cert_id` finds nothing in the inventory; a raising deploy after an obtained certificate is a server error |
| Guided.CommitOkMeansDeployed | mcp-acme/guided_api.py:175-291 | a commit answers 200 only after the certificate was obtained and deployed |
| Guided.CommitRefusedBeforeExternals | mcp-acme/guided_api.py:180-182 | with a slot missing, the outside systems cannot change the answer |
| Guided.RenewWithoutCertIsNotFound | mcp-acme/guided_api.py:227-233 | a renew without `cert_id` and without an inventory hit is a 404, once the slots pass, the virtual server is known and the profile deletion did not raise |
| Guided.SessionStore.constructor | mcp-acme/guided_api.py:20-21 | the store starts with no sessions and the given templates |
| Guided.SessionStore.Start | mcp-acme/guided_api.py:119-136 | 404 iff a named template is unknown; a validation failure stores nothing; otherwise stores a session with the started slots, their first missing question and its status |
| Guided.SessionStore.Answer | mcp-acme/guided_api.py:138-165 | 404 for an unknown id; succeeds iff the answered slots validate, then stores them with the new pending question and status, and returns the probe result |
| Guided.SessionStore.Commit | mcp-acme/guided_api.py:167-291 | 404 for an unknown id; the reply is `CommitDecision` of the normalised slots and the request's `replace_existing_clientssl`; only a completed commit changes the store, to status `done` with nothing pending |
| Acme.ProviderTable | mcp-acme/orchestrator.py:15-21 | the three built-in URLs; every other provider resolves to `custom` |
| Acme.KeyLengthTable | mcp-acme/orchestrator.py:104-106 | the five key types and their `--keylength`; anything else is `ec-256` |
| Acme.AcmeArgv | mcp-acme/orchestrator.py:65-69 | the argv is the CLI, `--home <home>`, the arguments, then `--debug 2` iff debug is `1`, `true` or `yes` in any case |
| Acme.DomainArgsAt | mcp-acme/orchestrator.py:114-115 | domain `i` is at offset `4i` as `-d <domain> -w <webroot>` |
| Acme.EmailArgsAt | mcp-acme/orchestrator.py:116-117 | email `j` is at offset `2j` as `--accountemail <email>` |
| Acme.AppendDomainArgs | mcp-acme/orchestrator.py:114-115 | the loop appends exactly the domain pairs |
| Acme.AppendEmailArgs | mcp-acme/orchestrator.py:116-117 | the loop appends exactly the email pairs |
| Acme.IssueDirectoryResolves | mcp-acme/orchestrator.py:82-86 | an explicit URL wins; otherwise the table URL; failure iff no URL is given and the provider is `custom` |
| Acme.PrecheckOrder | mcp-acme/orchestrator.py:78-94 | no domains, then a custom provider without a URL, then no key secret path, in that order; success iff all three checks pass |
| Acme.IssueCommand | mcp-acme/orchestrator.py:75-123 | the prechecks' error comes first, then an incomplete EAB secret; the command is built iff neither applies |
| Acme.BuildIssueCommand | mcp-acme/orchestrator.py:75-123 | returns the issue command or its error; the work directory is created iff the prechecks pass |
| Acme.IssueCommandHead | mcp-acme/orchestrator.py:112-113 | the command starts with the CLI, home, `--issue --server <dir> --keylength <len>`, then `--force` on the retry, then `--debug 2` |
| Acme.IssueCommandPairs | mcp-acme/orchestrator.py:114-123 | after the head come the domain pairs in order, the email pairs in order, and last the EAB pair iff an EAB secret is given; the length is exact |
| Acme.RenewDirectory | mcp-acme/orchestrator.py:268-272 | an explicit URL wins; else the previous URL; else the provider's table URL, or none when the table says `custom`, which is never the result then |
| Acme.MigratesOnlyOnExplicitChange | mcp-acme/orchestrator.py:268-274 | renew migrates iff an explicit URL differs from a non-empty previous one; without an explicit URL the previous one is kept |
| Acme.RenewWithoutServer | mcp-acme/orchestrator.py:269-272 | with no URLs and a custom provider, renew runs without `--server` |
| Acme.RenewCommand | mcp-acme/orchestrator.py:262-297 | an unknown id is refused; for a known one, the only error is an incomplete EAB secret |
| Acme.BuildRenewCommand | mcp-acme/orchestrator.py:262-310 | returns the renew command or its error; the webroot is created iff the certificate is known |
| Acme.RenewCommandShape | mcp-acme/orchestrator.py:262-310 | a known record with a complete EAB secret gets a command: on a change of CA, `--issue --server <url> --keylength ec-256`, the EAB arguments and a `-d <san> -w <path>/webroot` pair for each SAN (the main domain alone when the record lists none); otherwise `--server <url>` iff a directory is known, then `--renew -d <main> --force -w <path>/webroot` and the EAB arguments; both end with the account e-mail pairs |
| Acme.MigrateArgvShape | mcp-acme/orchestrator.py:296-310 | a migration is the CLI and home, `--issue --server <dir> --keylength ec-256`, the EAB arguments, `--debug 2` when on, then every SAN pair and every `--accountemail` pair in order; the length is exact |
| Acme.PlainRenewArgvShape | mcp-acme/orchestrator.py:302-310 | a plain renew is the CLI and home, `--server <dir>` iff a directory is known, `--renew -d <main> --force -w <webroot>`, the EAB arguments, `--debug 2` when on, then every `--accountemail` pair in order; the length is exact |
| Acme.KnownError | mcp-acme/orchestrator.py:142-146 | a rate limit carries the extracted retry time; EAB is reported iff the EAB marker occurs and no rate-limit marker does; nothing is reported iff neither marker occurs; "not managed" is never reported |
| Acme.KnownErrorFromEitherStream | mcp-acme/orchestrator.py:153-154 | a marker in stdout or stderr is recognised, and a rate-limit marker wins |
| Acme.RateLimitCarriesRetryTime | mcp-acme/orchestrator.py:143-144 | a rate-limit report whose first `retry after ... UTC` is valid carries that time in ISO form, whatever precedes or follows it and wherever the marker stands |
| Acme.RenewEarlyFailure | mcp-acme/orchestrator.py:319-321 | renew's first check reports EAB required iff the marker occurs |
| Acme.RenewExitFailure | mcp-acme/orchestrator.py:342-349 | nothing is recognised iff none of the rate-limit, EAB and not-issued markers occurs |
| Acme.EarlyCheckOrderDiffers | mcp-acme/orchestrator.py:319-321 | on output with both markers, renew reports EAB early, while issue reports the rate limit |
| Acme.RenewExitRefinesKnown | mcp-acme/orchestrator.py:340-349 | renew's exit classification agrees with the known errors and adds "not managed" iff neither marker occurs and the domain is unmanaged |
| Acme.AnyIn | mcp-acme/orchestrator.py:596 | true iff some needle occurs |
| Acme.LikelySucceededIff | mcp-acme/orchestrator.py:583-596 | success is likely iff one of the seven phrases occurs in the output |
| Acme.IssueFirstStep | mcp-acme/orchestrator.py:137-197 | token files lead to the challenge; without them, exit 0 with a success phrase installs directly; otherwise a recognised error is raised, an already-current notice leads to the forced retry, and anything else fails |
| Acme.ForcedFirstStep | mcp-acme/orchestrator.py:164-177 | the forced retry waits for the exit iff token files appeared or it succeeded; otherwise it raises the recognised error or fails |
| Acme.IssueExitStep | mcp-acme/orchestrator.py:184-191 | an issue run installs iff it exits 0; a failure raises the recognised error or fails |
| Acme.RenewFirstStep | mcp-acme/orchestrator.py:314-333 | EAB required is raised iff its marker occurs; renew waits for the exit iff there is no EAB marker and token files appeared or it succeeded; a rate limit raised here carries the retry time; it never installs without waiting |
| Acme.RenewExitStep | mcp-acme/orchestrator.py:340-349 | a renew run installs iff it exits 0; a failure raises renew's classification or fails when nothing is recognised |
| Acme.IssueSuccessPhraseWins | mcp-acme/orchestrator.py:148-151 | no token files, exit 0 and a success phrase install, whatever error markers the output holds |
| Acme.RenewEabMarkerWins | mcp-acme/orchestrator.py:319-326 | on the same output, renew raises EAB required where issue installs |
| Acme.ExitStepsAgree | mcp-acme/orchestrator.py:342-349 | the issue and renew exit classifications differ only where renew reports "not managed" |
| Acme.LastSegment | mcp-acme/orchestrator.py:415 | the token holds no `/` |
| Acme.LastSegmentIsTail | mcp-acme/orchestrator.py:415 | the token is the path's tail after its last `/` |
| Acme.TokenMapOf | mcp-acme/orchestrator.py:411-416 | every token is slash-free and maps to a non-empty key authorisation |
| Acme.BuildTokenMap | mcp-acme/orchestrator.py:409-418 | an empty list is refused; no usable pair is refused; otherwise the loop returns `TokenMapOf` |
| Acme.TokenMapKeys | mcp-acme/orchestrator.py:412-416 | a token is in the map iff some usable challenge ends in it |
| Acme.TokenMapLastWins | mcp-acme/orchestrator.py:412-416 | a token maps to the key of its last usable challenge |
| Acme.NoValidPairsIff | mcp-acme/orchestrator.py:417-418 | the map is empty iff no challenge has both a path and a key |
| Acme.NameSafe | mcp-acme/orchestrator.py:441 | the safe name holds no `*` and no `.` |
| Acme.NameSafeConcat | mcp-acme/orchestrator.py:441 | the safe name of a concatenation is the concatenation of the safe names |
| Acme.NameSafeChar | mcp-acme/orchestrator.py:441 | `*` becomes `wildcard`, `.` becomes `_`, and any other character stays |
| Acme.NameSafeWildcard | mcp-acme/orchestrator.py:441 | `*.<host>.<tld>` is named `wildcard_<host>_<tld>`, so `*.example.com` gives `wildcard_example_com` |
| Acme.ClientSslName | mcp-acme/orchestrator.py:447-448 | a named profile is kept; otherwise it is `clientssl_` and the safe name |
| Acme.DeployNames | mcp-acme/orchestrator.py:441-443 | key, certificate and chain names are pairwise distinct; the base holds no `.` or `*`, and is the safe name, `_` and at most eight id characters |
| Acme.DeployProfile | mcp-acme/orchestrator.py:450-452 | the reported profile is `/<partition>/<clientssl>`; it fails iff a profile was to be created and either the lookup failed with a status other than 404 or the create request after a 404 failed |
| Acme.DeployAttachesReported | mcp-acme/orchestrator.py:450-454 | with the corrected attach and a relative profile name, the attached profile is the reported one |
| Acme.DeployAbsoluteNameDiffers | mcp-acme/orchestrator.py:450-454 | for an absolute profile name, the reported profile is `/<partition>/` followed by the whole name, while the attach (as written and corrected) uses the name itself, so the two differ |
| RetryAfter.SpaceRun | mcp-acme/orchestrator.py:41 | the run is the longest whitespace prefix |
| RetryAfter.Search | mcp-acme/orchestrator.py:41-43 | no match means no position matches; a match is the one at the leftmost matching position |
| RetryAfter.SearchFinds | mcp-acme/orchestrator.py:41-43 | the search returns the match at a position when none starts before it |
| RetryAfter.ExtractRetryAfterIso | mcp-acme/orchestrator.py:40-49 | no match gives `None`; a result is the ISO form of the leftmost match, whose date and time exist; conversely the leftmost match gives its ISO form when its date and time exist, and `None` when they do not |
| RetryAfter.Pad2 | mcp-acme/orchestrator.py:47 | two digits that read back as the number |
| RetryAfter.Pad4 | mcp-acme/orchestrator.py:47 | four digits that read back as the number |
| RetryAfter.YearText | mcp-acme/orchestrator.py:47 | a four-digit year renders as its padded form |
| RetryAfter.MessageRead | mcp-acme/orchestrator.py:41 | the pattern reads back the stamp of a printed `retry after` message |
| RetryAfter.ExtractFromMessage | mcp-acme/orchestrator.py:40-47 | a printed valid stamp comes back as its ISO text, whatever precedes it (as long as no match starts earlier) and whatever follows it |
| RetryAfter.FirstMessageDecides | mcp-acme/orchestrator.py:44-49 | an impossible first date or time gives `None`, whatever precedes or follows it |
| RetryAfter.IsoLayout | mcp-acme/orchestrator.py:47 | the ISO text is `YYYY-MM-DDTHH:MM:SSZ`, with each field the stamp's value |
| RetryAfter.NoPhraseNoIso | mcp-acme/orchestrator.py:41-43 | without `retry after` in any case there is no time |
| BigIp.Spans | mcp-acme/adapters/bigip.py:56-68 | every span lies within `[offset, total]` |
| BigIp.SpansEnds | mcp-acme/adapters/bigip.py:56-58 | the spans are empty iff nothing is left; otherwise they start at the offset and end at the total |
| BigIp.SpansSized | mcp-acme/adapters/bigip.py:58 | every span is non-empty and at most one chunk long |
| BigIp.SpansContiguous | mcp-acme/adapters/bigip.py:58-68 | each span ends where the next starts, and all but the last are full chunks |
| BigIp.SpansOrdered | mcp-acme/adapters/bigip.py:56-68 | the spans are strictly increasing |
| BigIp.SpansCover | mcp-acme/adapters/bigip.py:56-68 | every byte lies in some span |
| BigIp.ChunksRebuild | mcp-acme/adapters/bigip.py:57-59 | concatenating the chunks gives back the content |
| BigIp.ContentRangeRoundTrip | mcp-acme/adapters/bigip.py:62 | `start-end/total` parses back to the first byte, the inclusive last byte and the total |
| BigIp.PostHeaders | mcp-acme/adapters/bigip.py:58-64 | each post carries a non-empty chunk of at most one chunk size, cut from the content at its span; its range header parses back to the span's first and inclusive last byte and the total, and its length header to the chunk's length |
| BigIp.PostChunks | mcp-acme/adapters/bigip.py:56-68 | the loop's posts are the upload's first posts, all but the last accepted; it stops at the first refused post, and otherwise has posted every chunk |
| BigIp.UploadOctets | mcp-acme/adapters/bigip.py:43-70 | empty content fails before any post; the posts are a prefix of the upload's chunks with all but the last accepted; success iff every chunk was accepted, returning the downloads path; otherwise the rejecting status |
| BigIp.RecordMapKeys | mcp-acme/adapters/bigip.py:171 | a name is in the record map iff some record has it |
| BigIp.SortedDistinct | mcp-acme/adapters/bigip.py:178 | sorted records have distinct names |
| BigIp.InsertSorted | mcp-acme/adapters/bigip.py:178 | inserting a new name keeps the records sorted |
| BigIp.InsertMap | mcp-acme/adapters/bigip.py:178 | inserting a new name adds exactly that entry to the map |
| BigIp.SortRecords | mcp-acme/adapters/bigip.py:178 | the records are sorted by name and hold exactly the map |
| BigIp.MergeTokens | mcp-acme/adapters/bigip.py:172-176 | the loop's map is the device map overridden by the tokens; it changed iff some token was missing or different |
| BigIp.DropTokens | mcp-acme/adapters/bigip.py:185-189 | the loop's map lacks exactly the listed tokens; it changed iff a listed token was present |
| BigIp.UnchangedMerge | mcp-acme/adapters/bigip.py:172-177 | when nothing changed, the merged map is the device map, so skipping the write loses nothing |
| BigIp.UpsertIdempotent | mcp-acme/adapters/bigip.py:169-180 | a second upsert of the same tokens finds nothing to change, so it does not write |
| BigIp.DeleteAfterUpsert | mcp-acme/adapters/bigip.py:182-193 | deleting upserted tokens removes them; deleting absent tokens keeps the map |
| BigIp.DataGroup.EnsureStringDg | mcp-acme/adapters/bigip.py:152-160 | the data group exists afterwards, with its records untouched |
| BigIp.DataGroup.WriteSorted | mcp-acme/adapters/bigip.py:178-179 | one write stores the map as records sorted by name |
| BigIp.DataGroup.Upsert | mcp-acme/adapters/bigip.py:169-180 | the contents become the old contents overridden by the tokens; the count is the number of tokens; one sorted write iff something changed, otherwise no write |
| BigIp.DataGroup.Delete | mcp-acme/adapters/bigip.py:182-193 | the contents lose exactly the listed tokens; the count is the list's length; one sorted write iff a listed token was present |
| BigIp.DgPath | mcp-acme/adapters/bigip.py:149-150 | the path is under the internal data-group collection and ends in `~<name>`; the segment between is the partition stripped of `/` |
| BigIp.FullPath | mcp-acme/adapters/bigip.py:96 | the path starts with `/` and ends in `/<name>`; the segment between is the partition stripped of `/` |
| BigIp.ProfileRestPath | mcp-acme/adapters/bigip.py:97 | the REST path is under the client-ssl collection, and the profile part holds no `/` |
| BigIp.EnsureClientsslProfile | mcp-acme/adapters/bigip.py:91-106 | success iff the lookup succeeded, or was a 404 and the create request succeeded, returning `/<partition>/<name>`; created iff 404 and the create succeeded; a failure carries the create's status after a 404 and the lookup's otherwise |
| BigIp.PartitionSpellings | mcp-acme/adapters/bigip.py:150 | `Common`, `/Common`, `Common/` and `/Common/` give the same data-group and object paths |
| BigIp.AttachProfileAsWritten | mcp-acme/adapters/bigip.py:116 | an absolute profile is kept; a relative one starts with `/` iff the partition as given does |
| BigIp.AttachProfile | mcp-acme/adapters/bigip.py:116 | the resolved profile is a full path starting with `/` |
| BigIp.Attach | mcp-acme/adapters/bigip.py:116-124 | (corrected; see Findings) the request goes to the profile's REST path; an absolute profile is kept and a relative one is the full path under the partition; key, certificate and chain are full paths under the partition |
| BigIp.AttachTargetsEnsured | mcp-acme/adapters/bigip.py:108-124 | with the corrected attach, the attach targets the profile the ensure returned; key, certificate and chain sit in that profile's folder under their own names |
| BigIp.AttachAsWrittenMissesProfile | mcp-acme/adapters/bigip.py:116-117 | as written, a partition without a leading `/` gives a REST path other than the profile's |
| Vault.NormalizeKv2 | mcp-acme/adapters/vault.py:5-20 | the leaf is a suffix of the trimmed path |
| Vault.CutPrefixes | mcp-acme/adapters/vault.py:15-19 | only a prefix is cut |
| Vault.NormalizeKv2Cuts | mcp-acme/adapters/vault.py:13-20 | the trimmed path is an optional `v1/`, then an optional `secret/data/`, then the leaf |
| Vault.TrimmedHasNoLeadingSlash | mcp-acme/adapters/vault.py:13 | the trimmed path does not start with `/` |
| Vault.CutBoth | mcp-acme/adapters/vault.py:15-19 | `v1/secret/data/<leaf>` gives the leaf |
| Vault.CutOneV1 | mcp-acme/adapters/vault.py:15-16 | only one `v1/` is removed |
| Vault.NotIdempotent | mcp-acme/adapters/vault.py:15-19 | `secret/data/v1/<leaf>` normalises to `v1/<leaf>`, which normalises again to the leaf |
| Vault.DocumentedShapes | mcp-acme/adapters/vault.py:6-12 | the four documented spellings all give the leaf |
| Vault.NormalizeKv2DocExamples | mcp-acme/adapters/vault.py:7-11 | the docstring's four examples |
| Vault.SecretUrl | mcp-acme/adapters/vault.py:47-48 | the URL is the base, `/v1/secret/data/` and the leaf |
| Vault.SameSecretIffSameLeaf | mcp-acme/adapters/vault.py:58-59 | two paths reach the same URL iff they normalise to the same leaf |

## Left out

- The `acme.sh` runs, their polling, and `_wait_for_challenge_files_or_proc` are left out. What a run reports (token files, exit code, output) is the `Wait` parameter of the step functions.
- The token watcher thread `_auto_publish_tokens_from_webroot` and `_wait_public_token` are left out, because they are concurrency and timing.
- `_collect_http01_challenges` is left out, because it reads the file system.
- HTTP transport is left out. The lookup and create of a client-ssl profile and the upload's chunk posts take their response status as a parameter. The other requests are taken to succeed, as the next lines say.
- BigIp.DataGroup.EnsureStringDg: the create request sent after a 404 is taken to succeed. In the source a failing create raises.
- BigIp.DataGroup.Upsert: the read and the write of the records are taken to succeed. In the source a failing one raises, and the device keeps its records.
- BigIp.DataGroup.Delete: the read and the write of the records are taken to succeed. In the source a failing one raises, and the device keeps its records.
- BigIp.Attach: the PATCH is taken to succeed, so the tmsh fallback it triggers on failure is not reached in the model.
- A data-group lookup failure other than 404 in `ensure_string_dg` is left out. The data group is present or absent.
- The inventory, session and template SQL stores are left out. They are maps, or parameters.
- `server.py` is left out.
- `_parse_dates` and `_to_iso` are left out, because they call `openssl` and parse dates.
- The private-key file handling is left out.
- `uuid4` is left out. The session id is a parameter with `requires sid !in sessions`. The certificate id is a parameter.
- `time.sleep` is left out.
- `request_certificate` and `renew_certificate` are modelled up to the command they build and the step each run's report leads to. The flow that chains the steps, then installs, stores and records the certificate, is left out.
- `revoke_certificate`, `finalize_order`, `get_bundle` and `list_certificates` are left out, because they are I/O only.
- `upload_and_install`, `_install_key` and `_install_cert` are left out, because they are REST calls only.
- `attach_profile_to_virtual` is left out, because it is a REST call only.
- The tmsh fallback command of `attach_to_clientssl` is left out, because it is text sent to the device.
- The commit's tmsh deletion of a virtual server's client-ssl profiles is modelled only by whether it raises. The command text it sends is left out.
- BigIp.UploadOctets: does not model the URL quoting of the upload name. It requires a positive chunk size, because the source loops forever on a size of zero or less.
- BigIp.UploadOctets: the chunk size is the caller's argument. The adapter always uses its 1 MiB default.
- Guided.SessionStore.Commit: the certificate step and the deploy are one `CommitWorld` input, not calls into the orchestrator model. The input's `CertOutcome` is not derived from the `Acme` step functions.
- Acme.DeployAttachesReported: holds for a relative profile name only. With an absolute name, such as a full path listed by the virtual-server probe, `deploy_to_bigip` reports and ensures `/<partition>/` followed by the absolute name, while the attach keeps the name. `Acme.DeployAbsoluteNameDiffers` states this; the model keeps the source's behaviour and does not correct it.
- JSON numbers are integers only. Floats are left out. The guided API only tests a number's truthiness, blankness and type, and an integer captures all three.
- Python dict iteration order is left out. Maps are unordered. The data group's records are written sorted, as the source sorts them.
- Text.Lower: only ASCII letters are lowered. `str.lower()` also lowers other Unicode letters. The result is only compared with ASCII words, and the only non-ASCII characters Python lowers to ASCII are U+212A (to `k`) and U+0130 (to `i` and U+0307), which cannot make any of them.
- RetryAfter.IsoLayout: covers four-digit years only. For years below 1000, `strftime("%Y")` output depends on the platform. The model renders such a year without padding, as glibc does.
- Guided.Validate: an exception other than the two `HTTPException`s is a single internal fault, not a Python traceback. Examples are a non-string mode that is truthy, or a non-list `domains`.
- Vault.NormalizeKv2: a `None` path (`path or ""`) is the empty string. Vault's read and write requests are left out.

## Findings

| source | as written | input that shows it | evidently intended | confidence | as-written member | corrected member |
|---|---|---|---|---|---|---|
| mcp-acme/adapters/bigip.py:116 | a relative profile is joined as `partition + "/" + profile`, with the partition neither stripped of `/` nor given a leading `/`. `ensure_clientssl_profile` (line 96) and the key, certificate and chain paths (lines 119-122) use `/<partition.strip('/')>/`. | `deploy_to_bigip` with partition `Common` and profile `clientssl_x`: the profile is created as `/Common/clientssl_x`, but the PATCH goes to `.../client-ssl/Common~clientssl_x` instead of `~Common~clientssl_x` | the attach resolves a relative profile to `/<partition stripped>/<profile>`, the profile that was ensured and reported | medium, not executed | BigIp.AttachProfileAsWritten, BigIp.AttachAsWrittenMissesProfile | BigIp.AttachProfile, BigIp.AttachTargetsEnsured, Acme.DeployAttachesReported |
