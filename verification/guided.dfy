/** The guided issue/renew flow of `mcp-acme/guided_api.py`: slot
    normalisation, the requirement resolver, the validation of a slot set,
    template defaults, and the session store that `/guided/start`,
    `/guided/answer` and `/guided/commit` update. */
module Guided {
  import opened Wrappers
  import opened Text
  import opened Json

  // ---------------------------------------------------------------------
  // _normalize_slots
  // ---------------------------------------------------------------------

  /** A string slot value is trimmed; every other value is kept as it is. */
  function NormalizedValue(v: Value): Value {
    if v.Str? then Str(Strip(v.s)) else v
  }

  /** `[d.strip() for d in parts if d.strip()]`. */
  function TrimmedNonEmpty(parts: seq<string>): seq<string>
  {
    if parts == [] then []
    else
      var d := Strip(parts[0]);
      (if d == "" then [] else [d]) + TrimmedNonEmpty(parts[1..])
  }

  /** The domain list a comma-separated string stands for. */
  function DomainParts(s: string): seq<string> {
    TrimmedNonEmpty(Split(s, ','))
  }

  function StrList(ds: seq<string>): seq<Value>
  {
    seq(|ds|, i requires 0 <= i < |ds| => Str(ds[i]))
  }

  /** The slots with every string value trimmed. */
  function Trimmed(slots: Slots): (r: Slots)
    ensures r.Keys == slots.Keys
  {
    map k | k in slots :: NormalizedValue(slots[k])
  }

  /** `_normalize_slots`: a copy of the slots with every string trimmed and
      a string `domains` replaced by its comma-separated parts. */
  function Normalized(slots: Slots): (r: Slots)
    ensures r.Keys == slots.Keys
  {
    map k | k in slots :: NormalizedSlot(k, slots[k])
  }

  function NormalizedSlot(k: string, v: Value): Value {
    if k == "domains" && v.Str? then List(StrList(DomainParts(Strip(v.s)))) else NormalizedValue(v)
  }

  /** What `_normalize_slots` does to each slot: strings are trimmed, a
      string `domains` becomes the list of its parts, and nothing else
      changes. */
  lemma NormalizedValues(slots: Slots)
    ensures forall k :: k in slots && !slots[k].Str? ==> Normalized(slots)[k] == slots[k]
    ensures forall k :: k in slots && slots[k].Str? && k != "domains" ==>
              Normalized(slots)[k] == Str(Strip(slots[k].s))
    ensures "domains" in slots && slots["domains"].Str? ==>
              Normalized(slots)["domains"] == List(StrList(DomainParts(Strip(slots["domains"].s))))
  {
  }

  /** Every part of a normalised domain string is non-empty, trimmed and
      free of commas. */
  lemma DomainPartsShape(s: string)
    ensures forall d :: d in DomainParts(s) ==> d != "" && Strip(d) == d && ',' !in d
  {
    TrimmedNonEmptyShape(Split(s, ','));
  }

  lemma {:induction false} TrimmedNonEmptyShape(parts: seq<string>)
    requires forall p :: p in parts ==> ',' !in p
    ensures forall d :: d in TrimmedNonEmpty(parts) ==> d != "" && Strip(d) == d && ',' !in d
  {
    if parts != [] {
      TrimmedNonEmptyShape(parts[1..]);
      var d := Strip(parts[0]);
      StripIdempotent(parts[0]);
      if ',' in d {
        StripKeepsChars(parts[0], ',');
      }
      assert TrimmedNonEmpty(parts) == (if d == "" then [] else [d]) + TrimmedNonEmpty(parts[1..]);
    }
  }

  /** Normalising is idempotent: a second pass changes nothing. */
  lemma NormalizedIdempotent(slots: Slots)
    ensures Normalized(Normalized(slots)) == Normalized(slots)
  {
    var once := Normalized(slots);
    var twice := Normalized(once);
    NormalizedValues(slots);
    NormalizedValues(once);
    forall k | k in once ensures twice[k] == once[k] {
      if slots[k].Str? && k != "domains" {
        StripIdempotent(slots[k].s);
      }
    }
  }

  /** The loop of `_normalize_slots` over the copied dict, which trims every
      string value in place. */
  method TrimStrings(slots: Slots) returns (s: Slots)
    ensures s == Trimmed(slots)
  {
    s := slots;
    var todo := slots.Keys;
    while todo != {}
      invariant todo <= slots.Keys && s.Keys == slots.Keys
      invariant forall k :: k in slots && k !in todo ==> s[k] == NormalizedValue(slots[k])
      invariant forall k :: k in todo ==> s[k] == slots[k]
      decreases todo
    {
      var k :| k in todo;
      if s[k].Str? {
        s := s[k := Str(Strip(s[k].s))];
      }
      todo := todo - {k};
    }
  }

  /** `_normalize_slots`: the trimming loop, then the split of a string
      `domains`; proved to compute `Normalized`. */
  method NormalizeSlots(slots: Slots) returns (s: Slots)
    ensures s == Normalized(slots)
  {
    s := TrimStrings(slots);
    if "domains" in s && s["domains"].Str? {
      s := s["domains" := List(StrList(DomainParts(s["domains"].s)))];
    }
    forall k | k in slots ensures s[k] == NormalizedSlot(k, slots[k]) {
    }
  }

  // ---------------------------------------------------------------------
  // _first_missing
  // ---------------------------------------------------------------------

  /** The slots every session needs, in the order they are asked. */
  const CoreHttp01: seq<string> :=
    ["mode", "domains", "bigip_host", "bigip_partition", "clientssl_profile",
     "virtual_server", "key_secret_path"]

  /** The issue-mode list; it names `mode` twice, as the source does. */
  const IssueRequired: seq<string> :=
    ["mode", "domains", "provider", "contact_emails", "key_type", "challenge_type"] + CoreHttp01

  /** `(slots.get("mode") or "").lower()` can be evaluated: it raises on a
      truthy value that is not a string. */
  predicate ModeReadable(slots: Slots) {
    var m := Get(slots, "mode");
    !Truthy(m) || m.Str?
  }

  /** `(slots.get("mode") or "").lower()`. */
  function ModeText(slots: Slots): string
    requires ModeReadable(slots)
  {
    var m := Get(slots, "mode");
    if Truthy(m) then Lower(m.s) else ""
  }

  predicate IsRenew(slots: Slots)
    requires ModeReadable(slots)
  {
    ModeText(slots) == "renew"
  }

  /** The mode-specific list the resolver walks. */
  function Required(slots: Slots): seq<string>
    requires ModeReadable(slots)
  {
    if IsRenew(slots) then CoreHttp01 else IssueRequired
  }

  /** Whether the resolver reports slot `q`: any falsy value, except that an
      absent or `""` client-ssl profile is skipped (it means "generate one")
      while `None`, `[]`, `{}`, `0` or `False` there is still reported. */
  predicate Missing(slots: Slots, q: string) {
    if q == "clientssl_profile" then q in slots && slots[q] != Str("") && !Truthy(slots[q])
    else !Truthy(Get(slots, q))
  }

  /** The scan of `_first_missing` from position `i` of `qs`: the index of
      the first slot reported, or `|qs|` when none is. */
  function ScanFrom(slots: Slots, qs: seq<string>, i: nat): (k: nat)
    requires i <= |qs|
    ensures i <= k <= |qs|
    ensures forall j :: i <= j < k ==> !Missing(slots, qs[j])
    ensures k < |qs| ==> Missing(slots, qs[k])
    decreases |qs| - i
  {
    if i == |qs| then i
    else if qs[i] == "clientssl_profile" && (qs[i] !in slots || slots[qs[i]] == Str("")) then
      ScanFrom(slots, qs, i + 1)
    else if !Truthy(Get(slots, qs[i])) then i
    else ScanFrom(slots, qs, i + 1)
  }

  /** `_first_missing`: the first slot of the mode's list still to be asked. */
  function FirstMissing(slots: Slots): (r: Option<string>)
    requires ModeReadable(slots)
    ensures r.Some? ==> r.value in Required(slots) && Missing(slots, r.value)
    ensures r.None? <==> forall q :: q in Required(slots) ==> !Missing(slots, q)
  {
    var qs := Required(slots);
    var k := ScanFrom(slots, qs, 0);
    if k < |qs| then Some(qs[k]) else None
  }

  /** The slot reported is the first of the list that is missing. */
  lemma FirstMissingIsFirst(slots: Slots)
    requires ModeReadable(slots) && FirstMissing(slots).Some?
    ensures exists k :: 0 <= k < |Required(slots)| && Required(slots)[k] == FirstMissing(slots).value
                        && forall j :: 0 <= j < k ==> !Missing(slots, Required(slots)[j])
  {
    var k := ScanFrom(slots, Required(slots), 0);
    assert Required(slots)[k] == FirstMissing(slots).value;
  }

  /** In renew mode the issue-only questions are never asked. */
  lemma RenewNeverAsksIssueOnly(slots: Slots)
    requires ModeReadable(slots) && IsRenew(slots)
    ensures FirstMissing(slots) !in
      {Some("provider"), Some("contact_emails"), Some("key_type"), Some("challenge_type")}
  {
  }

  /** The EAB secret is never asked, in either mode. */
  lemma NeverAsksEab(slots: Slots)
    requires ModeReadable(slots)
    ensures FirstMissing(slots) != Some("eab_secret")
  {
    assert "eab_secret" !in IssueRequired;
  }

  /** Nor is the directory URL, even for a custom provider. */
  lemma NeverAsksDirectoryUrl(slots: Slots)
    requires ModeReadable(slots)
    ensures FirstMissing(slots) != Some("directory_url")
  {
    assert "directory_url" !in IssueRequired;
  }

  /** No session is complete while its domains are unanswered. */
  lemma DomainsGateCompletion(slots: Slots)
    requires ModeReadable(slots) && !Truthy(Get(slots, "domains"))
    ensures FirstMissing(slots).Some?
  {
    assert "domains" in Required(slots);
  }

  /** A left-out or empty client-ssl profile does not hold a session back,
      a `None` one does. */
  lemma ClientsslProfileException(slots: Slots)
    requires ModeReadable(slots)
    ensures Get(slots, "clientssl_profile") in {Null, Str("")} && "clientssl_profile" !in slots
            ==> FirstMissing(slots) != Some("clientssl_profile")
    ensures Get(slots, "clientssl_profile") == Str("")
            ==> FirstMissing(slots) != Some("clientssl_profile")
    ensures "clientssl_profile" in slots && slots["clientssl_profile"] == Null
            ==> FirstMissing(slots).Some?
  {
    assert "clientssl_profile" in Required(slots);
  }

  // ---------------------------------------------------------------------
  // _validate_now_or_raise
  // ---------------------------------------------------------------------

  datatype Reason =
    | WildcardDomain
    | InvalidDomain(domain: Value)
    | CustomNeedsDirectoryUrl
    | MissingField(field: string)
    | VirtualServerNotFound(virtualServer: Value)
    | TemplateNotFound
    | SessionNotFound
    | NoCertToRenew

  /** How a request fails: an `HTTPException(400)` or `(404)`, or an
      exception the handler does not catch (a server error). */
  datatype Fault =
    | BadRequest(reason: Reason)
    | NotFound(reason: Reason)
    | Internal(crash: Crash)

  /** The uncaught exceptions the handlers can raise. */
  datatype Crash =
    | DomainsNotIterable    // `for d in <number, bool or None>`
    | ModeNotText           // `.lower()` on a truthy non-string mode
    | NoFirstDomain         // `slots["domains"][0]` on an object or empty value
    | CertStepFailed        // any other error of the certificate step
    | ReplaceFailed         // the profile-delete call before the certificate step
    | DeployFailed          // any error of the deploy step

  datatype Check = Pass | Fail(fault: Fault)

  /** What `for d in slots.get("domains", [])` iterates over: a string's
      characters, a list's items, an object's keys; anything else raises. */
  function DomainItems(slots: Slots): Option<seq<Value>> {
    var v := if "domains" in slots then slots["domains"] else List([]);
    match v
    case Str(s) => Some(seq(|s|, i requires 0 <= i < |s| => Str([s[i]])))
    case List(xs) => Some(xs)
    case Obj(fs) => Some(seq(|fs|, i requires 0 <= i < |fs| => Str(fs[i].0)))
    case _ => None
  }

  predicate IsWildcard(d: Value) {
    d.Str? && "*." <= d.s
  }

  predicate HostChar(c: char) {
    'A' <= c <= 'Z' || 'a' <= c <= 'z' || '0' <= c <= '9' || c == '.' || c == '-'
  }

  predicate Letter(c: char) {
    'A' <= c <= 'Z' || 'a' <= c <= 'z'
  }

  /** `[A-Za-z0-9.-]+\.[A-Za-z]{2,}` covering all of `d`: a non-empty host
      part, a dot, and at least two letters. */
  predicate FqdnBody(d: string) {
    exists i | 1 <= i < |d| - 2 ::
      && d[i] == '.'
      && (forall j | 0 <= j < i :: HostChar(d[j]))
      && (forall j | i < j < |d| :: Letter(d[j]))
  }

  /** `re.match(r"^...$", d)`: Python's `$` also matches just before a final
      newline. */
  predicate FqdnMatch(d: string) {
    FqdnBody(d) || (|d| > 0 && d[|d| - 1] == '\n' && FqdnBody(d[..|d| - 1]))
  }

  predicate ValidDomain(d: Value) {
    d.Str? && FqdnMatch(d.s)
  }

  /** Index of the first domain that is not a string matching the pattern. */
  function FirstInvalid(ds: seq<Value>, i: nat): (k: nat)
    requires i <= |ds|
    ensures i <= k <= |ds|
    ensures forall j :: i <= j < k ==> ValidDomain(ds[j])
    ensures k < |ds| ==> !ValidDomain(ds[k])
    decreases |ds| - i
  {
    if i == |ds| then i
    else if !ds[i].Str? || !FqdnMatch(ds[i].s) then i
    else FirstInvalid(ds, i + 1)
  }

  /** The slot set `_validate_now_or_raise` lets through. */
  predicate Acceptable(slots: Slots) {
    && DomainItems(slots).Some?
    && (forall d :: d in DomainItems(slots).value ==> ValidDomain(d))
    && ModeReadable(slots)
    && (!IsRenew(slots) && Get(slots, "provider") == Str("custom") ==> Truthy(Get(slots, "directory_url")))
  }

  /** A string the pattern covers starts with a host character. */
  lemma FqdnBodyHead(d: string)
    ensures FqdnBody(d) ==> |d| > 0 && HostChar(d[0])
  {
    if FqdnBody(d) {
      var i :| 1 <= i < |d| - 2 && d[i] == '.' && (forall j | 0 <= j < i :: HostChar(d[j]))
               && (forall j | i < j < |d| :: Letter(d[j]));
      assert HostChar(d[0]);
    }
  }

  /** A wildcard never matches the domain pattern, since `*` is not a host
      character; the wildcard test only decides which message is given. */
  lemma WildcardIsInvalid(d: Value)
    requires IsWildcard(d)
    ensures !ValidDomain(d)
  {
    assert d.s[0] == '*' && |d.s| >= 2;
    FqdnBodyHead(d.s);
    var t := d.s[..|d.s| - 1];
    assert t[0] == '*';
    FqdnBodyHead(t);
  }

  /** Index of the first wildcard domain, or `|ds|`. */
  function FirstWildcard(ds: seq<Value>, i: nat): (k: nat)
    requires i <= |ds|
    ensures i <= k <= |ds|
    ensures forall j :: i <= j < k ==> !IsWildcard(ds[j])
    ensures k < |ds| ==> IsWildcard(ds[k])
    decreases |ds| - i
  {
    if i == |ds| then i
    else if ds[i].Str? && "*." <= ds[i].s then i
    else FirstWildcard(ds, i + 1)
  }

  /** `_validate_now_or_raise`: wildcards first, then the domain pattern,
      then (outside renew mode) a custom provider's directory URL. It only
      reads the slots. */
  function Validate(slots: Slots): (c: Check)
    ensures c == Pass <==> Acceptable(slots)
  {
    match DomainItems(slots)
    case None => Fail(Internal(DomainsNotIterable))
    case Some(ds) =>
      var w := FirstWildcard(ds, 0);
      if w < |ds| then WildcardIsInvalid(ds[w]); Fail(BadRequest(WildcardDomain))
      else
        var k := FirstInvalid(ds, 0);
        if k < |ds| then Fail(BadRequest(InvalidDomain(ds[k])))
        else if !ModeReadable(slots) then Fail(Internal(ModeNotText))
        else if !IsRenew(slots) && Get(slots, "provider") == Str("custom") && !Truthy(Get(slots, "directory_url")) then
          Fail(BadRequest(CustomNeedsDirectoryUrl))
        else Pass
  }

  /** Any wildcard domain gets the wildcard message, and only then. */
  lemma ValidateWildcard(slots: Slots)
    ensures Validate(slots) == Fail(BadRequest(WildcardDomain)) <==>
              DomainItems(slots).Some? && exists d :: d in DomainItems(slots).value && IsWildcard(d)
  {
    if DomainItems(slots).Some? {
      var ds := DomainItems(slots).value;
      var w := FirstWildcard(ds, 0);
      if w < |ds| {
        assert ds[w] in ds;
      }
    }
  }

  /** An invalid-domain rejection names one of the domains, one that does
      not match the pattern. */
  lemma ValidateNamesInvalidDomain(slots: Slots)
    requires Validate(slots).Fail? && Validate(slots).fault.BadRequest?
    requires Validate(slots).fault.reason.InvalidDomain?
    ensures DomainItems(slots).Some?
    ensures Validate(slots).fault.reason.domain in DomainItems(slots).value
    ensures !ValidDomain(Validate(slots).fault.reason.domain)
  {
  }

  /** The pattern check accepts a domain followed by one newline. */
  lemma FqdnAcceptsTrailingNewline()
    ensures ValidDomain(Str("example.com\n"))
    ensures !FqdnBody("example.com\n")
  {
    var d := "example.com";
    assert d[7] == '.';
    assert FqdnBody(d);
    assert ("example.com\n")[..11] == d;
  }

  // ---------------------------------------------------------------------
  // Template defaults (guided_start)
  // ---------------------------------------------------------------------

  /** Template columns that are bookkeeping, never slot defaults. */
  const TemplateMeta: set<string> := {"template_id", "name", "created_at", "updated_at"}

  /** The template may fill slot `k`: it has a value for it, `k` is not
      bookkeeping, and the slot is absent or blank. */
  predicate Fills(slots: Slots, t: Slots, k: string) {
    k in t && k !in TemplateMeta && Blank(Get(slots, k))
  }

  /** The slots once a template's defaults are applied. */
  function WithTemplate(slots: Slots, t: Slots): (r: Slots)
    ensures r.Keys == slots.Keys + (t.Keys - TemplateMeta)
  {
    map k | k in slots.Keys + (t.Keys - TemplateMeta) :: if Fills(slots, t, k) then t[k] else slots[k]
  }

  /** Template values land exactly in the slots they may fill. */
  lemma WithTemplateValues(slots: Slots, t: Slots)
    ensures forall k :: Fills(slots, t, k) ==> WithTemplate(slots, t)[k] == t[k]
    ensures forall k :: k in slots && !Fills(slots, t, k) ==> WithTemplate(slots, t)[k] == slots[k]
  {
  }

  /** A slot holding a truthy value, `False` or `0` keeps it: templates only
      replace `None`, `""`, `[]` and `{}`. */
  lemma TemplateKeepsAnswers(slots: Slots, t: Slots, k: string)
    requires k in slots && !Blank(slots[k])
    ensures WithTemplate(slots, t)[k] == slots[k]
  {
  }

  /** The loop of `guided_start` over the template's columns. */
  method ApplyTemplate(slots: Slots, t: Slots) returns (r: Slots)
    ensures r == WithTemplate(slots, t)
  {
    r := slots;
    var todo := t.Keys;
    while todo != {}
      invariant todo <= t.Keys
      invariant r.Keys == slots.Keys + (t.Keys - todo - TemplateMeta) - (TemplateMeta - slots.Keys)
      invariant forall k :: k in todo ==> Get(r, k) == Get(slots, k)
      invariant forall k :: k in slots && !(k !in todo && Fills(slots, t, k)) ==> r[k] == slots[k]
      invariant forall k :: k !in todo && Fills(slots, t, k) ==> k in r && r[k] == t[k]
      decreases todo
    {
      var k :| k in todo;
      if k !in TemplateMeta && Blank(Get(r, k)) {
        r := r[k := t[k]];
      }
      todo := todo - {k};
    }
    var w := WithTemplate(slots, t);
    WithTemplateValues(slots, t);
    assert r.Keys == w.Keys;
  }

  // ---------------------------------------------------------------------
  // Session store (guided_start / guided_answer / guided_commit)
  // ---------------------------------------------------------------------

  datatype Mode = Issue | Renew

  function ModeName(m: Mode): string {
    match m
    case Issue => "issue"
    case Renew => "renew"
  }

  lemma LowerModeName(m: Mode)
    ensures Lower(ModeName(m)) == ModeName(m)
  {
    var n := ModeName(m);
    assert forall i :: 0 <= i < |n| ==> LowerChar(n[i]) == n[i];
  }

  datatype Status = Collecting | Ready | Done

  /** `"collecting" if pending else "ready"`. */
  function StatusFor(pending: Option<string>): (st: Status)
    ensures st == Collecting <==> pending.Some?
    ensures st != Done
  {
    if pending.Some? then Collecting else Ready
  }

  /** One row of the session store. `mode` is the mode the session was
      started with; the `mode` slot may later be answered differently. */
  datatype Session = Session(mode: string, slots: Slots, pending: Option<string>, status: Status)

  /** One entry of a virtual server's profile list: its `context` and
      `fullPath` (an absent field reads as `""`). */
  datatype ProfileRef = ProfileRef(context: string, fullPath: string)

  predicate ClientSsl(p: ProfileRef) {
    p.context == "clientside" && Contains(p.fullPath, "client-ssl")
  }

  /** The client-side client-ssl profiles of a virtual server, in order. */
  function ClientSslPaths(items: seq<ProfileRef>): (ps: seq<string>)
    ensures forall p :: p in ps ==> Contains(p, "client-ssl")
    ensures forall i :: 0 <= i < |items| && ClientSsl(items[i]) ==> items[i].fullPath in ps
    ensures |ps| <= |items|
  {
    if items == [] then []
    else ClientSslPaths(items[..|items| - 1]) +
         (if ClientSsl(items[|items| - 1]) then [items[|items| - 1].fullPath] else [])
  }

  /** The `profs.append` loop over `profilesReference.items`. */
  method CollectClientSsl(items: seq<ProfileRef>) returns (ps: seq<string>)
    ensures ps == ClientSslPaths(items)
  {
    ps := [];
    var i := 0;
    while i < |items|
      invariant 0 <= i <= |items|
      invariant ps == ClientSslPaths(items[..i])
    {
      assert items[..i + 1][..i] == items[..i];
      if ClientSsl(items[i]) {
        ps := ps + [items[i].fullPath];
      }
      i := i + 1;
    }
    assert items[..i] == items;
  }

  /** The `virtual_server_check` an answer may carry. */
  datatype VsCheck = VsCheck(found: bool, clientsslProfiles: seq<string>)

  /** An answer to `virtual_server` is checked against BIG-IP when a host
      and a virtual server are both known. */
  predicate ProbeWanted(q: string, slots: Slots) {
    q == "virtual_server" && Truthy(Get(slots, "bigip_host")) && Truthy(Get(slots, "virtual_server"))
  }

  /** The `virtual_server_check` of an answer: absent unless probing is
      wanted; found, with the client-ssl profiles, when the path is a string
      and the lookup answered; not found otherwise (the lookup raised, or
      the path has no `replace`). */
  predicate ProbeAgrees(q: string, slots: Slots, vsProfiles: Option<seq<ProfileRef>>, c: Option<VsCheck>) {
    && (c.Some? <==> ProbeWanted(q, slots))
    && (c.Some? && c.value.found ==>
          Get(slots, "virtual_server").Str? && vsProfiles.Some?
          && c.value.clientsslProfiles == ClientSslPaths(vsProfiles.value))
    && (c.Some? && !c.value.found ==>
          c.value.clientsslProfiles == [] && (!Get(slots, "virtual_server").Str? || vsProfiles.None?))
  }

  /** The probe `guided_answer` runs after storing an answer. */
  method ProbeVirtualServer(q: string, slots: Slots, vsProfiles: Option<seq<ProfileRef>>) returns (c: Option<VsCheck>)
    ensures ProbeAgrees(q, slots, vsProfiles, c)
  {
    c := None;
    if q == "virtual_server" && Truthy(Get(slots, "bigip_host")) && Truthy(Get(slots, "virtual_server")) {
      if slots["virtual_server"].Str? && vsProfiles.Some? {
        var profs := CollectClientSsl(vsProfiles.value);
        c := Some(VsCheck(true, profs));
      } else {
        c := Some(VsCheck(false, []));
      }
    }
  }

  /** What the handlers return when they do not raise. `EabRequired` is the
      400 reply and `RateLimited` the 429 reply of a commit. */
  datatype Reply =
    | Started(sessionId: string, nextQuestion: Option<string>, slots: Slots)
    | Answered(sessionId: string, nextQuestion: Option<string>, slots: Slots, vsCheck: Option<VsCheck>)
    | Committed(certId: Value)
    | EabRequired(directoryUrl: Option<string>, fieldsNeeded: seq<string>)
    | RateLimited(retryAfter: Option<string>, directoryUrl: Option<string>)

  /** The HTTP status of a handler's outcome: the EAB reply is a 400 and the
      rate-limit reply a 429 although both are returned, not raised; a
      refusal is its `HTTPException`'s code, and an uncaught exception is a
      server error. */
  function HttpStatus(r: Result<Reply, Fault>): (code: int)
    ensures code == 200 <==> r.Success? && !r.value.EabRequired? && !r.value.RateLimited?
    ensures code == 400 <==> (r.Success? && r.value.EabRequired?) || (r.Failure? && r.error.BadRequest?)
    ensures code == 404 <==> r.Failure? && r.error.NotFound?
    ensures code == 429 <==> r.Success? && r.value.RateLimited?
    ensures code == 500 <==> r.Failure? && r.error.Internal?
  {
    match r
    case Success(EabRequired(_, _)) => 400
    case Success(RateLimited(_, _)) => 429
    case Success(_) => 200
    case Failure(BadRequest(_)) => 400
    case Failure(NotFound(_)) => 404
    case Failure(Internal(_)) => 500
  }

  const RateLimitHead := "ACME provider rate limit reached for this exact domain set."

  /** The message of the 429 reply, built from its `retryAfter`: a retry
      time that is present and not empty (so truthy) is named at the end;
      otherwise the reader is told to try later. */
  function RateLimitMessage(retryAfter: Option<string>): (m: string)
    ensures StartsWith(m, RateLimitHead)
    ensures retryAfter.Some? && retryAfter.value != "" ==>
              Contains(m, retryAfter.value) && IsSuffix(retryAfter.value + ".", m)
    ensures retryAfter.None? || retryAfter.value == "" ==> m == RateLimitHead + " Please try again later."
  {
    if retryAfter.Some? && retryAfter.value != "" then
      var t := retryAfter.value;
      var m := RateLimitHead + " You can try again after " + t + ".";
      assert OccursAt(m, t, |RateLimitHead| + 25);
      assert m == (RateLimitHead + " You can try again after ") + (t + ".");
      m
    else RateLimitHead + " Please try again later."
  }

  /** How the certificate step of a commit ended: the orchestrator returned
      (with a `cert_id` on the issue path), raised the EAB or the rate-limit
      error, or raised anything else. */
  datatype CertOutcome =
    | Obtained(certId: string)
    | EabNeeded(directoryUrl: Option<string>)
    | RateLimit(retryIso: Option<string>, directoryUrl: Option<string>)
    | Crashed

  /** What the systems a commit talks to answer: the virtual server's
      profiles (`None` when the lookup raises), whether the call deleting
      its client-ssl profiles raises, the inventory's first hit for the
      renew lookup, the certificate step, and whether the deploy raised. */
  datatype CommitWorld = CommitWorld(
    vsProfiles: Option<seq<ProfileRef>>,
    deleteFails: bool,
    inventoryHit: Option<string>,
    cert: CertOutcome,
    deployFails: bool)

  /** `slots["domains"][0]`, which raises for anything but a non-empty list
      or string. */
  function FirstDomain(slots: Slots): Option<Value> {
    if "domains" !in slots then None
    else match slots["domains"]
      case List(xs) => if xs != [] then Some(xs[0]) else None
      case Str(s) => if s != "" then Some(Str([s[0]])) else None
      case _ => None
  }

  /** Whether a commit takes the issue path: `mode.lower() == "issue"`;
      every other mode text renews. */
  predicate CommitIssues(slots: Slots)
    requires ModeReadable(slots)
  {
    ModeText(slots) == "issue"
  }

  /** The renew path reads `domains[0]` and asks the inventory only when the
      slots carry no truthy `cert_id`. */
  predicate LooksUpCert(slots: Slots)
    requires ModeReadable(slots)
  {
    !CommitIssues(slots) && !Truthy(Get(slots, "cert_id"))
  }

  /** A truthy `virtual_server` that is not a string, or whose lookup
      raises, is refused as not found. */
  predicate VirtualServerUnknown(s: Slots, w: CommitWorld) {
    var vs := Get(s, "virtual_server");
    Truthy(vs) && (!vs.Str? || w.vsProfiles.None?)
  }

  /** With `replace_existing_clientssl` set, a known virtual server that has
      client-side client-ssl profiles gets them deleted by a call that is
      not guarded: when it raises, the commit is a server error. */
  predicate ReplaceCrashes(s: Slots, replaceExisting: bool, w: CommitWorld) {
    && Truthy(Get(s, "virtual_server")) && !VirtualServerUnknown(s, w)
    && replaceExisting && ClientSslPaths(w.vsProfiles.value) != [] && w.deleteFails
  }

  /** The commit gets past the refusals that come before the virtual
      server's profiles are touched: a readable mode, no missing slot, a
      passing validation and a known (or absent) virtual server. */
  predicate PassesRefusals(s: Slots, w: CommitWorld) {
    ModeReadable(s) && FirstMissing(s).None? && Validate(s) == Pass && !VirtualServerUnknown(s, w)
  }

  /** The slots and the world let a commit reach the certificate step:
      nothing is missing or invalid, the virtual server (if any) is known
      and its profiles (if asked) deleted, `domains[0]` exists where the
      path reads it before that step, and a renew without `cert_id` finds
      one in the inventory. */
  predicate ReachesCertStep(s: Slots, replaceExisting: bool, w: CommitWorld)
    requires ModeReadable(s)
  {
    && FirstMissing(s).None? && Validate(s) == Pass
    && !VirtualServerUnknown(s, w) && !ReplaceCrashes(s, replaceExisting, w)
    && ((CommitIssues(s) || LooksUpCert(s)) ==> FirstDomain(s).Some?)
    && (LooksUpCert(s) ==> w.inventoryHit.Some?)
  }

  /** What `guided_commit` answers for the normalised slots of a session
      and its `replace_existing_clientssl` flag: a missing slot, a failed
      validation and an unknown virtual server are refused in that order
      before anything else; the certificate step may end in the EAB or
      rate-limit reply; then `domains[0]` is read and the deploy runs. */
  function CommitDecision(s: Slots, replaceExisting: bool, w: CommitWorld): (r: Result<Reply, Fault>)
    ensures !ModeReadable(s) ==> r == Failure(Internal(ModeNotText))
    ensures ModeReadable(s) && FirstMissing(s).Some? ==> r == Failure(BadRequest(MissingField(FirstMissing(s).value)))
    ensures ModeReadable(s) && FirstMissing(s).None? && Validate(s).Fail? ==> r == Failure(Validate(s).fault)
    ensures r == Failure(BadRequest(VirtualServerNotFound(Get(s, "virtual_server")))) <==>
              ModeReadable(s) && FirstMissing(s).None? && Validate(s) == Pass && VirtualServerUnknown(s, w)
    ensures r == Failure(Internal(ReplaceFailed)) <==> PassesRefusals(s, w) && ReplaceCrashes(s, replaceExisting, w)
    ensures r == Failure(Internal(NoFirstDomain)) <==>
              && PassesRefusals(s, w) && !ReplaceCrashes(s, replaceExisting, w) && FirstDomain(s).None?
              && (CommitIssues(s) || LooksUpCert(s) || w.cert.Obtained?)
    ensures r == Failure(NotFound(NoCertToRenew)) <==>
              && PassesRefusals(s, w) && !ReplaceCrashes(s, replaceExisting, w)
              && LooksUpCert(s) && FirstDomain(s).Some? && w.inventoryHit.None?
    ensures r.Success? ==> ModeReadable(s) && ReachesCertStep(s, replaceExisting, w)
    ensures r.Success? ==> r.value.Committed? || r.value.EabRequired? || r.value.RateLimited?
    ensures r.Success? && r.value.Committed? ==> w.cert.Obtained? && !w.deployFails && FirstDomain(s).Some?
    ensures ModeReadable(s) && ReachesCertStep(s, replaceExisting, w) ==>
              && (w.cert.EabNeeded? ==> r == Success(EabRequired(w.cert.directoryUrl, ["eab_secret"])))
              && (w.cert.RateLimit? ==> r == Success(RateLimited(w.cert.retryIso, w.cert.directoryUrl)))
              && (w.cert.Crashed? ==> r == Failure(Internal(CertStepFailed)))
              && (w.cert.Obtained? && FirstDomain(s).Some? && !w.deployFails ==> r.Success? && r.value.Committed?)
              && (w.cert.Obtained? && FirstDomain(s).None? ==> r == Failure(Internal(NoFirstDomain)))
              && (w.cert.Obtained? && FirstDomain(s).Some? && w.deployFails ==> r == Failure(Internal(DeployFailed)))
    ensures r.Success? && r.value.Committed? ==>
              && (CommitIssues(s) ==> r.value.certId == Str(w.cert.certId))
              && (LooksUpCert(s) ==> r.value.certId == Str(w.inventoryHit.value))
              && (!CommitIssues(s) && !LooksUpCert(s) ==> r.value.certId == Get(s, "cert_id"))
  {
    if !ModeReadable(s) then Failure(Internal(ModeNotText))
    else var missing := FirstMissing(s);
    if missing.Some? then Failure(BadRequest(MissingField(missing.value)))
    else if Validate(s).Fail? then Failure(Validate(s).fault)
    else if VirtualServerUnknown(s, w) then Failure(BadRequest(VirtualServerNotFound(Get(s, "virtual_server"))))
    else if ReplaceCrashes(s, replaceExisting, w) then Failure(Internal(ReplaceFailed))
    else if (CommitIssues(s) || LooksUpCert(s)) && FirstDomain(s).None? then Failure(Internal(NoFirstDomain))
    else if LooksUpCert(s) && w.inventoryHit.None? then Failure(NotFound(NoCertToRenew))
    else match w.cert
      case EabNeeded(dir) => Success(EabRequired(dir, ["eab_secret"]))
      case RateLimit(retry, dir) => Success(RateLimited(retry, dir))
      case Crashed => Failure(Internal(CertStepFailed))
      case Obtained(id) =>
        if FirstDomain(s).None? then Failure(Internal(NoFirstDomain))
        else if w.deployFails then Failure(Internal(DeployFailed))
        else
          var certId := if CommitIssues(s) then Str(id)
                        else if LooksUpCert(s) then Str(w.inventoryHit.value)
                        else Get(s, "cert_id");
          Success(Committed(certId))
  }

  /** A commit answers 200 only when it obtained a certificate and deployed
      it; the EAB and rate-limit replies are never a 200. */
  lemma CommitOkMeansDeployed(s: Slots, replaceExisting: bool, w: CommitWorld)
    requires HttpStatus(CommitDecision(s, replaceExisting, w)) == 200
    ensures CommitDecision(s, replaceExisting, w).Success?
    ensures CommitDecision(s, replaceExisting, w).value.Committed?
    ensures w.cert.Obtained? && !w.deployFails && FirstDomain(s).Some?
  {
  }

  /** A commit with a slot missing is refused the same way whatever the
      outside systems would have answered: no external step runs first. */
  lemma CommitRefusedBeforeExternals(s: Slots, replaceExisting: bool, w1: CommitWorld, w2: CommitWorld)
    requires ModeReadable(s) && FirstMissing(s).Some?
    ensures CommitDecision(s, replaceExisting, w1) == CommitDecision(s, replaceExisting, w2)
  {
  }

  /** A renew commit that needs the inventory and finds nothing is a 404,
      and the certificate step never decides it. */
  lemma RenewWithoutCertIsNotFound(s: Slots, replaceExisting: bool, w: CommitWorld)
    requires ModeReadable(s) && FirstMissing(s).None? && Validate(s) == Pass
    requires !VirtualServerUnknown(s, w) && !ReplaceCrashes(s, replaceExisting, w)
    requires LooksUpCert(s) && FirstDomain(s).Some? && w.inventoryHit.None?
    ensures CommitDecision(s, replaceExisting, w) == Failure(NotFound(NoCertToRenew))
  {
  }

  /** A rate-limited commit answers 429 with a message naming the retry
      time the provider gave, when it gave one. */
  lemma RateLimitReplyNamesRetry(s: Slots, replaceExisting: bool, w: CommitWorld, t: string)
    requires ModeReadable(s) && ReachesCertStep(s, replaceExisting, w)
    requires w.cert.RateLimit? && w.cert.retryIso == Some(t) && t != ""
    ensures HttpStatus(CommitDecision(s, replaceExisting, w)) == 429
    ensures Contains(RateLimitMessage(CommitDecision(s, replaceExisting, w).value.retryAfter), t)
  {
  }

  /** The slots `guided_start` stores: the normalised request slots, the
      template's defaults, and the requested mode. */
  function StartSlots(mode: Mode, initial: Slots, template: Option<Slots>): (r: Slots)
    ensures "mode" in r && r["mode"] == Str(ModeName(mode))
    ensures ModeReadable(r) && IsRenew(r) == (mode == Renew)
  {
    LowerModeName(mode);
    var s := Normalized(initial);
    var s := if template.Some? then WithTemplate(s, template.value) else s;
    s["mode" := Str(ModeName(mode))]
  }

  /** The slots `guided_answer` validates and stores: the normalised stored
      slots with exactly one slot replaced by the raw answer. */
  function AnsweredSlots(stored: Slots, q: string, v: Value): (r: Slots)
    ensures r.Keys == stored.Keys + {q} && r[q] == v
  {
    Normalized(stored)[q := v]
  }

  /** An answer replaces exactly its own slot of the normalised slots. */
  lemma AnswerReplacesOneSlot(stored: Slots, q: string, v: Value)
    ensures forall k :: k in stored && k != q ==> AnsweredSlots(stored, q, v)[k] == Normalized(stored)[k]
  {
  }

  /** Normalising keeps a readable mode readable. */
  lemma NormalizedModeReadable(slots: Slots)
    requires ModeReadable(slots)
    ensures ModeReadable(Normalized(slots))
  {
    NormalizedValues(slots);
  }

  /** A stored session agrees with its slots: they validate, the pending
      question is the resolver's answer, and the status follows from it
      unless the session was committed. */
  predicate WellFormed(s: Session) {
    && ModeReadable(s.slots)
    && Validate(s.slots) == Pass
    && s.pending == FirstMissing(s.slots)
    && (s.status == StatusFor(s.pending) || (s.status == Done && s.pending.None?))
  }

  /** The session and template tables, as maps keyed by id and by name. */
  class SessionStore {
    var sessions: map<string, Session>
    var templates: map<string, Slots>

    predicate Valid()
      reads this
    {
      forall sid {:trigger WellFormed(sessions[sid])} :: sid in sessions ==> WellFormed(sessions[sid])
    }

    constructor(templates: map<string, Slots>)
      ensures Valid() && sessions == map[] && this.templates == templates
    {
      sessions := map[];
      this.templates := templates;
    }

    /** `guided_start`. `sid` stands for the fresh id `uuid4` yields. */
    method Start(mode: Mode, templateName: string, initial: Slots, sid: string) returns (r: Result<Reply, Fault>)
      requires Valid() && sid !in sessions
      modifies this
      ensures Valid() && templates == old(templates)
      ensures r == Failure(NotFound(TemplateNotFound)) <==> templateName != "" && templateName !in templates
      ensures r.Failure? ==> sessions == old(sessions)
      ensures r.Failure? && !(templateName != "" && templateName !in templates) ==>
                var s := StartSlots(mode, initial, if templateName != "" then Some(templates[templateName]) else None);
                Validate(s).Fail? && r == Failure(Validate(s).fault)
      ensures r.Success? ==>
                var s := StartSlots(mode, initial, if templateName != "" then Some(templates[templateName]) else None);
                var pending := FirstMissing(s);
                && Validate(s) == Pass
                && r.value == Started(sid, pending, s)
                && sessions == old(sessions)[sid := Session(ModeName(mode), s, pending, StatusFor(pending))]
    {
      var s := NormalizeSlots(initial);
      if templateName != "" {
        if templateName !in templates {
          return Failure(NotFound(TemplateNotFound));
        }
        s := ApplyTemplate(s, templates[templateName]);
      }
      s := s["mode" := Str(ModeName(mode))];
      var check := Validate(s);
      if check.Fail? {
        assert check.fault != NotFound(TemplateNotFound);
        return Failure(check.fault);
      }
      var pending := FirstMissing(s);
      sessions := sessions[sid := Session(ModeName(mode), s, pending, StatusFor(pending))];
      r := Success(Started(sid, pending, s));
    }

    /** `guided_answer`. `vsProfiles` is what looking the virtual server up
        returns (`None` when that raises); it is read only when the answer is
        the virtual server and a host is known. */
    method Answer(sid: string, q: string, v: Value, vsProfiles: Option<seq<ProfileRef>>) returns (r: Result<Reply, Fault>)
      requires Valid()
      modifies this
      ensures Valid() && templates == old(templates)
      ensures sid !in old(sessions) ==> r == Failure(NotFound(SessionNotFound)) && sessions == old(sessions)
      ensures r.Failure? ==> sessions == old(sessions)
      ensures sid in old(sessions) ==>
                var s := AnsweredSlots(old(sessions)[sid].slots, q, v);
                && (r.Success? <==> Validate(s) == Pass)
                && (r.Failure? ==> r.error == Validate(s).fault)
                && (r.Success? ==>
                      var pending := FirstMissing(s);
                      && r.value.Answered? && r.value.sessionId == sid
                      && r.value.nextQuestion == pending && r.value.slots == s
                      && sessions == old(sessions)[sid := old(sessions)[sid].(slots := s, pending := pending, status := StatusFor(pending))])
      ensures r.Success? ==> r.value.Answered? && ProbeAgrees(q, r.value.slots, vsProfiles, r.value.vsCheck)
    {
      if sid !in sessions {
        return Failure(NotFound(SessionNotFound));
      }
      var s := NormalizeSlots(sessions[sid].slots);
      s := s[q := v];
      var check := Validate(s);
      if check.Fail? {
        return Failure(check.fault);
      }
      var vsCheck := ProbeVirtualServer(q, s, vsProfiles);
      var pending := FirstMissing(s);
      sessions := sessions[sid := sessions[sid].(slots := s, pending := pending, status := StatusFor(pending))];
      r := Success(Answered(sid, pending, s, vsCheck));
    }

    /** `guided_commit`: the decision is `CommitDecision` on the normalised
        slots; only a successful commit changes the store. */
    method Commit(sid: string, replaceExisting: bool, world: CommitWorld) returns (r: Result<Reply, Fault>)
      requires Valid()
      modifies this
      ensures Valid() && templates == old(templates)
      ensures sid !in old(sessions) ==> r == Failure(NotFound(SessionNotFound)) && sessions == old(sessions)
      ensures sid in old(sessions) ==>
                var s := Normalized(old(sessions)[sid].slots);
                && r == CommitDecision(s, replaceExisting, world)
                && (r.Success? && r.value.Committed? ==>
                      sessions == old(sessions)[sid := old(sessions)[sid].(slots := s, pending := None, status := Done)])
                && (!(r.Success? && r.value.Committed?) ==> sessions == old(sessions))
    {
      if sid !in sessions {
        return Failure(NotFound(SessionNotFound));
      }
      var s := NormalizeSlots(sessions[sid].slots);
      r := CommitDecision(s, replaceExisting, world);
      if r.Success? && r.value.Committed? {
        sessions := sessions[sid := sessions[sid].(slots := s, pending := None, status := Done)];
      }
    }
  }
}
