# Dkron UI session authentication, modelled in Dafny

This project models the web dashboard guard of the Dkron agent (`dkron/ui.go`):
a stateless signed-cookie session scheme. A successful login sets the cookie
`dkron_ui_session` to `user:expiry:signature`, where the signature is a keyed
MAC (HMAC-SHA256 in base64) over `user + ":" + expiry`. On every dashboard
request the session gate splits the cookie on `:`, parses the expiry, checks
the clock and recomputes the signature; nothing is stored on the server.
Logout only overwrites the cookie. Behind the gate, the dashboard route
counts jobs by last status and names the cluster leader.

Modules, one per concern:

- `Wrappers` (`wrappers.dfy`): `Option` and `Result`.
- `Fields` (`fields.dfy`): Go's `strings.Split` on one separator, with `Join` as its inverse.
- `Decimal` (`decimal.dfy`): `%d` formatting of integers and `strconv.ParseInt(s, 10, 64)`.
- `Session` (`session.dfy`): the signed message, the cookie value and its parser, the gate.
- `Handlers` (`handlers.dfy`): configuration, login, logout, and where the gate is installed.
- `Dashboard` (`dashboard.dfy`): job counts by status, the leader name, page selection.

Modelling decisions:

- The MAC and its base64 text form one function `Signer = (secret, message) -> string`.
  It is a parameter of everything that signs. Two assumptions about it are
  predicates and are required only where they are needed:
  - `ColonFree`: no signature holds `:`. Base64's standard alphabet is letters, digits, `+`, `/` and `=`.
  - `Injective`: under one secret, distinct messages get distinct signatures.

  `Session.SignerAssumptionsSatisfiable` shows a signer meeting both exists.
- The clock is a parameter `now` in nanoseconds since the epoch. Go's
  `Time.Unix` is `UnixSeconds(now) = now / 1e9`, rounded toward the past.
  The configured lifetime is a `time.Duration` in nanoseconds. So the issued
  expiry is `UnixSeconds(now + ttl)`, and the cookie's MaxAge is `ttl / 1e9`.
- `ParseInt` accepts an optional `+` or `-`, then one or more decimal digits.
  The value must be in the int64 range; `-9223372036854775808` is accepted.
  Base 10 admits no underscores. A syntax error and a range error are both `None`,
  because the gate only asks whether there was an error.
- The signature is recomputed from the parsed integer, not from the cookie's
  text. So a second spelling of the expiry (`+123`, `0123`) is accepted when
  its value is right. `Session.NonCanonicalExpiryAccepted` states this.
- Strings are `seq<char>`; the handlers compare them with plain equality, as the code does.
- `Injective` idealises the MAC. A real HMAC has fixed-length output, so it is
  only collision-resistant. The results that need it say so in their `requires`.

Behaviours of the code that one might not expect:

- One might expect any change to the expiry text to invalidate a session. The
  gate compares the parsed value, so `+123` or `0123` in place of `123` still
  passes (`Session.NonCanonicalExpiryAccepted`, `Decimal.ParseIntSpellings`).
- One might expect the cookie's MaxAge to be the remaining lifetime. The code
  sets the whole configured lifetime in seconds, which equals it only at issue time.
- One might expect a failing job store to give zero counts. The code counts
  whatever slice the store returned and only logs the error; `Dashboard.IndexVars`
  takes that slice as given.
- The login handler answers 404 when sessions are disabled, but the code only
  registers the login route when UI auth and UI sessions are both enabled, so
  that branch is dead in the running program. The handler is modelled as written.

## Model

| member | source | states |
|---|---|---|
| Fields.Split | dkron/ui.go:119-120 | a value with k colons splits into exactly k+1 fields, none holding a colon |
| Fields.JoinSplit | dkron/ui.go:119 | joining the fields with colons gives back the cookie value: the split loses nothing |
| Fields.SplitJoin | dkron/ui.go:119 | colon-free fields joined with colons split back into the same fields |
| Fields.SplitAround | dkron/ui.go:119 | a colon between two strings puts their fields end to end |
| Fields.SplitConcat | dkron/ui.go:119 | a colon-free prefix followed by a colon becomes the first field, the rest splits on its own |
| Decimal.NatDigits | dkron/ui.go:144 | `%d` of a natural is canonical digit text whose value is that natural |
| Decimal.FormatInt | dkron/ui.go:144 | `%d` text is canonical (no plus sign, no superfluous zero, no "-0") and never holds a colon |
| Decimal.ParseInt | dkron/ui.go:124 | a parsed expiry lies in the int64 range; a lone sign or text with a non-digit after the optional sign is refused |
| Decimal.ParseIntSpellings | dkron/ui.go:124 | ParseInt(s) is Some(v) iff v is an int64 and s is an optional sign (`+` only for v >= 0, `-` only for v <= 0), any number of zeros, then the shortest digits of v |
| Decimal.SpellingExamples | dkron/ui.go:124 | `+0123` and `00123` parse to 123, `-007` to -7, `-0` to 0; a lone `+`, a lone `-` and the empty text are refused |
| Decimal.ParseFormat | dkron/ui.go:124 | parsing the `%d` text of an integer gives it back exactly when it fits an int64, and fails otherwise |
| Decimal.FormatIntInjective | dkron/ui.go:144 | distinct expiries have distinct `%d` texts |
| Decimal.CanonicalDigitsUnique | dkron/ui.go:144 | every canonical digit string is the `%d` text of its own value |
| Decimal.ParseCanonical | dkron/ui.go:124 | text without plus sign, superfluous zero or "-0" that parses is the `%d` text of its value |
| Decimal.PlusSignAccepted | dkron/ui.go:124 | a leading `+` is a second spelling that parses to the same non-negative value |
| Decimal.LeadingZeroAccepted | dkron/ui.go:124 | a leading zero is a second spelling that parses to the same non-negative value |
| Session.SignerAssumptionsSatisfiable | dkron/ui.go:143-148 | some signer is both colon-free and injective, so the results that assume both are not vacuous |
| Session.SessionMessage | dkron/ui.go:144 | the signed message splits into the user's fields followed by the `%d` text of the expiry as the last field |
| Session.SignSession | dkron/ui.go:143-148 | the signature holds no colon for a colon-free signer, and for an injective signer no other user and expiry share it |
| Session.SessionMessageInjective | dkron/ui.go:144 | the signed message determines user and expiry, even for a user holding colons |
| Session.Serialize | dkron/ui.go:174 | the cookie value has the user's colons, the signature's colons and exactly two more |
| Session.ParseCookie | dkron/ui.go:119-124 | an accepted value has exactly two colons, colon-free user and signature, and an int64 expiry |
| Session.ParseCookieShape | dkron/ui.go:119-124 | every accepted value is `user:text:signature` with colon-free text that parses to the expiry |
| Session.ParseCookieFields | dkron/ui.go:119-124 | three colon-free fields are read as user, parsed expiry and signature, and refused exactly when the middle one does not parse |
| Session.SplitFields3 | dkron/ui.go:119-120 | three colon-free fields joined by colons split into exactly those three fields |
| Session.SerializeRoundTrip | dkron/ui.go:174 | the login cookie value reads back as the same session iff user and signature are colon-free and the expiry fits an int64 |
| Session.ColonInFieldUnreadable | dkron/ui.go:119-120 | a user or signature holding a colon yields more than three fields, so the value is never read |
| Session.TokenValid | dkron/ui.go:125-127 | a valid session was valid at every earlier instant; a correctly signed session once invalid stays invalid at every later instant |
| Session.Gate | dkron/ui.go:115-141 | a request without the cookie is challenged; a forwarded one carried a value with exactly two colons |
| Session.GateForwardsIff | dkron/ui.go:118-131 | the gate forwards iff a cookie is present, splits into 3 fields, the middle parses, the clock is not past it and the third field is the signature recomputed from the parsed value |
| Session.ExpiredSessionRejected | dkron/ui.go:125 | a correctly signed session past its expiry is challenged, whatever the signer |
| Session.WrongSignatureRejected | dkron/ui.go:126-127 | well-formed fields with any other than the recomputed signature are challenged, whatever the clock |
| Session.ForgedFieldsRejected | dkron/ui.go:126-127 | reusing one session's signature with another user or expiry is challenged, for an injective signer |
| Session.NonCanonicalExpiryAccepted | dkron/ui.go:124-127 | a value that spells the expiry with a plus sign differs from the issued one and is still forwarded |
| Handlers.EffectiveTtl | dkron/ui.go:168-171 | the session lifetime is the configured one when that is positive, and exactly one hour otherwise |
| Handlers.IssuedExpiry | dkron/ui.go:172 | the expiry is the clock's second plus the lifetime's whole seconds, plus at most one for the carried sub-second parts, exactly the sum when both are whole seconds |
| Handlers.Login | dkron/ui.go:150-177 | malformed body gives 400; otherwise sessions off gives 404; otherwise a credential mismatch gives 401; only success gives 200, a cookie and the JSON body |
| Handlers.LoginIssuesSession | dkron/ui.go:168-176 | on success the cookie holds the user, the expiry one lifetime after the clock (within a second) and their signature; MaxAge is the lifetime in seconds, 3600 by default |
| Handlers.LoginThenGate | dkron/ui.go:172-174 | a login cookie for a colon-free user opens the gate exactly until its expiry |
| Handlers.ColonUserLocksOut | dkron/ui.go:164-174 | a configured user with a colon logs in successfully but its cookie never opens the gate |
| Handlers.DefaultLifetimeScenario | dkron/ui.go:168-172 | with no lifetime configured, a login at t0 passes the gate at t0+3599 and not at t0+3601 |
| Handlers.Logout | dkron/ui.go:179-182 | logout always answers 200 with the JSON body and sets the HttpOnly session cookie on path / to the empty value with MaxAge -1 |
| Handlers.LogoutThenChallenged | dkron/ui.go:179-180 | after logout a request is challenged like one that never logged in, whether or not the emptied cookie is sent |
| Handlers.UiAccess | dkron/ui.go:46-49 | without both UI auth and UI sessions enabled every dashboard request goes through; with both enabled the decision is the session gate's |
| Dashboard.Step | dkron/ui.go:84-92 | one job moves at most one counter by one, and only the counter for its own status |
| Dashboard.Count | dkron/ui.go:81-92 | the counters equal the number of jobs with status "success", "failed" and "", and their sum is at most the number of jobs |
| Dashboard.OtherStatusCountsNowhere | dkron/ui.go:84-92 | a job with any other status leaves every counter unchanged |
| Dashboard.LeaderName | dkron/ui.go:93-99 | a failed leader lookup gives "no leader", otherwise the member's name |
| Dashboard.IndexVars | dkron/ui.go:100-110 | the index page gets the job total, the three status counts (sum at most the total), the leader's name or "no leader", and the ACL, UI auth and UI session flags |
| Dashboard.TrimSlash | dkron/ui.go:71 | one leading slash is removed when there is one; otherwise the path is unchanged |
| Dashboard.ResolvePage | dkron/ui.go:69-75 | a bundled file is served iff it exists and the path is not "/" or "/index.html"; otherwise the index is rendered with the current counts |

## Left out

- HMAC-SHA256 and base64: the foreign crypto library. They are one `Signer` parameter with the two assumptions above.
- gin routing and content negotiation: the root redirect (`dkron/ui.go:28-35`) and route registration (`dkron/ui.go:37-45`). The framework decides these.
- JSON binding of the login body: modelled as the bound `Option<Credentials>`.
- How the cookie reaches the gate: header parsing and `http.SetCookie`'s value sanitising belong to `net/http`. The model assumes the value arrives as written. (Go drops bytes such as `;`, `"` or non-ASCII from cookie values, so a username holding them would also never pass.)
- The embedded asset file system, template parsing and `logger.Fatal` paths (`dkron/ui.go:51-67`) are I/O. Asset existence is a parameter of `ResolvePage`.
- The literal HTML and script of the login page and of the challenge page, including the HTML-escaped target URI: static markup. The model keeps only the 401 challenge outcome.
- The `DKRON_API_URL` template variable: `apiPathPrefix` is defined outside this file.
- `Store.GetJobs` and `leaderMember`: external sources, passed in as the job list and a `Result`. Their errors are only logged; the job list is whatever the store returned.
- Handlers.LoginIssuesSession: MaxAge is `ttl / 1e9`. Go converts through the float64 `ttl.Seconds()` and truncates. From 2^24 seconds (about 194 days) on, a lifetime whose sub-second part is close enough to a whole second rounds up, so MaxAge is one more than `ttl / 1e9` (365 days + 999999999 ns gives 31536001).
- Handlers.Login: the expiry is not clamped to the int64 range the way Go's `time` saturates. No real clock reaches that range. `Handlers.LoginThenGate` requires the expiry to fit an int64.
- Timing side channels: the code compares signatures with plain equality, and so does the model.
