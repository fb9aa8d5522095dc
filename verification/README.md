# Verified model of pje_headless

A Dafny model of the parts of `pje_headless` whose guarantees have to hold over unbounded runs
or inputs, with proofs of those guarantees. `dafny verify dfyconfig.toml` checks all of it.

- **Login service** (`login_cache.dfy`, `login_protocol.dfy`). The classes `LoginManager` and
  `Inflight` have the fields and the two critical sections of the Go structures; each method is
  proved equal to a function on values (`EntryOf`, `AfterEntry`, `AfterLogin`). `LoginProtocol`
  runs any number of `GetBearer` calls over these functions, one critical section, wake-up,
  cancellation or return at a time, in any interleaving. Proved of every reachable state: one
  login and one listener at a time, no lost waiter, what the cache holds, where every reply comes
  from, how soon the next login can begin, and how many a window of time can see.
- **Bearer capture** (`bearer_capture.dfy`). The class `Capture` joins the URL events and the
  header events; its token is proved to be a function of the event sequence alone. About that
  function: earliest match, stability, duplicates, and the exact condition under which the order
  of the events does not matter.
- **Token signer** (`pkcs11_trace.dfy`, `pkcs11_signer.dfy`). The PKCS#11 module may answer
  anything to any call. Each call has a precondition over a ledger of what is owned, so that
  verifying the signer proves that it never uses or releases anything it does not own; the
  contracts of `Login`, `Sign` and `Available` describe their calls from first to last, on every
  error path too.
- **Encodings** (`bits.dfy`, `base_encoding.dfy`, `der.dfy`, `pki_path.dfy`, `totp.dfy`).
  Base64 and base32 (RFC 4648), definite-length DER (ITU-T X.690, sections 8.1.2, 8.1.3, 8.10 and
  10.1), the PKIPath text and its reader, and the one-time passwords (RFC 4226, RFC 6238), written
  from these standards. HMAC-SHA1 is a parameter of which only the 20-octet result is known.
- **Polling loop** (`page_url.dfy`, `login_polling.dfy`, `login_outcome.dfy`, `login_loop.dfy`). `awaitAuthenticated`, the enrolment of
  an authenticator and the 2FA prompt, against a page, a browser and a clock that answer
  arbitrarily. Every time a script acts on the page its
  effect is recorded with the answer that came back, if any did. Proved of every run: how often it
  acts and is confirmed, how long it goes on, and exactly when it fails with which error, succeeds,
  and does what, said in terms of what the page, the browser and the clock show.
- **Dual signer** (`dual_signer.dfy`). The choice of the first available backend, and the history
  of identity switches as a function of the subjects read under the lock.

`text.dfy`, `clock.dfy` and `wrappers.dfy` hold what the others share.

Where a comment, or what one might expect, and the code differ, the model follows the code,
shows an input and states exactly when the expectation holds:

- A forced `GetBearer` need not start a login: `LoginProtocol.ForcedCallAttaches`. One starts if
  and only if none is running: `StartsExactlyWhen`.
- A bearer handed out by a login may already be inside the margin: `StaleBearerIsReturned`. It is
  fresh if and only if its expiry, parsed or by default, lies more than the margin ahead:
  `FreshExactlyWhen`; with a margin of 300 seconds or more an opaque one never is.
- The cancellation of the winner fails those that wait with it: `WinnersErrorIsShared`. They get
  an error if and only if the login returned one: `ErrorExactlyWhen`.
- `PKIPathB64` does not wrap every extra certificate verbatim: an empty one comes out as the
  element `00 00`, `PkiPath.EmptyExtraIsWritten`. All come back if and only if none is empty: `PkiPath.RoundTrip`.
- A later URL under the same id replaces an earlier one, so the order of events can decide whether
  a token is captured: `BearerCapture.TwoUrlsDependOnOrder`. `OrderIndependence` and
  `TokenIndependence` say exactly when it does not.
- The polling loop does not look at the host of an address: `PageUrl.AcceptedOffThePortal` and
  `RefusedOnThePortal`. Its test tells the host if and only if the condition of
  `HostIsToldExactlyWhen` holds, and what follows the host has no say if and only if that of
  `FrontDecidesExactlyWhen` does.
- A form, a code or a click can reach the page more often than the flags allow, as an answer may be
  lost after the script has acted: `LoginPolling.LostAnswersRepeat` and `LostFormsRepeat`. The
  scripts repeat only after such an answer, `RunRepeatsOnlyWhenLost`, and `ReachesThePage` counts
  them; the flags bound what the page confirms, `RunIsBounded`.
- The identity switches need not form a chain: `DualSigner.EmptySubjectBreaksTheChain`. They do if
  and only if none was recorded after a switch to an empty subject: `ChainsExactlyWhen`.
- The remaining seconds that `TOTPNow` reports can leave 1..30: exactly at negative times that are
  no multiple of the step, such as one second before 1970: `Totp.WindowBefore1970`.

## Model

| member | source | states |
|---|---|---|
| LoginCache.LoginManager.constructor | internal/loginsvc/manager.go:47-63 | a new manager has an empty cache, no login, and a margin of 60 seconds unless a positive one is given |
| LoginCache.LoginManager.Enter | internal/loginsvc/manager.go:73-88 | the caller is served the cached pair if and only if it is unforced and the pair is a bearer before expiry minus margin, whether or not a login runs; otherwise it starts a login, now the current one, or gets the running one; the whole new state, and nothing else changes |
| LoginCache.LoginManager.StartFlight | internal/loginsvc/manager.go:84-88 | a fresh, unfinished login becomes the current one; all earlier ones stay as they were |
| LoginCache.LoginManager.Complete | internal/loginsvc/manager.go:92-106 | the flight is cleared and closed with the result of the login; the cache takes the pair on success and is untouched on failure; other logins stay |
| LoginCache.Inflight.Share | internal/loginsvc/manager.go:108-121 | winner and waiters of a finished login return the same triple, never marked as cached |
| LoginCache.LoginManager.Snapshot | internal/loginsvc/manager.go:130-144 | a bearer is reported if and only if one is cached with an expiry that is set and more than the margin ahead, which is when an unforced GetBearer would be served; the expiry is reported regardless |
| LoginCache.ZeroTimeIsYearOne | internal/loginsvc/manager.go:139-142 | the time that stands for an unset expiry is the beginning of the year 1, counted in days |
| LoginProtocol.StepKeepsInv | internal/loginsvc/manager.go:73-122 | every step of every caller keeps: only the newest login is open and is the current one, exactly one caller runs it, every waiter's login exists, every reply is what its source holds |
| LoginProtocol.ReachableInv | internal/loginsvc/manager.go:73-122 | that invariant in every reachable state of every interleaving |
| LoginProtocol.SingleFlight | internal/loginsvc/manager.go:84-108 | at most one loginFn runs, one runs exactly while `m.flight` is set, and the flight its winner will clear is that one |
| LoginProtocol.LoginsDoNotOverlap | internal/loginsvc/manager.go:84-108 | logins begun minus logins ended is the number running and never above one |
| LoginProtocol.PortIsBoundOnce | internal/browser/browser.go:119-124 | in every reachable state at most one call holds the fixed-port listener, and one that is about to listen finds nobody else holding it |
| LoginProtocol.NobodyIsStuck | internal/loginsvc/manager.go:111-121 | a caller that has not returned has a step of its own, unless its login still runs; then one winner exists and can finish with any result, after giving up its listener if it holds one; a cancelled waiter can always leave |
| LoginProtocol.WaiterIsServed | internal/loginsvc/manager.go:115-121 | once its login is over a waiter that wakes gets the winner's triple, whatever the other callers do before it wakes and before it returns |
| LoginProtocol.OthersKeep | internal/loginsvc/manager.go:104-121 | steps of other callers do not move a caller, and a finished login never changes |
| LoginProtocol.CacheIsLastInstalled | internal/loginsvc/manager.go:94-103 | over every run the cache is the pair of the last successful login, unaffected by failures and cancellations |
| LoginProtocol.ServedExactlyWhen | internal/loginsvc/manager.go:73-81 | in every run a caller that enters is served the pair installed last, as cached, if and only if it is unforced and that is a bearer with an expiry that is set and more than the margin ahead, whether or not a login runs and whatever became of earlier ones |
| LoginProtocol.ClosedWasEnded | internal/loginsvc/manager.go:92-106 | a finished login was finished by one action, which fixed its outcome, and was unfinished before it |
| LoginProtocol.EveryReply | internal/loginsvc/manager.go:73-122 | a reply is the pair installed last, at an unforced entry before expiry minus margin; or the caller's own cancellation; or the outcome of a login that was unfinished when the caller took the lock and ended later |
| LoginProtocol.QuietBetween | internal/loginsvc/manager.go:77-101 | from the end of a login to the start of the next the cache does not change |
| LoginProtocol.NextLoginIsDue | internal/loginsvc/manager.go:77-101 | after a login that returned a bearer, an unforced caller starts the next one only at a clock not before expiry minus margin (or with the zero time as expiry) |
| LoginProtocol.OpaqueTokenRate | internal/loginsvc/manager.go:11-18 | for a bearer without readable expiry that is the default time to live less the margin after the login ended, 240 seconds with the default margin |
| LoginProtocol.LoginsTakeTime | internal/loginsvc/manager.go:77-101 | over any stretch with unforced callers and bearers that last for d beyond the margin, n logins begin over a time of at least (n - 1) d |
| LoginProtocol.LoginsInWindow | internal/loginsvc/manager.go:77-101 | so a window of w on the clock sees at most w / d + 1 of them begin |
| LoginProtocol.StartsExactlyWhen | internal/loginsvc/manager.go:84-112 | a call bound to a login began it if and only if none was running when it took the lock, forced or not |
| LoginProtocol.ForcedCallAttaches | internal/loginsvc/manager.go:84-112 | a run in which a forced call starts nothing and waits for the login of another |
| LoginProtocol.FreshExactlyWhen | internal/loginsvc/manager.go:94-108 | in every run, the bearer a call got from a login was fresh when the login ended if and only if its parsed expiry lay more than the margin ahead or, with none parsed, the default time to live exceeds the margin |
| LoginProtocol.StaleBearerIsReturned | internal/loginsvc/manager.go:94-108 | a run in which a login hands its caller a bearer inside the margin |
| LoginProtocol.ErrorExactlyWhen | internal/loginsvc/manager.go:104-121 | in every run, a call that shared a login got an error if and only if the login returned one, and it is that one |
| LoginProtocol.RepliesWithTheResult | internal/loginsvc/manager.go:92-121 | in every run, a call that shared a login got the very bearer it returned, with the parsed expiry or else 300 seconds from its end, or its error |
| LoginProtocol.CancelledWaiterLeaves | internal/loginsvc/manager.go:115-118 | a waiter whose context is cancelled can leave with the error of its context, whatever the others do and although its login still runs |
| LoginProtocol.WinnersErrorIsShared | internal/loginsvc/manager.go:90-121 | a run in which the winner is cancelled and a waiter that is not gets the winner's error |
| BearerCapture.AuthHeaderValue | internal/browser/capture.go:97-112 | returns text that is not all white space under the name Authorization, each letter in either case, and "" exactly when there is none |
| BearerCapture.Capture.OnRequest | internal/browser/capture.go:44-49 | adds one URL event; afterwards the token is again the one the event sequence defines |
| BearerCapture.Capture.OnExtraInfo | internal/browser/capture.go:53-61 | adds one header event with a usable value if there is one; afterwards the token is the one the event sequence defines |
| BearerCapture.Capture.TryMatchLocked | internal/browser/capture.go:66-82 | after an event is buffered, brings the token up to the event sequence |
| BearerCapture.Capture.Bearer | internal/browser/capture.go:86-93 | reports the token of the event sequence, or that there is none |
| BearerCapture.CapturedIsEarliest | internal/browser/capture.go:63-82 | the token is that of the earliest event at which its request has a marked latest URL and a latest usable header; empty exactly when there is no such event |
| BearerCapture.TokenMeans | internal/browser/capture.go:66-82 | a request has a token if and only if the last URL reported for it contains the API path and there is a usable header, and it is the last such header, trimmed |
| BearerCapture.MarkedMeans | internal/browser/capture.go:75-77 | a URL is marked if and only if the API path is somewhere in it |
| BearerCapture.FoldingSpells | internal/browser/capture.go:99 | folding accepts exactly the thirteen letters of Authorization, each in either case |
| BearerCapture.CapturedIsStable | internal/browser/capture.go:67-69 | once set the token never changes |
| BearerCapture.DuplicateChangesNothing | internal/browser/capture.go:44-82 | an event delivered twice in a row, anywhere, changes nothing |
| BearerCapture.CapturedComesFrom | internal/browser/capture.go:66-82 | a token is the trimmed header of a request that also had a marked URL |
| BearerCapture.CapturedIsTrimmed | internal/browser/capture.go:78-81 | a token is what a header of the trace has between its blank margins, and neither begins nor ends with a blank |
| Text.SpacesAreWhiteSpace | internal/browser/capture.go:106 | trimming takes the 25 characters with the property White_Space |
| BearerCapture.MustMatchIsCaptured | internal/browser/capture.go:66-82 | a request with a marked URL, a usable header and no other URL is enough for a token, in whatever order its events come |
| BearerCapture.OrderIndependence | internal/browser/capture.go:18-28 | whether a token is captured is the same in every order of the events if and only if no request can match or some request has only marked URLs and a usable header |
| BearerCapture.TokenIndependence | internal/browser/capture.go:63-82 | the token itself is the same in every order if and only if capture is, and all usable headers of requests that can match trim to one value |
| BearerCapture.ShowingOrder | internal/browser/capture.go:63-82 | every usable header of a request that can match is the token in some order |
| BearerCapture.OnePerRequestIsOrderIndependent | internal/browser/capture.go:18-28 | with one URL and one usable header per request, capture is the same in every order, and so is the token when one request matches |
| BearerCapture.TwoUrlsDependOnOrder | internal/browser/capture.go:47 | two URLs under one id: the same three events capture a token in one order and none in another |
| Pkcs11Trace.Conservation | internal/signer/pkcs11.go:92-103 | in every accepted call sequence, contexts created minus destroyed, initialised minus finalised and sessions opened minus closed are what is owned at its end |
| Pkcs11Trace.NoUseAfterDestroy | internal/signer/pkcs11.go:92-103 | no call names a context after it was destroyed |
| Pkcs11Trace.ReleaseOrder | internal/signer/pkcs11.go:96-98 | between opening a session and destroying its context, that session is closed and then the context finalised |
| Pkcs11Signer.Signer.constructor | internal/signer/pkcs11.go:67-75 | a new signer owns nothing and is logged out |
| Pkcs11Signer.Signer.Balance | internal/signer/pkcs11.go:45-57 | over all calls ever made the signer has one context, one initialisation and one session outstanding while `p` is set and none otherwise |
| Pkcs11Signer.Signer.Teardown | internal/signer/pkcs11.go:92-103 | closes, finalises and destroys in this order and clears every field; does nothing when logged out |
| Pkcs11Signer.Signer.FindSlot | internal/signer/pkcs11.go:349-380 | the slot is the first whose token bears the label but for trailing blanks, or without a label the hinted one or else the first; no slot only if the list failed, with its code, is empty, or no token in all of it bears the label |
| Text.SameTrimmed | internal/signer/pkcs11.go:349-380 | two labels compare equal if and only if they differ at most in blanks at the end |
| Pkcs11Signer.Signer.FindObject | internal/signer/pkcs11.go:429-448 | the first object found by three successful calls; a search that began is always ended, and an error names the first of its calls that failed, or an empty result |
| Pkcs11Signer.Signer.LoginLocked | internal/signer/pkcs11.go:162-233 | success is one exact sequence of calls whose handles end up in the fields; so is failure at each step, up to the call that failed and then through all releases in order, with the error of that call and cleared fields |
| Pkcs11Signer.Signer.Login | internal/signer/pkcs11.go:83-89 | releases an open session first, then loads the module once and logs in as loginLocked does; logged in exactly when no error is returned |
| Pkcs11Signer.Signer.DoSign | internal/signer/pkcs11.go:152-158 | one SignInit with the current session and key, then one Sign unless it failed; fields untouched |
| Pkcs11Signer.Signer.Retry | internal/signer/pkcs11.go:136-143 | release, one new login and, only if it succeeds, one more attempt with the new handles; otherwise logged out, with the calls and the error of a login that fails |
| Pkcs11Signer.Signer.Sign | internal/signer/pkcs11.go:115-149 | every signature asked for has mechanism 0x40 for SHA256withRSA, 0x06 for SHA1withRSA and 0x01 for MD5withRSA, over the phrase or, for MD5, over a DigestInfo of its hash; no other algorithm is accepted; at most two attempts and one new login, the second exactly after one of seven codes; each attempt uses the handles of the session open at its time; another failure leaves the session; fields end all set or all cleared, cleared exactly when it began logged out or the new login failed; the answer is the signature or the code of the last call |
| Pkcs11Signer.SignsAsAsked | internal/signer/pkcs11.go:319-330 | these mechanisms and data over all calls of a Sign, the new login included, and the signature of the last call in base64 |
| Pkcs11Signer.Signer.Available | internal/signer/pkcs11.go:277-308 | true exactly when a slot (with the label) is seen in a context of its own; whatever was acquired for it is given back on every path and the signer is untouched |
| Pkcs11Signer.Md5DigestInfo | internal/signer/pkcs11.go:338-344 | prefix and hash, 34 octets |
| Pkcs11Signer.DigestInfoIsDer | internal/signer/pkcs11.go:18-37 | these octets read as a SEQUENCE of the MD5 algorithm identifier and an OCTET STRING of the hash |
| Pkcs11Signer.Md5ObjectIdentifier | internal/signer/pkcs11.go:20-24 | the identifier in it is 1.2.840.113549.2.5 with NULL parameters |
| PkiPath.PkiPathB64 | internal/signer/pkipath.go:20-37 | fails exactly for an empty leaf; otherwise the base64 of the SEQUENCE of leaf and extras |
| Der.LengthOctetsAre | internal/signer/pkipath.go:31-34 | the length octets themselves, in the short form and the long forms of one to three octets |
| Der.ElementIs | internal/signer/pkipath.go:18-19 | an element is identifier octets, its length in the shortest form and as many octets |
| Der.IdentifierMeans | internal/signer/pkipath.go:18-19 | identifier octets are one octet, or one with all low bits set and others of which only the last has bit 8 clear |
| PkiPath.ReadBack | internal/signer/pkipath.go:20-37 | decoding and parsing gives the leaf and then the extras in order, an empty extra as an empty element, in short and long length forms and all paddings |
| PkiPath.RoundTrip | internal/signer/pkipath.go:20-37 | what comes back is exactly the leaf and the extras if and only if no extra is empty |
| PkiPath.EmptyExtraIsWritten | internal/signer/pkipath.go:18-29 | an empty extra is read back as the element `00 00` |
| PkiPath.TextDeterminesChain | internal/signer/pkipath.go:10-19 | two different chains never have the same text |
| Der.ReadWritten | internal/signer/pkipath.go:31-34 | every list of DER elements reads back from the SEQUENCE OF it is marshalled to |
| Der.WriteRead | internal/signer/pkipath.go:31-34 | an octet string that reads as a SEQUENCE OF is exactly what marshalling its elements gives, so the encoding is unique |
| Der.SplitConcat | internal/signer/pkipath.go:18-19 | whole elements put one after the other are cut apart again at the same places |
| BaseEncoding.DecodeEncode | internal/signer/pkipath.go:36 | decoding undoes encoding, in base64 and base32, for every length |
| BaseEncoding.Alphabet64 | internal/signer/pkipath.go:36 | the characters of base64, in the order of RFC 4648 |
| BaseEncoding.Alphabet32 | internal/browser/totp_enroll.go:74 | the characters of base32, in the order of RFC 4648 |
| BaseEncoding.EncodedLength | internal/signer/pkipath.go:36 | three octets take four characters in base64 and five take eight in base32, a begun group as many as a whole one |
| BaseEncoding.DecodesExactlyWhen | internal/browser/totp.go:32-35 | text decodes if and only if it is characters of the alphabet in whole groups, the last padded with one or two signs in base64 and one, three, four or six in base32, or not at all |
| BaseEncoding.DecodedNumber | internal/browser/totp.go:32-35 | what decodes stands for the number its digits denote, without fewer spare bits than a character has |
| BaseEncoding.EncodedNumber | internal/browser/totp_enroll.go:74 | the characters, read as digits, are the number the octets are in base 256, shifted by the spare bits |
| BaseEncoding.DecodedNotEmpty | internal/browser/totp.go:32-38 | text that is not empty and decodes holds at least one octet |
| Totp.NormalizeBase32Secret | internal/browser/totp.go:75-94 | the loop computes the normal form: blanks dropped, upper case, padded to a block |
| Totp.NormalIsNormal | internal/browser/totp.go:73-74 | normalising is idempotent and gives whole blocks of eight |
| Totp.NormalMeans | internal/browser/totp.go:75-94 | the normal form is what is not a blank, tab or line end, in order and in upper case, with fewer than eight padding signs up to a multiple of eight |
| Totp.BlankIsIgnored | internal/browser/totp.go:78-85 | a blank inserted anywhere changes neither the normal form nor any code at any time |
| Totp.CaseIsIgnored | internal/browser/totp.go:86 | neither does the case of a letter anywhere, ASCII letters 32 codes apart in particular |
| Totp.TotpAt | internal/browser/totp.go:26-53 | a code is six digits that denote, modulo one million, the truncated MAC of the number of whole 30-second steps in eight octets, under the decoded key; or one of the refusals |
| Totp.CounterIsSteps | internal/browser/totp.go:40 | the counter is the number of whole 30-second steps since 1970, section 4.2 of RFC 6238 |
| Totp.CodeIsTotp | internal/browser/totp.go:40-52 | whatever code is given is the time-based password of the key at that time |
| Totp.PutUint64 | internal/browser/totp.go:41-42 | fills the message with the eight octets of the counter |
| Totp.MessageIsCounter | internal/browser/totp.go:40-42 | those octets, read most significant first, are the counter |
| Totp.Truncation | internal/browser/totp.go:48-49 | reading four octets at the offset and masking the top bit is in bounds and is the 31-bit number of section 5.3 of RFC 4226 |
| Totp.CodeDigits | internal/browser/totp.go:50-52 | a code has exactly six digits, which denote the truncated number modulo one million |
| Totp.RefusedSecrets | internal/browser/totp.go:27-38 | a secret is refused as empty exactly when it is all blanks, and as invalid exactly when otherwise its normal form is not padded base32; a key is never empty |
| Totp.TotpNow | internal/browser/totp.go:64-71 | the code at the clock that is read and the seconds left: from 1970 on 1..30, the same code for every second before their end and the next counter at it; an error as totpAt reports it |
| Totp.Window | internal/browser/totp.go:64-71 | the seconds reported are in 1..30; counter and code are the same for every second before their end, and at their end the counter is one more |
| Totp.WindowBefore1970 | internal/browser/totp.go:70 | the seconds are in 1..30 if and only if the time is not negative or a multiple of the step; they always lead to the beginning of a step, less than two steps away |
| Totp.EncodedIsNormal | internal/browser/totp_enroll.go:74 | an encoded key is its own normal form and stands for exactly the octets encoded |
| Totp.EnrolmentKey | internal/browser/totp_enroll.go:72-75 | for every hidden value that is not blank, the secret chosen stands for the octets of the trimmed value, and every later code is computed under that key |
| Totp.SecretSource | internal/browser/totp_enroll.go:72-85 | a hidden value that is not all blank decides, and the key is what it has between its blank margins, whatever the span; with an all blank one the normal form of the span is the secret if it has a key, and else there is none |
| Totp.Utf8CharMeans | internal/browser/totp_enroll.go:74 | the octets of a character are those of section 3 of RFC 3629: its bits, six to an octet after the lead octet |
| Totp.Utf8OfConcat | internal/browser/totp_enroll.go:74 | the octets of a text are those of its characters in order |
| Totp.DerivedSecretWorks | internal/browser/totp_enroll.go:72-85 | a secret chosen from either source is in normal form and yields a code at every time |
| PageUrl.HostIsToldExactlyWhen | internal/browser/url.go:36-51 | the test agrees with the host being a portal if and only if, on the portal, the rest does not name the SSO host and, off it, something names the SSO host or nothing names a portal |
| PageUrl.FrontDecidesExactlyWhen | internal/browser/url.go:36-51 | path, query and fragment do not change the outcome if and only if the front names the SSO host, or it names a portal and they do not name the SSO host, or neither they nor it name a portal without naming the SSO host |
| PageUrl.AcceptedOffThePortal | internal/browser/url.go:36-51 | an address of another host with a portal in its query is accepted |
| PageUrl.RefusedOnThePortal | internal/browser/url.go:36-51 | an address of the portal with the SSO host in its query is refused |
| PageUrl.AuthenticatedMeans | internal/browser/url.go:36-51 | an address counts as authenticated if and only if a portal name is somewhere inside and the SSO host is nowhere, not even in a parameter |
| LoginPolling.MaybeEnroll | internal/browser/totp_enroll.go:105-182 | true exactly when the form's script ran and the page confirmed it, which raises the flag; otherwise the flag is unchanged, and a script that ran may still have acted; it never runs once enrolled |
| LoginPolling.EnrolledSecretWorks | internal/browser/totp_enroll.go:151-165 | enrolment never fails for want of a code; the code typed is the one the secret read gives at that time, and that secret gives one at every later time |
| LoginPolling.MaybeHandle2Fa | internal/browser/browser.go:462-538 | handled exactly when the prompt's script ran and the page confirmed it, which raises the flag; otherwise the flag is unchanged, and after a script that ran the run goes on only if its answer was lost |
| LoginLoop.EnrollTotpRobust | internal/browser/browser.go:427-457 | the enrolment loop, in a window of 60 seconds: it returns true, fails with an error or runs on, and tries, runs the form's script and pauses, exactly when its turns call for it |
| LoginLoop.IterateStep | internal/browser/browser.go:319-413 | one pass of the loop body: it ends as the page, the browser and the clock call for, leaves the flags and acts on the page accordingly, and matches its flags to what the page confirmed |
| LoginLoop.AwaitAuthenticated | internal/browser/browser.go:309-415 | the whole loop, with all flags down and a deadline of 180 seconds: it fails with an error, succeeds at an address and acts on the page exactly when some pass that is reached calls for it |
| LoginPolling.EnrollReturns | internal/browser/browser.go:427-457 | entered unenrolled, it returns true with the flag set or an error, never false without one; a form was confirmed exactly in the first case |
| LoginPolling.IterationIsOrderly | internal/browser/browser.go:319-413 | each pass matches its flags to what the page confirmed, and sleeps a second or more unless it ends the run or meets an invalid context at gov.br |
| LoginPolling.RunIsBounded | internal/browser/browser.go:309-415 | in every run enrolment is entered once at most, its form and a 2FA code are confirmed once at most, a click of the certificate link five times at most, and the flags record it |
| LoginPolling.RunRepeatsOnlyWhenLost | internal/browser/browser.go:512-535 | in every run the script that types a 2FA code runs again only after an answer that was lost, that of the enrolment form only after one that was lost or found no form, and neither after a confirmed one |
| LoginPolling.ReachesThePage | internal/browser/browser.go:524-567 | so a code may reach the page at most once more than answers to it were lost, a form once more than they were lost or found none, and a click five times more than they were lost |
| LoginPolling.LostAnswersRepeat | internal/browser/browser.go:522-566 | on a page that loses every answer each pass types a code and may click the link again, however many there are, and nothing counts as confirmed |
| LoginPolling.LostFormsRepeat | internal/browser/totp_enroll.go:165-171 | while the answers of the enrolment form are lost every turn of the enrolment runs its script |
| LoginPolling.SuccessIsAuthenticated | internal/browser/browser.go:346-350 | a run returns without an error only on the first address observed that counts as authenticated, before the deadline |
| LoginPolling.RunIsJustified | internal/browser/browser.go:352-403 | whatever a run may have done to the page, its answer lost or not, an observation before the deadline called for it: a restart a gov.br address, an enrolment a CONFIGURE_TOTP page, its form one that was read and the code of the secret in it, a code, which is that of the configured secret, a prompt that is there and visible or met after a minute without progress on the SSO host, a click fewer than five confirmed ones |
| LoginOutcome.AddressShows | internal/browser/url.go:36-66 | the tests of the address, each as a name that is somewhere in it |
| LoginOutcome.EnrolmentEndsSo | internal/browser/browser.go:427-457 | the enrolment returns true if and only if some turn confirms the form, fails with an error if and only if some turn shows it or the window is over, the turns before having gone on |
| LoginOutcome.EnrolmentDoesSo | internal/browser/totp_enroll.go:119-175 | it tries, runs the form's script with this secret and code, and pauses, if and only if a turn that is reached calls for it |
| LoginOutcome.PassMeans | internal/browser/browser.go:319-413 | a pass fails with an error, finds the portal, goes on after a pause of 3, 5 or 1 seconds, has each of its effects and leaves each flag, the time of the last click included, if and only if the observation calls for it |
| LoginOutcome.FlagsFollow | internal/browser/browser.go:310-314 | the flags a pass finds are those its predecessor leaves |
| LoginOutcome.RunComesTo | internal/browser/browser.go:309-415 | a run fails with an error if and only if the first pass that does not go on shows it, the timeout being a pass at or after the deadline; it succeeds at an address if and only if that pass is on the portal; it has an effect if and only if some pass that is reached calls for it |
| LoginOutcome.FirstPortalSucceeds | internal/browser/browser.go:346-350 | if no pass up to the first on the portal shows an error or is cut short, and all are before the deadline, the run succeeds there |
| LoginPolling.SleepsFitWindow | internal/browser/browser.go:319-413 | a run sleeps no more often than seconds are left before its deadline |
| LoginPolling.AtMost180Sleeps | internal/browser/browser.go:311-319 | a run has at most 180 sleeping passes |
| LoginPolling.TriesFitWindow | internal/browser/browser.go:427-452 | the enrolment loop tries no more often than seconds are left in its window |
| LoginPolling.AtMost60Tries | internal/browser/browser.go:367-384 | a whole run makes at most 60 attempts to enrol, and none once enrolled |
| LoginPolling.NoSecretNoCode | internal/browser/browser.go:484-488 | without a configured secret no run ever types a 2FA code, whatever becomes of the answer |
| DualSigner.Dual.SwapSubject | internal/signer/dual.go:52-56 | under the lock the subject joins the history; the switch found, if any, is the one it adds to that history |
| DualSigner.Dual.Emit | internal/signer/dual.go:56-58 | logging a found switch keeps logged and pending switches together equal to those of the history |
| DualSigner.Dual.ResolveActive | internal/signer/dual.go:43-63 | the backend is the available one of least index, an error means that none is available; a readable subject joins the history and its switch the log, an unreadable one changes nothing |
| DualSigner.Dual.Available | internal/signer/dual.go:31-38 | true exactly when resolveActive would find a backend |
| DualSigner.SwitchesAreAdjacentPairs | internal/signer/dual.go:52-58 | a switch is logged exactly for two subjects read one after the other, the first not empty and the second different |
| DualSigner.SwitchesTellTheHistory | internal/signer/dual.go:40-58 | with subjects that are not empty the switches are the steps through the identities in order, each beginning where the one before ended |
| DualSigner.EmptySubjectBreaksTheChain | internal/signer/dual.go:56 | a history whose two switches do not meet: one leads to an empty subject, the next leaves another |
| DualSigner.ChainsExactlyWhen | internal/signer/dual.go:52-58 | in every history the switches form a chain if and only if none was recorded after a switch to an empty subject |

## Left out

- LoginCache.LoginManager.Enter: GetBearer is one function in Go; here its critical sections are separate methods because other callers run between them, and their order is the step relation of LoginProtocol.
- Panics inside loginFn, and the logging of the service.
- The parsing of a JWT's expiry (`internal/loginsvc/jwt.go:22-51`): any function from bearer to optional expiry.
- Go's limits on time and durations: times are unbounded integers, with the zero time as a value of its own.
- BearerCapture.AuthHeaderValue: Go visits the keys of a map in no fixed order, so with several usable keys any of their values may be returned.
- LoginProtocol.LoginsInWindow: assumes that the clock never runs back; forced calls and failed logins may follow one another at once.
- LoginProtocol.PortIsBoundOnce: the listener is what startPJeOffice opens and its caller closes before it returns; the server behind it is left out.
- PKCS#11 tokens: how a module behaves and what happens when two contexts share one library; every return code is possible at every call.
- Pkcs11Signer.Signer.Available: it takes no lock in Go and may run beside another operation; here it runs alone.
- Pkcs11Signer.Signer.FindSlot: the slot hint is an optional integer already parsed from its text.
- The PIN and the session flags: constants handed to the module.
- The signer's `Identity` and `CertChainPKIPath` beyond PKIPathB64: X.509 parsing and thin delegation.
- HMAC-SHA1, MD5 and RSA: parameters, of which only the length of a hash is assumed.
- PkiPath.PkiPathB64: the total length of the certificates is assumed below two to the 63rd, the range of a Go length.
- Totp.NormalizeBase32Secret: upper case is modelled for ASCII and for the two other letters that become ASCII; text with further characters is refused in the model as in Go, but Go counts octets and may pad it differently. Invalid UTF-8 is not modelled.
- LoginLoop.AwaitAuthenticated: page, browser targets and clock are a finite script, one observation for each pass; a script that ends first leaves the run cut short. The helpers write flags through pointers in Go; here they return them.
- LoginPolling.SleepsFitWindow: assumes that a sleep of d seconds takes at least d seconds and that the clock never runs back.
- LoginPolling.MaybeEnroll: the wait for the form is one yes-or-no answer; selectors and JavaScript are part of the page.
- The session's choice of a target on rebinding, the tracking of navigation events and the final search that makes the portal send the bearer: browser behaviour.
- DualSigner.Dual.Emit: log entries are written outside the lock, so only which switches are logged is determined, not the order of entries by different callers.
- DualSigner.Dual.ResolveActive: backends are described by their answers during one call; Sign and CertChainPKIPath each resolve anew, so nothing is claimed about two calls.
- The HTTP server of PJeOffice, gRPC servers and clients, configuration, audit output and main: straight-line plumbing.
