# NEXUS access governance: a verified model

This project models five parts of the NEXUS identity platform in Dafny 4.11 and proves what they guarantee:

- **Policy engine** (`PolicyEngine`, `PolicyProperties`, `PolicyFields`). Stored access policies are matched against a request and
  checked one after the other. The engine ranges over a Go map, so its answer is a relation over all visiting orders.
- **Policy handlers and audit trail** (`PolicyHandlers`, `AuditTrail`). Every HTTP request uses the engine and then
  appends to the audit log, as two atomic steps that interleave with other requests.
- **Audit log** (`AuditLog`, `Paging`). An append-only log, read page by page from its newest end, on 64-bit integers.
- **Login limiter** (`RateLimit`, `RateLimitHistory`, `RateLimitInterleaving`). One Redis counter with an expiry per
  address, kept with INCR, EXPIRE, GET and DEL.
- **One-time codes** (`Base32`, `Base32Properties`, `Base32Numbers`, `Base32Agreement`, `MfaHandler`, `Hotp`,
  `HotpProperties`, `TotpPython`, `TotpGo`, `TotpProperties`, `TotpTimes`). Two implementations of HOTP (section 5.3 of RFC 4226) and TOTP (sections
  4.2 and 5.2 of RFC 6238) with their Base32 keys (section 6 of RFC 4648).
- **User store and login** (`UserStore`, `UserStoreProperties`, `UserStoreConfinement`, `AuthService`,
  `LoginHistory`, `LoginRules`). Two maps that share user objects, copies at every boundary, and registration and login over the
  store.

`Wrappers`, `Words` and `Arithmetic` hold the option and result types, Go's fixed-width integers and division facts.

What a method does is stated against a function on values; what that function means is stated by lemmas over all
inputs, all runs and all interleavings. Parameters stand for what the model cannot see: uuids, the clock, random bytes,
HMAC-SHA1 (any function to 20 bytes), the password hash and its comparison. A uuid is assumed fresh only where a
precondition or a step's guard says so. The mutexes of the Go types are modelled by taking each method as one step.

## Where the code and its documentation part

The code is modelled as it is. Each difference has its exact condition, and inputs on which it shows.

- The engine's comment promises the most restrictive answer. When a matching policy denies and one, the same or
  another, stops at its MFA check, some orders answer REQUIRE_MFA (`DocumentedInEveryOrderIff`, `DocumentedRuleFails`,
  `DenyRuleAsksForMFA`). The comment does not say whether a policy whose decision is REQUIRE_MFA requires MFA without
  its flag; the engine grants access (`DecisionIsReadForDenyOnly`, `RequireMFARuleGrants`), and both readings of the
  comment are covered.
- The repository's README describes the limiter as a sliding window of five requests in 15 minutes. Each failure renews
  the expiry, so the limiter stops more than the window does and never less (`WindowAgainstLimiter`,
  `SlowFailuresAreLimited`).
- The audit handler bounds the page size but not the page number; the product wraps, and a huge page number panics or
  repeats page 1 (`ListIsRightIff`, `HugePagesGoWrong`).
- A delete entry can stand before the create entry of the same policy (`EntriesCanBeOutOfOrder`, `ReplayIsRightIff`).
- Around a secret, only Python takes information separators for white space; inside it, only Go drops line breaks, and
  Go overlooks a few characters behind a padded block (`GoFollowsPythonIff`, `SeparatorPartsThem`,
  `HiddenSeparatorDoesNot`, `PythonFollowsGoIff`, `LineBreaksPartThem`, `GarbagePartsThem`).
- In the first 30 seconds of Unix time the Python verifier raises and the Go verifier wraps (`VerificationAgreesIff`);
  before the epoch the two generators part the same way (`GenerationAgreesIff`), and the Go generator and the Go verifier use different counters (`GoTriesItsOwnCounterIff`).
- The store checks that a new user's name is free, not its id, and does not check the name of an update
  (`CreateKeepsAgreementIff`, `TakenIdIsAccepted`, `UpdateKeepsAgreementIff`, `StolenNameIsAccepted`).
- Registration trims the username and login does not (`UntrimmedNamesNeverLogIn`, `UntrimmedNameIsRegistered`).
- Listing and reading policies hands out copies, creating and updating them hands out the stored object
  (`CreatePolicy`, `UpdatePolicy`, `WriteAsHolder`).

## Model

| member | source | states |
|---|---|---|
| PolicyEngine.Engine.constructor | backend/internal/policy/engine.go:19-67 | a new engine holds exactly the three default policies under the drawn uuids, each filed under its own id |
| PolicyEngine.Engine.Evaluate | backend/internal/policy/engine.go:78-146 | the verdict is the one that some visiting order of the map gives: filter, default deny, first failing policy, else allow |
| PolicyEngine.Engine.CreatePolicy | backend/internal/policy/engine.go:151-159 | the new map has the policy under the drawn uuid and is otherwise the old one; the returned object is the stored one |
| PolicyEngine.Engine.ListPolicies | backend/internal/policy/engine.go:162-172 | every stored policy is listed once, in some order, as a new object of its own |
| PolicyEngine.Engine.GetPolicy | backend/internal/policy/engine.go:175-185 | a new object with the policy under the id, or none exactly when the id is unknown |
| PolicyEngine.Engine.UpdatePolicy | backend/internal/policy/engine.go:188-198 | replaces the policy with that id and returns the stored object; fails and changes nothing when there is none |
| PolicyEngine.Engine.DeletePolicy | backend/internal/policy/engine.go:201-210 | removes exactly that id, fails and changes nothing when it is unknown |
| PolicyEngine.WriteAsHolder | backend/internal/policy/engine.go:151-198 | whatever the holder of a policy object writes into it, the engine changes exactly under the ids where it stores that very object |
| PolicyProperties.OutcomesExactly | backend/internal/policy/engine.go:82-145 | the verdicts of all map orders, without orders: default deny when nothing matches, grant when every match passes, otherwise the verdict and id of each failing match and nothing else |
| PolicyProperties.DocumentedIsMostRestrictive | backend/internal/policy/engine.go:71-77 | steps 4 to 6 of the documented rule are its step 3: the unique most restrictive of what the comment says of each matching policy's fields |
| PolicyProperties.OutcomeAgainstDocumented | backend/internal/policy/engine.go:71-139 | in every order: DENY implies documented DENY and documented ALLOW implies ALLOW; unless only decisions ask for MFA, also ALLOW implies documented ALLOW and documented REQUIRE_MFA implies REQUIRE_MFA |
| PolicyProperties.DocumentedInEveryOrderIff | backend/internal/policy/engine.go:71-139 | the documented rule holds in every order iff not some match denies while some match stops at its MFA check, and, in the reading where decisions ask for MFA, they are not the only ones to ask |
| PolicyProperties.DocumentedRuleFails | backend/internal/policy/engine.go:71-139 | two policies for which the documented answer is DENY and one order answers REQUIRE_MFA |
| PolicyProperties.DenyRuleAsksForMFA | backend/internal/policy/engine.go:121-138 | one DENY rule with the MFA flag: documented DENY, and every order answers REQUIRE_MFA |
| PolicyProperties.RequireMFARuleGrants | backend/internal/policy/engine.go:121-145 | one REQUIRE_MFA rule without the flag: every order grants access without MFA |
| PolicyProperties.AllowInEveryOrder | backend/internal/policy/engine.go:96-145 | access does not depend on the order: it is granted iff something matches and every match passes |
| PolicyProperties.AllowSurvivesEasing | backend/internal/policy/engine.go:103-139 | access granted in one order stays granted in every order when risk falls, the device becomes trusted or MFA becomes verified |
| PolicyProperties.StepUpExactly | backend/internal/policy/engine.go:103-139 | verifying MFA leads to ALLOW in every order iff something matches and each match passed already or lacked only MFA and is no DENY rule |
| PolicyProperties.StepUpNeverFollowsDeny | backend/internal/policy/engine.go:103-139 | ALLOW after a step-up implies that no order answered DENY before it |
| PolicyProperties.BlockingPolicyKeepsBlocking | backend/internal/policy/engine.go:148-210 | a policy that fails a request keeps every order from ALLOW through any run of creates, updates and deletes of other policies |
| PolicyFields.UninvolvedPolicyChangesNothing | backend/internal/policy/engine.go:83-94 | a policy that is disabled, or for another role or application, changes no answer of any order |
| PolicyFields.NobodyInvolvedDenies | backend/internal/policy/engine.go:96-101 | when all policies are of that kind, the only answer is the default denial |
| PolicyFields.InvolvedPolicyAlone | backend/internal/policy/engine.go:103-145 | one other policy alone: DENY with its id over its risk bound or on an untrusted device, then REQUIRE_MFA without MFA, then DENY for a DENY rule, else ALLOW |
| PolicyFields.InvolvedPolicyBlocks | backend/internal/policy/engine.go:103-139 | such a policy that does not pass keeps every order from ALLOW, whatever else is stored |
| PolicyFields.NewEngineDecides | backend/internal/policy/engine.go:30-67 | every request to a new engine, in every order: developers on the AWS console and administrators by their policy's bounds, viewers always, nobody else |
| PolicyHandlers.Handler.CheckAccess | backend/internal/policy/handler.go:46-93 | 401 without claims, 400 without an application, otherwise a possible verdict and exactly one audit entry, with the user, application, address, client and decision text of the request and its answer |
| PolicyHandlers.Handler.CreatePolicy | backend/internal/policy/handler.go:114-152 | 400 without name or application and nothing changes, otherwise the policy is stored and one POLICY_CREATED entry with its id and name is appended |
| PolicyHandlers.Handler.DeletePolicy | backend/internal/policy/handler.go:155-175 | 400 or 404 and nothing changes, otherwise the policy is gone and one POLICY_DELETED entry is appended |
| PolicyHandlers.UninterruptedRequestsAreTwoSteps | backend/internal/policy/handler.go:72-172 | an uninterrupted create, delete or access request is its engine step followed by its log step of the interleaved system |
| AuditTrail.LedgerBalances | backend/internal/policy/handler.go:128-172 | in every interleaving, per id: initial + logged creates + creates in flight = live + logged deletes + deletes in flight, and each side is at most one |
| AuditTrail.LogDeterminesPolicies | backend/internal/policy/handler.go:128-172 | in a quiescent state the live ids are the initial and logged created ids without the logged deleted ones, whatever order the entries have |
| AuditTrail.ReplayIsRightIff | backend/internal/policy/handler.go:144-172 | replaying the log in order gives the live ids of a quiescent state iff no delete entry stands before the create entry of its policy |
| AuditTrail.EntriesCanBeOutOfOrder | backend/internal/policy/handler.go:144-172 | a run of two requests after which the replay of the log is wrong |
| AuditTrail.AccessesAreAccounted | backend/internal/policy/handler.go:72-90 | in every interleaving and for every property of entries: access entries in the log + evaluations still to be logged = evaluations made, each as the entry that it asks for |
| AuditTrail.EntriesTellWhatWasWarranted | backend/internal/policy/handler.go:72-90 | per user, application and action: access entries in the log + evaluations still to be logged = evaluations for which the policies of that moment warranted the action, whatever the map order |
| AuditTrail.AccessEntriesAreTrue | backend/internal/policy/handler.go:72-90 | behind every access entry stands a step of the same run that evaluated the request of that user, application, address and client with that verdict, which was possible in that step's state |
| AuditTrail.GrantedEntriesWereGranted | backend/internal/policy/handler.go:72-90 | an ACCESS_GRANTED entry implies such a step at which the policies granted the evaluated request in every order |
| AuditLog.MemoryLogger.Log | backend/internal/audit/logger.go:25-38 | appends the event; a missing id is the drawn uuid, a missing time the current one, and nothing else changes |
| AuditLog.MemoryLogger.ReversedCopy | backend/internal/audit/logger.go:51-54 | the copying loop fills a new array with the reversed log |
| AuditLog.MemoryLogger.List | backend/internal/audit/logger.go:41-66 | the reversal loop and the slice give exactly the page, or the panic, of the wrapped 64-bit bounds |
| Paging.ListIsRightIff | backend/internal/audit/logger.go:41-66 | List returns the requested page iff the log is empty, the page's end fits in 64 bits, or the wrapped start lies past the log |
| Paging.HugePagesGoWrong | backend/internal/audit/handler.go:36-50 | two page numbers that the handler lets through: one panics, one repeats page 1 |
| Paging.PagesPartitionTheLog | backend/internal/audit/logger.go:50-65 | pages 1 to ceil(total / size) concatenate to the reverse of the insertion order, for every size |
| Paging.NoEventIsMissed | backend/internal/audit/logger.go:33-65 | a reader of List on 64-bit integers that reads successive pages up to an empty one, and meets no panic, gets every event of the initial log, as often as it occurs there, under any appends in between and for every page size |
| Paging.ReaderMeetsNoPanic | backend/internal/audit/logger.go:56-65 | while each log leaves room for one more page in 64 bits, a reader that stops at its first empty page meets no panic, so it misses nothing |
| Paging.DuplicatesHappen | backend/internal/audit/logger.go:33-65 | one append between two fetches shows a reader of List an event twice |
| RateLimit.RateLimiter.RecordFailedLogin | backend/internal/security/ratelimit.go:37-54 | the count is the stored counter after INCR, its expiry is 15 minutes away, and the flag says whether the count is at least five |
| RateLimit.RateLimiter.IsRateLimited | backend/internal/security/ratelimit.go:57-67 | yes exactly when a live counter is at five or more |
| RateLimit.RateLimiter.ResetFailedLogins | backend/internal/security/ratelimit.go:70-72 | removes the counter of this address only |
| RateLimitHistory.CounterIsStreak | backend/internal/security/ratelimit.go:37-54 | the stored counter is the length of the last streak of failures with gaps under 15 minutes; its expiry is 15 minutes after the last |
| RateLimitHistory.LimitedIffLockedOut | backend/internal/security/ratelimit.go:12-72 | after any run with any times and addresses, the check at time t is yes iff there are five failures since the last reset with gaps under 15 minutes, the last under 15 minutes ago |
| RateLimitHistory.FourFailuresPass | backend/internal/security/ratelimit.go:14-66 | at most four failures since the last reset: no at every time |
| RateLimitHistory.WideGapPasses | backend/internal/security/ratelimit.go:14-66 | a gap of 900 s or more among the last five failures: no at every time |
| RateLimitHistory.FiveCloseFailuresStop | backend/internal/security/ratelimit.go:14-66 | five failures with gaps under 900 s: yes exactly until 900 s after the last |
| RateLimitHistory.FlagOnTheFifth | backend/internal/security/ratelimit.go:37-54 | one more failure raises the flag iff it and the four before it have gaps under 900 s |
| RateLimitHistory.WindowAgainstLimiter | README.md:106 | the documented sliding window is full only when the limiter says yes, and the two agree iff the fifth latest failure of a locked-out address is under 15 minutes old |
| RateLimitHistory.SlowFailuresAreLimited | README.md:106 | failures 14 minutes apart are limited although the window never holds more than two of them |
| RateLimitInterleaving.ImmortalImpliesPending | backend/internal/security/ratelimit.go:40-46 | in every interleaving of INCR, EXPIRE, DEL and time, a counter without expiry implies a recorder for it in flight |
| RateLimitInterleaving.LockoutEndsIff | backend/internal/security/ratelimit.go:40-46 | left alone, a counter is gone after 15 minutes iff it has an expiry, which it has whenever no recorder for it is in flight |
| RateLimitInterleaving.StuckRecordersLockOutForever | backend/internal/security/ratelimit.go:40-46 | five recorders that stop between their commands limit the address at every later time |
| RateLimitInterleaving.RecordersGetConsecutiveCounts | backend/internal/security/ratelimit.go:40-53 | without deletion or expiry in between, concurrent recorders receive distinct consecutive counts |
| Base32.PyBase32Decode | security/totp_verify.py:25-34 | blank secrets are refused; the others are upper-cased, stripped, padded to full blocks and decoded |
| Base32.GoBase32Decode | backend/internal/auth/totp.go:86-94 | the trimmed and upper-cased secret is padded to full blocks and decoded |
| MfaHandler.GenerateMFASecret | backend/internal/auth/mfa_handler.go:116-122 | the secret is the unpadded printing of the 20 random bytes, and both parsers read those bytes back from it |
| Base32Properties.EncodedLength | backend/internal/auth/mfa_handler.go:121 | n bytes print as ceil(8n / 5) letters, a length whose missing padding the parsers accept, and the letters hold all the bits |
| Base32Properties.RoundTrip | backend/internal/auth/totp.go:87-94 | both parsers return the bytes of every unpadded printing, of any length; only Python refuses the empty one |
| Base32Properties.GeneratedSecretDecodes | backend/internal/auth/mfa_handler.go:116-122 | a generated secret has 32 letters, needs no padding and decodes to its bytes in both languages |
| Base32Properties.DecodingIgnoresCase | security/totp_verify.py:25-34 | secrets that differ only in the case of letters a to z decode alike in both languages |
| Base32Properties.CaselessKeysDecode | security/totp_verify.py:25-34 | every printing in lower or mixed case decodes to its bytes in both languages |
| Base32Properties.BlankIsRefused | security/totp_verify.py:27-28 | a secret of white space only is refused as empty |
| Base32Numbers.ValuesOfTheStandard | backend/internal/auth/totp.go:93 | the letters are those of table 3 of RFC 4648, with their places in it as values |
| Base32Numbers.PrintedNumber | backend/internal/auth/mfa_handler.go:121 | the letters as digits of base 32 are the number that the bytes are as digits of base 256, shifted by the fill bits |
| Base32Numbers.DecodedNumber | backend/internal/auth/totp.go:93 | the decoded bytes are the number that the letters are, without the bits that fill no byte |
| Base32Properties.DecodingIgnoresSurroundings | security/totp_verify.py:29-34 | white space around a secret, as each language sees it, changes nothing |
| Base32Agreement.RepairedDecodesIff | security/totp_verify.py:30-34 | the repaired secret decodes iff it is letters followed by nothing but a padding that a printing can have, and then to the bytes of its letters |
| Base32Agreement.GoFollowsPythonIff | backend/internal/auth/totp.go:87-94 | a key that Python accepts is Go's key iff the secret has no information separator, or only such as stand behind a full padded block; if both accept they read the same key |
| Base32Agreement.PythonFollowsGoIff | security/totp_verify.py:25-34 | a non-blank key that Go accepts is Python's key iff no line break is inside the stripped secret and nothing follows its padding |
| Base32Agreement.SeparatorPartsThem | backend/internal/auth/totp.go:88 | a separator in front of any printed key: Python reads it, Go refuses it |
| Base32Agreement.LineBreaksPartThem | security/totp_verify.py:29-34 | eight line breaks inside any printed key: Go reads it, Python refuses it |
| Base32Agreement.HiddenSeparatorDoesNot | backend/internal/auth/totp.go:87-94 | a separator behind any padded key of 8k + 7 letters and a line break: both read the key |
| Base32Agreement.GarbagePartsThem | security/totp_verify.py:29-34 | with a stray character between that padding and the line break, Go still reads the key and Python refuses it |
| HotpProperties.OffsetInRange | backend/internal/auth/totp.go:72-76 | the offset is the last byte modulo 16, and the four bytes read lie before the last byte of the digest |
| HotpProperties.TruncationsAgree | backend/internal/auth/totp.go:72-77 | shifts, ors and mask on uint32, and the unbounded mask of Python, are both the byte sum without the top bit, below 2^31 |
| HotpProperties.CountersAreDifferentMessages | security/totp_verify.py:48-49 | different counters below 2^64 are different eight-byte messages |
| HotpProperties.CodeParses | security/totp_verify.py:58-62 | a code has exactly d decimal digits and reads back as the truncated value modulo 10^d |
| HotpProperties.ShortCodeIsSuffix | security/totp_verify.py:58-62 | the d-digit code is the last d characters of every longer code |
| HotpProperties.NoDigitsGivesOne | security/totp_verify.py:58-62 | a code of length zero does not exist: zero digits give one character |
| TotpPython.ComputeHotp | security/totp_verify.py:37-62 | the packed counter, the mask and the modulus give the code of the counter, or the exception for a counter that does not fit |
| TotpPython.GenerateTOTP | security/totp_verify.py:65-81 | the code of the floored quotient of the time, or the exceptions of the step, the secret and the counter |
| TotpPython.VerifyTOTP | security/totp_verify.py:84-116 | the loop over the window, with its early returns and exceptions, is the scan that the lemmas speak of |
| TotpTimes.GenerationByTime | security/totp_verify.py:65-81 | at any time and for any nonzero step: the code of the floored quotient of the time cut toward zero, or the exception of the secret or the counter |
| TotpTimes.CodeOfTheStep | security/totp_verify.py:78-81 | from second c * step up to the next step, fractions included, the code is that of counter c |
| TotpTimes.BeforeTheEpoch | security/totp_verify.py:78-81 | the last second before the epoch has the code of counter zero, and all earlier times raise |
| TotpTimes.VerificationByTime | security/totp_verify.py:105-116 | at any time, for any nonzero step and any window, the answer or the exception of the verification |
| TotpTimes.VerifyAcceptsIff | security/totp_verify.py:107-116 | a code is accepted iff the secret is a key, the code is ASCII, the window starts at or after counter zero and some counter of the window has that code |
| TotpTimes.GoGenerationByTime | backend/internal/auth/totp.go:20-28 | the code of the quotient by 30 of the time read without sign, six digits |
| TotpTimes.GoVerificationByTime | backend/internal/auth/totp.go:33-53 | true iff the counter of the time, rounded toward zero, or one of its two neighbours, read without sign, has the code |
| TotpProperties.CodesAreAcceptedInWindow | security/totp_verify.py:65-116 | for every step, window and length of at least one digit, a code is accepted up to window steps early or late |
| TotpProperties.FarCodesNeedACollision | security/totp_verify.py:65-116 | accepting a code that is window + 1 steps or more off, in whole seconds, exhibits two different messages with one code |
| TotpProperties.ShortTotpIsSuffix | security/tests/test_totp.py:42-54 | for one secret and time the shorter code is the end of the longer one, errors alike |
| TotpGo.PutUint64 | backend/internal/auth/totp.go:65-66 | the eight shifted bytes are the big-endian bytes of the counter |
| TotpGo.ComputeHotp | backend/internal/auth/totp.go:63-84 | the buffer, the masked word and the modulus give the code of the counter |
| TotpGo.GenerateTOTP | backend/internal/auth/totp.go:20-28 | the code of the unsigned quotient of the time, or an error for a bad secret |
| TotpGo.VerifyTOTP | backend/internal/auth/totp.go:33-53 | true iff one of the three wrapped counters has the code |
| TotpProperties.GoHotpIsPythonHotp | backend/internal/auth/totp.go:72-83 | 32-bit arithmetic gives the code of unbounded arithmetic for up to nine digits |
| TotpProperties.CleanSecretsAreReadAlike | security/totp_verify.py:25-34 | both parsers refuse, or read as the same key, every non-blank secret without separators around it and line breaks inside |
| TotpProperties.GenerationAgreesIff | backend/internal/auth/totp.go:20-28 | for secrets that both read alike: without a key both fail at every time; with a key they generate the same code iff the time is not negative |
| TotpProperties.VerificationAgreesIff | backend/internal/auth/totp.go:33-53 | for such secrets and six ASCII characters: without a key both fail; with a key they verify alike iff the time is at least 30 |
| TotpProperties.GoAcceptsInWindow | backend/internal/auth/totp.go:30-53 | Go accepts codes of up to 30 seconds early or late, from time 0 on |
| TotpProperties.GoTriesItsOwnCounterIff | backend/internal/auth/totp.go:26-43 | the generator's counter is among those the verifier tries at the same time iff the time is not negative |
| UserStore.MemoryUserStore.constructor | backend/internal/auth/store.go:31-36 | a new store is empty |
| UserStore.MemoryUserStore.CreateUser | backend/internal/auth/store.go:38-58 | a taken name is refused and nothing changes; otherwise a copy of the completed record is in both maps, and the caller's object stays outside the store |
| UserStore.MemoryUserStore.GetUserByUsername | backend/internal/auth/store.go:60-70 | a new object with the record stored under the name, or not found |
| UserStore.MemoryUserStore.GetUserByID | backend/internal/auth/store.go:72-82 | a new object with the record stored under the id, or not found |
| UserStore.MemoryUserStore.ListUsers | backend/internal/auth/store.go:84-94 | new objects with all stored records, each id once |
| UserStore.MemoryUserStore.UpdateUser | backend/internal/auth/store.go:96-115 | replaces the record in both maps and drops the old name when it changed; an unknown id changes nothing |
| UserStoreProperties.LookupIsSearch | backend/internal/auth/store.go:60-70 | while the maps agree, a lookup by name is a search through all users |
| UserStoreProperties.CreateKeepsAgreementIff | backend/internal/auth/store.go:42-56 | a successful create keeps the maps in agreement iff the id is new |
| UserStoreProperties.UpdateKeepsAgreementIff | backend/internal/auth/store.go:100-113 | a successful update keeps the maps in agreement iff no other user has the name |
| UserStoreProperties.RenameTouchesOneUser | backend/internal/auth/store.go:105-113 | a rename drops the old name only and leaves every other user as it was |
| UserStoreProperties.AllowedRunsAgree | backend/internal/database/migrations/002_create_users.sql:3-4 | the maps agree after every run whose steps meet the primary key and the UNIQUE constraint |
| UserStoreProperties.TakenIdIsAccepted | backend/internal/auth/store.go:42-56 | a new user under a taken id is stored and the maps part |
| UserStoreProperties.StolenNameIsAccepted | backend/internal/auth/store.go:100-113 | an update to another user's name is stored and the maps part |
| UserStoreConfinement.MakeMove | backend/internal/auth/store.go:38-115 | any call with any held object, and any write into one: the held objects stay apart from the store and from each other, and a write changes neither the store nor another held object |
| UserStoreConfinement.Play | backend/internal/auth/store.go:38-115 | after any sequence of calls and writes the store holds what its operations made of the values passed to them, and the maps agree if those meet the schema's constraints |
| AuthService.Service.Register | backend/internal/auth/service.go:105-141 | each refusal in its order; otherwise a user with the trimmed name, the hash, the requested role and status active is stored, and a separate object with the same fields returned |
| AuthService.Service.Login | backend/internal/auth/service.go:146-168 | one error for an unknown name, a failed comparison and an inactive user, otherwise a copy of the stored user with its token; a failed signing is an error |
| LoginRules.RegistrationAnswers | backend/internal/auth/service.go:105-141 | the refusals in their order: 3 to 50 bytes of trimmed name, 8 bytes of password, the seven roles, hashing, a taken name |
| LoginRules.RegisteredUserIsStored | backend/internal/auth/service.go:129-141 | after every continuation the record under a registered name has that call's id, hash, role and time, status active and no MFA |
| LoginRules.LoginAnswers | backend/internal/auth/service.go:146-168 | one error for an unknown name, a failed comparison and a status other than active, one for a failed signing, otherwise the stored user and its token |
| LoginRules.LoginGivesTheRegisteredUser | backend/internal/auth/service.go:105-168 | every successful login under a registered name is given that registration's user |
| LoginRules.InactiveUsersAreRefused | backend/internal/auth/service.go:158-160 | after an update to a status other than active the user cannot log in |
| LoginHistory.StoredIff | backend/internal/auth/service.go:105-141 | after any calls a name is stored iff some call registered it |
| LoginHistory.RegistrationStays | backend/internal/auth/store.go:42-57 | what a call registered is stored unchanged after every continuation, and no later call registers the name again |
| LoginHistory.LoginSucceedsIff | backend/internal/auth/service.go:105-168 | after any calls a login succeeds iff an earlier call registered that trimmed name with a hash that the password passes and a token can be signed for that user, and returns both |
| LoginHistory.NamesAreRegisteredOnce | backend/internal/auth/store.go:42-44 | at most one call registers a name |
| LoginHistory.UntrimmedNamesNeverLogIn | backend/internal/auth/service.go:106-152 | a name with surrounding white space never logs in |
| LoginHistory.UntrimmedNameIsRegistered | backend/internal/auth/service.go:106-152 | one call registers an untrimmed name, and its user logs in under the trimmed name only |

## Left out

- The front end, role permissions, middleware, CORS, Docker and Terraform: they would only add finite tables and one-branch checks.
- The PostgreSQL twins of the store and the logger: SQL; the schema serves as evidence for the uniqueness conditions.
- Reason texts, JSON bodies, status codes beyond their kind, constant-time comparison and log output.
- HMAC-SHA1, bcrypt, JWT and uuid generation: parameters, with their failures where the program handles them.
- The Base32 routines of both standard libraries are not part of the repository. Python's is modelled after section 6
  of RFC 4648; Go's drops line breaks and, as its published version does, ignores what follows a padded block.
- Secrets outside ASCII: the two languages upper-case other characters differently.
- Float timestamps are real numbers: rounding, infinities and NaN are not modelled, nor is a negative number of digits.
- TotpGo.ComputeHotp: requires at most nine digits, because Go leaves the conversion of a larger power of ten to uint32 to the implementation; the program only asks for six.
- Redis errors, the 64-bit overflow of INCR, and the millisecond at which an expiry takes effect: a key is gone from its expiry time on.
- Order of audit events by timestamp: stamps are taken before the lock, so reverse insertion order is stated instead.
- Loading of the signing key, token validation and the development seed users.
