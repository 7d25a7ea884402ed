# Book review app: the cache and the request logic around it, in Dafny

This project models the core of a book-review web application (an Express
and MongoDB backend with a Next.js frontend) and proves properties of the model.

- **The in-memory TTL cache** (`backend/src/utils/cacheManager.ts`) is the class
  `Cache.CacheManager`. Its fields are the store (a `map` from key to value and
  expiry time), the default TTL and the handle of the cleanup interval.
  - `Set`, `Get`, `Delete`, `Clear`, `GetOrSet`, `StartCleanupInterval`,
    `StopCleanupInterval` and one tick of the cleanup sweep (`SweepTick`) are
    methods proved against the specification functions `Lookup`, `Deleted`,
    `AfterGet` and `Swept`; `Size` is a function of the store.
  - The clock is a `now` parameter. The wildcard `delete` and the sweep are
    loops over the key set, with invariants.
  - Wildcard patterns are the glob language of module `Glob`. A pattern is
    compiled to `^…$` with each `*` turned into `.*`, so `*` does not cross a
    line terminator.
- **The rule-driven request validator** `validateRequest`
  (`backend/src/utils/validator.ts`) is the method `Validator.ValidateRequest`.
  It loops over the rule map and calls `CheckField`, which models the body of
  one iteration. Both are proved equal to the error map `Validator.Errors`.
- **The book controller's request arithmetic and cache keys**
  (`backend/src/controllers/bookController.ts`) are in `BookController`:
  - page and limit defaulting, `skip`, the page count;
  - the list, reviews and search key formats, and what the review controller's
    `book:<id>:reviews:*` invalidation removes;
  - genre normalisation, the list filter, and the input checks before the
    database calls.
- **Authentication middleware** (`backend/src/middleware/authMiddleware.ts`):
  bearer/cookie token extraction, the checks of `protect`, the
  password-change test and `restrictTo`.
- **Environment validation** (`backend/src/config/env.ts`): defaults,
  `parseInt(.., 10)` of `PORT`, the checks in order, the development secret and
  prefix normalisation. The method `Env.ValidateEnv` updates the settings
  object in place, as the source does.
- **The error handler** (`backend/src/utils/errorHandler.ts`): `AppError` and
  the branch classification of `errorHandler`.
- **Response helpers** (`backend/src/utils/apiUtils.ts`): the `sendResponse`
  envelope and the error folding and 400 decision of `validate`.
- **The signup and login forms** (`frontend/src/app/signup/page.tsx`,
  `frontend/src/app/login/page.tsx`): the `validate` functions and the submit
  gate. The shared e-mail pattern `\S+@\S+\.\S+` is modelled in `FormChecks` as
  an unanchored match, an existential over the positions of `@` and `.`.

Shared notions:
- `Wrappers`: `Option` and `Result`.
- `JsValues`:
  - a dynamically typed JavaScript value;
  - truthiness;
  - `${n}` for integers;
  - `parseInt(s, 10)`;
  - the `\s` class.

## Model

| member | source | states |
|---|---|---|
| Glob.NoStarMatchIsEquality | backend/src/utils/cacheManager.ts:58-72 | a star-free pattern matches exactly itself, so the exact and the wildcard branch of `delete` agree |
| Glob.GlobMatch | backend/src/utils/cacheManager.ts:59-63 | the pattern is anchored at both ends: a match starts with the pattern's first character and ends with its last unless that character is `*` |
| Glob.SelfMatch | backend/src/utils/cacheManager.ts:44 | every key, read as a pattern, matches itself, so lazy eviction and the sweep remove the key they act on whenever that key is `DeletableByGlob` (star-free, or otherwise free of regular-expression syntax) |
| Glob.MatchTransitive | backend/src/utils/cacheManager.ts:122-125 | if pattern a matches key b and b, as a pattern, matches c, then a matches c |
| Glob.StarMatches | backend/src/utils/cacheManager.ts:59 | a lone `*` matches exactly the strings without line terminators (`.` of a JavaScript RegExp) |
| Glob.PrefixStarMatches | backend/src/utils/cacheManager.ts:59-63 | `prefix*` matches key iff key starts with prefix and the rest has no line terminator |
| Glob.StarThenLiteral | backend/src/utils/cacheManager.ts:59-63 | `*suffix` matches `mid + suffix` for any mid without line terminators |
| Glob.LiteralStarLiteral | backend/src/utils/cacheManager.ts:59-63 | `prefix*suffix` matches `prefix + mid + suffix` |
| Cache.EffectiveTTL | backend/src/utils/cacheManager.ts:27 | an absent TTL and a TTL of 0 both give the default TTL, any other TTL is used as given |
| Cache.Lookup | backend/src/utils/cacheManager.ts:36-49 | `get` returns the stored value of a present key up to and including its expiry time, and `undefined` for an absent or expired key |
| Cache.AfterGet | backend/src/utils/cacheManager.ts:36-49 | `get` leaves the store alone for an absent or live key, evicts an expired key, and never adds or changes an entry |
| Cache.Deleted | backend/src/utils/cacheManager.ts:56-73 | the store after `delete(p)` holds exactly the keys p does not match, with their entries unchanged |
| Cache.CacheManager.constructor | backend/src/utils/cacheManager.ts:14-18 | empty store, no interval, default TTL of one hour unless given |
| Cache.CacheManager.Set | backend/src/utils/cacheManager.ts:26-29 | the entry for key becomes (value, now + effective TTL) and every other key is unchanged |
| Cache.CacheManager.Get | backend/src/utils/cacheManager.ts:36-49 | returns the value iff present and `now <= expiry`; an absent key changes nothing; an expired key is evicted through `delete` |
| Cache.CacheManager.Delete | backend/src/utils/cacheManager.ts:56-73 | removes exactly the keys the pattern matches and returns whether any was removed; without `*`, removes only key and returns whether it was present |
| Cache.CacheManager.Clear | backend/src/utils/cacheManager.ts:78-80 | the store is empty afterwards |
| Cache.CacheManager.Size | backend/src/utils/cacheManager.ts:85-87 | the size is zero iff the store is empty |
| Cache.CacheManager.GetOrSet | backend/src/utils/cacheManager.ts:96-109 | a hit returns the cached value without invoking fn; a miss (absent, expired or stored `undefined`) invokes fn once, stores a successful result with the TTL, and stores nothing on failure |
| Cache.CacheManager.StartCleanupInterval | backend/src/utils/cacheManager.ts:115-130 | the running interval, if any, is cleared and replaced by the new one, whose period defaults to five minutes |
| Cache.CacheManager.StopCleanupInterval | backend/src/utils/cacheManager.ts:135-140 | clears the running interval if any; a no-op otherwise; afterwards none runs |
| Cache.CacheManager.SweepTick | backend/src/utils/cacheManager.ts:120-127 | after one tick the store is `Swept`: the entries no expired key matches, whatever the iteration order |
| Cache.DeletedWithoutStar | backend/src/utils/cacheManager.ts:58-72 | for a star-free key, `Deleted` removes that key only, and something is removed iff it was present |
| Cache.SetThenLookup | backend/src/utils/cacheManager.ts:26-48 | after `set`, `get` is a hit returning the value exactly until now + TTL inclusive |
| Cache.ExpiredGetShrinksByOne | backend/src/utils/cacheManager.ts:37-46 | `get` of a present expired star-free key returns `undefined`, evicts that key only and lowers the size by one |
| Cache.SizeCountsExpired | backend/src/utils/cacheManager.ts:85-87 | size counts the live entries plus the expired ones not yet evicted |
| Cache.SweptWithoutStarKeys | backend/src/utils/cacheManager.ts:120-127 | when no key holds `*`, a sweep removes exactly the expired entries and keeps the others unchanged |
| Cache.SweptLeavesNoExpired | backend/src/utils/cacheManager.ts:120-127 | no expired entry survives a sweep |
| Cache.SweepIdempotent | backend/src/utils/cacheManager.ts:120-127 | a second sweep at the same time removes nothing more |
| Cache.ExpiredStarKeyEvictsMatches | backend/src/utils/cacheManager.ts:43-44 | for prefix and suffix free of regular-expression syntax, the expired key `prefix*suffix` is `DeletableByGlob`, reads as `undefined`, and its eviction by `get` also evicts every key `prefix + mid + suffix` |
| Validator.LastFailureIsLast | backend/src/utils/validator.ts:150-205 | the combined verdict is absent iff every check passes, and otherwise is the message of the last failing check |
| Validator.Errors | backend/src/utils/validator.ts:135 | error keys are a subset of the rule keys |
| Validator.CheckField | backend/src/utils/validator.ts:136-205 | one loop iteration computes `FieldError`: a required absent, null or empty value gets "is required", an optional absent or null value gets nothing |
| Validator.ValidateRequest | backend/src/utils/validator.ts:126-220 | calls next iff every field passes; otherwise 400, `success: false`, "Validation failed" and the non-empty map `Errors(rules, body)` |
| Validator.RequiredShortCircuits | backend/src/utils/validator.ts:137-145 | a required missing or empty value gets exactly "<field> is required", whatever the other rules |
| Validator.ChecksAreTypeGated | backend/src/utils/validator.ts:151-188 | length bounds do not affect non-strings and value bounds do not affect non-numbers |
| Validator.NonArrayMessage | backend/src/utils/validator.ts:191-193 | a present non-array under `isArray` gets "<field> must be an array" |
| Validator.ShortArrayMessage | backend/src/utils/validator.ts:195-205 | an array shorter than `minArrayLength` gets "<field> must have at least N items" |
| Validator.LaterCheckOverwrites | backend/src/utils/validator.ts:150-193 | when the length check and the array check both fail, the later array message wins |
| BookController.OrDefault | backend/src/controllers/bookController.ts:45-46 | the parsed query or the fallback: a non-zero parse is kept, NaN and 0 give the fallback |
| BookController.Paginate | backend/src/controllers/bookController.ts:45-47 | page defaults to 1 and limit to 10, neither is ever 0, and skip is (page - 1) * limit |
| BookController.CeilDiv | backend/src/controllers/bookController.ts:93 | `Math.ceil(a / b)` on integers: the least q with a <= q * b for positive b, and the mirror bound for negative b |
| BookController.PageCount | backend/src/controllers/bookController.ts:93 | with a positive limit, pages is non-negative and zero iff there are no items |
| BookController.ItemOnItsPage | backend/src/controllers/bookController.ts:84-93 | every item lies on a page between 1 and the page count, inside that page's skip/limit window |
| BookController.LastPageNonEmpty | backend/src/controllers/bookController.ts:93 | the last page's skip is below the total |
| BookController.RenderPagingPlain | backend/src/controllers/bookController.ts:126 | the rendered `page:limit` suffix has no `*`, no line terminator and no regular-expression syntax |
| BookController.ListKey | backend/src/controllers/bookController.ts:61 | a list key lies in the `books:` namespace and ends in `:<page>:<limit>` |
| BookController.ReviewsKey | backend/src/controllers/bookController.ts:126 | a reviews key is `book:<id>:reviews:` followed by `<page>:<limit>`; its fifth character `:` sets it apart from every list and search key |
| BookController.SearchKey | backend/src/controllers/bookController.ts:201 | a search key starts with `books:search:` and ends in `:<page>:<limit>` |
| BookController.InvalidationHitsOwnReviews | backend/src/controllers/reviewController.ts:55 | `book:<id>:reviews:*` matches every reviews key of that id |
| BookController.InvalidationSparesOtherBooks | backend/src/controllers/reviewController.ts:134 | the pattern matches no reviews key of a different colon-free id |
| BookController.InvalidationSparesListAndSearch | backend/src/controllers/reviewController.ts:98 | the pattern matches no list key and no search key |
| BookController.HexIdPatternDeletable | backend/src/controllers/reviewController.ts:55 | the pattern of a hexadecimal ObjectId is free of regular-expression syntax |
| BookController.InvalidationEffect | backend/src/controllers/reviewController.ts:134 | deleting the pattern of a hexadecimal id removes all its reviews keys and keeps other ids' reviews keys and all list and search keys |
| BookController.ExpiredStarQueryEvictsOtherQueries | backend/src/controllers/bookController.ts:201 | an expired search key whose raw query is `before*after`, with both parts free of regular-expression syntax, is `DeletableByGlob`, and reading it evicts the entries of the queries `before + mid + after` |
| BookController.NormaliseGenre | backend/src/controllers/bookController.ts:33 | a falsy genre becomes undefined, an array is kept, any other value is wrapped in a one-element array |
| BookController.NormaliseGenreIdempotent | backend/src/controllers/bookController.ts:33 | normalising twice is normalising once |
| BookController.BuildFilter | backend/src/controllers/bookController.ts:50-58 | an author regex entry (options "i") iff the author query is non-empty; a genre `$in` entry iff the genre query is non-empty |
| BookController.GetBooksPlan | backend/src/controllers/bookController.ts:44-61 | the list key is `books:<JSON(filter)>:<page>:<limit>` for the filter and paging above |
| BookController.SearchPlan | backend/src/controllers/bookController.ts:189-201 | an absent or empty query fails with 400 "Search query is required" before any key is built; otherwise the key is `books:search:<q>:<page>:<limit>` |
| BookController.UpperCaseKeySurvivesInvalidation | backend/src/controllers/bookController.ts:126 | a reviews key built from an id with upper-case digits is not matched by the pattern of its lower-case stored id |
| BookController.UpperCaseIdExample | backend/src/controllers/bookController.ts:126 | the id of twenty-four `A`s is valid and its key survives invalidation |
| BookController.CanonicalKeyInvalidation | backend/src/controllers/reviewController.ts:98 | with canonical keys, the stored id's pattern matches a URL id's key iff both name the same ObjectId |
| BookController.BookByIdPlan | backend/src/controllers/bookController.ts:106-126 | an invalid id fails with 400 "Invalid book ID", a missing book with 404 "Book not found"; otherwise paging and the canonical reviews key |
| JsValues.IntToString | backend/src/controllers/bookController.ts:61 | `${n}` is a non-empty run of digits led by `-` exactly for negative n |
| JsValues.NatToStringValue | backend/src/config/env.ts:11 | the digits of n read back as n |
| JsValues.ParseInt10 | backend/src/config/env.ts:11 | `parseInt(s, 10)` of the empty string is NaN; a string that starts with a digit gives a non-negative number; one that starts with anything but white space, a sign or a digit gives NaN |
| JsValues.ParseRendered | backend/src/config/env.ts:11 | `parseInt(${n} + rest, 10)` is n whenever rest does not start with a digit |
| JsValues.ParseSkipsSpace | backend/src/config/env.ts:11 | leading white space does not change what `parseInt` reads |
| Env.OrElse | backend/src/config/env.ts:10-17 | an unset or empty variable gives the default; a non-empty value is used as given |
| Env.WithLeadingSlash | backend/src/config/env.ts:47-53 | the result starts with `/`; it is the prefix itself exactly when the prefix already starts with `/`, and `/` + prefix otherwise |
| Env.ValidateEnv | backend/src/config/env.ts:7-60 | returns `ValidatedEnv`; on success NODE_ENV is valid, PORT is in 0..65535, MONGO_URI is non-empty and both prefixes start with `/` |
| Env.CheckOrder | backend/src/config/env.ts:21-44 | the first failing check decides the message: NODE_ENV, then PORT, then MONGO_URI, then a weak secret in production; validation succeeds iff none fails |
| Env.SecretPolicy | backend/src/config/env.ts:33-44 | a weak or missing secret fails in production and is replaced by the development secret elsewhere; the secret used has at least 32 characters |
| Env.PrefixesNormalised | backend/src/config/env.ts:47-53 | both prefixes start with `/` and normalising them again changes nothing |
| Env.WithLeadingSlashIdempotent | backend/src/config/env.ts:47-49 | prefix normalisation is idempotent |
| Env.PortReadBack | backend/src/config/env.ts:11-27 | PORT set to the decimal form of n reads back as n, accepted iff 0 <= n <= 65535 |
| Env.Defaults | backend/src/config/env.ts:9-18 | with only MONGO_URI set, every other setting takes its default (development, 5000, the development secret, 7d, /api/v1, /api, http://localhost:3000) |
| Env.DefaultPort | backend/src/config/env.ts:11 | the default "5000" parses to 5000 |
| ErrorHandler.NewAppError | backend/src/utils/errorHandler.ts:6-12 | keeps message and status, and is always operational |
| ErrorHandler.ValidationDetails | backend/src/utils/errorHandler.ts:57-62 | details hold exactly the paths with a truthy entry |
| ErrorHandler.ValidationDetailsLastEntry | backend/src/utils/errorHandler.ts:57-62 | each path is recorded with the message of its last truthy entry |
| ErrorHandler.HandleError | backend/src/utils/errorHandler.ts:39-93 | always `success: false`; the branches in order: own statusCode, validation 400, duplicate key 400, cast 400, else 500; the stack is sent only in development |
| ErrorHandler.AppErrorKeepsStatus | backend/src/utils/errorHandler.ts:49-52 | a thrown `AppError` takes the statusCode branch with its own status and message |
| ErrorHandler.BranchesExclusive | backend/src/utils/errorHandler.ts:49-85 | at most one branch applies to any error |
| ErrorHandler.DuplicateMessage | backend/src/utils/errorHandler.ts:72-75 | the message always opens with "Duplicate value entered for "; an empty first key is reported as `field` |
| ErrorHandler.DuplicateWithoutKeyValue | backend/src/utils/errorHandler.ts:72-75 | without keyValue the message is "Duplicate value entered for field: undefined" |
| ErrorHandler.DuplicateNamesFirstKey | backend/src/utils/errorHandler.ts:72-75 | with a first key the message names that key and its value |
| ApiUtils.SendResponse | backend/src/utils/apiUtils.ts:42-63 | status unchanged; success and timestamp always present; data iff truthy; message iff non-empty |
| ApiUtils.FormatErrors | backend/src/utils/apiUtils.ts:26-31 | the formatted map's keys are exactly the params of the errors |
| ApiUtils.LastErrorWins | backend/src/utils/apiUtils.ts:28-31 | each param is sent to the message of its last error in array order |
| ApiUtils.Validate | backend/src/utils/apiUtils.ts:14-39 | next iff there are no errors; otherwise 400, `success: false`, "Validation failed" and one key per param |
| ApiUtils.RejectionNonEmpty | backend/src/utils/apiUtils.ts:21-37 | a rejection always carries at least one error |
| AuthMiddleware.Split | backend/src/middleware/authMiddleware.ts:31 | `split(" ")` yields at least one piece, no piece holds the separator, and exactly one piece iff the string has no separator |
| AuthMiddleware.ExtractToken | backend/src/middleware/authMiddleware.ts:28-35 | a header starting with `Bearer` yields a token iff it contains a space, and that token holds no space; otherwise the token is the `jwt` cookie, exactly when it is non-empty |
| AuthMiddleware.JoinSplit | backend/src/middleware/authMiddleware.ts:31 | joining the pieces gives the header back |
| AuthMiddleware.SplitFirst | backend/src/middleware/authMiddleware.ts:31 | splitting `a + " " + b` with a separator-free a gives a, then the pieces of b |
| AuthMiddleware.BearerToken | backend/src/middleware/authMiddleware.ts:30-31 | `Bearer <token>` yields the token whatever the cookie holds |
| AuthMiddleware.BearerWithoutToken | backend/src/middleware/authMiddleware.ts:30-31 | a bare `Bearer` header yields no token and the cookie is not consulted |
| AuthMiddleware.CookieFallback | backend/src/middleware/authMiddleware.ts:32-35 | without a Bearer header the non-empty `jwt` cookie is the token |
| AuthMiddleware.IsTokenIssuedBeforePasswordChanged | backend/src/middleware/authMiddleware.ts:85-91 | true iff iat < changedMs / 1000 in exact division |
| AuthMiddleware.Protect | backend/src/middleware/authMiddleware.ts:25-69 | no token iff 401 "You are not logged in…"; every rejection is a 401; access iff the token verifies, its user exists and it was not issued before a password change, and then the user is the one found; with a token, a failed verification iff `VerifyFailed`, a missing user gives 401 "The user belonging to this token no longer exists", a token issued before the change gives 401 "User recently changed password. Please log in again" |
| AuthMiddleware.PasswordChangeRevokes | backend/src/middleware/authMiddleware.ts:55-63 | a user who never changed the password is let in; a token issued before the change is refused with 401 |
| AuthMiddleware.RestrictTo | backend/src/middleware/authMiddleware.ts:72-82 | passes iff the user's role is listed; otherwise 403 "You do not have permission…" |
| FormChecks.MatchesEmail | frontend/src/app/signup/page.tsx:52 | a match needs an `@`, a `.` and at least five characters |
| FormChecks.ShortNeverMatches | frontend/src/app/signup/page.tsx:52 | a string of fewer than five characters never matches `\S+@\S+\.\S+` |
| FormChecks.NoAtNeverMatches | frontend/src/app/signup/page.tsx:52 | a string without `@` never matches |
| FormChecks.AddressMatches | frontend/src/app/signup/page.tsx:52 | `local@domain.tld` matches when its parts are non-empty and space-free |
| FormChecks.MatchSurvivesContext | frontend/src/app/signup/page.tsx:52 | the pattern is unanchored: text around a match keeps it a match |
| FormChecks.SpacedAddressFails | frontend/src/app/signup/page.tsx:52 | `a @b.c` does not match |
| FormChecks.EmailError | frontend/src/app/signup/page.tsx:50-54 | no error iff the pattern matches; "Email is required" iff empty; otherwise "Please enter a valid email address" |
| FormChecks.PasswordError | frontend/src/app/signup/page.tsx:56-60 | no error iff at least 8 characters; "Password is required" iff empty; otherwise the length message |
| FormChecks.WellFormedPasses | frontend/src/app/login/page.tsx:39-49 | a well-formed address and a password of at least 8 characters pass both checks |
| SignupPage.UsernameError | frontend/src/app/signup/page.tsx:44-48 | no error iff at least 3 characters; "Username is required" iff empty; otherwise the length message |
| SignupPage.ConfirmError | frontend/src/app/signup/page.tsx:62-66 | no error iff the confirmation is non-empty and equals the password; "Please confirm your password" iff empty; otherwise "Passwords don't match" |
| SignupPage.Validate | frontend/src/app/signup/page.tsx:41-69 | each of the four fields is in the error map iff its check fails, with that check's one message |
| SignupPage.OnSubmit | frontend/src/app/signup/page.tsx:71-85 | `register(username, email, password)` runs iff the error map is empty, iff every field is acceptable; otherwise the errors are shown |
| SignupPage.ConfirmIgnoresPasswordValidity | frontend/src/app/signup/page.tsx:56-66 | a confirmed too-short password fails only the password field |
| SignupPage.EmptyFormReportsAll | frontend/src/app/signup/page.tsx:41-69 | an empty form reports every field with its "required" message |
| LoginPage.Validate | frontend/src/app/login/page.tsx:36-52 | email and password are in the error map iff their checks fail, each with one message |
| LoginPage.OnSubmit | frontend/src/app/login/page.tsx:54-68 | `login(email, password)` runs iff the error map is empty, iff the address matches and the password has at least 8 characters |
| LoginPage.SpacedAddressRefused | frontend/src/app/login/page.tsx:39-43 | `a @b.c` is refused with "Please enter a valid email address" and nothing is sent |

## Left out

- Timers and the event loop: `setInterval`/`clearInterval` are not modelled. The handle is an input, and one sweep is the explicit `SweepTick(now)`.
- The clock: `Date.now()` and `new Date().toISOString()` are `now` and `timestamp` parameters.
- Concurrency: two overlapping `getOrSet` calls that both miss and both compute are not modelled, because the model is sequential.
- Cache.CacheManager.Delete: requires that a pattern with `*` is otherwise free of regular-expression syntax. Other metacharacters, and a `RegExp` constructor that throws on an invalid pattern, are not modelled.
- Cache.CacheManager.Get: carries the same requirement, for the case where the key it evicts contains `*`.
- Cache.CacheManager.GetOrSet: carries the same requirement as `Get`.
- Cache.CacheManager.SweepTick: carries the same requirement, for every expired key.
- The database (Mongoose queries, `save`, counting, the rating aggregation), `jwt.verify`, password hashing, the logger and `catchAsync` are not modelled. Where a result is needed, a verdict is an input: `verify`, `findUser`, `idValid`, `found`.
- Express plumbing (`res.status().json()`, `next`) is modelled by result datatypes.
- Numbers are integers. Floating point, `toFixed` for the average rating and non-integer query or body values are not modelled.
- BookController.OrDefault: `parseInt` without a radix (hexadecimal prefixes, trailing text) is not modelled; its result is an input.
- BookController.GetBooksPlan: `JSON.stringify` of the filter is an input function `stringify`.
- String lengths are counted in code points. JavaScript's `.length` counts UTF-16 code units, so the length rules of the validator and the forms differ from the source for characters outside the Basic Multilingual Plane.
- BookController.BookByIdPlan: the verdict of `ObjectId.isValid` is an input. Its acceptance of arbitrary 12-character strings is not modelled; the invalidation lemmas assume 24-digit hexadecimal ids.
- BookController.BookByIdPlan: builds the corrected, canonical key. The key as written is modelled by `ReviewsKey` and examined under Findings.
- The environment is a map over the eight variables `validateEnv` reads. `dotenv` loading and `process.exit(1)` become the `Failure` result.
- The express-validator chains declared in `backend/src/utils/validator.ts` are library rules and are not modelled. Their error list is the input of `ApiUtils.Validate`.
- The rendering and state of the React pages (`useForm`, `form.setError`, loading flags) are not modelled. The submit gate is the `Submit` result.
- `createBook` and the review controller are modelled only as far as they build keys, normalise genres and invalidate the cache.
- The auth controller (registration, login, logout, profile) is not modelled: it issues tokens and talks to the database, and the model starts at the token check in `protect`.

## Findings

| source | as written | input that shows it | evidently intended | confidence | as-written member | corrected member |
|---|---|---|---|---|---|---|
| backend/src/controllers/bookController.ts:126 | `getBookById` builds the reviews cache key from the raw URL id. `ObjectId.isValid` accepts it in upper case too. The review update and delete handlers invalidate `book:<stored id>:reviews:*`, and the stored id renders in lower case. | GET `/books/AAAAAAAAAAAAAAAAAAAAAAAA`, then an update of a review of that book: the pattern `book:aaaaaaaaaaaaaaaaaaaaaaaa:reviews:*` does not match `book:AAAAAAAAAAAAAAAAAAAAAAAA:reviews:1:10`, so stale reviews are served until the TTL ends | keys built from the canonical lower-case id, so that invalidation reaches them however the id was spelled | not executed | BookController.UpperCaseKeySurvivesInvalidation | BookController.CanonicalKeyInvalidation |
