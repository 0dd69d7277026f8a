# Client-portal core, modelled in Dafny

This project models the decision logic of a Next.js client portal backed by a
hosted Postgres/auth service. It covers four parts of the application.

- **The request gate** (`middleware.ts`) runs before matched requests. It does three things:
  - it lets the session SDK refresh the session through a cookie adapter;
  - it classifies the path against an allow-list of public prefixes;
  - it redirects a visitor without a user on a non-public path to `/login?redirectTo=<path>`.

  The `config.matcher` pattern decides which requests the gate sees at all.
- **The migration runner** (`scripts/run-migration.mjs`) runs a schema file against the database. It:
  - splits the file on `;`, trims the pieces and drops empty and `--`-led ones;
  - sends each statement, with its `;` put back, to the database;
  - labels the major `CREATE` statements in its progress output;
  - counts successes and errors;
  - exits with 1 when anything failed, or when credentials are missing.
- **The super-admin dashboard** (`app/admin/page.tsx`) works in three steps:
  - it sends a visitor without a user to `/login`;
  - it sends a user who is not a super admin to `/dashboard`;
  - otherwise it issues three service-role requests and renders their answers. Missing counts show as 0. A missing or empty company list shows a placeholder.
- **The browser client singleton** (`lib/supabase/client.ts`) creates one database client on first use and returns that same client afterwards.

The Dafny modules are:

| module | file | content |
|---|---|---|
| `Wrappers` | `text.dfy` | the `Option` type, used for nullable values |
| `Text` | `text.dfy` | JavaScript `startsWith` (the prefix relation `<=`), `endsWith`, `includes`, `trim`, `split` and `join` |
| `RequestGate` | `middleware.dfy` | the gate; its cookie adapter is a class whose methods update the request cookies and replace the response |
| `Migration` | `migration.dfy` | the statement pipeline as functions, and the run loop as a method proved against them |
| `AdminPage` | `admin.dfy` | the page, as pure functions |
| `SupabaseClient` | `client.dfy` | the lazily filled module slot, as a class |

The outside world enters as inputs:
- The SDK's work during each `getUser` call is a sequence of cookie writes, plus whether a user came back.
- Each database call's outcome is an input value.
- The signed-in user and the answers to the admin requests are inputs.
- Environment variables are parameters.

### Behaviour worth knowing

- **No path is protected.** The file's header comment (middleware.ts:2-8) says the gate protects routes that require authentication. The comment at middleware.ts:76 says a path that requires auth and has no logged-in user is redirected to login. But the allow-list contains `/`, and the classification is a `startsWith` test, so every path that starts with `/` is public.
  - `RequestGate.PublicIffRooted` proves that a path is public exactly when it starts with `/`.
  - `RequestGate.NeverRedirects` proves that the redirect branch cannot be taken for such a path.
  - The model follows the code.
- **No normalisation.** Paths are compared raw and case-sensitively, with no trailing-slash or case normalisation.
- **Redirects carry no cookies.** The redirect response is built fresh (middleware.ts:86) and carries none of the refreshed cookies.
- **Only the last cookie write survives.** Each write replaces the pass-through response, so the response carries only the last cookie written (`RequestGate.ApplyWrites`). The request cookies, by contrast, accumulate every write.

## Model

| member | source | states |
|---|---|---|
| Text.TrimStart | scripts/run-migration.mjs:43 | the result is a suffix of the input; the part removed is all whitespace; the result does not start with whitespace |
| Text.TrimEnd | scripts/run-migration.mjs:43 | the result is a prefix of the input; the part removed is all whitespace; the result does not end with whitespace |
| Text.Trim | scripts/run-migration.mjs:43 | the trimmed string has no whitespace at either end and is no longer than the input |
| Text.TrimStrips | scripts/run-migration.mjs:43 | `trim` only cuts a whitespace prefix and a whitespace suffix; the result is a contiguous middle part of the input |
| Text.TrimStartSkips | scripts/run-migration.mjs:43 | leading whitespace does not affect the start-trimmed result |
| Text.TrimEndSkips | scripts/run-migration.mjs:43 | trailing whitespace does not affect the end-trimmed result |
| Text.TrimExact | scripts/run-migration.mjs:43 | trimming any whitespace-wrapped string whose ends are not whitespace returns exactly that string |
| Text.TrimIdempotent | scripts/run-migration.mjs:43 | trimming twice is the same as trimming once |
| Text.Split | scripts/run-migration.mjs:42 | `split(';')` yields one more piece than there are separators, and no piece contains the separator |
| Text.JoinSplit | scripts/run-migration.mjs:42 | joining the pieces with the separator gives back the original text: splitting loses nothing |
| Text.SplitPrefix | scripts/run-migration.mjs:42 | a separator-free prefix becomes the start of the first piece |
| Text.SplitJoin | scripts/run-migration.mjs:42 | splitting a join of separator-free pieces gives those pieces back |
| Text.Contains | scripts/run-migration.mjs:61-65 | defines JavaScript `includes`: the text occurs at some position; also used for the `not found` test at :85 |
| Migration.TrimAll | scripts/run-migration.mjs:43 | the map step trims every piece, position by position, keeping the count |
| Migration.Kept | scripts/run-migration.mjs:44 | defines the filter's test: a piece is kept when it is non-empty and does not start with `--` |
| Migration.Statements | scripts/run-migration.mjs:41-44 | defines the statement list: split on `;`, trim each piece, keep the pieces that pass the test |
| Migration.FilterKept | scripts/run-migration.mjs:44 | the filter returns no more pieces than it gets, and only non-empty pieces that do not start with `--` |
| Migration.FilterKeptSpec | scripts/run-migration.mjs:44 | the filter keeps exactly the pieces that pass the test, each as often as it occurs, in their original order |
| Migration.StatementsShape | scripts/run-migration.mjs:41-44 | there are at most (number of `;`) + 1 statements; each is non-empty, trimmed, free of `;` and does not start with `--` |
| Migration.FilterKeptShape | scripts/run-migration.mjs:44 | filtering trimmed, `;`-free pieces yields only well-formed statements |
| Migration.TrimKeepsOut | scripts/run-migration.mjs:43 | trimming never introduces a character, so a `;`-free piece stays `;`-free |
| Migration.StatementsOrder | scripts/run-migration.mjs:41-44 | the statements are the trimmed pieces in file order, minus exactly the empty and `--`-led ones |
| Migration.CommentedPieceDropped | scripts/run-migration.mjs:41-44 | a piece whose trimmed text starts with `--` contributes no statement |
| Migration.SplitPiece | scripts/run-migration.mjs:42 | a `;`-free piece followed by `;` is split off as the first piece |
| Migration.CommentLineSwallowsStatement | scripts/run-migration.mjs:41-44 | a `--` comment line directly before a statement makes the whole piece a comment, so that statement is never run |
| Migration.CommentPieceTrimmed | scripts/run-migration.mjs:43-44 | a piece that begins with a `--` comment still starts with `--` after trimming |
| Migration.SkipNeverFires | scripts/run-migration.mjs:53-58 | for a well-formed statement with `;` appended, trimming changes nothing and the in-loop skip test is false: the `continue` is dead code |
| Migration.Skipped | scripts/run-migration.mjs:56 | defines the in-loop skip test: the trimmed statement is `;` alone or starts with `--` |
| Migration.FlagsOf | scripts/run-migration.mjs:61-65 | defines the five `includes` tests; the function flag is set by either spelling of `CREATE ... FUNCTION` |
| Migration.Label | scripts/run-migration.mjs:67-76 | a label exists exactly when some `CREATE` flag is set; it is a set flag, and no flag of higher precedence (table, index, trigger, function, policy) is set |
| Migration.ProgressLine | scripts/run-migration.mjs:61-79 | a progress line is printed exactly when some flag is set; its label is the highest-precedence flag that is set; the name is the regex capture when it matched, and `unknown` otherwise |
| Migration.Execute | scripts/run-migration.mjs:81-107 | a statement succeeds exactly when the call returns without an error; a `not found` error becomes the fixed direct-SQL message; other errors and thrown errors fail with their own message |
| Migration.SuccessesBound | scripts/run-migration.mjs:94-99 | the success count is at most the number of statements, and equals it exactly when every call returned without an error |
| Migration.ExitCode | scripts/run-migration.mjs:114-127 | the exit code is 1 exactly when the error count is positive, and 0 otherwise |
| Migration.ExitCodeIffSomeFailure | scripts/run-migration.mjs:48-127 | the run exits with 1 exactly when at least one statement failed |
| Migration.Configured | scripts/run-migration.mjs:15 | defines when an environment variable counts as set: present and not the empty string |
| Migration.Steps | scripts/run-migration.mjs:52-108 | there is one report per database call |
| Migration.StepsAt | scripts/run-migration.mjs:52-108 | the k-th report carries the progress line of the k-th statement (with `;` appended) and its name capture, and the result of the k-th call |
| Migration.Report | scripts/run-migration.mjs:53-107 | defines one statement's report: the progress line of the statement with `;` put back, and the result of its call |
| Migration.RunStatements | scripts/run-migration.mjs:48-108 | the loop's success count equals the number of calls that returned without an error; every statement adds to exactly one counter; the reports are the per-statement reports in order |
| Migration.Migrate | scripts/run-migration.mjs:12-19 | with a missing or empty URL or key, the run exits with 1 and nothing runs; otherwise the counts cover every statement of the file, the reports (progress line and result) are those of the statements, and the exit code follows the error count |
| RequestGate.PublicIffRooted | middleware.ts:73-74 | a path is public exactly when it starts with `/` |
| RequestGate.IsPublicPath | middleware.ts:73-74 | defines the classifier: some allow-list entry is a prefix of the path, compared case-sensitively |
| RequestGate.Decide | middleware.ts:77-88 | the gate redirects exactly when the path is not public and no user came back, and the redirect returns to the original path |
| RequestGate.NeverRedirects | middleware.ts:73-88 | no path that starts with `/` is ever redirected |
| RequestGate.Others | middleware.ts:85 | removing every parameter under a name leaves none under it; exactly the entries under that name are removed; nothing changes when there were none |
| RequestGate.OthersMembers | middleware.ts:85 | the entries left are exactly those of the original list whose name differs |
| RequestGate.SetParam | middleware.ts:85 | after `searchParams.set`, reading the name gives the new value; exactly one entry has that name; all other entries keep their order |
| RequestGate.SetParamAppends | middleware.ts:85 | with no entry under the name, `set` appends the new entry at the end and changes nothing else |
| RequestGate.SetParamInPlace | middleware.ts:85 | otherwise the new entry takes the place of the first entry under the name, and every entry before it is unchanged |
| RequestGate.SetParamPlaces | middleware.ts:85 | the two placement facts, for every position at once |
| RequestGate.RedirectUrl | middleware.ts:83-85 | the redirect target keeps the origin and fragment; its path is `/login`; its only `redirectTo` is the original path, in the place of the first existing `redirectTo` (everything before it unchanged) or appended at the end; every other query parameter is kept, in order |
| RequestGate.CookieAdapter.constructor | middleware.ts:14-18 | the gate starts from the request's cookies and a pass-through response with no cookies |
| RequestGate.CookieAdapter.Get | middleware.ts:25-27 | `get` returns the request cookie's value exactly when the cookie is present |
| RequestGate.CookieAdapter.Set | middleware.ts:28-44 | `set` updates the request cookie and replaces the response with a pass-through response that carries only this cookie |
| RequestGate.CookieAdapter.Remove | middleware.ts:45-61 | `remove` sets the request cookie to the empty string and replaces the response with one carrying only that empty cookie |
| RequestGate.LastWriteTo | middleware.ts:28-61 | there is a last write to a name exactly when some write has that name; its value is the value written by a write to that name that no later write to the name follows |
| RequestGate.ReplayLookup | middleware.ts:28-61 | after a series of writes, each request cookie holds the value of its last write; untouched cookies keep their values |
| RequestGate.ReplayAppend | middleware.ts:28-61 | the writes of two `getUser` calls compose: replaying them together is replaying one after the other |
| RequestGate.ApplyWrites | middleware.ts:28-61 | the callbacks of one SDK call leave the request cookies as the replay of the writes; after at least one write, the response is a pass-through that carries exactly the last cookie written |
| RequestGate.Middleware | middleware.ts:13-91 | on a pass-through, the request cookies passed on are the replay of all writes seen and the response carries the last write only; the redirect carries no cookies; for every path starting with `/` the second user check is never made and the response is the refreshed pass-through |
| RequestGate.NextAssetsSkipped | middleware.ts:103 | the gate never runs for paths under `/_next/static` or `/_next/image` |
| RequestGate.ImagesSkipped | middleware.ts:103 | the gate never runs for a path ending in `.svg`, `.png`, `.jpg`, `.jpeg`, `.gif` or `.webp`, at any depth |
| RequestGate.FaviconWildcard | middleware.ts:103 | the unescaped `.` in `favicon.ico` matches any character that is not a line terminator, so `/faviconXico...` is skipped too |
| RequestGate.OrdinaryPagesRun | middleware.ts:103 | the gate runs for every path that has no dot, is outside `/_next/` and does not start with `/favicon`; this includes nested paths like `/docs/_next/static` |
| RequestGate.MatcherRunsOn | middleware.ts:103 | defines the matcher as a whole-path match: a leading `/`, no line terminator after it, and no excluded prefix or suffix |
| RequestGate.Excluded | middleware.ts:103 | defines the negative lookahead: `_next/static`, `_next/image`, `favicon` + any character + `ico`, or a dot and an image extension at the end |
| RequestGate.FaviconAt | middleware.ts:103 | defines the `favicon.ico` alternative, whose unescaped `.` matches any character but a line terminator |
| AdminPage.AccessFor | app/admin/page.tsx:7-16 | no user leads to login; a user whose profile is missing or not a super admin leads to the dashboard; only a super admin is let through |
| AdminPage.AdminQueries | app/admin/page.tsx:27-32 | defines the three requests: exact counts of `clients` and `users`, and six columns of `clients` ordered by `created_at` descending, limited to 10 |
| AdminPage.CountDisplay | app/admin/page.tsx:89 | a returned count is shown as is; a missing count shows as 0 |
| AdminPage.StatCards | app/admin/page.tsx:89-159 | the company and user cards show the counts with the 0 fallback; Active Plans always equals Total Companies; the status reads Online |
| AdminPage.RenderRow | app/admin/page.tsx:176-201 | each row is keyed by the client's id, titled with its company name, and shows `<plan> plan` |
| AdminPage.Recent | app/admin/page.tsx:175-208 | the placeholder is shown exactly when the list is missing or empty; otherwise there is one row per company, in list order, keyed by the company's id |
| AdminPage.AdminDashboardPage | app/admin/page.tsx:6-33 | the redirects to `/login` and `/dashboard` happen exactly under the access rules; requests are issued only for a super admin, and then they are the three admin requests; the rendered dashboard is the stats and the recent view of the answers |
| AdminPage.RedirectIgnoresAnswers | app/admin/page.tsx:9-16 | a redirected visitor triggers no request, and the page does not depend on what the database would answer |
| AdminPage.RecentHonoursLimit | app/admin/page.tsx:29-32 | the recent request reads `clients`, newest `created_at` first; an answer within its limit renders at most 10 rows |
| AdminPage.RowKeysDistinct | app/admin/page.tsx:176-179 | distinct client ids give distinct row keys |
| SupabaseClient.BrowserClient.constructor | lib/supabase/client.ts:12-15 | a client is bound to the project URL and anonymous key it was built with |
| SupabaseClient.CreateClient | lib/supabase/client.ts:11-16 | every call builds a new client for the given URL and key, and touches no existing object, including the cached one |
| SupabaseClient.ClientModule.constructor | lib/supabase/client.ts:19 | at module load nothing is cached and no client exists |
| SupabaseClient.ClientModule.GetSupabaseClient | lib/supabase/client.ts:21-26 | the result is never null and is the cached client; it is created on the first call only; later calls return the same client and create nothing; at most one client is ever created |
| SupabaseClient.CallTwice | lib/supabase/client.ts:21-26 | two calls in a row return the same client, and exactly one client exists afterwards |

## Left out

- The session SDK, the database SDK and the network are not modelled. This covers `auth.getUser`, `rpc('exec_sql')`, `from(...).select` and the two client constructors. Their effects and answers are inputs.
- The fallback query at scripts/run-migration.mjs:87 is issued and its answer ignored. Only the fixed error thrown after it is modelled.
- Cookie options are not modelled. These are the attributes spread into each `cookies.set`.
- The request headers copied into each pass-through response are not modelled.
- URL serialisation and percent-encoding of `redirectTo` are not modelled.
- The translation of the `config.matcher` entry into a path-to-regexp pattern is left out. The pattern is read as a JavaScript regular expression matched against the whole path.
- The regular-expression name capture at scripts/run-migration.mjs:68 is left out. Its result enters `Migration.ProgressLine` as an optional name.
- Console and stdout output is left out: progress text, icons, the summary and the next-steps text. Only the label, the name and the per-statement result are modelled.
- Reading the migration file and the process exit are left out. The file's text is a parameter, and the exit code is a returned value.
- `Promise.all` concurrency is left out. The three admin requests are modelled as one list.
- Date formatting (`toLocaleDateString`) and the page's markup are left out. A row carries `created_at` unformatted.
- `getCurrentUser` (lib/auth/actions.ts) is left out as an operation. Only its result shape enters the model: no user, or a user with an optional profile.
- SupabaseClient.CreateClient: it does not model any caching inside the SDK's own browser-client constructor. Every call allocates a new client.
- The other pages, the layout, the header component and the helper scripts that only probe tables or resize images are not part of this model.
