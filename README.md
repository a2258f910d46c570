# git-mirror-helper-action, modelled in Dafny

The action lists every repository of an organisation on a Gitea-style hosting
API, page by page (50 records per page, pages 1, 2, 3, … until the first empty
page). For each repository flagged as a mirror it runs
`git config --global url."<newUrl>".insteadOf "<oldUrl>"`, where both URLs are
the repository's clone URL with one trailing `.git` removed. A missing server
or organisation, a non-ok HTTP status, or any exception ends the run with exit
code 1. A failed `git config` command is logged, and the pass goes on.

The model is `index.js` with its I/O replaced by values:

- `env.dfy` (module `Env`): environment variables as `Option<string>`, and JavaScript's falsiness test on them (`Blank`).
- `git_url.dfy` (module `GitUrl`): `StripGitSuffix` and its properties.
- `api.dfy` (module `Api`): the request sent for page *n*. This is its URL, with the page number rendered in decimal, and the `Authorization: token …` header, sent only when the token is not blank.
- `mirror_helper.dfy` (module `MirrorHelper`): the run.
  - The server's answers are a `seq<Response>` indexed by page number. A page past the end of the sequence is an empty array, so every run reaches an empty page. This gives the `while (true)` loop its termination measure.
  - A `Response` is either a rejected `fetch` (`NetworkError`) or an HTTP status with a body. The body is either a JSON array of repositories or `Unparsable`.
  - The success of the *i*-th `git config` command is given by an oracle `exec: nat -> bool`.
  - The end of the run is an `Outcome`: `Aborted(failure)` (exit code 1) or `Done(attempts)` (exit code 0).
  - `FetchAllRepos` and `InstallRewrites` are the two loops of `main`, written as loops with invariants. Each is proved against a specification function: `ListRepos`, built on `StopPage` and `Concat`, and `MirrorRewrites`. `Run` puts the input guard, the lister and the mirror pass together.

Two facts about `index.js` that the model follows:

- `index.js` writes every rule into the global configuration with `git config --global`, and it has no include-file mode. The lemmas `ScenarioSingleMirrorListing`, `ScenarioSecondPageUrl`, `ScenarioSecondRequest` and `ScenarioSingleMirrorRewrite` describe a one-mirror example run.
- Besides a non-ok status, a rejected `fetch` or a body that is not JSON also ends the run with exit code 1, through the `main().catch` handler (index.js:86-89). The model calls this failure `Crashed`.
- `oldUrl` and `newUrl` are computed identically, so every rule maps a URL to itself. The model keeps this as written (`MirrorRewrites` ensures it). The code does not reveal any other intended target.

Definitions without a contract of their own, and the lines they model:

- `Env.Blank` (index.js:32, 45): JavaScript's `!x` on an environment variable, true when it is unset or empty.
- `MirrorHelper.MissingRequired` (index.js:32): the input guard, which fails when the server or the organisation is blank.
- `Api.PageUrl` (index.js:43): the URL template `<server>/api/v1/orgs/<org>/repos?page=<page>&limit=50`.
- `Api.PageRequest` (index.js:43-49): that URL, plus the header `Authorization: token <token>` when the token is not blank.
- `MirrorHelper.Classify` (index.js:46-57, 86-89): how one response is read. A rejected `fetch` is `Crashed`. A status outside 200-299 is `FetchFailed(status)`. A body `resp.json()` cannot parse is `Crashed`. Otherwise the result is the parsed array.
- `MirrorHelper.RewriteFor` (index.js:67-68): the rule for one repository, with both sides equal to `StripGitSuffix(clone_url)`.
- `MirrorHelper.ListRepos` (index.js:39-61): the reference definition of the listing, used as `FetchAllRepos`'s contract. Given the stop page k, a failing page k gives that failure. Otherwise the result is pages 1..k-1 concatenated.

## Model

| member | source | states |
|---|---|---|
| GitUrl.StripGitSuffix | index.js:27-29 | the result is a prefix of the URL; it differs from the URL exactly when the URL ends with ".git"; then it is 4 characters shorter and appending ".git" gives back the URL |
| GitUrl.StripAppendedSuffix | index.js:28 | stripping undoes appending ".git" to any string |
| GitUrl.StripRemovesOnlyOneSuffix | index.js:28 | only one trailing ".git" is removed: "x.git.git" becomes "x.git", and a second strip is needed to reach "x" |
| GitUrl.StripGitSuffixCharacterization | index.js:27-29 | `r` is the result for `url` if and only if `url` is `r` + ".git", or `url` has no ".git" suffix and `r` is `url` |
| Api.Decimal | index.js:43 | the rendering of `${page}` is a non-empty string of decimal digits that denotes the page number, with no leading zero, and a single digit exactly when the number is below 10 |
| Api.DecimalInjective | index.js:43 | different page numbers render as different decimal strings (a consequence of `Decimal` denoting its number) |
| Api.PageUrlInjective | index.js:43 | different page numbers give different request URLs for the same server and organisation |
| Api.PageRequestsDistinct | index.js:39-60 | the k requests of a listing go to k pairwise different URLs, so no page is requested twice |
| MirrorHelper.StopFrom | index.js:42-61 | starting from page p, the loop stops at the first page k >= p that is not a non-empty array, and every page from p to k-1 is one |
| MirrorHelper.StopPage | index.js:42-61 | the last page requested is between 1 and one past the supplied pages; it is empty or fails, and every earlier page is a non-empty array |
| MirrorHelper.StopPageUnique | index.js:42-61 | any page that stops the listing and has only non-empty arrays before it is the stop page |
| MirrorHelper.ListReposFullPages | index.js:39-61 | N non-empty pages followed by an empty one: exactly N+1 pages are requested, and the listing is the N pages concatenated in order |
| MirrorHelper.ListReposFailure | index.js:51-54 | a non-ok status on page j, after only non-empty pages: exactly j pages are requested, and the listing fails with that status |
| MirrorHelper.FetchAllRepos | index.js:39-61 | the requests are pages 1..k in order, where k is the stop page; the result is the concatenation of pages 1..k-1, or the failure of page k (non-ok status, or an exception) |
| MirrorHelper.MirrorRewrites | index.js:63-68 | no more rules than repositories, and every rule has oldUrl equal to newUrl |
| MirrorHelper.MirrorRewritesCount | index.js:63-68 | there are exactly as many rules as mirror-flagged repositories |
| MirrorHelper.MirrorRewritesAppend | index.js:63-64 | the rules of two lists back to back are the rules of each, in list order |
| MirrorHelper.MirrorRewritesMembership | index.js:63-68 | a rule is issued if and only if some mirror-flagged repository has it, the rule being both sides equal to its stripped clone URL |
| MirrorHelper.NoMirrorsNoCommands | index.js:63-64 | no command is issued if and only if no repository is a mirror |
| MirrorHelper.InstallRewrites | index.js:63-81 | the commands issued are exactly the mirrors' rules in list order, whichever commands fail; the i-th attempt's success is the oracle's answer for i |
| MirrorHelper.Run | index.js:31-89 | a blank server or organisation gives exit 1 with no request; otherwise pages 1..k are requested; a failing page k gives exit 1 and no command; otherwise the run is Done with one command per mirror of the listing, in order, and exit code 0 |
| MirrorHelper.ScenarioSingleMirrorListing | index.js:39-61 | one repository on page 1 and an empty page 2: two pages are requested and the listing is that repository |
| MirrorHelper.ScenarioSecondPageUrl | index.js:43 | page 2 of organisation `acme` on `https://git.example.com` is requested at `https://git.example.com/api/v1/orgs/acme/repos?page=2&limit=50` |
| MirrorHelper.ScenarioSecondRequest | index.js:43-46 | without a token, the second request is page 2's URL with no Authorization header |
| MirrorHelper.ScenarioSingleMirrorRewrite | index.js:63-76 | the mirror `https://git.example.com/acme/up.git` gets the one rule mapping `https://git.example.com/acme/up` to itself |

## Left out

- Api.PageRequestsDistinct: page numbers are unbounded integers. In JavaScript `page` is a double. After 2^53 - 1 non-empty pages, `page++` no longer changes it, and the source would request the same URL again. No real organisation has that many pages.
- HTTP, `node-fetch` and JSON parsing: the server's answers are an abstract sequence indexed by page number. A JSON value that is not an array, and records without a string `clone_url`, are not modelled.
- `execSync` and the shell: a command is the `(newUrl, oldUrl)` pair. Its success is an oracle. Quoting, git's key parsing and git's handling of duplicate entries are external.
- Console output and `process.exit`: a failed command shows in its `Attempt` as `succeeded == false`, and the exit code is `ExitCode(outcome)`.
- Reading `process.env`: the inputs are parameters.
- The `await` suspensions: the run is sequential, and each page is requested after the previous one has been read.
- cleanup.js: it only runs `git config --unset-all` and deletes a file, each inside try/catch. There is no computation in it to model.
