/** The run of the mirror rewriter (index.js:31-89) with the network, the
    subprocess and the process exit replaced by values: the server's answers
    are a sequence of responses indexed by page number, the outcome of each
    `git config` command is an oracle indexed by the command's position, and
    the end of the run is an Outcome. */
module MirrorHelper {
  import opened Env
  import opened GitUrl
  import opened Api

  /** A repository record as the hosting API returns it. */
  datatype Repo = Repo(fullName: string, cloneUrl: string, mirror: bool)

  /** What an HTTP response body parses to. */
  datatype Body = JsonArray(items: seq<Repo>) | Unparsable

  /** The settled result of one `fetch`: a rejected promise, or a response. */
  datatype Response = NetworkError | Http(status: int, body: Body)

  /** Why a run ends with exit code 1. */
  datatype Failure =
    | MissingInputs          // index.js:32-35
    | FetchFailed(status: int) // index.js:51-54
    | Crashed                // an exception reaching main().catch, index.js:86-89

  /** One `url.<newUrl>.insteadOf <oldUrl>` rule. */
  datatype Rewrite = Rewrite(newUrl: string, oldUrl: string)

  /** One `git config` command issued, and whether it succeeded. */
  datatype Attempt = Attempt(command: Rewrite, succeeded: bool)

  datatype Outcome = Aborted(failure: Failure) | Done(attempts: seq<Attempt>)

  /** The lister's result: every repository, or the failure that ended it. */
  datatype Listing = Listed(repos: seq<Repo>) | Failed(failure: Failure)

  /** How the run reads one page: a failure, or the array of repositories. */
  datatype PageResult = Page(items: seq<Repo>) | Fails(failure: Failure)

  /** `resp.ok` of a fetch Response. */
  predicate IsOk(status: int)
  {
    200 <= status <= 299
  }

  /** The process exit code of an outcome. */
  function ExitCode(o: Outcome): int
  {
    if o.Done? then 0 else 1
  }

  /** The required inputs test of index.js:32. */
  predicate MissingRequired(server: Option<string>, org: Option<string>)
  {
    Blank(server) || Blank(org)
  }

  /** The server's answer to page `page` (numbered from 1); pages beyond the
      given ones are empty, so every run reaches an empty page. */
  function PageAt(responses: seq<Response>, page: nat): Response
    requires 1 <= page
  {
    if page <= |responses| then responses[page - 1] else Http(200, JsonArray([]))
  }

  function Classify(r: Response): PageResult
  {
    match r
    case NetworkError => Fails(Crashed)
    case Http(status, body) =>
      if !IsOk(status) then Fails(FetchFailed(status))
      else match body
        case Unparsable => Fails(Crashed)
        case JsonArray(items) => Page(items)
  }

  /** Does this response make the lister ask for the next page? */
  predicate HasMore(r: Response)
  {
    Classify(r).Page? && |Classify(r).items| > 0
  }

  /** The repositories a response contributes. */
  function Items(r: Response): seq<Repo>
  {
    if Classify(r).Page? then Classify(r).items else []
  }

  /** The pages' repositories concatenated in page order. */
  function Concat(pages: seq<Response>): seq<Repo>
  {
    if pages == [] then [] else Concat(pages[..|pages| - 1]) + Items(pages[|pages| - 1])
  }

  /** The first page at or after `p` that does not continue the listing. */
  function StopFrom(responses: seq<Response>, p: nat): (k: nat)
    requires 1 <= p
    ensures p <= k
    ensures k <= |responses| + 1 || k == p
    ensures !HasMore(PageAt(responses, k))
    ensures forall q :: p <= q < k ==> HasMore(PageAt(responses, q))
    decreases |responses| + 1 - p
  {
    if !HasMore(PageAt(responses, p)) then p else StopFrom(responses, p + 1)
  }

  /** The last page the lister requests: the first one that is empty or
      fails. Every earlier page is a non-empty array. */
  function StopPage(responses: seq<Response>): (k: nat)
    ensures 1 <= k <= |responses| + 1
    ensures !HasMore(PageAt(responses, k))
    ensures forall q :: 1 <= q < k ==> HasMore(PageAt(responses, q))
  {
    StopFrom(responses, 1)
  }

  /** What the lister produces from the server's answers. */
  function ListRepos(responses: seq<Response>): Listing
  {
    var k := StopPage(responses);
    match Classify(PageAt(responses, k))
    case Fails(f) => Failed(f)
    case Page(_) => Listed(Concat(responses[..k - 1]))
  }

  /** The first page that does not continue the listing is the stop page. */
  lemma StopPageUnique(responses: seq<Response>, j: nat)
    requires 1 <= j
    requires !HasMore(PageAt(responses, j))
    requires forall q :: 1 <= q < j ==> HasMore(PageAt(responses, q))
    ensures StopPage(responses) == j
  {
  }

  /** N non-empty pages followed by an empty one: N + 1 requests, and the
      listing is the N pages concatenated in order. */
  lemma ListReposFullPages(pages: seq<Response>, status: int)
    requires forall i :: 0 <= i < |pages| ==> HasMore(pages[i])
    requires IsOk(status)
    ensures StopPage(pages + [Http(status, JsonArray([]))]) == |pages| + 1
    ensures ListRepos(pages + [Http(status, JsonArray([]))]) == Listed(Concat(pages))
  {
    var rs := pages + [Http(status, JsonArray([]))];
    forall q | 1 <= q < |pages| + 1
      ensures HasMore(PageAt(rs, q))
    {
      assert PageAt(rs, q) == pages[q - 1];
    }
    StopPageUnique(rs, |pages| + 1);
    assert rs[..|pages|] == pages;
  }

  /** A non-ok status before the first empty page ends the listing there:
      exactly j pages are requested and the run fails with that status. */
  lemma ListReposFailure(responses: seq<Response>, j: nat, status: int)
    requires 1 <= j <= |responses|
    requires forall q :: 1 <= q < j ==> HasMore(PageAt(responses, q))
    requires responses[j - 1].Http? && responses[j - 1].status == status && !IsOk(status)
    ensures StopPage(responses) == j
    ensures ListRepos(responses) == Failed(FetchFailed(status))
  {
    StopPageUnique(responses, j);
  }

  /** The paginate-until-empty loop of index.js:39-61: pages 1, 2, ... are
      requested one after the other; each non-empty array is appended to the
      list; the first empty array ends the loop; a non-ok status or a
      response that cannot be read ends the whole listing. */
  method FetchAllRepos(server: string, org: string, token: Option<string>, responses: seq<Response>)
    returns (requests: seq<Request>, listing: Listing)
    ensures requests == PageRequests(server, org, token, StopPage(responses))
    ensures listing == ListRepos(responses)
  {
    var page := 1;
    var repos: seq<Repo> := [];
    requests := [];
    while true
      invariant 1 <= page <= StopPage(responses)
      invariant requests == PageRequests(server, org, token, page - 1)
      invariant repos == Concat(responses[..page - 1])
      decreases |responses| + 1 - page
    {
      requests := requests + [PageRequest(server, org, token, page)];
      var resp := PageAt(responses, page);
      match resp {
        case NetworkError =>
          return requests, Failed(Crashed);
        case Http(status, body) =>
          if !IsOk(status) {
            return requests, Failed(FetchFailed(status));
          }
          match body {
            case Unparsable =>
              return requests, Failed(Crashed);
            case JsonArray(data) =>
              if |data| == 0 {
                break;
              }
              assert responses[..page] == responses[..page - 1] + [responses[page - 1]];
              repos := repos + data;
              page := page + 1;
          }
      }
    }
    listing := Listed(repos);
  }

  /** The rewrite rule for a repository: both sides are its clone URL
      without the ".git" suffix. */
  function RewriteFor(repo: Repo): Rewrite
  {
    Rewrite(StripGitSuffix(repo.cloneUrl), StripGitSuffix(repo.cloneUrl))
  }

  /** The rewrites for the mirror-flagged repositories, in list order. Every
      one maps a URL to itself, and there is at most one per repository. */
  function MirrorRewrites(repos: seq<Repo>): (rws: seq<Rewrite>)
    ensures |rws| <= |repos|
    ensures forall i :: 0 <= i < |rws| ==> rws[i].newUrl == rws[i].oldUrl
  {
    if repos == [] then []
    else (if repos[0].mirror then [RewriteFor(repos[0])] else []) + MirrorRewrites(repos[1..])
  }

  /** The rewrites of two lists back to back are those of each, in order. */
  lemma {:induction false} MirrorRewritesAppend(a: seq<Repo>, b: seq<Repo>)
    ensures MirrorRewrites(a + b) == MirrorRewrites(a) + MirrorRewrites(b)
  {
    if a == [] {
      assert a + b == b;
    } else {
      assert (a + b)[1..] == a[1..] + b;
      MirrorRewritesAppend(a[1..], b);
    }
  }

  /** A rewrite is issued for a repository exactly when it is a mirror, and
      then it is that repository's rule. */
  lemma {:induction false} MirrorRewritesMembership(repos: seq<Repo>, rw: Rewrite)
    ensures rw in MirrorRewrites(repos) <==>
      exists i :: 0 <= i < |repos| && repos[i].mirror && rw == RewriteFor(repos[i])
  {
    if repos != [] {
      MirrorRewritesMembership(repos[1..], rw);
      if rw in MirrorRewrites(repos[1..]) {
        var i :| 0 <= i < |repos[1..]| && repos[1..][i].mirror && rw == RewriteFor(repos[1..][i]);
        assert repos[i + 1] == repos[1..][i];
      }
      if exists i :: 0 <= i < |repos| && repos[i].mirror && rw == RewriteFor(repos[i]) {
        var i :| 0 <= i < |repos| && repos[i].mirror && rw == RewriteFor(repos[i]);
        if i > 0 {
          assert repos[1..][i - 1] == repos[i];
        }
      }
    }
  }

  /** The positions of the mirror-flagged repositories. */
  ghost function MirrorIndices(repos: seq<Repo>): set<int>
  {
    set i | 0 <= i < |repos| && repos[i].mirror
  }

  /** Exactly one rule per mirror: as many rules as mirror-flagged repositories. */
  lemma {:induction false} MirrorRewritesCount(repos: seq<Repo>)
    ensures |MirrorRewrites(repos)| == |MirrorIndices(repos)|
  {
    if repos == [] {
      assert MirrorIndices(repos) == {};
    } else {
      var init, last := repos[..|repos| - 1], repos[|repos| - 1];
      MirrorRewritesCount(init);
      assert repos == init + [last];
      MirrorRewritesAppend(init, [last]);
      assert MirrorRewrites([last]) == (if last.mirror then [RewriteFor(last)] else []);
      if last.mirror {
        assert MirrorIndices(repos) == MirrorIndices(init) + {|init|};
      } else {
        assert MirrorIndices(repos) == MirrorIndices(init);
      }
    }
  }

  /** No command at all is issued exactly when no repository is a mirror. */
  lemma {:induction false} NoMirrorsNoCommands(repos: seq<Repo>)
    ensures MirrorRewrites(repos) == [] <==> forall i :: 0 <= i < |repos| ==> !repos[i].mirror
  {
    if repos != [] {
      NoMirrorsNoCommands(repos[1..]);
      if forall i :: 0 <= i < |repos[1..]| ==> !repos[1..][i].mirror {
        if !repos[0].mirror {
          forall i | 0 <= i < |repos| ensures !repos[i].mirror {
            if i > 0 { assert repos[i] == repos[1..][i - 1]; }
          }
        }
      } else {
        var i :| 0 <= i < |repos[1..]| && repos[1..][i].mirror;
        assert repos[i + 1].mirror;
      }
    }
  }

  /** One mirror on page 1 and an empty page 2: two pages are requested and
      the listing is that one repository. */
  lemma ScenarioSingleMirrorListing(up: Repo)
    ensures StopPage([Http(200, JsonArray([up])), Http(200, JsonArray([]))]) == 2
    ensures ListRepos([Http(200, JsonArray([up])), Http(200, JsonArray([]))]) == Listed([up])
  {
    var page1 := Http(200, JsonArray([up]));
    ListReposFullPages([page1], 200);
    assert [page1] + [Http(200, JsonArray([]))] == [page1, Http(200, JsonArray([]))];
    assert Concat([page1]) == [up];
  }

  /** The URL of page 2 in that scenario. */
  lemma ScenarioSecondPageUrl()
    ensures PageUrl("https://git.example.com", "acme", 2)
      == "https://git.example.com/api/v1/orgs/acme/repos?page=2&limit=50"
  {
    var prefix := "https://git.example.com/api/v1/orgs/acme/repos?page=";
    assert QueryPrefix("https://git.example.com", "acme") == prefix;
    assert Decimal(2) == "2";
    assert prefix + "2" + "&limit=50"
      == "https://git.example.com/api/v1/orgs/acme/repos?page=2&limit=50";
  }

  /** The second request of that scenario, without a token: page 2's URL and
      no Authorization header. */
  lemma ScenarioSecondRequest()
    ensures PageRequests("https://git.example.com", "acme", None, 2)[1]
      == Request(PageUrl("https://git.example.com", "acme", 2), None)
  {
    assert PageRequests("https://git.example.com", "acme", None, 2)[1]
      == PageRequest("https://git.example.com", "acme", None, 2);
  }

  /** The one rule of that scenario maps the clone URL without ".git" to itself. */
  lemma ScenarioSingleMirrorRewrite()
    ensures MirrorRewrites([Repo("acme/up", "https://git.example.com/acme/up.git", true)])
      == [Rewrite("https://git.example.com/acme/up", "https://git.example.com/acme/up")]
  {
    StripAppendedSuffix("https://git.example.com/acme/up");
    assert "https://git.example.com/acme/up" + GitSuffix == "https://git.example.com/acme/up.git";
  }

  /** The commands issued, in order. */
  function Commands(attempts: seq<Attempt>): seq<Rewrite>
  {
    seq(|attempts|, i requires 0 <= i < |attempts| => attempts[i].command)
  }

  /** The mirror pass of index.js:63-81: one `git config` command per mirror,
      in list order; a failed command is recorded and the pass goes on. */
  method InstallRewrites(repos: seq<Repo>, exec: nat -> bool) returns (attempts: seq<Attempt>)
    ensures Commands(attempts) == MirrorRewrites(repos)
    ensures forall i :: 0 <= i < |attempts| ==> attempts[i].succeeded == exec(i)
  {
    attempts := [];
    for j := 0 to |repos|
      invariant Commands(attempts) == MirrorRewrites(repos[..j])
      invariant forall i :: 0 <= i < |attempts| ==> attempts[i].succeeded == exec(i)
    {
      var repo := repos[j];
      if repo.mirror {
        var oldUrl := StripGitSuffix(repo.cloneUrl);
        var newUrl := StripGitSuffix(repo.cloneUrl);
        var ok := exec(|attempts|);
        attempts := attempts + [Attempt(Rewrite(newUrl, oldUrl), ok)];
      }
      assert repos[..j + 1] == repos[..j] + [repo];
      MirrorRewritesAppend(repos[..j], [repo]);
    }
    assert repos[..|repos|] == repos;
  }

  /** The whole run: the input guard, the lister, then the mirror pass. */
  method Run(server: Option<string>, org: Option<string>, token: Option<string>,
             responses: seq<Response>, exec: nat -> bool)
    returns (requests: seq<Request>, outcome: Outcome)
    ensures MissingRequired(server, org) ==> requests == [] && outcome == Aborted(MissingInputs)
    ensures !MissingRequired(server, org) ==>
      requests == PageRequests(server.value, org.value, token, StopPage(responses))
    ensures !MissingRequired(server, org) && ListRepos(responses).Failed? ==>
      outcome == Aborted(ListRepos(responses).failure)
    ensures !MissingRequired(server, org) && ListRepos(responses).Listed? ==>
      && outcome.Done?
      && Commands(outcome.attempts) == MirrorRewrites(ListRepos(responses).repos)
      && forall i :: 0 <= i < |outcome.attempts| ==> outcome.attempts[i].succeeded == exec(i)
    ensures ExitCode(outcome) == 0 <==> !MissingRequired(server, org) && ListRepos(responses).Listed?
  {
    if MissingRequired(server, org) {
      return [], Aborted(MissingInputs);
    }
    var listing;
    requests, listing := FetchAllRepos(server.value, org.value, token, responses);
    if listing.Failed? {
      return requests, Aborted(listing.failure);
    }
    var attempts := InstallRewrites(listing.repos, exec);
    outcome := Done(attempts);
  }
}
