/** The requests the repository lister sends (index.js:43-49). */
module Api {
  import opened Env

  /** One HTTP GET: its URL and its optional Authorization header value. */
  datatype Request = Request(url: string, authorization: Option<string>)

  function DigitChar(d: nat): (c: char)
    requires d < 10
    ensures '0' <= c <= '9'
  {
    ('0' as int + d) as char
  }

  predicate IsDigits(s: string)
  {
    forall i :: 0 <= i < |s| ==> '0' <= s[i] <= '9'
  }

  /** The number a string of decimal digits denotes, most significant first. */
  function Value(s: string): nat
    requires IsDigits(s)
  {
    if s == [] then 0 else Value(s[..|s| - 1]) * 10 + (s[|s| - 1] as int - '0' as int)
  }

  /** The decimal rendering of a page number in a template string (for page
      numbers JavaScript holds exactly, below 2^53): digits that denote the
      number, with no leading zero. */
  function Decimal(n: nat): (s: string)
    ensures 1 <= |s|
    ensures |s| == 1 <==> n < 10
    ensures IsDigits(s)
    ensures Value(s) == n
    ensures n >= 10 ==> s[0] != '0'
    decreases n
  {
    if n < 10 then [DigitChar(n)]
    else
      var s := Decimal(n / 10) + [DigitChar(n % 10)];
      assert s[..|s| - 1] == Decimal(n / 10);
      s
  }

  /** Different numbers are rendered differently: the rendering denotes its
      number, so equal renderings denote the same number. */
  lemma DecimalInjective(m: nat, n: nat)
    requires Decimal(m) == Decimal(n)
    ensures m == n
  {
  }

  function QueryPrefix(server: string, org: string): string
  {
    server + "/api/v1/orgs/" + org + "/repos?page="
  }

  /** The URL of one page of the organisation's repository list. */
  function PageUrl(server: string, org: string, page: nat): string
  {
    QueryPrefix(server, org) + Decimal(page) + "&limit=50"
  }

  /** Two strings framed by the same prefix and suffix are equal when the
      framed strings are. */
  lemma SameFrame(pre: string, a: string, b: string, tail: string)
    requires pre + a + tail == pre + b + tail
    ensures a == b
  {
    assert a == (pre + a + tail)[|pre|..|pre| + |a|];
    assert b == (pre + b + tail)[|pre|..|pre| + |b|];
  }

  /** Distinct pages are asked for at distinct URLs. */
  lemma PageUrlInjective(server: string, org: string, p: nat, q: nat)
    requires PageUrl(server, org, p) == PageUrl(server, org, q)
    ensures p == q
  {
    SameFrame(QueryPrefix(server, org), Decimal(p), Decimal(q), "&limit=50");
    DecimalInjective(p, q);
  }

  /** The request for one page: the token is sent only when it is not blank. */
  function PageRequest(server: string, org: string, token: Option<string>, page: nat): Request
  {
    Request(PageUrl(server, org, page), if Blank(token) then None else Some("token " + token.value))
  }

  /** The requests for pages 1, 2, ..., k, in that order. */
  function PageRequests(server: string, org: string, token: Option<string>, k: nat): (rs: seq<Request>)
  {
    seq(k, i requires 0 <= i < k => PageRequest(server, org, token, i + 1))
  }

  /** No page is requested twice: the k requests go to k different URLs. */
  lemma PageRequestsDistinct(server: string, org: string, token: Option<string>, k: nat, i: nat, j: nat)
    requires i < k && j < k && i != j
    ensures PageRequests(server, org, token, k)[i].url != PageRequests(server, org, token, k)[j].url
  {
    if PageUrl(server, org, i + 1) == PageUrl(server, org, j + 1) {
      PageUrlInjective(server, org, i + 1, j + 1);
    }
  }
}
