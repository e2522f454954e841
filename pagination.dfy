/** The token client: the paginated fetch of every token in the listing
    (getAllGitLabTokens). A single page request is an oracle result. */
module Pagination {
  import opened Tokens

  /** Why one page request failed: transport error, a status other than
      200, or a body that is not a JSON array of tokens. */
  datatype FetchError = Network | HttpStatus(code: int) | Decode

  datatype Result<T> = Ok(value: T) | Err(error: FetchError)

  /** What one page request yields. */
  type PageResult = Result<seq<Token>>

  /** The listing as the client would see it: page n (counted from 1) is
      pages[n - 1]; every page past the end of the sequence is empty. */
  function PageAt(pages: seq<PageResult>, n: int): (r: PageResult)
    ensures n < 1 || n > |pages| ==> r == Ok([])
    ensures 1 <= n <= |pages| ==> r == pages[n - 1]
  {
    if 1 <= n <= |pages| then pages[n - 1] else Ok([])
  }

  /** A page after which pagination goes on: it succeeded and held tokens. */
  predicate Continues(p: PageResult) {
    p.Ok? && p.value != []
  }

  function Prepend(acc: seq<Token>, r: Result<seq<Token>>): Result<seq<Token>> {
    match r
    case Ok(ts) => Ok(acc + ts)
    case Err(e) => Err(e)
  }

  lemma PrependTwice(a: seq<Token>, b: seq<Token>, r: Result<seq<Token>>)
    ensures Prepend(a, Prepend(b, r)) == Prepend(a + b, r)
  {
    if r.Ok? {
      assert a + (b + r.value) == (a + b) + r.value;
    }
  }

  /** The outcome of fetching the whole listing, page by page: an error
      ends it with that error, an empty page ends it successfully, a page
      with tokens contributes them ahead of the rest. */
  function Gather(pages: seq<PageResult>): Result<seq<Token>> {
    if pages == [] then Ok([])
    else match pages[0]
      case Err(e) => Err(e)
      case Ok(ts) => if ts == [] then Ok([]) else Prepend(ts, Gather(pages[1..]))
  }

  /** How many page requests the fetch makes. */
  function RequestCount(pages: seq<PageResult>): nat {
    if pages == [] || !Continues(pages[0]) then 1 else 1 + RequestCount(pages[1..])
  }

  /** The index of the first page that stops pagination (an error or an
      empty page); |pages| when every listed page holds tokens. */
  function FirstStop(pages: seq<PageResult>): (k: nat)
    ensures k <= |pages|
    ensures forall i :: 0 <= i < k ==> Continues(pages[i])
    ensures k < |pages| ==> !Continues(pages[k])
  {
    if pages == [] || !Continues(pages[0]) then 0 else 1 + FirstStop(pages[1..])
  }

  /** The tokens of the successful pages, in page order. */
  function Concat(pages: seq<PageResult>): seq<Token> {
    if pages == [] then []
    else (if pages[0].Ok? then pages[0].value else []) + Concat(pages[1..])
  }

  /** The pages 1, 2, ..., n, in request order. */
  function PageNumbers(n: nat): (s: seq<int>)
    ensures |s| == n
    ensures forall i :: 0 <= i < n ==> s[i] == i + 1
  {
    if n == 0 then [] else PageNumbers(n - 1) + [n]
  }

  /** The fetch as a whole: with k = FirstStop(pages), exactly k + 1 pages
      are requested; if page k + 1 failed the result is that error and none
      of the tokens gathered so far; otherwise it is the concatenation of
      the first k pages. */
  lemma {:induction false} GatherCharacterised(pages: seq<PageResult>)
    ensures RequestCount(pages) == FirstStop(pages) + 1
    ensures var k := FirstStop(pages);
      Gather(pages) == if k < |pages| && pages[k].Err? then Err(pages[k].error) else Ok(Concat(pages[..k]))
  {
    if pages != [] && Continues(pages[0]) {
      var k := FirstStop(pages);
      GatherCharacterised(pages[1..]);
      assert pages[..k] == [pages[0]] + pages[1..][..k - 1];
      assert Concat(pages[..k]) == pages[0].value + Concat(pages[1..][..k - 1]);
    } else {
      assert pages[..0] == [];
    }
  }

  /** k pages with tokens followed by an empty page: k + 1 requests, and the
      result is the first k pages concatenated, whatever later pages hold. */
  lemma StopsAtFirstEmptyPage(pages: seq<PageResult>, k: nat, later: seq<PageResult>)
    requires k <= |pages|
    requires forall i :: 0 <= i < k ==> Continues(pages[i])
    requires k < |pages| ==> pages[k] == Ok([])
    ensures RequestCount(pages) == k + 1
    ensures Gather(pages) == Ok(Concat(pages[..k]))
    ensures k < |pages| ==> Gather(pages[..k + 1] + later) == Gather(pages)
  {
    FirstStopIs(pages, k);
    GatherCharacterised(pages);
    if k < |pages| {
      var q := pages[..k + 1] + later;
      assert q[..k] == pages[..k];
      assert forall i :: 0 <= i < k ==> q[i] == pages[i];
      FirstStopIs(q, k);
      GatherCharacterised(q);
    }
  }

  /** An error on page k + 1 after k pages with tokens: k + 1 requests, and
      the fetch fails with that error, keeping none of the earlier tokens. */
  lemma ErrorDiscardsGatheredPages(pages: seq<PageResult>, k: nat)
    requires k < |pages|
    requires forall i :: 0 <= i < k ==> Continues(pages[i])
    requires pages[k].Err?
    ensures RequestCount(pages) == k + 1
    ensures Gather(pages) == Err(pages[k].error)
  {
    FirstStopIs(pages, k);
    GatherCharacterised(pages);
  }

  /** FirstStop is determined by its contract. */
  lemma FirstStopIs(pages: seq<PageResult>, k: nat)
    requires k <= |pages|
    requires forall i :: 0 <= i < k ==> Continues(pages[i])
    requires k < |pages| ==> !Continues(pages[k])
    ensures FirstStop(pages) == k
  {
  }

  /** getAllGitLabTokens: requests pages 1, 2, 3, ... one at a time, appends
      each page's tokens, stops at the first empty page and gives up with
      the error, discarding everything gathered, at the first failed page.
      `requested` lists the page numbers requested, in order. */
  method FetchAll(pages: seq<PageResult>) returns (r: Result<seq<Token>>, requested: seq<int>)
    ensures r == Gather(pages)
    ensures requested == PageNumbers(RequestCount(pages))
  {
    var allTokens: seq<Token> := [];
    var page := 1;
    requested := [];
    assert pages[0..] == pages;
    if Gather(pages).Ok? {
      assert [] + Gather(pages).value == Gather(pages).value;
    }
    while true
      invariant 1 <= page <= |pages| + 1
      invariant requested == PageNumbers(page - 1)
      invariant Gather(pages) == Prepend(allTokens, Gather(pages[page - 1..]))
      invariant RequestCount(pages) == page - 1 + RequestCount(pages[page - 1..])
      decreases |pages| + 1 - page
    {
      var tokens := PageAt(pages, page);
      requested := requested + [page];
      if tokens.Err? {
        return Err(tokens.error), requested;
      }
      if |tokens.value| == 0 {
        assert allTokens + [] == allTokens;
        break;
      }
      assert pages[page - 1..][1..] == pages[page..];
      PrependTwice(allTokens, tokens.value, Gather(pages[page..]));
      allTokens := allTokens + tokens.value;
      page := page + 1;
    }
    r := Ok(allTokens);
  }
}
