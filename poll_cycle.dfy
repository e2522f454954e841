/** One iteration of the poll loop in checkTokenExpirations: fetch every
    token, then evaluate each one and set its gauge. The 24-hour sleep and
    the endless repetition are outside the model. */
module PollCycle {
  import opened Tokens
  import opened Pagination
  import opened Expiration
  import opened Gauges

  /** The clock readings of one pass: clock(i) is what time.Now() returns
      when the i-th fetched token (counted from 0) reaches the day count. */
  type Clock = nat -> int

  /** The readings of a clock from the n-th token on. */
  function Shift(clock: Clock, n: nat): Clock {
    (i: nat) => clock(n + i)
  }

  /** The readings of a clock with the n-th token's reading left out. */
  function Skip(clock: Clock, n: nat): Clock {
    (i: nat) => if i < n then clock(i) else clock(i + 1)
  }

  lemma SkipKeepsEarlierReadings(clock: Clock, n: nat)
    ensures forall i :: 0 <= i < n ==> clock(i) == Skip(clock, n)(i)
  {
  }

  lemma SkipShiftsLaterReadings(clock: Clock, n: nat, len: nat)
    ensures forall i :: 0 <= i < len ==> Shift(clock, n + 1)(i) == Shift(Skip(clock, n), n)(i)
  {
  }

  /** Token t, judged at instant now, sets the series k. */
  predicate Writes(t: Token, k: Labels, parse: Parser, now: int) {
    var d := Decide(t, parse, now);
    d.Publish? && d.key == k
  }

  /** The gauges after one token has been handled: a published token
      creates or overwrites its own series with its days; a skipped token
      leaves the gauges as they were; nothing is removed. */
  function Step(m: Series, t: Token, parse: Parser, now: int): (r: Series)
    ensures m.Keys <= r.Keys
    ensures !Decide(t, parse, now).Publish? ==> r == m
    ensures var d := Decide(t, parse, now); d.Publish? ==> d.key in r && r[d.key] == d.days
  {
    match Decide(t, parse, now)
    case Publish(k, days) => m[k := days]
    case _ => m
  }

  /** One token touches at most its own series: every other series keeps
      its presence and its value. */
  lemma StepTouchesOnlyItsSeries(m: Series, t: Token, parse: Parser, now: int, k: Labels)
    requires !Writes(t, k, parse, now)
    ensures var r := Step(m, t, parse, now);
      (k in r <==> k in m) && (k in m ==> r[k] == m[k])
  {
  }

  /** The gauges after the tokens have been handled in order. Series are
      only ever added or overwritten, never removed. */
  function ApplyTokens(m: Series, ts: seq<Token>, parse: Parser, clock: Clock): (r: Series)
    ensures m.Keys <= r.Keys
    decreases |ts|
  {
    if ts == [] then m
    else Step(ApplyTokens(m, ts[..|ts| - 1], parse, clock), ts[|ts| - 1], parse, clock(|ts| - 1))
  }

  /** The gauges after one poll cycle: a failed fetch leaves them exactly
      as they were; a successful one only adds or overwrites series. */
  function Cycle(m: Series, pages: seq<PageResult>, parse: Parser, clock: Clock): (r: Series)
    ensures Gather(pages).Err? ==> r == m
    ensures m.Keys <= r.Keys
  {
    match Gather(pages)
    case Err(_) => m
    case Ok(ts) => ApplyTokens(m, ts, parse, clock)
  }

  /** One more token of the list: the next prefix is one more Step. */
  lemma ApplyTokensPrefix(m: Series, ts: seq<Token>, i: nat, parse: Parser, clock: Clock)
    requires i < |ts|
    ensures ApplyTokens(m, ts[..i + 1], parse, clock) == Step(ApplyTokens(m, ts[..i], parse, clock), ts[i], parse, clock(i))
  {
    assert ts[..i + 1][..i] == ts[..i];
  }

  /** Only the readings taken for the tokens handled matter. */
  lemma {:induction false} SameReadingsSameGauges(m: Series, ts: seq<Token>, parse: Parser, c1: Clock, c2: Clock)
    requires forall i :: 0 <= i < |ts| ==> c1(i) == c2(i)
    ensures ApplyTokens(m, ts, parse, c1) == ApplyTokens(m, ts, parse, c2)
    decreases |ts|
  {
    if ts != [] {
      SameReadingsSameGauges(m, ts[..|ts| - 1], parse, c1, c2);
    }
  }

  /** Handling a + b is handling a, then b with the later readings. */
  lemma {:induction false} ApplyTokensConcat(m: Series, a: seq<Token>, b: seq<Token>, parse: Parser, clock: Clock)
    ensures ApplyTokens(m, a + b, parse, clock)
         == ApplyTokens(ApplyTokens(m, a, parse, clock), b, parse, Shift(clock, |a|))
    decreases |b|
  {
    if b == [] {
      assert a + b == a;
    } else {
      var ab, init, last := a + b, b[..|b| - 1], b[|b| - 1];
      var shifted, before := Shift(clock, |a|), ApplyTokens(m, a, parse, clock);
      calc {
        ApplyTokens(m, ab, parse, clock);
        { assert ab[..|ab| - 1] == a + init && ab[|ab| - 1] == last; }
        Step(ApplyTokens(m, a + init, parse, clock), last, parse, clock(|ab| - 1));
        { ApplyTokensConcat(m, a, init, parse, clock); }
        Step(ApplyTokens(before, init, parse, shifted), last, parse, clock(|ab| - 1));
        { assert shifted(|b| - 1) == clock(|ab| - 1); }
        Step(ApplyTokens(before, init, parse, shifted), last, parse, shifted(|b| - 1));
        ApplyTokens(before, b, parse, shifted);
      }
    }
  }

  lemma SkippedLastToken(m: Series, a: seq<Token>, t: Token, parse: Parser, clock: Clock)
    requires !Decide(t, parse, clock(|a|)).Publish?
    ensures ApplyTokens(m, a + [t], parse, clock) == ApplyTokens(m, a, parse, clock)
  {
    var at := a + [t];
    assert at[..|at| - 1] == a && at[|at| - 1] == t;
  }

  /** A token that is skipped (unparseable expiry or redacted name) changes
      nothing: the cycle goes on with the next token as if it were absent. */
  lemma SkippedTokenChangesNothing(m: Series, a: seq<Token>, t: Token, b: seq<Token>, parse: Parser, clock: Clock)
    requires !Decide(t, parse, clock(|a|)).Publish?
    ensures ApplyTokens(m, a + [t] + b, parse, clock) == ApplyTokens(m, a + b, parse, Skip(clock, |a|))
  {
    var skipped, at := Skip(clock, |a|), a + [t];
    var before := ApplyTokens(m, a, parse, clock);
    calc {
      ApplyTokens(m, a + [t] + b, parse, clock);
      { ApplyTokensConcat(m, at, b, parse, clock); }
      ApplyTokens(ApplyTokens(m, at, parse, clock), b, parse, Shift(clock, |at|));
      { SkippedLastToken(m, a, t, parse, clock); }
      ApplyTokens(before, b, parse, Shift(clock, |at|));
      { SkipShiftsLaterReadings(clock, |a|, |b|);
        SameReadingsSameGauges(before, b, parse, Shift(clock, |at|), Shift(skipped, |a|)); }
      ApplyTokens(before, b, parse, Shift(skipped, |a|));
      { SkipKeepsEarlierReadings(clock, |a|);
        SameReadingsSameGauges(m, a, parse, clock, skipped); }
      ApplyTokens(ApplyTokens(m, a, parse, skipped), b, parse, Shift(skipped, |a|));
      { ApplyTokensConcat(m, a, b, parse, skipped); }
      ApplyTokens(m, a + b, parse, skipped);
    }
  }

  /** A series no token writes keeps its presence and its value. */
  lemma {:induction false} UntouchedSeries(m: Series, ts: seq<Token>, k: Labels, parse: Parser, clock: Clock)
    requires forall i :: 0 <= i < |ts| ==> !Writes(ts[i], k, parse, clock(i))
    ensures var r := ApplyTokens(m, ts, parse, clock);
      (k in r <==> k in m) && (k in m ==> r[k] == m[k])
    decreases |ts|
  {
    if ts != [] {
      var init := ts[..|ts| - 1];
      assert forall i :: 0 <= i < |init| ==> init[i] == ts[i];
      UntouchedSeries(m, init, k, parse, clock);
      assert !Writes(ts[|ts| - 1], k, parse, clock(|ts| - 1));
    }
  }

  /** Overwrite semantics: a series holds the value of the last token that
      wrote it, judged at that token's clock reading. */
  lemma {:induction false} LastWriteWins(m: Series, ts: seq<Token>, i: nat, k: Labels, parse: Parser, clock: Clock)
    requires i < |ts|
    requires Writes(ts[i], k, parse, clock(i))
    requires forall j :: i < j < |ts| ==> !Writes(ts[j], k, parse, clock(j))
    ensures var r := ApplyTokens(m, ts, parse, clock);
      k in r && r[k] == Decide(ts[i], parse, clock(i)).days
    decreases |ts|
  {
    var init := ts[..|ts| - 1];
    if i < |ts| - 1 {
      assert forall j :: i < j < |init| ==> init[j] == ts[j];
      LastWriteWins(m, init, i, k, parse, clock);
      assert !Writes(ts[|ts| - 1], k, parse, clock(|ts| - 1));
    }
  }

  /** Every series the cycle adds belongs to a token that wrote it. */
  lemma {:induction false} NewSeriesComeFromTokens(m: Series, ts: seq<Token>, k: Labels, parse: Parser, clock: Clock)
    requires k in ApplyTokens(m, ts, parse, clock) && k !in m
    ensures exists i :: 0 <= i < |ts| && Writes(ts[i], k, parse, clock(i))
    decreases |ts|
  {
    var init := ts[..|ts| - 1];
    if !Writes(ts[|ts| - 1], k, parse, clock(|ts| - 1)) {
      NewSeriesComeFromTokens(m, init, k, parse, clock);
      var i :| 0 <= i < |init| && Writes(init[i], k, parse, clock(i));
      assert init[i] == ts[i];
    }
  }

  /** No series labelled "Private Token" is ever created or changed. */
  lemma RedactedSeriesUntouched(m: Series, ts: seq<Token>, k: Labels, parse: Parser, clock: Clock)
    requires k.tokenName == RedactedName
    ensures var r := ApplyTokens(m, ts, parse, clock);
      (k in r <==> k in m) && (k in m ==> r[k] == m[k])
  {
    UntouchedSeries(m, ts, k, parse, clock);
  }

  /** A failed page, after any number of pages with tokens, leaves every
      gauge as it was: nothing fetched in that cycle is published. */
  lemma FetchErrorPublishesNothing(m: Series, pages: seq<PageResult>, k: nat, parse: Parser, clock: Clock)
    requires k < |pages|
    requires forall i :: 0 <= i < k ==> Continues(pages[i])
    requires pages[k].Err?
    ensures Cycle(m, pages, parse, clock) == m
  {
    ErrorDiscardsGatheredPages(pages, k);
  }

  /** k pages with tokens and then an empty page (listed, or the first one
      past the end of the listing): the cycle handles exactly the tokens of
      those k pages, in page order. */
  lemma SuccessfulCycleHandlesAllPages(m: Series, pages: seq<PageResult>, k: nat, parse: Parser, clock: Clock)
    requires k <= |pages|
    requires forall i :: 0 <= i < k ==> Continues(pages[i])
    requires k < |pages| ==> pages[k] == Ok([])
    ensures Cycle(m, pages, parse, clock) == ApplyTokens(m, Concat(pages[..k]), parse, clock)
  {
    StopsAtFirstEmptyPage(pages, k, []);
  }

  /** checkTokenExpirations, one pass of its loop: fetch all pages; on an
      error leave the gauges alone; otherwise pad, parse, skip unparseable
      expiries and the redacted name, read the clock, and set each remaining
      token's gauge to its whole days until expiry. */
  method CheckTokenExpirations(gauges: GaugeVec, pages: seq<PageResult>, parse: Parser, clock: Clock)
    returns (requested: seq<int>)
    modifies gauges
    ensures gauges.series == Cycle(old(gauges.series), pages, parse, clock)
    ensures requested == PageNumbers(RequestCount(pages))
  {
    var tokens;
    tokens, requested := FetchAll(pages);
    if tokens.Err? {
      return;
    }
    ghost var start := gauges.series;
    var ts := tokens.value;
    for i := 0 to |ts|
      invariant gauges.series == ApplyTokens(start, ts[..i], parse, clock)
    {
      ApplyTokensPrefix(start, ts, i, parse, clock);
      var token := ts[i];
      var expirationDateStr := token.expiresAt;
      if ByteLength(expirationDateStr) == DateOnlyLength {
        expirationDateStr := expirationDateStr + EndOfDaySuffix;
      }
      assert expirationDateStr == Pad(token.expiresAt);
      var expirationDate := parse(expirationDateStr);
      if expirationDate.None? {
        continue;
      }
      if token.name == RedactedName {
        continue;
      }
      var now := clock(i);
      var daysUntilExpiration := DaysUntil(expirationDate.value, now);
      gauges.Set(Labels(token.name, DecimalString(token.id), token.username), daysUntilExpiration);
    }
    assert ts[..|ts|] == ts;
  }
}
