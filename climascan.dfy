/**
 * The `climascan` edge function: it validates the posted URL, measures the
 * page, turns the per-visit CO2 estimate into a yearly figure and a
 * sustainability score, and gathers four recommendations from the AI reply or
 * a fixed fallback list.
 *
 * The carbon formula of the third-party library, the network, the URL
 * constructor and `JSON.parse` are parameters. Grams and scores are `real`;
 * `toFixed(2)` followed by `parseFloat` is `Round2`.
 */
module ClimaScan {
  import opened Wrappers
  import opened JsText
  import opened JsNumber

  // ---------------------------------------------------------------------------
  // Requests and responses

  /** The `url` member of the JSON body: missing, present but not a string, or a string. */
  datatype UrlField = Absent | NonString | Text(s: string)

  /** The request body: `req.json()` either fails with a message or yields the `url` member. */
  datatype Body = Unparsable(reason: string) | Json(url: UrlField)

  datatype Request = Preflight | Post(body: Body)

  /** What fetching the page gave: its body length and `Content-Length` header, or a failure or abort. */
  datatype FetchOutcome = Fetched(bodyLength: nat, contentLength: Option<string>) | FetchFailed

  /** The per-category percentages reported with every estimate. */
  datatype Breakdown = Breakdown(images: nat, css: nat, javascript: nat, other: nat)

  datatype ScanEstimate = ScanEstimate(
    co2PerView: real,
    co2PerYear: real,
    sustainabilityScore: real,
    breakdown: Breakdown,
    recommendations: seq<string>,
    bytes: int)

  /** A CORS preflight answer, an estimate, or an error body with its HTTP status. */
  datatype Response = CorsPreflight | Estimate(estimate: ScanEstimate) | Failure(status: int, error: string)

  const ErrorStatus := 500

  // ---------------------------------------------------------------------------
  // URL validation

  /** The outcome of reading the body: the URL to scan, or the message of the error that ends the request. */
  datatype Checked = Accepted(url: string) | Rejected(message: string)

  /**
   * A falsy or non-string `url` is "URL is required"; a string the URL
   * constructor refuses is "Invalid URL format"; a body that cannot be read
   * ends the request with the reader's own message.
   */
  function CheckRequest(body: Body, urlParses: string -> bool): (c: Checked)
    ensures c.Accepted? <==> body.Json? && body.url.Text? && body.url.s != [] && urlParses(body.url.s)
    ensures c.Accepted? ==> c.url == body.url.s
    ensures body.Json? && !(body.url.Text? && body.url.s != []) ==> c == Rejected("URL is required")
    ensures body.Json? && body.url.Text? && body.url.s != [] && !urlParses(body.url.s) ==>
      c == Rejected("Invalid URL format")
    ensures body.Unparsable? ==> c == Rejected(body.reason)
  {
    match body
    case Unparsable(reason) => Rejected(reason)
    case Json(url) =>
      if !url.Text? || url.s == [] then Rejected("URL is required")
      else if !urlParses(url.s) then Rejected("Invalid URL format")
      else Accepted(url.s)
  }

  // ---------------------------------------------------------------------------
  // Page size

  /** The size assumed for a page that could not be fetched. */
  const FallbackBytes := 2000000

  /** The `Content-Length` value as `parseInt` reads it; a missing or empty header is skipped. */
  function HeaderBytes(contentLength: Option<string>): (h: Option<int>)
    ensures contentLength.None? || contentLength.value == [] ==> h.None?
  {
    if contentLength.None? || contentLength.value == [] then None
    else ParseInt(contentLength.value)
  }

  /**
   * The page size: the larger of the body length and a readable
   * `Content-Length`, or the fallback when the fetch failed.
   */
  function PageBytes(page: FetchOutcome): (bytes: int)
    ensures page.FetchFailed? ==> bytes == FallbackBytes
    ensures page.Fetched? ==>
      var h := HeaderBytes(page.contentLength);
      && bytes >= page.bodyLength
      && (h.Some? ==> bytes >= h.value)
      && (bytes == page.bodyLength || h == Some(bytes))
  {
    match page
    case FetchFailed => FallbackBytes
    case Fetched(bodyLength, contentLength) =>
      var h := HeaderBytes(contentLength);
      if h.Some? && h.value > bodyLength then h.value else bodyLength
  }

  /** Measures the page step by step: body length, then a larger header, or the fallback on failure. */
  method MeasurePage(page: FetchOutcome) returns (bytes: int)
    ensures bytes == PageBytes(page)
    ensures bytes >= 0
  {
    if page.FetchFailed? {
      bytes := FallbackBytes;
      return;
    }
    bytes := page.bodyLength;
    var header := HeaderBytes(page.contentLength);
    if header.Some? && header.value > bytes {
      bytes := header.value;
    }
  }

  /** A decimal `Content-Length` of n gives the larger of n and the body length. */
  lemma {:induction false} DecimalHeader(bodyLength: nat, n: nat)
    ensures PageBytes(Fetched(bodyLength, Some(NatToString(n)))) == if n > bodyLength then n else bodyLength
  {
    ParseIntDecimal(n);
  }

  /** Without a usable header the size is the body length. */
  lemma {:induction false} NoHeader(bodyLength: nat, contentLength: Option<string>)
    requires HeaderBytes(contentLength).None?
    ensures PageBytes(Fetched(bodyLength, contentLength)) == bodyLength
  {
  }

  // ---------------------------------------------------------------------------
  // Yearly figure and sustainability score

  /** `co2PerView * 10000 / 1000`, rounded to hundredths. */
  function YearlyFigure(co2PerView: real): (y: real)
    ensures 10.0 * co2PerView - 0.005 <= y <= 10.0 * co2PerView + 0.005
    ensures IsHundredths(y)
  {
    Round2(co2PerView * 10000.0 / 1000.0)
  }

  /** For a per-view figure already in hundredths the yearly figure is exactly ten times it. */
  lemma {:induction false} YearlyIsTenfold(co2PerView: real)
    requires IsHundredths(co2PerView)
    ensures YearlyFigure(co2PerView) == 10.0 * co2PerView
  {
    var k := (co2PerView * 100.0).Floor;
    assert co2PerView == k as real / 100.0;
    assert co2PerView * 10000.0 / 1000.0 == (10 * k) as real / 100.0;
    Round2Exact(10 * k);
  }

  const MedianCo2 := 0.5

  /** The four bands of the score: 0.95 up to 0.1 g, then three linear pieces, each rounded to hundredths. */
  function SustainabilityScore(c: real): (score: real)
    ensures IsHundredths(score)
  {
    if c <= 0.1 then WholeHundredths(95); 0.95
    else if c <= MedianCo2 then Round2(0.7 + 0.25 * (1.0 - c / MedianCo2))
    else if c <= 1.5 then Round2(0.3 + 0.4 * (1.0 - (c - MedianCo2) / 1.0))
    else Round2(Max(0.05, 0.3 - (c - 1.5) * 0.1))
  }

  /** The range of each band. */
  lemma {:induction false} ScoreBands(c: real)
    ensures c <= 0.1 ==> SustainabilityScore(c) == 0.95
    ensures 0.1 < c <= 0.5 ==> 0.7 <= SustainabilityScore(c) <= 0.9
    ensures 0.5 < c <= 1.5 ==> 0.3 <= SustainabilityScore(c) <= 0.7
    ensures 1.5 < c ==> 0.05 <= SustainabilityScore(c) <= 0.3
  {
    Round2Exact(5);
    Round2Exact(30);
    Round2Exact(70);
    Round2Exact(90);
    if 0.1 < c <= 0.5 {
      var x := 0.7 + 0.25 * (1.0 - c / MedianCo2);
      Round2Monotone(0.7, x);
      Round2Monotone(x, 0.9);
    } else if 0.5 < c <= 1.5 {
      var x := 0.3 + 0.4 * (1.0 - (c - MedianCo2) / 1.0);
      Round2Monotone(0.3, x);
      Round2Monotone(x, 0.7);
    } else if 1.5 < c {
      var x := Max(0.05, 0.3 - (c - 1.5) * 0.1);
      Round2Monotone(0.05, x);
      Round2Monotone(x, 0.3);
    }
  }

  /** Every score lies in [0.05, 0.95], and only a page of at most 0.1 g scores 0.95. */
  lemma {:induction false} ScoreBounds(c: real)
    ensures 0.05 <= SustainabilityScore(c) <= 0.95
    ensures c > 0.1 ==> SustainabilityScore(c) <= 0.9
  {
    ScoreBands(c);
  }

  /** A heavier page never scores higher. */
  lemma {:induction false} ScoreNonIncreasing(c1: real, c2: real)
    requires c1 <= c2
    ensures SustainabilityScore(c2) <= SustainabilityScore(c1)
  {
    ScoreBands(c1);
    ScoreBands(c2);
    if 0.1 < c1 && c2 <= 0.5 {
      Round2Monotone(0.7 + 0.25 * (1.0 - c2 / MedianCo2), 0.7 + 0.25 * (1.0 - c1 / MedianCo2));
    } else if 0.5 < c1 && c2 <= 1.5 {
      Round2Monotone(0.3 + 0.4 * (1.0 - (c2 - MedianCo2) / 1.0), 0.3 + 0.4 * (1.0 - (c1 - MedianCo2) / 1.0));
    } else if 1.5 < c1 {
      Round2Monotone(Max(0.05, 0.3 - (c2 - 1.5) * 0.1), Max(0.05, 0.3 - (c1 - 1.5) * 0.1));
    }
  }

  /** The bands meet at the median (0.70) and at 1.5 g (0.30); from 4 g on the score stays at its floor. */
  lemma {:induction false} ScoreJoins(c: real)
    ensures SustainabilityScore(0.5) == 0.7
    ensures SustainabilityScore(1.5) == 0.3
    ensures c >= 4.0 ==> SustainabilityScore(c) == 0.05
  {
    Round2Exact(5);
    Round2Exact(30);
    Round2Exact(70);
  }

  /** The breakdown reported with every estimate; its parts add up to 100. */
  function ScanBreakdown(): (b: Breakdown)
    ensures b.images + b.css + b.javascript + b.other == 100
  {
    Breakdown(42, 8, 35, 15)
  }

  // ---------------------------------------------------------------------------
  // Recommendations

  /** What came back from the AI service: no key configured, a failed call, an error status, or the reply text. */
  datatype AiReply = NoKey | CallFailed | HttpError(status: int) | Answer(text: string)

  /** `JSON.parse` of the bracketed span: an array of strings, or a thrown error. */
  datatype ParseOutcome = Parsed(items: seq<string>) | Threw

  /** The last position of `c` in `s`. */
  function LastIndexOf(s: string, c: char): (j: nat)
    requires c in s
    ensures j < |s| && s[j] == c && c !in s[j + 1..]
    decreases |s|
  {
    if s[|s| - 1] == c then |s| - 1
    else
      assert c in s[..|s| - 1] by {
        var i :| 0 <= i < |s| && s[i] == c;
        assert s[..|s| - 1][i] == c;
      }
      var j := LastIndexOf(s[..|s| - 1], c);
      assert s[j + 1..] == s[..|s| - 1][j + 1..] + [s[|s| - 1]];
      j
  }

  /**
   * The greedy match of `/\[[\s\S]*\]/`: from the first '[' to the last ']'
   * after it, or nothing when there is no such pair.
   */
  function BracketSpan(text: string): (m: Option<string>)
    ensures m.Some? <==> '[' in text && ']' in text[IndexOf(text, '[') + 1..]
    ensures m.Some? ==>
      var i := IndexOf(text, '[');
      && |m.value| >= 2 && i + |m.value| <= |text|
      && m.value == text[i..i + |m.value|]
      && m.value[|m.value| - 1] == ']' && ']' !in text[i + |m.value|..]
  {
    if '[' !in text then None
    else
      var i := IndexOf(text, '[');
      var rest := text[i + 1..];
      if ']' !in rest then None
      else
        var k := LastIndexOf(rest, ']');
        var span := text[i..i + k + 2];
        assert span[|span| - 1] == rest[k];
        assert text[i + |span|..] == rest[k + 1..];
        Some(span)
  }

  /** The lines that still hold more than ten characters once trimmed, in their original order. */
  function LongLines(lines: seq<string>): (r: seq<string>)
    ensures |r| <= |lines|
    ensures forall l :: l in r ==> l in lines && |Trim(l)| > 10
  {
    if lines == [] then []
    else if |Trim(lines[0])| > 10 then [lines[0]] + LongLines(lines[1..])
    else LongLines(lines[1..])
  }

  /** The filter keeps exactly the long lines. */
  lemma {:induction false} LongLinesKeep(lines: seq<string>, l: string)
    ensures l in LongLines(lines) <==> l in lines && |Trim(l)| > 10
  {
    if lines != [] {
      LongLinesKeep(lines[1..], l);
      assert l in lines <==> l == lines[0] || l in lines[1..];
    }
  }

  /** The filter keeps order: filtering a concatenation concatenates the filtered parts. */
  lemma {:induction false} LongLinesAppend(a: seq<string>, b: seq<string>)
    ensures LongLines(a + b) == LongLines(a) + LongLines(b)
  {
    if a != [] {
      assert (a + b)[0] == a[0];
      assert (a + b)[1..] == a[1..] + b;
      LongLinesAppend(a[1..], b);
      if |Trim(a[0])| > 10 {
        assert LongLines(a + b) == [a[0]] + LongLines(a[1..] + b);
      } else {
        assert LongLines(a + b) == LongLines(a[1..] + b);
      }
    } else {
      assert a + b == b;
    }
  }

  /** The first n elements, or all of them when there are fewer. */
  function Take(s: seq<string>, n: nat): (r: seq<string>)
    ensures |r| == if |s| < n then |s| else n
    ensures r == s[..|r|]
  {
    if |s| <= n then s else s[..n]
  }

  /** The fallback parser: split on newlines, keep the long lines, and take the first four of them (all when fewer). */
  function LineFallback(text: string): (r: seq<string>)
    ensures |r| == if |LongLines(Split(text, '\n'))| < 4 then |LongLines(Split(text, '\n'))| else 4
    ensures forall l :: l in r ==> '\n' !in l && |Trim(l)| > 10
    ensures r == LongLines(Split(text, '\n'))[..|r|]
  {
    Take(LongLines(Split(text, '\n')), 4)
  }

  /** The recommendations the AI reply yields, before the fallback list is applied. */
  function AiRecommendations(reply: AiReply, parse: string -> ParseOutcome): (r: seq<string>)
    ensures !reply.Answer? ==> r == []
    ensures reply.Answer? && BracketSpan(reply.text).None? ==> r == []
    ensures reply.Answer? && BracketSpan(reply.text).Some? ==>
      var outcome := parse(BracketSpan(reply.text).value);
      (outcome.Parsed? ==> r == outcome.items) && (outcome.Threw? ==> r == LineFallback(reply.text))
  {
    match reply
    case Answer(text) =>
      (match BracketSpan(text)
       case None => []
       case Some(span) =>
         (match parse(span)
          case Parsed(items) => items
          case Threw => LineFallback(text)))
    case _ => []
  }

  /** The four fallback recommendations, each a "Title — Description" line. */
  datatype Tip = OptimizeImages | MinifyJavaScript | LazyLoading | GreenHosting

  function TipText(t: Tip): string {
    match t
    case OptimizeImages => "Optimize images — Convert to WebP and compress to reduce transfer size."
    case MinifyJavaScript => "Minify JavaScript — Remove unused code to decrease page weight."
    case LazyLoading => "Enable lazy loading — Load resources only when needed."
    case GreenHosting => "Use green hosting — Switch to renewable-energy powered servers."
  }

  /** The fallback list, in the order the page shows it. */
  function DefaultRecommendations(): (r: seq<string>)
    ensures |r| == 4
  {
    [TipText(OptimizeImages), TipText(MinifyJavaScript), TipText(LazyLoading), TipText(GreenHosting)]
  }

  /** The final list: what the AI reply yields, or the default list when that is empty; never empty. */
  function Recommendations(reply: AiReply, parse: string -> ParseOutcome): (r: seq<string>)
    ensures |r| >= 1
    ensures AiRecommendations(reply, parse) != [] ==> r == AiRecommendations(reply, parse)
    ensures AiRecommendations(reply, parse) == [] ==> r == DefaultRecommendations()
  {
    var ai := AiRecommendations(reply, parse);
    if ai != [] then ai
    else
      var fallback := DefaultRecommendations();
      assert |fallback| == 4;
      fallback
  }

  /** Without a usable reply (no key, a failed call, an error status) the default list is sent. */
  lemma {:induction false} NoReplyDefaults(reply: AiReply, parse: string -> ParseOutcome)
    requires !reply.Answer?
    ensures Recommendations(reply, parse) == DefaultRecommendations()
  {
  }

  /**
   * When the bracketed span does not parse, the reply's first four long lines
   * are sent, or the default list if it has none.
   */
  lemma {:induction false} UnparsableReply(text: string, parse: string -> ParseOutcome)
    requires BracketSpan(text).Some? && parse(BracketSpan(text).value).Threw?
    ensures |Recommendations(Answer(text), parse)| <= 4
    ensures LongLines(Split(text, '\n')) == [] ==> Recommendations(Answer(text), parse) == DefaultRecommendations()
    ensures LongLines(Split(text, '\n')) != [] ==> Recommendations(Answer(text), parse) == LineFallback(text)
    ensures LongLines(Split(text, '\n')) != [] ==>
      forall l :: l in Recommendations(Answer(text), parse) ==> l in Split(text, '\n') && |Trim(l)| > 10
  {
    var long := LongLines(Split(text, '\n'));
    var fallback := LineFallback(text);
    assert AiRecommendations(Answer(text), parse) == fallback;
    if long != [] {
      assert long[0] in fallback;
    }
  }

  // ---------------------------------------------------------------------------
  // The request handler

  /**
   * The estimate for a page of `bytes` bytes, given the carbon formula and the
   * AI reply: the per-view figure is the formula's value to the nearest
   * hundredth, the yearly figure ten times it, the score within [0.05, 0.95],
   * and the recommendations never empty.
   */
  function EstimateFor(bytes: int, perVisit: int -> real, reply: AiReply, parse: string -> ParseOutcome): (e: ScanEstimate)
    ensures e.bytes == bytes
    ensures IsHundredths(e.co2PerView) && perVisit(bytes) - 0.005 <= e.co2PerView <= perVisit(bytes) + 0.005
    ensures e.co2PerYear == 10.0 * e.co2PerView
    ensures 0.05 <= e.sustainabilityScore <= 0.95
    ensures e.breakdown.images + e.breakdown.css + e.breakdown.javascript + e.breakdown.other == 100
    ensures |e.recommendations| >= 1
  {
    var co2PerView := Round2(perVisit(bytes));
    ScoreBounds(co2PerView);
    YearlyIsTenfold(co2PerView);
    ScanEstimate(
      co2PerView,
      YearlyFigure(co2PerView),
      SustainabilityScore(co2PerView),
      ScanBreakdown(),
      Recommendations(reply, parse),
      bytes)
  }

  /**
   * Serves one request: preflight, then validation (any failure is a 500 with
   * the error's message and skips the page entirely), then page size, CO2
   * figures, score and recommendations.
   */
  method Scan(req: Request, urlParses: string -> bool, page: FetchOutcome, perVisit: int -> real,
              reply: AiReply, parse: string -> ParseOutcome) returns (resp: Response)
    ensures req.Preflight? <==> resp.CorsPreflight?
    ensures req.Post? && CheckRequest(req.body, urlParses).Rejected? ==>
      resp == Failure(ErrorStatus, CheckRequest(req.body, urlParses).message)
    ensures req.Post? && CheckRequest(req.body, urlParses).Accepted? ==>
      resp == Estimate(EstimateFor(PageBytes(page), perVisit, reply, parse))
    ensures resp.Estimate? ==>
      var e := resp.estimate;
      && e.bytes >= 0
      && 0.05 <= e.sustainabilityScore <= 0.95
      && e.co2PerYear == 10.0 * e.co2PerView
      && |e.recommendations| >= 1
  {
    if req.Preflight? {
      return CorsPreflight;
    }
    var checked := CheckRequest(req.body, urlParses);
    if checked.Rejected? {
      return Failure(ErrorStatus, checked.message);
    }
    var bytes := MeasurePage(page);
    var co2PerView := Round2(perVisit(bytes));
    var co2PerYear := YearlyFigure(co2PerView);
    var score := SustainabilityScore(co2PerView);
    var recommendations := AiRecommendations(reply, parse);
    if |recommendations| == 0 {
      recommendations := DefaultRecommendations();
    }
    resp := Estimate(ScanEstimate(co2PerView, co2PerYear, score, ScanBreakdown(), recommendations, bytes));
  }
}
