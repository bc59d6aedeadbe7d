/** The Amazon search script (`search_amazon.py`): which product image URLs
    a results page yields, the reusable searcher's browser life cycle, the
    screenshot file name and the command line. The browser is not modelled:
    what the two element selectors found on the page, whether the page
    loaded, whether a path is a directory and the timestamp are inputs. */
module SearchAmazon {
  import opened Strings

  /** One `<img>` element: its `src` and `alt` attributes, or an element
      whose attribute read raises. */
  datatype Candidate = Element(src: Option<string>, alt: Option<string>) | Unreadable

  /** What the browser produced: navigating or waiting for `s-image` failed,
      or the elements found by the precise and by the generic selector. */
  datatype Page = PageFailed | Loaded(precise: seq<Candidate>, generic: seq<Candidate>)

  /** `{"image_urls": ..., "count": ...}`. */
  datatype SearchResult = SearchResult(imageUrls: seq<string>, count: nat)

  /** The elements the filter looks at: the generic selector counts only
      when the precise selector found nothing. */
  function Candidates(precise: seq<Candidate>, generic: seq<Candidate>): (r: seq<Candidate>)
    ensures r == generic ==> precise == [] || precise == generic
    ensures precise != [] ==> r == precise
  {
    if |precise| == 0 then generic else precise
  }

  /** `alt or ""`. */
  function AltText(c: Candidate): string
    requires c.Element?
  {
    if c.alt.Some? then c.alt.value else ""
  }

  /** Whether an element's `src` is kept: present, starting with `http`, and
      neither a logo (by `src` or `alt`) nor an ad-feedback image. */
  predicate Accepted(c: Candidate) {
    c.Element? && c.src.Some? && StartsWith(c.src.value, "http")
    && !Contains(Lower(c.src.value), "amazon-logo") && !Contains(Lower(AltText(c)), "logo")
    && !Contains(Lower(c.src.value), "ad-feedback")
  }

  /** The `src` of every accepted element, in page order. */
  function AcceptedUrls(cs: seq<Candidate>): (r: seq<string>)
    ensures |r| <= |cs|
  {
    if cs == [] then []
    else
      var last := cs[|cs| - 1];
      AcceptedUrls(cs[..|cs| - 1]) + (if Accepted(last) then [last.src.value] else [])
  }

  /** Python's `s[:n]` for `n >= 0`. */
  function Prefix<T>(s: seq<T>, n: nat): (r: seq<T>)
    ensures |r| <= n && r <= s
    ensures |s| <= n ==> r == s
    ensures |s| > n ==> |r| == n
  {
    if |s| <= n then s else s[..n]
  }

  /** Python's `s[:n]` for any integer `n`: a negative `n` drops the last
      `-n` elements, and all of them when there are no more. */
  function PyPrefix<T>(s: seq<T>, n: int): (r: seq<T>)
    ensures r <= s
    ensures n >= 0 ==> r == Prefix(s, n)
    ensures n < 0 ==> |r| == (if |s| + n > 0 then |s| + n else 0)
  {
    if n >= 0 then Prefix(s, n) else if |s| + n > 0 then s[..|s| + n] else []
  }

  /** How many URLs the loop holds when its break test first passes:
      `max`, or one when `max` is not positive (any kept URL already makes
      `len(image_urls) >= max_products` true). */
  function StopCount(max: int): nat {
    if max >= 1 then max else 1
  }

  /** The URLs the filter loop keeps: of the elements `[:max * 2]`, the
      accepted ones, stopping once the break test passes. */
  function KeptUrls(cs: seq<Candidate>, max: int): seq<string> {
    Prefix(AcceptedUrls(PyPrefix(cs, 2 * max)), StopCount(max))
  }

  /** The accepted URLs of a prefix start the accepted URLs of the whole. */
  lemma {:induction false} AcceptedUrlsPrefix(cs: seq<Candidate>, j: nat)
    requires j <= |cs|
    ensures AcceptedUrls(cs[..j]) <= AcceptedUrls(cs)
    decreases |cs|
  {
    if j < |cs| {
      var init := cs[..|cs| - 1];
      assert init[..j] == cs[..j];
      AcceptedUrlsPrefix(init, j);
    } else {
      assert cs[..j] == cs;
    }
  }

  /** Every kept URL passes the URL filters; at most `max` are kept, and
      exactly `max` when the window holds that many acceptable elements; a
      negative `max` keeps at most one. */
  lemma KeptUrlsBounds(cs: seq<Candidate>, max: int)
    ensures max >= 0 ==> |KeptUrls(cs, max)| <= max
    ensures max < 0 ==> |KeptUrls(cs, max)| <= 1
    ensures max >= 0 && |AcceptedUrls(Prefix(cs, 2 * max))| >= max ==> |KeptUrls(cs, max)| == max
    ensures forall k :: 0 <= k < |KeptUrls(cs, max)| ==>
      StartsWith(KeptUrls(cs, max)[k], "http")
      && !Contains(Lower(KeptUrls(cs, max)[k]), "amazon-logo")
      && !Contains(Lower(KeptUrls(cs, max)[k]), "ad-feedback")
  {
    var window := PyPrefix(cs, 2 * max);
    AcceptedUrlsSafe(window);
  }

  lemma {:induction false} AcceptedUrlsSafe(cs: seq<Candidate>)
    ensures forall k :: 0 <= k < |AcceptedUrls(cs)| ==>
      StartsWith(AcceptedUrls(cs)[k], "http")
      && !Contains(Lower(AcceptedUrls(cs)[k]), "amazon-logo")
      && !Contains(Lower(AcceptedUrls(cs)[k]), "ad-feedback")
  {
    if cs != [] {
      AcceptedUrlsSafe(cs[..|cs| - 1]);
    }
  }

  /** Where each kept URL comes from: an increasing run of positions among
      the first `2 * max` elements, each an accepted element whose `src` is
      that URL. So the kept URLs are an order-preserving selection of the
      window, and none came from an element whose `alt` mentions a logo. */
  lemma {:induction false} AcceptedUrlsOrigin(cs: seq<Candidate>) returns (idx: seq<nat>)
    ensures |idx| == |AcceptedUrls(cs)|
    ensures forall k :: 0 <= k < |idx| ==>
      idx[k] < |cs| && Accepted(cs[idx[k]]) && cs[idx[k]].src.value == AcceptedUrls(cs)[k]
    ensures forall k, l :: 0 <= k < l < |idx| ==> idx[k] < idx[l]
  {
    if cs == [] {
      idx := [];
    } else {
      var init := cs[..|cs| - 1];
      var last := cs[|cs| - 1];
      var before := AcceptedUrlsOrigin(init);
      var urls := AcceptedUrls(cs);
      if Accepted(last) {
        assert urls == AcceptedUrls(init) + [last.src.value];
        idx := before + [|cs| - 1];
        forall k | 0 <= k < |idx|
          ensures idx[k] < |cs| && Accepted(cs[idx[k]]) && cs[idx[k]].src.value == urls[k]
        {
          if k < |before| {
            assert idx[k] == before[k] && cs[before[k]] == init[before[k]];
            assert urls[k] == AcceptedUrls(init)[k];
          }
        }
      } else {
        assert urls == AcceptedUrls(init);
        idx := before;
        forall k | 0 <= k < |idx|
          ensures idx[k] < |cs| && Accepted(cs[idx[k]]) && cs[idx[k]].src.value == urls[k]
        {
          assert cs[before[k]] == init[before[k]];
        }
      }
    }
  }

  /** One more element adds its `src` to the accepted URLs exactly when it
      is accepted. */
  lemma AcceptedUrlsStep(cs: seq<Candidate>, i: nat)
    requires i < |cs|
    ensures AcceptedUrls(cs[..i + 1]) == AcceptedUrls(cs[..i]) + (if Accepted(cs[i]) then [cs[i].src.value] else [])
  {
    assert cs[..i + 1][..i] == cs[..i];
  }

  /** The filter loop over the candidate elements (`search` and
      `search_amazon` run the same loop). */
  method FilterUrls(cs: seq<Candidate>, max: int) returns (urls: seq<string>)
    ensures urls == KeptUrls(cs, max)
  {
    var window := PyPrefix(cs, 2 * max);
    urls := [];
    var i := 0;
    while i < |window|
      invariant i <= |window|
      invariant urls == AcceptedUrls(window[..i])
      invariant |urls| <= StopCount(max) && (i < |window| ==> |urls| < StopCount(max))
    {
      var c := window[i];
      AcceptedUrlsStep(window, i);
      if c.Unreadable? {
        i := i + 1;
        continue;
      }
      var src := c.src;
      var alt := AltText(c);
      if src.Some? && StartsWith(src.value, "http") {
        if Contains(Lower(src.value), "amazon-logo") || Contains(Lower(alt), "logo") {
          i := i + 1;
          continue;
        }
        if Contains(Lower(src.value), "ad-feedback") {
          i := i + 1;
          continue;
        }
        assert Accepted(c);
        urls := urls + [src.value];
        if |urls| >= max {
          KeptAtStop(cs, max, i + 1);
          return;
        }
      }
      i := i + 1;
    }
    KeptAtStop(cs, max, i);
  }

  /** Once the first `j` elements of the window give as many accepted URLs
      as the break test waits for, or the whole window is scanned, those URLs
      are the kept ones. */
  lemma KeptAtStop(cs: seq<Candidate>, max: int, j: nat)
    requires j <= |PyPrefix(cs, 2 * max)|
    requires |AcceptedUrls(PyPrefix(cs, 2 * max)[..j])| == StopCount(max) || (j == |PyPrefix(cs, 2 * max)|
             && |AcceptedUrls(PyPrefix(cs, 2 * max)[..j])| <= StopCount(max))
    ensures AcceptedUrls(PyPrefix(cs, 2 * max)[..j]) == KeptUrls(cs, max)
  {
    var window := PyPrefix(cs, 2 * max);
    var got := AcceptedUrls(window[..j]);
    AcceptedUrlsPrefix(window, j);
    if |got| == StopCount(max) {
      assert AcceptedUrls(window)[..StopCount(max)] == got;
    } else {
      assert window[..j] == window;
    }
  }

  /** The first accepted element decides the first accepted URL: there is
      none exactly when no element is accepted. */
  lemma {:induction false} FirstAccepted(w: seq<Candidate>)
    ensures AcceptedUrls(w) == [] <==> forall k :: 0 <= k < |w| ==> !Accepted(w[k])
    ensures AcceptedUrls(w) != [] ==>
      exists k :: 0 <= k < |w| && Accepted(w[k])
        && AcceptedUrls(w)[0] == w[k].src.value && forall j :: 0 <= j < k ==> !Accepted(w[j])
    decreases |w|
  {
    if w != [] {
      var init := w[..|w| - 1];
      var last := w[|w| - 1];
      FirstAccepted(init);
      assert AcceptedUrls(w) == AcceptedUrls(init) + (if Accepted(last) then [last.src.value] else []);
      if AcceptedUrls(init) != [] {
        var k :| 0 <= k < |init| && Accepted(init[k])
          && AcceptedUrls(init)[0] == init[k].src.value && forall j :: 0 <= j < k ==> !Accepted(init[j]);
        assert w[k] == init[k];
        assert forall j :: 0 <= j < k ==> w[j] == init[j];
      } else {
        assert forall k :: 0 <= k < |w| - 1 ==> w[k] == init[k];
        if Accepted(last) {
          assert AcceptedUrls(w)[0] == w[|w| - 1].src.value;
        }
      }
    }
  }

  /** A negative `max_products`: the slice `[:max * 2]` drops the last
      `-2 * max` elements, and the loop breaks after the first URL it keeps.
      So the result is the `src` of the first accepted element before that
      cut, or nothing when none of them is accepted. */
  lemma NegativeMaxKeepsFirst(cs: seq<Candidate>, max: int)
    requires max < 0
    ensures |KeptUrls(cs, max)| <= 1
    ensures KeptUrls(cs, max) == [] <==> forall k :: 0 <= k < |cs| + 2 * max ==> !Accepted(cs[k])
    ensures KeptUrls(cs, max) != [] ==>
      exists k :: 0 <= k < |cs| + 2 * max && Accepted(cs[k])
        && KeptUrls(cs, max) == [cs[k].src.value] && forall j :: 0 <= j < k ==> !Accepted(cs[j])
  {
    var window := PyPrefix(cs, 2 * max);
    assert forall k :: 0 <= k < |window| ==> window[k] == cs[k];
    FirstAccepted(window);
    if KeptUrls(cs, max) != [] {
      var k :| 0 <= k < |window| && Accepted(window[k])
        && AcceptedUrls(window)[0] == window[k].src.value && forall j :: 0 <= j < k ==> !Accepted(window[j]);
      assert KeptUrls(cs, max) == [cs[k].src.value];
    }
  }

  /** What one search returns: nothing, with count 0, when the page failed;
      otherwise the kept URLs and their number. */
  function SearchOutcome(page: Page, max: int): (r: SearchResult)
    ensures r.count == |r.imageUrls|
    ensures max >= 0 ==> r.count <= max
    ensures max < 0 ==> r.count <= 1
    ensures page.PageFailed? ==> r.imageUrls == []
    ensures page.Loaded? ==> r.imageUrls == KeptUrls(Candidates(page.precise, page.generic), max)
  {
    KeptUrlsBounds(if page.Loaded? then Candidates(page.precise, page.generic) else [], max);
    match page
    case PageFailed => SearchResult([], 0)
    case Loaded(precise, generic) =>
      var urls := KeptUrls(Candidates(precise, generic), max);
      SearchResult(urls, |urls|)
  }

  /** The searcher's browser state: the driver in use (an identifier for
      the object `init_driver` returned) and `_initialized`. */
  datatype DriverState = DriverState(driver: Option<nat>, initialized: bool)

  /** `_ensure_driver`: `launched` is the driver `init_driver` would return. */
  function EnsureDriverStep(s: DriverState, launched: nat): (t: DriverState)
    ensures t.driver.Some? && t.initialized
    ensures s.initialized && s.driver.Some? ==> t == s
  {
    if !s.initialized || s.driver.None? then DriverState(Some(launched), true) else s
  }

  /** `close`: only a present driver is quit and forgotten. */
  function CloseStep(s: DriverState): (t: DriverState)
    ensures t.driver.None?
    ensures s.driver.None? ==> t == s
  {
    if s.driver.Some? then DriverState(None, false) else s
  }

  /** Reusing the searcher launches no second browser, and closing twice is
      closing once; closing and searching again starts a new driver. */
  lemma DriverLifecycle(s: DriverState, a: nat, b: nat)
    ensures EnsureDriverStep(EnsureDriverStep(s, a), b) == EnsureDriverStep(s, a)
    ensures CloseStep(CloseStep(s)) == CloseStep(s)
    ensures s.driver.Some? ==> EnsureDriverStep(CloseStep(s), b) == DriverState(Some(b), true)
  {
  }

  /** `AmazonSearcher`, with the fields the modelled methods use. */
  class AmazonSearcher {
    var amazonDomain: string
    var driver: Option<nat>
    var initialized: bool

    constructor (domain: string)
      ensures amazonDomain == domain && driver == None && !initialized
    {
      amazonDomain := domain;
      driver := None;
      initialized := false;
    }

    function State(): DriverState
      reads this
    {
      DriverState(driver, initialized)
    }

    method EnsureDriver(launched: nat)
      modifies this`driver, this`initialized
      ensures State() == EnsureDriverStep(old(State()), launched)
    {
      if !initialized || driver.None? {
        driver := Some(launched);
        initialized := true;
      }
    }

    /** `search`: the driver is made ready first, so a browser exists even
        when the page then fails. */
    method Search(page: Page, max: int, launched: nat) returns (r: SearchResult)
      modifies this`driver, this`initialized
      ensures State() == EnsureDriverStep(old(State()), launched)
      ensures r == SearchOutcome(page, max)
    {
      EnsureDriver(launched);
      if page.PageFailed? {
        return SearchResult([], 0);
      }
      var urls := FilterUrls(Candidates(page.precise, page.generic), max);
      r := SearchResult(urls, |urls|);
    }

    method Close()
      modifies this`driver, this`initialized
      ensures State() == CloseStep(old(State()))
    {
      if driver.Some? {
        driver := None;
        initialized := false;
      }
    }
  }

  /** `amazon_search_{safe}_{timestamp}.png`, with the keyword's spaces and
      slashes replaced and cut to 30 characters. */
  function ScreenshotName(keyword: string, timestamp: string): (r: string)
    ensures StartsWith(r, "amazon_search_") && |r| >= 18 && r[|r| - 4..] == ".png"
    ensures '/' !in timestamp ==> '/' !in r
  {
    "amazon_search_" + SafeName(keyword, 30) + "_" + timestamp + ".png"
  }

  /** `os.path.join(dir, name)` for a relative `name`. */
  function PathJoin(dir: string, name: string): (r: string)
    ensures |r| >= |name| && r[|r| - |name|..] == name
    ensures StartsWith(r, dir)
  {
    if dir == [] || dir[|dir| - 1] == '/' then dir + name else dir + "/" + name
  }

  /** Where `save_screenshot` writes: inside a given directory under the
      generated name, at a given file path as it is, or under the generated
      name in the working directory. */
  function ScreenshotPath(keyword: string, outputPath: Option<string>, isDir: bool, timestamp: string): (r: string)
    ensures outputPath.None? || outputPath.value == [] ==> r == ScreenshotName(keyword, timestamp)
    ensures outputPath.Some? && outputPath.value != [] && !isDir ==> r == outputPath.value
    ensures outputPath.Some? && outputPath.value != [] && isDir ==>
      StartsWith(r, outputPath.value) && |r| >= |ScreenshotName(keyword, timestamp)|
      && StartsWith(r[|r| - |ScreenshotName(keyword, timestamp)|..], "amazon_search_")
  {
    var name := ScreenshotName(keyword, timestamp);
    if outputPath.Some? && outputPath.value != [] then
      if isDir then PathJoin(outputPath.value, name) else outputPath.value
    else name
  }

  /** `search_amazon`: one browser for one search, with an optional
      screenshot. Any failure of the page gives no URLs and no screenshot. */
  method SearchOnce(keyword: string, page: Page, max: int, screenshot: bool, screenshotPath: Option<string>,
                    isDir: bool, timestamp: string)
      returns (urls: seq<string>, shot: Option<string>)
    ensures page.PageFailed? ==> urls == [] && shot == None
    ensures page.Loaded? ==> urls == KeptUrls(Candidates(page.precise, page.generic), max)
    ensures page.Loaded? ==>
      shot == (if screenshot then Some(ScreenshotPath(keyword, screenshotPath, isDir, timestamp)) else None)
  {
    if page.PageFailed? {
      return [], None;
    }
    urls := FilterUrls(Candidates(page.precise, page.generic), max);
    shot := None;
    if screenshot {
      shot := Some(ScreenshotPath(keyword, screenshotPath, isDir, timestamp));
    }
  }

  /** The settings `main` collects from the command line. */
  datatype Options = Options(keyword: string, domain: string, maxProducts: nat, debug: bool, headless: bool,
                             waitBeforeClose: int, jsonOnly: bool, screenshot: bool,
                             screenshotPath: Option<string>, hideClutter: bool)

  /** How `main` ends up: the usage text and exit code 1, a `ValueError`
      from `int()`, or the parsed settings. */
  datatype CommandLine = UsageExit | Crashed(error: string) | Parsed(options: Options)

  function Defaults(keyword: string): (o: Options)
    ensures o.keyword == keyword && o.domain == "amazon.com" && o.maxProducts == 20
    ensures o.headless && !o.debug && !o.jsonOnly && !o.screenshot && !o.hideClutter
    ensures o.waitBeforeClose == 5 && o.screenshotPath == None
  {
    Options(keyword, "amazon.com", 20, false, true, 5, false, false, None, false)
  }

  /** `arg.split('=', 1)[1]`: everything after the first `=`. */
  function AfterFirst(s: string, c: char): (r: string)
    requires c in s
    ensures |r| < |s| && r == s[|s| - |r|..] && s[|s| - |r| - 1] == c
  {
    s[IndexOf(s, c) + 1..]
  }

  /** `arg.split('=')[1]`: the text between the first and the second `=`. */
  function SecondField(s: string, c: char): string
    requires c in s
  {
    Split(AfterFirst(s, c), c)[0]
  }

  /** `SecondField` is the second piece of the full split. */
  lemma SecondFieldIsSplit(s: string, c: char)
    requires c in s
    ensures |Split(s, c)| >= 2 && Split(s, c)[1] == SecondField(s, c)
  {
  }

  /** The message `int()` raises for text that is not a number. */
  function IntError(s: string): string {
    "invalid literal for int() with base 10: '" + s + "'"
  }

  /** One optional argument: known flags set their setting, `--wait=` takes
      an integer, `--screenshot-path=` the rest of the argument, a domain is
      recognised by a dot and `amazon`, digits set `max_products`, and
      everything else is ignored. */
  function ApplyArg(o: Options, arg: string): Result<Options> {
    if StartsWith(arg, "--") then
      if arg == "--debug" then Success(o.(debug := true))
      else if arg == "--no-headless" then Success(o.(headless := false))
      else if arg == "--json-only" then Success(o.(jsonOnly := true))
      else if arg == "--screenshot" then Success(o.(screenshot := true))
      else if arg == "--hide-clutter" then Success(o.(hideClutter := true))
      else if StartsWith(arg, "--wait=") then
        assert arg[6] == '=';
        var text := SecondField(arg, '=');
        match ParseInt(text)
        case None => Failure(IntError(text))
        case Some(n) => Success(o.(waitBeforeClose := n))
      else if StartsWith(arg, "--screenshot-path=") then
        assert arg[17] == '=';
        Success(o.(screenshotPath := Some(AfterFirst(arg, '='))))
      else Success(o)
    else if '.' in arg && Contains(arg, "amazon") then Success(o.(domain := arg))
    else if IsDigits(arg) then Success(o.(maxProducts := DigitsValue(arg)))
    else Success(o)
  }

  /** The loop over `sys.argv[2:]`, stopping at the first `ValueError`. */
  function ApplyArgs(o: Options, args: seq<string>): Result<Options> {
    if args == [] then Success(o)
    else
      match ApplyArgs(o, args[..|args| - 1])
      case Failure(e) => Failure(e)
      case Success(p) => ApplyArg(p, args[|args| - 1])
  }

  /** `main`'s argument handling. */
  method ParseCommandLine(argv: seq<string>) returns (r: CommandLine)
    ensures |argv| < 2 ==> r == UsageExit
    ensures |argv| >= 2 ==>
      match ApplyArgs(Defaults(argv[1]), argv[2..])
      case Failure(e) => r == Crashed(e)
      case Success(o) => r == Parsed(o)
  {
    if |argv| < 2 {
      return UsageExit;
    }
    var rest := argv[2..];
    var o := Defaults(argv[1]);
    for i := 0 to |rest|
      invariant ApplyArgs(Defaults(argv[1]), rest[..i]) == Success(o)
    {
      assert rest[..i + 1][..i] == rest[..i];
      var step := ApplyArg(o, rest[i]);
      if step.Failure? {
        FailureStops(Defaults(argv[1]), rest, i + 1);
        return Crashed(step.error);
      }
      o := step.value;
    }
    assert rest[..|rest|] == rest;
    r := Parsed(o);
  }

  /** Once an argument has raised, the later ones change nothing. */
  lemma {:induction false} FailureStops(o: Options, args: seq<string>, j: nat)
    requires j <= |args| && ApplyArgs(o, args[..j]).Failure?
    ensures ApplyArgs(o, args) == ApplyArgs(o, args[..j])
    decreases |args|
  {
    if j < |args| {
      var init := args[..|args| - 1];
      assert init[..j] == args[..j];
      FailureStops(o, init, j);
    } else {
      assert args[..j] == args;
    }
  }

  /** A later argument overrides what earlier ones set: a domain argument
      at the end decides the domain, whatever came before. */
  lemma LastDomainWins(o: Options, args: seq<string>, d: string)
    requires ApplyArgs(o, args).Success?
    requires !StartsWith(d, "--") && '.' in d && Contains(d, "amazon")
    ensures ApplyArgs(o, args + [d]) == Success(ApplyArgs(o, args).value.(domain := d))
  {
    assert (args + [d])[..|args|] == args;
  }

  /** An argument starting `--wait=` reaches the integer conversion. */
  lemma WaitBranch(o: Options, arg: string)
    requires StartsWith(arg, "--wait=")
    ensures '=' in arg
    ensures ApplyArg(o, arg) ==
      match ParseInt(SecondField(arg, '=')) case None => Failure(IntError(SecondField(arg, '='))) case Some(n) => Success(o.(waitBeforeClose := n))
  {
    assert arg[6] == '=';
    assert arg[2] == 'w';
    assert arg != "--debug" && arg != "--no-headless" && arg != "--json-only";
    assert arg != "--screenshot" && arg != "--hide-clutter";
  }

  /** `--wait=N` sets the wait to `N`. */
  lemma WaitArg(o: Options, n: nat)
    ensures ApplyArg(o, "--wait=" + NatToString(n)) == Success(o.(waitBeforeClose := n))
  {
    var d := NatToString(n);
    var arg := "--wait=" + d;
    assert '=' !in d by {
      assert forall k :: 0 <= k < |d| ==> IsDigit(d[k]);
    }
    assert IndexOf(arg, '=') == 6 by {
      assert arg[6] == '=' && '=' !in arg[..6];
    }
    assert SecondField(arg, '=') == d by {
      assert AfterFirst(arg, '=') == d;
    }
    assert ParseInt(d) == Some(n) by {
      NatToStringValue(n);
      DigitsParse(d);
    }
    WaitBranch(o, arg);
  }

  /** `--wait=` with no number raises `ValueError`. */
  lemma WaitWithoutNumberCrashes(o: Options)
    ensures ApplyArg(o, "--wait=") == Failure(IntError(""))
  {
    var arg := "--wait=";
    WaitBranch(o, arg);
    assert SecondField(arg, '=') == [] by {
      assert IndexOf(arg, '=') == 6 by {
        assert arg[6] == '=' && '=' !in arg[..6];
      }
    }
    assert ParseInt([]) == None;
  }

  /** `--screenshot-path=P` keeps all of `P`, even when it holds `=`. */
  lemma ScreenshotPathArg(o: Options, p: string)
    ensures ApplyArg(o, "--screenshot-path=" + p) == Success(o.(screenshotPath := Some(p)))
  {
    var arg := "--screenshot-path=" + p;
    assert arg[2] == 's';
    assert IndexOf(arg, '=') == 17 by {
      assert arg[17] == '=' && '=' !in arg[..17];
    }
  }

  /** A plain number sets `max_products`. */
  lemma NumberArg(o: Options, n: nat)
    ensures ApplyArg(o, NatToString(n)) == Success(o.(maxProducts := n))
  {
    var d := NatToString(n);
    assert IsDigit(d[0]) && '.' !in d by {
      assert forall k :: 0 <= k < |d| ==> IsDigit(d[k]);
    }
    NatToStringValue(n);
  }
}
