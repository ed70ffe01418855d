/**
 * The decision and list-update rules of the MobileFrontend hook handlers.
 *
 * Host state reaches each rule as a plain input: whether the request is in
 * mobile view, whether the page is blacklisted, configuration flags, the
 * `getMobileUrl` translation (a function returning a string or `false`) and
 * `file_exists` (a predicate). Arrays passed by reference are modelled as a
 * sequence or map in and the updated sequence or map out.
 */
module MobileFrontendHooks {
  import opened Wrappers
  import opened Strings

  /** A PHP value that is either a string or the boolean `false`. */
  datatype Value = False | Str(s: string)

  /** PHP truthiness of a string: only "" and "0" are falsy. */
  predicate StrTruthy(s: string)
  {
    s != "" && s != "0"
  }

  /** PHP truthiness of a string-or-false value. */
  predicate Truthy(v: Value)
  {
    v.Str? && StrTruthy(v.s)
  }

  /** PHP's conversion of a string-or-false value to a string. */
  function AsString(v: Value): string
  {
    if v.Str? then v.s else ""
  }

  // ---------------------------------------------------------------------
  // findTagline

  const ShortDescriptionProperty := "wikibase-shortdesc"
  const WikibaseItemProperty := "wikibase_item"

  /** `ParserOutput::getProperty`: the stored value, or `false` when unset. */
  function GetProperty(props: map<string, string>, name: string): (v: Value)
    ensures v.Str? <==> name in props
    ensures v.Str? ==> v.s == props[name]
  {
    if name in props then Str(props[name]) else False
  }

  /**
   * The outcome of `findTagline`: the tagline returned and the arguments
   * the fallback description function was called with (at most one call).
   */
  datatype TaglineLookup = TaglineLookup(tagline: Value, fallbackCalls: seq<string>)

  /**
   * The page's short description when it is set; otherwise, when there is
   * a truthy Wikibase item and a fallback, whatever the fallback returns
   * for that item; otherwise `false`.
   */
  function FindTagline(props: map<string, string>, fallback: Option<string -> Value>): (r: TaglineLookup)
    ensures ShortDescriptionProperty in props
      ==> r.tagline == Str(props[ShortDescriptionProperty]) && r.fallbackCalls == []
    ensures r.fallbackCalls != [] <==>
      ShortDescriptionProperty !in props && WikibaseItemProperty in props
      && StrTruthy(props[WikibaseItemProperty]) && fallback.Some?
    ensures r.fallbackCalls != [] ==>
      r.fallbackCalls == [props[WikibaseItemProperty]]
      && r.tagline == fallback.value(props[WikibaseItemProperty])
    ensures ShortDescriptionProperty !in props && r.fallbackCalls == [] ==> r.tagline == False
  {
    var desc := GetProperty(props, ShortDescriptionProperty);
    var item := GetProperty(props, WikibaseItemProperty);
    if desc == False && Truthy(item) && fallback.Some? then
      TaglineLookup(fallback.value(item.s), [item.s])
    else
      TaglineLookup(desc, [])
  }

  /** The four cases the unit tests pin down. */
  lemma FindTaglineCases(f: string -> Value)
    requires f("W2") == Str("Hello Wikidata")
    ensures FindTagline(map[], Some(f)) == TaglineLookup(False, [])
    ensures FindTagline(map[ShortDescriptionProperty := "desc"], Some(f))
      == TaglineLookup(Str("desc"), [])
    ensures FindTagline(map[WikibaseItemProperty := "W2"], Some(f))
      == TaglineLookup(Str("Hello Wikidata"), ["W2"])
    ensures FindTagline(map[ShortDescriptionProperty := "Hello world", WikibaseItemProperty := "W2"], Some(f))
      == TaglineLookup(Str("Hello world"), [])
  {
  }

  // ---------------------------------------------------------------------
  // onGetCacheVaryCookies

  const UseformatCookieName := "mf_useformat"
  const StopMobileRedirectCookieName := "stopMobileRedirect"
  const ForceHttpsCookieName := "forceHTTPS"

  /**
   * Appends the cookies the page cache must vary on: the format cookie and
   * the stop-redirect cookie always, the beta opt-in cookie when the request
   * is in mobile view or no mobile URL template is configured, and
   * `forceHTTPS` last. `optinCookieName` is the opt-in cookie's name.
   */
  method OnGetCacheVaryCookies(cookies: seq<string>, mobileView: bool, mobileUrlTemplate: string,
                               optinCookieName: string)
    returns (result: seq<string>)
    ensures |cookies| <= |result| && result[..|cookies|] == cookies
    ensures result[|cookies|..] == [UseformatCookieName, StopMobileRedirectCookieName]
      + (if mobileView || !StrTruthy(mobileUrlTemplate) then [optinCookieName] else [])
      + [ForceHttpsCookieName]
  {
    result := cookies;
    result := result + [UseformatCookieName];
    result := result + [StopMobileRedirectCookieName];
    if mobileView || !StrTruthy(mobileUrlTemplate) {
      result := result + [optinCookieName];
    }
    result := result + [ForceHttpsCookieName];
    assert result[|cookies|..] == result[|cookies|..|result|];
  }

  // ---------------------------------------------------------------------
  // onPageRenderingHash

  const ResponsiveImagesHashSuffix := "!responsiveimages=0"

  /**
   * The parser cache key: unchanged, or with `!responsiveimages=0` appended
   * when responsive images are stripped.
   */
  function PageRenderingHash(confstr: string, stripResponsiveImages: bool): (r: string)
    ensures confstr <= r
    ensures stripResponsiveImages <==> r != confstr
    ensures stripResponsiveImages ==> r[|confstr|..] == ResponsiveImagesHashSuffix
  {
    if stripResponsiveImages then confstr + ResponsiveImagesHashSuffix else confstr
  }

  /** The two cases of the unit test, on an empty key. */
  lemma PageRenderingHashCases()
    ensures PageRenderingHash("", true) == "!responsiveimages=0"
    ensures PageRenderingHash("", false) == ""
  {
  }

  // ---------------------------------------------------------------------
  // onThumbnailBeforeProduceHTML

  /** The file behind a thumbnail, as far as the hook looks at it. */
  datatype File = File(mimeType: string)

  /**
   * The `srcset` attribute is dropped when stripping is on and the thumbnail
   * has no file or its MIME type is not in the whitelist.
   */
  predicate StripsSrcset(stripResponsiveImages: bool, file: Option<File>, whitelist: seq<string>)
  {
    stripResponsiveImages && (file.None? || file.value.mimeType !in whitelist)
  }

  const SrcsetAttribute := "srcset"

  method OnThumbnailBeforeProduceHTML(file: Option<File>, attribs: map<string, string>,
                                      stripResponsiveImages: bool, whitelist: seq<string>)
    returns (result: map<string, string>)
    ensures SrcsetAttribute in result <==>
      SrcsetAttribute in attribs && !StripsSrcset(stripResponsiveImages, file, whitelist)
    ensures forall k :: k != SrcsetAttribute ==> (k in result <==> k in attribs)
    ensures forall k :: k in result ==> k in attribs && result[k] == attribs[k]
  {
    result := attribs;
    if stripResponsiveImages {
      if file.None? || file.value.mimeType !in whitelist {
        result := result - {SrcsetAttribute};
      }
    }
  }

  /**
   * The unit-test table, with a whitelist holding SVG and not JPEG: a JPEG
   * thumbnail or one without a file loses `srcset`; an SVG one, or any with
   * stripping off, keeps it.
   */
  lemma ThumbnailSrcsetCases(whitelist: seq<string>)
    requires "image/svg+xml" in whitelist && "image/jpg" !in whitelist
    ensures StripsSrcset(true, Some(File("image/jpg")), whitelist)
    ensures StripsSrcset(true, None, whitelist)
    ensures !StripsSrcset(true, Some(File("image/svg+xml")), whitelist)
    ensures !StripsSrcset(false, Some(File("image/jpg")), whitelist)
  {
  }

  // ---------------------------------------------------------------------
  // onRecentChangeSave

  const MobileEditTag := "mobile edit"
  const MobileWebEditTag := "mobile web edit"
  const AppUserAgentPrefix := "WikipediaApp/"

  /**
   * The tags added to a recent change, in order. Only edits (no log type)
   * and uploads made in mobile view are tagged; they get `mobile edit`, and
   * also `mobile web edit` unless the user agent starts with `WikipediaApp/`.
   * An absent User-Agent header reads as the empty string.
   */
  function MobileEditTags(mobileView: bool, logType: Option<string>, userAgent: Value): (tags: seq<string>)
    ensures MobileEditTag in tags <==> mobileView && (logType == None || logType == Some("upload"))
    ensures MobileWebEditTag in tags <==>
      mobileView && (logType == None || logType == Some("upload"))
      && !(AppUserAgentPrefix <= AsString(userAgent))
    ensures tags != [] ==> tags[0] == MobileEditTag
    ensures |tags| <= 2
    ensures forall t :: t in tags ==> t == MobileEditTag || t == MobileWebEditTag
  {
    if mobileView && (logType == Some("upload") || logType == None) then
      [MobileEditTag] + (if !(AppUserAgentPrefix <= AsString(userAgent)) then [MobileWebEditTag] else [])
    else []
  }

  // ---------------------------------------------------------------------
  // The X-Analytics block of onRequestContextCreateSkin

  /**
   * The items handed to the analytics log for the request's X-Analytics
   * header. Nothing is logged outside mobile view, on blacklisted pages, or
   * for a falsy header; a header with several `;`-separated pieces logs each
   * piece in order, and one without a `;` logs the whole header.
   */
  method LogXAnalyticsItems(mobileView: bool, blacklisted: bool, header: Value) returns (items: seq<string>)
    ensures !mobileView || blacklisted || !Truthy(header) ==> items == []
    ensures mobileView && !blacklisted && Truthy(header) ==>
      items == Split(header.s, ';') && Join(items, ';') == header.s
    ensures |items| > 1 ==> forall k :: 0 <= k < |items| ==> ';' !in items[k]
  {
    items := [];
    if !mobileView || blacklisted {
      return;
    }
    if Truthy(header) {
      var pieces := Split(header.s, ';');
      if |pieces| > 1 {
        var i := 0;
        while i < |pieces|
          invariant 0 <= i <= |pieces|
          invariant items == pieces[..i]
        {
          items := items + [pieces[i]];
          i := i + 1;
        }
        assert pieces[..|pieces|] == pieces;
      } else {
        items := [header.s];
        assert pieces == [header.s] by {
          JoinSplit(header.s, ';');
        }
      }
      JoinSplit(header.s, ';');
    }
  }

  // ---------------------------------------------------------------------
  // onTitleSquidURLs

  /**
   * The mobile variant of one purge URL, if `getMobileUrl` gives one that is
   * not `false` and differs from the URL.
   */
  function MobileVariant(url: string, getMobileUrl: string -> Value): seq<string>
  {
    var m := getMobileUrl(url);
    if m.Str? && m.s != url then [m.s] else []
  }

  /** The mobile variants of `urls`, in the order of the URLs they come from. */
  function MobileVariants(urls: seq<string>, getMobileUrl: string -> Value): (vs: seq<string>)
    ensures |vs| <= |urls|
  {
    if urls == [] then []
    else MobileVariants(urls[..|urls| - 1], getMobileUrl) + MobileVariant(urls[|urls| - 1], getMobileUrl)
  }

  /**
   * Appends to the purge list the mobile variant of every URL that was on
   * it when the hook was called; appended URLs are not translated again.
   */
  method OnTitleSquidURLs(urls: seq<string>, getMobileUrl: string -> Value) returns (result: seq<string>)
    ensures result == urls + MobileVariants(urls, getMobileUrl)
  {
    result := urls;
    var i := 0;
    while i < |urls|
      invariant 0 <= i <= |urls|
      invariant result == urls + MobileVariants(urls[..i], getMobileUrl)
    {
      var url := urls[i];
      var newUrl := getMobileUrl(url);
      assert urls[..i + 1][..i] == urls[..i];
      if newUrl.Str? && newUrl.s != url {
        result := result + [newUrl.s];
      }
      i := i + 1;
    }
    assert urls[..|urls|] == urls;
  }

  /** Mobile variants of a concatenation are the concatenation of the variants. */
  lemma {:induction false} MobileVariantsAppend(a: seq<string>, b: seq<string>, getMobileUrl: string -> Value)
    ensures MobileVariants(a + b, getMobileUrl)
      == MobileVariants(a, getMobileUrl) + MobileVariants(b, getMobileUrl)
    decreases |b|
  {
    if b != [] {
      var b' := b[..|b| - 1];
      assert (a + b)[..|a + b| - 1] == a + b';
      MobileVariantsAppend(a, b', getMobileUrl);
    } else {
      assert a + b == a;
    }
  }

  /**
   * A URL is appended exactly when it is the translation, other than `false`
   * and other than the URL itself, of one of the original URLs.
   */
  lemma {:induction false} MobileVariantsMembership(urls: seq<string>, getMobileUrl: string -> Value, v: string)
    ensures v in MobileVariants(urls, getMobileUrl) <==>
      exists j :: 0 <= j < |urls| && getMobileUrl(urls[j]) == Str(v) && v != urls[j]
  {
    if urls != [] {
      var init := urls[..|urls| - 1];
      MobileVariantsMembership(init, getMobileUrl, v);
      var last := |urls| - 1;
      if v in MobileVariants(urls, getMobileUrl) {
        if v in MobileVariants(init, getMobileUrl) {
          var j :| 0 <= j < |init| && getMobileUrl(init[j]) == Str(v) && v != init[j];
          assert urls[j] == init[j];
        } else {
          assert getMobileUrl(urls[last]) == Str(v) && v != urls[last];
        }
      }
      if exists j :: 0 <= j < |urls| && getMobileUrl(urls[j]) == Str(v) && v != urls[j] {
        var j :| 0 <= j < |urls| && getMobileUrl(urls[j]) == Str(v) && v != urls[j];
        if j < last {
          assert init[j] == urls[j];
        }
      }
    }
  }

  /**
   * The purge test: the page URL and its history URL, each followed on the
   * list by its mobile-domain translation, in the same order.
   */
  lemma SquidUrlsExample(getMobileUrl: string -> Value)
    requires getMobileUrl("http://en.wikipedia.org/wiki/PurgeTest")
      == Str("http://en.m.wikipedia.org/wiki/PurgeTest")
    requires getMobileUrl("http://en.wikipedia.org/w/index.php?title=PurgeTest&action=history")
      == Str("http://en.m.wikipedia.org/w/index.php?title=PurgeTest&action=history")
    ensures var urls := ["http://en.wikipedia.org/wiki/PurgeTest",
                         "http://en.wikipedia.org/w/index.php?title=PurgeTest&action=history"];
      urls + MobileVariants(urls, getMobileUrl)
      == urls + ["http://en.m.wikipedia.org/wiki/PurgeTest",
                 "http://en.m.wikipedia.org/w/index.php?title=PurgeTest&action=history"]
  {
    var urls := ["http://en.wikipedia.org/wiki/PurgeTest",
                 "http://en.wikipedia.org/w/index.php?title=PurgeTest&action=history"];
    assert urls[..1] == [urls[0]];
    assert [urls[0]][..0] == [];
  }

  // ---------------------------------------------------------------------
  // onResourceLoaderTestModules

  /** A ResourceLoader module registration: its key and, if set, its scripts. */
  datatype ResourceModule = ResourceModule(key: string, scripts: Option<seq<string>>)

  function StripTrailingSlashes(s: string): (r: string)
    ensures r <= s
    ensures r == [] || r[|r| - 1] != '/'
    ensures forall k :: |r| <= k < |s| ==> s[k] == '/'
  {
    if |s| > 0 && s[|s| - 1] == '/' then StripTrailingSlashes(s[..|s| - 1]) else s
  }

  function StripTrailingName(s: string): (r: string)
    ensures r <= s
    ensures r == [] || r[|r| - 1] == '/'
    ensures forall k :: |r| <= k < |s| ==> s[k] != '/'
  {
    if |s| > 0 && s[|s| - 1] != '/' then StripTrailingName(s[..|s| - 1]) else s
  }

  /** PHP's `dirname` on a Unix path. */
  function Dirname(path: string): string
  {
    if path == "" then ""
    else
      var a := StripTrailingSlashes(path);
      if a == "" then "/"
      else
        var b := StripTrailingName(a);
        if b == "" then "."
        else
          var c := StripTrailingSlashes(b);
          if c == "" then "/" else c
  }

  /** PHP's `basename` on a Unix path, without a suffix argument. */
  function Basename(path: string): string
  {
    var a := StripTrailingSlashes(path);
    a[|StripTrailingName(a)|..]
  }

  /** A path component: non-empty and without a slash. */
  predicate IsName(b: string)
  {
    b != "" && '/' !in b
  }

  lemma {:induction false} StripTrailingNameOfName(d: string, b: string)
    requires '/' !in b
    ensures StripTrailingName(d + "/" + b) == d + "/"
    decreases |b|
  {
    if b != [] {
      var s := d + "/" + b;
      assert s[|s| - 1] == b[|b| - 1];
      assert b[|b| - 1] in b;
      assert s[..|s| - 1] == d + "/" + b[..|b| - 1];
      assert forall x :: x in b[..|b| - 1] ==> x in b;
      StripTrailingNameOfName(d, b[..|b| - 1]);
    } else {
      assert d + "/" + b == d + "/";
    }
  }

  /** `dirname` and `basename` of `d/b` for a directory `d` and a name `b`. */
  lemma DirnameBasename(d: string, b: string)
    requires d != "" && d[|d| - 1] != '/'
    requires IsName(b)
    ensures Dirname(d + "/" + b) == d
    ensures Basename(d + "/" + b) == b
  {
    var p := d + "/" + b;
    assert p[|p| - 1] == b[|b| - 1] && b[|b| - 1] in b;
    assert StripTrailingSlashes(p) == p;
    StripTrailingNameOfName(d, b);
    assert (d + "/")[..|d + "/"| - 1] == d;
    assert StripTrailingSlashes(d) == d;
    assert p[|d + "/"|..] == b;
  }

  const TestsDir := "tests/"
  const ResourcesDir := "resources/"
  /** `tests/resources/` */
  const TestsResourcesPrefix := TestsDir + ResourcesDir
  const TestsQunitPrefix := "tests/qunit/"

  /** `tests/<dirname>/test_<basename>` of a script. */
  function RawTestFilePath(script: string): string
  {
    TestsDir + Dirname(script) + "/test_" + Basename(script)
  }

  /** Every `tests/resources/` rewritten to `tests/qunit/`. */
  function QunitPath(path: string): string
  {
    ReplaceAll(path, TestsResourcesPrefix, TestsQunitPrefix)
  }

  /**
   * The candidate test file of a script: `tests/<dirname>/test_<basename>`,
   * with every `tests/resources/` rewritten to `tests/qunit/`.
   */
  function TestFilePath(script: string): string
  {
    QunitPath(RawTestFilePath(script))
  }

  lemma RawTestFilePathOf(dir: string, b: string)
    requires dir != "" && dir[|dir| - 1] != '/'
    requires IsName(b)
    ensures RawTestFilePath(dir + "/" + b) == TestsDir + dir + "/test_" + b
  {
    DirnameBasename(dir, b);
  }

  lemma RawResourcesTestFilePath(d: string, b: string)
    requires d != "" && d[|d| - 1] != '/'
    requires IsName(b)
    ensures RawTestFilePath(ResourcesDir + d + "/" + b) == TestsResourcesPrefix + (d + "/test_" + b)
  {
    var dir := ResourcesDir + d;
    assert ResourcesDir + d + "/" + b == dir + "/" + b;
    RawTestFilePathOf(dir, b);
    Regroup(TestsDir, ResourcesDir, TestsResourcesPrefix, d, "/test_", b);
  }

  lemma Regroup(p: string, q: string, r: string, d: string, m: string, b: string)
    requires r == p + q
    ensures p + (q + d) + m + b == r + (d + m + b)
  {
  }

  lemma QunitPathLeading(t: string)
    ensures QunitPath(TestsResourcesPrefix + t) == TestsQunitPrefix + QunitPath(t)
  {
    ReplaceAllLeading(TestsResourcesPrefix, t, TestsQunitPrefix);
  }

  /**
   * A script outside `resources/` keeps its `tests/<d>/test_<b>` path, as
   * long as that path holds no `tests/resources/`.
   */
  lemma PlainTestFilePath(d: string, b: string)
    requires d != "" && d[|d| - 1] != '/'
    requires IsName(b)
    requires forall i: nat :: !OccursAt(TestsDir + d + "/test_" + b, TestsResourcesPrefix, i)
    ensures TestFilePath(d + "/" + b) == TestsDir + d + "/test_" + b
  {
    RawTestFilePathOf(d, b);
    ReplaceAllAbsent(TestsDir + d + "/test_" + b, TestsResourcesPrefix, TestsQunitPrefix);
  }

  /** A script `resources/<d>/<b>` gets its test file under `tests/qunit/<d>/`. */
  lemma ResourcesTestFilePath(d: string, b: string)
    requires d != "" && d[|d| - 1] != '/'
    requires IsName(b)
    ensures TestFilePath(ResourcesDir + d + "/" + b) == TestsQunitPrefix + QunitPath(d + "/test_" + b)
  {
    RawResourcesTestFilePath(d, b);
    QunitPathLeading(d + "/test_" + b);
  }

  /** Only modules whose key starts with `mobile.` and that set scripts are looked at. */
  predicate IsTestCandidate(m: ResourceModule)
  {
    "mobile." <= m.key && m.scripts.Some?
  }

  /**
   * `file_exists` on the test file `testFileOf(script)`, resolved against the
   * extension's base path. The rules below are stated for any test-file
   * naming `testFileOf`; the hook uses `TestFilePath`.
   */
  predicate TestFileExists(script: string, testFileOf: string -> string, localBasePath: string,
                           fileExists: string -> bool)
  {
    fileExists(localBasePath + "/" + testFileOf(script))
  }

  /** The existing test files of `scripts`, in script order. */
  function ExistingTestFiles(scripts: seq<string>, testFileOf: string -> string, localBasePath: string,
                             fileExists: string -> bool): seq<string>
  {
    if scripts == [] then []
    else
      var last := scripts[|scripts| - 1];
      ExistingTestFiles(scripts[..|scripts| - 1], testFileOf, localBasePath, fileExists)
      + (if TestFileExists(last, testFileOf, localBasePath, fileExists) then [testFileOf(last)] else [])
  }

  /** The test files of a module (none unless it is a candidate). */
  function ModuleTestFiles(m: ResourceModule, testFileOf: string -> string, localBasePath: string,
                           fileExists: string -> bool): seq<string>
  {
    if IsTestCandidate(m) then ExistingTestFiles(m.scripts.value, testFileOf, localBasePath, fileExists)
    else []
  }

  /** All test files, module by module. */
  function TestFiles(modules: seq<ResourceModule>, testFileOf: string -> string, localBasePath: string,
                     fileExists: string -> bool): seq<string>
  {
    if modules == [] then []
    else
      TestFiles(modules[..|modules| - 1], testFileOf, localBasePath, fileExists)
      + ModuleTestFiles(modules[|modules| - 1], testFileOf, localBasePath, fileExists)
  }

  /** The keys of the modules that have at least one test file, in module order. */
  function TestDependencies(modules: seq<ResourceModule>, testFileOf: string -> string, localBasePath: string,
                            fileExists: string -> bool): seq<string>
  {
    if modules == [] then []
    else
      var m := modules[|modules| - 1];
      TestDependencies(modules[..|modules| - 1], testFileOf, localBasePath, fileExists)
      + (if ModuleTestFiles(m, testFileOf, localBasePath, fileExists) != [] then [m.key] else [])
  }

  /** The `tests.mobilefrontend` QUnit module the hook registers. */
  datatype TestModule = TestModule(
    dependencies: seq<string>,
    templates: map<string, string>,
    localBasePath: string,
    remoteExtPath: string,
    targets: seq<string>,
    scripts: seq<string>)

  const TestTemplates: map<string, string> := map[
    "section.hogan" := "tests/qunit/tests.mobilefrontend/section.hogan",
    "issues.hogan" := "tests/qunit/tests.mobilefrontend/issues.hogan",
    "skinPage.html" := "tests/qunit/tests.mobilefrontend/skinPage.html",
    "page.html" := "tests/qunit/tests.mobilefrontend/page.html",
    "page2.html" := "tests/qunit/tests.mobilefrontend/page2.html",
    "pageWithStrippedRefs.html" := "tests/qunit/tests.mobilefrontend/pageWithStrippedRefs.html",
    "references.html" := "tests/qunit/tests.mobilefrontend/references.html"]

  /**
   * The inner loop of the hook: the existing test files of one module's
   * scripts, and whether there is any. `testFileOf` names a script's test file.
   */
  method ScriptTests(scripts: seq<string>, testFileOf: string -> string, localBasePath: string,
                     fileExists: string -> bool)
    returns (found: seq<string>, hasTests: bool)
    ensures found == ExistingTestFiles(scripts, testFileOf, localBasePath, fileExists)
    ensures hasTests <==> found != []
  {
    found := [];
    hasTests := false;
    var j := 0;
    while j < |scripts|
      invariant 0 <= j <= |scripts|
      invariant found == ExistingTestFiles(scripts[..j], testFileOf, localBasePath, fileExists)
      invariant hasTests <==> found != []
    {
      var testFile := testFileOf(scripts[j]);
      assert scripts[..j + 1][..j] == scripts[..j];
      if fileExists(localBasePath + "/" + testFile) {
        found := found + [testFile];
        hasTests := true;
      }
      j := j + 1;
    }
    assert scripts[..|scripts|] == scripts;
  }

  /**
   * The outer loop of the hook: for every `mobile.` module with scripts,
   * collects the scripts' existing test files and, when there is one, the
   * module's key.
   */
  method CollectTests(modules: seq<ResourceModule>, testFileOf: string -> string, localBasePath: string,
                      fileExists: string -> bool)
    returns (dependencies: seq<string>, testFiles: seq<string>)
    ensures dependencies == TestDependencies(modules, testFileOf, localBasePath, fileExists)
    ensures testFiles == TestFiles(modules, testFileOf, localBasePath, fileExists)
  {
    testFiles := [];
    dependencies := [];
    var i := 0;
    while i < |modules|
      invariant 0 <= i <= |modules|
      invariant testFiles == TestFiles(modules[..i], testFileOf, localBasePath, fileExists)
      invariant dependencies == TestDependencies(modules[..i], testFileOf, localBasePath, fileExists)
    {
      var m := modules[i];
      ghost var files := ModuleTestFiles(m, testFileOf, localBasePath, fileExists);
      assert modules[..i + 1][..i] == modules[..i];
      assert TestFiles(modules[..i + 1], testFileOf, localBasePath, fileExists) == testFiles + files;
      assert TestDependencies(modules[..i + 1], testFileOf, localBasePath, fileExists)
        == dependencies + (if files != [] then [m.key] else []);
      if "mobile." <= m.key && m.scripts.Some? {
        var found, hasTests := ScriptTests(m.scripts.value, testFileOf, localBasePath, fileExists);
        testFiles := testFiles + found;
        if hasTests {
          dependencies := dependencies + [m.key];
        }
      }
      i := i + 1;
    }
    assert modules[..|modules|] == modules;
  }

  const TestModuleName := "tests.mobilefrontend"

  /**
   * Finds the test file of every script of every `mobile.` module, builds
   * the QUnit test module that depends on each module with tests, and
   * registers it as `tests.mobilefrontend` among the `qunit` test modules.
   */
  method OnResourceLoaderTestModules(testModules: map<string, map<string, TestModule>>,
                                     modules: seq<ResourceModule>, localBasePath: string,
                                     fileExists: string -> bool)
    returns (registered: map<string, map<string, TestModule>>, testModule: TestModule)
    ensures testModule.dependencies == TestDependencies(modules, TestFilePath, localBasePath, fileExists)
    ensures testModule.scripts == TestFiles(modules, TestFilePath, localBasePath, fileExists)
    ensures testModule.templates == TestTemplates && testModule.localBasePath == localBasePath
    ensures testModule.remoteExtPath == "MobileFrontend" && testModule.targets == ["mobile", "desktop"]
    ensures forall f :: f in registered <==> f in testModules || f == "qunit"
    ensures forall f :: f in testModules && f != "qunit" ==> registered[f] == testModules[f]
    ensures registered["qunit"] ==
      (if "qunit" in testModules then testModules["qunit"] else map[])[TestModuleName := testModule]
  {
    var dependencies, testFiles := CollectTests(modules, TestFilePath, localBasePath, fileExists);
    testModule := TestModule(dependencies, TestTemplates, localBasePath, "MobileFrontend",
                             ["mobile", "desktop"], testFiles);
    var qunit := if "qunit" in testModules then testModules["qunit"] else map[];
    registered := testModules["qunit" := qunit[TestModuleName := testModule]];
  }

  /** A script's test file is listed when that file exists. */
  lemma {:induction false} ExistingTestFilesMembership(scripts: seq<string>, testFileOf: string -> string,
                                                       localBasePath: string, fileExists: string -> bool, j: nat)
    requires j < |scripts|
    requires TestFileExists(scripts[j], testFileOf, localBasePath, fileExists)
    ensures testFileOf(scripts[j]) in ExistingTestFiles(scripts, testFileOf, localBasePath, fileExists)
  {
    if j < |scripts| - 1 {
      ExistingTestFilesMembership(scripts[..|scripts| - 1], testFileOf, localBasePath, fileExists, j);
      assert scripts[..|scripts| - 1][j] == scripts[j];
    }
  }

  /** Every listed test file is the test file of a script, and that file exists. */
  lemma {:induction false} ExistingTestFilesSound(scripts: seq<string>, testFileOf: string -> string,
                                                  localBasePath: string, fileExists: string -> bool, f: string)
    requires f in ExistingTestFiles(scripts, testFileOf, localBasePath, fileExists)
    ensures exists j ::
      0 <= j < |scripts| && testFileOf(scripts[j]) == f
      && TestFileExists(scripts[j], testFileOf, localBasePath, fileExists)
  {
    var init := scripts[..|scripts| - 1];
    if f in ExistingTestFiles(init, testFileOf, localBasePath, fileExists) {
      ExistingTestFilesSound(init, testFileOf, localBasePath, fileExists, f);
      var j :| 0 <= j < |init| && testFileOf(init[j]) == f
        && TestFileExists(init[j], testFileOf, localBasePath, fileExists);
      assert scripts[j] == init[j];
    } else {
      assert testFileOf(scripts[|scripts| - 1]) == f;
    }
  }

  lemma {:induction false} ExistingTestFilesNonEmpty(scripts: seq<string>, testFileOf: string -> string,
                                                     localBasePath: string, fileExists: string -> bool)
    ensures ExistingTestFiles(scripts, testFileOf, localBasePath, fileExists) != [] <==>
      exists j :: 0 <= j < |scripts| && TestFileExists(scripts[j], testFileOf, localBasePath, fileExists)
  {
    if scripts != [] {
      var init := scripts[..|scripts| - 1];
      ExistingTestFilesNonEmpty(init, testFileOf, localBasePath, fileExists);
      if exists j :: 0 <= j < |init| && TestFileExists(init[j], testFileOf, localBasePath, fileExists) {
        var j :| 0 <= j < |init| && TestFileExists(init[j], testFileOf, localBasePath, fileExists);
        assert scripts[j] == init[j];
      }
      if exists j :: 0 <= j < |scripts| && TestFileExists(scripts[j], testFileOf, localBasePath, fileExists) {
        var j :| 0 <= j < |scripts| && TestFileExists(scripts[j], testFileOf, localBasePath, fileExists);
        if j < |init| {
          assert init[j] == scripts[j];
        }
      }
    }
  }

  /** The module has tests: it is a candidate and one of its test files exists. */
  predicate HasTests(m: ResourceModule, testFileOf: string -> string, localBasePath: string,
                     fileExists: string -> bool)
  {
    IsTestCandidate(m)
    && exists j :: 0 <= j < |m.scripts.value|
         && TestFileExists(m.scripts.value[j], testFileOf, localBasePath, fileExists)
  }

  /**
   * A key is among the dependencies exactly when some module with that key
   * starts with `mobile.`, sets scripts, and has an existing test file.
   */
  lemma {:induction false} TestDependenciesMembership(modules: seq<ResourceModule>, testFileOf: string -> string,
                                                      localBasePath: string, fileExists: string -> bool, key: string)
    ensures key in TestDependencies(modules, testFileOf, localBasePath, fileExists) <==>
      exists i :: 0 <= i < |modules| && modules[i].key == key
        && HasTests(modules[i], testFileOf, localBasePath, fileExists)
  {
    if modules != [] {
      var init := modules[..|modules| - 1];
      var m := modules[|modules| - 1];
      TestDependenciesMembership(init, testFileOf, localBasePath, fileExists, key);
      ModuleHasTests(m, testFileOf, localBasePath, fileExists);
      ModulesWithTestsSplit(modules, testFileOf, localBasePath, fileExists, key);
      assert TestDependencies(modules, testFileOf, localBasePath, fileExists)
        == TestDependencies(init, testFileOf, localBasePath, fileExists)
           + (if ModuleTestFiles(m, testFileOf, localBasePath, fileExists) != [] then [m.key] else []);
    }
  }

  /** A module has test files exactly when it has tests. */
  lemma ModuleHasTests(m: ResourceModule, testFileOf: string -> string, localBasePath: string,
                       fileExists: string -> bool)
    ensures ModuleTestFiles(m, testFileOf, localBasePath, fileExists) != [] <==>
      HasTests(m, testFileOf, localBasePath, fileExists)
  {
    if IsTestCandidate(m) {
      ExistingTestFilesNonEmpty(m.scripts.value, testFileOf, localBasePath, fileExists);
    }
  }

  lemma ModulesWithTestsSplit(modules: seq<ResourceModule>, testFileOf: string -> string,
                              localBasePath: string, fileExists: string -> bool, key: string)
    requires modules != []
    ensures var init, m := modules[..|modules| - 1], modules[|modules| - 1];
      (exists i :: 0 <= i < |modules| && modules[i].key == key
         && HasTests(modules[i], testFileOf, localBasePath, fileExists))
      <==>
      (exists i :: 0 <= i < |init| && init[i].key == key
         && HasTests(init[i], testFileOf, localBasePath, fileExists))
      || (m.key == key && HasTests(m, testFileOf, localBasePath, fileExists))
  {
    var init, m := modules[..|modules| - 1], modules[|modules| - 1];
    if exists i :: 0 <= i < |init| && init[i].key == key && HasTests(init[i], testFileOf, localBasePath, fileExists) {
      var i :| 0 <= i < |init| && init[i].key == key && HasTests(init[i], testFileOf, localBasePath, fileExists);
      assert modules[i] == init[i];
    }
    if exists i :: 0 <= i < |modules| && modules[i].key == key
         && HasTests(modules[i], testFileOf, localBasePath, fileExists) {
      var i :| 0 <= i < |modules| && modules[i].key == key
        && HasTests(modules[i], testFileOf, localBasePath, fileExists);
      if i < |init| {
        assert init[i] == modules[i];
      }
    }
  }

  // ---------------------------------------------------------------------
  // onBeforePageDisplay: the canonical/alternate link and the Vary header

  /** A `<link>` tag: its `rel`, optional `media` and `href` (which may be `false`). */
  datatype Link = Link(rel: string, media: Option<string>, href: Value)

  /**
   * The links the canonical/alternate block adds. Only when a mobile URL
   * template is set and noindex pages are enabled: in desktop view an
   * `alternate` link to the mobile URL restricted to tablet-sized screens,
   * in mobile view a `canonical` link to the page's own URL, except on
   * Special:MobileCite where none is added.
   */
  function CanonicalOrAlternateLinks(mobileUrlTemplate: string, noindexPages: bool, mobileView: bool,
                                     isMobileCite: bool, fullUrl: string, getMobileUrl: string -> Value,
                                     deviceWidthTablet: string): (links: seq<Link>)
    ensures |links| <= 1
    ensures |links| == 1 <==>
      StrTruthy(mobileUrlTemplate) && noindexPages && (!mobileView || !isMobileCite)
    ensures |links| == 1 && !mobileView ==>
      links[0] == Link("alternate", Some("only screen and (max-width: " + deviceWidthTablet + ")"),
                       getMobileUrl(fullUrl))
    ensures |links| == 1 && mobileView ==> links[0] == Link("canonical", None, Str(fullUrl))
  {
    if StrTruthy(mobileUrlTemplate) && noindexPages then
      if !mobileView then
        [Link("alternate", Some("only screen and (max-width: " + deviceWidthTablet + ")"),
              getMobileUrl(fullUrl))]
      else if !isMobileCite then
        [Link("canonical", None, Str(fullUrl))]
      else []
    else []
  }

  /**
   * `User-Agent` is added to the Vary header when the server varies on the
   * user agent, auto-detects mobile devices and serves mobile and desktop
   * from the same URL (no `MobileUrlTemplate`).
   */
  predicate VaryOnUserAgent(varyOnUA: bool, autodetectMobileView: bool, mobileUrlTemplateConfig: string)
  {
    varyOnUA && autodetectMobileView && !StrTruthy(mobileUrlTemplateConfig)
  }

  /**
   * Both decisions depend on the site's mobile URL template: `Vary: User-Agent`
   * is sent only when mobile and desktop share a URL, and a canonical or
   * alternate link only when they do not, so a page never gets both. The
   * link reads the template through MobileContext and the Vary rule reads
   * the `MobileUrlTemplate` setting directly; the model takes the two to
   * be the same value, which is what MobileContext returns.
   */
  lemma VaryExcludesLinks(varyOnUA: bool, autodetectMobileView: bool, mobileUrlTemplate: string,
                          noindexPages: bool, mobileView: bool, isMobileCite: bool, fullUrl: string,
                          getMobileUrl: string -> Value, deviceWidthTablet: string)
    ensures VaryOnUserAgent(varyOnUA, autodetectMobileView, mobileUrlTemplate) ==>
      CanonicalOrAlternateLinks(mobileUrlTemplate, noindexPages, mobileView, isMobileCite, fullUrl,
                                getMobileUrl, deviceWidthTablet) == []
  {
  }

  /**
   * A row of the hook's unit-test table: URL template set, noindex pages,
   * auto-detection, vary on user agent, and the expected link count and
   * Vary header. The table's X-Analytics columns are not part of this
   * decision, so its rows 5 to 8 read here as rows 1 to 4 again.
   */
  datatype DisplayCase = DisplayCase(template: bool, noindex: bool, autodetect: bool, varyOnUA: bool,
                                     links: nat, varyHeader: bool)

  const DisplayCases: seq<DisplayCase> := [
    DisplayCase(true, true, true, true, 1, false),
    DisplayCase(true, false, false, false, 0, false),
    DisplayCase(false, true, true, true, 0, true),
    DisplayCase(false, false, false, false, 0, false),
    DisplayCase(true, true, true, true, 1, false),
    DisplayCase(true, false, false, false, 0, false),
    DisplayCase(false, true, true, true, 0, true),
    DisplayCase(false, false, false, false, 0, false),
    DisplayCase(false, false, false, true, 0, false)]

  /**
   * Every row of the table holds in both views: the link count and the Vary
   * header are as expected, and the one link is `canonical` in mobile view
   * and `alternate` in desktop view.
   */
  lemma BeforePageDisplayTable(fullUrl: string, getMobileUrl: string -> Value, width: string)
    ensures forall k :: 0 <= k < |DisplayCases| ==>
      var c := DisplayCases[k];
      var template := if c.template then "%h0.m.%h1.%h2" else "";
      var mobile := CanonicalOrAlternateLinks(template, c.noindex, true, false, fullUrl, getMobileUrl, width);
      var desktop := CanonicalOrAlternateLinks(template, c.noindex, false, false, fullUrl, getMobileUrl, width);
      |mobile| == c.links && |desktop| == c.links
      && (c.links == 1 ==> mobile[0].rel == "canonical" && desktop[0].rel == "alternate")
      && VaryOnUserAgent(c.varyOnUA, c.autodetect, template) == c.varyHeader
  {
  }

  /** No link is added on Special:MobileCite in mobile view. */
  lemma MobileCiteHasNoLink(fullUrl: string, getMobileUrl: string -> Value, width: string)
    ensures CanonicalOrAlternateLinks("%h0.m.%h1.%h2", true, true, true, fullUrl, getMobileUrl, width) == []
  {
  }

  // ---------------------------------------------------------------------
  // onDiffViewHeader

  /**
   * The revision whose MobileDiff page a diff view redirects to, if any.
   * Only in mobile view and not on a special page; when an old revision is
   * given, only if it is the revision immediately before the new one.
   * `oldRevId` is the old revision's id when there is an old revision, and
   * `prevRevId` the id of the revision before the new one when it exists.
   */
  function MobileDiffRedirect(mobileView: bool, isSpecialPage: bool, newRevId: int,
                              oldRevId: Option<int>, prevRevId: Option<int>): (target: Option<int>)
    ensures target.Some? ==> target.value == newRevId
    ensures target.Some? <==>
      mobileView && !isSpecialPage && (oldRevId.None? || prevRevId == oldRevId)
  {
    if mobileView && !isSpecialPage then
      if oldRevId.Some? then
        if prevRevId.Some? && prevRevId.value == oldRevId.value then Some(newRevId) else None
      else Some(newRevId)
    else None
  }
}
