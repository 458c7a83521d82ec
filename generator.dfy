/**
  Generate: the functional options applied over the defaults, then the
  version sampler and the template of the requested target. All the random
  draws one call makes are gathered in a `Draws` value.
 */
module Generator {

  import Wrappers
  import opened Strings
  import opened Tables
  import opened Sampler
  import opened Templates

  /** A target is an integer code, as Go's iota constants are; only 0 to 3 name a target. */
  type Target = int

  const CHROME_WIN: Target := 0
  const CHROME_ANDROID: Target := 1
  const SAFARI_IPHONE: Target := 2
  const SAFARI_MAC: Target := 3

  predicate IsKnown(target: Target) {
    CHROME_WIN <= target <= SAFARI_MAC
  }

  /** The User-Agent and the version it was built from. */
  datatype Result = Result(userAgent: string, browserVersion: Version)

  /** Go's zero value of Result. */
  const ZERO_RESULT: Result := Result("", Version(0, ""))

  datatype Options = Options(maxMajor: int, majorDelta: int, mobileVendor: string)

  /** The options before any Option is applied. */
  const DEFAULT_OPTIONS: Options := Options(0, 2, "")

  /** The three functional options, each setting one field. */
  datatype Option = WithMaxMajor(maxMajor: int) | WithMajorDelta(majorDelta: int) | WithMobileVendor(vendor: string)

  /** What one option does to the options it is applied to. */
  function Apply(o: Options, opt: Option): Options {
    match opt
    case WithMaxMajor(v) => o.(maxMajor := v)
    case WithMajorDelta(v) => o.(majorDelta := v)
    case WithMobileVendor(v) => o.(mobileVendor := v)
  }

  /** The options after applying `opts` in order. */
  function ApplyAll(o: Options, opts: seq<Option>): Options {
    if opts == [] then o else Apply(ApplyAll(o, opts[..|opts| - 1]), opts[|opts| - 1])
  }

  /** The field an option sets: 0 MaxMajor, 1 MajorDelta, 2 MobileVendor. */
  function Field(opt: Option): nat {
    match opt
    case WithMaxMajor(_) => 0
    case WithMajorDelta(_) => 1
    case WithMobileVendor(_) => 2
  }

  /** An option that no later option overrides decides its field. */
  lemma {:induction false} LastOptionWins(o: Options, opts: seq<Option>, i: nat)
    requires i < |opts|
    requires forall j :: i < j < |opts| ==> Field(opts[j]) != Field(opts[i])
    ensures opts[i].WithMaxMajor? ==> ApplyAll(o, opts).maxMajor == opts[i].maxMajor
    ensures opts[i].WithMajorDelta? ==> ApplyAll(o, opts).majorDelta == opts[i].majorDelta
    ensures opts[i].WithMobileVendor? ==> ApplyAll(o, opts).mobileVendor == opts[i].vendor
  {
    if i < |opts| - 1 {
      var front := opts[..|opts| - 1];
      assert front[i] == opts[i];
      LastOptionWins(o, front, i);
    }
  }

  /** A field no option sets keeps its value. */
  lemma {:induction false} UnsetFieldKept(o: Options, opts: seq<Option>, field: nat)
    requires forall j :: 0 <= j < |opts| ==> Field(opts[j]) != field
    ensures field == 0 ==> ApplyAll(o, opts).maxMajor == o.maxMajor
    ensures field == 1 ==> ApplyAll(o, opts).majorDelta == o.majorDelta
    ensures field == 2 ==> ApplyAll(o, opts).mobileVendor == o.mobileVendor
  {
    if opts != [] {
      UnsetFieldKept(o, opts[..|opts| - 1], field);
    }
  }

  // ---------------------------------------------------------------------------
  // Draws

  /**
    Every draw one Generate call may make: the version draws of each browser,
    the vendor index, the OS-version index (Android, iOS or macOS table), the
    Safari display index and minor offset, and the six mobile-identifier draws.
   */
  datatype Draws = Draws(
    chrome: ChromeDraws, safari: SafariDraws,
    vendor: nat, os: nat, display: nat, displayMinor: nat, mobileId: seq<nat>)

  /** The draws the target's code path makes are values the random source can produce. */
  predicate DrawsFit(target: Target, o: Options, d: Draws) {
    && (target == CHROME_WIN ==> ChromeDrawsFit(o.maxMajor, o.majorDelta, d.chrome))
    && (target == CHROME_ANDROID ==>
          && ChromeDrawsFit(o.maxMajor, o.majorDelta, d.chrome)
          && (o.mobileVendor == "" ==> d.vendor < |MOBILE_VENDORS|)
          && d.os < |ANDROID_VERSIONS|)
    && (target == SAFARI_IPHONE ==>
          && SafariDrawsFit(o.maxMajor, o.majorDelta, d.safari)
          && d.os < |IOS_VERSIONS|
          && MobileIdDrawsFit(d.mobileId))
    && (target == SAFARI_MAC ==>
          && SafariDrawsFit(o.maxMajor, o.majorDelta, d.safari)
          && d.os < |MAC_OS_VERSIONS|
          && d.display < |SAFARI_BROWSER_VERSIONS|
          && Fits(0, 7, d.displayMinor))
  }

  /** The Android device: the forced vendor when one is set, the drawn table entry otherwise. */
  function Vendor(o: Options, d: Draws): (vendor: string)
    requires o.mobileVendor == "" ==> d.vendor < |MOBILE_VENDORS|
    ensures o.mobileVendor != "" ==> vendor == o.mobileVendor
    ensures o.mobileVendor == "" ==> vendor in MOBILE_VENDORS
  {
    if o.mobileVendor == "" then MOBILE_VENDORS[d.vendor] else o.mobileVendor
  }

  /** The switch of Generate, once the options are settled. */
  function Render(target: Target, o: Options, d: Draws): (r: Result)
    requires DrawsFit(target, o, d)
    ensures !IsKnown(target) ==> r == ZERO_RESULT
    ensures IsKnown(target) ==> r.userAgent != []
    ensures target == CHROME_WIN || target == CHROME_ANDROID ==>
      && ChromeShaped(r.browserVersion)
      && InMajorWindow(r.browserVersion.major, CHROME_MAJOR_MIN, CHROME_MAJOR_MAX, o.maxMajor, o.majorDelta)
    ensures target == SAFARI_IPHONE || target == SAFARI_MAC ==>
      && SafariShaped(r.browserVersion)
      && InMajorWindow(r.browserVersion.major, SAFARI_MAJOR_MIN, SAFARI_MAJOR_MAX, o.maxMajor, o.majorDelta)
  {
    if target == CHROME_WIN then
      var ver := ChromeVersion(o.maxMajor, o.majorDelta, d.chrome);
      Result(ChromeWindowsUA(ver), ver)
    else if target == CHROME_ANDROID then
      var ver := ChromeVersion(o.maxMajor, o.majorDelta, d.chrome);
      Result(ChromeAndroidUA(ver, Vendor(o, d), d.os), ver)
    else if target == SAFARI_IPHONE then
      var ver := SafariVersion(o.maxMajor, o.majorDelta, d.safari);
      Result(SafariIPhoneUA(ver, d.os, d.mobileId), ver)
    else if target == SAFARI_MAC then
      var ver := SafariVersion(o.maxMajor, o.majorDelta, d.safari);
      Result(SafariMacUA(ver, d.os, d.display, d.displayMinor), ver)
    else
      ZERO_RESULT
  }

  /** The Windows target's UA names Windows NT 10.0 on Win64 and carries the returned version as Chrome's. */
  lemma RenderWindows(o: Options, d: Draws)
    requires DrawsFit(CHROME_WIN, o, d)
    ensures var r := Render(CHROME_WIN, o, d);
      && Contains(r.userAgent, "Windows NT " + WINDOWS_NT_VERSION) && Contains(r.userAgent, WINDOWS_ARCH)
      && Contains(r.userAgent, "Chrome/" + r.browserVersion.full) && HasSuffix(r.userAgent, "Safari/537.36")
  {
  }

  /** The Android target's UA names the vendor Generate settled on and carries the returned version as Chrome's. */
  lemma RenderAndroid(o: Options, d: Draws)
    requires DrawsFit(CHROME_ANDROID, o, d)
    ensures var r := Render(CHROME_ANDROID, o, d);
      && Contains(r.userAgent, Vendor(o, d)) && Contains(r.userAgent, "Mobile")
      && Contains(r.userAgent, "Chrome/" + r.browserVersion.full) && HasSuffix(r.userAgent, "Safari/537.36")
  {
  }

  /** The browser whose product token carries the version: Chrome for the Chrome targets, Safari otherwise. */
  function BrowserToken(target: Target): string {
    if target == CHROME_WIN || target == CHROME_ANDROID then "Chrome" else "Safari"
  }

  /** The returned BrowserVersion is the version a reader of the User-Agent finds in it. */
  lemma RenderEmbedsVersion(target: Target, o: Options, d: Draws)
    requires DrawsFit(target, o, d) && IsKnown(target)
    ensures var r := Render(target, o, d);
      ProductVersion(r.userAgent, BrowserToken(target)) == Wrappers.Some(r.browserVersion.full)
  {
    var r := Render(target, o, d);
    if target == CHROME_WIN {
      ChromeWindowsProducts(r.browserVersion);
    } else if target == CHROME_ANDROID {
      ChromeAndroidProducts(r.browserVersion, Vendor(o, d), d.os);
    } else if target == SAFARI_IPHONE {
      SafariIPhoneProducts(r.browserVersion, d.os, d.mobileId);
    } else {
      SafariMacProducts(r.browserVersion, d.os, d.display, d.displayMinor);
    }
  }

  /** A non-empty forced vendor appears verbatim in the Android UA. */
  lemma ForcedVendorAppears(o: Options, d: Draws)
    requires o.mobileVendor != "" && DrawsFit(CHROME_ANDROID, o, d)
    ensures Contains(Render(CHROME_ANDROID, o, d).userAgent, o.mobileVendor)
  {
    RenderAndroid(o, d);
  }

  /** Without a forced vendor, some entry of the vendor table appears verbatim in the Android UA. */
  lemma TableVendorAppears(o: Options, d: Draws)
    requires o.mobileVendor == "" && DrawsFit(CHROME_ANDROID, o, d)
    ensures exists v :: v in MOBILE_VENDORS && Contains(Render(CHROME_ANDROID, o, d).userAgent, v)
  {
    RenderAndroid(o, d);
  }

  /** Over any starting options, a non-empty vendor set by the last WithMobileVendor option appears verbatim in the Android UA. */
  lemma ForcedVendorUsed(base: Options, opts: seq<Option>, i: nat, d: Draws)
    requires i < |opts| && opts[i].WithMobileVendor? && opts[i].vendor != ""
    requires forall j :: i < j < |opts| ==> Field(opts[j]) != Field(opts[i])
    requires DrawsFit(CHROME_ANDROID, ApplyAll(base, opts), d)
    ensures Contains(Render(CHROME_ANDROID, ApplyAll(base, opts), d).userAgent, opts[i].vendor)
  {
    LastOptionWins(base, opts, i);
    ForcedVendorAppears(ApplyAll(base, opts), d);
  }

  /**
    Generate: apply `opts` over the defaults, one after another, then render
    the target.
   */
  method Generate(target: Target, opts: seq<Option>, d: Draws) returns (r: Result)
    requires DrawsFit(target, ApplyAll(DEFAULT_OPTIONS, opts), d)
    ensures r == Render(target, ApplyAll(DEFAULT_OPTIONS, opts), d)
  {
    var options := DEFAULT_OPTIONS;
    for i := 0 to |opts|
      invariant options == ApplyAll(DEFAULT_OPTIONS, opts[..i])
    {
      assert opts[..i + 1][..i] == opts[..i];
      options := Apply(options, opts[i]);
    }
    assert opts[..|opts|] == opts;
    r := Render(target, options, d);
  }
}
