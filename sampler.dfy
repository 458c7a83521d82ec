/**
  The version sampler: closed-range draws and the Chrome and Safari version
  numbers built from them. Every random draw is an explicit argument whose
  precondition says where the random source could have put it.
 */
module Sampler {

  import opened Wrappers
  import opened Decimal
  import opened Tables

  /** A sampled browser version: the major number and the dotted string printed in the User-Agent. */
  datatype Version = Version(major: int, full: string)

  function Max(a: int, b: int): int {
    if a >= b then a else b
  }

  /**
    `k` is a value `rand.Intn(hi - lo + 1)` can return. A degenerate range
    makes no draw, so any `k` goes with it.
   */
  predicate Fits(lo: int, hi: int, k: nat) {
    lo >= hi || k <= hi - lo
  }

  /** fromRange: a value of the closed range [lo, hi], or `lo` when the range is degenerate. */
  function FromRange(lo: int, hi: int, k: nat): (r: int)
    requires Fits(lo, hi, k)
    ensures lo >= hi ==> r == lo
    ensures lo < hi ==> lo <= r <= hi
  {
    if lo >= hi then lo else lo + k
  }

  /** Every value of a non-empty range is the outcome of some draw. */
  lemma FromRangeCovers(lo: int, hi: int, v: int)
    requires lo <= v <= hi
    ensures exists k: nat :: Fits(lo, hi, k) && FromRange(lo, hi, k) == v
  {
    var k: nat := v - lo;
    assert Fits(lo, hi, k) && FromRange(lo, hi, k) == v;
  }

  // ---------------------------------------------------------------------------
  // The major-version window

  /**
    The bounds the major version is drawn from: the browser's default bounds,
    or [max(maxMajor - majorDelta, 0), maxMajor] when `maxMajor` is set.
   */
  function MajorWindow(defaultMin: int, defaultMax: int, maxMajor: int, majorDelta: int): (int, int) {
    if maxMajor > 0 then (Max(maxMajor - majorDelta, 0), maxMajor) else (defaultMin, defaultMax)
  }

  /** Where a major drawn from MajorWindow(defaultMin, defaultMax, maxMajor, majorDelta) lies. */
  predicate InMajorWindow(major: int, defaultMin: int, defaultMax: int, maxMajor: int, majorDelta: int) {
    && (maxMajor <= 0 ==> defaultMin <= major <= defaultMax)
    && (maxMajor > 0 && majorDelta >= 0 ==> Max(maxMajor - majorDelta, 0) <= major <= maxMajor)
    && (maxMajor > 0 && majorDelta < 0 ==> major == maxMajor - majorDelta)
  }

  /** The major-version draw for a window; it is never negative. */
  function DrawMajor(defaultMin: int, defaultMax: int, maxMajor: int, majorDelta: int, k: nat): (major: nat)
    requires 0 <= defaultMin <= defaultMax
    requires Fits(MajorWindow(defaultMin, defaultMax, maxMajor, majorDelta).0, MajorWindow(defaultMin, defaultMax, maxMajor, majorDelta).1, k)
    ensures InMajorWindow(major, defaultMin, defaultMax, maxMajor, majorDelta)
  {
    var w := MajorWindow(defaultMin, defaultMax, maxMajor, majorDelta);
    FromRange(w.0, w.1, k)
  }

  // ---------------------------------------------------------------------------
  // Chrome

  /** The draws chromeVersion makes: offsets for the major, the patch and the build. */
  datatype ChromeDraws = ChromeDraws(major: nat, patch: nat, build: nat)

  predicate ChromeDrawsFit(maxMajor: int, majorDelta: int, d: ChromeDraws) {
    var w := MajorWindow(CHROME_MAJOR_MIN, CHROME_MAJOR_MAX, maxMajor, majorDelta);
    && Fits(w.0, w.1, d.major)
    && Fits(CHROME_PATCH_MIN, CHROME_PATCH_MAX, d.patch)
    && Fits(CHROME_BUILD_MIN, CHROME_BUILD_MAX, d.build)
  }

  /** `v.full` is exactly "<major>.0.<patch>.<build>" as `%d` prints it, with patch and build inside Chrome's bounds. */
  predicate ChromeShaped(v: Version) {
    && VersionNumbers(v.full).Some?
    && var ns := VersionNumbers(v.full).value;
    && |ns| == 4
    && v.full == Dotted(ns)
    && ns[0] == v.major && ns[1] == 0
    && CHROME_PATCH_MIN <= ns[2] <= CHROME_PATCH_MAX
    && CHROME_BUILD_MIN <= ns[3] <= CHROME_BUILD_MAX
  }

  /** chromeVersion: a Chrome version inside the major window, printed as "%d.0.%d.%d". */
  function ChromeVersion(maxMajor: int, majorDelta: int, d: ChromeDraws): (v: Version)
    requires ChromeDrawsFit(maxMajor, majorDelta, d)
    ensures InMajorWindow(v.major, CHROME_MAJOR_MIN, CHROME_MAJOR_MAX, maxMajor, majorDelta)
    ensures ChromeShaped(v)
  {
    var major := DrawMajor(CHROME_MAJOR_MIN, CHROME_MAJOR_MAX, maxMajor, majorDelta, d.major);
    var patch := FromRange(CHROME_PATCH_MIN, CHROME_PATCH_MAX, d.patch);
    var build := FromRange(CHROME_BUILD_MIN, CHROME_BUILD_MAX, d.build);
    var full := NatToString(major) + ".0." + NatToString(patch) + "." + NatToString(build);
    assert full == Dotted([major, 0, patch, build]) by {
      assert [major, 0, patch, build][..3] == [major, 0, patch];
      assert [major, 0, patch][..2] == [major, 0];
      assert Dotted([major, 0]) == NatToString(major) + "." + NatToString(0);
    }
    assert VersionNumbers(full) == Some([major, 0, patch, build]) by {
      DottedRoundTrip([major, 0, patch, build]);
    }
    Version(major, full)
  }

  // ---------------------------------------------------------------------------
  // Safari

  /**
    The draws safariVersion makes: offsets for the major and the minor, the
    outcome of the `rand.Float64() < 0.3` coin, and the patch offset used
    only when the coin came up.
   */
  datatype SafariDraws = SafariDraws(major: nat, minor: nat, withPatch: bool, patch: nat)

  predicate SafariDrawsFit(maxMajor: int, majorDelta: int, d: SafariDraws) {
    var w := MajorWindow(SAFARI_MAJOR_MIN, SAFARI_MAJOR_MAX, maxMajor, majorDelta);
    && Fits(w.0, w.1, d.major)
    && Fits(SAFARI_MINOR_MIN, SAFARI_MINOR_MAX, d.minor)
    && (d.withPatch ==> Fits(SAFARI_PATCH_MIN, SAFARI_PATCH_MAX, d.patch))
  }

  /** `v.full` is exactly "<major>.<minor>" or "<major>.<minor>.<patch>" as `%d` prints it, inside Safari's bounds. */
  predicate SafariShaped(v: Version) {
    && VersionNumbers(v.full).Some?
    && var ns := VersionNumbers(v.full).value;
    && (|ns| == 2 || |ns| == 3)
    && v.full == Dotted(ns)
    && ns[0] == v.major
    && SAFARI_MINOR_MIN <= ns[1] <= SAFARI_MINOR_MAX
    && (|ns| == 3 ==> SAFARI_PATCH_MIN <= ns[2] <= SAFARI_PATCH_MAX)
  }

  /** safariVersion: a Safari version inside the major window, with a patch component exactly when the coin came up. */
  function SafariVersion(maxMajor: int, majorDelta: int, d: SafariDraws): (v: Version)
    requires SafariDrawsFit(maxMajor, majorDelta, d)
    ensures InMajorWindow(v.major, SAFARI_MAJOR_MIN, SAFARI_MAJOR_MAX, maxMajor, majorDelta)
    ensures SafariShaped(v)
    ensures |VersionNumbers(v.full).value| == if d.withPatch then 3 else 2
  {
    var major := DrawMajor(SAFARI_MAJOR_MIN, SAFARI_MAJOR_MAX, maxMajor, majorDelta, d.major);
    var minor := FromRange(SAFARI_MINOR_MIN, SAFARI_MINOR_MAX, d.minor);
    var full := NatToString(major) + "." + NatToString(minor);
    assert full == Dotted([major, minor]);
    assert VersionNumbers(full) == Some([major, minor]) by {
      DottedRoundTrip([major, minor]);
    }
    if d.withPatch then
      var patch := FromRange(SAFARI_PATCH_MIN, SAFARI_PATCH_MAX, d.patch);
      var full := NatToString(major) + "." + NatToString(minor) + "." + NatToString(patch);
      assert full == Dotted([major, minor, patch]) by {
        assert [major, minor, patch][..2] == [major, minor];
        assert Dotted([major, minor]) == NatToString(major) + "." + NatToString(minor);
      }
      assert VersionNumbers(full) == Some([major, minor, patch]) by {
        DottedRoundTrip([major, minor, patch]);
      }
      Version(major, full)
    else
      Version(major, full)
  }
}
