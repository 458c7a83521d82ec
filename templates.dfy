/**
  The template renderer: the four fixed User-Agent templates, filled with a
  sampled version and the auxiliary values drawn from the tables. A template
  is the list of pieces Sprintf writes one after another.
 */
module Templates {

  import opened Wrappers
  import opened Strings
  import opened Decimal
  import opened Tables
  import opened Sampler

  // ---------------------------------------------------------------------------
  // Chrome on Windows

  /** The pieces of generateChromeWindows's format, filled in. */
  function ChromeWindowsPieces(ver: Version): seq<string> {
    ["Mozilla/5.0 (", "Windows NT " + WINDOWS_NT_VERSION, "; ", WINDOWS_ARCH,
     "; x64) AppleWebKit/537.36 (KHTML, like Gecko)", " ", "Chrome/" + ver.full, " ", "Safari/537.36"]
  }

  /** generateChromeWindows. */
  function ChromeWindowsUA(ver: Version): (ua: string)
    ensures Contains(ua, "Windows NT " + WINDOWS_NT_VERSION) && Contains(ua, WINDOWS_ARCH)
    ensures Contains(ua, "Chrome/" + ver.full)
    ensures HasSuffix(ua, "Safari/537.36")
  {
    var pieces := ChromeWindowsPieces(ver);
    ConcatContains(pieces, 1);
    ConcatContains(pieces, 3);
    ConcatContains(pieces, 6);
    ConcatSuffix(pieces);
    Concat(pieces)
  }

  /** Read back as product tokens, the Windows UA names `ver.full` as the Chrome version. */
  lemma ChromeWindowsProducts(ver: Version)
    requires VersionNumbers(ver.full).Some?
    ensures ProductVersion(ChromeWindowsUA(ver), "Chrome") == Some(ver.full)
    ensures ProductVersion(ChromeWindowsUA(ver), "Safari") == Some("537.36")
  {
    NoSpaceInVersion(ver.full);
    var pieces := ChromeWindowsPieces(ver);
    var front := pieces[..5];
    var words := [pieces[6], pieces[8]];
    SpacedTwo(words[0], words[1]);
    assert front + Spaced(words) == pieces;
    SpacedWords(front, words);
    assert Split(ChromeWindowsUA(ver), ' ') == Split(Concat(front), ' ') + words;
    LastProductAt(words, "Safari", 1);
    NotProduct(words[1], "Chrome");
    LastProductAt(words, "Chrome", 0);
    LastProductAppend(Split(Concat(front), ' '), words, "Chrome");
    LastProductAppend(Split(Concat(front), ' '), words, "Safari");
  }

  // ---------------------------------------------------------------------------
  // Chrome on Android

  /** The pieces of generateChromeAndroid's format before its product tokens. */
  function ChromeAndroidFront(vendor: string, os: nat): seq<string>
    requires os < |ANDROID_VERSIONS|
  {
    ["Mozilla/5.0 (Linux; ", "Android " + ANDROID_VERSIONS[os], "; ", vendor,
     ") AppleWebKit/537.36 (KHTML, like Gecko)"]
  }

  /** The pieces of generateChromeAndroid's format, filled in. */
  function ChromeAndroidPieces(ver: Version, vendor: string, os: nat): seq<string>
    requires os < |ANDROID_VERSIONS|
  {
    ChromeAndroidFront(vendor, os) + [" ", "Chrome/" + ver.full, " ", "Mobile", " ", "Safari/537.36"]
  }

  /** generateChromeAndroid, with the Android version drawn as index `os` of the table. */
  function ChromeAndroidUA(ver: Version, vendor: string, os: nat): (ua: string)
    requires os < |ANDROID_VERSIONS|
    ensures Contains(ua, "Android " + ANDROID_VERSIONS[os]) && Contains(ua, vendor)
    ensures Contains(ua, "Chrome/" + ver.full) && Contains(ua, "Mobile")
    ensures HasSuffix(ua, "Safari/537.36")
  {
    var pieces := ChromeAndroidPieces(ver, vendor, os);
    ConcatContains(pieces, 1);
    ConcatContains(pieces, 3);
    ConcatContains(pieces, 6);
    ConcatContains(pieces, 8);
    ConcatSuffix(pieces);
    Concat(pieces)
  }

  /**
    Read back as words, the Android UA ends "Chrome/<ver.full> Mobile
    Safari/537.36", whatever the vendor: `ver.full` is its Chrome version.
   */
  lemma ChromeAndroidProducts(ver: Version, vendor: string, os: nat)
    requires os < |ANDROID_VERSIONS|
    requires VersionNumbers(ver.full).Some?
    ensures var words := Split(ChromeAndroidUA(ver, vendor, os), ' ');
      |words| >= 3 && words[|words| - 3..] == ["Chrome/" + ver.full, "Mobile", "Safari/537.36"]
    ensures ProductVersion(ChromeAndroidUA(ver, vendor, os), "Chrome") == Some(ver.full)
    ensures ProductVersion(ChromeAndroidUA(ver, vendor, os), "Safari") == Some("537.36")
  {
    NoSpaceInVersion(ver.full);
    var pieces := ChromeAndroidPieces(ver, vendor, os);
    var front := ChromeAndroidFront(vendor, os);
    var words := [pieces[6], pieces[8], pieces[10]];
    SpacedThree(words[0], words[1], words[2]);
    assert front + Spaced(words) == pieces;
    SpacedWords(front, words);
    var all := Split(ChromeAndroidUA(ver, vendor, os), ' ');
    assert all == Split(Concat(front), ' ') + words;
    assert all[|all| - 3..] == words;
    LastProductAt(words, "Safari", 2);
    NotProduct(words[1], "Chrome");
    NotProduct(words[2], "Chrome");
    LastProductAt(words, "Chrome", 0);
    LastProductAppend(Split(Concat(front), ' '), words, "Chrome");
    LastProductAppend(Split(Concat(front), ' '), words, "Safari");
  }

  // ---------------------------------------------------------------------------
  // Safari on iPhone

  /** The draws for the mobile identifier: rand.Intn(26), Intn(10), Intn(10), Intn(26), Intn(10), Intn(26). */
  predicate MobileIdDrawsFit(ds: seq<nat>) {
    |ds| == 6 && ds[0] < 26 && ds[1] < 10 && ds[2] < 10 && ds[3] < 26 && ds[4] < 10 && ds[5] < 26
  }

  /** Letter, digit, digit, letter, digit, letter; letters in A-Z, digits in 0-9. */
  predicate IsMobileId(id: string) {
    |id| == 6 && IsUpper(id[0]) && IsDigit(id[1]) && IsDigit(id[2])
    && IsUpper(id[3]) && IsDigit(id[4]) && IsUpper(id[5])
  }

  function Letter(k: nat): (c: char)
    requires k < 26
    ensures IsUpper(c) && c as int - 'A' as int == k
  {
    ('A' as int + k) as char
  }

  /** The "%c%c%c%c%c%c" mobile identifier of generateSafariIPhone. */
  function MobileId(ds: seq<nat>): (id: string)
    requires MobileIdDrawsFit(ds)
    ensures IsMobileId(id)
  {
    [Letter(ds[0]), DigitChar(ds[1]), DigitChar(ds[2]), Letter(ds[3]), DigitChar(ds[4]), Letter(ds[5])]
  }

  /** The draws that produce a given identifier: every identifier of the pattern is generated, by exactly one draw. */
  function MobileIdDraws(id: string): (ds: seq<nat>)
    requires IsMobileId(id)
    ensures MobileIdDrawsFit(ds) && MobileId(ds) == id
  {
    var ds: seq<nat> := [id[0] as int - 'A' as int, id[1] as int - '0' as int, id[2] as int - '0' as int,
      id[3] as int - 'A' as int, id[4] as int - '0' as int, id[5] as int - 'A' as int];
    assert MobileId(ds) == id;
    ds
  }

  /** Different draws give different identifiers. */
  lemma MobileIdInjective(ds: seq<nat>)
    requires MobileIdDrawsFit(ds)
    ensures MobileIdDraws(MobileId(ds)) == ds
  {
    var back := MobileIdDraws(MobileId(ds));
    assert forall i :: 0 <= i < 6 ==> back[i] == ds[i];
  }

  /** The pieces of generateSafariIPhone's format before its product tokens. */
  function SafariIPhoneFront(os: nat): seq<string>
    requires os < |IOS_VERSIONS|
  {
    ["Mozilla/5.0 (iPhone; CPU ", "iPhone OS " + IOS_VERSIONS[os],
     " like Mac OS X) AppleWebKit/605.1.15 (KHTML, like Gecko)"]
  }

  /** The pieces of generateSafariIPhone's format, filled in. */
  function SafariIPhonePieces(ver: Version, os: nat, ids: seq<nat>): seq<string>
    requires os < |IOS_VERSIONS| && MobileIdDrawsFit(ids)
  {
    SafariIPhoneFront(os)
      + [" ", "Version/" + ReplaceAll(IOS_VERSIONS[os], '_', '.'), " ", "Mobile/" + MobileId(ids), " ", "Safari/" + ver.full]
  }

  /** generateSafariIPhone, with the iOS version drawn as index `os` of the table. */
  function SafariIPhoneUA(ver: Version, os: nat, ids: seq<nat>): (ua: string)
    requires os < |IOS_VERSIONS| && MobileIdDrawsFit(ids)
    ensures Contains(ua, "iPhone OS " + IOS_VERSIONS[os])
    ensures Contains(ua, "Version/" + ReplaceAll(IOS_VERSIONS[os], '_', '.'))
    ensures Contains(ua, "Mobile/" + MobileId(ids))
    ensures HasSuffix(ua, "Safari/" + ver.full)
  {
    var pieces := SafariIPhonePieces(ver, os, ids);
    ConcatContains(pieces, 1);
    ConcatContains(pieces, 4);
    ConcatContains(pieces, 6);
    ConcatSuffix(pieces);
    Concat(pieces)
  }

  /** The displayed iOS version is one word: the table holds no spaces and the rewrite adds none. */
  lemma IOSDisplayIsWord(os: nat)
    requires os < |IOS_VERSIONS|
    ensures ' ' !in ReplaceAll(IOS_VERSIONS[os], '_', '.')
  {
    var ios := IOS_VERSIONS[os];
    assert ' ' !in ios;
    var display := ReplaceAll(ios, '_', '.');
    forall i | 0 <= i < |display| ensures display[i] != ' ' {
      assert ios[i] != ' ';
    }
  }

  /** The last three words of the iPhone UA: its Version, Mobile and Safari tokens. */
  lemma SafariIPhoneWords(ver: Version, os: nat, ids: seq<nat>)
    requires os < |IOS_VERSIONS| && MobileIdDrawsFit(ids)
    requires ' ' !in ver.full
    ensures Split(SafariIPhoneUA(ver, os, ids), ' ') == Split(Concat(SafariIPhoneFront(os)), ' ')
      + ["Version/" + ReplaceAll(IOS_VERSIONS[os], '_', '.'), "Mobile/" + MobileId(ids), "Safari/" + ver.full]
  {
    IOSDisplayIsWord(os);
    var pieces := SafariIPhonePieces(ver, os, ids);
    var front := SafariIPhoneFront(os);
    var words := [pieces[4], pieces[6], pieces[8]];
    SpacedThree(words[0], words[1], words[2]);
    assert front + Spaced(words) == pieces;
    SpacedWords(front, words);
  }

  /**
    Read back as product tokens, the iPhone UA names the iOS version with
    dots as its Version, the mobile identifier as Mobile and `ver.full` as
    its Safari version.
   */
  lemma SafariIPhoneProducts(ver: Version, os: nat, ids: seq<nat>)
    requires os < |IOS_VERSIONS| && MobileIdDrawsFit(ids)
    requires VersionNumbers(ver.full).Some?
    ensures ProductVersion(SafariIPhoneUA(ver, os, ids), "Version") == Some(ReplaceAll(IOS_VERSIONS[os], '_', '.'))
    ensures ProductVersion(SafariIPhoneUA(ver, os, ids), "Mobile") == Some(MobileId(ids))
    ensures ProductVersion(SafariIPhoneUA(ver, os, ids), "Safari") == Some(ver.full)
  {
    NoSpaceInVersion(ver.full);
    SafariIPhoneWords(ver, os, ids);
    var front := SafariIPhoneFront(os);
    var words := ["Version/" + ReplaceAll(IOS_VERSIONS[os], '_', '.'), "Mobile/" + MobileId(ids), "Safari/" + ver.full];
    LastProductAt(words, "Safari", 2);
    NotProduct(words[2], "Mobile");
    LastProductAt(words, "Mobile", 1);
    NotProduct(words[1], "Version");
    NotProduct(words[2], "Version");
    LastProductAt(words, "Version", 0);
    LastProductAppend(Split(Concat(front), ' '), words, "Version");
    LastProductAppend(Split(Concat(front), ' '), words, "Mobile");
    LastProductAppend(Split(Concat(front), ' '), words, "Safari");
  }

  // ---------------------------------------------------------------------------
  // Safari on macOS

  /** The "%s.%d" display version: a table major and a minor drawn from [0, 7]. */
  function MacDisplayVersion(display: nat, k: nat): (s: string)
    requires display < |SAFARI_BROWSER_VERSIONS| && Fits(0, 7, k)
    ensures VersionNumbers(s).Some? && |VersionNumbers(s).value| == 2
    ensures 15 <= VersionNumbers(s).value[0] <= 17 && VersionNumbers(s).value[1] <= 7
  {
    var major := SAFARI_BROWSER_VERSIONS[display];
    var minor := FromRange(0, 7, k);
    assert major != [] && AllDigits(major) && 15 <= DigitsValue(major) <= 17;
    TwoNumbers(major, minor);
    major + "." + NatToString(minor)
  }

  /** The pieces of generateSafariMac's format, filled in. */
  function SafariMacPieces(ver: Version, os: nat, display: nat, k: nat): seq<string>
    requires os < |MAC_OS_VERSIONS| && display < |SAFARI_BROWSER_VERSIONS| && Fits(0, 7, k)
  {
    ["Mozilla/5.0 (Macintosh; Intel ", "Mac OS X " + MAC_OS_VERSIONS[os], ")",
     " ", "AppleWebKit/" + ver.full, " (KHTML, like Gecko)",
     " ", "Version/" + MacDisplayVersion(display, k),
     " ", "Safari/" + ver.full]
  }

  /** generateSafariMac, with the macOS version and the display major drawn as table indices. */
  function SafariMacUA(ver: Version, os: nat, display: nat, k: nat): (ua: string)
    requires os < |MAC_OS_VERSIONS| && display < |SAFARI_BROWSER_VERSIONS| && Fits(0, 7, k)
    ensures Contains(ua, "Mac OS X " + MAC_OS_VERSIONS[os])
    ensures Contains(ua, "AppleWebKit/" + ver.full)
    ensures Contains(ua, "Version/" + MacDisplayVersion(display, k))
    ensures HasSuffix(ua, "Safari/" + ver.full)
  {
    var pieces := SafariMacPieces(ver, os, display, k);
    ConcatContains(pieces, 1);
    ConcatContains(pieces, 4);
    ConcatContains(pieces, 7);
    ConcatSuffix(pieces);
    Concat(pieces)
  }

  /** Read back as product tokens, the Mac UA names the display version as Version and `ver.full` as Safari. */
  lemma SafariMacProducts(ver: Version, os: nat, display: nat, k: nat)
    requires os < |MAC_OS_VERSIONS| && display < |SAFARI_BROWSER_VERSIONS| && Fits(0, 7, k)
    requires VersionNumbers(ver.full).Some?
    ensures ProductVersion(SafariMacUA(ver, os, display, k), "Version") == Some(MacDisplayVersion(display, k))
    ensures ProductVersion(SafariMacUA(ver, os, display, k), "Safari") == Some(ver.full)
  {
    var shown := MacDisplayVersion(display, k);
    NoSpaceInVersion(ver.full);
    NoSpaceInVersion(shown);
    var pieces := SafariMacPieces(ver, os, display, k);
    var front := pieces[..6];
    var words := [pieces[7], pieces[9]];
    SpacedTwo(words[0], words[1]);
    assert front + Spaced(words) == pieces;
    SpacedWords(front, words);
    assert Split(SafariMacUA(ver, os, display, k), ' ') == Split(Concat(front), ' ') + words;
    LastProductAt(words, "Safari", 1);
    NotProduct(words[1], "Version");
    LastProductAt(words, "Version", 0);
    LastProductAppend(Split(Concat(front), ' '), words, "Version");
    LastProductAppend(Split(Concat(front), ' '), words, "Safari");
  }
}
