/** The static reference tables of the generator: numeric bounds and the string pools draws pick from. */
module Tables {

  // Chrome version bounds (inclusive)
  const CHROME_MAJOR_MIN: int := 136
  const CHROME_MAJOR_MAX: int := 138
  const CHROME_PATCH_MIN: int := 6834
  const CHROME_PATCH_MAX: int := 7204
  const CHROME_BUILD_MIN: int := 85
  const CHROME_BUILD_MAX: int := 101

  // Safari version bounds (inclusive)
  const SAFARI_MAJOR_MIN: int := 614
  const SAFARI_MAJOR_MAX: int := 632
  const SAFARI_MINOR_MIN: int := 1
  const SAFARI_MINOR_MAX: int := 36
  const SAFARI_PATCH_MIN: int := 1
  const SAFARI_PATCH_MAX: int := 15

  /** Android device models. */
  const MOBILE_VENDORS: seq<string> := [
    "SM-T510", "SM-T295", "SM-T515", "SM-T860", "SM-T720", "SM-T595", "SM-T290", "SM-T865", "SM-T835",
    "SM-T725", "SM-P610", "SM-T590", "SM-P615", "TV BOX", "SM-T830", "Lenovo TB-X505X", "SM-T500",
    "Lenovo TB-X505F", "Lenovo TB-X606F", "SM-P205", "SM-T505", "MRX-W09", "Lenovo YT-X705F",
    "Lenovo TB-X505L", "MRX-AL09", "SCM-W09", "Lenovo TB-X606X", "P20HD_EEA", "SM-A105M", "iPlay_20",
    "Lenovo TB-X606V", "H96 Max RK3318", "TVBOX", "SM-T387V", "Lenovo YT-X705L", "Lenovo TB-X306X",
    "Lenovo TB-X306F", "SM-T870", "Redmi Note 8 Pro", "Tab8", "SM-T970", "SM-A205G", "Lenovo TB-X605FC",
    "Lenovo TB-J606F", "e-tab 20", "ADT1061", "SM-T307U", "100003562", "MBOX", "Lenovo TB-X605LC",
    "M40_EEA", "M2003J15SC", "100003561", "X109", "Redmi Note 8", "Lenovo TB-8705F", "A860", "SM-A107M",
    "Redmi Note 7", "BAH3-W09", "BAH3-L09", "TX6s", "SM-T507", "P20HD_ROW", "Magnet_G30", "SM-T875",
    "SM-T387W", "MI PAD 4", "Lenovo YT-X705X", "Lenovo TB-X606FA", "SM-P200", "SM-A207M", "M2004J19C",
    "X104-EEA", "SM-T837V", "SM-A307GT", "AGS3-W09", "SM-T505N", "SM-A105F", "Magnet_G50", "A850", "8092",
    "100015685-A", "X88pro10.q2.0.6330.d4", "SM-T975", "SM-G973F", "J5"
  ]

  const WINDOWS_NT_VERSION: string := "10.0"
  const WINDOWS_ARCH: string := "Win64"

  const MAC_OS_VERSIONS: seq<string> := [
    "10_15_7", "10_14_6", "10_13_6", "11_0", "11_1", "11_2", "11_3", "11_4", "11_5", "11_6",
    "12_0", "12_1", "12_2", "12_3", "12_4", "12_5", "12_6",
    "13_0", "13_1", "13_2", "13_3", "13_4", "13_5", "13_6",
    "14_0", "14_1", "14_2", "14_3", "14_4", "14_5", "14_6"
  ]

  const ANDROID_VERSIONS: seq<string> := ["9", "10", "11", "12", "13", "14", "14", "14", "14"]

  const IOS_VERSIONS: seq<string> := [
    "16_0", "16_1", "16_2", "16_3", "16_4", "16_5",
    "17_0", "17_1", "17_2", "17_3", "17_4", "17_5"
  ]

  /** Safari display versions (major only). */
  const SAFARI_BROWSER_VERSIONS: seq<string> := ["15", "16", "17", "17", "17"]
}
