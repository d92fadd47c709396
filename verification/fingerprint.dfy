/** Device identification from request metadata (lib/security/device-fingerprint.ts).
    Headers and the user-agent parser's verdict are inputs; sha256 is a supplied function. */
module Fingerprint {
  import opened Base

  /** The request headers `getDeviceInfo` reads; an absent header is `None`. */
  datatype RequestHeaders = RequestHeaders(
    userAgent: Option<string>,
    forwardedFor: Option<string>,
    realIp: Option<string>)

  /** What the user-agent parser reports; a field it cannot determine is `None`. */
  datatype ParsedAgent = ParsedAgent(
    deviceType: Option<string>,
    deviceModel: Option<string>,
    browserName: Option<string>,
    osName: Option<string>)

  /** `DeviceInfo` of types/auth.ts: every field optional. */
  datatype DeviceInfo = DeviceInfo(
    deviceType: Option<string>,
    deviceName: Option<string>,
    browser: Option<string>,
    os: Option<string>,
    ipAddress: Option<string>,
    userAgent: Option<string>)

  /** `s.split(',')[0]`: everything before the first comma. */
  function FirstSegment(s: string): (r: string)
    ensures StartsWith(s, r)
    ensures forall i :: 0 <= i < |r| ==> r[i] != ','
    ensures |r| < |s| ==> s[|r|] == ','
  {
    if |s| == 0 || s[0] == ',' then ""
    else [s[0]] + FirstSegment(s[1..])
  }

  /** `x-forwarded-for`'s first segment if non-empty, else `x-real-ip` if non-empty, else "unknown". */
  function ClientIp(h: RequestHeaders): (ip: string)
    ensures ip != ""
    ensures h.forwardedFor.Some? && FirstSegment(h.forwardedFor.value) != ""
            ==> ip == FirstSegment(h.forwardedFor.value)
    ensures (h.forwardedFor.None? || FirstSegment(h.forwardedFor.value) == "") && Truthy(h.realIp)
            ==> ip == h.realIp.value
    ensures (h.forwardedFor.None? || FirstSegment(h.forwardedFor.value) == "") && !Truthy(h.realIp)
            ==> ip == "unknown"
  {
    var forwarded := if h.forwardedFor.Some? then FirstSegment(h.forwardedFor.value) else "";
    if forwarded != "" then forwarded
    else if Truthy(h.realIp) then h.realIp.value
    else "unknown"
  }

  /** `getDeviceInfo()`: the parser is applied to the user agent (empty when absent),
      and every field it leaves undetermined gets its default. */
  function GetDeviceInfo(h: RequestHeaders, parse: string -> ParsedAgent): (d: DeviceInfo)
    ensures d.userAgent == Some(if Truthy(h.userAgent) then h.userAgent.value else "")
    ensures d.ipAddress == Some(ClientIp(h))
    ensures var p := parse(d.userAgent.value);
            && (!Truthy(p.deviceType) ==> d.deviceType == Some("desktop"))
            && (!Truthy(p.deviceModel) ==> d.deviceName == Some("Unknown Device"))
            && (!Truthy(p.browserName) ==> d.browser == Some("Unknown"))
            && (!Truthy(p.osName) ==> d.os == Some("Unknown"))
    // A field the parser does determine is carried through unchanged.
    ensures var p := parse(d.userAgent.value);
            && (Truthy(p.deviceType) ==> d.deviceType == p.deviceType)
            && (Truthy(p.deviceModel) ==> d.deviceName == p.deviceModel)
            && (Truthy(p.browserName) ==> d.browser == p.browserName)
            && (Truthy(p.osName) ==> d.os == p.osName)
    ensures d.deviceType.Some? && d.deviceName.Some? && d.browser.Some? && d.os.Some?
  {
    var ua := if Truthy(h.userAgent) then h.userAgent.value else "";
    var p := parse(ua);
    DeviceInfo(
      Some(if Truthy(p.deviceType) then p.deviceType.value else "desktop"),
      Some(if Truthy(p.deviceModel) then p.deviceModel.value else "Unknown Device"),
      Some(if Truthy(p.browserName) then p.browserName.value else "Unknown"),
      Some(if Truthy(p.osName) then p.osName.value else "Unknown"),
      Some(ClientIp(h)),
      Some(ua))
  }

  /** What a request's device info depends on: the user agent it sends (empty when
      absent) and the client IP. Two requests alike in both are the same device, and
      so get the same device id. */
  lemma SameClientSameDevice(sha256: string -> string, parse: string -> ParsedAgent,
                             h1: RequestHeaders, h2: RequestHeaders)
    requires (if Truthy(h1.userAgent) then h1.userAgent.value else "")
             == (if Truthy(h2.userAgent) then h2.userAgent.value else "")
    requires ClientIp(h1) == ClientIp(h2)
    ensures GetDeviceInfo(h1, parse) == GetDeviceInfo(h2, parse)
    ensures var d1, d2 := GetDeviceInfo(h1, parse), GetDeviceInfo(h2, parse);
            GenerateDeviceId(sha256, d1.userAgent.value, d1.ipAddress.value)
            == GenerateDeviceId(sha256, d2.userAgent.value, d2.ipAddress.value)
  {
  }

  /** The string that is hashed into a device id. */
  function DeviceKey(userAgent: string, ipAddress: string): string {
    userAgent + "-" + ipAddress
  }

  /** `generateDeviceId(userAgent, ipAddress)`: sha256 of "<userAgent>-<ipAddress>". */
  function GenerateDeviceId(sha256: string -> string, userAgent: string, ipAddress: string): string {
    sha256(DeviceKey(userAgent, ipAddress))
  }

  /** The id depends on the pair only through its concatenation. */
  lemma SameKeySameId(sha256: string -> string, ua1: string, ip1: string, ua2: string, ip2: string)
    requires DeviceKey(ua1, ip1) == DeviceKey(ua2, ip2)
    ensures GenerateDeviceId(sha256, ua1, ip1) == GenerateDeviceId(sha256, ua2, ip2)
  {
  }

  /** Distinct (user agent, ip) pairs can share an id: ("a-b", "c") and ("a", "b-c"). */
  lemma DistinctPairsCanCollide(sha256: string -> string)
    ensures ("a-b", "c") != ("a", "b-c")
    ensures GenerateDeviceId(sha256, "a-b", "c") == GenerateDeviceId(sha256, "a", "b-c")
  {
    assert DeviceKey("a-b", "c") == "a-b-c" == DeviceKey("a", "b-c");
  }

  datatype Location = Location(city: Option<string>, country: Option<string>)

  /** `getLocationFromIP(ip)`: a placeholder that never resolves a location. */
  function GetLocationFromIp(ipAddress: string): (loc: Option<Location>)
    ensures loc.None?
  {
    None
  }
}
