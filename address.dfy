/** Address handling around a new connection: extracting the host from
    `RemoteAddr`, masking it for display, and resolving the region shown
    next to a user (the geolocation HTTP call itself is a parameter). */
module Address {
  import opened Text

  /** `maskIP`: an address with exactly three dots keeps its first two
      octets, any other address with at least two colons keeps its first
      two colon segments; both are joined with ':' and end in ":*".
      Anything else is shown unchanged. */
  function MaskIP(ip: string): (r: string)
    ensures Count(ip, '.') == 3 ==> '.' !in r && |r| >= 2 && r[|r| - 2..] == ":*"
    ensures Count(ip, '.') != 3 && Count(ip, ':') >= 2 ==> |r| >= 2 && r[|r| - 2..] == ":*"
    ensures Count(ip, '.') != 3 && Count(ip, ':') < 2 ==> r == ip
  {
    if Count(ip, '.') == 3 && |Split(ip, '.')| == 4 then
      var parts := Split(ip, '.');
      parts[0] + ":" + parts[1] + ":*"
    else if Count(ip, ':') >= 2 && |Split(ip, ':')| >= 2 then
      var parts := Split(ip, ':');
      parts[0] + ":" + parts[1] + ":*"
    else
      ip
  }

  /** The text before the first `sep` and the text between the first and
      the second `sep`, found by position rather than by splitting. */
  function FirstTwo(s: string, sep: char): (r: (string, string))
    requires Count(s, sep) >= 1
  {
    var i := Index(s, sep);
    var rest := s[i + 1..];
    var j := Index(rest, sep);
    (s[..i], if j == -1 then rest else rest[..j])
  }

  /** Dotted form: exactly three dots give "<first octet>:<second octet>:*",
      so the last two octets never reach an envelope. */
  lemma MaskIPv4(ip: string)
    requires Count(ip, '.') == 3
    ensures var (a, b) := FirstTwo(ip, '.');
      MaskIP(ip) == a + ":" + b + ":*"
  {
    SplitHead(ip, '.');
    SplitSecond(ip, '.');
    SplitHead(ip[Index(ip, '.') + 1..], '.');
  }

  /** Colon form: not exactly three dots and at least two colons give
      "<first segment>:<second segment>:*". */
  lemma MaskIPv6(ip: string)
    requires Count(ip, '.') != 3 && Count(ip, ':') >= 2
    ensures var (a, b) := FirstTwo(ip, ':');
      MaskIP(ip) == a + ":" + b + ":*"
  {
    SplitHead(ip, ':');
    SplitSecond(ip, ':');
    SplitHead(ip[Index(ip, ':') + 1..], ':');
  }

  /** Anything else is displayed as it is. */
  lemma MaskIPOther(ip: string)
    requires Count(ip, '.') != 3 && Count(ip, ':') < 2
    ensures MaskIP(ip) == ip
  {
  }

  /** The cutset of `strings.Trim(clientIP, "[]")`. */
  predicate IsBracket(c: char) {
    c == '[' || c == ']'
  }

  /** The host part before the final trim: the text inside the first
      brackets when both brackets occur in that order, otherwise the text
      before the first colon when there is one. */
  function HostPart(addr: string): (r: string)
    ensures |r| <= |addr|
    ensures !('[' in addr && ']' in addr) && ':' in addr ==> r <= addr && ':' !in r
    ensures !('[' in addr && ']' in addr) && ':' !in addr ==> r == addr
  {
    if '[' in addr && ']' in addr then
      var start := Index(addr, '[');
      var end := Index(addr, ']');
      if start < end then addr[start + 1..end] else addr
    else if ':' in addr then
      var parts := Split(addr, ':');
      SplitHead(addr, ':');
      if |parts| > 1 then parts[0] else addr
    else
      addr
  }

  /** The host part of `http.Request.RemoteAddr`, with any brackets at
      either end trimmed (`strings.Trim(clientIP, "[]")`). */
  function ClientHost(addr: string): (h: string)
    ensures |h| <= |addr|
    ensures h == [] || (!IsBracket(h[0]) && !IsBracket(h[|h| - 1]))
  {
    TrimFuncEnds(HostPart(addr), IsBracket);
    TrimFunc(HostPart(addr), IsBracket)
  }

  /** Trimming a piece whose ends are kept anyway changes nothing. */
  lemma TrimKeeps(s: string, drop: char -> bool)
    requires s == [] || (!drop(s[0]) && !drop(s[|s| - 1]))
    ensures TrimFunc(s, drop) == s
  {
    assert TrimLeftFunc(s, drop) == s;
  }

  /** `[host]:port`: the result is the text strictly between the first '['
      and the first ']' (with any further '[' at its ends trimmed, so it is
      exactly that text when it does not start or end with '['). */
  lemma ClientHostBracketed(addr: string)
    requires '[' in addr && ']' in addr && Index(addr, '[') < Index(addr, ']')
    ensures var inside := addr[Index(addr, '[') + 1..Index(addr, ']')];
      && ClientHost(addr) == TrimFunc(inside, IsBracket)
      && (inside == [] || (inside[0] != '[' && inside[|inside| - 1] != '[') ==> ClientHost(addr) == inside)
  {
    var inside := addr[Index(addr, '[') + 1..Index(addr, ']')];
    assert HostPart(addr) == inside;
    assert ']' !in inside by {
      assert inside == addr[..Index(addr, ']')][Index(addr, '[') + 1..];
    }
    if inside == [] || (inside[0] != '[' && inside[|inside| - 1] != '[') {
      TrimKeeps(inside, IsBracket);
    }
  }

  /** Both brackets present but the first ']' before the first '[': the
      address is kept whole, colons and port included, and only brackets at
      its ends are trimmed; it is not split at a colon. */
  lemma ClientHostReversedBrackets(addr: string)
    requires '[' in addr && ']' in addr && Index(addr, ']') < Index(addr, '[')
    ensures HostPart(addr) == addr
    ensures ClientHost(addr) == TrimFunc(addr, IsBracket)
  {
  }

  /** `host:port` (no bracket pair): the result is the text before the
      first colon, trimmed of brackets at its ends. */
  lemma ClientHostWithPort(addr: string)
    requires !('[' in addr && ']' in addr) && ':' in addr
    ensures ClientHost(addr) == TrimFunc(addr[..Index(addr, ':')], IsBracket)
  {
    SplitHead(addr, ':');
  }

  /** The answer of the region's lookup service, as the HTTP round trip
      ends: no response, a failed read or non-200 status, a body that is
      not the expected JSON, or a decoded `city` field. */
  datatype Lookup = Timeout | BadResponse | Unparsable | Answered(city: string)

  const LocalPrefixes: seq<string> := ["127.0.0.1", "192.168.", "10.", "172."]
  const LocalRegion: string := "本地/内网IP-无公网归属"
  const UnknownCity: string := "未知城市"

  /** The address starts with one of the loopback/intranet prefixes. */
  predicate IsLocalAddress(ip: string) {
    exists k :: 0 <= k < |LocalPrefixes| && LocalPrefixes[k] <= ip
  }

  /** The city fallback of `getIPRegion`: the trimmed city, or the
      "unknown city" text when it is blank or the literal "null". */
  function CityName(city: string): (r: string)
    ensures r != [] && r != "null"
    ensures TrimSpace(city) != [] && TrimSpace(city) != "null" ==> r == TrimSpace(city)
    ensures TrimSpace(city) == [] || TrimSpace(city) == "null" ==> r == UnknownCity
  {
    var c := TrimSpace(city);
    if c == "" || c == "null" then UnknownCity else c
  }

  /** The fallback is stable: a displayed city name maps to itself. */
  lemma CityNameIdempotent(city: string)
    ensures CityName(CityName(city)) == CityName(city)
  {
    var c := TrimSpace(city);
    if c == "" || c == "null" {
      assert TrimLeftFunc(UnknownCity, IsSpace) == UnknownCity;
      assert TrimRightFunc(UnknownCity, IsSpace) == UnknownCity;
    } else {
      TrimFuncIdempotent(city, IsSpace);
    }
  }

  /** The region text for each lookup outcome. */
  function LookupRegion(answer: Lookup): (r: string)
    ensures r != []
    ensures answer.Answered? ==> r == CityName(answer.city)
    ensures !answer.Answered? ==> "归属地查询-" <= r
  {
    match answer
    case Timeout => "归属地查询-网络超时"
    case BadResponse => "归属地查询-接口返回失败"
    case Unparsable => "归属地查询-解析失败"
    case Answered(city) => CityName(city)
  }

  /** `getIPRegion` in full: local addresses never reach the lookup. */
  function RegionOf(ip: string, answer: Lookup): (r: string)
    ensures r != []
    ensures IsLocalAddress(ip) ==> r == LocalRegion
    ensures !IsLocalAddress(ip) ==> r == LookupRegion(answer)
  {
    if IsLocalAddress(ip) then LocalRegion else LookupRegion(answer)
  }

  /** `getIPRegion`'s prefix loop. The region is never empty, so every
      envelope that carries it is fully populated. */
  method GetIPRegion(ip: string, answer: Lookup) returns (region: string)
    ensures IsLocalAddress(ip) ==> region == LocalRegion
    ensures !IsLocalAddress(ip) ==> region == LookupRegion(answer)
    ensures region != []
  {
    var k := 0;
    while k < |LocalPrefixes|
      invariant 0 <= k <= |LocalPrefixes|
      invariant forall m :: 0 <= m < k ==> !(LocalPrefixes[m] <= ip)
    {
      if LocalPrefixes[k] <= ip {
        return LocalRegion;
      }
      k := k + 1;
    }
    region := LookupRegion(answer);
  }
}
