/** `parse_host`: the `HOST[:PORT]` argument of the program and of the `s`
    command. */
module Hosts {
  import opened Wrappers
  import opened Text
  import opened Items

  /** The Gopher port assumed when none is given (section 2 of RFC 1436). */
  const DEFAULT_PORT: u16 := 70

  /** Splits at the first ':'; what follows it must parse as a `u16`. */
  function ParseHost(s: string): (r: Result<(string, u16), IoError>)
    ensures ':' !in s <==> r == Ok((s, DEFAULT_PORT))
    ensures r.Ok? ==> ':' !in r.value.0 && r.value.0 <= s
    ensures r.Err? ==> && ':' in s && r.error.InvalidPort? && |r.error.text| < |s|
                       && r.error.text == s[|s| - |r.error.text|..] && ParseU16(r.error.text).None?
  {
    match SplitOnce(s, ':')
    case None => Ok((s, DEFAULT_PORT))
    case Some(parts) =>
      match ParseU16(parts.1)
      case None => Err(InvalidPort(parts.1))
      case Some(p) => Ok((parts.0, p))
  }

  /** Without ':' the whole argument is the host, on port 70. */
  lemma HostOnly(s: string)
    requires ':' !in s
    ensures ParseHost(s) == Ok((s, DEFAULT_PORT))
  {
  }

  /** With ':' the argument is cut at its first ':'; the left part is the
      host, the right part the port, and a right part that is not a `u16`
      is an error quoting it. */
  lemma HostAndPort(host: string, portText: string)
    requires ':' !in host
    ensures ParseHost(host + ":" + portText) ==
      match ParseU16(portText)
      case None => Err(InvalidPort(portText))
      case Some(p) => Ok((host, p))
  {
    SplitOnceAt(host, ':', portText);
  }

  /** A port part that contains a further ':' is refused, and so is an empty
      one. */
  lemma SecondColonRejected(host: string, portText: string)
    requires ':' !in host
    requires ':' in portText || portText == []
    ensures ParseHost(host + ":" + portText) == Err(InvalidPort(portText))
  {
    HostAndPort(host, portText);
    if ':' in portText {
      var i :| 0 <= i < |portText| && portText[i] == ':';
      ParseRejects(portText, i);
    }
  }

  /** Round trip: a host without ':' and its port, written `HOST:PORT`, parse
      back to the same pair. */
  lemma HostPortRoundTrip(host: string, port: u16)
    requires ':' !in host
    ensures ParseHost(host + ":" + ShowNat(port)) == Ok((host, port))
  {
    HostAndPort(host, ShowNat(port));
    ParseShow(port);
  }
}
