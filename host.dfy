/**
 * Host references in a run configuration: `user@hostname` with an optional
 * `:port`. A host's canonical text is `user@hostname:port`; parsing that text
 * gives the host back.
 */
module Hosts {
  import opened Wrappers
  import opened JavaString

  /** The ssh port used when a reference names none. */
  const DEFAULT_PORT: int := 22

  datatype Host = Host(username: string, hostname: string, port: int)

  /** Host.toString(): `user@hostname:port`. */
  function HostString(h: Host): (s: string)
    ensures |s| > |h.username| && s[|h.username|] == '@' && s[..|h.username|] == h.username
  {
    h.username + "@" + h.hostname + ":" + IntToString(h.port)
  }

  /** What reading a fully qualified reference gives: a host, or why there is none. */
  datatype HostParse =
    | Parsed(host: Host)
    /** No `@`: recorded as a configuration problem. */
    | MissingAt
    /** The text after `:` is not a 32-bit integer: Integer.parseInt throws. */
    | BadPort

  /**
   * The user is the text before the first `@` and the host the text after it;
   * when that text holds a `:`, the port is the integer after the first `:`
   * and the host name stops there, otherwise the port is the default.
   */
  function ParseHost(full: string): (r: HostParse)
    ensures r.MissingAt? <==> '@' !in full
  {
    match IndexOf(full, '@')
    case None => MissingAt
    case Some(a) => ParseAfterUser(full[..a], full[a + 1..])
  }

  /** The part after the `@`: a host name, and a port after the first `:` if there is one. */
  function ParseAfterUser(user: string, rest: string): (r: HostParse)
    ensures !r.MissingAt?
  {
    match IndexOf(rest, ':')
    case None => Parsed(Host(user, rest, DEFAULT_PORT))
    case Some(c) =>
      match ParseInt(rest[c + 1..])
      case None => BadPort
      case Some(p) => Parsed(Host(user, rest[..c], p))
  }

  /**
   * A parsed host's user holds no `@` and its host name no `:`; the reference
   * is `user@hostname`, then either nothing (and the default port) or `:` and
   * text that Integer.parseInt reads as the port.
   */
  lemma ParsedFields(full: string, h: Host)
    requires ParseHost(full) == Parsed(h)
    ensures Fields(full, h)
  {
    var user, rest := SplitAtUser(full);
    AfterUserFields(full, user, rest, h);
  }

  /** The cut ParseHost makes at the first `@`. */
  lemma SplitAtUser(full: string) returns (user: string, rest: string)
    requires '@' in full
    ensures full == user + "@" + rest && '@' !in user
    ensures ParseHost(full) == ParseAfterUser(user, rest)
  {
    var a := IndexOf(full, '@').value;
    user, rest := full[..a], full[a + 1..];
    assert full == full[..a] + [full[a]] + full[a + 1..];
  }

  /**
   * The reference is `user@hostname`, then either nothing (and the default
   * port) or `:` and text that Integer.parseInt reads as the port.
   */
  predicate Fields(full: string, h: Host) {
    var n := |h.username| + 1 + |h.hostname|;
    && '@' !in h.username && ':' !in h.hostname
    && n <= |full| && full[..n] == h.username + "@" + h.hostname
    && (n == |full| ==> h.port == DEFAULT_PORT)
    && (n < |full| ==> full[n] == ':' && ParseInt(full[n + 1..]) == Some(h.port))
  }

  /** ParsedFields for the text after the `@`, with the user already split off. */
  lemma AfterUserFields(full: string, user: string, rest: string, h: Host)
    requires full == user + "@" + rest
    requires '@' !in user && ParseAfterUser(user, rest) == Parsed(h)
    ensures Fields(full, h)
  {
    match IndexOf(rest, ':')
    case None =>
      NoPortFields(full, user, rest);
    case Some(c) =>
      PortFields(full, user, rest, c, h.port);
  }

  /** `user@host` with no port. */
  lemma NoPortFields(full: string, user: string, rest: string)
    requires full == user + "@" + rest && '@' !in user && ':' !in rest
    ensures Fields(full, Host(user, rest, DEFAULT_PORT))
  {
    assert full[..|user| + 1 + |rest|] == full;
  }

  /** `user@host:port` cut at the first `:` after the `@`. */
  lemma PortFields(full: string, user: string, rest: string, c: nat, p: int)
    requires full == user + "@" + rest && '@' !in user
    requires c < |rest| && rest[c] == ':' && ':' !in rest[..c] && ParseInt(rest[c + 1..]) == Some(p)
    ensures Fields(full, Host(user, rest[..c], p))
  {
    var head := user + "@" + rest[..c];
    assert rest == rest[..c] + rest[c..];
    assert full == head + rest[c..];
    CutConcat(head, rest[c..]);
    assert rest[c..][1..] == rest[c + 1..];
  }

  /** The two halves of a concatenation are recovered by slicing at the seam. */
  lemma CutConcat(a: string, b: string)
    ensures (a + b)[..|a|] == a && (a + b)[|a|..] == b
  {
  }

  /**
   * Parsing a host's canonical text gives the host back, for every host a
   * reference can produce (no `@` in the user, no `:` in the host name, a
   * 32-bit port).
   */
  lemma ParseHostString(h: Host)
    requires '@' !in h.username && ':' !in h.hostname && INT_MIN <= h.port <= INT_MAX
    ensures ParseHost(HostString(h)) == Parsed(h)
  {
    var rest := h.hostname + ":" + IntToString(h.port);
    assert HostString(h) == h.username + "@" + rest;
    CutAtUser(h.username, rest);
    CutAtPort(h.username, h.hostname, IntToString(h.port));
    ParseIntToString(h.port);
  }

  /** ParseHost cuts at the `@` after a user name without one. */
  lemma CutAtUser(user: string, rest: string)
    requires '@' !in user
    ensures ParseHost(user + "@" + rest) == ParseAfterUser(user, rest)
  {
    var s := user + "@" + rest;
    assert s[..|user|] == user;
    IndexOfFirst(s, '@', |user|);
    assert s[|user| + 1..] == rest;
  }

  /** ParseAfterUser cuts at the `:` after a host name without one. */
  lemma CutAtPort(user: string, host: string, port: string)
    requires ':' !in host
    ensures ParseAfterUser(user, host + ":" + port) ==
            match ParseInt(port)
            case None => BadPort
            case Some(p) => Parsed(Host(user, host, p))
  {
    var r := host + ":" + port;
    assert r[..|host|] == host;
    IndexOfFirst(r, ':', |host|);
    assert r[|host| + 1..] == port;
  }

  /** Every parsed host can be written back and read again unchanged. */
  lemma ParseHostStable(full: string)
    requires ParseHost(full).Parsed?
    ensures ParseHost(HostString(ParseHost(full).host)) == ParseHost(full)
  {
    var h := ParseHost(full).host;
    ParsedFields(full, h);
    if IndexOf(full[IndexOf(full, '@').value + 1..], ':').Some? {
      assert INT_MIN <= h.port <= INT_MAX;
    }
    ParseHostString(h);
  }
}
