/**
 * Virtual-host selection and the mapping of a request URL onto a local
 * path (`select_vhost` and `get_local_file_path` in lib/antinode.js).
 */
module Resolution {
  import opened Wrappers
  import opened Text

  /** A virtual host: the directory its files are served from. */
  datatype Vhost = Vhost(root: string)

  /**
   * A local path as built by `pathlib.join`. Joining is kept symbolic: the
   * model does not normalise `.` or `..` segments, so it claims nothing
   * about where a joined path lands on disk.
   */
  datatype Path = Root(dir: string) | Join(parent: Path, name: string)

  /** The part of a `Host` header that names the host, without the port. */
  function HostName(header: string): (name: string)
    ensures name <= header && ':' !in name
    ensures |name| < |header| ==> header[|name|] == ':'
  {
    BeforeFirst(header, ':')
  }

  /**
   * The virtual host a request is served from. A missing or empty header,
   * or a host name without an entry, falls back to the default host.
   */
  function SelectVhost(hosts: map<string, Vhost>, defaultHost: Vhost, header: Option<string>): (v: Vhost)
    ensures header.None? || header == Some("") ==> v == defaultHost
    ensures header.Some? && header.value != "" && HostName(header.value) in hosts ==>
      v == hosts[HostName(header.value)]
    ensures header.Some? && HostName(header.value) !in hosts ==> v == defaultHost
  {
    match header
    case None => defaultHost
    case Some(h) =>
      if h == "" then defaultHost
      else if HostName(h) in hosts then hosts[HostName(h)]
      else defaultHost
  }

  /** Only the text before the first `:` of the header takes part in the choice. */
  lemma {:induction false} PortIsIgnored(hosts: map<string, Vhost>, defaultHost: Vhost, name: string, port: string)
    requires name != [] && ':' !in name
    ensures SelectVhost(hosts, defaultHost, Some(name + ":" + port)) == SelectVhost(hosts, defaultHost, Some(name))
  {
    BeforeFirstIgnoresRest(name, ':', port);
  }

  /** The path of a request URL; a URL without one stands for `/`. */
  function Pathname(parsed: Option<string>): (p: string)
    ensures parsed.Some? && parsed.value != "" ==> p == parsed.value
    ensures parsed.None? || parsed == Some("") ==> p == "/"
  {
    match parsed
    case Some(p) => if p == "" then "/" else p
    case None => "/"
  }

  /**
   * Parent-directory references are stripped in one left-to-right global
   * replace, and only afterwards is every `%20` turned into a space.
   */
  function CleanPathname(pathname: string): (r: string)
  {
    ReplaceAll(ReplaceAll(pathname, "../", ""), "%20", " ")
  }

  /** Cleaning never makes a path longer. */
  lemma {:induction false} CleanPathnameNoLonger(pathname: string)
    ensures |CleanPathname(pathname)| <= |pathname|
  {
    ReplaceAllNoLonger(pathname, "../", "");
    ReplaceAllNoLonger(ReplaceAll(pathname, "../", ""), "%20", " ");
  }

  /** Cleaning is the ECMAScript global replace of `../` by nothing, then of `%20` by a space. */
  lemma {:induction false} CleanPathnameIsTwoReplaces(pathname: string)
    ensures CleanPathname(pathname) ==
      ReplaceBySearch(ReplaceBySearch(pathname, "../", ""), "%20", " ")
  {
    ReplaceAllIsGlobalReplace(pathname, "../", "");
    ReplaceAllIsGlobalReplace(ReplaceAll(pathname, "../", ""), "%20", " ");
  }

  /** No `%20` survives cleaning. */
  lemma {:induction false} CleanPathnameDecodesSpaces(pathname: string)
    ensures Free(CleanPathname(pathname), "%20")
  {
    assert Disjoint(" ", "%20");
    ReplaceAllLeavesNoMatch(ReplaceAll(pathname, "../", ""), "%20", " ");
  }

  /** A path with neither `../` nor `%20` in it is left as it is. */
  lemma {:induction false} CleanPathnameKeepsCleanPath(pathname: string)
    requires Free(pathname, "../") && Free(pathname, "%20")
    ensures CleanPathname(pathname) == pathname
  {
    ReplaceAllFree(pathname, "../", "");
    ReplaceAllFree(pathname, "%20", " ");
  }

  /** The single pass is not a closure: removing the inner `../` of `..././` uncovers another. */
  lemma {:induction false} NestedParentReferenceSurvives()
    ensures CleanPathname("..././") == "../"
  {
    var s := "..././";
    assert s[1..] == ".././" && s[..3][2] == '.' && s[..3] != "../";
    assert s[1..][..3] == "../" && s[1..][3..] == "./";
    assert ReplaceAll("./", "../", "") == "./";
    assert ReplaceAll(s[1..], "../", "") == "./";
    assert ReplaceAll(s, "../", "") == [s[0]] + "./";
    assert ReplaceAll("../", "%20", " ") == "../";
  }

  /**
   * The local path of a request: the request's pathname, with `../`
   * removed and `%20` decoded by the two global replaces, joined to the
   * root of the virtual host its `Host` header selects.
   */
  function LocalFilePath(hosts: map<string, Vhost>, defaultHost: Vhost,
                         parsedPath: Option<string>, header: Option<string>): (p: Path)
    ensures p.Join? && p.parent.Root?
    ensures header.None? || header == Some("") ==> p.parent.dir == defaultHost.root
    ensures header.Some? && header.value != "" && HostName(header.value) in hosts ==>
      p.parent.dir == hosts[HostName(header.value)].root
    ensures header.Some? && HostName(header.value) !in hosts ==> p.parent.dir == defaultHost.root
    ensures p.name == ReplaceBySearch(ReplaceBySearch(Pathname(parsedPath), "../", ""), "%20", " ")
    ensures |p.name| <= |Pathname(parsedPath)|
    ensures Free(p.name, "%20")
  {
    var pathname := Pathname(parsedPath);
    CleanPathnameIsTwoReplaces(pathname);
    CleanPathnameNoLonger(pathname);
    CleanPathnameDecodesSpaces(pathname);
    Join(Root(SelectVhost(hosts, defaultHost, header).root), CleanPathname(pathname))
  }

  /** The port in the `Host` header does not change the local path. */
  lemma {:induction false} LocalFilePathIgnoresPort(hosts: map<string, Vhost>, defaultHost: Vhost, parsedPath: Option<string>,
                                 name: string, port: string)
    requires name != [] && ':' !in name
    ensures LocalFilePath(hosts, defaultHost, parsedPath, Some(name + ":" + port)) ==
            LocalFilePath(hosts, defaultHost, parsedPath, Some(name))
  {
    PortIsIgnored(hosts, defaultHost, name, port);
  }
}
