/**
 * `try_stream`: stat the path, fall back to `index.html` for a directory,
 * answer a conditional GET with 304, and otherwise open and stream the
 * file, with 404 for everything that cannot be served.
 */
module FileServing {
  import opened Wrappers
  import opened Resolution
  import opened Http
  import opened Transfer

  /** The file a directory request is retried with. */
  const IndexFile: string := "index.html"

  /**
   * What `fs.stat` reports for a path. A regular file also records whether
   * the later `fs.open` of it succeeds.
   */
  datatype Node = Directory | RegularFile(size: nat, mtime: int, opens: bool) | Special

  /** The files a request can reach; a path that is not a key fails to stat. */
  type FileSystem = map<Path, Node>

  /** `q` is `p` or lies below it. */
  predicate Within(q: Path, p: Path)
  {
    q == p || (q.Join? && Within(q.parent, p))
  }

  function Depth(p: Path): nat
  {
    if p.Root? then 0 else Depth(p.parent) + 1
  }

  lemma {:induction false} WithinDeeper(q: Path, p: Path)
    requires Within(q, p)
    ensures Depth(q) >= Depth(p)
  {
    if q != p {
      WithinDeeper(q.parent, p);
    }
  }

  lemma {:induction false} WithinJoin(q: Path, p: Path, name: string)
    requires Within(q, Join(p, name))
    ensures Within(q, p)
  {
    if q != Join(p, name) {
      WithinJoin(q.parent, p, name);
    }
  }

  /** The entries of `fs` at or below `p`. */
  ghost function Below(fs: FileSystem, p: Path): set<Path>
  {
    set q | q in fs && Within(q, p)
  }

  /** Retrying a directory with its index reaches strictly fewer entries. */
  lemma {:induction false} BelowShrinks(fs: FileSystem, p: Path)
    requires p in fs
    ensures Below(fs, Join(p, IndexFile)) < Below(fs, p)
  {
    forall q | q in Below(fs, Join(p, IndexFile)) ensures q in Below(fs, p) {
      WithinJoin(q, p, IndexFile);
    }
    if Within(p, Join(p, IndexFile)) {
      WithinDeeper(p, Join(p, IndexFile));
    }
    assert p in Below(fs, p) - Below(fs, Join(p, IndexFile));
  }

  /** Where a chain of stats ends, and what the last one reported (`None`: stat failed). */
  datatype Target = Target(path: Path, node: Option<Node>)

  /**
   * Stat `p`, and while it is a directory stat its `index.html` instead.
   * The result is the first path that is not a directory.
   */
  function Resolve(fs: FileSystem, p: Path): (t: Target)
    ensures t.node == (if t.path in fs then Some(fs[t.path]) else None)
    ensures t.node != Some(Directory)
    ensures Within(t.path, p)
    decreases Below(fs, p)
  {
    if p in fs && fs[p] == Directory then
      BelowShrinks(fs, p);
      var t := Resolve(fs, Join(p, IndexFile));
      WithinJoin(t.path, p, IndexFile);
      t
    else Target(p, if p in fs then Some(fs[p]) else None)
  }

  /** `p` with `k` times `index.html` appended. */
  function IndexPath(p: Path, k: nat): Path
    decreases k
  {
    if k == 0 then p else IndexPath(Join(p, IndexFile), k - 1)
  }

  /** `q` is `p` with `k` index components, and every path before it in that chain is a directory. */
  predicate IndexChain(fs: FileSystem, p: Path, q: Path, k: nat)
  {
    q == IndexPath(p, k) && forall j: nat :: j < k ==> IndexPath(p, j) in fs && fs[IndexPath(p, j)] == Directory
  }

  /**
   * The stat chain ends at `p` followed by some number of `index.html`
   * components, every path before which is a directory.
   */
  lemma {:induction false} ResolveFollowsIndexChain(fs: FileSystem, p: Path)
    ensures exists k: nat :: IndexChain(fs, p, Resolve(fs, p).path, k)
    decreases Below(fs, p)
  {
    if p in fs && fs[p] == Directory {
      BelowShrinks(fs, p);
      var q := Join(p, IndexFile);
      ResolveFollowsIndexChain(fs, q);
      var k: nat :| IndexChain(fs, q, Resolve(fs, q).path, k);
      forall j: nat | j < k + 1 ensures IndexPath(p, j) in fs && fs[IndexPath(p, j)] == Directory {
        if j > 0 {
          assert IndexPath(p, j) == IndexPath(q, j - 1);
        }
      }
      assert IndexChain(fs, p, Resolve(fs, p).path, k + 1);
    } else {
      assert IndexChain(fs, p, Resolve(fs, p).path, 0);
    }
  }

  /** A request for a directory is the request for its `index.html`. */
  lemma {:induction false} DirectoryIsItsIndex(fs: FileSystem, p: Path)
    requires p in fs && fs[p] == Directory
    ensures Resolve(fs, p) == Resolve(fs, Join(p, IndexFile))
  {
  }

  /**
   * The header says the copy the client holds is current: it parses to a
   * date no earlier than the file's modification time and not in the future.
   */
  predicate NotModifiedSince(mtime: int, header: Option<DateHeader>, now: int)
  {
    header.Some? && header.value.Parsed? && mtime <= header.value.ms <= now
  }

  /** How a request for a path is answered. */
  datatype Decision = NotFoundFile | NotModifiedFile | StreamFile(file: Path, size: nat, mtime: int)

  /**
   * The decision `try_stream` reaches: a failed stat or anything that is
   * neither a directory nor a regular file is not found; a regular file is
   * not modified when the header says so, and otherwise is streamed if it
   * opens and not found if it does not.
   */
  function Decide(fs: FileSystem, p: Path, header: Option<DateHeader>, now: int): (d: Decision)
    ensures d.StreamFile? ==>
      d.file == Resolve(fs, p).path && d.file in fs && fs[d.file] == RegularFile(d.size, d.mtime, true) &&
      Within(d.file, p) && !NotModifiedSince(d.mtime, header, now)
    ensures d.NotModifiedFile? ==>
      var t := Resolve(fs, p);
      t.node.Some? && t.node.value.RegularFile? && NotModifiedSince(t.node.value.mtime, header, now)
    ensures var t := Resolve(fs, p);
      t.node.Some? && t.node.value.RegularFile? && t.node.value.opens &&
      !NotModifiedSince(t.node.value.mtime, header, now) ==>
        d == StreamFile(t.path, t.node.value.size, t.node.value.mtime)
    ensures var t := Resolve(fs, p);
      t.node.None? || !t.node.value.RegularFile? ||
      (!t.node.value.opens && !NotModifiedSince(t.node.value.mtime, header, now)) ==>
        d == NotFoundFile
  {
    var t := Resolve(fs, p);
    match t.node
    case None => NotFoundFile
    case Some(node) =>
      match node
      case Directory => NotFoundFile
      case Special => NotFoundFile
      case RegularFile(size, mtime, opens) =>
        if NotModifiedSince(mtime, header, now) then NotModifiedFile
        else if opens then StreamFile(t.path, size, mtime)
        else NotFoundFile
  }

  /** 304 exactly when the stat chain ends at a regular file and the header says it is unchanged. */
  lemma {:induction false} NotModifiedExactly(fs: FileSystem, p: Path, header: Option<DateHeader>, now: int)
    ensures Decide(fs, p, header, now) == NotModifiedFile <==>
      var t := Resolve(fs, p);
      t.node.Some? && t.node.value.RegularFile? && NotModifiedSince(t.node.value.mtime, header, now)
  {
  }

  /** A missing path, or one that is neither a directory nor a regular file, is not found. */
  lemma {:induction false} UnservableIsNotFound(fs: FileSystem, p: Path, header: Option<DateHeader>, now: int)
    requires p !in fs || fs[p] == Special
    ensures Decide(fs, p, header, now) == NotFoundFile
  {
  }

  /** A file that fails to open after a successful stat is not found rather than an error. */
  lemma {:induction false} OpenFailureIsNotFound(fs: FileSystem, p: Path, header: Option<DateHeader>, now: int)
    requires p in fs && fs[p].RegularFile? && !fs[p].opens
    requires !NotModifiedSince(fs[p].mtime, header, now)
    ensures Decide(fs, p, header, now) == NotFoundFile
  {
  }

  /** An absent or unparsable header always leads to streaming a file that opens. */
  lemma {:induction false} NoUsableDateStreams(fs: FileSystem, p: Path, header: Option<DateHeader>, now: int)
    requires header.None? || header == Some(Unparsable)
    requires p in fs && fs[p].RegularFile? && fs[p].opens
    ensures Decide(fs, p, header, now) == StreamFile(p, fs[p].size, fs[p].mtime)
  {
  }

  /** A date equal to the file's modification time, and not in the future, gives 304. */
  lemma {:induction false} SameDateIsNotModified(fs: FileSystem, p: Path, now: int)
    requires p in fs && fs[p].RegularFile? && fs[p].mtime <= now
    ensures Decide(fs, p, Some(Parsed(fs[p].mtime)), now) == NotModifiedFile
  {
  }

  /** A date before the file's modification time streams the whole file. */
  lemma {:induction false} EarlierDateStreams(fs: FileSystem, p: Path, date: int, now: int)
    requires p in fs && fs[p].RegularFile? && fs[p].opens && date < fs[p].mtime
    ensures Decide(fs, p, Some(Parsed(date)), now) == StreamFile(p, fs[p].size, fs[p].mtime)
  {
  }

  /** The first events of a 200: the open, the head, and the flush before any body bytes. */
  function StreamHead(nodeVersion: string, now: int, file: Path, size: nat, contentType: string, mtime: int): seq<Event>
  {
    [Opened(file), WriteHead(200, OkHeaders(nodeVersion, now, size, contentType, mtime)), Flush]
  }

  /**
   * The events of serving `p` as `try_stream(path, req, resp)` produces
   * them: a 404 or a 304 straight away, or for a file that is streamed the
   * open, the head and the flush, then the `sendfile` calls of the transfer
   * loop for the outcomes it used, then, if it finished, the completion.
   */
  predicate Serves(fs: FileSystem, p: Path, req: Request, now: int, nodeVersion: string,
                   contentType: Path -> string, outcomes: seq<SendResult>,
                   events: seq<Event>, used: nat, done: bool)
  {
    var d := Decide(fs, p, req.ifModifiedSince, now);
    && (d.NotFoundFile? ==> events == NotFound(nodeVersion, now, req.url) && done && used == 0)
    && (d.NotModifiedFile? ==> events == NotModified(nodeVersion, now) && done && used == 0)
    && (d.StreamFile? ==>
          && used <= |outcomes|
          && (|outcomes| > 0 ==> used > 0)
          && (!done ==> used == |outcomes|)
          && KeptGoing(d.size, outcomes, used)
          && (done <==> used > 0 && (Abandons(outcomes[used - 1]) || Written(outcomes[..used]) >= d.size))
          && events == StreamHead(nodeVersion, now, d.file, d.size, contentType(d.file), d.mtime)
               + Calls(d.size, outcomes[..used])
               + (if done then Completion(outcomes[used - 1]) else []))
  }

  /**
   * `try_stream(path, req, resp)`: serve `p`, where `contentType` stands
   * for the MIME lookup and `outcomes` for what the `sendfile` calls
   * report. `used` is how many outcomes the transfer took and `done`
   * whether the response was ended.
   */
  method TryStream(fs: FileSystem, p: Path, req: Request, now: int, nodeVersion: string,
                   contentType: Path -> string, outcomes: seq<SendResult>)
    returns (events: seq<Event>, used: nat, done: bool)
    ensures Serves(fs, p, req, now, nodeVersion, contentType, outcomes, events, used, done)
  {
    var d := Decide(fs, p, req.ifModifiedSince, now);
    match d
    case NotFoundFile =>
      events, used, done := NotFound(nodeVersion, now, req.url), 0, true;
    case NotModifiedFile =>
      events, used, done := NotModified(nodeVersion, now), 0, true;
    case StreamFile(file, size, mtime) =>
      var offset, remaining, chunkEvents;
      offset, remaining, used, done, chunkEvents := SendChunks(size, outcomes);
      var head := StreamHead(nodeVersion, now, file, size, contentType(file), mtime);
      events := head + chunkEvents;
      if done {
        Associate(head, Calls(size, outcomes[..used]), Completion(outcomes[used - 1]));
      } else {
        assert events == head + Calls(size, outcomes[..used]) + [];
      }
  }

  lemma {:induction false} Associate(a: seq<Event>, b: seq<Event>, c: seq<Event>)
    ensures a + (b + c) == a + b + c
  {
  }
}
