/**
 * The source cache and span of parse/src/span.rs.
 *
 * `FileCache` memoises file reads by path: its arena (segment size 8) holds
 * each file's content once and `paths` maps every resolved path to the id of
 * that content. The file system is an oracle object whose reads are logged,
 * so that "no read" and "exactly one read" can be stated. The lock around
 * `paths` is left out: `Resolve` is one atomic step.
 */
module Span {
  import opened Wrappers
  import Arena

  /** A file's decoded content (ariadne's `Source`, which only splits it into lines). */
  type Source = string

  /** A file-system path (`PathBuf`), compared as text. */
  type Path = string

  /** chumsky's `SimpleSpan`: a start and end offset. */
  datatype SimpleSpan = SimpleSpan(start: nat, end: nat)

  /** A byte range of one source file. */
  datatype Span = Span(start: nat, end: nat, source: Arena.Id<Source>)
  {
    /** `ariadne::Span::start` and `chumsky::span::Span::start`. */
    function Start(): (r: nat)
      ensures r == start
    { start }

    /** `ariadne::Span::end` and `chumsky::span::Span::end`. */
    function End(): (r: nat)
      ensures r == end
    { end }

    /** `ariadne::Span::source`. */
    function Source(): (r: Arena.Id<Source>)
      ensures r == source
    { source }

    /** `chumsky::span::Span::context`: the source id the span belongs to, the same as `source`. */
    function Context(): (r: Arena.Id<Source>)
      ensures r == Source()
    { source }
  }

  /** `Span::new(span, source)`: the offsets of a `SimpleSpan` in the given source. */
  function New(span: SimpleSpan, source: Arena.Id<Source>): (r: Span)
    ensures r.Start() == span.start && r.End() == span.end
    ensures r.Source() == source && r.Context() == source
  {
    Span(span.start, span.end, source)
  }

  /** `<Span as chumsky::span::Span>::new(context, range)`. */
  function FromRange(context: Arena.Id<Source>, start: nat, end: nat): (r: Span)
    ensures r.Start() == start && r.End() == end
    ensures r.Source() == context && r.Context() == context
  {
    Span(start, end, context)
  }

  /** Rebuilding a span from what its accessors return gives the span back, by either constructor. */
  lemma SpanRebuild(sp: Span)
    ensures New(SimpleSpan(sp.Start(), sp.End()), sp.Source()) == sp
    ensures FromRange(sp.Context(), sp.Start(), sp.End()) == sp
  {
  }

  /** Why a file read failed (`std::io::ErrorKind`, abridged). */
  datatype IoError = NotFound | PermissionDenied | InvalidData | Other

  /** `Cache::fetch`'s boxed error: the I/O error behind `Box<dyn Debug>`. */
  datatype FetchError = Boxed(inner: IoError)

  /**
   * The file system as seen by `std::fs::read_to_string`: what reading each
   * path yields, and a log of the paths read so far.
   */
  class FileSystem {
    var disk: map<Path, Result<string, IoError>>
    var log: seq<Path>

    constructor (disk: map<Path, Result<string, IoError>>)
      ensures this.disk == disk && log == []
    {
      this.disk := disk;
      log := [];
    }

    /** What reading `p` yields: a missing path is `NotFound`. */
    function Lookup(p: Path): Result<string, IoError>
      reads this
    {
      if p in disk then disk[p] else Failure(NotFound)
    }

    /** `std::fs::read_to_string`. */
    method ReadToString(p: Path) returns (r: Result<string, IoError>)
      modifies this`log
      ensures r == Lookup(p)
      ensures log == old(log) + [p]
    {
      r := Lookup(p);
      log := log + [p];
    }
  }

  /**
   * The cache's table as values: every path has content, its id names a slot
   * of a segment of size `n` holding that content, and no two paths share a
   * slot.
   */
  ghost predicate Table(paths: map<Path, Arena.Id<Source>>, sources: map<Path, Source>, contents: seq<Source>, n: nat)
  {
    && paths.Keys == sources.Keys
    && (forall p :: p in paths ==>
          paths[p].idx < n && Arena.OrdinalOf(paths[p], n) < |contents| && contents[Arena.OrdinalOf(paths[p], n)] == sources[p])
    && (forall p, q :: p in paths && q in paths && p != q ==> Arena.OrdinalOf(paths[p], n) != Arena.OrdinalOf(paths[q], n))
  }

  /** Recording a new path at the next slot keeps the table consistent. */
  lemma TableAdd(paths: map<Path, Arena.Id<Source>>, sources: map<Path, Source>, contents: seq<Source>, n: nat,
                 path: Path, id: Arena.Id<Source>, text: Source)
    requires Table(paths, sources, contents, n) && path !in paths
    requires id.idx < n && Arena.OrdinalOf(id, n) == |contents|
    ensures Table(paths[path := id], sources[path := text], contents + [text], n)
  {
  }

  /** Distinct paths of a consistent table have distinct ids: at most one entry per path. */
  lemma TableInjective(paths: map<Path, Arena.Id<Source>>, sources: map<Path, Source>, contents: seq<Source>, n: nat, p: Path, q: Path)
    requires Table(paths, sources, contents, n)
    requires p in paths && q in paths && p != q
    ensures paths[p] != paths[q]
  {
  }

  class FileCache {
    /** Every file's content, once. */
    const files: Arena.Arena<Source>
    /** The id of each resolved path's content. */
    var paths: map<Path, Arena.Id<Source>>
    /** The content read for each resolved path. */
    ghost var sources: map<Path, Source>

    ghost predicate Valid()
      reads this, files, files.current, files.rest
    {
      && files.Valid()
      && files.N == 8
      && Table(paths, sources, files.Contents(), files.N)
    }

    /** `FileCache::new()`: an empty table over an empty arena. */
    constructor ()
      ensures Valid() && fresh(files) && fresh(files.current)
      ensures paths == map[] && files.Contents() == []
    {
      files := new Arena.Arena<Source>(8);
      paths := map[];
      sources := map[];
    }

    /** `FileCache::get`: the content behind an id this cache handed out. */
    function Get(id: Arena.Id<Source>): (s: Source)
      requires Valid() && files.Issued(id)
      reads this, files, files.current, files.rest
      ensures forall p :: p in paths && paths[p] == id ==> s == sources[p]
      ensures files.Ordinal(id) < |files.Contents()| && s == files.Contents()[files.Ordinal(id)]
    {
      files.Get(id)
    }

    /**
     * `FileCache::resolve`: a path already in the table gives its stored id
     * with no read; a new path is read once, and on success its content is
     * inserted into the arena and the new id recorded; a failed read is
     * returned and leaves table and arena as they were. Entries are never
     * removed or changed.
     */
    method Resolve(path: Path, fs: FileSystem) returns (r: Result<Arena.Id<Source>, IoError>)
      requires Valid()
      modifies this, files, files.current, fs`log
      ensures Valid()
      ensures forall p :: p in old(paths) ==> p in paths && paths[p] == old(paths[p]) && sources[p] == old(sources[p])
      ensures path in old(paths) ==>
                r == Success(old(paths[path])) && paths == old(paths) && sources == old(sources)
                && fs.log == old(fs.log) && files.Contents() == old(files.Contents())
      ensures path !in old(paths) ==> fs.log == old(fs.log) + [path]
      ensures path !in old(paths) && fs.Lookup(path).Failure? ==>
                r == Failure(fs.Lookup(path).error) && paths == old(paths) && sources == old(sources)
                && files.Contents() == old(files.Contents())
      ensures path !in old(paths) && fs.Lookup(path).Success? ==>
                r.Success? && files.Ordinal(r.value) == old(|files.Contents()|)
                && paths == old(paths)[path := r.value] && sources == old(sources)[path := fs.Lookup(path).value]
                && files.Contents() == old(files.Contents()) + [fs.Lookup(path).value]
      ensures r.Success? ==> path in paths && paths[path] == r.value && files.Issued(r.value)
      ensures files.current == old(files.current) || fresh(files.current)
    {
      if path in paths {
        files.IssuedIff(paths[path]);
        r := Success(paths[path]);
      } else {
        var read := fs.ReadToString(path);
        match read
        case Failure(e) =>
          r := Failure(e);
        case Success(text) =>
          var id := Record(path, text);
          r := Success(id);
      }
    }

    /** The miss path of `resolve` after a successful read: store the content, record the path. */
    method Record(path: Path, text: Source) returns (id: Arena.Id<Source>)
      requires Valid() && path !in paths
      modifies this, files, files.current
      ensures Valid()
      ensures paths == old(paths)[path := id] && sources == old(sources)[path := text]
      ensures files.Contents() == old(files.Contents()) + [text]
      ensures files.Issued(id) && files.Ordinal(id) == old(|files.Contents()|)
      ensures files.current == old(files.current) || fresh(files.current)
    {
      ghost var stored := files.Contents();
      id := files.Insert(text);
      ghost var added := files.Contents();
      assert added == stored + [text];
      TableAdd(paths, sources, stored, files.N, path, id, text);
      paths := paths[path := id];
      sources := sources[path := text];
      assert files.Contents() == added;
    }

    /**
     * `FileCache::resolve_and_get`: resolve, then get; a read error is passed
     * on. Table, arena and read log change exactly as `Resolve` changes them.
     */
    method ResolveAndGet(path: Path, fs: FileSystem) returns (r: Result<Source, IoError>)
      requires Valid()
      modifies this, files, files.current, fs`log
      ensures Valid()
      ensures forall p :: p in old(paths) ==> p in paths && paths[p] == old(paths[p]) && sources[p] == old(sources[p])
      ensures path in old(paths) ==>
                r == Success(old(sources[path])) && paths == old(paths) && sources == old(sources)
                && fs.log == old(fs.log) && files.Contents() == old(files.Contents())
      ensures path !in old(paths) ==> fs.log == old(fs.log) + [path]
      ensures path !in old(paths) && fs.Lookup(path).Failure? ==>
                r == Failure(fs.Lookup(path).error) && paths == old(paths) && sources == old(sources)
                && files.Contents() == old(files.Contents())
      ensures path !in old(paths) && fs.Lookup(path).Success? ==>
                r == Success(fs.Lookup(path).value) && path in paths
                && files.Ordinal(paths[path]) == old(|files.Contents()|)
                && paths == old(paths)[path := paths[path]] && sources == old(sources)[path := fs.Lookup(path).value]
                && files.Contents() == old(files.Contents()) + [fs.Lookup(path).value]
      ensures r.Success? <==> path in old(paths) || fs.Lookup(path).Success?
      ensures r.Success? ==> path in paths && r.value == sources[path] && files.Issued(paths[path])
      ensures files.current == old(files.current) || fresh(files.current)
    {
      var id := Resolve(path, fs);
      match id
      case Failure(e) =>
        r := Failure(e);
      case Success(i) =>
        r := Success(Get(i));
    }

    /**
     * `Cache::fetch`: `resolve_and_get` with the error boxed; it succeeds
     * exactly when that does and changes the state exactly as it does.
     */
    method Fetch(path: Path, fs: FileSystem) returns (r: Result<Source, FetchError>)
      requires Valid()
      modifies this, files, files.current, fs`log
      ensures Valid()
      ensures forall p :: p in old(paths) ==> p in paths && paths[p] == old(paths[p]) && sources[p] == old(sources[p])
      ensures path in old(paths) ==>
                r == Success(old(sources[path])) && paths == old(paths) && sources == old(sources)
                && fs.log == old(fs.log) && files.Contents() == old(files.Contents())
      ensures path !in old(paths) ==> fs.log == old(fs.log) + [path]
      ensures path !in old(paths) && fs.Lookup(path).Failure? ==>
                r == Failure(Boxed(fs.Lookup(path).error)) && paths == old(paths) && sources == old(sources)
                && files.Contents() == old(files.Contents())
      ensures path !in old(paths) && fs.Lookup(path).Success? ==>
                r == Success(fs.Lookup(path).value) && path in paths
                && files.Ordinal(paths[path]) == old(|files.Contents()|)
                && paths == old(paths)[path := paths[path]] && sources == old(sources)[path := fs.Lookup(path).value]
                && files.Contents() == old(files.Contents()) + [fs.Lookup(path).value]
      ensures r.Success? <==> path in old(paths) || fs.Lookup(path).Success?
      ensures r.Success? ==> path in paths && r.value == sources[path] && files.Issued(paths[path])
      ensures files.current == old(files.current) || fresh(files.current)
    {
      var got := ResolveAndGet(path, fs);
      match got
      case Failure(e) =>
        r := Failure(Boxed(e));
      case Success(s) =>
        r := Success(s);
    }
  }

  /** Resolving the same path twice gives the identical id and reads the file once. */
  method MemoisationScenario(fs: FileSystem, path: Path) returns (first: Result<Arena.Id<Source>, IoError>, second: Result<Arena.Id<Source>, IoError>)
    requires fs.Lookup(path).Success?
    modifies fs`log
    ensures first.Success? && first == second
    ensures fs.log == old(fs.log) + [path]
  {
    var cache := new FileCache();
    first := cache.Resolve(path, fs);
    second := cache.Resolve(path, fs);
  }
}
