/**
 * The driver of spit.go: `main`, `moveFile`, `getFileName`, `listDir` and
 * `createTmp`, over an abstract filesystem that maps a directory path to the
 * names of its entries.
 */
module Spit {
  import opened Wrappers
  import opened Text
  import opened Glob
  import opened Tokens

  const PatchesDir: string := "patching-tool/patches"
  const SpitDir: string := "patching-tool/spit"

  /** Directory path to the names of the entries in that directory. */
  type FileSystem = map<string, set<string>>

  /** Entry names never contain the separator. */
  ghost predicate WellFormed(fs: FileSystem) {
    forall dir, name :: dir in fs && name in fs[dir] ==> '/' !in name
  }

  /** The command-line flags `-a`, `-l`, `-lr` and `-r`. */
  datatype Flags = Flags(all: bool, list: bool, listR: bool, reverse: bool)

  /** The two errors `getFileName` can return. */
  datatype ResolveError = NoKnownPattern | NoMatchingFile

  /** What `moveFile` did with one token. */
  datatype MoveResult =
    | Moved(name: string)        // renamed from the source to the destination directory
    | Skipped(error: ResolveError)  // warning printed, nothing changed
    | MoveFailed(name: string)   // os.Rename failed: the run stops

  datatype Abort = CannotList(path: string) | NothingToDo | CannotMove(results: seq<MoveResult>)

  /** How a run of the tool ends. */
  datatype Outcome =
    | Listing(path: string, names: set<string>)   // an empty set prints "No files found"
    | Finished(results: seq<MoveResult>)          // every token handled, exit status 0
    | Aborted(reason: Abort)                      // log.Fatal: non-zero exit status

  function Entries(fs: FileSystem, dir: string): set<string> {
    if dir in fs then fs[dir] else {}
  }

  /** The entries that contain the fragment: the names a glob for `*frag*` may return. */
  function Candidates(entries: set<string>, frag: string): set<string> {
    set name | name in entries && Contains(name, frag)
  }

  /**
   * `filepath.Glob(dir + "/" + pattern)` for a pattern without a separator:
   * the paths of the entries of `dir` that the pattern matches, none when
   * `dir` does not exist.
   */
  function GlobIn(fs: FileSystem, dir: string, pattern: string): (paths: set<string>)
    ensures dir !in fs ==> paths == {}
    ensures forall p :: p in paths ==> HasPrefix(p, dir + "/")
  {
    set name | name in Entries(fs, dir) && StarMatch(pattern, name) :: dir + "/" + name
  }

  /** Renaming `name` out of `src` into `dst`; every other result leaves the filesystem alone. */
  ghost function Apply(fs: FileSystem, src: string, dst: string, r: MoveResult): FileSystem {
    if r.Moved? then fs[src := Entries(fs, src) - {r.name}][dst := Entries(fs, dst) + {r.name}]
    else fs
  }

  /**
   * The results `moveFile(token)` may have on `fs`. The glob may return any
   * candidate; a rename fails when the destination directory is missing or
   * the system refuses to move that name.
   */
  ghost predicate Legal(fs: FileSystem, src: string, dst: string, immovable: set<string>, token: string, r: MoveResult)
    ensures Legal(fs, src, dst, immovable, token, r) && !r.Skipped? ==> r.name in Entries(fs, src)
    ensures Legal(fs, src, dst, immovable, token, r) && r.Skipped? ==> r.error == NoMatchingFile
  {
    var candidates := Candidates(Entries(fs, src), Fragment(token));
    match r
    case Skipped(e) => e == NoMatchingFile && candidates == {}
    case Moved(name) => name in candidates && dst in fs && name !in immovable
    case MoveFailed(name) => name in candidates && (dst !in fs || name in immovable)
  }

  /**
   * `results` is what the loop `for _, arg := range tokens { moveFile(arg) }`
   * may produce from `fs`, ending in `fs'`: one result per token, except
   * that a failed rename ends the run there.
   */
  ghost predicate RunsTokens(fs: FileSystem, src: string, dst: string, immovable: set<string>,
                             tokens: seq<string>, results: seq<MoveResult>, fs': FileSystem)
    ensures RunsTokens(fs, src, dst, immovable, tokens, results, fs') ==> |results| <= |tokens|
    decreases tokens
  {
    if tokens == [] then results == [] && fs' == fs
    else
      && results != []
      && Legal(fs, src, dst, immovable, tokens[0], results[0])
      && if results[0].MoveFailed? then results == [results[0]] && fs' == fs
         else RunsTokens(Apply(fs, src, dst, results[0]), src, dst, immovable, tokens[1..], results[1..], fs')
  }

  predicate NoFailure(results: seq<MoveResult>) {
    forall k :: 0 <= k < |results| ==> !results[k].MoveFailed?
  }

  /** A run that stopped at a failed rename aborts; any other run finishes normally. */
  function Conclude(results: seq<MoveResult>): Outcome {
    if results != [] && results[|results| - 1].MoveFailed? then Aborted(CannotMove(results))
    else Finished(results)
  }

  /** The per-token results an outcome carries. */
  function ResultsOf(o: Outcome): seq<MoveResult> {
    match o
    case Finished(results) => results
    case Aborted(CannotMove(results)) => results
    case _ => []
  }

  /** `createTmp`'s effect: the directory exists afterwards, and an existing one is left as it was. */
  function WithDir(fs: FileSystem, dir: string): (fs': FileSystem)
    ensures dir in fs'
    ensures dir in fs ==> fs' == fs
    ensures forall d :: d != dir ==> (d in fs' <==> d in fs) && (d in fs ==> fs'[d] == fs[d])
  {
    if dir in fs then fs else fs[dir := {}]
  }

  /** What `listDir(path)` reports on `fs`. */
  function ListingOf(fs: FileSystem, path: string): Outcome {
    if path in fs then Listing(path, fs[path]) else Aborted(CannotList(path))
  }

  /** `seq` lists every member of `s` exactly once. */
  ghost predicate Enumerates(names: seq<string>, s: set<string>) {
    && (forall k :: 0 <= k < |names| ==> names[k] in s)
    && (forall name :: name in s ==> name in names)
    && (forall k, l :: 0 <= k < l < |names| ==> names[k] != names[l])
  }

  lemma {:induction false} RunsTokensSnoc(fs: FileSystem, src: string, dst: string, immovable: set<string>,
                                          tokens: seq<string>, results: seq<MoveResult>, mid: FileSystem,
                                          token: string, r: MoveResult, tokens': seq<string>, results': seq<MoveResult>)
    requires RunsTokens(fs, src, dst, immovable, tokens, results, mid) && NoFailure(results)
    requires Legal(mid, src, dst, immovable, token, r)
    requires tokens' == tokens + [token] && results' == results + [r]
    ensures RunsTokens(fs, src, dst, immovable, tokens', results', Apply(mid, src, dst, r))
    decreases tokens
  {
    hide Legal;
    if tokens == [] {
      assert results == [];
      assert tokens'[1..] == [] && results'[1..] == [];
    } else {
      assert tokens'[0] == tokens[0] && results'[0] == results[0];
      assert tokens'[1..] == tokens[1..] + [token];
      assert results'[1..] == results[1..] + [r];
      RunsTokensSnoc(Apply(fs, src, dst, results[0]), src, dst, immovable, tokens[1..], results[1..], mid, token, r,
                     tokens'[1..], results'[1..]);
    }
  }

  lemma {:induction false} RunsTokensStopped(fs: FileSystem, src: string, dst: string, immovable: set<string>,
                                             tokens: seq<string>, rest: seq<string>, results: seq<MoveResult>, fs': FileSystem,
                                             all: seq<string>)
    requires RunsTokens(fs, src, dst, immovable, tokens, results, fs')
    requires results != [] && results[|results| - 1].MoveFailed?
    requires all == tokens + rest
    ensures RunsTokens(fs, src, dst, immovable, all, results, fs')
    decreases tokens
  {
    hide Legal;
    assert tokens != [] && all[0] == tokens[0];
    assert Legal(fs, src, dst, immovable, all[0], results[0]);
    if !results[0].MoveFailed? {
      assert all[1..] == tokens[1..] + rest;
      RunsTokensStopped(Apply(fs, src, dst, results[0]), src, dst, immovable, tokens[1..], rest, results[1..], fs', all[1..]);
    }
  }

  /** One turn of the token loop that renamed or skipped: the run so far grows by one result. */
  lemma RunsTokensStep(fs: FileSystem, src: string, dst: string, immovable: set<string>,
                       tokens: seq<string>, i: nat, results: seq<MoveResult>, mid: FileSystem, r: MoveResult)
    requires i < |tokens|
    requires RunsTokens(fs, src, dst, immovable, tokens[..i], results, mid) && NoFailure(results)
    requires Legal(mid, src, dst, immovable, tokens[i], r) && !r.MoveFailed?
    ensures RunsTokens(fs, src, dst, immovable, tokens[..i + 1], results + [r], Apply(mid, src, dst, r))
    ensures NoFailure(results + [r])
  {
    hide Legal;
    assert tokens[..i + 1] == tokens[..i] + [tokens[i]];
    RunsTokensSnoc(fs, src, dst, immovable, tokens[..i], results, mid, tokens[i], r, tokens[..i + 1], results + [r]);
  }

  /** A failed rename after the tokens `done`: the run ends there, the tokens in `rest` unprocessed. */
  lemma RunsTokensHaltAfter(fs: FileSystem, src: string, dst: string, immovable: set<string>,
                                          done: seq<string>, token: string, rest: seq<string>, all: seq<string>,
                                          results: seq<MoveResult>, mid: FileSystem, r: MoveResult)
    requires RunsTokens(fs, src, dst, immovable, done, results, mid) && NoFailure(results)
    requires Legal(mid, src, dst, immovable, token, r) && r.MoveFailed?
    requires all == done + [token] + rest
    ensures RunsTokens(fs, src, dst, immovable, all, results + [r], mid)
  {
    hide Legal;
    var upTo := done + [token];
    RunsTokensSnoc(fs, src, dst, immovable, done, results, mid, token, r, upTo, results + [r]);
    assert Apply(mid, src, dst, r) == mid;
    RunsTokensStopped(fs, src, dst, immovable, upTo, rest, results + [r], mid, all);
  }

  /** One turn of the token loop whose rename failed: the run ends there, the remaining tokens unprocessed. */
  lemma RunsTokensHalt(fs: FileSystem, src: string, dst: string, immovable: set<string>,
                       tokens: seq<string>, i: nat, results: seq<MoveResult>, mid: FileSystem, r: MoveResult)
    requires i < |tokens|
    requires RunsTokens(fs, src, dst, immovable, tokens[..i], results, mid) && NoFailure(results)
    requires Legal(mid, src, dst, immovable, tokens[i], r) && r.MoveFailed?
    ensures RunsTokens(fs, src, dst, immovable, tokens, results + [r], mid)
  {
    hide Legal;
    assert tokens == tokens[..i] + [tokens[i]] + tokens[i + 1..];
    RunsTokensHaltAfter(fs, src, dst, immovable, tokens[..i], tokens[i], tokens[i + 1..], tokens, results, mid, r);
  }

  /** One invocation of the tool: the two directory paths and the filesystem they name. */
  class Session {
    var fs: FileSystem
    /** Names whose rename the operating system refuses (permissions, devices, ...). */
    const immovable: set<string>
    var sourcePath: string
    var destinationPath: string

    ghost predicate Valid()
      reads this
    {
      && WellFormed(fs)
      && ((sourcePath == PatchesDir && destinationPath == SpitDir) ||
          (sourcePath == SpitDir && destinationPath == PatchesDir))
    }

    /** The process starts with the package-level paths at their initial values. */
    constructor (fs0: FileSystem, immovable0: set<string>)
      requires WellFormed(fs0)
      ensures Valid()
      ensures fs == fs0 && immovable == immovable0
      ensures sourcePath == PatchesDir && destinationPath == SpitDir
    {
      fs := fs0;
      immovable := immovable0;
      sourcePath := PatchesDir;
      destinationPath := SpitDir;
    }

    /** `sourcePath, destinationPath = destinationPath, sourcePath`. */
    method Swap()
      requires Valid()
      modifies this
      ensures Valid()
      ensures sourcePath == old(destinationPath) && destinationPath == old(sourcePath)
      ensures fs == old(fs)
    {
      sourcePath, destinationPath := destinationPath, sourcePath;
    }

    /** Creates the destination directory unless it already exists. */
    method CreateTmp()
      requires Valid()
      modifies this
      ensures Valid()
      ensures sourcePath == old(sourcePath) && destinationPath == old(destinationPath)
      ensures fs == WithDir(old(fs), destinationPath)
    {
      if destinationPath in fs {
        return;
      }
      fs := fs[destinationPath := {}];
    }

    /** `ioutil.ReadDir(path)`: every entry once, or None when the directory cannot be read. */
    method ReadDir(path: string) returns (r: Option<seq<string>>)
      ensures r.None? <==> path !in fs
      ensures r.Some? ==> Enumerates(r.value, fs[path])
    {
      if path !in fs {
        return None;
      }
      var names: seq<string> := [];
      var rest := fs[path];
      while rest != {}
        invariant rest <= fs[path]
        invariant forall k :: 0 <= k < |names| ==> names[k] in fs[path] && names[k] !in rest
        invariant forall name :: name in fs[path] ==> name in rest || name in names
        invariant forall k, l :: 0 <= k < l < |names| ==> names[k] != names[l]
        decreases |rest|
      {
        var name :| name in rest;
        names := names + [name];
        rest := rest - {name};
      }
      return Some(names);
    }

    /** `listDir(path)`: lists the directory and changes nothing. */
    method ListDir(path: string) returns (o: Outcome)
      ensures o.Listing? <==> path in fs
      ensures o.Listing? ==> o.path == path && o.names == fs[path]
      ensures !o.Listing? ==> o == Aborted(CannotList(path))
    {
      var files := ReadDir(path);
      if files.None? {
        return Aborted(CannotList(path));
      }
      var names := set k | 0 <= k < |files.value| :: files.value[k];
      return Listing(path, names);
    }

    /**
     * `getFileName(file)`: some entry of the source directory that contains
     * the token's fragment, and an error only when there is none.
     */
    method GetFileName(file: string) returns (r: Result<string, ResolveError>)
      requires Valid()
      ensures r.Ok? ==> r.value in Candidates(Entries(fs, sourcePath), Fragment(file))
      ensures r.Ok? ==> '/' !in r.value
      ensures r.Err? <==> Candidates(Entries(fs, sourcePath), Fragment(file)) == {}
      ensures r.Err? ==> r.error == NoMatchingFile
    {
      var frag := Fragment(file);
      FragmentIsLiteral(file);
      var pattern := "*" + frag + "*";
      var matches := GlobIn(fs, sourcePath, pattern);
      forall name | name in Entries(fs, sourcePath)
        ensures StarMatch(pattern, name) <==> Contains(name, frag)
      {
        StarLiteralStar(frag, name);
      }
      if Candidates(Entries(fs, sourcePath), frag) != {} {
        var name :| name in Candidates(Entries(fs, sourcePath), frag);
        assert sourcePath + "/" + name in matches;
      }
      if matches == {} {
        return Err(NoMatchingFile);
      }
      var path :| path in matches;
      var name :| name in Entries(fs, sourcePath) && StarMatch(pattern, name) && path == sourcePath + "/" + name;
      LastSegmentOfJoin(sourcePath, name);
      return Ok(LastSegment(path));
    }

    /** `os.Rename(sourcePath + "/" + name, destinationPath + "/" + name)`. */
    method Rename(name: string) returns (ok: bool)
      requires Valid() && '/' !in name
      modifies this
      ensures Valid() && sourcePath == old(sourcePath) && destinationPath == old(destinationPath)
      ensures ok <==> name in Entries(old(fs), sourcePath) && destinationPath in old(fs) && name !in immovable
      ensures fs == if ok then Apply(old(fs), sourcePath, destinationPath, Moved(name)) else old(fs)
    {
      ok := sourcePath in fs && name in fs[sourcePath] && destinationPath in fs && name !in immovable;
      if ok {
        fs := fs[sourcePath := fs[sourcePath] - {name}][destinationPath := fs[destinationPath] + {name}];
      }
    }

    /**
     * `moveFile(file)`: resolves the token and renames the entry it names;
     * a token that resolves to nothing is skipped without any change.
     */
    method MoveFile(file: string) returns (r: MoveResult)
      requires Valid()
      modifies this
      ensures Valid() && sourcePath == old(sourcePath) && destinationPath == old(destinationPath)
      ensures Legal(old(fs), sourcePath, destinationPath, immovable, file, r)
      ensures fs == Apply(old(fs), sourcePath, destinationPath, r)
    {
      var filename := GetFileName(file);
      if filename.Err? {
        return Skipped(filename.error);
      }
      var ok := Rename(filename.value);
      if !ok {
        return MoveFailed(filename.value);
      }
      return Moved(filename.value);
    }

    /** The loops of `main` over the tokens: `moveFile` on each in turn, until a rename fails. */
    method MoveEach(tokens: seq<string>) returns (results: seq<MoveResult>)
      requires Valid()
      modifies this
      ensures Valid() && sourcePath == old(sourcePath) && destinationPath == old(destinationPath)
      ensures RunsTokens(old(fs), sourcePath, destinationPath, immovable, tokens, results, fs)
    {
      results := [];
      for i := 0 to |tokens|
        invariant Valid() && sourcePath == old(sourcePath) && destinationPath == old(destinationPath)
        invariant RunsTokens(old(fs), sourcePath, destinationPath, immovable, tokens[..i], results, fs)
        invariant NoFailure(results)
      {
        ghost var mid := fs;
        var r := MoveFile(tokens[i]);
        if r.MoveFailed? {
          RunsTokensHalt(old(fs), sourcePath, destinationPath, immovable, tokens, i, results, mid, r);
          results := results + [r];
          return;
        }
        RunsTokensStep(old(fs), sourcePath, destinationPath, immovable, tokens, i, results, mid, r);
        results := results + [r];
      }
      assert tokens[..|tokens|] == tokens;
    }

    /**
     * `main`: `-lr` first, then the `-r` swap, then `-l`; every other mode
     * creates the destination directory and moves either every source entry
     * (`-a`) or the positional arguments. `args` is `os.Args`, flags
     * included; `tokens` is what was handed to `moveFile`.
     */
    method Execute(flags: Flags, args: seq<string>) returns (o: Outcome, ghost tokens: seq<string>)
      requires Valid() && sourcePath == PatchesDir && destinationPath == SpitDir
      requires |args| >= 1 && (flags.reverse ==> |args| >= 2)
      modifies this
      ensures Valid()
      ensures flags.listR ==>
        o == ListingOf(old(fs), SpitDir) && fs == old(fs) && sourcePath == PatchesDir && destinationPath == SpitDir
      ensures !flags.listR ==>
        (sourcePath, destinationPath) == if flags.reverse then (SpitDir, PatchesDir) else (PatchesDir, SpitDir)
      ensures !flags.listR && flags.list ==> o == ListingOf(old(fs), sourcePath) && fs == old(fs)
      ensures !flags.listR && !flags.list ==>
        var fs0 := WithDir(old(fs), destinationPath);
        var moves := RunsTokens(fs0, sourcePath, destinationPath, immovable, tokens, ResultsOf(o), fs) && o == Conclude(ResultsOf(o));
        && (flags.all && sourcePath !in fs0 ==> o == Aborted(CannotList(sourcePath)) && fs == fs0)
        && (flags.all && sourcePath in fs0 ==> Enumerates(tokens, fs0[sourcePath]) && moves)
        && (!flags.all ==> tokens == args[if flags.reverse then 2 else 1..])
        && (!flags.all && tokens == [] ==> o == Aborted(NothingToDo) && fs == fs0)
        && (!flags.all && tokens != [] ==> moves)
    {
      hide Legal;
      tokens := [];
      if flags.listR {
        o := ListDir(destinationPath);
        return;
      }
      var sliceStart := 1;
      if flags.reverse {
        Swap();
        sliceStart := sliceStart + 1;
      }
      if flags.list {
        o := ListDir(sourcePath);
        return;
      }
      CreateTmp();
      if flags.all {
        var files := ReadDir(sourcePath);
        if files.None? {
          o := Aborted(CannotList(sourcePath));
          return;
        }
        tokens := files.value;
        var results := MoveEach(files.value);
        o := Conclude(results);
        return;
      }
      var positional := args[sliceStart..];
      tokens := positional;
      if |positional| == 0 {
        o := Aborted(NothingToDo);
        return;
      }
      var results := MoveEach(positional);
      o := Conclude(results);
    }
  }
}
