// The indexer: single-file indexing, document creation for a walked file,
// ignore-pattern expansion and the directory walk with its skip rules.

module Indexer {
  import opened Wrappers
  import opened Text
  import opened Extensions
  import Config
  import opened Documents

  /** Library behaviour the indexer relies on, supplied by the caller:
      `clean` is Go's `filepath.Clean`, `globMatch(pattern, name)` holds when
      `filepath.Match` reports a match without error, `sha256` is the digest. */
  datatype PathLib = PathLib(clean: string -> string,
                             globMatch: (string, string) -> bool,
                             sha256: Sha256)

  /** What the file system reports for a regular file: whether it could be
      opened and stat-ed, its base name, size and modification time (Unix
      seconds), and whether reading it to the end succeeded, with the text. */
  datatype FileData = FileData(openOk: bool, name: string, size: int, modTime: int,
                               readOk: bool, content: string)

  /** A node of the tree `filepath.Walk` visits. `Unreadable` is an entry whose
      `Lstat` failed; a directory that cannot be listed is `Dir` with
      `listable` false. Children are in the order the walk visits them. */
  datatype Entry =
    | Unreadable(entryName: string)
    | File(data: FileData)
    | Dir(entryName: string, listable: bool, children: seq<Entry>)
  {
    function Name(): string {
      if File? then data.name else entryName
    }
  }

  datatype IndexError = ExtensionNotAllowed(ext: string) | IoFailure

  /** Unix `filepath.IsAbs`. */
  predicate IsAbs(p: string) {
    |p| > 0 && p[0] == '/'
  }

  /** `filepath.Join` of two elements: empty elements are dropped and the
      result is cleaned; two empty elements give "". */
  function Join(lib: PathLib, a: string, b: string): string {
    if a == "" && b == "" then ""
    else if a == "" then lib.clean(b)
    else if b == "" then lib.clean(a)
    else lib.clean(a + "/" + b)
  }

  /** Unix `filepath.Dir`: everything before the final element, cleaned. */
  function DirOf(lib: PathLib, p: string): string {
    lib.clean(p[..|p| - |AfterLast(p, '/')|])
  }

  // ---------------------------------------------------------------- IndexFile

  /** `IndexFile` up to the hand-over to the search engine: the extension gate
      comes first, then the file is opened, stat-ed and read in full. */
  function IndexFile(lib: PathLib, path: string, data: FileData, now: int): (r: Result<Document, IndexError>)
    ensures !IsAllowedExtension(Ext(path)) <==> r == Err(ExtensionNotAllowed(Ext(path)))
    ensures r.Ok? <==> IsAllowedExtension(Ext(path)) && data.openOk && data.readOk
    ensures r.Ok? ==> r.value.path == path && r.value.ext == Ext(path) && r.value.content == data.content
                      && r.value.name == data.name && r.value.dir == DirOf(lib, path)
                      && HexDecode(r.value.id) == Some(lib.sha256(path))
  {
    var ext := Ext(path);
    if !IsAllowedExtension(ext) then Err(ExtensionNotAllowed(ext))
    else if !data.openOk || !data.readOk then Err(IoFailure)
    else Ok(NewDocument(lib.sha256, path, data.name, DirOf(lib, path), ext,
                        data.size, data.modTime, data.content, now))
  }

  /** A path whose extension is not allowed is refused before the file system
      is touched: the outcome does not depend on the file at all. */
  lemma RefusedBeforeOpening(lib: PathLib, path: string, d1: FileData, d2: FileData, now: int)
    requires !IsAllowedExtension(Ext(path))
    ensures IndexFile(lib, path, d1, now) == IndexFile(lib, path, d2, now)
    ensures IndexFile(lib, path, d1, now).Err?
  {
  }

  // ---------------------------------------------------- createDocumentForFile

  /** `createDocumentForFile`: documents and media keep no content and are
      never read; every other file is read in full. */
  function CreateDocumentForFile(lib: PathLib, path: string, data: FileData, now: int): (r: Result<Document, IndexError>)
    ensures r.Ok? <==> data.openOk && (ShouldIgnoreContent(Ext(path)) || data.readOk)
    ensures r.Ok? ==> r.value.path == path && r.value.ext == Ext(path) && r.value.name == data.name
                      && r.value.size == data.size && r.value.modTime == data.modTime
                      && r.value.content == (if ShouldIgnoreContent(Ext(path)) then "" else data.content)
  {
    var ext := Ext(path);
    if !data.openOk then Err(IoFailure)
    else if ShouldIgnoreContent(ext) then
      Ok(NewDocument(lib.sha256, path, data.name, DirOf(lib, path), ext, data.size, data.modTime, "", now))
    else if !data.readOk then Err(IoFailure)
    else Ok(NewDocument(lib.sha256, path, data.name, DirOf(lib, path), ext, data.size, data.modTime, data.content, now))
  }

  /** For a file whose content is ignored, a failing read changes nothing, and
      the stored content hash is the digest of the empty text. */
  lemma IgnoredContentNeverRead(lib: PathLib, path: string, d: FileData, now: int)
    requires ShouldIgnoreContent(Ext(path)) && d.openOk
    ensures CreateDocumentForFile(lib, path, d, now) == CreateDocumentForFile(lib, path, d.(readOk := false, content := ""), now)
    ensures HexDecode(CreateDocumentForFile(lib, path, d, now).value.contentHash) == Some(lib.sha256(""))
  {
  }

  // ------------------------------------------------------ pattern expansion

  /** Every pattern expanded, in order. */
  function ExpandAll(lib: PathLib, home: Option<string>, patterns: seq<string>): seq<string> {
    seq(|patterns|, i requires 0 <= i < |patterns| => ExpandPattern(lib, home, patterns[i]))
  }

  /** One ignore pattern after expansion: a leading "~/" is replaced by the
      home directory when it is known, and the result is cleaned. */
  function ExpandPattern(lib: PathLib, home: Option<string>, pattern: string): string {
    if |pattern| >= 2 && pattern[..2] == "~/" && home.Some? then lib.clean(Join(lib, home.value, pattern[2..]))
    else lib.clean(pattern)
  }

  /** The loop building `expandedIgnorePatterns`, one entry per pattern in
      order. */
  method ExpandIgnorePatterns(lib: PathLib, home: Option<string>, patterns: seq<string>)
    returns (expanded: seq<string>)
    ensures |expanded| == |patterns|
    ensures forall i | 0 <= i < |patterns| :: expanded[i] == ExpandPattern(lib, home, patterns[i])
    ensures expanded == ExpandAll(lib, home, patterns)
  {
    expanded := [];
    for i := 0 to |patterns|
      invariant |expanded| == i
      invariant forall j | 0 <= j < i :: expanded[j] == ExpandPattern(lib, home, patterns[j])
    {
      var pattern := patterns[i];
      if |pattern| >= 2 && pattern[..2] == "~/" && home.Some? {
        pattern := Join(lib, home.value, pattern[2..]);
      }
      pattern := lib.clean(pattern);
      expanded := expanded + [pattern];
    }
  }

  /** A pattern without the "~/" prefix, or any pattern when the home
      directory is unknown, is only cleaned. */
  lemma HomeOnlyForTilde(lib: PathLib, home: Option<string>, pattern: string)
    requires !(|pattern| >= 2 && pattern[..2] == "~/") || home.None?
    ensures ExpandPattern(lib, home, pattern) == lib.clean(pattern)
  {
  }

  // ------------------------------------------------------- the skip rules

  /** What the walk callback returns for an entry: `SkipDir`, plain `nil`
      (`Proceed`), or `nil` after counting the file and creating its document
      (`Collect`). */
  datatype Verdict = SkipDir | Proceed | Collect

  /** Whether one expanded pattern excludes the entry: an absolute pattern
      names a directory exactly or any path strictly beneath it; any other
      pattern is a glob on the entry's base name. */
  predicate Excludes(lib: PathLib, pattern: string, path: string, name: string, isDir: bool) {
    if IsAbs(pattern) then (isDir && path == pattern) || pattern + "/" <= path
    else lib.globMatch(pattern, name)
  }

  /** The pattern loop of the callback: the answer of the first pattern that
      excludes the entry, or `None` when none does. */
  function PatternVerdict(lib: PathLib, patterns: seq<string>, path: string, name: string, isDir: bool): (r: Option<Verdict>)
    ensures r.Some? ==> r.value == (if isDir then SkipDir else Proceed)
    decreases |patterns|
  {
    if patterns == [] then None
    else
      var p := patterns[0];
      if IsAbs(p) then
        if p <= path then
          if isDir && path == p then Some(SkipDir)
          else if p + "/" <= path then Some(if isDir then SkipDir else Proceed)
          else PatternVerdict(lib, patterns[1..], path, name, isDir)
        else PatternVerdict(lib, patterns[1..], path, name, isDir)
      else if lib.globMatch(p, name) then Some(if isDir then SkipDir else Proceed)
      else PatternVerdict(lib, patterns[1..], path, name, isDir)
  }

  /** The callback's decision for an entry it could stat. */
  function Decide(lib: PathLib, patterns: seq<string>, path: string, name: string, isDir: bool): (v: Verdict)
    ensures v == SkipDir ==> isDir
    ensures v == Collect ==> !isDir && IsAllowedExtension(Ext(path))
  {
    match PatternVerdict(lib, patterns, path, name, isDir)
    case Some(v) => v
    case None =>
      if isDir && Config.ShouldIgnoreDirectory(name) then SkipDir
      else if isDir && |name| > 0 && name[0] == '.' then SkipDir
      else if !IsAllowedExtension(Ext(path)) then Proceed
      else if !isDir then Collect
      else Proceed
  }

  /** The pattern loop answers exactly when some pattern excludes the entry,
      and then it skips a directory and passes over a file. */
  lemma {:induction false} PatternVerdictIff(lib: PathLib, patterns: seq<string>, path: string, name: string, isDir: bool)
    ensures PatternVerdict(lib, patterns, path, name, isDir).Some?
            <==> exists k | 0 <= k < |patterns| :: Excludes(lib, patterns[k], path, name, isDir)
    ensures PatternVerdict(lib, patterns, path, name, isDir).Some? ==>
            PatternVerdict(lib, patterns, path, name, isDir).value == (if isDir then SkipDir else Proceed)
    decreases |patterns|
  {
    if patterns != [] {
      PatternVerdictIff(lib, patterns[1..], path, name, isDir);
      if exists k | 0 <= k < |patterns| :: Excludes(lib, patterns[k], path, name, isDir) {
        var k :| 0 <= k < |patterns| && Excludes(lib, patterns[k], path, name, isDir);
        if k > 0 {
          assert patterns[1..][k - 1] == patterns[k];
        }
      } else {
        forall k | 0 <= k < |patterns| - 1
          ensures !Excludes(lib, patterns[1..][k], path, name, isDir)
        {
          assert patterns[1..][k] == patterns[k + 1];
        }
      }
    }
  }

  /** An excluded directory is skipped with everything beneath it, and an
      excluded file is passed over without being collected. */
  lemma ExcludedIsNotCollected(lib: PathLib, patterns: seq<string>, path: string, name: string, isDir: bool, k: nat)
    requires k < |patterns| && Excludes(lib, patterns[k], path, name, isDir)
    ensures Decide(lib, patterns, path, name, isDir) == (if isDir then SkipDir else Proceed)
  {
    PatternVerdictIff(lib, patterns, path, name, isDir);
  }

  /** When no pattern applies, a file is collected exactly when its extension
      is allowed, and a directory is skipped exactly when its name is on the
      ignored list or starts with a dot. */
  lemma UnexcludedEntries(lib: PathLib, patterns: seq<string>, path: string, name: string, isDir: bool)
    requires forall k | 0 <= k < |patterns| :: !Excludes(lib, patterns[k], path, name, isDir)
    ensures !isDir ==> (Decide(lib, patterns, path, name, isDir) == Collect <==> IsAllowedExtension(Ext(path)))
    ensures isDir ==> (Decide(lib, patterns, path, name, isDir) == SkipDir
                       <==> Config.ShouldIgnoreDirectory(name) || (|name| > 0 && name[0] == '.'))
  {
    PatternVerdictIff(lib, patterns, path, name, isDir);
  }

  /** Prefix matching is on raw text: a sibling whose name merely extends the
      pattern's last element is not excluded, and a file whose path equals an
      absolute pattern is not excluded either. */
  lemma PrefixIsNotAncestor(lib: PathLib, pattern: string, sibling: string, file: string)
    requires pattern == "/a/b" && sibling == "/a/bc/x.go" && file == pattern
    ensures pattern <= sibling && !Excludes(lib, pattern, sibling, "x.go", false)
    ensures !Excludes(lib, pattern, file, "b", false)
  {
    assert sibling[4] == 'c';
  }

  // ----------------------------------------------------------------- the walk

  /** Documents gathered and files counted by (part of) a walk. */
  datatype Tally = Tally(documents: seq<Document>, fileCount: nat)

  function Plus(a: Tally, b: Tally): Tally {
    Tally(a.documents + b.documents, a.fileCount + b.fileCount)
  }

  /** The fixed inputs of one walk. */
  datatype WalkConfig = WalkConfig(lib: PathLib, patterns: seq<string>, now: int)

  /** Whether the callback receives an error for the entry (and just logs). */
  predicate Failed(e: Entry) {
    e.Unreadable? || (e.Dir? && !e.listable)
  }

  function VerdictFor(cfg: WalkConfig, path: string, e: Entry): (v: Verdict)
    ensures v == Collect ==> e.File?
  {
    if Failed(e) then Proceed else Decide(cfg.lib, cfg.patterns, path, e.Name(), e.Dir?)
  }

  /** What the callback itself adds for one entry. */
  function Visited(cfg: WalkConfig, path: string, e: Entry): (t: Tally)
    ensures |t.documents| <= t.fileCount <= 1
  {
    if VerdictFor(cfg, path, e) != Collect then Tally([], 0)
    else match CreateDocumentForFile(cfg.lib, path, e.data, cfg.now)
      case Ok(d) => Tally([d], 1)
      case Err(_) => Tally([], 1)
  }

  /** The whole walk rooted at `e`, reached as `path`: the callback's share,
      then the children in order unless the directory was skipped or could
      not be listed. */
  function WalkTally(cfg: WalkConfig, path: string, e: Entry): (t: Tally)
    ensures VerdictFor(cfg, path, e) == SkipDir ==> t == Tally([], 0)
    decreases e
  {
    var here := Visited(cfg, path, e);
    if e.Dir? && e.listable && VerdictFor(cfg, path, e) != SkipDir then
      Plus(here, ChildrenTally(cfg, path, e.children))
    else here
  }

  function ChildrenTally(cfg: WalkConfig, dir: string, cs: seq<Entry>): Tally
    decreases cs
  {
    if cs == [] then Tally([], 0)
    else
      var c := cs[|cs| - 1];
      Plus(ChildrenTally(cfg, dir, cs[..|cs| - 1]), WalkTally(cfg, Join(cfg.lib, dir, c.Name()), c))
  }

  /** A failing child never stops the walk: the children's tally is the sum of
      the parts, whatever each part contains. */
  lemma {:induction false} ChildrenSplit(cfg: WalkConfig, dir: string, xs: seq<Entry>, ys: seq<Entry>)
    ensures ChildrenTally(cfg, dir, xs + ys) == Plus(ChildrenTally(cfg, dir, xs), ChildrenTally(cfg, dir, ys))
    decreases |ys|
  {
    if ys == [] {
      assert xs + ys == xs;
      assert ChildrenTally(cfg, dir, xs).documents + [] == ChildrenTally(cfg, dir, xs).documents;
    } else {
      var zs, ys', c := xs + ys, ys[..|ys| - 1], ys[|ys| - 1];
      assert zs[..|zs| - 1] == xs + ys' && zs[|zs| - 1] == c;
      ChildrenLast(cfg, dir, zs);
      ChildrenLast(cfg, dir, ys);
      ChildrenSplit(cfg, dir, xs, ys');
      PlusAssoc(ChildrenTally(cfg, dir, xs), ChildrenTally(cfg, dir, ys'),
                WalkTally(cfg, Join(cfg.lib, dir, c.Name()), c));
    }
  }

  lemma PlusAssoc(a: Tally, b: Tally, c: Tally)
    ensures Plus(Plus(a, b), c) == Plus(a, Plus(b, c))
  {
    ConcatAssoc(a.documents, b.documents, c.documents);
  }

  /** One step of `ChildrenTally`, stated for any non-empty list. */
  lemma ChildrenLast(cfg: WalkConfig, dir: string, cs: seq<Entry>)
    requires cs != []
    ensures ChildrenTally(cfg, dir, cs)
            == Plus(ChildrenTally(cfg, dir, cs[..|cs| - 1]), WalkTally(cfg, Join(cfg.lib, dir, cs[|cs| - 1].Name()), cs[|cs| - 1]))
  {
  }

  /** One more child of a listing adds that child's walk. */
  lemma ChildrenStep(cfg: WalkConfig, dir: string, cs: seq<Entry>, i: nat)
    requires i < |cs|
    ensures ChildrenTally(cfg, dir, cs[..i + 1])
            == Plus(ChildrenTally(cfg, dir, cs[..i]), WalkTally(cfg, Join(cfg.lib, dir, cs[i].Name()), cs[i]))
  {
    assert cs[..i + 1][..i] == cs[..i] && cs[..i + 1][i] == cs[i];
    ChildrenLast(cfg, dir, cs[..i + 1]);
  }

  /** An unreadable entry contributes nothing. */
  lemma UnreadableContributesNothing(cfg: WalkConfig, path: string, name: string)
    ensures WalkTally(cfg, path, Unreadable(name)) == Tally([], 0)
  {
  }

  /** Every file counted gives at most one document: documents whose creation
      failed are counted but not kept. */
  lemma {:induction false} DocumentsWithinCount(cfg: WalkConfig, path: string, e: Entry)
    ensures |WalkTally(cfg, path, e).documents| <= WalkTally(cfg, path, e).fileCount
    decreases e
  {
    if e.Dir? && e.listable && VerdictFor(cfg, path, e) != SkipDir {
      ChildrenWithinCount(cfg, path, e.children);
    }
  }

  lemma {:induction false} ChildrenWithinCount(cfg: WalkConfig, dir: string, cs: seq<Entry>)
    ensures |ChildrenTally(cfg, dir, cs).documents| <= ChildrenTally(cfg, dir, cs).fileCount
    decreases cs
  {
    if cs != [] {
      var c := cs[|cs| - 1];
      ChildrenWithinCount(cfg, dir, cs[..|cs| - 1]);
      DocumentsWithinCount(cfg, Join(cfg.lib, dir, c.Name()), c);
    }
  }

  /** Every collected document has an allowed extension, taken from its path. */
  predicate AllAllowed(docs: seq<Document>) {
    forall i | 0 <= i < |docs| :: docs[i].ext == Ext(docs[i].path) && IsAllowedExtension(docs[i].ext)
  }

  lemma {:induction false} CollectedAreAllowed(cfg: WalkConfig, path: string, e: Entry)
    ensures AllAllowed(WalkTally(cfg, path, e).documents)
    decreases e
  {
    if e.Dir? && e.listable && VerdictFor(cfg, path, e) != SkipDir {
      ChildrenAllowed(cfg, path, e.children);
    }
  }

  lemma {:induction false} ChildrenAllowed(cfg: WalkConfig, dir: string, cs: seq<Entry>)
    ensures AllAllowed(ChildrenTally(cfg, dir, cs).documents)
    decreases cs
  {
    if cs != [] {
      var c := cs[|cs| - 1];
      ChildrenAllowed(cfg, dir, cs[..|cs| - 1]);
      CollectedAreAllowed(cfg, Join(cfg.lib, dir, c.Name()), c);
    }
  }

  /** A root directory whose name starts with a dot (such as "." itself) is
      skipped by the callback, so nothing at all is collected. */
  lemma DotRootCollectsNothing(cfg: WalkConfig, path: string, e: Entry)
    requires e.Dir? && |e.entryName| > 0 && e.entryName[0] == '.'
    ensures WalkTally(cfg, path, e) == Tally([], 0)
  {
    if !Failed(e) {
      PatternVerdictIff(cfg.lib, cfg.patterns, path, e.Name(), true);
    }
  }

  /** The mutable state the walk callback closes over. */
  class WalkState {
    var documents: seq<Document>
    var fileCount: nat
    const cfg: WalkConfig

    constructor(cfg: WalkConfig)
      ensures documents == [] && fileCount == 0 && this.cfg == cfg
    {
      documents := [];
      fileCount := 0;
      this.cfg := cfg;
    }

    /** The callback for one entry: returns whether the walk skips the
        directory, and records a counted file and its document. */
    method Callback(path: string, e: Entry) returns (skip: bool)
      modifies this
      ensures skip <==> VerdictFor(cfg, path, e) == SkipDir
      ensures documents == old(documents) + Visited(cfg, path, e).documents
      ensures fileCount == old(fileCount) + Visited(cfg, path, e).fileCount
    {
      if Failed(e) {
        return false;
      }
      var v := Decide(cfg.lib, cfg.patterns, path, e.Name(), e.Dir?);
      skip := v == SkipDir;
      if v == Collect {
        fileCount := fileCount + 1;
        var doc := CreateDocumentForFile(cfg.lib, path, e.data, cfg.now);
        if doc.Ok? {
          documents := documents + [doc.value];
        }
      }
    }

    /** `filepath.Walk` from `e`, reached as `path`, driving the callback. */
    method Walk(path: string, e: Entry)
      modifies this
      ensures documents == old(documents) + WalkTally(cfg, path, e).documents
      ensures fileCount == old(fileCount) + WalkTally(cfg, path, e).fileCount
      decreases e
    {
      ghost var here := Visited(cfg, path, e);
      var skip := Callback(path, e);
      if e.Dir? && e.listable && !skip {
        ghost var rest := ChildrenTally(cfg, path, e.children);
        assert WalkTally(cfg, path, e) == Plus(here, rest);
        WalkChildren(path, e.children);
        ConcatAssoc(old(documents), here.documents, rest.documents);
      }
    }

    /** The walk's loop over the names of a listed directory, in order. */
    method WalkChildren(dir: string, cs: seq<Entry>)
      modifies this
      ensures documents == old(documents) + ChildrenTally(cfg, dir, cs).documents
      ensures fileCount == old(fileCount) + ChildrenTally(cfg, dir, cs).fileCount
      decreases cs
    {
      assert cs[..0] == [];
      for i := 0 to |cs|
        invariant documents == old(documents) + ChildrenTally(cfg, dir, cs[..i]).documents
        invariant fileCount == old(fileCount) + ChildrenTally(cfg, dir, cs[..i]).fileCount
      {
        var c := cs[i];
        ghost var w := WalkTally(cfg, Join(cfg.lib, dir, c.Name()), c);
        ghost var prior := ChildrenTally(cfg, dir, cs[..i]);
        ChildrenStep(cfg, dir, cs, i);
        Walk(Join(cfg.lib, dir, c.Name()), c);
        ConcatAssoc(old(documents), prior.documents, w.documents);
      }
      assert cs[..|cs|] == cs;
    }
  }

  /** `IndexDirectory` up to the hand-over to the search engine: the patterns
      are expanded, the tree is walked and the collected documents returned. */
  method IndexDirectory(lib: PathLib, home: Option<string>, directory: string, root: Entry,
                        ignorePatterns: seq<string>, now: int)
    returns (documents: seq<Document>, fileCount: nat)
    ensures Tally(documents, fileCount) == WalkTally(WalkConfig(lib, ExpandAll(lib, home, ignorePatterns), now), directory, root)
  {
    var expanded := ExpandIgnorePatterns(lib, home, ignorePatterns);
    var state := new WalkState(WalkConfig(lib, expanded, now));
    state.Walk(directory, root);
    documents, fileCount := state.documents, state.fileCount;
  }
}
