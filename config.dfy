/** Static lookup tables of the indexer: which extensions are indexed, which
    of those have their content skipped, which directory names are never
    entered, and where the search engine listens. */
module Extensions {

  // The indexed extensions, with their leading dot, in the groups the source
  // lists them in. A Go `map[string]bool` whose values are all true is kept
  // as the set of its keys.
  const PlainText: set<string> := {".txt", ".md", ".rtf"}
  const SourceCode: set<string> := {".js", ".jsx", ".ts", ".tsx", ".py", ".go", ".java", ".kt",
    ".c", ".cpp", ".h", ".rb", ".php", ".swift", ".rs", ".sh", ".bash"}
  const WebAndConfig: set<string> := {".html", ".css", ".scss", ".json", ".yaml", ".yml", ".xml", ".sql"}
  const Documents: set<string> := {".pdf", ".docx", ".xlsx", ".pptx", ".doc", ".xls", ".ppt", ".csv", ".log"}
  const Media: set<string> := {".mp4", ".mov", ".avi", ".mp3", ".wav", ".flac",
    ".jpg", ".jpeg", ".png", ".gif", ".bmp", ".svg", ".webp"}

  /** `AllowedExtensions`: every extension that is indexed. */
  const AllowedExtensions: set<string> := PlainText + SourceCode + WebAndConfig + Documents + Media

  /** Extensions indexed for their metadata only. A Go `map[string]bool` whose values are all
      true, kept as the set of its keys. */
  const IgnoredContentExtensions: set<string> := {
    ".pdf", ".docx", ".xlsx", ".pptx",
    ".doc", ".xls", ".ppt",
    ".csv",
    ".log",
    ".mp4", ".mov", ".avi", ".mp3", ".wav", ".flac",
    ".jpg", ".jpeg", ".png", ".gif", ".bmp", ".svg",
    ".webp"}

  /** `IsAllowedExtension`: an exact, case-sensitive key test. */
  predicate IsAllowedExtension(ext: string) {
    ext in AllowedExtensions
  }

  /** `ShouldIgnoreContent`: an exact, case-sensitive key test. */
  predicate ShouldIgnoreContent(ext: string) {
    ext in IgnoredContentExtensions
  }

  /** The metadata-only table names exactly the document and media groups,
      so every extension whose content is skipped is also indexed. */
  lemma IgnoredContentIsAllowed()
    ensures IgnoredContentExtensions == Documents + Media
    ensures forall e :: ShouldIgnoreContent(e) ==> IsAllowedExtension(e)
  {
  }

  /** The text, source and configuration groups share no extension with the
      metadata-only table. */
  lemma ReadGroupsDisjoint()
    ensures forall e | e in PlainText + SourceCode + WebAndConfig :: e !in IgnoredContentExtensions
  {
    IgnoredContentIsAllowed();
    PlainTextNotDocuments();
    PlainTextNotMedia();
    SourceCodeNotDocuments();
    SourceCodeNotMedia();
    WebAndConfigNotDocuments();
    WebAndConfigNotMedia();
  }

  // Each read group against each metadata-only group, one pair at a time.

  lemma PlainTextNotDocuments()
    ensures PlainText !! Documents
  {
  }

  lemma PlainTextNotMedia()
    ensures PlainText !! Media
  {
  }

  lemma SourceCodeNotDocuments()
    ensures SourceCode !! Documents
  {
  }

  lemma SourceCodeNotMedia()
    ensures SourceCode !! Media
  {
  }

  lemma WebAndConfigNotDocuments()
    ensures WebAndConfig !! Documents
  {
  }

  lemma WebAndConfigNotMedia()
    ensures WebAndConfig !! Media
  {
  }

  /** The indexed extensions whose content is read are exactly the text,
      source and configuration ones. */
  lemma {:induction false} ContentIsReadExactly(e: string)
    ensures IsAllowedExtension(e) && !ShouldIgnoreContent(e) <==> e in PlainText + SourceCode + WebAndConfig
  {
    IgnoredContentIsAllowed();
    ReadGroupsDisjoint();
  }

  /** Every key of a group is a dot followed by at least one character that
      is not an upper-case letter. */
  predicate DotKeys(g: set<string>) {
    forall e | e in g :: |e| >= 2 && e[0] == '.' && !('A' <= e[1] <= 'Z')
  }

  lemma PlainTextKeysAreDotted()
    ensures DotKeys(PlainText)
  {
  }

  lemma SourceCodeKeysAreDotted()
    ensures DotKeys(SourceCode)
  {
  }

  lemma WebAndConfigKeysAreDotted()
    ensures DotKeys(WebAndConfig)
  {
  }

  lemma DocumentsKeysAreDotted()
    ensures DotKeys(Documents)
  {
  }

  lemma MediaKeysAreDotted()
    ensures DotKeys(Media)
  {
  }

  /** A string that is not a dot followed by a non-upper-case character is
      never an indexed extension. */
  lemma NotAKey(x: string)
    requires |x| < 2 || x[0] != '.' || 'A' <= x[1] <= 'Z'
    ensures !IsAllowedExtension(x)
  {
    PlainTextKeysAreDotted();
    SourceCodeKeysAreDotted();
    WebAndConfigKeysAreDotted();
    DocumentsKeysAreDotted();
    MediaKeysAreDotted();
  }

  /** Keys carry their leading dot and are matched exactly. */
  lemma ExactMatching()
    ensures IsAllowedExtension(".md") && !IsAllowedExtension("md") && !IsAllowedExtension(".MD")
  {
    assert ".md" in PlainText;
    NotAKey("md");
    NotAKey(".MD");
  }

  /** A file without an extension is never indexed. */
  lemma NoExtensionNotAllowed()
    ensures !IsAllowedExtension("")
  {
    NotAKey("");
  }

  /** Source and text files have their content read; documents do not. */
  lemma SourceContentIsRead()
    ensures !ShouldIgnoreContent(".go") && !ShouldIgnoreContent(".ts") && !ShouldIgnoreContent(".md")
    ensures ShouldIgnoreContent(".pdf") && !ShouldIgnoreContent(".PDF")
  {
  }
}

module Config {
  import opened Text
  import opened Wrappers

  const MeilisearchURL: string := "http://127.0.0.1:58273"
  const MeilisearchPort: nat := 58273
  const IndexName: string := "files"

  // Directory names the walk never enters, in the groups the source lists
  // them in (kept as the key set of an all-true Go map).
  const SystemDirectories: set<string> := {"Library", "Applications", "System", "__MACOSX"}
  const DependencyDirectories: set<string> := {"node_modules", "__pycache__", "venv", "env",
    "site-packages", "vendor", "target", "bin", "obj", "packages"}
  const OutputDirectories: set<string> := {"build", "dist", "out", "_build", "cache",
    "coverage", "htmlcov", "logs", "tmp", "temp"}
  const ToolDirectories: set<string> := {"Pods", "Carthage", "DerivedData", "deps", "_deps"}

  /** `IgnoredDirectories`. */
  const IgnoredDirectories: set<string> :=
    SystemDirectories + DependencyDirectories + OutputDirectories + ToolDirectories

  /** `ShouldIgnoreDirectory`: an exact, case-sensitive test on the base name. */
  predicate ShouldIgnoreDirectory(dirName: string) {
    dirName in IgnoredDirectories
  }

  /** Matching is exact and case-sensitive. */
  lemma DirectoryMatchingIsExact()
    ensures ShouldIgnoreDirectory("node_modules") && ShouldIgnoreDirectory("Library")
    ensures !ShouldIgnoreDirectory("library") && !ShouldIgnoreDirectory("Node_modules")
    ensures !ShouldIgnoreDirectory("")
  {
    assert "node_modules" in DependencyDirectories && "Library" in SystemDirectories;
    assert "library" !in SystemDirectories && "Node_modules" !in SystemDirectories;
    assert "library" !in DependencyDirectories && "Node_modules" !in DependencyDirectories;
    assert "library" !in OutputDirectories && "Node_modules" !in OutputDirectories;
    assert "library" !in ToolDirectories && "Node_modules" !in ToolDirectories;
    assert "" !in SystemDirectories && "" !in DependencyDirectories;
    assert "" !in OutputDirectories && "" !in ToolDirectories;
  }

  /** The empty name and any path with a '/' in it never match: the test is
      on base names only. */
  lemma PathsNeverMatch(n: string)
    ensures !ShouldIgnoreDirectory("")
    ensures '/' in n ==> !ShouldIgnoreDirectory(n)
  {
    SystemAreNames();
    DependencyAreNames();
    OutputAreNames();
    ToolAreNames();
  }

  /** Every name of a group is non-empty and has no '/'. */
  predicate BaseNames(g: set<string>) {
    forall k | k in g :: k != "" && '/' !in k
  }

  lemma SystemAreNames()
    ensures BaseNames(SystemDirectories)
  {
  }

  lemma DependencyAreNames()
    ensures BaseNames(DependencyDirectories)
  {
  }

  lemma OutputAreNames()
    ensures BaseNames(OutputDirectories)
  {
  }

  lemma ToolAreNames()
    ensures BaseNames(ToolDirectories)
  {
  }

  function DigitValue(c: char): nat
    requires '0' <= c <= '9'
  {
    c as nat - '0' as nat
  }

  /** The value of a non-empty string of decimal digits. */
  function Decimal(s: string): Option<nat> {
    if s == [] || !('0' <= s[|s| - 1] <= '9') then None
    else if |s| == 1 then Some(DigitValue(s[0]))
    else match Decimal(s[..|s| - 1])
      case None => None
      case Some(v) => Some(10 * v + DigitValue(s[|s| - 1]))
  }

  /** The port of the engine URL, after its last ':'. */
  function UrlPort(url: string): Option<nat> {
    Decimal(AfterLast(url, ':'))
  }

  /** The URL the clients use names the same port as the port constant. */
  lemma UrlNamesPort(url: string)
    requires url == MeilisearchURL
    ensures UrlPort(url) == Some(MeilisearchPort)
  {
    var port := "58273";
    assert url == "http://127.0.0.1" + ":" + port;
    AfterLastColon(url, "http://127.0.0.1", port);
    PortDigits(port);
  }

  lemma PortDigits(p: string)
    requires p == "58273"
    ensures Decimal(p) == Some(58273)
  {
    assert p[..1] == "5" && Decimal(p[..1]) == Some(5);
    assert p[..2][..1] == p[..1] && Decimal(p[..2]) == Some(58);
    assert p[..3][..2] == p[..2] && Decimal(p[..3]) == Some(582);
    assert p[..4][..3] == p[..3] && Decimal(p[..4]) == Some(5827);
    assert p[..4] == p[..|p| - 1];
  }

  lemma {:induction false} AfterLastColon(url: string, host: string, port: string)
    requires url == host + ":" + port && ':' !in port
    ensures AfterLast(url, ':') == port
    decreases |port|
  {
    if port != [] {
      var init := port[..|port| - 1];
      assert url[..|url| - 1] == host + ":" + init;
      AfterLastColon(url[..|url| - 1], host, init);
      assert port == init + [port[|port| - 1]];
    }
  }
}
