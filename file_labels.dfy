/** The file-type badge and the displayed file name of a result row
    (`getFileType` and the name extraction in both search components). */
module FileLabels {
  import opened Text
  import opened Wrappers

  /** Label table of the inline bar. */
  const BarLabels: map<string, string> := map[
    "js" := "JS", "ts" := "TS", "jsx" := "JSX", "tsx" := "TSX",
    "py" := "PY", "go" := "GO", "java" := "JAVA",
    "cpp" := "C++", "c" := "C", "rs" := "RS",
    "md" := "MD", "json" := "JSON", "yaml" := "YML",
    "html" := "HTML", "css" := "CSS", "scss" := "SCSS"]

  /** Label table of the modal; it also knows "yml" and spells the YAML label out. */
  const ModalLabels: map<string, string> := map[
    "js" := "JS", "ts" := "TS", "jsx" := "JSX", "tsx" := "TSX",
    "py" := "PY", "go" := "GO", "java" := "JAVA",
    "cpp" := "C++", "c" := "C", "rs" := "RS",
    "md" := "MD", "json" := "JSON", "yaml" := "YAML", "yml" := "YAML",
    "html" := "HTML", "css" := "CSS", "scss" := "SCSS"]

  /** How many upper-cased characters of an unknown extension each variant shows. */
  const BarFallbackWidth: nat := 3
  const ModalFallbackWidth: nat := 4

  datatype Presentation = Bar | Modal

  function Labels(p: Presentation): map<string, string> {
    if p == Bar then BarLabels else ModalLabels
  }

  function FallbackWidth(p: Presentation): nat {
    if p == Bar then BarFallbackWidth else ModalFallbackWidth
  }

  /** `path.split('.').pop()?.toLowerCase() || ''`: the lower-cased text after
      the last '.' anywhere in the path (the whole path when it has no '.'). */
  function ExtensionKey(path: string): (key: string)
    ensures |key| <= |path| && '.' !in key
  {
    LastPieceIsAfterLast(path, '.');
    Lower(LastPiece(path, '.'))
  }

  /** `typeMap[ext] || ext.toUpperCase().slice(0, width) || 'FILE'`, reading only
      the table's own entries. */
  function LabelFor(table: map<string, string>, width: nat, key: string): string {
    if key in table && table[key] != "" then table[key]
    else if Take(Upper(key), width) != "" then Take(Upper(key), width)
    else "FILE"
  }

  /** `getFileType` of the given presentation. */
  function FileType(p: Presentation, path: string): string {
    LabelFor(Labels(p), FallbackWidth(p), ExtensionKey(path))
  }

  /** The badge is never empty and at most four characters wide; it comes
      from the table when the key is there, otherwise from the upper-cased key
      cut to the variant's width, and is 'FILE' only for an empty key. */
  lemma LabelShape(p: Presentation, path: string)
    ensures var badge := FileType(p, path); var key := ExtensionKey(path);
      && badge != "" && |badge| <= 4
      && (key in Labels(p) ==> badge == Labels(p)[key])
      && (key !in Labels(p) && key != "" ==> badge == Upper(key)[..Min(FallbackWidth(p), |key|)])
      && (key == "" ==> badge == "FILE")
  {
    BarLabelsShort();
    ModalLabelsShort();
  }

  lemma BarLabelsShort()
    ensures forall k | k in BarLabels :: BarLabels[k] != "" && |BarLabels[k]| <= 4
  {
  }

  lemma ModalLabelsShort()
    ensures forall k | k in ModalLabels :: ModalLabels[k] != "" && |ModalLabels[k]| <= 4
  {
  }

  /** The key is empty exactly when the path is empty or ends in '.'. */
  lemma EmptyKeyIff(path: string)
    ensures ExtensionKey(path) == "" <==> path == "" || path[|path| - 1] == '.'
  {
    LastPieceIsAfterLast(path, '.');
    if path != [] && path[|path| - 1] != '.' {
      assert AfterLast(path, '.') == AfterLast(path[..|path| - 1], '.') + [path[|path| - 1]];
    }
  }

  /** Both YAML spellings get the same badge in each presentation: 'YML' in
      the bar (one by the table, one by the three-character fallback) and
      'YAML' in the modal. */
  lemma YamlSpellingsAgree(p: Presentation, a: string, b: string)
    requires ExtensionKey(a) == "yaml" && ExtensionKey(b) == "yml"
    ensures FileType(p, a) == FileType(p, b) == (if p == Bar then "YML" else "YAML")
  {
    assert Upper("yml") == "YML";
  }

  /** The key is everything after the last '.', slashes included. */
  lemma {:induction false} KeyAfterLastDot(path: string, prefix: string, rest: string)
    requires path == prefix + "." + rest && '.' !in rest
    ensures ExtensionKey(path) == Lower(rest)
  {
    LastPieceIsAfterLast(path, '.');
    AfterLastOfTail(prefix, rest);
  }

  lemma {:induction false} AfterLastOfTail(prefix: string, rest: string)
    requires '.' !in rest
    ensures AfterLast(prefix + "." + rest, '.') == rest
  {
    if rest != [] {
      var s := prefix + "." + rest;
      assert s[..|s| - 1] == prefix + "." + rest[..|rest| - 1];
      AfterLastOfTail(prefix, rest[..|rest| - 1]);
      assert rest == rest[..|rest| - 1] + [rest[|rest| - 1]];
    }
  }

  /** So a dot in a directory name labels a file that has no extension:
      '/a.b/README' reads as 'B/R' in the bar and 'B/RE' in the modal. */
  lemma DotInDirectoryName(path: string)
    requires path == "/a.b/README"
    ensures FileType(Bar, path) == "B/R"
    ensures FileType(Modal, path) == "B/RE"
  {
    ReadmeKey(path);
    ReadmeKeyUnlisted();
    ReadmeFallback("b/readme");
  }

  lemma ReadmeFallback(key: string)
    requires key == "b/readme"
    ensures Take(Upper(key), 3) == "B/R" && Take(Upper(key), 4) == "B/RE"
  {
    var u := Upper(key);
    assert u[0] == 'B' && u[1] == '/' && u[2] == 'R' && u[3] == 'E';
    assert u[..3] == "B/R";
    assert u[..4] == "B/RE";
  }

  lemma ReadmeKey(path: string)
    requires path == "/a.b/README"
    ensures ExtensionKey(path) == "b/readme"
  {
    var rest := "b/README";
    assert forall i | 0 <= i < |rest| :: rest[i] != '.';
    KeyAfterLastDot(path, "/a", rest);
    ReadmeLower(rest);
  }

  lemma ReadmeLower(rest: string)
    requires rest == "b/README"
    ensures Lower(rest) == "b/readme"
  {
    var l := Lower(rest);
    assert l[0] == 'b' && l[1] == '/' && l[2] == 'r' && l[3] == 'e';
    assert l[4] == 'a' && l[5] == 'd' && l[6] == 'm' && l[7] == 'e';
  }

  lemma ReadmeKeyUnlisted()
    ensures "b/readme" !in BarLabels && "b/readme" !in ModalLabels
  {
    assert forall k | k in ModalLabels :: |k| < 8;
  }

  lemma {:induction false} AfterLastLower(s: string)
    ensures AfterLast(Lower(s), '.') == Lower(AfterLast(s, '.'))
  {
    if s != [] {
      var init, c := s[..|s| - 1], s[|s| - 1];
      var ls := Lower(s);
      assert ls[..|ls| - 1] == Lower(init) && ls[|ls| - 1] == LowerChar(c);
      AfterLastLower(init);
      if c != '.' {
        assert LowerChar(c) != '.';
        LowerSnoc(AfterLast(init, '.'), c);
      }
    }
  }

  lemma LowerSnoc(a: string, c: char)
    ensures Lower(a + [c]) == Lower(a) + [LowerChar(c)]
  {
  }

  lemma LowerKeepsLowercase(s: string)
    requires forall i | 0 <= i < |s| :: !('A' <= s[i] <= 'Z')
    ensures Lower(s) == s
  {
  }

  lemma LowerIdempotent(s: string)
    ensures Lower(Lower(s)) == Lower(s)
  {
  }

  /** The badge ignores letter case in the path. */
  lemma {:induction false} LabelIgnoresCase(p: Presentation, path: string)
    ensures FileType(p, Lower(path)) == FileType(p, path)
  {
    LastPieceIsAfterLast(path, '.');
    LastPieceIsAfterLast(Lower(path), '.');
    AfterLastLower(path);
    LowerIdempotent(AfterLast(path, '.'));
  }

  /** What a lookup in a JavaScript object literal finds for a key the literal
      does not define itself but inherits from `Object.prototype`, as the badge
      template would print it. Only lower-case keys matter here, since the
      key has been lower-cased. */
  function InheritedProperty(key: string): Option<string> {
    if key == "constructor" then Some("function Object() { [native code] }")
    else if key == "__proto__" then Some("[object Object]")
    else None
  }

  /** `getFileType` as written: `typeMap[ext]` also sees inherited properties,
      which are truthy, so they win over the fallback. */
  function FileTypeAsWritten(p: Presentation, path: string): string {
    var key := ExtensionKey(path);
    if key in Labels(p) then Labels(p)[key]
    else if InheritedProperty(key).Some? then InheritedProperty(key).value
    else LabelFor(Labels(p), FallbackWidth(p), key)
  }

  /** A file whose last '.'-piece lower-cases to 'constructor' (such as
      'notes.constructor' or 'x.Constructor') gets a badge far wider than four
      characters in both presentations. */
  lemma InheritedKeyWidensBadge(p: Presentation, path: string)
    requires ExtensionKey(path) == "constructor"
    ensures |FileTypeAsWritten(p, path)| > 4
    ensures |FileType(p, path)| <= 4
  {
    ConstructorUnlisted("constructor");
    LabelShape(p, path);
  }

  /** The first example path above does reach the inherited key. */
  lemma ConstructorKey(path: string)
    requires path == "notes.constructor"
    ensures ExtensionKey(path) == "constructor"
  {
    var key := "constructor";
    assert path == "notes" + "." + key;
    KeyAfterLastDot(path, "notes", key);
    ConstructorIsLowercase(key);
  }

  lemma ConstructorIsLowercase(key: string)
    requires key == "constructor"
    ensures Lower(key) == key
  {
    assert forall i | 0 <= i < |key| :: 'a' <= key[i] <= 'z';
    LowerKeepsLowercase(key);
  }

  lemma ConstructorUnlisted(key: string)
    requires key == "constructor"
    ensures key !in ModalLabels && key !in BarLabels
  {
    assert forall k | k in ModalLabels :: |k| < 11;
  }

  /** Away from the two inherited keys the code as written and the corrected
      lookup agree. */
  lemma AsWrittenAgreesElsewhere(p: Presentation, path: string)
    requires ExtensionKey(path) != "constructor" && ExtensionKey(path) != "__proto__"
    ensures FileTypeAsWritten(p, path) == FileType(p, path)
  {
  }

  /** `result.path.split('/').pop() || result.path`: the last path element,
      or the whole path when that element is empty. */
  function DisplayName(path: string): (name: string)
    ensures |name| <= |path| && name == path[|path| - |name|..]
    ensures path != "" ==> name != ""
    ensures name == path || ('/' !in name && path[|path| - |name| - 1] == '/')
    ensures name == (if AfterLast(path, '/') != "" then AfterLast(path, '/') else path)
  {
    LastPieceIsAfterLast(path, '/');
    var last := LastPiece(path, '/');
    if last != "" then last else path
  }
}
