// The `memex index` command: argument parsing and the hand-over to the
// directory indexer.

module IndexCommand {
  import opened Wrappers
  import opened Text
  import Documents
  import Indexer

  datatype UsageError = MissingDirectory | MissingPattern

  /** What a successful parse yields: the directory and the ignore patterns in
      the order they were given. */
  datatype IndexRequest = IndexRequest(directory: string, ignorePatterns: seq<string>)

  const IgnoreFlag: string := "--ignore"

  /** The trimmed, non-empty pieces, in order. */
  function Kept(parts: seq<string>): (r: seq<string>)
    ensures |r| <= |parts|
    decreases |parts|
  {
    if parts == [] then []
    else
      var p := Trim(parts[|parts| - 1]);
      Kept(parts[..|parts| - 1]) + (if p != "" then [p] else [])
  }

  /** The patterns one `--ignore` value contributes: split on commas, trimmed,
      empty pieces dropped. */
  function PatternsOf(value: string): seq<string> {
    Kept(Split(value, ','))
  }

  /** The flag loop from argument `i` on, with `acc` gathered so far. */
  function Scan(args: seq<string>, i: nat, acc: seq<string>): (r: Result<seq<string>, UsageError>)
    ensures r.Err? ==> r.error == MissingPattern
    ensures r.Ok? ==> acc <= r.value
    decreases |args| - i
  {
    if i >= |args| then Ok(acc)
    else if args[i] == IgnoreFlag then
      if i + 1 >= |args| then Err(MissingPattern)
      else Scan(args, i + 2, acc + PatternsOf(args[i + 1]))
    else Scan(args, i + 1, acc)
  }

  /** The parse `Index` performs before it starts indexing. */
  function ParseIndex(args: seq<string>): (r: Result<IndexRequest, UsageError>)
    ensures r == Err(MissingDirectory) <==> args == []
    ensures r.Ok? ==> r.value.directory == args[0]
  {
    if |args| < 1 then Err(MissingDirectory)
    else match Scan(args, 1, [])
      case Ok(ps) => Ok(IndexRequest(args[0], ps))
      case Err(e) => Err(e)
  }

  /** The inner loop of `Index` over one value's comma-separated pieces. */
  method AppendPatterns(patterns: seq<string>, value: string) returns (extended: seq<string>)
    ensures extended == patterns + PatternsOf(value)
  {
    var parts := Split(value, ',');
    extended := patterns;
    assert parts[..0] == [];
    for j := 0 to |parts|
      invariant extended == patterns + Kept(parts[..j])
    {
      var p := Trim(parts[j]);
      KeptExtend(patterns, parts, j);
      if p != "" {
        extended := extended + [p];
      }
    }
    assert parts[..|parts|] == parts;
  }

  /** The parsing loop of `Index`. */
  method ParseIndexArgs(args: seq<string>) returns (r: Result<IndexRequest, UsageError>)
    ensures r == ParseIndex(args)
  {
    if |args| < 1 {
      return Err(MissingDirectory);
    }
    var directory := args[0];
    var patterns: seq<string> := [];
    var i := 1;
    while i < |args|
      invariant 1 <= i <= |args|
      invariant Scan(args, 1, []) == Scan(args, i, patterns)
      decreases |args| - i
    {
      if args[i] == IgnoreFlag {
        if i + 1 >= |args| {
          return Err(MissingPattern);
        }
        patterns := AppendPatterns(patterns, args[i + 1]);
        i := i + 1;
      }
      i := i + 1;
    }
    r := Ok(IndexRequest(directory, patterns));
  }

  lemma KeptStep(parts: seq<string>, j: nat)
    requires j < |parts|
    ensures Kept(parts[..j + 1]) == Kept(parts[..j]) + (if Trim(parts[j]) != "" then [Trim(parts[j])] else [])
  {
    assert parts[..j + 1][..j] == parts[..j];
  }

  /** One more piece extends the gathered list by that piece's contribution. */
  lemma KeptExtend(patterns: seq<string>, parts: seq<string>, j: nat)
    requires j < |parts|
    ensures patterns + Kept(parts[..j + 1])
            == patterns + Kept(parts[..j]) + (if Trim(parts[j]) != "" then [Trim(parts[j])] else [])
  {
    KeptStep(parts, j);
    ConcatAssoc(patterns, Kept(parts[..j]), if Trim(parts[j]) != "" then [Trim(parts[j])] else []);
  }

  /** Every kept pattern is non-empty and already trimmed. */
  lemma {:induction false} KeptAreTrimmed(parts: seq<string>)
    ensures forall k | 0 <= k < |Kept(parts)| :: Kept(parts)[k] != "" && Trim(Kept(parts)[k]) == Kept(parts)[k]
    decreases |parts|
  {
    if parts != [] {
      KeptAreTrimmed(parts[..|parts| - 1]);
      TrimIdempotent(parts[|parts| - 1]);
    }
  }

  /** Later `--ignore` flags add to the earlier ones rather than replace them:
      the scan from any state is the scan from nothing, prefixed by what was
      already gathered. */
  lemma {:induction false} ScanAccumulates(args: seq<string>, i: nat, acc: seq<string>)
    ensures Scan(args, i, acc) == match Scan(args, i, []) case Ok(ps) => Ok(acc + ps) case Err(e) => Err(e)
    decreases |args| - i
  {
    if i < |args| {
      if args[i] == IgnoreFlag {
        if i + 1 < |args| {
          var ps := PatternsOf(args[i + 1]);
          ScanAccumulates(args, i + 2, acc + ps);
          ScanAccumulates(args, i + 2, [] + ps);
          match Scan(args, i + 2, []) {
            case Ok(qs) =>
              assert acc + ps + qs == acc + (ps + qs);
              assert [] + ps == ps;
            case Err(_) =>
          }
        }
      } else {
        ScanAccumulates(args, i + 1, acc);
        ScanAccumulates(args, i + 1, []);
      }
    } else {
      assert acc + [] == acc;
    }
  }

  /** Every pattern a successful parse yields is non-empty and trimmed. */
  lemma {:induction false} ParsedPatternsAreTrimmed(args: seq<string>, i: nat, acc: seq<string>)
    requires forall k | 0 <= k < |acc| :: acc[k] != "" && Trim(acc[k]) == acc[k]
    ensures Scan(args, i, acc).Ok? ==>
            forall k | 0 <= k < |Scan(args, i, acc).value| :: Scan(args, i, acc).value[k] != ""
                                                             && Trim(Scan(args, i, acc).value[k]) == Scan(args, i, acc).value[k]
    decreases |args| - i
  {
    if i < |args| {
      if args[i] == IgnoreFlag {
        if i + 1 < |args| {
          var ps := PatternsOf(args[i + 1]);
          KeptAreTrimmed(Split(args[i + 1], ','));
          var acc' := acc + ps;
          forall k | 0 <= k < |acc'|
            ensures acc'[k] != "" && Trim(acc'[k]) == acc'[k]
          {
            if k >= |acc| {
              assert acc'[k] == ps[k - |acc|];
            }
          }
          ParsedPatternsAreTrimmed(args, i + 2, acc');
        }
      } else {
        ParsedPatternsAreTrimmed(args, i + 1, acc);
      }
    }
  }

  /** A final `--ignore` with nothing after it is a usage error, provided no
      earlier `--ignore` swallowed it as its value. */
  lemma {:induction false} TrailingFlagIsError(args: seq<string>, i: nat, acc: seq<string>)
    requires 1 <= i < |args| && args[|args| - 1] == IgnoreFlag
    requires forall k | i <= k < |args| - 1 :: args[k] != IgnoreFlag
    ensures Scan(args, i, acc) == Err(MissingPattern)
    decreases |args| - i
  {
    if i < |args| - 1 {
      TrailingFlagIsError(args, i + 1, acc);
    }
  }

  /** Without any `--ignore`, the pattern list is empty and every argument
      after the directory is ignored. */
  lemma {:induction false} OtherArgumentsIgnored(args: seq<string>, i: nat)
    requires forall k | i <= k < |args| :: args[k] != IgnoreFlag
    ensures Scan(args, i, []) == Ok([])
    decreases |args| - i
  {
    if i < |args| {
      OtherArgumentsIgnored(args, i + 1);
    }
  }

  /** Wherever `--ignore` stands with an argument after it, that argument is
      its value, whatever it says, and the scan resumes after it. */
  lemma FlagValueConsumed(args: seq<string>, i: nat, acc: seq<string>)
    requires i + 1 < |args| && args[i] == IgnoreFlag
    ensures Scan(args, i, acc) == Scan(args, i + 2, acc + PatternsOf(args[i + 1]))
  {
  }

  /** So `d --ignore --ignore` takes the second `--ignore` as the value of the
      first rather than as a flag lacking its pattern. */
  lemma FlagValueIsNotAFlag(args: seq<string>)
    requires |args| == 3 && args[1] == IgnoreFlag && args[2] == IgnoreFlag
    ensures ParseIndex(args) == Ok(IndexRequest(args[0], PatternsOf(args[2])))
  {
    FlagValueConsumed(args, 1, []);
    assert [] + PatternsOf(args[2]) == PatternsOf(args[2]);
  }

  /** `Index`: parse, then index the directory, whose file tree is `root`.
      Usage errors stop before anything is indexed. */
  method Index(lib: Indexer.PathLib, home: Option<string>, root: Indexer.Entry, now: int, args: seq<string>)
    returns (r: Result<seq<Documents.Document>, UsageError>)
    ensures ParseIndex(args).Err? ==> r == Err(ParseIndex(args).error)
    ensures ParseIndex(args).Ok? ==>
            var req := ParseIndex(args).value;
            r.Ok? && r.value == Indexer.WalkTally(
              Indexer.WalkConfig(lib, Indexer.ExpandAll(lib, home, req.ignorePatterns), now), req.directory, root).documents
  {
    var parsed := ParseIndexArgs(args);
    if parsed.Err? {
      return Err(parsed.error);
    }
    var documents, _ := Indexer.IndexDirectory(lib, home, parsed.value.directory, root,
                                               parsed.value.ignorePatterns, now);
    r := Ok(documents);
  }
}
