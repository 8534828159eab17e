/** String helpers shared by the Go and TypeScript parts of the model.
    Case mapping and whitespace are ASCII only: `toLowerCase`, `toUpperCase`,
    JavaScript `trim` and Go `strings.TrimSpace` are modelled on that fixed set. */
module Text {

  /** The whitespace set used by trimming: space, tab, line feed, vertical tab,
      form feed and carriage return. */
  predicate IsSpace(c: char) {
    c == ' ' || c == '\t' || c == '\n' || c == '\r' || c as int == 11 || c as int == 12
  }

  /** Drops leading whitespace. */
  function TrimStart(s: string): (r: string)
    ensures |r| <= |s| && r == s[|s| - |r|..]
    ensures r == [] || !IsSpace(r[0])
  {
    if s != [] && IsSpace(s[0]) then TrimStart(s[1..]) else s
  }

  /** Drops trailing whitespace. */
  function TrimEnd(s: string): (r: string)
    ensures |r| <= |s| && r == s[..|r|]
    ensures r == [] || !IsSpace(r[|r| - 1])
  {
    if s != [] && IsSpace(s[|s| - 1]) then TrimEnd(s[..|s| - 1]) else s
  }

  /** JavaScript `String.prototype.trim` and Go `strings.TrimSpace`. */
  function Trim(s: string): (r: string)
    ensures r == [] || (!IsSpace(r[0]) && !IsSpace(r[|r| - 1]))
  {
    TrimEnd(TrimStart(s))
  }

  /** Everything `TrimStart` drops is whitespace. */
  lemma {:induction false} TrimStartDropsSpaces(s: string)
    ensures forall k :: 0 <= k < |s| - |TrimStart(s)| ==> IsSpace(s[k])
  {
    if s != [] && IsSpace(s[0]) {
      TrimStartDropsSpaces(s[1..]);
    }
  }

  /** Everything `TrimEnd` drops is whitespace. */
  lemma {:induction false} TrimEndDropsSpaces(s: string)
    ensures forall k :: |TrimEnd(s)| <= k < |s| ==> IsSpace(s[k])
  {
    if s != [] && IsSpace(s[|s| - 1]) {
      TrimEndDropsSpaces(s[..|s| - 1]);
    }
  }

  /** Trimming yields the empty string exactly when the input is all whitespace. */
  lemma TrimEmptyIff(s: string)
    ensures Trim(s) == [] <==> forall k :: 0 <= k < |s| ==> IsSpace(s[k])
  {
    var t := TrimStart(s);
    TrimStartDropsSpaces(s);
    TrimEndDropsSpaces(t);
    if Trim(s) == [] {
      assert t == [];
    } else {
      assert Trim(s)[0] == s[|s| - |t|] && !IsSpace(s[|s| - |t|]);
    }
  }

  /** Trimming a trimmed string changes nothing. */
  lemma TrimIdempotent(s: string)
    ensures Trim(Trim(s)) == Trim(s)
  {
    var t := Trim(s);
    if t != [] {
      assert TrimStart(t) == t;
      assert TrimEnd(t) == t;
    }
  }

  function LowerChar(c: char): char {
    if 'A' <= c <= 'Z' then (c as int + 32) as char else c
  }

  function UpperChar(c: char): char {
    if 'a' <= c <= 'z' then (c as int - 32) as char else c
  }

  /** ASCII `toLowerCase`. */
  function Lower(s: string): (r: string)
    ensures |r| == |s|
    ensures forall i :: 0 <= i < |s| ==> r[i] == LowerChar(s[i])
  {
    seq(|s|, i requires 0 <= i < |s| => LowerChar(s[i]))
  }

  /** ASCII `toUpperCase`. */
  function Upper(s: string): (r: string)
    ensures |r| == |s|
    ensures forall i :: 0 <= i < |s| ==> r[i] == UpperChar(s[i])
  {
    seq(|s|, i requires 0 <= i < |s| => UpperChar(s[i]))
  }

  function Min(a: int, b: int): int { if a <= b then a else b }

  /** JavaScript `s.slice(0, n)` for n >= 0. */
  function Take(s: string, n: nat): (r: string)
    ensures |r| == Min(n, |s|) && r <= s
  {
    if n <= |s| then s[..n] else s
  }

  /** Position of the first `c` in `s`. */
  function FirstIndex(s: string, c: char): (i: nat)
    requires c in s
    ensures i < |s| && s[i] == c && c !in s[..i]
  {
    if s[0] == c then 0 else 1 + FirstIndex(s[1..], c)
  }

  /** JavaScript `s.split(c)` and Go `strings.Split(s, c)` for a one-character
      separator: the pieces between the separators, one more piece than there
      are separators (so splitting "" gives [""]). */
  function Split(s: string, c: char): (parts: seq<string>)
    ensures |parts| >= 1
    decreases |s|
  {
    if c !in s then [s]
    else
      var i := FirstIndex(s, c);
      [s[..i]] + Split(s[i + 1..], c)
  }

  /** Concatenation regroups freely. */
  lemma ConcatAssoc<T>(a: seq<T>, b: seq<T>, c: seq<T>)
    ensures a + b + c == a + (b + c)
  {
  }

  /** The inverse of `Split`: the pieces glued back with the separator. */
  function JoinWith(parts: seq<string>, c: char): string
    requires |parts| >= 1
  {
    if |parts| == 1 then parts[0] else parts[0] + [c] + JoinWith(parts[1..], c)
  }

  /** Splitting loses nothing and no piece contains the separator. */
  lemma {:induction false} SplitJoin(s: string, c: char)
    ensures JoinWith(Split(s, c), c) == s
    ensures forall i :: 0 <= i < |Split(s, c)| ==> c !in Split(s, c)[i]
    decreases |s|
  {
    if c in s {
      var i := FirstIndex(s, c);
      var parts := Split(s, c);
      SplitJoin(s[i + 1..], c);
      assert parts[1..] == Split(s[i + 1..], c);
      assert s == s[..i] + [c] + s[i + 1..];
    }
  }

  /** The text after the last occurrence of `c`, or all of `s` when `c` does
      not occur. */
  function AfterLast(s: string, c: char): (r: string)
    ensures |r| <= |s| && r == s[|s| - |r|..]
    ensures c !in r
    ensures |r| < |s| ==> s[|s| - |r| - 1] == c
  {
    if s == [] then []
    else if s[|s| - 1] == c then []
    else AfterLast(s[..|s| - 1], c) + [s[|s| - 1]]
  }

  /** `s.split(c).pop()`: the last piece of the split. */
  function LastPiece(s: string, c: char): string {
    var parts := Split(s, c);
    parts[|parts| - 1]
  }

  /** The last piece of a split is the text after the last separator. */
  lemma {:induction false} LastPieceIsAfterLast(s: string, c: char)
    ensures LastPiece(s, c) == AfterLast(s, c)
  {
    SplitJoin(s, c);
    var parts := Split(s, c);
    var last := parts[|parts| - 1];
    JoinEndsWithLast(parts, c);
    assert c !in last;
    assert |last| <= |s| && last == s[|s| - |last|..];
    assert |last| < |s| ==> s[|s| - |last| - 1] == c;
    LastSegmentUnique(s, c, last, AfterLast(s, c));
  }

  /** At most one suffix of `s` is free of `c` and either is all of `s` or
      follows a `c`. */
  lemma LastSegmentUnique(s: string, c: char, a: string, b: string)
    requires |a| <= |s| && a == s[|s| - |a|..] && c !in a
    requires |a| < |s| ==> s[|s| - |a| - 1] == c
    requires |b| <= |s| && b == s[|s| - |b|..] && c !in b
    requires |b| < |s| ==> s[|s| - |b| - 1] == c
    ensures a == b
  {
  }

  /** The glued string ends with the last piece, preceded by a separator when
      there is more than one piece. */
  lemma {:induction false} JoinEndsWithLast(parts: seq<string>, c: char)
    requires |parts| >= 1
    ensures var j := JoinWith(parts, c); var last := parts[|parts| - 1];
      |last| <= |j| && j[|j| - |last|..] == last &&
      (|parts| > 1 ==> |last| < |j| && j[|j| - |last| - 1] == c)
  {
    if |parts| > 1 {
      JoinEndsWithLast(parts[1..], c);
      var j := JoinWith(parts, c);
      var jr := JoinWith(parts[1..], c);
      assert j == parts[0] + [c] + jr;
      var last := parts[|parts| - 1];
      assert parts[1..][|parts[1..]| - 1] == last;
      if |parts| == 2 {
        assert jr == last;
      }
    }
  }

  /** Go `filepath.Ext` with '/' as the only separator: the suffix starting at
      the final dot of the final path element, or "" when it has no dot. */
  function Ext(path: string): (e: string)
    ensures e == [] || (e[0] == '.' && |e| <= |path| && e == path[|path| - |e|..])
    ensures '/' !in e && (e != [] ==> '.' !in e[1..])
  {
    if path == [] || path[|path| - 1] == '/' then ""
    else if path[|path| - 1] == '.' then "."
    else
      var e := Ext(path[..|path| - 1]);
      if e == [] then [] else e + [path[|path| - 1]]
  }

  /** The extension is empty exactly when the final path element has no dot. */
  lemma {:induction false} ExtEmptyIff(path: string)
    ensures Ext(path) == [] <==> '.' !in AfterLast(path, '/')
  {
    if path != [] && path[|path| - 1] != '/' {
      var init, last := path[..|path| - 1], path[|path| - 1];
      assert AfterLast(path, '/') == AfterLast(init, '/') + [last];
      if last == '.' {
        assert AfterLast(path, '/')[|AfterLast(init, '/')|] == '.';
      } else {
        ExtEmptyIff(init);
        DotInSnoc(AfterLast(init, '/'), last);
      }
    }
  }

  /** Appending a character other than '.' neither adds nor removes a dot. */
  lemma DotInSnoc(s: string, c: char)
    requires c != '.'
    ensures '.' in s + [c] <==> '.' in s
  {
    if '.' in s + [c] {
      var k :| 0 <= k < |s + [c]| && (s + [c])[k] == '.';
      assert s[k] == '.';
    }
  }
}
