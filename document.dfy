/** The indexed record (`pkg/types/document.go`): identity and content hash
    are lower-case hexadecimal SHA-256 digests of the path and the content. */
module Documents {
  import opened Wrappers

  type Byte = b: int | 0 <= b < 256

  /** A SHA-256 digest: 32 bytes. */
  type Digest = d: seq<Byte> | |d| == 32 witness seq(32, _ => 0)

  /** The SHA-256 function of the Go library, over the UTF-8 bytes of a
      string; it is a parameter of the model. */
  type Sha256 = string -> Digest

  datatype Document = Document(
    id: string,
    path: string,
    name: string,
    dir: string,
    ext: string,
    size: int,
    modTime: int,
    content: string,
    contentHash: string,
    description: string,
    indexedAt: int)

  /** Lower-case base-16 alphabet (section 8 of RFC 4648, lower-cased). */
  const HexAlphabet: string := "0123456789abcdef"

  function HexPair(b: Byte): string {
    [HexAlphabet[b / 16], HexAlphabet[b % 16]]
  }

  /** `hex.EncodeToString`. */
  function HexEncode(bytes: seq<Byte>): (h: string)
    ensures |h| == 2 * |bytes|
  {
    if bytes == [] then [] else HexPair(bytes[0]) + HexEncode(bytes[1..])
  }

  function HexValue(c: char): Option<int> {
    if '0' <= c <= '9' then Some(c as int - '0' as int)
    else if 'a' <= c <= 'f' then Some(c as int - 'a' as int + 10)
    else None
  }

  /** Reads back lower-case hexadecimal text. */
  function HexDecode(h: string): Option<seq<Byte>> {
    if h == [] then Some([])
    else if |h| == 1 then None
    else match (HexValue(h[0]), HexValue(h[1]), HexDecode(h[2..]))
      case (Some(hi), Some(lo), Some(rest)) => Some([hi * 16 + lo] + rest)
      case _ => None
  }

  /** Decoding undoes encoding, so the digest can be recovered from its text. */
  lemma {:induction false} HexRoundTrip(bytes: seq<Byte>)
    ensures HexDecode(HexEncode(bytes)) == Some(bytes)
  {
    if bytes != [] {
      var b, rest := bytes[0], bytes[1..];
      HexRoundTrip(rest);
      HexPairDecodes(b);
      var h := HexEncode(bytes);
      assert h == HexPair(b) + HexEncode(rest);
      assert h[0] == HexPair(b)[0] && h[1] == HexPair(b)[1] && h[2..] == HexEncode(rest);
      assert HexDecode(h) == Some([b] + rest);
      assert [b] + rest == bytes;
    }
  }

  /** Each digit of a byte's pair reads back as that digit's value. */
  lemma HexPairDecodes(b: Byte)
    ensures HexValue(HexPair(b)[0]) == Some(b / 16) && HexValue(HexPair(b)[1]) == Some(b % 16)
    ensures (b / 16) * 16 + b % 16 == b
  {
    DigitDecodes(b / 16);
    DigitDecodes(b % 16);
  }

  lemma DigitDecodes(d: int)
    requires 0 <= d < 16
    ensures HexValue(HexAlphabet[d]) == Some(d)
  {
    if d < 8 {
      assert d in {0, 1, 2, 3, 4, 5, 6, 7};
    } else {
      assert d in {8, 9, 10, 11, 12, 13, 14, 15};
    }
  }

  /** Only lower-case hexadecimal digits appear in an encoding. */
  lemma {:induction false} HexEncodeAlphabet(bytes: seq<Byte>)
    ensures IsLowerHex(HexEncode(bytes))
  {
    if bytes != [] {
      HexEncodeAlphabet(bytes[1..]);
      var h := HexEncode(bytes);
      forall i | 0 <= i < |h| ensures h[i] in HexAlphabet {
        if i >= 2 { assert h[i] == HexEncode(bytes[1..])[i - 2]; }
      }
    }
  }

  /** The identifier rule of the search engine: letters, digits, '-' and '_'. */
  predicate IsEngineId(s: string) {
    forall i | 0 <= i < |s| ::
      'a' <= s[i] <= 'z' || 'A' <= s[i] <= 'Z' || '0' <= s[i] <= '9' || s[i] == '-' || s[i] == '_'
  }

  /** `NewDocument`: the hashes are computed, the clock reading `now` stamps
      the record, everything else is copied and the description is empty. */
  function NewDocument(sha256: Sha256, path: string, name: string, dir: string, ext: string,
                       size: int, modTime: int, content: string, now: int): (doc: Document)
    ensures |doc.id| == 64 && IsEngineId(doc.id)
    ensures HexDecode(doc.id) == Some(sha256(path))
    ensures |doc.contentHash| == 64 && HexDecode(doc.contentHash) == Some(sha256(content))
    ensures doc.path == path && doc.name == name && doc.dir == dir && doc.ext == ext
    ensures doc.size == size && doc.modTime == modTime && doc.content == content
    ensures doc.description == "" && doc.indexedAt == now
  {
    HexRoundTrip(sha256(path));
    HexRoundTrip(sha256(content));
    HexEncodeAlphabet(sha256(path));
    LowerHexIsEngineId(HexEncode(sha256(path)));
    Document(HexEncode(sha256(path)), path, name, dir, ext, size, modTime, content,
             HexEncode(sha256(content)), "", now)
  }

  /** Two documents get the same identifier exactly when the digests of their
      paths agree, whatever their contents and other fields. */
  lemma SameIdIffSamePathDigest(sha256: Sha256, p: string, q: string, a: Document, b: Document)
    requires a == NewDocument(sha256, p, a.name, a.dir, a.ext, a.size, a.modTime, a.content, a.indexedAt)
    requires b == NewDocument(sha256, q, b.name, b.dir, b.ext, b.size, b.modTime, b.content, b.indexedAt)
    ensures a.id == b.id <==> sha256(p) == sha256(q)
  {
  }

  predicate IsLowerHex(s: string) {
    forall i | 0 <= i < |s| :: s[i] in HexAlphabet
  }

  /** Lower-case hexadecimal text meets the engine's identifier rule. */
  lemma LowerHexIsEngineId(s: string)
    requires IsLowerHex(s)
    ensures IsEngineId(s)
  {
    forall i | 0 <= i < |s|
      ensures 'a' <= s[i] <= 'z' || '0' <= s[i] <= '9'
    {
      var c := s[i];
      assert c in HexAlphabet;
    }
  }
}
