/** The browser-side encryption helpers: the hex codec used for keys, the
    split of AES-GCM output into data and the 16-byte tag, and the join that
    decryption rebuilds. The Web Crypto calls themselves are parameters. */
module Encryption {
  import opened Js

  /** An element of a Uint8Array. */
  type Byte = b: int | 0 <= b < 256

  /** TAG_LENGTH / 8: the GCM tag is 128 bits. */
  const TagBytes := 16

  // ---------------------------------------------------------------------
  // uint8ArrayToHex

  predicate IsLowerHex(c: char) {
    ('0' <= c <= '9') || ('a' <= c <= 'f')
  }

  function HexChar(d: nat): (c: char)
    requires d < 16
    ensures IsLowerHex(c)
  {
    if d < 10 then ('0' as int + d) as char else ('a' as int + d - 10) as char
  }

  /** `b.toString(16).padStart(2, '0')` */
  function ByteHex(b: Byte): (h: string)
    ensures |h| == 2 && IsLowerHex(h[0]) && IsLowerHex(h[1])
  {
    [HexChar(b / 16), HexChar(b % 16)]
  }

  /** uint8ArrayToHex: the bytes' two-digit forms joined with "". */
  function ToHex(bytes: seq<Byte>): (h: string)
    ensures |h| == 2 * |bytes|
    ensures forall i :: 0 <= i < |h| ==> IsLowerHex(h[i])
  {
    if bytes == [] then "" else ByteHex(bytes[0]) + ToHex(bytes[1..])
  }

  /** Byte i is written at positions 2i and 2i+1. */
  lemma {:induction false} ToHexAt(bytes: seq<Byte>, i: nat)
    requires i < |bytes|
    ensures ToHex(bytes)[2 * i..2 * i + 2] == ByteHex(bytes[i])
  {
    if i > 0 {
      ToHexAt(bytes[1..], i - 1);
      assert ToHex(bytes) == ByteHex(bytes[0]) + ToHex(bytes[1..]);
      assert ToHex(bytes)[2 * i..2 * i + 2] == ToHex(bytes[1..])[2 * (i - 1)..2 * (i - 1) + 2];
    }
  }

  // ---------------------------------------------------------------------
  // hexToUint8Array


  /** `parseInt(s, 16)`: white space skipped, an optional sign, an optional
      "0x" or "0X", then the longest run of hex digits; None stands for
      NaN (no digit at all). */
  function ParseHex(s: string): Option<int> {
    var t := TrimStart(s);
    var d := HexDigits(StripRadixPrefix(StripSign(t)));
    if d == [] then None
    else
      var n: int := HexValue(d);
      Some(if t != [] && t[0] == '-' then -n else n)
  }

  /** Storing a number in a Uint8Array: NaN becomes 0, others wrap modulo 256. */
  function ToUint8(v: Option<int>): Byte {
    if v.None? then 0 else if 0 <= v.value < 256 then v.value else v.value % 256
  }

  /** The characters `.` does not match. */
  predicate IsLineTerminator(c: char) {
    c == '\n' || c == '\r' || c == '\U{2028}' || c == '\U{2029}'
  }

  /** `s.match(/.{1,2}/g)`, with no match as the empty sequence: each run of
      characters other than line terminators, cut into pairs from its start. */
  function Chunks(s: string): (chunks: seq<string>)
    ensures chunks == [] <==> forall i :: 0 <= i < |s| ==> IsLineTerminator(s[i])
  {
    if s == [] then []
    else if IsLineTerminator(s[0]) then Chunks(s[1..])
    else if |s| >= 2 && !IsLineTerminator(s[1]) then [s[..2]] + Chunks(s[2..])
    else [s[..1]] + Chunks(s[1..])
  }

  /** hexToUint8Array: None when `match` returns null, where the call
      `.map` on it throws. */
  function HexToBytes(hex: string): (r: Option<seq<Byte>>)
    ensures r.None? <==> Chunks(hex) == []
    ensures r.Some? ==> |r.value| == |Chunks(hex)|
  {
    var chunks := Chunks(hex);
    if chunks == [] then None
    else Some(seq(|chunks|, i requires 0 <= i < |chunks| => ToUint8(ParseHex(chunks[i]))))
  }

  /** The empty string has no match, so decoding it throws. */
  lemma EmptyHexThrows()
    ensures HexToBytes("").None?
  {
  }

  /** On a string of hex digits the chunks are its pairs, the last one
      single when the length is odd. */
  lemma {:induction false} ChunksOfHex(s: string)
    requires AllHex(s)
    ensures |Chunks(s)| == (|s| + 1) / 2
    ensures forall i :: 0 <= i < |s| / 2 ==> Chunks(s)[i] == s[2 * i..2 * i + 2]
    ensures |s| % 2 == 1 ==> Chunks(s)[|s| / 2] == [s[|s| - 1]]
  {
    if |s| >= 2 {
      var rest := s[2..];
      ChunksOfHex(rest);
      assert Chunks(s) == [s[..2]] + Chunks(rest);
      forall i | 0 < i < |s| / 2 ensures Chunks(s)[i] == s[2 * i..2 * i + 2] {
        assert rest[2 * (i - 1)..2 * (i - 1) + 2] == s[2 * i..2 * i + 2];
      }
    } else if |s| == 1 {
      assert Chunks(s) == [s[..1]];
    }
  }

  lemma HexValueSmall(c: string)
    requires 1 <= |c| <= 2 && AllHex(c)
    ensures HexValue(c) < 256
  {
    var d0 := HexDigitValue(c[0]);
    assert HexValue(c[..1]) == d0 by {
      assert c[..1][..0] == [];
    }
    if |c| == 2 {
      assert c[..1] == c[..|c| - 1];
      assert HexValue(c) == 16 * d0 + HexDigitValue(c[1]);
    }
  }

  /** parseInt of one or two hex digits is their value. */
  lemma ParseHexChunk(c: string)
    requires 1 <= |c| <= 2 && AllHex(c)
    ensures ParseHex(c) == Some(HexValue(c))
    ensures HexValue(c) < 256
  {
    ParseHexDigits(c);
    HexValueSmall(c);
  }

  /** A string of hex digits is read whole, with no sign and no prefix. */
  lemma ParseHexDigits(c: string)
    requires c != [] && AllHex(c)
    ensures ParseHex(c) == Some(HexValue(c))
  {
    HexDigitNotSpace(c[0]);
    assert TrimStart(c) == c;
    assert StripSign(c) == c;
    assert |c| >= 2 ==> IsHexDigit(c[1]);
    assert StripRadixPrefix(c) == c;
    HexDigitsAll(c);
  }

  lemma HexDigitNotSpace(ch: char)
    requires IsHexDigit(ch)
    ensures !IsSpace(ch) && ch != '-' && ch != '+'
  {
  }

  lemma HexToBytesAt(hex: string, i: nat)
    requires i < |Chunks(hex)|
    ensures HexToBytes(hex).Some? && HexToBytes(hex).value[i] == ToUint8(ParseHex(Chunks(hex)[i]))
  {
  }

  lemma PairValue(c: string)
    requires |c| == 2 && AllHex(c)
    ensures HexValue(c) == 16 * HexDigitValue(c[0]) + HexDigitValue(c[1])
  {
    assert c[..1] == c[..|c| - 1] && c[..1] == [c[0]];
    assert [c[0]][..0] == [];
    assert HexValue([c[0]]) == 16 * HexValue([]) + HexDigitValue(c[0]);
  }

  lemma ChunkAt(s: string, i: nat)
    requires AllHex(s) && 2 * i + 1 < |s|
    ensures i < |Chunks(s)| && Chunks(s)[i] == s[2 * i..2 * i + 2]
  {
    ChunksOfHex(s);
  }

  /** Byte i of a string of hex digits is the value of its i-th pair, and
      a last lone digit is a byte of its own. */
  lemma HexPairDecodes(s: string, i: nat)
    requires AllHex(s) && 2 * i + 1 < |s|
    ensures HexToBytes(s).Some? && i < |HexToBytes(s).value|
    ensures HexToBytes(s).value[i] == 16 * HexDigitValue(s[2 * i]) + HexDigitValue(s[2 * i + 1])
  {
    ChunkAt(s, i);
    var c := s[2 * i..2 * i + 2];
    assert AllHex(c);
    HexToBytesAt(s, i);
    ParseHexChunk(c);
    PairValue(c);
    var v := HexValue(c);
    assert ToUint8(Some(v)) == v;
    assert c[0] == s[2 * i] && c[1] == s[2 * i + 1];
  }

  lemma LastChunk(s: string)
    requires AllHex(s) && |s| % 2 == 1
    ensures |Chunks(s)| == |s| / 2 + 1 && Chunks(s)[|s| / 2] == [s[|s| - 1]]
  {
    ChunksOfHex(s);
  }

  lemma HexLastDecodes(s: string)
    requires AllHex(s) && |s| % 2 == 1
    ensures HexToBytes(s).Some? && |HexToBytes(s).value| == |s| / 2 + 1
    ensures HexToBytes(s).value[|s| / 2] == HexDigitValue(s[|s| - 1])
  {
    LastChunk(s);
    var c := [s[|s| - 1]];
    assert AllHex(c);
    HexToBytesAt(s, |s| / 2);
    ParseHexChunk(c);
    assert HexValue(c) == HexDigitValue(s[|s| - 1]) by {
      assert c[..0] == [];
    }
  }

  /** Decoding what uint8ArrayToHex wrote gives the bytes back, for every
      non-empty array (the empty one encodes to "", which throws). */
  lemma HexRoundTrip(bytes: seq<Byte>)
    requires bytes != []
    ensures HexToBytes(ToHex(bytes)) == Some(bytes)
  {
    var h := ToHex(bytes);
    HexDecodedLength(bytes);
    var r := HexToBytes(h).value;
    forall i | 0 <= i < |bytes| ensures r[i] == bytes[i] {
      HexByteDecodes(bytes, i);
    }
    assert r == bytes;
  }

  lemma HexDecodedLength(bytes: seq<Byte>)
    requires bytes != []
    ensures HexToBytes(ToHex(bytes)).Some? && |HexToBytes(ToHex(bytes)).value| == |bytes|
  {
    var h := ToHex(bytes);
    assert AllHex(h);
    ChunkCount(h);
    assert (|h| + 1) / 2 == |bytes|;
  }

  /** Byte i comes back from the two digits written for it. */
  lemma HexByteDecodes(bytes: seq<Byte>, i: nat)
    requires i < |bytes|
    ensures HexToBytes(ToHex(bytes)).Some? && i < |HexToBytes(ToHex(bytes)).value|
    ensures HexToBytes(ToHex(bytes)).value[i] == bytes[i]
  {
    var h := ToHex(bytes);
    assert AllHex(h);
    HexPairDecodes(h, i);
    ToHexAt(bytes, i);
    assert h[2 * i] == ByteHex(bytes[i])[0] && h[2 * i + 1] == ByteHex(bytes[i])[1];
    ByteHexDecodes(bytes[i]);
  }

  lemma ChunkCount(s: string)
    requires AllHex(s)
    ensures |Chunks(s)| == (|s| + 1) / 2
  {
    ChunksOfHex(s);
  }

  /** The two digits written for a byte read back as that byte. */
  lemma ByteHexDecodes(b: Byte)
    ensures IsHexDigit(ByteHex(b)[0]) && IsHexDigit(ByteHex(b)[1])
    ensures 16 * HexDigitValue(ByteHex(b)[0]) + HexDigitValue(ByteHex(b)[1]) == b
  {
    HexCharValue(b / 16);
    HexCharValue(b % 16);
  }

  lemma HexCharValue(d: nat)
    requires d < 16
    ensures IsHexDigit(HexChar(d)) && HexDigitValue(HexChar(d)) == d
  {
  }

  // ---------------------------------------------------------------------
  // encryptFile and decryptFile

  /** ArrayBuffer.prototype.slice's index: a negative one counts from the
      end, and both are clamped to the buffer. */
  function RelativeIndex(k: int, len: nat): (r: nat)
    ensures r <= len
  {
    if k < 0 then (if len + k < 0 then 0 else len + k) else if k < len then k else len
  }

  function Slice(a: seq<Byte>, start: int, end: int): seq<Byte> {
    var s := RelativeIndex(start, |a|);
    var e := RelativeIndex(end, |a|);
    if s <= e then a[s..e] else []
  }

  /** `tagStart = byteLength - 16`; the data is `slice(0, tagStart)` and the
      tag `slice(tagStart)`. */
  function SplitTag(encrypted: seq<Byte>): (parts: (seq<Byte>, seq<Byte>)) {
    var tagStart := |encrypted| - TagBytes;
    (Slice(encrypted, 0, tagStart), Slice(encrypted, tagStart, |encrypted|))
  }

  /** GCM output (at least the 16 tag bytes long) splits into all but its
      last 16 bytes and those 16 bytes. */
  lemma SplitTagShape(encrypted: seq<Byte>)
    requires |encrypted| >= TagBytes
    ensures SplitTag(encrypted).0 == encrypted[..|encrypted| - TagBytes]
    ensures SplitTag(encrypted).1 == encrypted[|encrypted| - TagBytes..]
    ensures |SplitTag(encrypted).1| == TagBytes
  {
  }

  /** Data followed by tag is the output split, whatever its length. */
  lemma SplitThenJoin(encrypted: seq<Byte>)
    ensures SplitTag(encrypted).0 + SplitTag(encrypted).1 == encrypted
  {
    var k := RelativeIndex(|encrypted| - TagBytes, |encrypted|);
    assert encrypted[..k] + encrypted[k..] == encrypted;
  }

  /** `new Uint8Array(data.byteLength + tag.byteLength)` filled by
      `.set(data, 0)` and `.set(tag, data.byteLength)`. */
  method JoinTag(data: seq<Byte>, tag: seq<Byte>) returns (joined: array<Byte>)
    ensures fresh(joined)
    ensures joined[..] == data + tag
  {
    joined := new Byte[|data| + |tag|](_ => 0);
    var i := 0;
    while i < |data|
      invariant 0 <= i <= |data|
      invariant joined[..i] == data[..i]
    {
      joined[i] := data[i];
      i := i + 1;
    }
    var j := 0;
    while j < |tag|
      invariant 0 <= j <= |tag|
      invariant joined[..|data|] == data
      invariant joined[|data|..|data| + j] == tag[..j]
    {
      joined[|data| + j] := tag[j];
      j := j + 1;
    }
    assert joined[..] == joined[..|data|] + joined[|data|..|data| + |tag|];
  }

  /** What encryptFile returns. */
  datatype Encrypted = Encrypted(data: seq<Byte>, iv: seq<Byte>, tag: seq<Byte>, fileName: string)

  const EncryptFailed := "Failed to encrypt file"
  const DecryptFailed := "Failed to decrypt file. Invalid key or corrupted data."

  /** The encrypted file's name. */
  function EncryptedName(name: string): (n: string)
    ensures EndsWith(n, ".encrypted") && StartsWith(n, name)
    ensures n[..|name|] == name
  {
    var n := name + ".encrypted";
    assert n[..|name|] == name;
    assert n[|n| - |".encrypted"|..] == ".encrypted";
    n
  }

  /** encryptFile: `seal` is importKey followed by AES-GCM encryption of the
      file with the given IV, on the key bytes (None when either rejects). A
      key hex without a match throws inside the try as well. */
  function EncryptFile(fileName: string, keyHex: string, iv: seq<Byte>, seal: seq<Byte> -> Option<seq<Byte>>): (o: Outcome<Encrypted>)
    ensures HexToBytes(keyHex).None? ==> o == Thrown(EncryptFailed)
    ensures o.Returned? ==> HexToBytes(keyHex).Some? && seal(HexToBytes(keyHex).value).Some?
  {
    match HexToBytes(keyHex)
    case None => Thrown(EncryptFailed)
    case Some(key) =>
      match seal(key)
      case None => Thrown(EncryptFailed)
      case Some(out) =>
        var parts := SplitTag(out);
        Returned(Encrypted(parts.0, iv, parts.1, EncryptedName(fileName)))
  }

  /** What encryptFile returns holds the whole cipher output: its data
      followed by its tag, and a 16-byte tag. */
  lemma EncryptKeepsOutput(fileName: string, keyHex: string, iv: seq<Byte>, seal: seq<Byte> -> Option<seq<Byte>>)
    requires EncryptFile(fileName, keyHex, iv, seal).Returned?
    ensures var e := EncryptFile(fileName, keyHex, iv, seal).value;
      var out := seal(HexToBytes(keyHex).value).value;
      && e.data + e.tag == out
      && e.iv == iv
      && e.fileName == fileName + ".encrypted"
      && (|out| >= TagBytes ==> |e.tag| == TagBytes && e.data == out[..|out| - TagBytes])
  {
    var out := seal(HexToBytes(keyHex).value).value;
    SplitThenJoin(out);
    if |out| >= TagBytes {
      SplitTagShape(out);
    }
  }

  /** decryptFile: `open` is importKey followed by AES-GCM decryption with
      the given IV, on the key bytes and the data followed by the tag. */
  method DecryptFile(encrypted: seq<Byte>, keyHex: string, iv: seq<Byte>, tag: seq<Byte>,
                     open: (seq<Byte>, seq<Byte>) -> Option<seq<Byte>>) returns (o: Outcome<seq<Byte>>)
    ensures HexToBytes(keyHex).None? ==> o == Thrown(DecryptFailed)
    ensures HexToBytes(keyHex).Some? ==>
      o == match open(HexToBytes(keyHex).value, encrypted + tag)
           case None => Thrown(DecryptFailed)
           case Some(plain) => Returned(plain)
  {
    var key := HexToBytes(keyHex);
    if key.None? {
      return Thrown(DecryptFailed);
    }
    var joined := JoinTag(encrypted, tag);
    var plain := open(key.value, joined[..]);
    if plain.None? {
      return Thrown(DecryptFailed);
    }
    o := Returned(plain.value);
  }

  /** Decrypting what encryptFile returned hands AES-GCM exactly the output
      encryption produced. */
  lemma DecryptGetsCipherOutput(fileName: string, keyHex: string, iv: seq<Byte>,
                                seal: seq<Byte> -> Option<seq<Byte>>, open: (seq<Byte>, seq<Byte>) -> Option<seq<Byte>>)
    requires EncryptFile(fileName, keyHex, iv, seal).Returned?
    ensures var e := EncryptFile(fileName, keyHex, iv, seal).value;
      open(HexToBytes(keyHex).value, e.data + e.tag) == open(HexToBytes(keyHex).value, seal(HexToBytes(keyHex).value).value)
  {
    EncryptKeepsOutput(fileName, keyHex, iv, seal);
  }
}
