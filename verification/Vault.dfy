/**
 The credential vault: PKCS #7 padding, cipher block chaining over a block cipher, hex, and the choice
 between the two stored formats. The block cipher, SHA-256 and base64 are parameters.
 */
module Vault {
  import opened Wrappers
  import opened Text

  type byte = x: int | 0 <= x < 256

  type Bytes = seq<byte>

  const BLOCK: nat := 16
  const KEY_SIZE: nat := 32

  /** What the vault takes from libraries. */
  datatype Primitives = Primitives(
    seal: (Bytes, Bytes) -> Bytes, open: (Bytes, Bytes) -> Bytes,
    sha256: Bytes -> Bytes, base64: string -> Option<Bytes>)
  {
    /** For each key the cipher permutes the blocks of 16 bytes, and `open` undoes `seal`. */
    ghost predicate Ciphers() {
      forall key, block | |block| == BLOCK ::
        |seal(key, block)| == BLOCK && open(key, seal(key, block)) == block
        && |open(key, block)| == BLOCK && seal(key, open(key, block)) == block
    }
  }

  /** With an invertible cipher. */
  type Library = p: Primitives | p.Ciphers()
    ghost witness Primitives((_, block) => block, (_, block) => block, data => data, _ => None)

  datatype VaultError = EmptyKey | BadIV | BadHex | BadBase64 | BadLength | EmptyData | BadPadding

  // ---------------------------------------------------------------- padding

  function Repeat(value: byte, n: nat): (r: Bytes)
    ensures |r| == n && forall i | 0 <= i < n :: r[i] == value
  {
    seq(n, _ => value)
  }

  function PadTo(data: Bytes, size: nat): Bytes
    requires 0 < size < 256
  {
    var padding := size - |data| % size;
    data + Repeat(padding, padding)
  }

  function Pad(data: Bytes): Bytes {
    PadTo(data, BLOCK)
  }

  predicate PaddedBy(data: Bytes, padding: nat) {
    1 <= padding <= BLOCK && padding <= |data| && forall i | |data| - padding <= i < |data| :: data[i] == padding
  }

  function Unpad(data: Bytes): Result<Bytes, VaultError> {
    if data == [] then Failure(EmptyData)
    else
      var padding := data[|data| - 1];
      if PaddedBy(data, padding) then Success(data[..|data| - padding]) else Failure(BadPadding)
  }

  method Pkcs7Pad(data: Bytes, blockSize: nat) returns (r: Bytes)
    requires 0 < blockSize < 256
    ensures r == PadTo(data, blockSize)
  {
    var padding := blockSize - |data| % blockSize;
    var padded := new byte[|data| + padding];
    forall i | 0 <= i < |data| {
      padded[i] := data[i];
    }
    var i := |data|;
    while i < padded.Length
      invariant |data| <= i <= padded.Length && padded[..|data|] == data
      invariant forall j | |data| <= j < i :: padded[j] == padding
    {
      padded[i] := padding;
      i := i + 1;
    }
    r := padded[..];
    assert r[..|data|] == padded[..|data|];
  }

  method Pkcs7Unpad(data: Bytes) returns (r: Result<Bytes, VaultError>)
    ensures r == Unpad(data)
  {
    if |data| == 0 {
      return Failure(EmptyData);
    }
    var padding: int := data[|data| - 1];
    if padding == 0 || padding > BLOCK || padding > |data| {
      return Failure(BadPadding);
    }
    for i := |data| - padding to |data|
      invariant forall j | |data| - padding <= j < i :: data[j] == padding
    {
      if data[i] != padding {
        return Failure(BadPadding);
      }
    }
    return Success(data[..|data| - padding]);
  }

  /** On whole blocks, unpadding succeeds on exactly what padding makes, and gives it back. */
  lemma PaddingInverts(data: Bytes, plain: Bytes)
    ensures |Pad(plain)| > 0 && |Pad(plain)| % BLOCK == 0
    ensures |data| % BLOCK == 0 && Unpad(data) == Success(plain) <==> data == Pad(plain)
  {
    var padded, padding := Pad(plain), BLOCK - |plain| % BLOCK;
    assert padded[|padded| - 1] == padding;
    assert PaddedBy(padded, padding);
    assert padded[..|plain|] == plain;
    if |data| % BLOCK == 0 && Unpad(data) == Success(plain) {
      var n := data[|data| - 1];
      assert |plain| == |data| - n && PaddedBy(data, n);
      assert n == padding;
      assert data == plain + Repeat(n, n);
    }
  }

  // ---------------------------------------------------------------- cipher block chaining

  /** The exclusive or of two numbers of `bits` bits. */
  function XorBits(x: nat, y: nat, bits: nat): nat {
    if bits == 0 then 0
    else 2 * XorBits(x / 2, y / 2, bits - 1) + if x % 2 == y % 2 then 0 else 1
  }

  function Power(bits: nat): nat {
    if bits == 0 then 1 else 2 * Power(bits - 1)
  }

  lemma {:induction false} XorBitsUndone(x: nat, y: nat, bits: nat)
    requires x < Power(bits)
    ensures XorBits(XorBits(x, y, bits), y, bits) == x && XorBits(x, y, bits) < Power(bits)
  {
    if bits > 0 {
      XorBitsUndone(x / 2, y / 2, bits - 1);
      var z := XorBits(x, y, bits);
      assert z / 2 == XorBits(x / 2, y / 2, bits - 1);
      assert z % 2 == if x % 2 == y % 2 then 0 else 1;
    }
  }

  predicate BitAt(x: nat, k: nat) {
    if k == 0 then x % 2 == 1 else BitAt(x / 2, k - 1)
  }

  lemma {:induction false} XorDiffers(x: nat, y: nat, bits: nat, k: nat)
    requires k < bits
    ensures BitAt(XorBits(x, y, bits), k) <==> BitAt(x, k) != BitAt(y, k)
  {
    var z := XorBits(x, y, bits);
    assert z / 2 == XorBits(x / 2, y / 2, bits - 1);
    if k > 0 {
      XorDiffers(x / 2, y / 2, bits - 1, k - 1);
    }
  }

  function Xor(x: byte, y: byte): byte {
    assert Power(8) == 256;
    XorBitsUndone(x, y, 8);
    XorBits(x, y, 8)
  }

  function XorAll(a: Bytes, b: Bytes): (r: Bytes)
    requires |a| == |b|
    ensures |r| == |a| && forall i | 0 <= i < |a| :: r[i] == Xor(a[i], b[i])
  {
    seq(|a|, (i: nat) requires i < |a| && i < |b| => Xor(a[i], b[i]))
  }

  lemma XorAllUndone(a: Bytes, b: Bytes)
    requires |a| == |b|
    ensures XorAll(XorAll(a, b), b) == a
  {
    assert Power(8) == 256;
    forall i | 0 <= i < |a|
      ensures XorAll(XorAll(a, b), b)[i] == a[i]
    {
      XorBitsUndone(a[i], b[i], 8);
    }
  }

  ghost function Chain(lib: Library, key: Bytes, iv: Bytes, plain: Bytes): Bytes
    requires |iv| == BLOCK && |plain| % BLOCK == 0
    decreases |plain|
  {
    if plain == [] then []
    else
      var block := lib.seal(key, XorAll(plain[..BLOCK], iv));
      block + Chain(lib, key, block, plain[BLOCK..])
  }

  ghost function Unchain(lib: Library, key: Bytes, iv: Bytes, coded: Bytes): Bytes
    requires |iv| == BLOCK && |coded| % BLOCK == 0
    decreases |coded|
  {
    if coded == [] then []
    else XorAll(lib.open(key, coded[..BLOCK]), iv) + Unchain(lib, key, coded[..BLOCK], coded[BLOCK..])
  }

  lemma {:induction false} ChainUnchains(lib: Library, key: Bytes, iv: Bytes, plain: Bytes)
    requires |iv| == BLOCK && |plain| % BLOCK == 0
    ensures |Chain(lib, key, iv, plain)| == |plain|
    ensures Unchain(lib, key, iv, Chain(lib, key, iv, plain)) == plain
    decreases |plain|
  {
    if plain != [] {
      var mixed := XorAll(plain[..BLOCK], iv);
      var block := lib.seal(key, mixed);
      var coded := Chain(lib, key, iv, plain);
      ChainUnchains(lib, key, block, plain[BLOCK..]);
      assert coded[..BLOCK] == block && coded[BLOCK..] == Chain(lib, key, block, plain[BLOCK..]);
      XorAllUndone(plain[..BLOCK], iv);
      assert plain == plain[..BLOCK] + plain[BLOCK..];
    }
  }

  function BlockAt(data: Bytes, i: nat): Bytes
    requires BLOCK * (i + 1) <= |data|
  {
    data[BLOCK * i..BLOCK * (i + 1)]
  }

  lemma ChainFirst(lib: Library, key: Bytes, iv: Bytes, plain: Bytes)
    requires |iv| == BLOCK && |plain| % BLOCK == 0 && plain != []
    ensures var coded, block := Chain(lib, key, iv, plain), lib.seal(key, XorAll(plain[..BLOCK], iv));
      && |coded| == |plain| && |block| == BLOCK
      && coded == block + Chain(lib, key, block, plain[BLOCK..])
  {
    ChainUnchains(lib, key, iv, plain);
  }

  /** Each block is the cipher of the plain block combined with the cipher text block before it, the
      first with the vector (section 6.2 of NIST SP 800-38A). */
  lemma {:induction false} ChainIsCbc(lib: Library, key: Bytes, iv: Bytes, plain: Bytes, i: nat)
    requires |iv| == BLOCK && |plain| % BLOCK == 0 && BLOCK * (i + 1) <= |plain|
    ensures var coded := Chain(lib, key, iv, plain);
      && |coded| == |plain|
      && BlockAt(coded, i) == lib.seal(key, XorAll(BlockAt(plain, i), if i == 0 then iv else BlockAt(coded, i - 1)))
    decreases i
  {
    hide XorAll, Chain;
    ChainFirst(lib, key, iv, plain);
    var block, coded := lib.seal(key, XorAll(plain[..BLOCK], iv)), Chain(lib, key, iv, plain);
    if i > 0 {
      var rest := Chain(lib, key, block, plain[BLOCK..]);
      ChainIsCbc(lib, key, block, plain[BLOCK..], i - 1);
      BlockAfter(plain[..BLOCK], plain[BLOCK..], i - 1);
      assert plain[..BLOCK] + plain[BLOCK..] == plain;
      BlockAfter(block, rest, i - 1);
      if i > 1 {
        BlockAfter(block, rest, i - 2);
      }
    }
  }

  lemma BlockAfter(first: Bytes, rest: Bytes, i: nat)
    requires |first| == BLOCK && BLOCK * (i + 1) <= |rest|
    ensures BlockAt(first + rest, i + 1) == BlockAt(rest, i) && BlockAt(first + rest, 0) == first
  {}

  lemma {:induction false} UnchainChains(lib: Library, key: Bytes, iv: Bytes, coded: Bytes)
    requires |iv| == BLOCK && |coded| % BLOCK == 0
    ensures |Unchain(lib, key, iv, coded)| == |coded|
    ensures Chain(lib, key, iv, Unchain(lib, key, iv, coded)) == coded
    decreases |coded|
  {
    if coded != [] {
      var block := coded[..BLOCK];
      var first := XorAll(lib.open(key, block), iv);
      var plain := Unchain(lib, key, iv, coded);
      UnchainChains(lib, key, block, coded[BLOCK..]);
      assert plain[..BLOCK] == first && plain[BLOCK..] == Unchain(lib, key, block, coded[BLOCK..]);
      XorAllUndone(lib.open(key, block), iv);
      assert coded == block + coded[BLOCK..];
    }
  }

  // ---------------------------------------------------------------- hex

  const DIGITS: string := "0123456789abcdef"

  function HexEncode(data: Bytes): string {
    if data == [] then "" else [DIGITS[data[0] / 16], DIGITS[data[0] % 16]] + HexEncode(data[1..])
  }

  function HexDigit(c: char): (r: Option<int>)
    ensures r.Some? ==> 0 <= r.value < 16
  {
    if '0' <= c <= '9' then Some((c - '0') as int)
    else if 'a' <= c <= 'f' then Some((c - 'a') as int + 10)
    else if 'A' <= c <= 'F' then Some((c - 'A') as int + 10)
    else None
  }

  function DecodePair(high: char, low: char): (r: Option<byte>)
    ensures r.Some? ==> HexDigit(high).Some? && high != ':' && low != ':'
  {
    if HexDigit(high).None? || HexDigit(low).None? then None
    else Some(16 * HexDigit(high).value + HexDigit(low).value)
  }

  /** Both cases of digits are read; the length must be even. */
  function HexDecode(s: string): (r: Option<Bytes>)
    ensures r.Some? ==> |s| == 2 * |r.value|
    ensures r.Some? ==> ':' !in s
    ensures r.Some? && s != [] ==> HexDigit(s[0]).Some?
  {
    if s == [] then Some([])
    else if |s| == 1 then None
    else
      var first, rest := DecodePair(s[0], s[1]), HexDecode(s[2..]);
      assert s == [s[0], s[1]] + s[2..];
      if first.None? || rest.None? then None else Some([first.value] + rest.value)
  }

  lemma PairDecodes(b: byte)
    ensures DecodePair(DIGITS[b / 16], DIGITS[b % 16]) == Some(b)
  {
    DigitDecodes(b / 16);
    DigitDecodes(b % 16);
  }

  lemma DigitDecodes(n: int)
    requires 0 <= n < 16
    ensures HexDigit(DIGITS[n]) == Some(n)
  {}

  lemma {:induction false} HexRoundTrip(data: Bytes)
    ensures HexDecode(HexEncode(data)) == Some(data)
    decreases |data|
  {
    hide DecodePair;
    if data != [] {
      HexRoundTrip(data[1..]);
      PairDecodes(data[0]);
      var s := HexEncode(data);
      assert s[2..] == HexEncode(data[1..]);
      assert data == [data[0]] + data[1..];
    }
  }

  // ---------------------------------------------------------------- the vault

  datatype Vault = Vault(key: Bytes, shaKey: Bytes)

  /** A key is padded with spaces, or cut, to 32 bytes. */
  function DerivedKey(key: Bytes): (r: Bytes)
    ensures |r| == KEY_SIZE
  {
    (key + Repeat(32, KEY_SIZE))[..KEY_SIZE]
  }

  method DeriveKey(key: Bytes) returns (r: Bytes)
    ensures r == DerivedKey(key)
  {
    var padded := key;
    while |padded| < KEY_SIZE
      invariant padded == key + Repeat(32, |padded| - |key|) && |key| <= |padded|
      invariant |padded| <= KEY_SIZE || padded == key
      decreases KEY_SIZE - |padded|
    {
      padded := padded + [32];
    }
    r := padded[..KEY_SIZE];
  }

  /** The length of the white space at the start, in UTF-8, or 0: six ASCII characters, U+0085, U+00A0,
      U+1680, U+2000 to U+200A, U+2028, U+2029, U+202F, U+205F and U+3000. */
  function SpaceLength(key: Bytes): (n: nat)
    ensures n <= |key|
  {
    if |key| >= 1 && (9 <= key[0] <= 13 || key[0] == 32) then 1
    else if |key| >= 2 && key[0] == 0xC2 && key[1] in {0x85, 0xA0} then 2
    else if |key| >= 3 && IsWideSpace(key[0], key[1], key[2]) then 3
    else 0
  }

  predicate IsWideSpace(a: byte, b: byte, c: byte) {
    || (a == 0xE1 && b == 0x9A && c == 0x80)
    || (a == 0xE2 && b == 0x80 && (0x80 <= c <= 0x8A || c in {0xA8, 0xA9, 0xAF}))
    || (a == 0xE2 && b == 0x81 && c == 0x9F)
    || (a == 0xE3 && b == 0x80 && c == 0x80)
  }

  predicate IsSpaceCharacter(text: Bytes) {
    text != [] && SpaceLength(text) == |text|
  }

  /** The bytes of a code point below U+10000 (section 3 of RFC 3629). */
  function Utf8(code: nat): Bytes
    requires code < 0x10000
  {
    if code < 0x80 then [code]
    else if code < 0x800 then [0xC0 + code / 64, 0x80 + code % 64]
    else [0xE0 + code / 4096, 0x80 + code / 64 % 64, 0x80 + code % 64]
  }

  /** The code points that Go counts as white space. */
  predicate IsSpaceCode(code: nat) {
    || 0x09 <= code <= 0x0D || code == 0x20 || code == 0x85 || code == 0xA0 || code == 0x1680
    || 0x2000 <= code <= 0x200A || code == 0x2028 || code == 0x2029 || code == 0x202F || code == 0x205F
    || code == 0x3000
  }

  function SpaceCode(text: Bytes): nat
    requires IsSpaceCharacter(text)
  {
    if |text| == 1 then text[0]
    else if |text| == 2 then text[1]
    else
      var high: int, middle: int, low: int := text[0], text[1], text[2];
      (high - 0xE0) * 4096 + (middle - 0x80) * 64 + (low - 0x80)
  }

  /** The white-space characters are the UTF-8 of those code points, and no others. */
  lemma SpaceCharactersAre(text: Bytes, code: nat)
    requires code < 0x10000
    ensures IsSpaceCode(code) ==> IsSpaceCharacter(Utf8(code))
    ensures IsSpaceCharacter(text) ==>
              SpaceCode(text) < 0x10000 && IsSpaceCode(SpaceCode(text)) && text == Utf8(SpaceCode(text))
  {
    if IsSpaceCharacter(text) {
      SpaceCharacterIsCode(text);
    }
    hide SpaceCode;
  }

  lemma SpaceCharacterIsCode(text: Bytes)
    requires IsSpaceCharacter(text)
    ensures SpaceCode(text) < 0x10000 && IsSpaceCode(SpaceCode(text)) && text == Utf8(SpaceCode(text))
  {
    if |text| == 3 {
      assert text == [text[0], text[1], text[2]];
    }
  }

  function Concat(parts: seq<Bytes>): Bytes {
    if parts == [] then [] else parts[0] + Concat(parts[1..])
  }

  /** The key consists of white-space characters only. */
  ghost predicate Blank(key: Bytes) {
    exists parts :: Concat(parts) == key && forall part | part in parts :: IsSpaceCharacter(part)
  }

  lemma SpacePrefix(space: Bytes, rest: Bytes)
    requires IsSpaceCharacter(space)
    ensures SpaceLength(space + rest) == |space|
  {}

  /** Taking white space off the front leaves a key blank, or not. */
  lemma BlankWithoutSpace(key: Bytes)
    ensures SpaceLength(key) > 0 ==> (Blank(key) <==> Blank(key[SpaceLength(key)..]))
    ensures SpaceLength(key) == 0 ==> (Blank(key) <==> key == [])
  {
    hide IsWideSpace;
    var n := SpaceLength(key);
    var space, rest := key[..n], key[n..];
    if Blank(key) && key != [] {
      var parts :| Concat(parts) == key && forall part | part in parts :: IsSpaceCharacter(part);
      SpacePrefix(parts[0], Concat(parts[1..]));
      assert Concat(parts[1..]) == rest && forall part | part in parts[1..] :: IsSpaceCharacter(part);
    }
    if n > 0 && Blank(rest) {
      var parts :| Concat(parts) == rest && forall part | part in parts :: IsSpaceCharacter(part);
      var more := [space] + parts;
      assert more[1..] == parts && Concat(more) == space + rest == key;
      assert IsSpaceCharacter(space);
    }
    assert Concat([]) == [];
  }

  /** A key of white space only is refused. Any other gives a vault whose AES key is its first 32 bytes,
      with spaces for those it lacks. */
  method NewVault(lib: Library, key: Bytes) returns (r: Result<Vault, VaultError>)
    ensures r.Success? <==> !Blank(key)
    ensures r.Failure? ==> r.error == EmptyKey
    ensures r.Success? ==>
              |r.value.key| == 32 && r.value.shaKey == lib.sha256(key)
              && forall i | 0 <= i < 32 :: r.value.key[i] == if i < |key| then key[i] else 32
  {
    var rest := key;
    while SpaceLength(rest) > 0
      invariant Blank(key) <==> Blank(rest)
      decreases |rest|
    {
      BlankWithoutSpace(rest);
      rest := rest[SpaceLength(rest)..];
    }
    BlankWithoutSpace(rest);
    if rest == [] {
      return Failure(EmptyKey);
    }
    var derived := DeriveKey(key);
    return Success(Vault(derived, lib.sha256(key)));
  }

  ghost function EncryptLegacyHex(lib: Library, v: Vault, plain: Bytes, iv: Bytes): Result<string, VaultError> {
    if |iv| != BLOCK then Failure(BadIV)
    else
      PaddingInverts([], plain);
      Success(HexEncode(iv) + ":" + HexEncode(Chain(lib, v.key, iv, Pad(plain))))
  }

  const V2: string := "v2:"

  /** The value in two at its first colon. */
  function Halves(s: string): (string, string) {
    var i := Find(s, ':');
    if i < |s| then (s[..i], s[i + 1..]) else (s, "")
  }

  ghost function DecryptBlocks(lib: Library, key: Bytes, iv: Bytes, coded: Bytes): Result<Bytes, VaultError>
    requires |iv| == BLOCK
  {
    if |coded| % BLOCK != 0 then Failure(BadLength) else Unpad(Unchain(lib, key, iv, coded))
  }

  ghost function DecryptBase64(lib: Library, v: Vault, s: string): Result<Bytes, VaultError> {
    match lib.base64(s)
    case None => Failure(BadBase64)
    case Some(decoded) =>
      if |decoded| < BLOCK then Failure(BadLength)
      else DecryptBlocks(lib, v.shaKey, decoded[..BLOCK], decoded[BLOCK..])
  }

  ghost function DecryptLegacyHex(lib: Library, v: Vault, s: string): Result<Bytes, VaultError> {
    var (left, right) := Halves(s);
    var iv, coded := HexDecode(left), HexDecode(right);
    if iv.None? then Failure(BadHex)
    else if |iv.value| != BLOCK then Failure(BadIV)
    else if coded.None? then Failure(BadHex)
    else DecryptBlocks(lib, v.key, iv.value, coded.value)
  }

  ghost function Decrypt(lib: Library, v: Vault, s: string): Result<Bytes, VaultError> {
    if V2 <= s then DecryptBase64(lib, v, s[3..])
    else if ':' !in s then DecryptBase64(lib, v, s)
    else DecryptLegacyHex(lib, v, s)
  }

  predicate IsEncryptedValue(s: string) {
    if V2 <= s then true
    else if ':' !in s then false
    else
      var (left, right) := Halves(s);
      |left| == 2 * BLOCK && right != [] && |right| % (2 * BLOCK) == 0
      && HexDecode(left).Some? && HexDecode(right).Some?
  }

  // ---------------------------------------------------------------- what can be decrypted

  /** Unpadding what the chain decodes gives back the one plain text that encodes to it. */
  lemma BlocksInvert(lib: Library, key: Bytes, iv: Bytes, coded: Bytes, plain: Bytes)
    requires |iv| == BLOCK
    ensures |Pad(plain)| % BLOCK == 0
    ensures DecryptBlocks(lib, key, iv, coded) == Success(plain) <==> coded == Chain(lib, key, iv, Pad(plain))
  {
    PaddingInverts([], plain);
    ChainUnchains(lib, key, iv, Pad(plain));
    if |coded| % BLOCK == 0 {
      UnchainChains(lib, key, iv, coded);
      PaddingInverts(Unchain(lib, key, iv, coded), plain);
    }
  }

  lemma DecryptedIsNotEmpty(lib: Library, key: Bytes, iv: Bytes, coded: Bytes)
    requires |iv| == BLOCK && DecryptBlocks(lib, key, iv, coded).Success?
    ensures coded != [] && |coded| % BLOCK == 0
  {}

  lemma HalvesOf(left: string, right: string)
    requires ':' !in left
    ensures ':' in left + ":" + right && Halves(left + ":" + right) == (left, right)
  {
    var s := left + ":" + right;
    assert s[|left|] == ':';
    var i := Find(s, ':');
    assert i <= |left| by {
      assert s[..|left| + 1][|left|] == ':';
    }
    assert forall j | 0 <= j < |left| :: s[j] in left;
    assert i == |left|;
    assert s[..i] == left && s[i + 1..] == right;
  }

  lemma PrefixHasColon(s: string)
    requires V2 <= s
    ensures ':' in s && s[0] == 'v' && HexDigit(s[0]).None?
  {
    assert s[2] == ':';
  }

  /** Two hex halves are read back, and their joint is not taken for the prefix of the other format. */
  lemma HexHalves(left: Bytes, right: Bytes)
    requires left != []
    ensures var s := HexEncode(left) + ":" + HexEncode(right);
      && !(V2 <= s) && ':' in s && Halves(s) == (HexEncode(left), HexEncode(right))
      && HexDecode(Halves(s).0) == Some(left) && HexDecode(Halves(s).1) == Some(right)
  {
    HexRoundTrip(left);
    HexRoundTrip(right);
    HalvesOf(HexEncode(left), HexEncode(right));
    var s := HexEncode(left) + ":" + HexEncode(right);
    assert s[0] == HexEncode(left)[0];
    if V2 <= s {
      PrefixHasColon(s);
    }
  }

  /** Every plain text and every initialisation vector of one block survive encryption, and the result
      is recognised as encrypted. Any other vector is refused. */
  lemma RoundTrip(lib: Library, v: Vault, plain: Bytes, iv: Bytes)
    ensures EncryptLegacyHex(lib, v, plain, iv).Success? <==> |iv| == 16
    ensures |iv| == 16 ==>
              var s := EncryptLegacyHex(lib, v, plain, iv).value;
              Decrypt(lib, v, s) == Success(plain) && IsEncryptedValue(s)
  {
    hide *;
    assert BLOCK == 16 by {
      BlockSize();
    }
    if |iv| == BLOCK {
      BlocksRoundTrip(lib, v, plain, iv);
    } else {
      OtherVectors(lib, v, plain, iv);
    }
  }

  lemma BlockSize()
    ensures BLOCK == 16
  {}

  lemma OtherVectors(lib: Library, v: Vault, plain: Bytes, iv: Bytes)
    requires |iv| != BLOCK
    ensures EncryptLegacyHex(lib, v, plain, iv) == Failure(BadIV)
  {}

  lemma BlocksRoundTrip(lib: Library, v: Vault, plain: Bytes, iv: Bytes)
    requires |iv| == BLOCK
    ensures EncryptLegacyHex(lib, v, plain, iv).Success?
    ensures var s := EncryptLegacyHex(lib, v, plain, iv).value;
      Decrypt(lib, v, s) == Success(plain) && IsEncryptedValue(s)
  {
    hide Pad, Chain, Unchain, HexEncode, HexDecode, Halves, DecryptBlocks, DecryptBase64;
    PaddingInverts([], plain);
    var coded := Chain(lib, v.key, iv, Pad(plain));
    ChainUnchains(lib, v.key, iv, Pad(plain));
    HexHalves(iv, coded);
    BlocksInvert(lib, v.key, iv, coded, plain);
    var s := HexEncode(iv) + ":" + HexEncode(coded);
    assert DecryptLegacyHex(lib, v, s) == DecryptBlocks(lib, v.key, iv, coded);
  }

  /** A value in the hex format decrypts to a plain text exactly when its halves are the hex of some
      vector and of the plain text's own cipher text under it. */
  lemma LegacyHexIsExact(lib: Library, v: Vault, s: string, plain: Bytes)
    requires ':' in s && !(V2 <= s)
    ensures Decrypt(lib, v, s) == Success(plain) <==>
              exists iv :: |iv| == BLOCK && HexDecode(Halves(s).0) == Some(iv)
                && |Pad(plain)| % BLOCK == 0
                && HexDecode(Halves(s).1) == Some(Chain(lib, v.key, iv, Pad(plain)))
  {
    var iv, coded := HexDecode(Halves(s).0), HexDecode(Halves(s).1);
    if iv.Some? && |iv.value| == BLOCK && coded.Some? {
      BlocksInvert(lib, v.key, iv.value, coded.value, plain);
    }
  }

  /** The base64 formats, with or without their prefix, decrypt to a plain text exactly when the decoded
      bytes are a vector followed by the plain text's cipher text under the hashed key. */
  lemma Base64IsExact(lib: Library, v: Vault, s: string, decoded: Bytes, plain: Bytes)
    requires lib.base64(s) == Some(decoded)
    ensures var exact := |decoded| >= BLOCK && |Pad(plain)| % BLOCK == 0
              && decoded[BLOCK..] == Chain(lib, v.shaKey, decoded[..BLOCK], Pad(plain));
      && (Decrypt(lib, v, V2 + s) == Success(plain) <==> exact)
      && (':' !in s ==> (Decrypt(lib, v, s) == Success(plain) <==> exact))
  {
    assert (V2 + s)[3..] == s;
    PaddingInverts([], plain);
    if V2 <= s {
      PrefixHasColon(s);
    }
    if |decoded| >= BLOCK {
      BlocksInvert(lib, v.shaKey, decoded[..BLOCK], decoded[BLOCK..], plain);
    }
  }

  /** What is wrong with a value of the base64 formats: too short for a vector, no whole blocks, no block, or
      a padding that was not made. */
  lemma Base64Errors(lib: Library, v: Vault, s: string)
    requires Decrypt(lib, v, V2 + s).Failure?
    ensures var error := Decrypt(lib, v, V2 + s).error;
      match lib.base64(s)
      case None => error == BadBase64
      case Some(decoded) =>
        if |decoded| < 16 || |decoded| % 16 != 0 then error == BadLength
        else if |decoded| == 16 then error == EmptyData
        else error == BadPadding
  {
    assert (V2 + s)[3..] == s;
    if lib.base64(s).Some? && |lib.base64(s).value| >= BLOCK && |lib.base64(s).value| % BLOCK == 0 {
      UnchainChains(lib, v.shaKey, lib.base64(s).value[..BLOCK], lib.base64(s).value[BLOCK..]);
    }
  }

  // ---------------------------------------------------------------- what is recognised

  predicate IsHexChar(c: char) {
    '0' <= c <= '9' || 'a' <= c <= 'f' || 'A' <= c <= 'F'
  }

  lemma {:induction false} HexDecodes(s: string)
    ensures HexDecode(s).Some? <==> |s| % 2 == 0 && forall c | c in s :: IsHexChar(c)
    decreases |s|
  {
    if |s| > 1 {
      HexDecodes(s[2..]);
      assert s == [s[0], s[1]] + s[2..];
      hide HexDecode;
      PairDecodesHex(s[0], s[1]);
      HexDecodeStep(s);
    }
  }

  lemma HexDecodeStep(s: string)
    requires |s| > 1
    ensures HexDecode(s).Some? <==> DecodePair(s[0], s[1]).Some? && HexDecode(s[2..]).Some?
  {}

  lemma PairDecodesHex(high: char, low: char)
    ensures DecodePair(high, low).Some? <==> IsHexChar(high) && IsHexChar(low)
  {}

  lemma HexDigitIs(n: int)
    requires 0 <= n < 16
    ensures HexDigit("0123456789abcdef"[n]) == Some(n) && HexDigit("0123456789ABCDEF"[n]) == Some(n)
  {}

  /** The hex of a vector of 16 bytes, a colon, and the hex of whole blocks. */
  predicate IsHexPair(iv: string, coded: string) {
    && |iv| == 32 && |coded| > 0 && |coded| % 32 == 0
    && forall c | c in iv || c in coded :: IsHexChar(c)
  }

  lemma HexPairIsRecognised(iv: string, coded: string)
    requires IsHexPair(iv, coded)
    ensures IsEncryptedValue(iv + ":" + coded)
  {
    hide HexDecode, Halves, IsHexChar, IsHexPair, BLOCK, V2;
    HexSizes(iv, coded);
    HalvesOf(iv, coded);
  }

  lemma HexSizes(iv: string, coded: string)
    requires IsHexPair(iv, coded)
    ensures HexDecode(iv).Some? && HexDecode(coded).Some? && ':' !in iv && coded != []
    ensures |iv| == 2 * BLOCK && |coded| % (2 * BLOCK) == 0
  {
    hide HexDecode, IsHexChar;
    EvenBlocks(|iv|);
    EvenBlocks(|coded|);
    NoColonInHex(iv);
    HexDecodes(iv);
    HexDecodes(coded);
  }

  lemma EvenBlocks(n: nat)
    requires n % 32 == 0
    ensures n % 2 == 0 && n % (2 * BLOCK) == 0
  {
    assert n == 2 * (16 * (n / 32));
  }

  lemma NoColonInHex(s: string)
    requires forall c | c in s :: IsHexChar(c)
    ensures ':' !in s
  {}

  /** A value is recognised as encrypted exactly if it has the prefix or is such a pair. */
  lemma RecognisedExactly(s: string)
    ensures IsEncryptedValue(s) <==> "v2:" <= s || exists iv, coded :: s == iv + ":" + coded && IsHexPair(iv, coded)
  {
    var (left, right) := Halves(s);
    HexDecodes(left);
    HexDecodes(right);
    if ':' in s {
      JoinedHalves(s);
    }
    forall iv, coded | s == iv + ":" + coded && IsHexPair(iv, coded)
      ensures IsEncryptedValue(s)
    {
      HexPairIsRecognised(iv, coded);
    }
    hide HexDecode, Halves, IsHexChar;
    if IsEncryptedValue(s) && !("v2:" <= s) {
      assert IsHexPair(left, right);
    }
  }

  lemma JoinedHalves(s: string)
    requires ':' in s
    ensures var (left, right) := Halves(s); s == left + ":" + right && ':' !in left
  {
    assert s[..|s|] == s;
    var i := Find(s, ':');
    assert s == s[..i] + [s[i]] + s[i + 1..];
  }

  /** Texts with a colon, such as a user's name and password or an address, are not taken for encrypted. */
  lemma PlainTextIsNot(left: string, right: string)
    requires ':' !in left && left != "v2" && (|left| != 32 || exists c :: c in left && !IsHexChar(c))
    ensures !IsEncryptedValue(left + ":" + right)
  {
    var s := left + ":" + right;
    HalvesOf(left, right);
    HexDecodes(left);
    NotV2(left, right);
    hide HexDecode, Halves, IsHexChar;
  }

  lemma NotV2(left: string, right: string)
    requires ':' !in left && left != "v2"
    ensures !("v2:" <= left + ":" + right)
  {
    var s := left + ":" + right;
    assert s[|left|] == ':';
    assert forall i | 0 <= i < |left| :: s[i] == left[i];
    V2Characters(s);
    assert |left| > 2 ==> left[2] in left;
    assert |left| == 2 ==> left == [left[0], left[1]];
  }

  lemma V2Characters(s: string)
    ensures "v2:" <= s ==> |s| >= 3 && s[0] == 'v' && s[1] == '2' && s[2] == ':'
  {}

  /** Of the values that decrypt, exactly those with a colon are recognised as encrypted: base64 without
      its prefix is not. */
  lemma RecognisesWithColon(lib: Library, v: Vault, s: string)
    requires Decrypt(lib, v, s).Success?
    ensures IsEncryptedValue(s) <==> ':' in s
  {
    hide HexDecode, Halves, DecryptBlocks, DecryptBase64;
    if V2 <= s {
      PrefixHasColon(s);
    } else if ':' in s {
      var iv, coded := HexDecode(Halves(s).0).value, HexDecode(Halves(s).1).value;
      DecryptedIsNotEmpty(lib, v.key, iv, coded);
    }
  }
}
