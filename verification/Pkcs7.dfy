/** AES-128-ECB with PKCS#7 padding (section 6.3 of RFC 5652), over any invertible
    16-byte block cipher. */
module Pkcs7 {
  import opened Wrappers
  import opened Prelude

  type BlockMap = seq<byte> -> seq<byte>

  /** The key schedule's two directions. */
  datatype Cipher = Cipher(encrypt: BlockMap, decrypt: BlockMap)

  ghost predicate OnBlocks(f: BlockMap) {
    forall b :: |b| == 16 ==> |f(b)| == 16
  }

  ghost predicate Inverse(f: BlockMap, g: BlockMap) {
    forall b :: |b| == 16 ==> g(f(b)) == b
  }

  ghost predicate Invertible(c: Cipher) {
    && OnBlocks(c.encrypt) && OnBlocks(c.decrypt)
    && Inverse(c.encrypt, c.decrypt) && Inverse(c.decrypt, c.encrypt)
  }

  datatype DecryptError = EmptyInput | InvalidPadding

  // ---- electronic code book ----

  function MapBlocks(f: BlockMap, s: seq<byte>): seq<byte> {
    if |s| < 16 then [] else f(s[..16]) + MapBlocks(f, s[16..])
  }

  lemma {:induction false} MapBlocksLength(f: BlockMap, s: seq<byte>)
    requires OnBlocks(f) && |s| % 16 == 0
    ensures |MapBlocks(f, s)| == |s|
  {
    if s != [] { MapBlocksLength(f, s[16..]); }
  }

  lemma MapBlocksCons(f: BlockMap, head: seq<byte>, tail: seq<byte>)
    requires |head| == 16
    ensures MapBlocks(f, head + tail) == f(head) + MapBlocks(f, tail)
  {
    assert (head + tail)[..16] == head && (head + tail)[16..] == tail;
  }

  lemma {:induction false} MapBlocksInverse(f: BlockMap, g: BlockMap, s: seq<byte>)
    requires OnBlocks(f) && Inverse(f, g) && |s| % 16 == 0
    ensures MapBlocks(g, MapBlocks(f, s)) == s
  {
    if s != [] {
      MapBlocksInverse(f, g, s[16..]);
      MapBlocksCons(g, f(s[..16]), MapBlocks(f, s[16..]));
      assert s == s[..16] + s[16..];
    }
  }

  /** Block k of the output is the transform of block k of the input. */
  lemma {:induction false} MapBlocksAt(f: BlockMap, s: seq<byte>, k: nat)
    requires OnBlocks(f) && |s| % 16 == 0 && 16 * k + 16 <= |s|
    ensures |MapBlocks(f, s)| == |s|
    ensures MapBlocks(f, s)[16 * k..16 * k + 16] == f(s[16 * k..16 * k + 16])
  {
    MapBlocksLength(f, s);
    var head, tail := f(s[..16]), MapBlocks(f, s[16..]);
    if k > 0 {
      MapBlocksAt(f, s[16..], k - 1);
      assert (head + tail)[16 * k..16 * k + 16] == tail[16 * (k - 1)..16 * (k - 1) + 16];
      assert s[16..][16 * (k - 1)..16 * (k - 1) + 16] == s[16 * k..16 * k + 16];
    }
  }

  method WriteBlock(a: array<byte>, k: nat, block: seq<byte>)
    requires k + 16 <= a.Length && |block| == 16
    modifies a
    ensures a[..] == old(a[..k]) + block + old(a[k + 16..])
  {
    forall i | 0 <= i < 16 {
      a[k + i] := block[i];
    }
  }

  /** The first k bytes of s transformed, the rest not yet. */
  ghost function Partly(f: BlockMap, s: seq<byte>, k: nat): seq<byte>
    requires k <= |s|
  {
    MapBlocks(f, s[..k]) + s[k..]
  }

  lemma {:induction false} MapBlocksSnoc(f: BlockMap, s: seq<byte>, block: seq<byte>)
    requires |s| % 16 == 0 && |block| == 16
    ensures MapBlocks(f, s + block) == MapBlocks(f, s) + f(block)
  {
    if s == [] {
      assert s + block == block + [];
      MapBlocksCons(f, block, []);
    } else {
      MapBlocksSnoc(f, s[16..], block);
      assert s + block == s[..16] + (s[16..] + block);
      MapBlocksCons(f, s[..16], s[16..] + block);
    }
  }

  lemma PartlyStep(f: BlockMap, s: seq<byte>, k: nat)
    requires OnBlocks(f) && k % 16 == 0 && k + 16 <= |s|
    ensures |Partly(f, s, k)| == |s| && Partly(f, s, k)[k..k + 16] == s[k..k + 16]
    ensures Partly(f, s, k)[..k] + f(s[k..k + 16]) + Partly(f, s, k)[k + 16..] == Partly(f, s, k + 16)
  {
    MapBlocksLength(f, s[..k]);
    MapBlocksSnoc(f, s[..k], s[k..k + 16]);
    assert s[..k] + s[k..k + 16] == s[..k + 16];
    assert Partly(f, s, k)[k + 16..] == s[k + 16..];
  }

  /** The chunk loop, in place. */
  method TransformBlocks(a: array<byte>, f: BlockMap)
    requires a.Length % 16 == 0 && OnBlocks(f)
    modifies a
    ensures a[..] == MapBlocks(f, old(a[..]))
  {
    ghost var was := a[..];
    var k := 0;
    assert Partly(f, was, 0) == was;
    while k < a.Length
      invariant 0 <= k <= a.Length && k % 16 == 0
      invariant a[..] == Partly(f, was, k)
      decreases a.Length - k
    {
      PartlyStep(f, was, k);
      assert a[k..k + 16] == a[..][k..k + 16] == was[k..k + 16];
      assert a[..k] == a[..][..k] && a[k + 16..] == a[..][k + 16..];
      WriteBlock(a, k, f(a[k..k + 16]));
      k := k + 16;
    }
    assert was[..k] == was && was[k..] == [];
  }

  // ---- padding ----

  function PadLength(n: nat): nat {
    16 - n % 16
  }

  function Repeat(b: byte, n: nat): seq<byte> {
    seq(n, _ => b)
  }

  function Pad(p: seq<byte>): seq<byte> {
    p + Repeat(PadLength(|p|), PadLength(|p|))
  }

  /** The plaintext comes first, then 16 - |p| % 16 bytes of that very value. */
  lemma PadMeans(p: seq<byte>)
    ensures |Pad(p)| == |p| + 16 - |p| % 16 && Pad(p)[..|p|] == p
    ensures forall i :: |p| <= i < |Pad(p)| ==> Pad(p)[i] == 16 - |p| % 16
  {
  }

  /** Padding removed, with the checks of the source in their order. */
  function Unpad(s: seq<byte>): Result<seq<byte>, DecryptError>
    requires s != []
  {
    var n := s[|s| - 1];
    if n == 0 || n > 16 || n > |s| then Err(InvalidPadding)
    else if s[|s| - n..] != Repeat(n, n) then Err(InvalidPadding)
    else Ok(s[..|s| - n])
  }

  lemma UnpadOfPad(p: seq<byte>)
    ensures |Pad(p)| == 16 * (|p| / 16 + 1) && Unpad(Pad(p)) == Ok(p)
  {
    var n, s := PadLength(|p|), Pad(p);
    assert s[|s| - n..] == Repeat(n, n) && s[..|s| - n] == p;
  }

  lemma PadOfUnpad(s: seq<byte>, p: seq<byte>)
    requires s != [] && |s| % 16 == 0 && Unpad(s) == Ok(p)
    ensures Pad(p) == s
  {
    var n := s[|s| - 1];
    assert |p| == |s| - n && PadLength(|p|) == n;
    assert s == s[..|s| - n] + s[|s| - n..];
  }

  // ---- the two functions ----

  function Encrypted(c: Cipher, p: seq<byte>): seq<byte> {
    MapBlocks(c.encrypt, Pad(p))
  }

  function Decrypted(c: Cipher, x: seq<byte>): Result<seq<byte>, DecryptError> {
    if x == [] then Err(EmptyInput)
    else if |x| % 16 != 0 then Err(InvalidPadding)
    else if MapBlocks(c.decrypt, x) == [] then Err(EmptyInput)
    else Unpad(MapBlocks(c.decrypt, x))
  }

  method Encrypt(c: Cipher, plaintext: seq<byte>) returns (out: seq<byte>)
    requires Invertible(c)
    ensures out == Encrypted(c, plaintext)
  {
    var padLength := 16 - |plaintext| % 16;
    var padded := Buffer(plaintext + Repeat(padLength, padLength));
    UnpadOfPad(plaintext);
    TransformBlocks(padded, c.encrypt);
    out := padded[..];
  }

  method Buffer(s: seq<byte>) returns (a: array<byte>)
    ensures fresh(a) && a[..] == s
  {
    a := new byte[|s|](i requires 0 <= i < |s| => s[i]);
  }

  method Decrypt(c: Cipher, encrypted: seq<byte>) returns (r: Result<seq<byte>, DecryptError>)
    requires Invertible(c)
    ensures r == Decrypted(c, encrypted)
  {
    if encrypted == [] {
      return Err(EmptyInput);
    }
    if |encrypted| % 16 != 0 {
      return Err(InvalidPadding);
    }
    var decrypted := Buffer(encrypted);
    TransformBlocks(decrypted, c.decrypt);
    MapBlocksLength(c.decrypt, encrypted);
    r := StripPadding(decrypted);
  }

  method StripPadding(a: array<byte>) returns (r: Result<seq<byte>, DecryptError>)
    requires a.Length > 0
    ensures r == Unpad(a[..])
  {
    var padLength := a[a.Length - 1];
    if padLength == 0 || padLength > 16 || padLength > a.Length {
      return Err(InvalidPadding);
    }
    var start := a.Length - padLength;
    var i := start;
    while i < a.Length && a[i] == padLength
      invariant start <= i <= a.Length
      invariant forall j :: start <= j < i ==> a[j] == padLength
    {
      i := i + 1;
    }
    if i < a.Length {
      assert a[..][start..][i - start] != Repeat(padLength, padLength)[i - start];
      return Err(InvalidPadding);
    }
    assert a[..][start..] == Repeat(padLength, padLength);
    assert a[..][..start] == a[..start];
    return Ok(a[..start]);
  }

  /** Decryption undoes encryption on every plaintext, whose ciphertext is always the next
      larger multiple of sixteen long. */
  lemma DecryptEncrypt(c: Cipher, p: seq<byte>)
    requires Invertible(c)
    ensures |Encrypted(c, p)| == 16 * (|p| / 16 + 1)
    ensures Decrypted(c, Encrypted(c, p)) == Ok(p)
  {
    UnpadOfPad(p);
    MapBlocksLength(c.encrypt, Pad(p));
    MapBlocksInverse(c.encrypt, c.decrypt, Pad(p));
  }

  /** And it accepts nothing else: what decrypts to p is the encryption of p. */
  lemma EncryptDecrypt(c: Cipher, x: seq<byte>, p: seq<byte>)
    requires Invertible(c) && Decrypted(c, x) == Ok(p)
    ensures Encrypted(c, p) == x
  {
    MapBlocksLength(c.decrypt, x);
    PadOfUnpad(MapBlocks(c.decrypt, x), p);
    MapBlocksInverse(c.decrypt, c.encrypt, x);
  }

  /** Nothing at all is an empty input; anything else that is no ciphertext is bad padding. */
  lemma DecryptErrors(c: Cipher, x: seq<byte>)
    requires Invertible(c) && forall p :: Encrypted(c, p) != x
    ensures Decrypted(c, x) == Err(if x == [] then EmptyInput else InvalidPadding)
  {
    if x != [] && |x| % 16 == 0 {
      MapBlocksLength(c.decrypt, x);
      if Decrypted(c, x).Ok? { EncryptDecrypt(c, x, Decrypted(c, x).value); }
    }
  }

  lemma AcceptsExactlyCiphertexts(c: Cipher, x: seq<byte>)
    requires Invertible(c)
    ensures Decrypted(c, x).Ok? <==> exists p :: Encrypted(c, p) == x
  {
    if Decrypted(c, x).Ok? {
      EncryptDecrypt(c, x, Decrypted(c, x).value);
    }
    if p :| Encrypted(c, p) == x {
      DecryptEncrypt(c, p);
    }
  }
}
