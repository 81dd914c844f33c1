/** The running-key exclusive-or stream that hides a blob's payload. */
module StreamCipher {
  import opened Bytes

  const BLOB_INFO_SIZE: nat := 68
  const XOR_KEY: Byte := 0x57

  function Sum(s: seq<Byte>): nat {
    if s == [] then 0 else Sum(s[..|s| - 1]) + s[|s| - 1]
  }

  /** The key for the byte that follows `plain`, when the payload begins at `start`. */
  function Key(plain: seq<Byte>, start: nat): Byte
    requires start <= |plain|
  {
    (XOR_KEY * (|plain| - start + 1) + Sum(plain[start..])) % 0x100
  }

  /** What the blob maker does: each payload byte is masked by the plain bytes before it. */
  function Encrypted(plain: seq<Byte>, start: nat): (r: seq<Byte>)
    ensures |r| == |plain|
  {
    if |plain| <= start then plain
    else
      var front := plain[..|plain| - 1];
      Encrypted(front, start) + [Xor(plain[|plain| - 1], Key(front, start))]
  }

  /** What the loader does: each payload byte is unmasked by the bytes already decrypted. */
  function Decrypted(cipher: seq<Byte>, start: nat): (r: seq<Byte>)
    ensures |r| == |cipher|
  {
    if |cipher| <= start then cipher
    else
      var front := Decrypted(cipher[..|cipher| - 1], start);
      front + [Xor(cipher[|cipher| - 1], Key(front, start))]
  }

  lemma {:induction false} EncryptDecrypted(cipher: seq<Byte>, start: nat)
    ensures Encrypted(Decrypted(cipher, start), start) == cipher
  {
    if |cipher| > start {
      var n := |cipher| - 1;
      var plain := Decrypted(cipher, start);
      EncryptDecrypted(cipher[..n], start);
      assert plain[..n] == Decrypted(cipher[..n], start);
      XorTwice(cipher[n], Key(plain[..n], start));
    }
  }

  lemma {:induction false} DecryptEncrypted(plain: seq<Byte>, start: nat)
    ensures Decrypted(Encrypted(plain, start), start) == plain
  {
    if |plain| > start {
      var n := |plain| - 1;
      var cipher := Encrypted(plain, start);
      DecryptEncrypted(plain[..n], start);
      assert cipher[..n] == Encrypted(plain[..n], start);
      XorTwice(plain[n], Key(plain[..n], start));
    }
  }

  /** Nothing before the payload changes, and byte `j` is unmasked with the key of the plain bytes before it. */
  lemma {:induction false} DecryptedAt(cipher: seq<Byte>, start: nat, j: nat)
    requires j < |cipher|
    ensures
      var plain := Decrypted(cipher, start);
      plain[j] == if j < start then cipher[j] else Xor(cipher[j], Key(plain[..j], start))
    decreases |cipher|
  {
    var n := |cipher| - 1;
    if n < start {
    } else if j < n {
      DecryptedAt(cipher[..n], start, j);
      assert Decrypted(cipher, start)[..j] == Decrypted(cipher[..n], start)[..j];
    } else {
      assert Decrypted(cipher, start)[..n] == Decrypted(cipher[..n], start);
    }
  }

  lemma NextKey(plain: seq<Byte>, start: nat, b: Byte)
    requires start <= |plain|
    ensures Key(plain + [b], start) == (Key(plain, start) + b + XOR_KEY) % 0x100
  {
    var payload := (plain + [b])[start..];
    assert payload[..|payload| - 1] == plain[start..];
  }

  lemma StartKey(plain: seq<Byte>)
    ensures Key(plain, |plain|) == XOR_KEY
  {}

  lemma PrefixDecrypted(cipher: seq<Byte>, start: nat, n: nat)
    requires start <= n < |cipher|
    ensures Decrypted(cipher[..n + 1], start)
         == Decrypted(cipher[..n], start) + [Xor(cipher[n], Key(Decrypted(cipher[..n], start), start))]
  {
    assert cipher[..n + 1][..n] == cipher[..n];
  }

  lemma UntouchedPrefix(data: seq<Byte>, start: nat)
    requires start <= |data|
    ensures Decrypted(data[..start], start) == data[..start]
  {}

  method DecryptBuffer(data: seq<Byte>, blobInfoOffset: nat) returns (r: seq<Byte>)
    ensures r == Decrypted(data, blobInfoOffset + BLOB_INFO_SIZE)
  {
    hide Xor;
    hide Key;
    hide Sum;
    var start := blobInfoOffset + BLOB_INFO_SIZE;
    if |data| <= start {
      return data;
    }
    UntouchedPrefix(data, start);
    hide Decrypted;
    var buf := Copy(data);
    var key := XOR_KEY;
    var i := start;
    ghost var plain := data[..start];
    StartKey(plain);
    while i < |data|
      invariant start <= i <= |data| == buf.Length
      invariant |plain| == i && plain == Decrypted(data[..i], start)
      invariant forall k :: 0 <= k < i ==> buf[k] == plain[k]
      invariant forall k :: i <= k < |data| ==> buf[k] == data[k]
      invariant key == Key(plain, start)
    {
      PrefixDecrypted(data, start, i);
      buf[i] := Xor(buf[i], key);
      NextKey(plain, start, buf[i]);
      key := (key + buf[i] + XOR_KEY) % 0x100;
      plain := plain + [buf[i]];
      i := i + 1;
    }
    r := buf[..];
    assert r == plain && data[..i] == data;
  }
}
