/**
 The third-party cipher, known only through its contract. An object of it is represented by
 the list of calls made on it so far, which determines all it will do.
 */
module Crypto {
  import opened Wrappers
  import opened Bytes
  import opened Protocol

  datatype Call =
    | SetName(name: Bytes)
    | SetBleData(bleKey: Bytes)
    | SetAppData(appKey: Bytes)
    | Encrypt(plain: Bytes)
    | Decrypt(frame: Bytes)

  type Crypto = seq<Call>

  /**
   `decrypt` is None when it raises. `paired(e, d)` says that an encrypting object `e` and a
   decrypting object `d` hold the same keys and are at the same message.
   */
  datatype Cipher = Cipher(
    encrypt: (Crypto, Bytes) -> Bytes,
    decrypt: (Crypto, Bytes) -> Option<Bytes>,
    paired: (Crypto, Crypto) -> bool)

  /** A whole plaintext frame: header plus as many data bytes as the length byte says. */
  predicate IsPlain(p: Bytes) {
    && |p| >= HEADER_LENGTH
    && MAGIC <= p
    && |p| == HEADER_LENGTH + p[2]
  }

  /**
   Paired objects: encryption adds six bytes and leaves the first three in the clear, decryption
   of that whole frame recovers the plaintext, and both sides move on to the next message.
   */
  predicate LawfulAt(c: Cipher, e: Crypto, d: Crypto, p: Bytes) {
    c.paired(e, d) && IsPlain(p) ==>
      var f := c.encrypt(e, p);
      && |f| == |p| + ENCRYPTION_OVERHEAD
      && f[..3] == p[..3]
      && c.decrypt(d, f) == Some(p)
      && c.paired(e + [Encrypt(p)], d + [Decrypt(f)])
  }

  ghost predicate Lawful(c: Cipher) {
    forall e: Crypto, d: Crypto, p: Bytes :: LawfulAt(c, e, d, p)
  }

  /** The frames decrypted so far, in order. */
  function Decryptions(s: Crypto): seq<Bytes> {
    if s == [] then []
    else Decryptions(s[..|s| - 1]) + (if s[|s| - 1].Decrypt? then [s[|s| - 1].frame] else [])
  }

  /** The keys installed so far, in order. */
  function Keys(s: Crypto): seq<Call> {
    if s == [] then []
    else Keys(s[..|s| - 1])
         + (if s[|s| - 1].SetBleData? || s[|s| - 1].SetAppData? then [s[|s| - 1]] else [])
  }

  lemma CallsGrow(s: Crypto, c: Call)
    ensures Decryptions(s + [c]) == Decryptions(s) + (if c.Decrypt? then [c.frame] else [])
    ensures Keys(s + [c]) == Keys(s) + (if c.SetBleData? || c.SetAppData? then [c] else [])
  {
    assert (s + [c])[..|s|] == s;
  }

  lemma EncryptGrows(s: Crypto, plain: Bytes)
    ensures Decryptions(s + [Encrypt(plain)]) == Decryptions(s)
    ensures Keys(s + [Encrypt(plain)]) == Keys(s)
  {
    CallsGrow(s, Encrypt(plain));
  }

  lemma KeyCallGrows(s: Crypto, c: Call)
    requires c.SetBleData? || c.SetAppData?
    ensures Decryptions(s + [c]) == Decryptions(s) && Keys(s + [c]) == Keys(s) + [c]
  {
    CallsGrow(s, c);
  }

  /** The stub of tests/fake_scooter.py: six zero bytes behind the plaintext. */
  function Stub(): Cipher {
    Cipher(
      (s: Crypto, p: Bytes) => p + [0, 0, 0, 0, 0, 0],
      (s: Crypto, f: Bytes) => if |f| >= 6 then Some(f[..|f| - 6]) else None,
      (e: Crypto, d: Crypto) => true)
  }

  /** The contract can be met. */
  lemma {:induction false} StubIsLawful()
    ensures Lawful(Stub())
  {
    forall e: Crypto, d: Crypto, p: Bytes
      ensures LawfulAt(Stub(), e, d, p)
    {
      if IsPlain(p) {
        var f := Stub().encrypt(e, p);
        assert f[..|f| - 6] == p;
      }
    }
  }
}
