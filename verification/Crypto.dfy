/**
 The interface of the client's CryptoEngine (crates/crypto/src/lib.rs).

 The primitives are fields of the engine, so every theorem is about every
 engine that obeys `Lawful`: key agreement is symmetric (section 6.1 of
 RFC 7748), opening undoes sealing, and a ciphertext does not open under
 another key. Nothing is assumed about collisions of the chain steps.
 */
module Crypto {
  import opened Wrappers

  /** Keys, nonces and ciphertexts are base64 text, as the client stores them. */
  type Key = string

  datatype CryptoEngine = CryptoEngine(
    decodes: Key -> bool,
    messageKeyOf: Key -> Key,
    nextChainOf: Key -> Key,
    publicOf: Key -> Key,
    agree: (Key, Key) -> Key,
    seal: (Key, string, string) -> string,
    open: (Key, string) -> Option<string>)
  {
    ghost predicate Lawful() {
      && (forall k :: decodes(messageKeyOf(k)))
      && (forall k :: decodes(nextChainOf(k)))
      && (forall k :: decodes(publicOf(k)))
      && (forall a, b :: decodes(agree(a, b)))
      && (forall a, b :: agree(a, publicOf(b)) == agree(b, publicOf(a)))
      && (forall k, nonce, text :: open(k, seal(k, nonce, text)) == Some(text))
      && (forall k, other, nonce, text :: other != k ==> open(other, seal(k, nonce, text)) == None)
    }

    /** One ratchet step: a message key and the next chain key, or an error for a key that is not 32 bytes. */
    function RatchetStep(chainKey: Key): Option<(Key, Key)> {
      if decodes(chainKey) then Some((messageKeyOf(chainKey), nextChainOf(chainKey))) else None
    }

    function DeriveSharedKey(ownPrivate: Key, peerPublic: Key): Option<Key> {
      if decodes(ownPrivate) && decodes(peerPublic) then Some(agree(ownPrivate, peerPublic)) else None
    }

    function Encrypt(key: Key, nonce: string, text: string): Option<string> {
      if decodes(key) then Some(seal(key, nonce, text)) else None
    }

    function Decrypt(key: Key, ciphertext: string): Option<string> {
      if decodes(key) then open(key, ciphertext) else None
    }

    /** The chain key n steps below `root`. */
    function Chain(root: Key, n: nat): Key {
      if n == 0 then root else nextChainOf(Chain(root, n - 1))
    }

    /** The key that encrypts the message with counter n. */
    function MessageKey(root: Key, n: nat): Key {
      messageKeyOf(Chain(root, n))
    }

    lemma ChainDecodes(root: Key, n: nat)
      requires Lawful() && decodes(root)
      ensures decodes(Chain(root, n))
    {
      if n > 0 {
        var previous := Chain(root, n - 1);
        assert decodes(nextChainOf(previous));
      }
    }

    lemma {:induction false} ChainAdds(root: Key, m: nat, n: nat)
      ensures Chain(Chain(root, m), n) == Chain(root, m + n)
    {
      if n > 0 {
        ChainAdds(root, m, n - 1);
      }
    }

    /** `ciphertext` was produced by encrypting `text` under some key. */
    ghost predicate Seals(ciphertext: string, text: string) {
      exists key, nonce :: ciphertext == seal(key, nonce, text)
    }

    /** Whatever key opens a sealed text, it yields that text. */
    lemma OpeningIsAuthentic(key: Key, ciphertext: string, text: string)
      requires Lawful() && Seals(ciphertext, text) && Decrypt(key, ciphertext).Some?
      ensures Decrypt(key, ciphertext) == Some(text)
    {
      var sealedWith, nonce :| ciphertext == seal(sealedWith, nonce, text);
      assert sealedWith != key ==> open(key, seal(sealedWith, nonce, text)) == None;
    }
  }

  /** Both ends derive the same root from each other's public key. */
  lemma SharedKeyIsSymmetric(crypto: CryptoEngine, a: Key, b: Key)
    requires crypto.Lawful() && crypto.decodes(a) && crypto.decodes(b)
    ensures crypto.DeriveSharedKey(a, crypto.publicOf(b)) == crypto.DeriveSharedKey(b, crypto.publicOf(a))
    ensures crypto.DeriveSharedKey(a, crypto.publicOf(b)).Some?
  {
    assert crypto.agree(a, crypto.publicOf(b)) == crypto.agree(b, crypto.publicOf(a));
    assert crypto.decodes(crypto.publicOf(a)) && crypto.decodes(crypto.publicOf(b));
  }

  /** A key that is not 32 bytes is refused everywhere; any other gives what the primitives give. */
  lemma KeysAreChecked(crypto: CryptoEngine, key: Key, other: Key, nonce: string, text: string)
    ensures !crypto.decodes(key) ==>
              && crypto.RatchetStep(key) == None && crypto.Encrypt(key, nonce, text) == None && crypto.Decrypt(key, text) == None
              && crypto.DeriveSharedKey(key, other) == None && crypto.DeriveSharedKey(other, key) == None
    ensures crypto.decodes(key) ==>
              && crypto.RatchetStep(key) == Some((crypto.messageKeyOf(key), crypto.nextChainOf(key)))
              && crypto.Encrypt(key, nonce, text) == Some(crypto.seal(key, nonce, text))
              && crypto.Decrypt(key, text) == crypto.open(key, text)
              && (crypto.decodes(other) ==> crypto.DeriveSharedKey(key, other) == Some(crypto.agree(key, other)))
  {
  }

  // ------------------------------------------------------------------
  // The laws are consistent: a toy engine obeys them.

  function Unary(n: nat): string {
    if n == 0 then "." else "|" + Unary(n - 1)
  }

  function ToySeal(key: Key, nonce: string, text: string): string {
    Unary(|key|) + key + text
  }

  function ToyOpen(key: Key, ciphertext: string): Option<string> {
    var header := Unary(|key|) + key;
    if header <= ciphertext then Some(ciphertext[|header|..]) else None
  }

  lemma {:induction false} UnaryIsPrefixFree(m: nat, n: nat, rest: string)
    ensures Unary(m) <= Unary(n) + rest <==> m == n
  {
    if m == 0 || n == 0 {
      assert Unary(m)[0] == if m == 0 then '.' else '|';
      assert (Unary(n) + rest)[0] == if n == 0 then '.' else '|';
    } else {
      UnaryIsPrefixFree(m - 1, n - 1, rest);
      assert Unary(n) + rest == "|" + (Unary(n - 1) + rest);
      var shorter := Unary(n - 1) + rest;
      if Unary(m) <= Unary(n) + rest {
        assert forall i | 0 <= i < |Unary(m - 1)| :: Unary(m - 1)[i] == Unary(m)[i + 1] == shorter[i];
      }
    }
  }

  lemma ToyOpenIsExact(key: Key, other: Key, nonce: string, text: string)
    ensures ToyOpen(key, ToySeal(key, nonce, text)) == Some(text)
    ensures other != key ==> ToyOpen(other, ToySeal(key, nonce, text)) == None
  {
    var sealed := ToySeal(key, nonce, text);
    assert sealed == (Unary(|key|) + key) + text;
    assert sealed == Unary(|key|) + (key + text);
    var header := Unary(|other|) + other;
    if header <= sealed {
      assert Unary(|other|) == header[..|Unary(|other|)|] == sealed[..|Unary(|other|)|];
      UnaryIsPrefixFree(|other|, |key|, key + text);
      var n := |Unary(|key|)|;
      assert other == header[n..] == sealed[..|header|][n..];
      assert key == sealed[n..n + |key|];
    }
  }

  lemma LawfulEnginesExist()
    ensures exists crypto: CryptoEngine :: crypto.Lawful()
  {
    var toy := CryptoEngine(
      (k: Key) => true, (k: Key) => "m" + k, (k: Key) => "c" + k, (k: Key) => "p" + k,
      (a: Key, b: Key) => "shared", ToySeal, ToyOpen);
    forall k: Key, other: Key, nonce: string, text: string
      ensures toy.open(k, toy.seal(k, nonce, text)) == Some(text)
      ensures other != k ==> toy.open(other, toy.seal(k, nonce, text)) == None
    {
      ToyOpenIsExact(k, other, nonce, text);
    }
    assert toy.Lawful();
  }
}
