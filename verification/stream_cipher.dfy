/** The shape of the traditional ZIP cipher with its arithmetic left open: a
    key state advanced by each PLAINTEXT symbol, and a keystream symbol drawn
    from the state and mixed into the data. Everything here holds for any key
    schedule `step`, any keystream function `stream` and any mixing function
    that undoes itself; the module ZipCrypto supplies the concrete ones
    (bytes, exclusive-or). */
module StreamCipher {

  /** Mixing a keystream symbol in twice gives back the data symbol, as
      exclusive-or does. */
  ghost predicate Involutive<B(!new)>(mix: (B, B) -> B) {
    forall a: B, s: B :: mix(mix(a, s), s) == a
  }

  /** Feeds a string through the key schedule, first symbol first. */
  function Feed<K, B>(step: (K, B) -> K, k: K, s: seq<B>): K
    decreases |s|
  {
    if |s| == 0 then k else Feed(step, step(k, s[0]), s[1..])
  }

  /** Decryption from state `k`: each plaintext symbol is the ciphertext
      symbol mixed with the keystream, and the state then advances with the
      plaintext symbol, not the ciphertext one. */
  function Decrypt<K, B>(step: (K, B) -> K, stream: K -> B, mix: (B, B) -> B, k: K, cs: seq<B>): (ps: seq<B>)
    ensures |ps| == |cs|
    decreases |cs|
  {
    if |cs| == 0 then []
    else
      var p := mix(cs[0], stream(k));
      [p] + Decrypt(step, stream, mix, step(k, p), cs[1..])
  }

  /** Encryption from state `k`; the state advances with the plaintext here
      too, so both directions walk through the same states. */
  function Encrypt<K, B>(step: (K, B) -> K, stream: K -> B, mix: (B, B) -> B, k: K, ps: seq<B>): (cs: seq<B>)
    ensures |cs| == |ps|
    decreases |ps|
  {
    if |ps| == 0 then []
    else
      [mix(ps[0], stream(k))] + Encrypt(step, stream, mix, step(k, ps[0]), ps[1..])
  }

  /** Feeding a concatenation is feeding its parts in turn. */
  lemma {:induction false} FeedAppend<K, B>(step: (K, B) -> K, k: K, a: seq<B>, b: seq<B>)
    ensures Feed(step, k, a + b) == Feed(step, Feed(step, k, a), b)
    decreases |a|
  {
    if |a| > 0 {
      assert (a + b)[0] == a[0] && (a + b)[1..] == a[1..] + b;
      FeedAppend(step, step(k, a[0]), a[1..], b);
    } else {
      assert a + b == b;
    }
  }

  /** Feeding one more symbol of a string is one more step. */
  lemma FeedSnoc<K, B>(step: (K, B) -> K, k: K, s: seq<B>, i: nat)
    requires i < |s|
    ensures Feed(step, k, s[..i + 1]) == step(Feed(step, k, s[..i]), s[i])
  {
    assert s[..i + 1] == s[..i] + [s[i]];
    FeedAppend(step, k, s[..i], [s[i]]);
    assert [s[i]][1..] == [];
  }

  /** Decrypting one more symbol appends that symbol mixed with the keystream
      of the state reached by feeding the plaintext recovered so far. */
  lemma {:induction false} DecryptSnoc<K, B>(step: (K, B) -> K, stream: K -> B, mix: (B, B) -> B, k: K, cs: seq<B>, c: B)
    ensures Decrypt(step, stream, mix, k, cs + [c])
         == Decrypt(step, stream, mix, k, cs) + [mix(c, stream(Feed(step, k, Decrypt(step, stream, mix, k, cs))))]
    decreases |cs|
  {
    if |cs| == 0 {
      assert cs + [c] == [c];
    } else {
      var p := mix(cs[0], stream(k));
      var rest := Decrypt(step, stream, mix, step(k, p), cs[1..]);
      assert (cs + [c])[0] == cs[0] && (cs + [c])[1..] == cs[1..] + [c];
      assert Decrypt(step, stream, mix, k, cs) == [p] + rest;
      DecryptSnoc(step, stream, mix, step(k, p), cs[1..], c);
      assert ([p] + rest)[0] == p && ([p] + rest)[1..] == rest;
    }
  }

  /** Encryption undoes decryption from the same state. */
  lemma {:induction false} EncryptDecrypt<K, B(!new)>(step: (K, B) -> K, stream: K -> B, mix: (B, B) -> B, k: K, cs: seq<B>)
    requires Involutive(mix)
    ensures Encrypt(step, stream, mix, k, Decrypt(step, stream, mix, k, cs)) == cs
    decreases |cs|
  {
    if |cs| > 0 {
      var p := mix(cs[0], stream(k));
      var rest := Decrypt(step, stream, mix, step(k, p), cs[1..]);
      var d := Decrypt(step, stream, mix, k, cs);
      assert d == [p] + rest;
      assert d[0] == p && d[1..] == rest;
      assert mix(p, stream(k)) == cs[0];
      EncryptDecrypt(step, stream, mix, step(k, p), cs[1..]);
      assert cs == [cs[0]] + cs[1..];
    }
  }

  /** Decryption undoes encryption from the same state. */
  lemma {:induction false} DecryptEncrypt<K, B(!new)>(step: (K, B) -> K, stream: K -> B, mix: (B, B) -> B, k: K, ps: seq<B>)
    requires Involutive(mix)
    ensures Decrypt(step, stream, mix, k, Encrypt(step, stream, mix, k, ps)) == ps
    decreases |ps|
  {
    if |ps| > 0 {
      var c := mix(ps[0], stream(k));
      var rest := Encrypt(step, stream, mix, step(k, ps[0]), ps[1..]);
      var e := Encrypt(step, stream, mix, k, ps);
      assert e == [c] + rest;
      assert e[0] == c && e[1..] == rest;
      assert mix(c, stream(k)) == ps[0];
      DecryptEncrypt(step, stream, mix, step(k, ps[0]), ps[1..]);
      assert ps == [ps[0]] + ps[1..];
    }
  }

  /** Decryption reads its input front to back: a prefix of the ciphertext
      decrypts to the same prefix of the plaintext. */
  lemma {:induction false} DecryptPrefix<K, B>(step: (K, B) -> K, stream: K -> B, mix: (B, B) -> B, k: K, cs: seq<B>, n: nat)
    requires n <= |cs|
    ensures Decrypt(step, stream, mix, k, cs[..n]) == Decrypt(step, stream, mix, k, cs)[..n]
    decreases n
  {
    if n > 0 {
      var p := mix(cs[0], stream(k));
      assert cs[..n][0] == cs[0] && cs[..n][1..] == cs[1..][..n - 1];
      DecryptPrefix(step, stream, mix, step(k, p), cs[1..], n - 1);
    }
  }
}
