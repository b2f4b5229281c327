/** The order of the steps of AES-128 (FIPS 197, sections 5.1, 5.3 and 5.3.5) and of its chained use
    (NIST SP 800-38A, section 6.2), over an arbitrary type of states. */
module BlockCipher {

  /** The steps of a round: the key addition, the unkeyed half of a round with its inverse, and the
      linear mixing with its inverse. */
  datatype Steps<!S> = Steps(add: (S, S) -> S, scramble: S -> S, unscramble: S -> S, mix: S -> S, unmix: S -> S)

  ghost predicate Cancels<S>(x: Steps<S>, s: S, k: S) {
    x.add(x.add(s, k), k) == s
  }

  ghost predicate Undone<S>(x: Steps<S>, s: S) {
    x.unscramble(x.scramble(s)) == s && x.unmix(x.mix(s)) == s
  }

  ghost predicate Distributes<S>(x: Steps<S>, s: S, k: S) {
    x.unmix(x.add(s, k)) == x.add(x.unmix(s), x.unmix(k))
  }

  ghost predicate Lawful<S(!new)>(x: Steps<S>) {
    && (forall s: S, k: S :: Cancels(x, s, k))
    && (forall s: S :: Undone(x, s))
    && (forall s: S, k: S :: Distributes(x, s, k))
  }

  /** Nr for a 128-bit key. */
  const ROUNDS: nat := 10

  /** The eleven round keys, by round. */
  type Keys<S> = nat -> S

  /** The state after round r of the cipher, section 5.1. */
  function Forward<S>(x: Steps<S>, keys: Keys<S>, s: S, r: nat): S {
    if r == 0 then x.add(s, keys(0))
    else x.add(x.mix(x.scramble(Forward(x, keys, s, r - 1))), keys(r))
  }

  function Cipher<S>(x: Steps<S>, keys: Keys<S>, s: S): S {
    x.add(x.scramble(Forward(x, keys, s, ROUNDS - 1)), keys(ROUNDS))
  }

  /** The state after k mixing rounds of the inverse cipher, section 5.3. */
  function Backward<S>(x: Steps<S>, keys: Keys<S>, s: S, k: nat): S
    requires k <= ROUNDS
  {
    if k == 0 then x.add(s, keys(ROUNDS))
    else x.unmix(x.add(x.unscramble(Backward(x, keys, s, k - 1)), keys(ROUNDS - k)))
  }

  function InvCipher<S>(x: Steps<S>, keys: Keys<S>, s: S): S {
    x.add(x.unscramble(Backward(x, keys, s, ROUNDS - 1)), keys(0))
  }

  /** The state after k rounds of the equivalent inverse cipher, section 5.3.5, under mixed round keys. */
  function Equivalent<S>(x: Steps<S>, keys: Keys<S>, s: S, k: nat): S
    requires k <= ROUNDS
  {
    if k == 0 then x.add(s, keys(ROUNDS))
    else x.add(x.unmix(x.unscramble(Equivalent(x, keys, s, k - 1))), x.unmix(keys(ROUNDS - k)))
  }

  /** The two forms of the inverse cipher pass through the same states. */
  lemma {:induction false} EquivalentIsBackward<S(!new)>(x: Steps<S>, keys: Keys<S>, s: S, k: nat)
    requires Lawful(x) && k <= ROUNDS
    ensures Equivalent(x, keys, s, k) == Backward(x, keys, s, k)
  {
    if k > 0 {
      EquivalentIsBackward(x, keys, s, k - 1);
      assert Distributes(x, x.unscramble(Backward(x, keys, s, k - 1)), keys(ROUNDS - k));
    }
  }

  lemma RoundUndone<S(!new)>(x: Steps<S>, last: S, key: S)
    requires Lawful(x)
    ensures var next := x.add(x.mix(x.scramble(last)), key);
            x.unmix(x.add(x.unscramble(x.scramble(next)), key)) == x.scramble(last)
  {
    assert Undone(x, x.add(x.mix(x.scramble(last)), key));
    assert Cancels(x, x.mix(x.scramble(last)), key);
    assert Undone(x, x.scramble(last));
  }

  lemma KeyCancels<S(!new)>(x: Steps<S>, s: S, k: S)
    requires Lawful(x)
    ensures x.add(x.add(s, k), k) == s
  {
    assert Cancels(x, s, k);
  }

  lemma ForwardStep<S>(x: Steps<S>, keys: Keys<S>, s: S, r: nat)
    requires r > 0
    ensures Forward(x, keys, s, r) == x.add(x.mix(x.scramble(Forward(x, keys, s, r - 1))), keys(r))
  {
  }

  /** The inverse cipher runs through the states of the cipher in reverse. */
  lemma {:induction false} BackwardRetraces<S(!new)>(x: Steps<S>, keys: Keys<S>, s: S, k: nat)
    requires Lawful(x) && k < ROUNDS
    ensures Backward(x, keys, Cipher(x, keys, s), k) == x.scramble(Forward(x, keys, s, ROUNDS - 1 - k))
    decreases k
  {
    hide Lawful, Forward;
    var r := ROUNDS - 1 - k;
    var last := Forward(x, keys, s, r);
    if k == 0 {
      KeyCancels(x, x.scramble(last), keys(ROUNDS));
    } else {
      BackwardRetraces(x, keys, s, k - 1);
      ForwardStep(x, keys, s, r + 1);
      RoundUndone(x, last, keys(r + 1));
    }
  }

  /** Decryption undoes encryption of one block. */
  lemma CipherUndone<S(!new)>(x: Steps<S>, keys: Keys<S>, s: S)
    requires Lawful(x)
    ensures InvCipher(x, keys, Cipher(x, keys, s)) == s
  {
    BackwardRetraces(x, keys, s, ROUNDS - 1);
    assert Undone(x, Forward(x, keys, s, 0));
    assert Cancels(x, s, keys(0));
  }

  /** Chained encryption, section 6.2 of SP 800-38A. */
  function EncryptCbc<S>(x: Steps<S>, keys: Keys<S>, plain: seq<S>, iv: S): (coded: seq<S>)
    ensures |coded| == |plain|
  {
    if plain == [] then []
    else
      var c := Cipher(x, keys, x.add(plain[0], iv));
      [c] + EncryptCbc(x, keys, plain[1..], c)
  }

  /** A function of every block and the one before it. */
  function Chain<S>(f: (S, S) -> S, coded: seq<S>, iv: S): (r: seq<S>)
    ensures |r| == |coded|
  {
    seq(|coded|, i requires 0 <= i < |coded| => f(coded[i], if i == 0 then iv else coded[i - 1]))
  }

  lemma ChainStep<S>(f: (S, S) -> S, c: S, rest: seq<S>, iv: S)
    ensures Chain(f, [c] + rest, iv) == [f(c, iv)] + Chain(f, rest, c)
  {
  }

  function DecryptBlock<S>(x: Steps<S>, keys: Keys<S>): (S, S) -> S {
    (c, chained) => x.add(InvCipher(x, keys, c), chained)
  }

  /** Chained decryption, section 6.2 of SP 800-38A. */
  function DecryptCbc<S>(x: Steps<S>, keys: Keys<S>, coded: seq<S>, iv: S): (r: seq<S>) {
    Chain(DecryptBlock(x, keys), coded, iv)
  }

  /** Chained decryption undoes chained encryption of any number of blocks. */
  lemma {:induction false} CbcUndone<S(!new)>(x: Steps<S>, keys: Keys<S>, plain: seq<S>, iv: S)
    requires Lawful(x)
    ensures DecryptCbc(x, keys, EncryptCbc(x, keys, plain, iv), iv) == plain
  {
    if plain != [] {
      var s := x.add(plain[0], iv);
      var c := Cipher(x, keys, s);
      CipherUndone(x, keys, s);
      assert Cancels(x, plain[0], iv);
      CbcUndone(x, keys, plain[1..], c);
      ChainStep(DecryptBlock(x, keys), c, EncryptCbc(x, keys, plain[1..], c), iv);
    }
  }
}
