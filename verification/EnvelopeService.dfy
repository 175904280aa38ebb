/**
 * `EnvelopeEncryption` with its buffers: data keys are wiped once used, keys from the cache
 * are only borrowed, and a key can be lost while its borrower waits to go on. What other
 * callers do to the cache meanwhile is an input: before a missing key is stored (`others`),
 * and before the key handed out is used (`gap`).
 */
module EnvelopeService {
  import opened Basics
  import opened Encoding
  import opened KeyCache
  import opened Kms
  import opened Envelope

  /** The cache after a decryption: a truncated record asks for no key, and a failure to unwrap ends it. */
  function SlotsAfter(
      c: Cipher, p: Provider, limits: Limits, slots: seq<Slot>, payload: Payload, now: int,
      others: seq<Op>, gap: seq<Op>)
    : seq<Slot>
  {
    if |payload.ciphertext| < IV_BYTES + TAG_BYTES then slots
    else
      var answered := Unwrap(c, p, payload.wrappedKey, payload.keyVersion).Ok?;
      var cached := After(limits, slots, Steps(slots, payload.wrappedKey, payload.keyVersion, now, answered, others));
      if answered then After(limits, cached, gap) else cached
  }

  class EnvelopeEncryption {
    const cipher: Cipher
    const provider: Provider
    const cache: CachingKms

    ghost predicate Valid()
      reads cache, cache.Buffers()
    {
      && IsProvider(provider) && cache.Valid()
      && forall w: seq<byte>, v: nat :: cache.inner(w, v) == Unwrap(cipher, provider, w, v)
    }

    constructor (cipher: Cipher, provider: Provider, cache: CachingKms)
      requires IsProvider(provider) && cache.Valid()
      requires forall w: seq<byte>, v: nat :: cache.inner(w, v) == Unwrap(cipher, provider, w, v)
      ensures Valid() && this.cipher == cipher && this.provider == provider && this.cache == cache
    {
      this.cipher, this.provider, this.cache := cipher, provider, cache;
    }

    /** The data key is wiped whatever happens. */
    method Encrypt(data: seq<byte>, context: Context, r: Random)
      returns (payload: Result<Payload, Failure>, key: array<byte>)
      requires IsProvider(provider)
      ensures payload == Encrypted(cipher, provider, data, context, r)
      ensures fresh(key) && IsZeroed(key[..])
    {
      key := new byte[0];
      if context.userId == "" || context.field == "" {
        return Err(EncryptionFailure), key;
      }
      var dataKey := GenerateDataKey(cipher, provider, r.dek, r.wrapIv);
      key := new byte[|dataKey.plaintext|](i requires 0 <= i < |dataKey.plaintext| => dataKey.plaintext[i]);
      assert key[..] == dataKey.plaintext;
      payload := Ok(SealRecord(cipher, dataKey.(plaintext := key[..]), r.iv, data, context));
      Zero(key);
    }

    /** The key was handed out and others go on before it is used; it is never wiped here. */
    method Open(key: array<byte>, payload: Payload, context: Context, gap: seq<Op>)
      returns (result: Result<seq<byte>, Failure>)
      requires Valid() && AreAnswered(cache.inner, gap)
      requires |payload.ciphertext| >= IV_BYTES + TAG_BYTES
      requires exists e <- cache.entries ::
          e.slot.cacheKey == CacheKey(payload.keyVersion, payload.wrappedKey) && e.buffer == key
      modifies cache`entries, cache.Buffers()
      ensures Valid() && fresh(cache.Buffers() - old(cache.Buffers()))
      ensures cache.Slots() == After(cache.limits, old(cache.Slots()), gap)
      ensures var cacheKey := CacheKey(payload.keyVersion, payload.wrappedKey);
              var lost := FateOf(cache.limits, old(cache.Slots()), cacheKey, gap) == Zeroed;
              result == OpenRecord(cipher, if lost then Zeros(key.Length) else old(key[..]), payload, context)
    {
      hide OpenRecord, Unwrap, After, FateOf, CacheKey, Fits, AreDistinct, HaveOwnBuffers, SlotsOf;
      ghost var was := key[..];
      ghost var fate := FateOf(cache.limits, cache.Slots(), CacheKey(payload.keyVersion, payload.wrappedKey), gap);
      cache.Others(gap);
      assert fate == Zeroed ==> IsZeroed(key[..]) && key[..] == Zeros(key.Length);
      assert fate != Zeroed ==> key[..] == was;
      result := OpenRecord(cipher, key[..], payload, context);
    }

    /** Whether this decryption's key is overwritten before it is used. */
    ghost predicate Loses(payload: Payload, now: int, others: seq<Op>, gap: seq<Op>)
      reads cache
    {
      LosesKey(cache.limits, cache.Slots(), payload.wrappedKey, payload.keyVersion, now, others, gap)
    }

    /** The record is opened with its data key, or with zeros if the cache dropped the key before it was used. */
    method Decrypt(payload: Payload, context: Context, now: int, others: seq<Op>, gap: seq<Op>)
      returns (result: Result<seq<byte>, Failure>)
      requires Valid() && AreAnswered(cache.inner, others) && AreAnswered(cache.inner, gap)
      modifies cache`entries, cache.Buffers()
      ensures Valid() && fresh(cache.Buffers() - old(cache.Buffers()))
      ensures result == DecryptedWith(cipher, provider, payload, context, old(Loses(payload, now, others, gap)))
      ensures cache.Slots() == SlotsAfter(cipher, provider, cache.limits, old(cache.Slots()), payload, now, others, gap)
    {
      hide OpenRecord, Unwrap, After, FateOf, Steps, CacheKey, Fits, AreDistinct, HaveOwnBuffers, SlotsOf;
      if |payload.ciphertext| < IV_BYTES + TAG_BYTES {
        return Err(EncryptionFailure);
      }
      var unwrapped := cache.UnwrapDataKey(payload.wrappedKey, payload.keyVersion, now, others);
      assert cache.inner(payload.wrappedKey, payload.keyVersion) ==
             Unwrap(cipher, provider, payload.wrappedKey, payload.keyVersion);
      if unwrapped.Err? {
        return Err(unwrapped.error);
      }
      result := Open(unwrapped.value, payload, context, gap);
    }

    /** The plaintext of a rotation is wiped; a record already under the current version is left as it is. */
    method Rotate(payload: Payload, context: Context, r: Random, now: int, others: seq<Op>, gap: seq<Op>)
      returns (result: Result<Payload, Failure>, buffer: array<byte>)
      requires Valid() && AreAnswered(cache.inner, others) && AreAnswered(cache.inner, gap)
      modifies cache`entries, cache.Buffers()
      ensures Valid() && fresh(cache.Buffers() - old(cache.Buffers()))
      ensures fresh(buffer) && IsZeroed(buffer[..])
      ensures result == RotatedWith(cipher, provider, payload, context, r, old(Loses(payload, now, others, gap)))
      ensures cache.Slots() ==
              if payload.keyVersion == provider.current then old(cache.Slots())
              else SlotsAfter(cipher, provider, cache.limits, old(cache.Slots()), payload, now, others, gap)
    {
      hide SlotsAfter, DecryptedWith, Encrypted, LosesKey, Fits, AreDistinct, HaveOwnBuffers, SlotsOf;
      buffer := new byte[0];
      if payload.keyVersion == provider.current {
        return Ok(payload), buffer;
      }
      var plaintext := Decrypt(payload, context, now, others, gap);
      if plaintext.Err? {
        return Err(plaintext.error), buffer;
      }
      buffer := new byte[|plaintext.value|](i requires 0 <= i < |plaintext.value| => plaintext.value[i]);
      assert buffer[..] == plaintext.value;
      var key;
      result, key := Encrypt(buffer[..], context, r);
      Zero(buffer);
    }
  }
}
