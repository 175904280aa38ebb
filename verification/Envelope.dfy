/**
 * Envelope encryption over versions of the master key. The cipher is a parameter: the round
 * trips ask that opening undoes sealing and that sealing keeps the length; what is bound to
 * a record is shown for an ideal authenticated cipher.
 */
module Envelope {
  import opened Basics
  import opened Encoding
  import opened Strings
  import opened Kms

  type Bytes = seq<byte>

  const IV_BYTES := 12
  const TAG_BYTES := 16
  const DEK_BYTES := 32

  // ---- The cipher ----

  datatype Sealed = Sealed(tag: Bytes, text: Bytes)

  /** Authenticated encryption under a key, a nonce and associated data. */
  datatype Cipher = Cipher(seal: (Bytes, Bytes, Bytes, Bytes) -> Sealed,
                           open: (Bytes, Bytes, Bytes, Sealed) -> Option<Bytes>)

  /** One use of the cipher. */
  datatype Sealing = Sealing(key: Bytes, iv: Bytes, aad: Bytes, plain: Bytes)

  function SealedBy(c: Cipher, s: Sealing): Sealed {
    c.seal(s.key, s.iv, s.aad, s.plain)
  }

  ghost predicate OpensAs(c: Cipher, s: Sealing) {
    && |SealedBy(c, s).tag| == TAG_BYTES && |SealedBy(c, s).text| == |s.plain|
    && c.open(s.key, s.iv, s.aad, SealedBy(c, s)) == Some(s.plain)
  }

  ghost predicate IsSound(c: Cipher) {
    forall s: Sealing :: OpensAs(c, s)
  }

  /**
   * Authenticated encryption with nothing left to chance: what has been sealed opens, no two
   * sealings look the same, and whatever opens was sealed with that key, nonce and data.
   */
  ghost predicate IsIdeal(c: Cipher, issued: set<Sealing>) {
    && (forall s <- issued :: OpensAs(c, s))
    && (forall s <- issued, t <- issued :: SealedBy(c, s) == SealedBy(c, t) ==> s == t)
    && (forall key: Bytes, iv: Bytes, aad: Bytes, x: Sealed :: c.open(key, iv, aad, x).Some? ==>
          var s := Sealing(key, iv, aad, c.open(key, iv, aad, x).value);
          s in issued && SealedBy(c, s) == x)
  }

  /** The numbers that fit in so many bytes. */
  function Numbers(bytes: nat): nat {
    if bytes == 0 then 1 else 256 * Numbers(bytes - 1)
  }

  function NumberTag(n: nat, bytes: nat): (tag: Bytes)
    ensures |tag| == bytes
  {
    if bytes == 0 then [] else NumberTag(n / 256, bytes - 1) + [n % 256]
  }

  lemma {:induction false} TagsAreDistinct(m: nat, n: nat, bytes: nat)
    requires m < Numbers(bytes) && n < Numbers(bytes) && NumberTag(m, bytes) == NumberTag(n, bytes)
    ensures m == n
  {
    if bytes > 0 {
      var x, y := NumberTag(m / 256, bytes - 1), NumberTag(n / 256, bytes - 1);
      assert (x + [m % 256])[..bytes - 1] == x && (y + [n % 256])[..bytes - 1] == y;
      assert (x + [m % 256])[bytes - 1] == (y + [n % 256])[bytes - 1];
      TagsAreDistinct(m / 256, n / 256, bytes - 1);
    }
  }

  lemma {:induction false} Ordered(issued: set<Sealing>) returns (order: seq<Sealing>)
    ensures |order| == |issued| && forall s :: s in order <==> s in issued
  {
    if issued == {} {
      order := [];
    } else {
      var s :| s in issued;
      var rest := Ordered(issued - {s});
      order := rest + [s];
    }
  }

  function PlaceOf(order: seq<Sealing>, s: Sealing): (k: nat)
    ensures k <= |order| && (k < |order| ==> order[k] == s)
    ensures s in order ==> k < |order|
  {
    if order == [] || order[0] == s then 0 else 1 + PlaceOf(order[1..], s)
  }

  /** There are such ciphers, for as many sealings as there are tags: each is given its own. */
  lemma {:induction false} IdealCiphersExist(issued: set<Sealing>) returns (c: Cipher)
    requires |issued| <= Numbers(TAG_BYTES)
    ensures IsIdeal(c, issued)
  {
    hide Numbers, NumberTag;
    var order := Ordered(issued);
    c := Cipher((key: Bytes, iv: Bytes, aad: Bytes, plain: Bytes) =>
                  Sealed(NumberTag(PlaceOf(order, Sealing(key, iv, aad, plain)), TAG_BYTES), plain),
                (key: Bytes, iv: Bytes, aad: Bytes, x: Sealed) =>
                  var s := Sealing(key, iv, aad, x.text);
                  if s in issued && x.tag == NumberTag(PlaceOf(order, s), TAG_BYTES) then Some(x.text) else None);
    forall s <- issued, t <- issued | SealedBy(c, s) == SealedBy(c, t) ensures s == t {
      TagsAreDistinct(PlaceOf(order, s), PlaceOf(order, t), TAG_BYTES);
    }
  }

  // ---- The stored layout ----

  /** `iv || tag || ciphertext`. */
  function Pack(iv: Bytes, s: Sealed): Bytes {
    iv + s.tag + s.text
  }

  function IvOf(packed: Bytes): Bytes
    requires |packed| >= IV_BYTES + TAG_BYTES
  {
    packed[..IV_BYTES]
  }

  function SealedOf(packed: Bytes): Sealed
    requires |packed| >= IV_BYTES + TAG_BYTES
  {
    Sealed(packed[IV_BYTES..IV_BYTES + TAG_BYTES], packed[IV_BYTES + TAG_BYTES..])
  }

  lemma {:induction false} UnpackUndoesPack(iv: Bytes, s: Sealed)
    requires |iv| == IV_BYTES && |s.tag| == TAG_BYTES
    ensures |Pack(iv, s)| == IV_BYTES + TAG_BYTES + |s.text|
    ensures IvOf(Pack(iv, s)) == iv && SealedOf(Pack(iv, s)) == s
  {
    var packed := Pack(iv, s);
    assert packed[..IV_BYTES] == iv;
    assert packed[IV_BYTES..IV_BYTES + TAG_BYTES] == s.tag;
    assert packed[IV_BYTES + TAG_BYTES..] == s.text;
  }

  // ---- Master key versions ----

  datatype Provider = Provider(current: nat, keks: map<nat, Bytes>)

  /** `Math.max(1, ...versions)`. */
  ghost function Highest(versions: set<nat>): (m: nat)
    ensures m >= 1 && forall v <- versions :: v <= m
    ensures m == 1 || m in versions
  {
    if versions == {} then 1
    else
      var v :| v in versions;
      var rest := Highest(versions - {v});
      assert versions == versions - {v} + {v};
      if v > rest then v else rest
  }

  /** A provider for a new master key that remembers the previous ones. */
  ghost function NewProvider(master: Bytes, previous: map<nat, Bytes>): Result<Provider, Failure> {
    if |master| != DEK_BYTES then Err(EncryptionFailure)
    else
      var current := Highest(previous.Keys) + if |previous| > 0 then 1 else 0;
      Ok(Provider(current, previous[current := master]))
  }

  predicate IsProvider(p: Provider) {
    p.current in p.keks
  }

  /** The new version is new: no earlier key is overwritten, and every earlier version keeps its key. */
  lemma {:induction false} NewVersionIsNew(master: Bytes, previous: map<nat, Bytes>)
    requires |master| == DEK_BYTES
    ensures var p := NewProvider(master, previous).value;
            && IsProvider(p) && p.keks[p.current] == master
            && p.current !in previous && (forall v <- previous :: v < p.current)
            && (forall v <- previous :: v in p.keks && p.keks[v] == previous[v])
  {
    var m := Highest(previous.Keys);
    if |previous| == 0 {
      assert previous == map[];
    }
  }

  // ---- Data keys ----

  datatype DataKey = DataKey(plaintext: Bytes, wrapped: Bytes, keyVersion: nat)

  function GenerateDataKey(c: Cipher, p: Provider, dek: Bytes, iv: Bytes): DataKey
    requires IsProvider(p)
  {
    DataKey(dek, Pack(iv, c.seal(p.keks[p.current], iv, [], dek)), p.current)
  }

  function Unwrap(c: Cipher, p: Provider, wrapped: Bytes, version: nat): Result<Bytes, Failure> {
    if |wrapped| <= IV_BYTES + TAG_BYTES then Err(EncryptionFailure)
    else if version !in p.keks then Err(EncryptionFailure)
    else
      match c.open(p.keks[version], IvOf(wrapped), [], SealedOf(wrapped))
      case None => Err(EncryptionFailure)
      case Some(key) => Ok(key)
  }

  // ---- Records ----

  datatype Context = Context(userId: string, field: string)

  function Aad(context: Context): Bytes {
    Utf8(context.userId + ":" + context.field)
  }

  datatype Payload = Payload(ciphertext: Bytes, wrappedKey: Bytes, keyVersion: nat)

  /** What the random source hands out for one encryption. */
  datatype Random = Random(dek: Bytes, wrapIv: Bytes, iv: Bytes)

  predicate IsRandom(r: Random) {
    |r.dek| == DEK_BYTES && |r.wrapIv| == IV_BYTES && |r.iv| == IV_BYTES
  }

  function SealRecord(c: Cipher, key: DataKey, iv: Bytes, plain: Bytes, context: Context): Payload {
    Payload(Pack(iv, c.seal(key.plaintext, iv, Aad(context), plain)), key.wrapped, key.keyVersion)
  }

  function Encrypted(c: Cipher, p: Provider, plain: Bytes, context: Context, r: Random): Result<Payload, Failure>
    requires IsProvider(p)
  {
    if context.userId == "" || context.field == "" then Err(EncryptionFailure)
    else Ok(SealRecord(c, GenerateDataKey(c, p, r.dek, r.wrapIv), r.iv, plain, context))
  }

  function OpenRecord(c: Cipher, key: Bytes, payload: Payload, context: Context): Result<Bytes, Failure>
    requires |payload.ciphertext| >= IV_BYTES + TAG_BYTES
  {
    match c.open(key, IvOf(payload.ciphertext), Aad(context), SealedOf(payload.ciphertext))
    case None => Err(EncryptionFailure)
    case Some(plain) => Ok(plain)
  }

  function Zeros(n: nat): Bytes {
    seq(n, _ => 0)
  }

  /** Decryption with the data key, or with the zeros that were left of it when it was used. */
  function DecryptedWith(c: Cipher, p: Provider, payload: Payload, context: Context, lost: bool)
    : Result<Bytes, Failure>
  {
    if |payload.ciphertext| < IV_BYTES + TAG_BYTES then Err(EncryptionFailure)
    else
      match Unwrap(c, p, payload.wrappedKey, payload.keyVersion)
      case Err(e) => Err(e)
      case Ok(key) => OpenRecord(c, if lost then Zeros(|key|) else key, payload, context)
  }

  function Decrypted(c: Cipher, p: Provider, payload: Payload, context: Context): Result<Bytes, Failure> {
    DecryptedWith(c, p, payload, context, false)
  }

  function RotatedWith(c: Cipher, p: Provider, payload: Payload, context: Context, r: Random, lost: bool)
    : Result<Payload, Failure>
    requires IsProvider(p)
  {
    if payload.keyVersion == p.current then Ok(payload)
    else
      match DecryptedWith(c, p, payload, context, lost)
      case Err(e) => Err(e)
      case Ok(plain) => Encrypted(c, p, plain, context, r)
  }

  function Rotated(c: Cipher, p: Provider, payload: Payload, context: Context, r: Random): Result<Payload, Failure>
    requires IsProvider(p)
  {
    RotatedWith(c, p, payload, context, r, false)
  }

  // ---- Round trip ----

  /** The two uses of the cipher in one encryption: wrapping the data key and sealing the record. */
  function SealingsOf(p: Provider, plain: Bytes, context: Context, r: Random): set<Sealing>
    requires IsProvider(p)
  {
    {Sealing(p.keks[p.current], r.wrapIv, [], r.dek), Sealing(r.dek, r.iv, Aad(context), plain)}
  }

  lemma {:induction false} SealOpens(c: Cipher, s: Sealing)
    requires OpensAs(c, s) && |s.iv| == IV_BYTES
    ensures var packed := Pack(s.iv, SealedBy(c, s));
            && |packed| == IV_BYTES + TAG_BYTES + |s.plain|
            && IvOf(packed) == s.iv && SealedOf(packed) == SealedBy(c, s)
            && c.open(s.key, IvOf(packed), s.aad, SealedOf(packed)) == Some(s.plain)
  {
    UnpackUndoesPack(s.iv, SealedBy(c, s));
  }

  lemma {:induction false} DecryptUndoesEncrypt(c: Cipher, p: Provider, plain: Bytes, context: Context, r: Random)
    requires IsProvider(p) && IsRandom(r) && forall s <- SealingsOf(p, plain, context, r) :: OpensAs(c, s)
    ensures Encrypted(c, p, plain, context, r).Ok? <==> context.userId != "" && context.field != ""
    ensures Encrypted(c, p, plain, context, r).Ok? ==>
              var payload := Encrypted(c, p, plain, context, r).value;
              && Decrypted(c, p, payload, context) == Ok(plain)
              && |payload.ciphertext| == 28 + |plain| && |payload.wrappedKey| == 60
              && payload.keyVersion == p.current
  {
    SealOpens(c, Sealing(p.keks[p.current], r.wrapIv, [], r.dek));
    SealOpens(c, Sealing(r.dek, r.iv, Aad(context), plain));
  }

  /** An older version's key opens as before under a provider that remembers it. */
  lemma {:induction false} NewMasterStillDecrypts(
      c: Cipher, p: Provider, master: Bytes, payload: Payload, context: Context)
    requires NewProvider(master, p.keks).Ok?
    requires Decrypted(c, p, payload, context).Ok?
    ensures Decrypted(c, NewProvider(master, p.keks).value, payload, context) == Decrypted(c, p, payload, context)
  {
    NewVersionIsNew(master, p.keks);
  }

  lemma {:induction false} RotateStillDecrypts(
      c: Cipher, p: Provider, payload: Payload, context: Context, r: Random, plain: Bytes)
    requires IsProvider(p) && IsRandom(r) && forall s <- SealingsOf(p, plain, context, r) :: OpensAs(c, s)
    requires context.userId != "" && context.field != ""
    requires Decrypted(c, p, payload, context) == Ok(plain)
    ensures var rotated := Rotated(c, p, payload, context, r);
            rotated.Ok? && rotated.value.keyVersion == p.current && Decrypted(c, p, rotated.value, context) == Ok(plain)
  {
    if payload.keyVersion != p.current {
      DecryptUndoesEncrypt(c, p, plain, context, r);
    }
  }

  // ---- What the associated data binds ----

  /** Contexts whose user ids have no colon never share their associated data. */
  lemma {:induction false} AadIdentifiesTheRecord(a: Context, b: Context)
    requires ':' !in a.userId && ':' !in b.userId
    ensures Aad(a) == Aad(b) <==> a == b
  {
    if Aad(a) == Aad(b) {
      Utf8RoundTrip(a.userId + ":" + a.field);
      Utf8RoundTrip(b.userId + ":" + b.field);
      SplitsAtFirst(a.userId, b.userId, a.field, b.field, ':');
    }
  }

  /** With a colon in a user id two records can. */
  lemma {:induction false} ColonMakesThemAmbiguous(x: string, y: string, z: string)
    ensures Aad(Context(x + ":" + y, z)) == Aad(Context(x, y + ":" + z))
    ensures Context(x + ":" + y, z) != Context(x, y + ":" + z)
  {
    assert x + ":" + y + ":" + z == x + ":" + (y + ":" + z);
    assert |x + ":" + y| > |x|;
  }

  lemma {:induction false} SplitAtColon(s: string) returns (x: string, y: string)
    requires ':' in s
    ensures s == x + ":" + y
  {
    var i :| 0 <= i < |s| && s[i] == ':';
    x, y := s[..i], s[i + 1..];
  }

  /** Among all contexts, a record's associated data is its own exactly when neither of its parts has a colon. */
  lemma {:induction false} AadIsItsOwnExactly(a: Context)
    ensures (forall b: Context :: Aad(b) == Aad(a) ==> b == a) <==> ':' !in a.userId && ':' !in a.field
  {
    hide Aad;
    if ':' in a.userId {
      var x, y := SplitAtColon(a.userId);
      ColonMakesThemAmbiguous(x, y, a.field);
      assert Aad(Context(x, y + ":" + a.field)) == Aad(a);
    } else if ':' in a.field {
      var x, y := SplitAtColon(a.field);
      ColonMakesThemAmbiguous(a.userId, x, y);
      assert Aad(Context(a.userId + ":" + x, y)) == Aad(a);
    } else {
      forall b: Context | Aad(b) == Aad(a) ensures b == a {
        OneColon(a, b);
      }
    }
  }

  lemma {:induction false} OneColon(a: Context, b: Context)
    requires ':' !in a.userId && ':' !in a.field && Aad(b) == Aad(a)
    ensures b == a
  {
    var s, t := a.userId + ":" + a.field, b.userId + ":" + b.field;
    Utf8RoundTrip(s);
    Utf8RoundTrip(t);
    var i := |a.userId|;
    assert forall k :: 0 <= k < |s| && s[k] == ':' ==> k == i;
    assert t[|b.userId|] == ':';
    assert s[..i] == a.userId && s[i + 1..] == a.field;
    assert t[..i] == b.userId && t[i + 1..] == b.field;
  }

  // ---- What an ideal cipher adds ----

  /** Whatever decrypts, with the right key or not, was sealed for this context. */
  lemma {:induction false} DecryptedWasSealed(
      c: Cipher, issued: set<Sealing>, p: Provider, payload: Payload, context: Context, lost: bool)
    requires IsIdeal(c, issued)
    requires DecryptedWith(c, p, payload, context, lost).Ok?
    ensures var key := Unwrap(c, p, payload.wrappedKey, payload.keyVersion).value;
            var s := Sealing(if lost then Zeros(|key|) else key, IvOf(payload.ciphertext), Aad(context),
                             DecryptedWith(c, p, payload, context, lost).value);
            s in issued && SealedBy(c, s) == SealedOf(payload.ciphertext)
  {
  }

  /** A ciphertext opens, if at all, as what was sealed in it, and only for the data it was sealed with. */
  lemma {:induction false} OpensOnlyAsSealed(
      c: Cipher, issued: set<Sealing>, s: Sealing, p: Provider, payload: Payload, context: Context, lost: bool)
    requires IsIdeal(c, issued) && s in issued && |s.iv| == IV_BYTES
    requires payload.ciphertext == Pack(s.iv, SealedBy(c, s))
    requires DecryptedWith(c, p, payload, context, lost).Ok?
    ensures DecryptedWith(c, p, payload, context, lost) == Ok(s.plain) && Aad(context) == s.aad
    ensures lost ==> IsZeroed(s.key)
  {
    SealOpens(c, s);
    DecryptedWasSealed(c, issued, p, payload, context, lost);
  }

  /** A record pasted into another row or field is refused, whatever key is wrapped beside it. */
  lemma {:induction false} PastedRecordIsRefused(
      c: Cipher, issued: set<Sealing>, s: Sealing, from: Context, p: Provider, payload: Payload, into: Context,
      lost: bool)
    requires IsIdeal(c, issued) && s in issued && |s.iv| == IV_BYTES && s.aad == Aad(from)
    requires payload.ciphertext == Pack(s.iv, SealedBy(c, s))
    requires from != into && ':' !in from.userId && ':' !in into.userId
    ensures DecryptedWith(c, p, payload, into, lost) == Err(EncryptionFailure)
  {
    AadIdentifiesTheRecord(from, into);
    if DecryptedWith(c, p, payload, into, lost).Ok? {
      OpensOnlyAsSealed(c, issued, s, p, payload, into, lost);
      assert false;
    }
  }

  /** Without the master key its data key was wrapped under, a record does not open, whatever key takes its place. */
  lemma {:induction false} OtherMasterOpensNothing(
      c: Cipher, issued: set<Sealing>, p: Provider, q: Provider, plain: Bytes, context: Context, into: Context,
      r: Random, lost: bool)
    requires IsIdeal(c, issued) && IsProvider(p) && IsRandom(r) && SealingsOf(p, plain, context, r) <= issued
    requires context.userId != "" && context.field != ""
    requires p.current !in q.keks || q.keks[p.current] != p.keks[p.current]
    ensures DecryptedWith(c, q, Encrypted(c, p, plain, context, r).value, into, lost) == Err(EncryptionFailure)
  {
    var wrap := Sealing(p.keks[p.current], r.wrapIv, [], r.dek);
    SealOpens(c, wrap);
  }

  /** Opened with a lost key, a record gives nothing rather than something wrong. */
  lemma {:induction false} LostKeyOpensNothingElse(
      c: Cipher, issued: set<Sealing>, p: Provider, payload: Payload, context: Context, plain: Bytes)
    requires IsIdeal(c, issued) && Decrypted(c, p, payload, context) == Ok(plain)
    ensures DecryptedWith(c, p, payload, context, true) ==
            if IsZeroed(Unwrap(c, p, payload.wrappedKey, payload.keyVersion).value) then Ok(plain)
            else Err(EncryptionFailure)
  {
    var key := Unwrap(c, p, payload.wrappedKey, payload.keyVersion).value;
    DecryptedWasSealed(c, issued, p, payload, context, false);
    if DecryptedWith(c, p, payload, context, true).Ok? {
      DecryptedWasSealed(c, issued, p, payload, context, true);
    }
    assert IsZeroed(key) ==> key == Zeros(|key|);
  }

  /** So a rotation persists the record's own plaintext or nothing, also when its key is lost on the way. */
  lemma {:induction false} RotationPersistsThePlaintextOrNothing(
      c: Cipher, issued: set<Sealing>, p: Provider, payload: Payload, context: Context, r: Random, plain: Bytes,
      lost: bool)
    requires IsIdeal(c, issued) && IsProvider(p) && IsRandom(r) && SealingsOf(p, plain, context, r) <= issued
    requires context.userId != "" && context.field != ""
    requires Decrypted(c, p, payload, context) == Ok(plain)
    ensures var rotated := RotatedWith(c, p, payload, context, r, lost);
            && (rotated.Ok? ==>
                  && rotated.value.keyVersion == p.current
                  && Decrypted(c, p, rotated.value, context) == Ok(plain))
            && (rotated.Err? ==> lost && payload.keyVersion != p.current)
  {
    hide IsIdeal, DecryptedWith, Encrypted;
    IdealOpens(c, issued, SealingsOf(p, plain, context, r));
    RotateStillDecrypts(c, p, payload, context, r, plain);
    LostKeyOpensNothingElse(c, issued, p, payload, context, plain);
  }

  lemma {:induction false} IdealOpens(c: Cipher, issued: set<Sealing>, some: set<Sealing>)
    requires IsIdeal(c, issued) && some <= issued
    ensures forall s <- some :: OpensAs(c, s)
  {
  }
}
