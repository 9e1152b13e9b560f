/**
 * The ciphers behind `src/crypto/packet_crypto.c` and `src/crypto/traffic_crypto.c`.
 *
 * AES-CTR, AES-GCM and the PQC cipher (AES-256-GCM) all add a key stream to the data; the two GCM
 * forms append a tag over the ciphertext.  The key streams and the tag functions are arbitrary
 * functions here, so what is proved holds of any of them.
 */
module Cipher {
  import opened Bytes

  const TAG_LEN: nat := 16
  const NONCE_LEN: nat := 12
  const BACKUP_LEN: nat := 2048

  datatype Mode = Ctr | Gcm | Pqc

  type Tag = t: bytes | |t| == TAG_LEN witness seq(16, _ => 0)
  type Nonce = t: bytes | |t| == NONCE_LEN witness seq(12, _ => 0)
  type Key = bytes

  datatype Suite = Suite(stream: (Mode, Key, bytes, nat) -> uint8, tag: (Mode, Key, bytes, bytes) -> Tag)

  /** The three key slots of a crypto context. */
  datatype Keys = Keys(prev: Key, current: Key, next: Key)

  /** Does a mode carry a tag, and how many bytes does it add? */
  function TagLen(mode: Mode): nat { if mode.Ctr? then 0 else TAG_LEN }

  /** CTR pads the 12-byte nonce to a 16-byte IV. */
  function Iv(mode: Mode, nonce: Nonce): bytes {
    if mode.Ctr? then nonce + [0, 0, 0, 0] else nonce
  }

  /** Adds the key stream: encryption and decryption alike. */
  function Crypt(s: Suite, mode: Mode, key: Key, nonce: Nonce, data: bytes): (r: bytes)
    ensures |r| == |data|
  {
    var iv := Iv(mode, nonce);
    seq(|data|, i requires 0 <= i < |data| => Xor(data[i], s.stream(mode, key, iv, i)))
  }

  lemma CryptInvolution(s: Suite, mode: Mode, key: Key, nonce: Nonce, data: bytes)
    ensures Crypt(s, mode, key, nonce, Crypt(s, mode, key, nonce, data)) == data
  {
    var iv := Iv(mode, nonce);
    var once := Crypt(s, mode, key, nonce, data);
    var twice := Crypt(s, mode, key, nonce, once);
    forall i | 0 <= i < |data| ensures twice[i] == data[i] {
      XorInvolution(data[i], s.stream(mode, key, iv, i));
    }
  }

  /** Ciphertext followed, in the GCM modes, by its tag. */
  function Seal(s: Suite, mode: Mode, key: Key, nonce: Nonce, plain: bytes): (r: bytes)
    ensures |r| == |plain| + TagLen(mode)
  {
    var ct := Crypt(s, mode, key, nonce, plain);
    if mode.Ctr? then ct else ct + s.tag(mode, key, Iv(mode, nonce), ct)
  }

  /**
   * What CTR, which has no tag, asks of a plaintext: nothing of a fragment, ports of an L3 payload, TTL and
   * protocol of an L2 one.
   */
  datatype PlainCheck = Anything | Ports(proto: uint8) | Ipv4Header

  predicate Plausible(check: PlainCheck, p: bytes) {
    match check
    case Anything => true
    case Ports(proto) =>
      (proto == 6 || proto == 17) ==> |p| >= 4 && (U16(p[0], p[1]) != 0 || U16(p[2], p[3]) != 0)
    case Ipv4Header =>
      |p| >= 20 && p[8] != 0
      && (p[9] == 1 || p[9] == 2 || p[9] == 6 || p[9] == 17 || p[9] == 47 || p[9] == 50 || p[9] == 51
          || p[9] == 58 || p[9] == 89 || p[9] == 132)
  }

  /** Whether one key is taken: GCM compares tags (an empty ciphertext is never checked), CTR asks `check`. */
  predicate Accepts(s: Suite, mode: Mode, key: Key, nonce: Nonce, ct: bytes, tag: bytes, check: PlainCheck) {
    match mode
    case Ctr => Plausible(check, Crypt(s, mode, key, nonce, ct))
    case Gcm => |ct| == 0 || s.tag(mode, key, Iv(mode, nonce), ct) == tag
    case Pqc => s.tag(mode, key, Iv(mode, nonce), ct) == tag
  }

  /**
   * The key retry loop.  A refused key has already been applied to the buffer, so the next key sees
   * the original ciphertext only when it fitted the backup buffer.
   */
  function TryKeys(s: Suite, mode: Mode, order: seq<Key>, nonce: Nonce, work: bytes, ct: bytes, tag: bytes,
                   check: PlainCheck): (r: Option<bytes>)
    requires |work| == |ct|
    ensures r.Some? ==> |r.value| == |ct|
  {
    if order == [] then None
    else if Accepts(s, mode, order[0], nonce, work, tag, check) then Some(Crypt(s, mode, order[0], nonce, work))
    else TryKeys(s, mode, order[1..], nonce,
                 if |ct| <= BACKUP_LEN then ct else Crypt(s, mode, order[0], nonce, work), ct, tag, check)
  }

  /** CTR and GCM retry current, previous, next; PQC has the current key only. */
  function KeyOrder(mode: Mode, keys: Keys): seq<Key> {
    if mode.Pqc? then [keys.current] else [keys.current, keys.prev, keys.next]
  }

  /** Decrypts what `Seal` produced; None is the error return. */
  function Open(s: Suite, mode: Mode, order: seq<Key>, nonce: Nonce, sealed: bytes, check: PlainCheck): (r: Option<bytes>)
    ensures r.Some? ==> |r.value| + TagLen(mode) == |sealed|
  {
    if |sealed| < TagLen(mode) || (mode.Pqc? && |sealed| == TAG_LEN) then None
    else
      var n := |sealed| - TagLen(mode);
      TryKeys(s, mode, order, nonce, sealed[..n], sealed[..n], sealed[n..], check)
  }

  /** A receiver whose first key is the sender's recovers the plaintext. */
  lemma OpenSeal(s: Suite, mode: Mode, key: Key, order: seq<Key>, nonce: Nonce, plain: bytes, check: PlainCheck)
    requires order != [] && order[0] == key
    requires mode.Pqc? ==> |plain| > 0
    requires mode.Ctr? ==> Plausible(check, plain)
    ensures Open(s, mode, order, nonce, Seal(s, mode, key, nonce, plain), check) == Some(plain)
  {
    var sealed := Seal(s, mode, key, nonce, plain);
    var ct := Crypt(s, mode, key, nonce, plain);
    assert sealed[..|plain|] == ct;
    assert !mode.Ctr? ==> sealed[|plain|..] == s.tag(mode, key, Iv(mode, nonce), ct);
    CryptInvolution(s, mode, key, nonce, plain);
  }

  /** CTR has no tag: whatever it opens is plausible, under whichever key. */
  lemma {:induction false} CtrKeysPlausible(s: Suite, order: seq<Key>, nonce: Nonce, work: bytes, ct: bytes, tag: bytes,
                                            check: PlainCheck)
    requires |work| == |ct| && TryKeys(s, Ctr, order, nonce, work, ct, tag, check).Some?
    ensures Plausible(check, TryKeys(s, Ctr, order, nonce, work, ct, tag, check).value)
    decreases |order|
  {
    hide Plausible, Crypt;
    if !Accepts(s, Ctr, order[0], nonce, work, tag, check) {
      var next := if |ct| <= BACKUP_LEN then ct else Crypt(s, Ctr, order[0], nonce, work);
      CtrKeysPlausible(s, order[1..], nonce, next, ct, tag, check);
    }
  }

  /** So in CTR a plaintext comes back exactly when it is plausible; with one key the packet is lost otherwise. */
  lemma OpenSealCtr(s: Suite, key: Key, order: seq<Key>, nonce: Nonce, plain: bytes, check: PlainCheck)
    requires order != [] && order[0] == key
    ensures var r := Open(s, Ctr, order, nonce, Seal(s, Ctr, key, nonce, plain), check);
            (r.Some? ==> Plausible(check, r.value)) && (r == Some(plain) <==> Plausible(check, plain))
            && (|order| == 1 && !Plausible(check, plain) ==> r == None)
  {
    var sealed := Seal(s, Ctr, key, nonce, plain);
    hide Plausible, Crypt;
    assert sealed[..|sealed|] == sealed;
    CryptInvolution(s, Ctr, key, nonce, plain);
    if Open(s, Ctr, order, nonce, sealed, check).Some? {
      CtrKeysPlausible(s, order, nonce, sealed, sealed, sealed[|sealed|..], check);
    }
  }

  /**
   * After a key change the right key may sit in a later slot: it is still found when every earlier
   * key refuses the packet and the packet fits the backup buffer.
   */
  lemma {:induction false} TryKeysLater(s: Suite, mode: Mode, order: seq<Key>, k: nat, nonce: Nonce, ct: bytes, tag: bytes,
                                        check: PlainCheck)
    requires k < |order| && |ct| <= BACKUP_LEN
    requires forall j :: 0 <= j < k ==> !Accepts(s, mode, order[j], nonce, ct, tag, check)
    requires Accepts(s, mode, order[k], nonce, ct, tag, check)
    ensures TryKeys(s, mode, order, nonce, ct, ct, tag, check) == Some(Crypt(s, mode, order[k], nonce, ct))
  {
    if k > 0 {
      assert !Accepts(s, mode, order[0], nonce, ct, tag, check);
      TryKeysLater(s, mode, order[1..], k - 1, nonce, ct, tag, check);
    }
  }

  /** So a packet sealed under a later slot's key is opened if no earlier key takes it and it fits the backup buffer. */
  lemma OpenSealLater(s: Suite, mode: Mode, order: seq<Key>, k: nat, nonce: Nonce, plain: bytes, check: PlainCheck)
    requires k < |order| && |plain| <= BACKUP_LEN
    requires mode.Pqc? ==> |plain| > 0
    requires mode.Ctr? ==> Plausible(check, plain)
    requires var ct := Crypt(s, mode, order[k], nonce, plain);
             var tag := if mode.Ctr? then [] else s.tag(mode, order[k], Iv(mode, nonce), ct);
             forall j :: 0 <= j < k ==> !Accepts(s, mode, order[j], nonce, ct, tag, check)
    ensures Open(s, mode, order, nonce, Seal(s, mode, order[k], nonce, plain), check) == Some(plain)
  {
    hide Crypt, TryKeys, Iv, Plausible;
    var sealed := Seal(s, mode, order[k], nonce, plain);
    var ct := Crypt(s, mode, order[k], nonce, plain);
    assert sealed[..|plain|] == ct;
    assert sealed[|plain|..] == if mode.Ctr? then [] else s.tag(mode, order[k], Iv(mode, nonce), ct);
    CryptInvolution(s, mode, order[k], nonce, plain);
    TryKeysLater(s, mode, order, k, nonce, ct, sealed[|plain|..], check);
  }

  lemma TryKeysAt(s: Suite, mode: Mode, order: seq<Key>, k: nat, nonce: Nonce, work: bytes, ct: bytes, tag: bytes,
                  check: PlainCheck)
    requires |work| == |ct| && k <= |order|
    ensures TryKeys(s, mode, order[k..], nonce, work, ct, tag, check)
         == if k == |order| then None
            else if Accepts(s, mode, order[k], nonce, work, tag, check) then Some(Crypt(s, mode, order[k], nonce, work))
            else TryKeys(s, mode, order[k + 1..], nonce,
                         if |ct| <= BACKUP_LEN then ct else Crypt(s, mode, order[k], nonce, work), ct, tag, check)
  {
    assert k < |order| ==> order[k..][1..] == order[k + 1..];
  }

  /** Encrypts `len` bytes in place and appends the tag. */
  method SealInPlace(s: Suite, mode: Mode, key: Key, nonce: Nonce, a: array<uint8>, off: nat, len: nat)
    requires off + len + TagLen(mode) <= a.Length
    modifies a
    ensures a[..] == Splice(old(a[..]), off, Seal(s, mode, key, nonce, old(a[off..off + len])))
  {
    ghost var before := a[..];
    var ct := Crypt(s, mode, key, nonce, a[off..off + len]);
    Write(a, off, ct);
    if !mode.Ctr? {
      var tag := s.tag(mode, key, Iv(mode, nonce), ct);
      Write(a, off + len, tag);
      SpliceAdjacent(before, off, ct, tag);
    }
  }

  /** One round of the retry loop: restores the ciphertext when asked, applies the key, says whether it is taken. */
  method TryKeyInPlace(s: Suite, mode: Mode, key: Key, nonce: Nonce, a: array<uint8>, off: nat, ct: bytes, tag: bytes,
                       check: PlainCheck, restore: bool) returns (ok: bool, ghost work: bytes)
    requires off + |ct| <= a.Length
    modifies a
    ensures work == if restore then ct else old(a[off..off + |ct|])
    ensures a[..] == Splice(old(a[..]), off, Crypt(s, mode, key, nonce, work))
    ensures ok == Accepts(s, mode, key, nonce, work, tag, check)
  {
    hide Splice, Crypt, Accepts;
    ghost var before := a[..];
    if restore {
      Write(a, off, ct);
      SpliceParts(before, off, ct);
    }
    var data := a[off..off + |ct|];
    Write(a, off, Crypt(s, mode, key, nonce, data));
    if restore {
      SpliceAgain(before, off, ct, Crypt(s, mode, key, nonce, data));
    }
    ok := Accepts(s, mode, key, nonce, data, tag, check);
    work := data;
  }

  /** The key retry loop over a buffer of `|ct|` bytes. */
  method RetryInPlace(s: Suite, mode: Mode, order: seq<Key>, nonce: Nonce, a: array<uint8>, off: nat, ct: bytes,
                      tag: bytes, check: PlainCheck) returns (ok: bool)
    requires off + |ct| <= a.Length && a[off..off + |ct|] == ct
    modifies a
    ensures match TryKeys(s, mode, order, nonce, ct, ct, tag, check)
            case None => !ok
            case Some(plain) => ok && a[..] == Splice(old(a[..]), off, plain)
  {
    hide Splice, Crypt, Accepts, TryKeys, TagLen, Iv;
    ghost var before, held, work := a[..], ct, ct;
    SpliceSame(before, off, |ct|);
    assert order[0..] == order;
    for k := 0 to |order|
      invariant |held| == |ct| && a[..] == Splice(before, off, held)
      invariant k == 0 ==> held == ct
      invariant TryKeys(s, mode, order, nonce, ct, ct, tag, check)
             == TryKeys(s, mode, order[k..], nonce, if |ct| <= BACKUP_LEN then ct else held, ct, tag, check)
    {
      SpliceParts(before, off, held);
      ok, work := TryKeyInPlace(s, mode, order[k], nonce, a, off, ct, tag, check, k > 0 && |ct| <= BACKUP_LEN);
      TryKeysAt(s, mode, order, k, nonce, work, ct, tag, check);
      SpliceAgain(before, off, held, Crypt(s, mode, order[k], nonce, work));
      if ok { return; }
      held := Crypt(s, mode, order[k], nonce, work);
    }
    TryKeysAt(s, mode, order, |order|, nonce, if |ct| <= BACKUP_LEN then ct else held, ct, tag, check);
    ok := false;
  }

  /** Decrypts in place; -1 is the error return, after which the buffer holds a failed attempt. */
  method OpenInPlace(s: Suite, mode: Mode, order: seq<Key>, nonce: Nonce, a: array<uint8>, off: nat, total: nat,
                     check: PlainCheck) returns (n: int)
    requires off + total <= a.Length
    modifies a
    ensures match Open(s, mode, order, nonce, old(a[off..off + total]), check)
            case None => n == -1
            case Some(plain) => n == |plain| && a[..] == Splice(old(a[..]), off, plain)
  {
    if total < TagLen(mode) || (mode.Pqc? && total == TAG_LEN) { return -1; }
    n := total - TagLen(mode);
    assert a[off..off + total][..n] == a[off..off + n] && a[off..off + total][n..] == a[off + n..off + total];
    hide Splice, TryKeys;
    var ok := RetryInPlace(s, mode, order, nonce, a, off, a[off..off + n], a[off + n..off + total], check);
    if !ok { n := -1; }
  }
}
