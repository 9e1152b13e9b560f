/** What the three layers share: the per-thread settings, the key context and the layout of a fragment. */
module Wire {
  import opened Bytes
  import opened Cipher

  /** The thread-local settings of `packet_crypto.c`, as `crypto_apply_from_policy` leaves them. */
  datatype Settings = Settings(
    suite: Suite, mode: Mode, fakeProto: uint8, fakeEther: uint16, policyId: uint8, worker: uint8)

  /** A decrypted fragment with the id and index its tag carried. */
  datatype Opened = Opened(packet: bytes, id: uint16, index: uint8)

  /** What the checks at the head of an operation decide: an error, a packet left alone, or work at an offset. */
  datatype Guard = Reject | Pass | Go(off: nat)

  const FRAG_TAG_LEN: nat := 4

  function FragTag(id: uint16, index: uint8): (r: bytes)
    ensures |r| == FRAG_TAG_LEN
  {
    [Hi(id), Lo(id), index, 0]
  }

  const TUNNEL_LEN: nat := 14

  /** The nonce, the policy id and one more byte: a fragment's magic, or the original protocol. */
  function TunnelHeader(env: Settings, nonce: Nonce, last: uint8): (r: bytes)
    ensures |r| == TUNNEL_LEN
  {
    nonce + [env.policyId, last]
  }

  /** The same with a fragment's magic, followed by its tag. */
  function FragMid(env: Settings, nonce: Nonce, magic: uint8, id: uint16, index: uint8): (r: bytes)
    ensures |r| == TUNNEL_LEN + FRAG_TAG_LEN
  {
    TunnelHeader(env, nonce, magic) + FragTag(id, index)
  }

  function SealWith(env: Settings, key: Key, nonce: Nonce, plain: bytes): (r: bytes)
    ensures |r| == |plain| + TagLen(env.mode)
  {
    Seal(env.suite, env.mode, key, nonce, plain)
  }

  function OpenWith(env: Settings, keys: Keys, nonce: Nonce, sealed: bytes, check: PlainCheck): (r: Option<bytes>)
    ensures r.Some? ==> |r.value| + TagLen(env.mode) == |sealed|
  {
    Open(env.suite, env.mode, KeyOrder(env.mode, keys), nonce, sealed, check)
  }

  /** A receiver holding the sender's key as its current one recovers the plaintext. */
  lemma OpenWithSeal(env: Settings, keys: Keys, nonce: Nonce, plain: bytes, check: PlainCheck)
    requires env.mode.Pqc? ==> |plain| > 0
    requires env.mode.Ctr? ==> Plausible(check, plain)
    ensures OpenWith(env, keys, nonce, SealWith(env, keys.current, nonce, plain), check) == Some(plain)
  {
    hide Seal, Open;
    OpenSeal(env.suite, env.mode, keys.current, KeyOrder(env.mode, keys), nonce, plain, check);
  }

  /**
   * Lays out headers, `mid` and the plaintext in `out`.  For fragment 0 `out` is `src` itself: the
   * headers are copied onto themselves and the plaintext moves up before `mid` overwrites its old place.
   */
  method Assemble(out: array<uint8>, src: array<uint8>, hdrLen: nat, mid: bytes, plainOff: nat, plainLen: nat)
    requires hdrLen <= src.Length && plainOff + plainLen <= src.Length
    requires hdrLen + |mid| + plainLen <= out.Length
    modifies out
    ensures out[..] == Splice(old(out[..]), 0, old(src[..hdrLen]) + mid + old(src[plainOff..plainOff + plainLen]))
  {
    hide Splice;
    ghost var before := out[..];
    ghost var hdr, plain := src[..hdrLen], src[plainOff..plainOff + plainLen];
    if out == src {
      SpliceSame(before, 0, hdrLen);
    }
    Move(out, 0, src, 0, hdrLen);
    Move(out, hdrLen + |mid|, src, plainOff, plainLen);
    Write(out, hdrLen, mid);
    SpliceGap(before, hdr, mid, plain);
  }

  lemma SpliceGap(s: bytes, hdr: bytes, mid: bytes, tail: bytes)
    requires |hdr| + |mid| + |tail| <= |s|
    ensures Splice(Splice(Splice(s, 0, hdr), |hdr| + |mid|, tail), |hdr|, mid) == Splice(s, 0, hdr + mid + tail)
  {
  }

  lemma SpliceTail(s: bytes, front: bytes, tail: bytes, tail2: bytes)
    requires |front| + |tail| <= |front| + |tail2| <= |s|
    ensures Splice(s, 0, front + tail)[|front|..|front| + |tail|] == tail
    ensures Splice(Splice(s, 0, front + tail), |front|, tail2) == Splice(s, 0, front + tail2)
  {
  }

  /** The same with the plaintext sealed in place. */
  method AssembleSealed(env: Settings, key: Key, nonce: Nonce, out: array<uint8>, src: array<uint8>, hdrLen: nat,
                        mid: bytes, plainOff: nat, plainLen: nat)
    requires hdrLen <= src.Length && plainOff + plainLen <= src.Length
    requires hdrLen + |mid| + plainLen + TagLen(env.mode) <= out.Length
    modifies out
    ensures out[..] == Splice(old(out[..]), 0, old(src[..hdrLen]) + mid
                              + SealWith(env, key, nonce, old(src[plainOff..plainOff + plainLen])))
  {
    hide Splice, Seal;
    ghost var before := out[..];
    ghost var front, plain := src[..hdrLen] + mid, src[plainOff..plainOff + plainLen];
    Assemble(out, src, hdrLen, mid, plainOff, plainLen);
    SpliceTail(before, front, plain, SealWith(env, key, nonce, plain));
    SealInPlace(env.suite, env.mode, key, nonce, out, hdrLen + |mid|, plainLen);
  }

  /** Decrypts what starts at `encOff` and moves the plaintext down to `off`; -1 is the error return. */
  method OpenAndMoveDown(env: Settings, keys: Keys, nonce: Nonce, a: array<uint8>, len: nat, off: nat, encOff: nat,
                         check: PlainCheck) returns (n: int)
    requires off <= encOff <= len <= a.Length
    modifies a
    ensures match OpenWith(env, keys, nonce, old(a[encOff..len]), check)
            case None => n == -1
            case Some(plain) => n == off + |plain| && n <= len && a[..off] == old(a[..off]) && a[off..n] == plain
  {
    hide Splice, Open;
    ghost var before := a[..];
    ghost var plain := OpenWith(env, keys, nonce, a[encOff..len], check);
    n := OpenInPlace(env.suite, env.mode, KeyOrder(env.mode, keys), nonce, a, encOff, len - encOff, check);
    if n >= 0 {
      SpliceParts(before, encOff, plain.value);
      MoveDown(before, off, encOff, plain.value);
      Move(a, off, a, encOff, n);
      n := off + n;
    }
  }

  lemma MoveDown(s: bytes, off: nat, encOff: nat, plain: bytes)
    requires off <= encOff && encOff + |plain| <= |s|
    ensures Splice(Splice(s, encOff, plain), off, plain)[..off] == s[..off]
    ensures Splice(Splice(s, encOff, plain), off, plain)[off..off + |plain|] == plain
  {
  }

  /** Decrypts a fragment whose tunnel header starts at `t`: the plaintext ends up right behind what precedes the header. */
  function OpenFragment(env: Settings, keys: Keys, w: bytes, t: nat): (r: Option<Opened>)
    requires t + TUNNEL_LEN + FRAG_TAG_LEN <= |w|
  {
    match OpenWith(env, keys, w[t..t + NONCE_LEN], w[t + TUNNEL_LEN + FRAG_TAG_LEN..], Anything)
    case None => None
    case Some(plain) => Some(Opened(w[..t] + plain, U16(w[t + 14], w[t + 15]), w[t + 16]))
  }

  method OpenFragmentInPlace(env: Settings, keys: Keys, a: array<uint8>, len: nat, t: nat)
    returns (n: int, id: uint16, index: uint8)
    requires t + TUNNEL_LEN + FRAG_TAG_LEN <= len <= a.Length
    modifies a
    ensures match OpenFragment(env, keys, old(a[..len]), t)
            case None => n == -1
            case Some(o) => n == |o.packet| && n <= len && a[..n] == o.packet && id == o.id && index == o.index
  {
    id, index := U16(a[t + 14], a[t + 15]), a[t + 16];
    hide OpenWith;
    SliceSlices(a[..], len, t, t + NONCE_LEN);
    SliceSlices(a[..], len, t, t + TUNNEL_LEN + FRAG_TAG_LEN);
    n := OpenAndMoveDown(env, keys, a[t..t + NONCE_LEN], a, len, t, t + TUNNEL_LEN + FRAG_TAG_LEN, Anything);
    assert n >= 0 ==> a[..n] == a[..t] + a[t..n];
  }

  lemma MidParses(env: Settings, nonce: Nonce, magic: uint8, id: uint16, index: uint8, front: bytes, sealed: bytes)
    ensures var w := front + (FragMid(env, nonce, magic, id, index) + sealed);
            var t := |front|;
            w[..t] == front && w[t..t + NONCE_LEN] == nonce && w[t + 12] == env.policyId && w[t + 13] == magic
            && w[t + 14] == Hi(id) && w[t + 15] == Lo(id) && w[t + 16] == index
            && w[t + TUNNEL_LEN + FRAG_TAG_LEN..] == sealed
  {
    var mid := FragMid(env, nonce, magic, id, index);
    var w := front + (mid + sealed);
    assert forall i :: 0 <= i < |mid| ==> w[|front| + i] == mid[i];
  }
}
