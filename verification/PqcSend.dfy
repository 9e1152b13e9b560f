/** Sending a post-quantum handshake message in fragments: `src/crypto/pqc_l2_handshake.c`. */
module PqcSend {
  import opened Bytes

  const CHUNK: nat := 1400

  /** struct pqc_frag_hdr with what follows it. */
  datatype Fragment = Fragment(id: uint32, total: uint32, count: uint16, index: uint16, data: bytes)

  /* The frame */

  const HEADERS: nat := 34

  function Be16(x: uint16): (r: bytes)
    ensures |r| == 2
  {
    [Hi(x), Lo(x)]
  }

  function Be32(x: uint32): (r: bytes)
    ensures |r| == 4
  {
    Be16(x / 0x1_0000) + Be16(x % 0x1_0000)
  }

  function U32(s: bytes, i: nat): uint32
    requires i + 4 <= |s|
  {
    U16(s[i], s[i + 1]) * 0x1_0000 + U16(s[i + 2], s[i + 3])
  }

  /** Ethertype, magic, message type and the three reserved bytes, which nobody sets. */
  function FragmentHeader(f: Fragment, reserved: bytes): (r: bytes)
    requires |reserved| == 3 && |f.data| < 0x1_0000
    ensures |r| == HEADERS - 12
  {
    [0x88, 0xB6, 0x50, 0x51, 3] + reserved + Be32(f.id) + Be32(f.total) + Be16(f.count) + Be16(f.index) + Be16(|f.data|)
  }

  function Frame(macs: bytes, reserved: bytes, f: Fragment): bytes
    requires |macs| == 12 && |reserved| == 3 && |f.data| < 0x1_0000
  {
    macs + FragmentHeader(f, reserved) + f.data
  }

  /** The checks and header reads of pqc_l2_recv_and_process for a handshake frame. */
  function Parse(rx: bytes): Option<Fragment> {
    if |rx| < HEADERS || U16(rx[12], rx[13]) != 0x88B6 || U16(rx[14], rx[15]) != 0x5051 || rx[16] != 3 then None
    else
      var len := U16(rx[32], rx[33]);
      if |rx| < HEADERS + len then None
      else Some(Fragment(U32(rx, 20), U32(rx, 24), U16(rx[28], rx[29]), U16(rx[30], rx[31]), rx[HEADERS..HEADERS + len]))
  }

  lemma Be32Back(x: uint32, s: bytes, i: nat)
    requires i + 4 <= |s| && s[i..i + 4] == Be32(x)
    ensures U32(s, i) == x
  {
    var b := Be32(x);
    U16HiLo(x / 0x1_0000);
    U16HiLo(x % 0x1_0000);
    assert s[i] == s[i..i + 4][0] && s[i + 1] == s[i..i + 4][1] && s[i + 2] == s[i..i + 4][2] && s[i + 3] == s[i..i + 4][3];
  }

  lemma Be16Back(x: uint16, s: bytes, i: nat)
    requires i + 2 <= |s| && s[i..i + 2] == Be16(x)
    ensures U16(s[i], s[i + 1]) == x
  {
    U16HiLo(x);
    assert s[i] == s[i..i + 2][0] && s[i + 1] == s[i..i + 2][1];
  }

  lemma HeaderFields(f: Fragment, reserved: bytes)
    requires |reserved| == 3 && |f.data| < 0x1_0000
    ensures var h := FragmentHeader(f, reserved);
            h[0] == 0x88 && h[1] == 0xB6 && h[2] == 0x50 && h[3] == 0x51 && h[4] == 3
            && h[8..12] == Be32(f.id) && h[12..16] == Be32(f.total) && h[16..18] == Be16(f.count)
            && h[18..20] == Be16(f.index) && h[20..22] == Be16(|f.data|)
  {
    hide Be32, Be16;
  }

  lemma HeaderInFrame(macs: bytes, h: bytes, data: bytes, i: nat, j: nat)
    requires i <= j <= |h|
    ensures (macs + h + data)[|macs| + i..|macs| + j] == h[i..j]
  {
  }

  /** A receiver reads back what was sent, even from a longer frame. */
  lemma ParseFrame(macs: bytes, reserved: bytes, f: Fragment, padding: bytes)
    requires |macs| == 12 && |reserved| == 3 && |f.data| < 0x1_0000
    ensures Parse(Frame(macs, reserved, f) + padding) == Some(f)
  {
    var h := FragmentHeader(f, reserved);
    HeaderFields(f, reserved);
    hide FragmentHeader, Be32, Be16;
    var rx := macs + h + (f.data + padding);
    assert Frame(macs, reserved, f) + padding == rx;
    hide Frame;
    HeaderInFrame(macs, h, f.data + padding, 8, 12);
    HeaderInFrame(macs, h, f.data + padding, 12, 16);
    HeaderInFrame(macs, h, f.data + padding, 16, 18);
    HeaderInFrame(macs, h, f.data + padding, 18, 20);
    HeaderInFrame(macs, h, f.data + padding, 20, 22);
    Be32Back(f.id, rx, 20);
    Be32Back(f.total, rx, 24);
    Be16Back(f.count, rx, 28);
    Be16Back(f.index, rx, 30);
    Be16Back(|f.data|, rx, 32);
    assert rx[12] == h[0] && rx[13] == h[1] && rx[14] == h[2] && rx[15] == h[3] && rx[16] == h[4];
    assert rx[HEADERS..HEADERS + |f.data|] == f.data;
    hide U32;
  }

  /* Cutting */

  function Count(len: nat): uint16 { Low16((len + CHUNK - 1) / CHUNK) }

  function ChunkEnd(len: nat, i: nat): nat { if CHUNK * (i + 1) < len then CHUNK * (i + 1) else len }

  function Chunk(payload: bytes, i: nat): (r: bytes)
    requires CHUNK * i < |payload|
    ensures 0 < |r| <= CHUNK
  {
    payload[CHUNK * i..ChunkEnd(|payload|, i)]
  }

  /** Fragment `i` of a message. */
  function FragmentOf(id: uint32, payload: bytes, i: uint16): Fragment
    requires CHUNK * i < |payload| <= 65535
  {
    Fragment(id, |payload|, Count(|payload|), i, Chunk(payload, i))
  }

  /** How many bytes the next fragment takes: the rest is cut to 16 bits before it is compared. */
  function NextChunk(rest: uint32): nat {
    if Low16(rest) > CHUNK then CHUNK else Low16(rest)
  }

  /** pqc_l2_send_payload_fragmented for a discovered peer; each fragment is one frame sent. */
  method Send(id: uint32, payload: bytes) returns (ok: bool, sent: seq<Fragment>)
    requires |payload| <= 65535
    ensures ok == (payload != [])
    ensures |sent| == (|payload| + CHUNK - 1) / CHUNK
    ensures forall i :: 0 <= i < |sent| ==> CHUNK * i < |payload| && sent[i] == FragmentOf(id, payload, i)
  {
    sent := [];
    if |payload| == 0 { return false, sent; }
    var count := Count(|payload|);
    var done := 0;
    while done < |payload|
      invariant done == (if CHUNK * |sent| < |payload| then CHUNK * |sent| else |payload|)
      invariant |sent| <= (|payload| + CHUNK - 1) / CHUNK
      invariant forall i :: 0 <= i < |sent| ==> CHUNK * i < |payload| && sent[i] == FragmentOf(id, payload, i)
      decreases |payload| - done
    {
      hide NextChunk, Count;
      ChunkIs(payload, |sent|);
      var n := NextChunk(|payload| - done);
      sent := sent + [Fragment(id, |payload|, count, |sent|, payload[done..done + n])];
      done := done + n;
    }
    ok := true;
  }

  /** What a round of the loop takes while there is something left. */
  lemma ChunkIs(payload: bytes, i: nat)
    requires CHUNK * i < |payload| <= 65535
    ensures i < 0x1_0000 && i + 1 <= (|payload| + CHUNK - 1) / CHUNK
    ensures var n := NextChunk(|payload| - CHUNK * i);
            0 < n && CHUNK * i + n == ChunkEnd(|payload|, i) && payload[CHUNK * i..CHUNK * i + n] == Chunk(payload, i)
  {
  }

  function Rejoined(payload: bytes, n: nat): (r: bytes)
    requires n <= (|payload| + CHUNK - 1) / CHUNK
  {
    if n == 0 then [] else Rejoined(payload, n - 1) + Chunk(payload, n - 1)
  }

  /** The fragments' data is the payload, in order and without a gap. */
  lemma {:induction false} ChunksCover(payload: bytes, n: nat)
    requires n <= (|payload| + CHUNK - 1) / CHUNK
    ensures Rejoined(payload, n) == payload[..if CHUNK * n < |payload| then CHUNK * n else |payload|]
  {
    if n > 0 {
      ChunksCover(payload, n - 1);
    }
  }

  /** What is left after `k` rounds of the send loop. */
  function Left(len: uint32, k: nat): uint32 {
    if k == 0 then len else Left(len, k - 1) - NextChunk(Left(len, k - 1))
  }

  lemma {:induction false} LeftLong(len: uint32, k: nat)
    requires len >= 0x1_0000
    ensures Left(len, k) >= 0x1_0000
  {
    if k > 0 {
      LeftLong(len, k - 1);
      var r := Left(len, k - 1);
      assert Low16(r) <= r - 0x1_0000;
    }
  }

  lemma {:induction false} LeftShort(len: uint32, k: nat)
    requires len < 0x1_0000
    ensures Left(len, k) == if CHUNK * k < len then len - CHUNK * k else 0
  {
    if k > 0 {
      LeftShort(len, k - 1);
    }
  }

  /** The send loop ends exactly for payloads of less than 65536 bytes; for longer ones 65536 bytes always remain. */
  lemma SendEndsIff(len: uint32)
    ensures (exists k :: Left(len, k) == 0) <==> len < 0x1_0000
  {
    if len < 0x1_0000 {
      LeftShort(len, len);
    } else {
      forall k ensures Left(len, k) != 0 {
        LeftLong(len, k);
      }
    }
  }
}
