/** The block-framed byte channel: what is sent in a batch is padded to whole blocks, and the receiver
    reads whole blocks. */
module Net {
  import opened Words

  const BLOCK: nat := 131072

  /** The byte stream between the two ends; pos says how much has been read. */
  class Pipe {
    var bytes: seq<u8>
    var pos: nat

    constructor ()
      ensures bytes == [] && pos == 0
    {
      bytes, pos := [], 0;
    }
  }

  /** Whole blocks. */
  ghost predicate Aligned(n: nat) {
    n % BLOCK == 0
  }

  /** Two multiples of the block size that differ, differ by a block at least. */
  lemma BlockApart(x: nat, y: nat)
    requires Aligned(x) && Aligned(y) && x < y
    ensures x + BLOCK <= y && Aligned(x + BLOCK)
  {
  }

  lemma CounterFits(n: nat)
    ensures W64(n) % BLOCK == n % BLOCK
  {
  }

  /** The padding of a batch, and where it ends. */
  function PadTo(n: nat): (p: nat)
    ensures p < BLOCK && (n + p) % BLOCK == 0
  {
    if n % BLOCK == 0 then 0 else BLOCK - n % BLOCK
  }

  /** There is one multiple of the block size from n up to less than n + BLOCK. */
  lemma PadUnique(n: nat, x: nat)
    requires n <= x < n + BLOCK && Aligned(x)
    ensures x == n + PadTo(n)
  {
  }

  class Sender {
    const pipe: Pipe
    const buf: array<u8>
    var ptr: nat
    var counter: u64
    /** Where the current batch begins in the stream, and what it holds so far. */
    ghost var base: nat
    ghost var batch: seq<u8>

    ghost predicate Valid()
      reads this, buf, pipe
    {
      && buf.Length == BLOCK && ptr <= BLOCK && counter == W64(|pipe.bytes|)
      && base <= |pipe.bytes| && Aligned(base)
      && pipe.bytes[base..] + buf[..ptr] == batch
    }

    /** Between batches: everything is in the stream, in whole blocks. */
    ghost predicate Flushed()
      reads this, pipe
    {
      ptr == 0 && batch == [] && base == |pipe.bytes|
    }

    constructor (pipe: Pipe)
      requires pipe.bytes == []
      ensures Valid() && Flushed() && this.pipe == pipe && fresh(buf) && buf.Length == 0x2_0000
    {
      this.pipe, buf, ptr, counter, base, batch := pipe, new u8[BLOCK](_ => 0), 0, 0, 0, [];
    }

    method SendRaw(data: seq<u8>)
      requires counter == W64(|pipe.bytes|)
      modifies this`counter, pipe`bytes
      ensures pipe.bytes == old(pipe.bytes) + data && counter == W64(|pipe.bytes|)
    {
      CounterAdds(|pipe.bytes|, |data|);
      counter := W64(counter + |data|);
      pipe.bytes := pipe.bytes + data;
    }

    /** A message that fits goes into the buffer; another one goes out behind the buffer. */
    method SendData(data: seq<u8>)
      requires Valid()
      modifies this, buf, pipe`bytes
      ensures Valid() && batch == old(batch) + data && base == old(base)
      ensures old(pipe.bytes) <= pipe.bytes
    {
      ghost var bytes, held := pipe.bytes, buf[..ptr];
      if |data| <= BLOCK - ptr {
        CopyIn(buf, ptr, data);
        ptr := ptr + |data|;
        assert buf[..ptr] == held + data;
      } else {
        SendRaw(buf[..ptr]);
        SendRaw(data);
        ptr := 0;
        assert pipe.bytes == bytes + (held + data) && buf[..ptr] == [];
      }
      batch := batch + data;
    }

    /** The buffer goes out, and after it what lies behind its used part, until the last block is full. That
        passes the buffer's end by `over` bytes, exactly when more is buffered than the last block holds. */
    method Flush() returns (over: nat)
      requires Valid()
      modifies this, pipe`bytes
      ensures Valid() && Flushed()
      ensures base == old(base) + |old(batch)| + PadTo(|old(batch)|)
      ensures |pipe.bytes| % 0x2_0000 == 0 && |pipe.bytes| < old(base) + |old(batch)| + 0x2_0000
      ensures old(pipe.bytes) <= pipe.bytes && pipe.bytes[old(base)..old(base) + |old(batch)|] == old(batch)
      ensures over == PadOver(old(ptr), |old(batch)|)
      ensures over == 0 <==> PadTo(|old(batch)|) == 0 || old(ptr) <= |old(batch)| % BLOCK
      ensures over == 0 ==> pipe.bytes[old(base) + |old(batch)|..] == old(buf[ptr..])[..PadTo(|old(batch)|)]
    {
      ghost var sent, start := batch, base;
      ghost var bytes := pipe.bytes;
      SendRaw(buf[..ptr]);
      assert pipe.bytes[start..] == sent;
      CounterFits(|pipe.bytes|);
      SamePad(start, |sent|);
      over := 0;
      if counter % BLOCK != 0 {
        var pad := BLOCK - counter % BLOCK;
        var behind := buf[ptr..];
        if pad > |behind| {
          over := pad - |behind|;
          var stray := AnyBytes(over);
          SendRaw(behind + stray);
        } else {
          SendRaw(behind[..pad]);
        }
      }
      ptr := 0;
      batch, base := [], |pipe.bytes|;
      assert pipe.bytes[base..] + buf[..ptr] == [];
    }
  }

  /** How far the padding of a batch of n bytes, of which ptr are still in the buffer, reaches past its end. */
  function PadOver(ptr: nat, n: nat): nat {
    if PadTo(n) == 0 || ptr <= n % BLOCK then 0 else ptr - n % BLOCK
  }

  lemma CounterAdds(n: nat, m: nat)
    ensures W64(W64(n) + m) == W64(n + m)
  {
  }

  /** A batch that starts at a block boundary is padded as if it stood alone. */
  lemma SamePad(start: nat, n: nat)
    requires Aligned(start)
    ensures PadTo(start + n) == PadTo(n) && (start + n) % BLOCK == n % BLOCK
  {
  }

  /** Whatever lies behind the buffered bytes. */
  method AnyBytes(n: nat) returns (s: seq<u8>)
    ensures |s| == n
  {
    s := [];
    for i := 0 to n
      invariant |s| == i
    {
      var b := Random8();
      s := s + [b];
    }
  }

  method CopyIn(dst: array<u8>, off: nat, src: seq<u8>)
    requires off + |src| <= dst.Length
    modifies dst
    ensures dst[..off + |src|] == old(dst[..off]) + src
    ensures dst[off + |src|..] == old(dst[off + |src|..])
  {
    forall i | 0 <= i < |src| {
      dst[off + i] := src[i];
    }
  }

  lemma Split(bytes: seq<u8>, from: nat, n: nat, to: nat)
    requires from + n <= to <= |bytes|
    ensures bytes[from..to][..n] == bytes[from..from + n] && bytes[from..to][n..] == bytes[from + n..to]
  {
  }

  lemma Grow(bytes: seq<u8>, from: nat, mid: nat, to: nat)
    requires from <= mid <= to <= |bytes|
    ensures bytes[from..mid] + bytes[mid..to] == bytes[from..to]
  {
  }

  class Receiver {
    const pipe: Pipe
    const buf: array<u8>
    var ptr: nat
    var counter: u64
    /** Where the current batch begins in the stream, and how much of it has been handed out. */
    ghost var base: nat
    ghost var taken: nat

    ghost predicate Valid()
      reads this, buf, pipe
    {
      && buf.Length == BLOCK && 1 <= ptr <= BLOCK && base <= pipe.pos <= |pipe.bytes|
      && Aligned(base) && Aligned(pipe.pos) && base + taken + (BLOCK - ptr) == pipe.pos
      && buf[ptr..] == pipe.bytes[base + taken..pipe.pos]
    }

    ghost predicate Flushed()
      reads this, pipe
    {
      ptr == BLOCK && taken == 0 && base == pipe.pos
    }

    constructor (pipe: Pipe)
      requires pipe.bytes == [] && pipe.pos == 0
      ensures Valid() && Flushed() && this.pipe == pipe && fresh(buf) && buf.Length == 0x2_0000
    {
      this.pipe, buf, ptr, counter, base, taken := pipe, new u8[BLOCK](_ => 0), BLOCK, 0, 0, 0;
    }

    /** A whole block from the stream. */
    method RecvBlock()
      requires buf.Length == BLOCK && pipe.pos + BLOCK <= |pipe.bytes|
      modifies this`counter, buf, pipe`pos
      ensures pipe.pos == old(pipe.pos) + BLOCK && buf[..] == pipe.bytes[old(pipe.pos)..pipe.pos]
    {
      counter := W64(counter + BLOCK);
      CopyIn(buf, 0, pipe.bytes[pipe.pos..pipe.pos + BLOCK]);
      pipe.pos := pipe.pos + BLOCK;
    }

    /** What is left in the buffer, then whole blocks until the message is complete. */
    method RecvData(data: array<u8>)
      requires Valid() && data != buf
      requires base + taken + data.Length <= |pipe.bytes| && Aligned(|pipe.bytes|)
      modifies this, buf, pipe`pos, data
      ensures Valid() && base == old(base) && taken == old(taken) + data.Length
      ensures data[..] == pipe.bytes[base + old(taken)..base + taken]
    {
      hide Aligned;
      if data.Length <= BLOCK - ptr {
        TakeBuffered(data);
      } else {
        ghost var start := base + taken;
        ghost var left := buf[ptr..];
        CopyIn(data, 0, buf[ptr..]);
        assert data[..BLOCK - ptr] == left;
        RecvRest(data, data.Length - (BLOCK - ptr), start);
        taken := taken + data.Length;
      }
    }

    /** A message that the buffer still holds. */
    method TakeBuffered(data: array<u8>)
      requires Valid() && data != buf && data.Length <= BLOCK - ptr
      modifies this`ptr, this`taken, data
      ensures Valid() && taken == old(taken) + data.Length
      ensures data[..] == pipe.bytes[base + old(taken)..base + taken]
    {
      var len := data.Length;
      Split(pipe.bytes, base + taken, len, pipe.pos);
      ghost var left := buf[ptr..];
      CopyIn(data, 0, buf[ptr..ptr + len]);
      assert data[..] == data[..len] && buf[ptr..ptr + len] == left[..len] && buf[ptr + len..] == left[len..];
      ptr := ptr + len;
      taken := taken + len;
    }

    /** Whole blocks until the last remain bytes of the message, which began at start, are there. */
    method RecvRest(data: array<u8>, rest: nat, ghost start: nat)
      requires 0 < rest <= data.Length && data != buf && buf.Length == BLOCK
      requires Aligned(pipe.pos) && Aligned(|pipe.bytes|) && start + data.Length <= |pipe.bytes|
      requires start + (data.Length - rest) == pipe.pos
      requires data[..data.Length - rest] == pipe.bytes[start..pipe.pos]
      modifies this`ptr, this`counter, buf, pipe`pos, data
      ensures 1 <= ptr <= BLOCK && Aligned(pipe.pos) && pipe.pos <= |pipe.bytes|
      ensures start + data.Length + (BLOCK - ptr) == pipe.pos
      ensures data[..] == pipe.bytes[start..start + data.Length]
      ensures buf[ptr..] == pipe.bytes[start + data.Length..pipe.pos]
    {
      hide Aligned;
      var len, remain := data.Length, rest;
      while true
        invariant 0 < remain <= len && Aligned(pipe.pos)
        invariant start + (len - remain) == pipe.pos && data[..len - remain] == pipe.bytes[start..pipe.pos]
        decreases remain
      {
        BlockApart(pipe.pos, |pipe.bytes|);
        ghost var pos, done := pipe.pos, data[..len - remain];
        RecvBlock();
        if remain <= BLOCK {
          Split(pipe.bytes, pos, remain, pipe.pos);
          ghost var block := buf[..];
          CopyIn(data, len - remain, buf[..remain]);
          assert data[..] == data[..len] && buf[..remain] == block[..remain] && buf[remain..] == block[remain..];
          Grow(pipe.bytes, start, pos, pos + remain);
          ptr := remain;
          return;
        } else {
          CopyIn(data, len - remain, buf[..]);
          Grow(pipe.bytes, start, pos, pipe.pos);
          remain := remain - BLOCK;
        }
      }
    }

    /** The rest of the block is dropped. */
    method Flush()
      requires Valid()
      modifies this
      ensures Valid() && Flushed() && base == old(base) + old(taken) + PadTo(old(taken))
    {
      SamePad(base, taken);
      PadUnique(base + taken, pipe.pos);
      ptr := BLOCK;
      base, taken := pipe.pos, 0;
    }
  }

  /** A list of messages as one run of bytes. */
  function Joined(messages: seq<seq<u8>>): (s: seq<u8>)
    ensures |s| == TotalLength(messages)
  {
    if messages == [] then [] else Joined(messages[..|messages| - 1]) + messages[|messages| - 1]
  }

  function TotalLength(messages: seq<seq<u8>>): nat {
    if messages == [] then 0 else TotalLength(messages[..|messages| - 1]) + |messages[|messages| - 1]|
  }

  function Sum(lens: seq<nat>): nat {
    if lens == [] then 0 else Sum(lens[..|lens| - 1]) + lens[|lens| - 1]
  }

  lemma {:induction false} SumPrefix(lens: seq<nat>, k: nat)
    requires k <= |lens|
    ensures Sum(lens[..k]) <= Sum(lens) && (k < |lens| ==> Sum(lens[..k + 1]) == Sum(lens[..k]) + lens[k])
  {
    if k < |lens| {
      assert lens[..k + 1][..k] == lens[..k];
      if k + 1 < |lens| {
        SumPrefix(lens[..|lens| - 1], k);
        assert lens[..|lens| - 1][..k] == lens[..k];
      } else {
        assert lens[..|lens|] == lens;
      }
    } else {
      assert lens[..|lens|] == lens;
    }
  }

  /** Byte k of message i stands behind the bytes of the messages before it. */
  lemma {:induction false} JoinedAt(messages: seq<seq<u8>>, i: nat, k: nat)
    requires i < |messages| && k < |messages[i]|
    ensures TotalLength(messages[..i]) + k < |Joined(messages)|
    ensures Joined(messages)[TotalLength(messages[..i]) + k] == messages[i][k]
    decreases |messages|
  {
    var last := |messages| - 1;
    if i < last {
      assert messages[..last][..i] == messages[..i];
      JoinedAt(messages[..last], i, k);
    }
  }

  /** One batch: messages of any lengths are sent, flushed, and taken out in pieces of any lengths. */
  method Batch(s: Sender, r: Receiver, messages: seq<seq<u8>>, lens: seq<nat>) returns (got: seq<seq<u8>>)
    requires s.Valid() && s.Flushed() && r.Valid() && r.Flushed() && s.pipe == r.pipe && s.buf != r.buf
    requires s.base == r.base && Sum(lens) == TotalLength(messages)
    modifies s, s.buf, r, r.buf, s.pipe
    ensures s.Valid() && s.Flushed() && r.Valid() && r.Flushed() && s.base == r.base
    ensures Joined(got) == Joined(messages)
    ensures |got| == |lens| && forall i :: 0 <= i < |got| ==> |got[i]| == lens[i]
  {
    SendAll(s, messages);
    ghost var start := s.base;
    var over := s.Flush();
    got := TakeAll(r, lens);
    assert s.pipe.bytes[start..start + |Joined(messages)|] == Joined(messages);
    r.Flush();
  }

  method SendAll(s: Sender, messages: seq<seq<u8>>)
    requires s.Valid() && s.Flushed()
    modifies s, s.buf, s.pipe`bytes
    ensures s.Valid() && s.batch == Joined(messages) && s.base == old(s.base) && old(s.pipe.bytes) <= s.pipe.bytes
  {
    hide Sender.Valid;
    for i := 0 to |messages|
      invariant s.Valid() && s.base == old(s.base) && old(s.pipe.bytes) <= s.pipe.bytes
      invariant s.batch == Joined(messages[..i])
    {
      assert messages[..i + 1][..i] == messages[..i];
      s.SendData(messages[i]);
    }
    assert messages[..|messages|] == messages;
  }

  lemma NothingYet()
    ensures Joined([]) == [] && Sum([]) == 0
  {
  }

  lemma JoinedAppend(got: seq<seq<u8>>, m: seq<u8>)
    ensures Joined(got + [m]) == Joined(got) + m
  {
    assert (got + [m])[..|got|] == got;
  }

  method TakeAll(r: Receiver, lens: seq<nat>) returns (got: seq<seq<u8>>)
    requires r.Valid() && r.taken == 0 && r.base + Sum(lens) <= |r.pipe.bytes| && Aligned(|r.pipe.bytes|)
    modifies r, r.buf, r.pipe`pos
    ensures r.Valid() && r.base == old(r.base) && r.taken == Sum(lens)
    ensures |got| == |lens| && Joined(got) == r.pipe.bytes[r.base..r.base + Sum(lens)]
    ensures forall i :: 0 <= i < |got| ==> |got[i]| == lens[i]
  {
    hide Receiver.Valid, Joined, TotalLength, Sum;
    ghost var bytes := r.pipe.bytes;
    NothingYet();
    assert lens[..0] == [] && bytes[r.base..r.base] == [];
    got := [];
    for i := 0 to |lens|
      invariant r.Valid() && r.base == old(r.base) && r.taken == Sum(lens[..i]) && |got| == i
      invariant r.base + r.taken <= |bytes| && r.pipe.bytes == bytes
      invariant Joined(got) == bytes[r.base..r.base + r.taken]
      invariant forall j :: 0 <= j < i ==> |got[j]| == lens[j]
    {
      SumPrefix(lens, i);
      SumPrefix(lens, i + 1);
      var data := new u8[lens[i]](_ => 0);
      r.RecvData(data);
      Grow(bytes, r.base, r.base + Sum(lens[..i]), r.base + r.taken);
      JoinedAppend(got, data[..]);
      got := got + [data[..]];
    }
    assert lens[..|lens|] == lens;
  }

  /** Any run of batches: the receiver hands out exactly the bytes that were sent, in order. */
  method Run(s: Sender, r: Receiver, batches: seq<(seq<seq<u8>>, seq<nat>)>) returns (got: seq<seq<seq<u8>>>)
    requires s.Valid() && s.Flushed() && r.Valid() && r.Flushed() && s.pipe == r.pipe && s.buf != r.buf && s.base == r.base
    requires forall k :: 0 <= k < |batches| ==> Sum(batches[k].1) == TotalLength(batches[k].0)
    modifies s, s.buf, r, r.buf, s.pipe
    ensures |got| == |batches| && forall k :: 0 <= k < |got| ==> Joined(got[k]) == Joined(batches[k].0)
  {
    hide Sender.Valid, Sender.Flushed, Receiver.Valid, Receiver.Flushed;
    got := [];
    for k := 0 to |batches|
      invariant s.Valid() && s.Flushed() && r.Valid() && r.Flushed() && s.base == r.base
      invariant |got| == k && forall j :: 0 <= j < k ==> Joined(got[j]) == Joined(batches[j].0)
    {
      var g := Batch(s, r, batches[k].0, batches[k].1);
      got := got + [g];
    }
  }
}
