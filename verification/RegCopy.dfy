/** Copying byte slices to and from 32-bit registers: a FIFO register, or an array of registers. */
module RegCopy {
  import opened Bytes

  function WordCount(n: nat): nat {
    (n + 3) / 4
  }

  function ByteOrZero(src: seq<u8>, k: nat): u8 {
    if k < |src| then src[k] else 0
  }

  /** Word `i` of a byte string, little-endian, padded with zeros past its end. */
  function WordAt(src: seq<u8>, i: nat): u32 {
    FromLe32([ByteOrZero(src, 4 * i), ByteOrZero(src, 4 * i + 1),
              ByteOrZero(src, 4 * i + 2), ByteOrZero(src, 4 * i + 3)])
  }

  function ByteOf(w: u32, j: nat): u8
    requires j < 4
  {
    Le32(w)[j]
  }

  /** Encoding inverts decoding too: the bytes of a word are the bytes it was made of. */
  lemma {:induction false} Le32Inverse(b: seq<u8>)
    requires |b| == 4
    ensures Le32(FromLe32(b)) == b
  {
    var lo, hi := FromLe16(b[..2]), FromLe16(b[2..]);
    var n := FromLe32(b);
    assert n % 0x1_0000 == lo && n / 0x1_0000 == hi;
    assert Le16(lo) == b[..2] && Le16(hi) == b[2..];
  }

  /** Byte `k` of a string is byte `k mod 4` of its word `k / 4`. */
  lemma {:induction false} WordsHoldBytes(src: seq<u8>, k: nat)
    requires k < |src|
    ensures ByteOf(WordAt(src, k / 4), k % 4) == src[k]
  {
    var i := k / 4;
    Le32Inverse([ByteOrZero(src, 4 * i), ByteOrZero(src, 4 * i + 1),
                 ByteOrZero(src, 4 * i + 2), ByteOrZero(src, 4 * i + 3)]);
  }

  /** As numbers: the digits of a word, least significant first, are the four bytes it stands for, with
      zeros past the end of the string. */
  lemma {:induction false} WordDigits(src: seq<u8>, k: nat)
    ensures WordAt(src, k / 4) / Pow256(k % 4) % 0x100 == if k < |src| then src[k] else 0
  {
    var i := k / 4;
    Le32Inverse([ByteOrZero(src, 4 * i), ByteOrZero(src, 4 * i + 1),
                 ByteOrZero(src, 4 * i + 2), ByteOrZero(src, 4 * i + 3)]);
    LeDigits(WordAt(src, i), k % 4);
  }

  function Words(src: seq<u8>): (w: seq<u32>)
    ensures |w| == WordCount(|src|)
  {
    seq(WordCount(|src|), i requires 0 <= i => WordAt(src, i))
  }

  /** The trailing one to three bytes as a zero-padded word. */
  function LastWord(rem: seq<u8>): Option<u32>
    requires |rem| < 4
  {
    if rem == [] then None
    else Some(FromLe32([rem[0], ByteOrZero(rem, 1), ByteOrZero(rem, 2), 0]))
  }

  lemma {:induction false} WordInside(src: seq<u8>, i: nat)
    requires 4 * i + 4 <= |src|
    ensures FromLe32(src[4 * i..4 * i + 4]) == WordAt(src, i)
  {
    assert src[4 * i..4 * i + 4] == [src[4 * i], src[4 * i + 1], src[4 * i + 2], src[4 * i + 3]];
  }

  lemma {:induction false} LastWordIsPadded(src: seq<u8>)
    ensures LastWord(src[4 * (|src| / 4)..]).Some? <==> |src| % 4 != 0
    ensures |src| % 4 != 0 ==>
              LastWord(src[4 * (|src| / 4)..]) == Some(WordAt(src, |src| / 4)) && WordCount(|src|) == |src| / 4 + 1
    ensures |src| % 4 == 0 ==> WordCount(|src|) == |src| / 4
  {
    var i := |src| / 4;
    var rem := src[4 * i..];
    if rem != [] {
      assert rem[0] == ByteOrZero(src, 4 * i);
      assert ByteOrZero(rem, 1) == ByteOrZero(src, 4 * i + 1);
      assert ByteOrZero(rem, 2) == ByteOrZero(src, 4 * i + 2);
    }
  }

  /** A FIFO register. Reading it when it is empty still yields a word, whatever the hardware returns. */
  class Fifo {
    const idle: nat -> u32
    var queue: seq<u32>
    var count: nat

    constructor (idle: nat -> u32)
      ensures this.idle == idle && queue == [] && count == 0
    {
      this.idle, queue, count := idle, [], 0;
    }

    method Write(w: u32)
      modifies `queue
      ensures queue == old(queue) + [w]
    {
      queue := queue + [w];
    }

    method Read() returns (w: u32)
      modifies this
      ensures [w] == Upcoming(old(queue), idle, old(count), 1)
      ensures queue == Rest(old(queue), 1) && count == old(count) + 1
    {
      if queue == [] {
        w := idle(count);
      } else {
        w := queue[0];
        queue := queue[1..];
      }
      count := count + 1;
    }
  }

  /** The next `n` words a register yields: what is queued, then idle words by read number. */
  function Upcoming(queue: seq<u32>, idle: nat -> u32, from: nat, n: nat): (ws: seq<u32>)
    ensures |ws| == n
  {
    seq(n, i requires 0 <= i => if i < |queue| then queue[i] else idle(from + i))
  }

  function Rest(queue: seq<u32>, n: nat): seq<u32> {
    if n <= |queue| then queue[n..] else []
  }

  /** Push a byte string into a FIFO register: exactly its words, the last one zero-padded. */
  method CopyToReg(reg: Fifo, src: seq<u8>)
    modifies reg
    ensures reg.queue == old(reg.queue) + Words(src)
  {
    var n := |src| / 4;
    for i := 0 to n
      invariant reg.queue == old(reg.queue) + Words(src)[..i]
    {
      WordInside(src, i);
      reg.Write(FromLe32(src[4 * i..4 * i + 4]));
    }
    LastWordIsPadded(src);
    var last := LastWord(src[4 * n..]);
    if last.Some? {
      reg.Write(last.value);
    }
  }

  /** Bytes `lo..hi` of `dest` hold the words of `ws`, counted from byte 0; the rest is unchanged. */
  ghost predicate Filled(was: seq<u8>, now: seq<u8>, ws: seq<u32>, upto: nat) {
    && |now| == |was|
    && forall k :: 0 <= k < |now| ==>
         if k < upto then k / 4 < |ws| && now[k] == ByteOf(ws[k / 4], k % 4) else now[k] == was[k]
  }

  /** Fill a buffer from a FIFO register, consuming exactly the words it needs. */
  method CopyFromReg(dest: array<u8>, reg: Fifo)
    modifies dest, reg
    ensures var words := WordCount(dest.Length);
            && Filled(old(dest[..]), dest[..], Upcoming(old(reg.queue), reg.idle, old(reg.count), words), dest.Length)
            && reg.queue == Rest(old(reg.queue), words) && reg.count == old(reg.count) + words
  {
    ghost var was, ws := dest[..], Upcoming(reg.queue, reg.idle, reg.count, WordCount(dest.Length));
    var n := dest.Length / 4;
    for i := 0 to n
      invariant reg.queue == Rest(old(reg.queue), i) && reg.count == old(reg.count) + i
      invariant Filled(was, dest[..], ws, 4 * i)
    {
      var w := reg.Read();
      NextWord(old(reg.queue), reg.idle, old(reg.count), i, WordCount(dest.Length));
      PutWord(dest, i, w, 4, was, ws);
    }
    if 4 * n < dest.Length {
      var w := reg.Read();
      NextWord(old(reg.queue), reg.idle, old(reg.count), n, WordCount(dest.Length));
      PutWord(dest, n, w, dest.Length - 4 * n, was, ws);
    }
  }

  lemma {:induction false} NextWord(queue: seq<u32>, idle: nat -> u32, from: nat, i: nat, n: nat)
    requires i < n
    ensures Upcoming(Rest(queue, i), idle, from + i, 1) == [Upcoming(queue, idle, from, n)[i]]
    ensures Rest(Rest(queue, i), 1) == Rest(queue, i + 1)
  {}

  /** Store the first `count` bytes of word `i` (all four, or what is left at the end). */
  method PutWord(dest: array<u8>, i: nat, w: u32, count: nat, ghost was: seq<u8>, ghost ws: seq<u32>)
    requires 1 <= count <= 4 && 4 * i + count <= dest.Length
    requires i < |ws| && ws[i] == w && Filled(was, dest[..], ws, 4 * i)
    modifies dest
    ensures Filled(was, dest[..], ws, 4 * i + count)
  {
    forall j | 0 <= j < count { dest[4 * i + j] := ByteOf(w, j); }
  }

  /** Through a FIFO and back: every byte string returns unchanged and the FIFO is left as it was. */
  method FifoRoundTrip(src: seq<u8>, reg: Fifo, dest: array<u8>)
    requires dest.Length == |src| && reg.queue == []
    modifies reg, dest
    ensures dest[..] == src && reg.queue == []
  {
    CopyToReg(reg, src);
    CopyFromReg(dest, reg);
    forall k | 0 <= k < |src| ensures dest[k] == src[k] {
      assert dest[..][k] == ByteOf(Words(src)[k / 4], k % 4);
      WordsHoldBytes(src, k);
    }
  }

  /** Write a byte string into an array of registers; what does not fit is dropped, registers past
      its end keep their value. */
  method CopyToRegArray(regs: array<u32>, src: seq<u8>)
    modifies regs
    ensures forall i :: 0 <= i < regs.Length ==>
              regs[i] == if i < WordCount(|src|) then WordAt(src, i) else old(regs[i])
  {
    var words := |src| / 4;
    var n := Min(regs.Length, words);
    for i := 0 to n
      invariant forall k :: 0 <= k < regs.Length ==> regs[k] == if k < i then WordAt(src, k) else old(regs[k])
    {
      WordInside(src, i);
      regs[i] := FromLe32(src[4 * i..4 * i + 4]);
    }
    LastWordIsPadded(src);
    if words >= regs.Length {
      return;
    }
    var last := LastWord(src[4 * words..]);
    if last.None? {
      return;
    }
    regs[words] := last.value;
  }

  /** Fill a buffer from an array of registers, as far as they go. */
  method CopyFromRegArray(dest: array<u8>, regs: array<u32>)
    modifies dest
    ensures Filled(old(dest[..]), dest[..], regs[..], Min(dest.Length, 4 * regs.Length))
  {
    ghost var was := dest[..];
    var words := dest.Length / 4;
    var n := Min(regs.Length, words);
    for i := 0 to n
      invariant Filled(was, dest[..], regs[..], 4 * i)
    {
      PutWord(dest, i, regs[i], 4, was, regs[..]);
    }
    if n < regs.Length && 4 * n < dest.Length {
      PutWord(dest, n, regs[n], dest.Length - 4 * n, was, regs[..]);
    }
  }

  /** Through the registers and back: what fits returns unchanged, the rest of the buffer is not touched. */
  method ArrayRoundTrip(src: seq<u8>, regs: array<u32>, dest: array<u8>)
    requires dest.Length == |src|
    modifies regs, dest
    ensures forall k :: 0 <= k < |src| ==> dest[k] == if k < 4 * regs.Length then src[k] else old(dest[k])
  {
    ghost var was := dest[..];
    CopyToRegArray(regs, src);
    CopyFromRegArray(dest, regs);
    forall k | 0 <= k < |src| ensures dest[k] == if k < 4 * regs.Length then src[k] else was[k] {
      assert Filled(was, dest[..], regs[..], Min(dest.Length, 4 * regs.Length));
      assert dest[..][k] == dest[k];
      WordsHoldBytes(src, k);
    }
  }
}
