/** MD5Init, MD5Update and MD5Final in the source's own form. */
module Md5 {
  import opened Md5Table
  import opened Md5Spec
  import opened Md5Transform

  // On a little-endian machine this leaves memory as it is.
  method ByteReverse(bytes: array<Byte>, longs: nat)
    requires 4 * longs <= bytes.Length
    modifies bytes
    ensures bytes[..] == old(bytes[..])
  {
    for i := 0 to longs
      invariant bytes[..] == old(bytes[..])
    {
      var t := Word(bytes[4 * i], bytes[4 * i + 1], bytes[4 * i + 2], bytes[4 * i + 3]);
      BytesOfWord(bytes[4 * i], bytes[4 * i + 1], bytes[4 * i + 2], bytes[4 * i + 3]);
      var b := Bytes(t);
      bytes[4 * i], bytes[4 * i + 1], bytes[4 * i + 2], bytes[4 * i + 3] := b[0], b[1], b[2], b[3];
    }
  }

  class MD5Context {
    const buf: array<bv32>
    var bits0: nat
    var bits1: nat
    const block: array<Byte>

    ghost predicate Shaped() {
      buf.Length == 4 && block.Length == 64 && buf as object != block
    }

    // The buffer holds what is left over of the message, and buf the digest of
    // its whole blocks.
    ghost predicate Holds(m: seq<Byte>)
      reads buf, block
    {
      Shaped() && State(buf[..]) == Absorb(INIT, Whole(m)) && block[..|m| % 64] == Rest(m)
    }

    // The context has taken in exactly this message.
    ghost predicate Valid(m: seq<Byte>)
      reads this, buf, block
    {
      Holds(m) && Counted(bits0, bits1, |m|)
    }

    constructor MD5Init()
      ensures Valid(NOTHING) && fresh(buf) && fresh(block)
    {
      buf := new bv32[4];
      block := new Byte[64];
      bits0, bits1 := 0, 0;
      new;
      buf[0], buf[1], buf[2], buf[3] := INIT.a, INIT.b, INIT.c, INIT.d;
      NothingYet(NOTHING);
    }

    // memmove(ctx->in + t, part), or memset when the part is zeros.
    method CopyIn(t: nat, part: seq<Byte>)
      requires t + |part| <= block.Length
      modifies block
      ensures block[..] == old(block[..t]) + part + old(block[t + |part|..])
    {
      forall k | 0 <= k < |part| {
        block[t + k] := part[k];
      }
    }

    // Bytes behind those in the buffer, which they do not fill.
    method Keep(t: nat, part: seq<Byte>, ghost m: seq<Byte>)
      requires Holds(m) && t == |m| % 64 && t + |part| < 64
      modifies block
      ensures Holds(m + part)
    {
      CopyIn(t, part);
      assert block[..t + |part|] == old(block[..t]) + part;
      NoBlockMore(m, part);
    }

    // The buffer is full: one more block.
    method Transform64()
      requires Shaped()
      modifies buf, block
      ensures block[..] == old(block[..])
      ensures State(buf[..]) == Transform(old(State(buf[..])), Words(old(block[..])))
    {
      ByteReverse(block, 16);
      MD5Transform(buf, Words(block[..]));
    }

    // Bytes behind those in the buffer, which they fill.
    method Complete(t: nat, part: seq<Byte>, ghost m: seq<Byte>)
      requires Holds(m) && t == |m| % 64 && t + |part| == 64
      modifies buf, block
      ensures Holds(m + part) && |m + part| % 64 == 0
    {
      CopyIn(t, part);
      assert block[..] == Rest(m) + part;
      Transform64();
      OneBlockMore(m, part);
    }

    method CountBits(len: nat, ghost n: nat) returns (t: nat)
      requires Counted(bits0, bits1, n) && len < W
      modifies this
      ensures Counted(bits0, bits1, n + len) && t == n % 64
    {
      CountersAreExact(bits0, bits1, n, len);
      t := bits0;
      bits0 := (t + len * 8 % W) % W;
      if bits0 < t {
        bits1 := (bits1 + 1) % W;
      }
      bits1 := (bits1 + len / 0x2000_0000) % W;
      t := t / 8 % 64;
    }

    // m is the message so far.
    method MD5Update(data: seq<Byte>, ghost m: seq<Byte>)
      requires Valid(m) && |data| < W
      modifies this, buf, block
      ensures Valid(m + data)
    {
      var t := CountBits(|data|, |m|);
      TakeIn(data, t, m);
    }

    method TakeIn(data: seq<Byte>, t: nat, ghost m: seq<Byte>)
      requires Holds(m) && t == |m| % 64
      modifies buf, block
      ensures Holds(m + data)
    {
      if t > 0 && |data| < 64 - t {
        Keep(t, data, m);
        return;
      }
      var pos := Leading(data, t, m);
      pos := Blocks(data, pos, m);
      Keep(0, data[pos..], m + data[..pos]);
      TakeMore(m, data, pos, |data|);
    }

    // A leading piece that fills the buffer.
    method Leading(data: seq<Byte>, t: nat, ghost m: seq<Byte>) returns (pos: nat)
      requires Holds(m) && t == |m| % 64 && (t > 0 ==> 64 - t <= |data|)
      modifies buf, block
      ensures pos <= |data| && |m + data[..pos]| % 64 == 0 && Holds(m + data[..pos])
    {
      TakeMore(m, data, 0, 0);
      if t == 0 {
        return 0;
      }
      pos := 64 - t;
      Complete(t, data[..pos], m);
    }

    // The whole blocks of the data.
    method Blocks(data: seq<Byte>, start: nat, ghost m: seq<Byte>) returns (pos: nat)
      requires start <= |data| && |m + data[..start]| % 64 == 0 && Holds(m + data[..start])
      modifies buf, block
      ensures pos <= |data| < pos + 64 && |m + data[..pos]| % 64 == 0 && Holds(m + data[..pos])
    {
      pos := start;
      while |data| - pos >= 64
        invariant pos <= |data| && |m + data[..pos]| % 64 == 0 && Holds(m + data[..pos])
      {
        Block64(data, pos, m);
        pos := pos + 64;
      }
    }

    method Block64(data: seq<Byte>, pos: nat, ghost m: seq<Byte>)
      requires pos + 64 <= |data| && |m + data[..pos]| % 64 == 0 && Holds(m + data[..pos])
      modifies buf, block
      ensures |m + data[..pos + 64]| % 64 == 0 && Holds(m + data[..pos + 64])
    {
      TakeMore(m, data, pos, pos + 64);
      Complete(0, data[pos..pos + 64], m + data[..pos]);
    }

    method ZeroFrom(t: nat, n: nat)
      requires Shaped() && t + n <= 64
      modifies block
      ensures block[..t + n] == old(block[..t]) + Zeros(n) && buf[..] == old(buf[..])
    {
      CopyIn(t, Zeros(n));
    }

    // Two lots of padding: the rest of this block, and the next up to the
    // place of the length.
    method PadTwo(t: nat, ghost m: seq<Byte>) returns (ghost before: seq<Byte>)
      requires Shaped() && State(buf[..]) == Absorb(INIT, Whole(m))
      requires t == |m| % 64 + 1 > 56 && block[..t] == Rest(m) + [0x80]
      modifies buf, block
      ensures State(buf[..]) == Absorb(INIT, before) && |before| % 64 == 0
      ensures Pad(m) == before + (block[..56] + LengthBytes(|m|))
    {
      before := FillBlock(t, m);
      ZeroFrom(0, 56);
      PadEnds(m, before, block[..56]);
    }

    method FillBlock(t: nat, ghost m: seq<Byte>) returns (ghost before: seq<Byte>)
      requires Shaped() && State(buf[..]) == Absorb(INIT, Whole(m))
      requires t == |m| % 64 + 1 > 56 && block[..t] == Rest(m) + [0x80]
      modifies buf, block
      ensures before == Whole(m) + (Rest(m) + [0x80] + Zeros(63 - |m| % 64))
      ensures State(buf[..]) == Absorb(INIT, before) && |before| % 64 == 0
    {
      ZeroFrom(t, 64 - t);
      ghost var full := Rest(m) + [0x80] + Zeros(64 - t);
      TwoBlocks(m, full);
      assert block[..] == full;
      Transform64();
      before := Whole(m) + full;
    }

    method Mark(count: nat, ghost rest: seq<Byte>)
      requires Shaped() && count < 64 && block[..count] == rest
      modifies block
      ensures block[..count + 1] == rest + [0x80] && buf[..] == old(buf[..])
    {
      CopyIn(count, [0x80]);
    }

    // The first byte of the padding, and zeros up to the place of the length,
    // which may be in one more block; before is the part of the padded message
    // that was taken in.
    method PadOut(count: nat, ghost m: seq<Byte>) returns (ghost before: seq<Byte>)
      requires Shaped() && State(buf[..]) == Absorb(INIT, Whole(m)) && count == |m| % 64 && block[..count] == Rest(m)
      modifies buf, block
      ensures State(buf[..]) == Absorb(INIT, before) && |before| % 64 == 0
      ensures Pad(m) == before + (block[..56] + LengthBytes(|m|))
    {
      Mark(count, Rest(m));
      var left := 64 - 1 - count;
      if left < 8 {
        before := PadTwo(count + 1, m);
      } else {
        before := PadOne(count + 1, m);
      }
    }

    // Pad this block up to the place of the length.
    method PadOne(t: nat, ghost m: seq<Byte>) returns (ghost before: seq<Byte>)
      requires Shaped() && State(buf[..]) == Absorb(INIT, Whole(m))
      requires t == |m| % 64 + 1 <= 56 && block[..t] == Rest(m) + [0x80]
      modifies block
      ensures State(buf[..]) == Absorb(INIT, before) && |before| % 64 == 0
      ensures Pad(m) == before + (block[..56] + LengthBytes(|m|))
    {
      ZeroFrom(t, 56 - t);
      PadEndsHere(m, block[..56]);
      before := Whole(m);
    }

    method SetLength(ghost n: nat)
      requires Shaped() && Counted(bits0, bits1, n)
      modifies block
      ensures block[..] == old(block[..56]) + LengthBytes(n)
    {
      CopyIn(56, Bytes(ToWord(bits0)));
      CopyIn(60, Bytes(ToWord(bits1)));
    }

    // After the call the context is not used again.
    method MD5Final(ghost m: seq<Byte>) returns (digest: seq<Byte>)
      requires Valid(m)
      modifies this, buf, block
      ensures digest == Digest(m)
    {
      CountersAreExact(bits0, bits1, |m|, 0);
      ghost var before := PadOut(bits0 / 8 % 64, m);
      ByteReverse(block, 14);
      SetLength(|m|);
      ghost var last := block[..];
      MD5Transform(buf, Words(block[..]));
      AbsorbMore(INIT, before, last);
      digest := Output(State(buf[..]));
    }
  }

  lemma {:induction false} PadEnds(m: seq<Byte>, before: seq<Byte>, rest: seq<Byte>)
    requires |m| % 64 >= 56 && before == Whole(m) + (Rest(m) + [0x80] + Zeros(63 - |m| % 64)) && rest == [] + Zeros(56)
    ensures Pad(m) == before + (rest + LengthBytes(|m|))
  {
    PadIsTwo(m);
    assert rest == Zeros(56);
  }

  lemma {:induction false} TakeMore(m: seq<Byte>, data: seq<Byte>, i: nat, j: nat)
    requires i <= j <= |data|
    ensures m + data[..i] + data[i..j] == m + data[..j]
    ensures i == 0 ==> m + data[..i] == m
    ensures j == |data| ==> m + data[..j] == m + data && data[i..j] == data[i..]
  {
  }

  method UpdateAll(ctx: MD5Context, pieces: seq<seq<Byte>>, ghost m: seq<Byte>)
    requires ctx.Valid(m) && forall i :: 0 <= i < |pieces| ==> |pieces[i]| < W
    modifies ctx, ctx.buf, ctx.block
    ensures ctx.Valid(m + Flatten(pieces))
  {
    ghost var taken := m;
    FlattenNone(m, pieces);
    for i := 0 to |pieces|
      invariant taken == m + Flatten(pieces[..i]) && ctx.Valid(taken)
    {
      FlattenMore(m, pieces, i);
      ctx.MD5Update(pieces[i], taken);
      taken := taken + pieces[i];
    }
    assert pieces[..|pieces|] == pieces;
  }

  // Hashing a message in pieces: the digest does not depend on the cutting.
  method Hash(pieces: seq<seq<Byte>>) returns (digest: seq<Byte>)
    requires forall i :: 0 <= i < |pieces| ==> |pieces[i]| < W
    ensures digest == Digest(Flatten(pieces))
  {
    var ctx := new MD5Context.MD5Init();
    UpdateAll(ctx, pieces, NOTHING);
    assert NOTHING + Flatten(pieces) == Flatten(pieces);
    digest := ctx.MD5Final(Flatten(pieces));
  }
}
