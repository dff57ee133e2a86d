/** Counter mode as the runtime uses it to encrypt swapped pages, over an arbitrary block cipher. */
module Ctr {
  import opened Arith
  import opened Bytes

  const BLOCK: nat := 16

  type KeyBlock = s: seq<bv8> | |s| == 16 witness seq(16, _ => 0)

  /** The block cipher under a fixed key schedule. */
  type Cipher = seq<byte> -> KeyBlock

  /** The integer a big-endian byte string stands for. */
  function BeNat(s: seq<byte>): nat {
    if s == [] then 0 else BeNat(s[..|s| - 1]) * 256 + s[|s| - 1]
  }

  /** The n-byte big-endian encoding of x modulo 256^n. */
  function Be(x: nat, n: nat): (s: seq<byte>)
    ensures |s| == n
  {
    if n == 0 then [] else Be(x / 256, n - 1) + [x % 256]
  }

  lemma {:induction false} BeRoundTrip(s: seq<byte>)
    ensures Be(BeNat(s), |s|) == s
  {
    if s != [] {
      var t := s[..|s| - 1];
      BeRoundTrip(t);
      assert BeNat(s) % 256 == s[|s| - 1] && BeNat(s) / 256 == BeNat(t);
    }
  }

  lemma {:induction false} BeBound(s: seq<byte>)
    ensures BeNat(s) < Pow256(|s|)
  {
    if s != [] {
      BeBound(s[..|s| - 1]);
    }
  }

  /** Carrying into position i: it grows by one and everything after it, all 255, becomes 0. */
  lemma {:induction false} CarryValue(s: seq<byte>, t: seq<byte>, i: nat)
    requires |s| == |t| && i < |s| && t[..i] == s[..i] && t[i] as int == s[i] as int + 1
    requires forall j :: i < j < |s| ==> s[j] == 255 && t[j] == 0
    ensures BeNat(t) == BeNat(s) + 1
  {
    var n := |s| - 1;
    if i == n {
      assert s[..n] == t[..n];
    } else {
      assert s[..n][..i] == s[..i] && t[..n][..i] == t[..i];
      CarryValue(s[..n], t[..n], i);
    }
  }

  /** Carrying out of the first position: the counter wraps to zero. */
  lemma {:induction false} WrapValue(s: seq<byte>, t: seq<byte>)
    requires |s| == |t| && forall j :: 0 <= j < |s| ==> s[j] == 255 && t[j] == 0
    ensures BeNat(s) == Pow256(|s|) - 1 && BeNat(t) == 0
  {
    var n := |s| - 1;
    if n >= 0 {
      WrapValue(s[..n], t[..n]);
    }
  }

  /** The successor modulo m. */
  function Next(c: nat, m: nat): nat
    requires m > 0
  {
    (c + 1) % m
  }

  /** increment_iv: the last `size` bytes are a big-endian counter that grows by one modulo
      256^size; the bytes before them stay. */
  method IncrementIv(iv: array<byte>, size: nat)
    requires iv.Length == BLOCK && size <= BLOCK
    modifies iv
    ensures iv[..BLOCK - size] == old(iv[..BLOCK - size])
    ensures BeNat(iv[BLOCK - size..]) == Next(BeNat(old(iv[BLOCK - size..])), Pow256(size))
  {
    ghost var lo := BLOCK - size;
    ghost var s := iv[lo..];
    if size == 0 {
      assert iv[BLOCK..] == [];
      return;
    }
    var idx := BLOCK - 1;
    while idx >= BLOCK - size
      invariant lo <= idx < BLOCK
      invariant forall j :: 0 <= j <= idx ==> iv[j] == old(iv[j])
      invariant forall j :: idx < j < BLOCK ==> old(iv[j]) == 255 && iv[j] == 0
      decreases idx
    {
      iv[idx] := (iv[idx] as int + 1) % 256;
      if iv[idx] != 0 || idx == BLOCK - size {
        break;
      }
      idx := idx - 1;
    }
    ghost var t := iv[lo..];
    assert t[..idx - lo] == s[..idx - lo];
    Counted(s, t, idx - lo);
  }

  /** The ripple carry up to position k adds one, modulo 256^size when it runs out of the top. */
  lemma Counted(s: seq<byte>, t: seq<byte>, k: nat)
    requires |s| == |t| && k < |s| && t[..k] == s[..k] && t[k] == (s[k] as int + 1) % 256
    requires (forall j :: k < j < |s| ==> s[j] == 255 && t[j] == 0) && (s[k] == 255 ==> k == 0)
    ensures BeNat(t) == Next(BeNat(s), Pow256(|s|))
  {
    if s[k] == 255 {
      WrapValue(s, t);
      ModUnique(Pow256(|s|), 1, 0, Pow256(|s|));
    } else {
      CarryValue(s, t, k);
      BeBound(t);
      SmallMod(BeNat(t), Pow256(|s|));
    }
  }

  // ---------------------------------------------------------------- the keystream

  function Offset(c: nat, j: nat, m: nat): nat
    requires m > 0
  {
    (c + j) % m
  }

  /** The counter block of block j of a message whose first counter block is iv. */
  function CounterBlock(iv: seq<byte>, j: nat): (s: seq<byte>)
    ensures |s| == |iv|
  {
    Be(Offset(BeNat(iv), j, Pow256(|iv|)), |iv|)
  }

  function KeyByte(E: Cipher, iv: seq<byte>, k: nat): bv8
    requires |iv| == BLOCK
  {
    E(CounterBlock(iv, k / BLOCK))[k % BLOCK]
  }

  /** Counter mode: every byte is xored with the key byte of its position. */
  function CtrXor(E: Cipher, iv: seq<byte>, data: seq<bv8>): (r: seq<bv8>)
    requires |iv| == BLOCK
    ensures |r| == |data|
  {
    seq(|data|, k requires 0 <= k < |data| => data[k] ^ KeyByte(E, iv, k))
  }

  /** Byte k is combined with byte k % 16 of the cipher's image of the counter block that is k / 16 further. */
  lemma CtrByte(E: Cipher, iv: seq<byte>, data: seq<bv8>, c: seq<byte>, k: nat)
    requires |iv| == |c| == 16 && k < |data| && BeNat(c) == (BeNat(iv) + k / 16) % Pow256(16)
    ensures CtrXor(E, iv, data)[k] == data[k] ^ E(c)[k % 16]
  {
    hide Pow256, Be, BeNat;
    BeRoundTrip(c);
  }

  /** Encryption is its own inverse under the same counter block. */
  lemma CtrInverse(E: Cipher, iv: seq<byte>, data: seq<bv8>)
    requires |iv| == BLOCK
    ensures CtrXor(E, iv, CtrXor(E, iv, data)) == data
  {
    var once := CtrXor(E, iv, data);
    forall k | 0 <= k < |data|
      ensures CtrXor(E, iv, once)[k] == data[k]
    {
      XorCancel(data[k], KeyByte(E, iv, k));
    }
  }

  lemma XorCancel(a: bv8, b: bv8)
    ensures (a ^ b) ^ b == a
  {}

  /** Stepping the counter block moves one block along the keystream. */
  lemma CounterStep(iv: seq<byte>, j: nat, cur: seq<byte>, next: seq<byte>)
    requires |iv| == |cur| == |next|
    requires cur == CounterBlock(iv, j)
    requires BeNat(next) == Next(BeNat(cur), Pow256(|iv|))
    ensures next == CounterBlock(iv, j + 1)
  {
    var c, m := BeNat(iv), Pow256(|iv|);
    OffsetNext(c, j, m);
    BeNatOfBe(Offset(c, j, m), |iv|);
    BeRoundTrip(next);
  }

  lemma OffsetNext(c: nat, j: nat, m: nat)
    requires m > 0
    ensures Next(Offset(c, j, m), m) == Offset(c, j + 1, m) && Offset(c, j, m) < m
  {
    var x := c + j;
    DivMod(x, m);
    ModShift(x % m + 1, x / m, m);
  }

  lemma {:induction false} BeNatOfBe(x: nat, n: nat)
    requires x < Pow256(n)
    ensures BeNat(Be(x, n)) == x
  {
    if n > 0 {
      BeNatOfBe(x / 256, n - 1);
      assert Be(x, n)[..n - 1] == Be(x / 256, n - 1);
    }
  }

  lemma CounterStart(iv: seq<byte>)
    ensures CounterBlock(iv, 0) == iv
  {
    BeBound(iv);
    BeRoundTrip(iv);
    SmallMod(BeNat(iv), Pow256(|iv|));
  }

  /** xor_buf on a stretch of the output. */
  method XorBuf(key: KeyBlock, out: array<bv8>, at: nat, len: nat)
    requires len <= BLOCK && at + len <= out.Length
    modifies out
    ensures forall k :: 0 <= k < out.Length ==>
              out[k] == if at <= k < at + len then old(out[k]) ^ key[k - at] else old(out[k])
  {
    for i := 0 to len
      invariant forall k :: 0 <= k < out.Length ==>
                  out[k] == if at <= k < at + i then old(out[k]) ^ key[k - at] else old(out[k])
    {
      out[at + i] := out[at + i] ^ key[i];
    }
  }

  /** Block j of the image is block j of the data under one cipher output. */
  ghost predicate BlockImage(E: Cipher, iv: seq<byte>, data: seq<bv8>, image: seq<bv8>, j: nat)
    requires |image| == |data|
  {
    forall k :: BLOCK * j <= k < BLOCK * j + BLOCK && k < |data| ==>
      image[k] == data[k] ^ E(CounterBlock(iv, j))[k - BLOCK * j]
  }

  lemma CtrBlocks(E: Cipher, iv: seq<byte>, data: seq<bv8>)
    requires |iv| == BLOCK
    ensures forall j: nat :: BlockImage(E, iv, data, CtrXor(E, iv, data), j)
  {
    forall j: nat, k | BLOCK * j <= k < BLOCK * j + BLOCK && k < |data|
      ensures CtrXor(E, iv, data)[k] == data[k] ^ E(CounterBlock(iv, j))[k - BLOCK * j]
    {
      assert k / BLOCK == j && k % BLOCK == k - BLOCK * j;
    }
  }

  /** The block loop and the last, possibly short, block. */
  method XorStream(E: Cipher, len: nat, out: array<bv8>, iv: seq<byte>, ghost data: seq<bv8>, ghost image: seq<bv8>)
    requires |iv| == BLOCK && len <= out.Length && |data| == |image| == len && out[..len] == data
    requires forall j: nat :: BlockImage(E, iv, data, image, j)
    modifies out
    ensures out[..len] == image && out[len..] == old(out[len..])
  {
    hide CounterBlock;
    var ivBuf := new byte[BLOCK](i requires 0 <= i < BLOCK => iv[i]);
    assert ivBuf[..] == iv;
    CounterStart(iv);
    var idx := 0;
    ghost var j := 0;
    if len > BLOCK {
      while idx < len - BLOCK
        invariant idx == BLOCK * j && idx <= len && fresh(ivBuf)
        invariant ivBuf[..] == CounterBlock(iv, j)
        invariant forall k :: 0 <= k < idx ==> out[k] == image[k]
        invariant forall k :: idx <= k < len ==> out[k] == data[k]
        invariant forall k :: len <= k < out.Length ==> out[k] == old(out[k])
      {
        var key := E(ivBuf[..]);
        assert BlockImage(E, iv, data, image, j);
        XorBuf(key, out, idx, BLOCK);
        StepCounter(ivBuf, iv, j);
        idx, j := idx + BLOCK, j + 1;
      }
    }
    var key := E(ivBuf[..]);
    assert BlockImage(E, iv, data, image, j);
    XorBuf(key, out, idx, len - idx);
  }

  method StepCounter(ivBuf: array<byte>, ghost iv: seq<byte>, ghost j: nat)
    requires ivBuf.Length == |iv| == BLOCK && ivBuf[..] == CounterBlock(iv, j)
    modifies ivBuf
    ensures ivBuf[..] == CounterBlock(iv, j + 1)
  {
    ghost var cur := ivBuf[..];
    assert ivBuf[BLOCK - BLOCK..] == cur;
    IncrementIv(ivBuf, BLOCK);
    assert ivBuf[BLOCK - BLOCK..] == ivBuf[..];
    CounterStep(iv, j, cur, ivBuf[..]);
  }

  /** aes_encrypt_ctr on buffers that may be one and the same: the first `len` bytes of the output
      are the counter-mode image of the input, the rest stays. */
  method EncryptCtr(E: Cipher, input: array<bv8>, len: nat, out: array<bv8>, iv: seq<byte>)
    requires |iv| == BLOCK && len <= input.Length && len <= out.Length
    modifies out
    ensures out[..len] == CtrXor(E, iv, old(input[..len]))
    ensures out[len..] == old(out[len..])
  {
    ghost var data := input[..len];
    if input != out {
      for k := 0 to len
        invariant forall j :: 0 <= j < k ==> out[j] == data[j]
        invariant forall j :: k <= j < out.Length ==> out[j] == old(out[j])
        invariant input[..len] == data
      {
        out[k] := input[k];
      }
    }
    CtrBlocks(E, iv, data);
    XorStream(E, len, out, iv, data, CtrXor(E, iv, data));
  }
}
