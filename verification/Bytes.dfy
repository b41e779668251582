/** Byte strings and the fixed-width integer encodings every on-disk record is built from. */
module Bytes {
  type byte = x: int | 0 <= x < 256
  type Bytes = seq<byte>

  type u16 = x: int | 0 <= x < 0x1_0000
  type u32 = x: int | 0 <= x < 0x1_0000_0000

  datatype Option<+T> = None | Some(value: T)

  /** Division rounded up. */
  function Ceil(n: nat, k: nat): (r: nat)
    requires k > 0
  {
    (n + k - 1) / k
  }

  function Pow256(w: nat): (r: nat)
    ensures r > 0
  {
    if w == 0 then 1 else 256 * Pow256(w - 1)
  }

  /** Little-endian, low `w` bytes: what PutUint16/32/64 store, truncation included. */
  function LE(n: nat, w: nat): (b: Bytes)
    ensures |b| == w
  {
    if w == 0 then [] else [n % 256] + LE(n / 256, w - 1)
  }

  function UnLE(b: Bytes): (n: nat)
  {
    if b == [] then 0 else b[0] + 256 * UnLE(b[1..])
  }

  /** Big-endian, low `w` bytes. */
  function BE(n: nat, w: nat): (b: Bytes)
    ensures |b| == w
  {
    if w == 0 then [] else BE(n / 256, w - 1) + [n % 256]
  }

  function UnBE(b: Bytes): (n: nat)
  {
    if b == [] then 0 else 256 * UnBE(b[..|b| - 1]) + b[|b| - 1]
  }

  lemma {:induction false} DivFits(n: nat, w: nat)
    requires w > 0 && n < Pow256(w)
    ensures n / 256 < Pow256(w - 1)
  {
  }

  lemma {:induction false} LERoundTrip(n: nat, w: nat)
    requires n < Pow256(w)
    ensures UnLE(LE(n, w)) == n
  {
    if w > 0 {
      DivFits(n, w);
      LERoundTrip(n / 256, w - 1);
      assert LE(n, w)[1..] == LE(n / 256, w - 1);
    }
  }

  lemma {:induction false} BERoundTrip(n: nat, w: nat)
    requires n < Pow256(w)
    ensures UnBE(BE(n, w)) == n
  {
    if w > 0 {
      DivFits(n, w);
      BERoundTrip(n / 256, w - 1);
      assert BE(n, w)[..w - 1] == BE(n / 256, w - 1);
    }
  }

  /** Which byte counts for how much. */
  lemma {:induction false} ByteOrder(a: byte, b: byte, c: byte, d: byte)
    ensures UnLE([a, b, c, d]) == a as nat + 0x100 * b as nat + 0x1_0000 * c as nat + 0x100_0000 * d as nat
    ensures UnBE([a, b, c, d]) == d as nat + 0x100 * c as nat + 0x1_0000 * b as nat + 0x100_0000 * a as nat
  {
    OneMoreByte(a, [b, c, d]);
    OneMoreByte(b, [c, d]);
    OneMoreByte(c, [d]);
    OneMoreByte(d, []);
    LastByte([a, b, c], d);
    LastByte([a, b], c);
    LastByte([a], b);
    LastByte([], a);
    assert [a, b, c] + [d] == [a, b, c, d] && [a, b] + [c] == [a, b, c] && [a] + [b] == [a, b] && [] + [a] == [a];
  }

  lemma {:induction false} OneMoreByte(a: byte, rest: Bytes)
    ensures UnLE([a] + rest) == a as nat + 0x100 * UnLE(rest)
  {
    assert ([a] + rest)[1..] == rest;
  }

  lemma {:induction false} LastByte(front: Bytes, d: byte)
    ensures UnBE(front + [d]) == 0x100 * UnBE(front) + d as nat
  {
    assert (front + [d])[..|front|] == front;
  }

  lemma {:induction false} UnBEBack(b: Bytes)
    ensures UnBE(b) < Pow256(|b|) && BE(UnBE(b), |b|) == b
    decreases |b|
  {
    if b != [] {
      var n := |b| - 1;
      UnBEBack(b[..n]);
      assert b == b[..n] + [b[n]];
    }
  }

  lemma {:induction false} Width2()
    ensures Pow256(2) == 0x1_0000
  {
    assert Pow256(1) == 256;
  }

  lemma {:induction false} Width4()
    ensures Pow256(4) == 0x1_0000_0000
  {
    Width2();
    assert Pow256(3) == 0x100_0000;
  }

  lemma {:induction false} Width8()
    ensures Pow256(8) == 0x1_0000_0000_0000_0000
  {
    Width4();
    assert Pow256(5) == 0x100_0000_0000;
    assert Pow256(6) == 0x1_0000_0000_0000;
    assert Pow256(7) == 0x100_0000_0000_0000;
  }

  lemma {:induction false} U16RoundTrip(n: nat)
    requires n < 0x1_0000
    ensures UnLE(LE(n, 2)) == n
  {
    Width2();
    LERoundTrip(n, 2);
  }

  lemma {:induction false} U32RoundTrip(n: nat)
    requires n < 0x1_0000_0000
    ensures UnLE(LE(n, 4)) == n
  {
    Width4();
    LERoundTrip(n, 4);
  }

  lemma {:induction false} U64RoundTrip(n: nat)
    requires n < 0x1_0000_0000_0000_0000
    ensures UnLE(LE(n, 8)) == n
  {
    Width8();
    LERoundTrip(n, 8);
  }

  function Flatten(s: seq<Bytes>): (b: Bytes)
  {
    if s == [] then [] else s[0] + Flatten(s[1..])
  }

  lemma {:induction false} FlattenConcat(s: seq<Bytes>, t: seq<Bytes>)
    ensures Flatten(s + t) == Flatten(s) + Flatten(t)
  {
    if s == [] {
      Nil(t);
      Nil(Flatten(t));
    } else {
      FlattenConcat(s[1..], t);
      TailOfConcat(s, t);
      Assoc(s[0], Flatten(s[1..]), Flatten(t));
    }
  }

  lemma {:induction false} FlattenSnoc(s: seq<Bytes>, x: Bytes)
    ensures Flatten(s + [x]) == Flatten(s) + x
  {
    FlattenConcat(s, [x]);
    assert [x][1..] == [];
    Nil(x);
  }

  /** `part` occupies `whole` from `pos`. */
  predicate At(whole: Bytes, pos: nat, part: Bytes)
  {
    pos + |part| <= |whole| && whole[pos..pos + |part|] == part
  }

  lemma {:induction false} AtSub(whole: Bytes, pos: nat, part: Bytes, i: nat, j: nat)
    requires At(whole, pos, part) && i <= j <= |part|
    ensures At(whole, pos + i, part[i..j])
  {
    forall k | 0 <= k < j - i
      ensures whole[pos + i..pos + i + |part[i..j]|][k] == part[i..j][k]
    {
      assert whole[pos..pos + |part|][i + k] == part[i + k];
    }
  }

  lemma {:induction false} AtConcat(whole: Bytes, pos: nat, a: Bytes, b: Bytes)
    requires At(whole, pos, a + b)
    ensures At(whole, pos, a) && At(whole, pos + |a|, b)
  {
    assert (a + b)[..|a|] == a && (a + b)[|a|..] == b;
  }

  lemma {:induction false} AtTrans(whole: Bytes, pos: nat, part: Bytes, k: nat, sub: Bytes)
    requires At(whole, pos, part) && At(part, k, sub)
    ensures At(whole, pos + k, sub)
  {
    assert part[k..k + |sub|] == sub;
    AtSub(whole, pos, part, k, k + |sub|);
  }

  lemma {:induction false} AtPrefix(a: Bytes, b: Bytes, pos: nat, p: Bytes)
    requires a <= b && At(a, pos, p)
    ensures At(b, pos, p)
  {
  }

  lemma {:induction false} AtDrop(head: Bytes, tail: Bytes, off: nat, p: Bytes)
    requires At(head + tail, |head| + off, p)
    ensures At(tail, off, p)
  {
    assert (head + tail)[|head| + off..|head| + off + |p|] == tail[off..off + |p|];
  }

  // Sequence laws, stated once so that proofs can cite them.

  lemma {:induction false} Assoc<T>(a: seq<T>, b: seq<T>, c: seq<T>)
    ensures a + b + c == a + (b + c)
  {
  }

  lemma {:induction false} HeadTail<T>(s: seq<T>)
    requires s != []
    ensures [s[0]] + s[1..] == s
  {
  }

  lemma {:induction false} SplitAt<T>(s: seq<T>, n: nat)
    requires n <= |s|
    ensures s[..n] + s[n..] == s
  {
  }

  lemma {:induction false} TakeNext<T>(s: seq<T>, n: nat)
    requires n < |s|
    ensures s[..n + 1] == s[..n] + [s[n]]
  {
  }

  lemma {:induction false} TakeAll<T>(s: seq<T>)
    ensures s[..|s|] == s
  {
  }

  lemma {:induction false} SliceOfTail<T>(s: seq<T>, i: nat, j: nat)
    requires i <= j <= |s|
    ensures s[i..][..j - i] == s[i..j]
    ensures s[i..][j - i..] == s[j..]
  {
  }

  lemma {:induction false} SliceOfTake<T>(s: seq<T>, n: nat, i: nat, m: nat)
    requires i <= m <= n <= |s|
    ensures s[..n][i..m] == s[i..m]
  {
  }

  lemma {:induction false} TailOfConcat<T>(s: seq<T>, t: seq<T>)
    requires s != []
    ensures (s + t)[0] == s[0]
    ensures (s + t)[1..] == s[1..] + t
  {
  }

  lemma {:induction false} Nil<T>(t: seq<T>)
    ensures [] + t == t && t + [] == t
  {
  }

  /** `r` is what stands at the given places of `s`, in order. */
  ghost predicate Picks<T>(s: seq<T>, places: seq<nat>, r: seq<T>)
  {
    && (forall j, k | 0 <= j < k < |places| :: places[j] < places[k])
    && |r| == |places| && forall j | 0 <= j < |places| :: places[j] < |s| && r[j] == s[places[j]]
  }

  lemma {:induction false} PicksMore<T>(s: seq<T>, places: seq<nat>, r: seq<T>)
    requires s != [] && Picks(s[..|s| - 1], places, r)
    ensures Picks(s, places, r) && Picks(s, places + [|s| - 1], r + [s[|s| - 1]]) && |s| - 1 !in places
  {
  }
}
