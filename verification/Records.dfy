/** Runs of equal-width words, written one after another into a buffer and read back by position. */
module Records {
  import opened Bytes

  function Words(ws: seq<nat>, w: nat): (r: Bytes)
  {
    if ws == [] then [] else Words(ws[..|ws| - 1], w) + LE(ws[|ws| - 1], w)
  }

  lemma {:induction false} WordsLength(ws: seq<nat>, w: nat)
    ensures w == 2 ==> |Words(ws, w)| == 2 * |ws|
    ensures w == 4 ==> |Words(ws, w)| == 4 * |ws|
    ensures w == 8 ==> |Words(ws, w)| == 8 * |ws|
  {
    if ws != [] {
      WordsLength(ws[..|ws| - 1], w);
    }
  }

  function Field(b: Bytes, pos: nat, w: nat): (r: nat)
    requires pos + w <= |b|
  {
    UnLE(b[pos..pos + w])
  }

  lemma {:induction false} WordsAt(ws: seq<nat>, w: nat, i: nat)
    requires i < |ws|
    ensures At(Words(ws, w), |Words(ws[..i], w)|, LE(ws[i], w))
    decreases |ws|
  {
    var n := |ws| - 1;
    var init := Words(ws[..n], w);
    if i == n {
      AtEnd(init, LE(ws[n], w));
    } else {
      WordsAt(ws[..n], w, i);
      assert ws[..n][..i] == ws[..i];
      AtPrefix(init, init + LE(ws[n], w), |Words(ws[..i], w)|, LE(ws[i], w));
    }
  }

  lemma {:induction false} AtEnd(a: Bytes, b: Bytes)
    ensures At(a + b, |a|, b)
  {
  }

  lemma {:induction false} FieldBack(b: Bytes, pos: nat, n: nat, w: nat)
    requires At(b, pos, LE(n, w)) && n < Pow256(w)
    ensures pos + w <= |b|
    ensures Field(b, pos, w) == n
  {
    LERoundTrip(n, w);
  }

  /** A word that fits its width is what the reader finds at its position. */
  lemma {:induction false} WordBack(b: Bytes, pos: nat, ws: seq<nat>, w: nat, i: nat, k: nat)
    requires At(b, pos, Words(ws, w)) && i < |ws| && ws[i] < Pow256(w)
    requires k == |Words(ws[..i], w)|
    ensures pos + k + w <= |b|
    ensures Field(b, pos + k, w) == ws[i]
  {
    WordsAt(ws, w, i);
    AtTrans(b, pos, Words(ws, w), k, LE(ws[i], w));
    FieldBack(b, pos + k, ws[i], w);
  }

  lemma {:induction false} Word2Back(b: Bytes, pos: nat, ws: seq<nat>, i: nat)
    requires At(b, pos, Words(ws, 2)) && i < |ws| && ws[i] < 0x1_0000
    ensures pos + 2 * i + 2 <= |b|
    ensures Field(b, pos + 2 * i, 2) == ws[i]
  {
    Width2();
    WordsLength(ws[..i], 2);
    WordBack(b, pos, ws, 2, i, 2 * i);
  }

  lemma {:induction false} Word4Back(b: Bytes, pos: nat, ws: seq<nat>, i: nat)
    requires At(b, pos, Words(ws, 4)) && i < |ws| && ws[i] < 0x1_0000_0000
    ensures pos + 4 * i + 4 <= |b|
    ensures Field(b, pos + 4 * i, 4) == ws[i]
  {
    Width4();
    WordsLength(ws[..i], 4);
    WordBack(b, pos, ws, 4, i, 4 * i);
  }

  lemma {:induction false} Word8Back(b: Bytes, pos: nat, ws: seq<nat>, i: nat)
    requires At(b, pos, Words(ws, 8)) && i < |ws| && ws[i] < 0x1_0000_0000_0000_0000
    ensures pos + 8 * i + 8 <= |b|
    ensures Field(b, pos + 8 * i, 8) == ws[i]
  {
    Width8();
    WordsLength(ws[..i], 8);
    WordBack(b, pos, ws, 8, i, 8 * i);
  }

  lemma {:induction false} WordsSnoc(ws: seq<nat>, w: nat, i: nat)
    requires i < |ws|
    ensures Words(ws[..i + 1], w) == Words(ws[..i], w) + LE(ws[i], w)
  {
    assert ws[..i + 1][..i] == ws[..i];
  }

  /**
   * binary.LittleEndian.PutUint16/32/64 at the next free position of a buffer: the words of `ws`
   * before index `i` are already in place behind `head`.
   */
  method PutNext(buf: array<byte>, off: nat, n: nat, w: nat, ghost head: Bytes, ghost ws: seq<nat>, ghost i: nat)
    requires i < |ws| && ws[i] == n
    requires off + w <= buf.Length
    requires buf[..off] == head + Words(ws[..i], w)
    modifies buf
    ensures buf[..off + w] == head + Words(ws[..i + 1], w)
    ensures forall k | off + w <= k < buf.Length :: buf[k] == old(buf[k])
  {
    ghost var before := buf[..off];
    var v, k := n, 0;
    while k < w
      invariant 0 <= k <= w
      invariant v >= 0
      invariant buf[..off] == before && forall j | off + w <= j < buf.Length :: buf[j] == old(buf[j])
      invariant buf[off..off + k] + LE(v, w - k) == LE(n, w)
    {
      buf[off + k] := v % 256;
      assert LE(v, w - k) == [v % 256] + LE(v / 256, w - k - 1);
      assert buf[off..off + k + 1] == buf[off..off + k] + [v % 256];
      Assoc(buf[off..off + k], [buf[off + k]], LE(v / 256, w - k - 1));
      v, k := v / 256, k + 1;
    }
    assert buf[off..off + w] == LE(n, w);
    assert buf[..off + w] == buf[..off] + buf[off..off + w];
    WordsSnoc(ws, w, i);
    Assoc(head, Words(ws[..i], w), LE(n, w));
  }

  /** copy(buf[off:], src). */
  method PutBytes(buf: array<byte>, off: nat, src: Bytes)
    requires off + |src| <= buf.Length
    modifies buf
    ensures buf[..off + |src|] == old(buf[..off]) + src
  {
    for k := 0 to |src|
      invariant buf[..off] == old(buf[..off])
      invariant buf[off..off + k] == src[..k]
    {
      buf[off + k] := src[k];
      TakeNext(src, k);
    }
    TakeAll(src);
    assert buf[..off + |src|] == buf[..off] + buf[off..off + |src|];
  }
}
