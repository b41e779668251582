/**
 * The uid/gid table (squashfs/idtable.go): distinct IDs in order of first use, packed four bytes
 * each into metadata blocks, and a plain list of 64-bit file offsets, one per block.
 */
module IdTable {
  import opened Bytes
  import opened Chunking
  import opened Metadata

  const MaxIds: nat := 0xFFFF
  const IdsPerBlock: nat := 2048

  predicate Distinct(list: seq<u32>)
  {
    forall i, j | 0 <= i < j < |list| :: list[i] != list[j]
  }

  /** The list after `id` has been interned; None when the 16-bit index space is used up. */
  function Interned(list: seq<u32>, id: u32): (r: Option<seq<u32>>)
  {
    if id in list then Some(list)
    else if |list| >= MaxIds then None
    else Some(list + [id])
  }

  function IndexOf(list: seq<u32>, id: u32): (r: nat)
    requires id in list
    ensures r < |list| && list[r] == id
  {
    if list[0] == id then 0 else 1 + IndexOf(list[1..], id)
  }

  /** An index, once given out, keeps its meaning however many IDs follow. */
  lemma {:induction false} IndexStable(list: seq<u32>, longer: seq<u32>, id: u32)
    requires list <= longer && Distinct(longer) && id in list
    ensures id in longer && IndexOf(longer, id) == IndexOf(list, id)
  {
    var i := IndexOf(list, id);
    assert longer[i] == id;
  }

  function InternAll(list: seq<u32>, ids: seq<u32>): (r: Option<seq<u32>>)
    decreases |ids|
  {
    if ids == [] then Some(list)
    else
      match Interned(list, ids[0])
      case None => None
      case Some(next) => InternAll(next, ids[1..])
  }

  lemma {:induction false} InternAllFacts(list: seq<u32>, ids: seq<u32>)
    requires Distinct(list) && |list| <= MaxIds
    requires InternAll(list, ids).Some?
    ensures var r := InternAll(list, ids).value;
            && list <= r && Distinct(r) && |r| <= MaxIds
            && (forall id :: id in r <==> id in list || id in ids)
    decreases |ids|
  {
    if ids != [] {
      var next := Interned(list, ids[0]).value;
      InternAllFacts(next, ids[1..]);
      HeadTail(ids);
    }
  }

  lemma {:induction false} InternAllConcat(list: seq<u32>, a: seq<u32>, b: seq<u32>)
    ensures InternAll(list, a + b) ==
              if InternAll(list, a).None? then None else InternAll(InternAll(list, a).value, b)
    decreases |a|
  {
    if a == [] {
      assert a + b == b;
    } else {
      assert (a + b)[1..] == a[1..] + b;
      if Interned(list, a[0]).Some? {
        InternAllConcat(Interned(list, a[0]).value, a[1..], b);
      }
    }
  }

  // ---- On-disk form ----

  function IdBytes(list: seq<u32>): (r: Bytes)
    ensures |r| == 4 * |list|
  {
    if list == [] then [] else IdBytes(list[..|list| - 1]) + LE(list[|list| - 1], 4)
  }

  function IdStream(list: seq<u32>): Chunks
  {
    Append(BlockCap, Empty, IdBytes(list))
  }

  /** Each run of 2048 IDs fills exactly one block. */
  lemma {:induction false} StreamShape(list: seq<u32>)
    ensures Full(BlockCap, IdStream(list))
    ensures |IdStream(list).done| == |list| / IdsPerBlock
    ensures |IdStream(list).cur| == 4 * (|list| % IdsPerBlock)
  {
    AppendFacts(BlockCap, Empty, IdBytes(list));
    FullLength(BlockCap, IdStream(list));
    BlockMath(|IdStream(list).done|, |IdStream(list).cur|, |list|);
  }

  lemma {:induction false} BlockMath(blocks: nat, open: nat, n: nat)
    requires 8192 * blocks + open == 4 * n && open < 8192
    ensures blocks == n / 2048 && open == 4 * (n % 2048)
  {
  }

  function IdBlocks(list: seq<u32>): seq<Bytes>
  {
    Seal(IdStream(list)).done
  }

  function LookupFrom(c: Codec, plains: seq<Bytes>, base: nat, k: nat): (r: Bytes)
    requires k <= |plains|
    ensures |r| == 8 * k
  {
    if k == 0 then [] else LookupFrom(c, plains, base, k - 1) + LE(base + BlockOffset(c, plains, k - 1), 8)
  }

  lemma {:induction false} LookupAt(c: Codec, plains: seq<Bytes>, base: nat, k: nat, i: nat)
    requires i < k <= |plains|
    ensures At(LookupFrom(c, plains, base, k), 8 * i, LE(base + BlockOffset(c, plains, i), 8))
  {
    var entry := LE(base + BlockOffset(c, plains, i), 8);
    if i == k - 1 {
      assert LookupFrom(c, plains, base, k)[8 * i..8 * i + 8] == entry;
    } else {
      LookupAt(c, plains, base, k - 1, i);
      AtPrefix(LookupFrom(c, plains, base, k - 1), LookupFrom(c, plains, base, k), 8 * i, entry);
    }
  }

  // ---- The format's reader ----

  /** The ID with a given index: which block through the lookup list, then the slot in it. */
  function ReadId(c: Codec, img: Bytes, lookup: nat, idx: nat): (r: Option<nat>)
  {
    var slot := lookup + 8 * (idx / IdsPerBlock);
    if slot + 8 > |img| then None
    else
      match ReadMeta(c, img, UnLE(img[slot..slot + 8]), 4 * (idx % IdsPerBlock), 4)
      case None => None
      case Some(b) => Some(UnLE(b))
  }

  lemma {:induction false} StreamHolds(list: seq<u32>, idx: nat)
    requires idx < |list|
    ensures Holds(Seal(IdStream(list)), MetaRef(idx / IdsPerBlock, 4 * (idx % IdsPerBlock)), LE(list[idx], 4))
    ensures Wf(BlockCap, Seal(IdStream(list)))
  {
    var part := IdStream(list[..idx]);
    StreamShape(list[..idx]);
    HoldsNew(BlockCap, part, LE(list[idx], 4));
    IdsGrow(list, idx + 1);
    assert list[..idx + 1][..idx] == list[..idx];
    AppendTwice(BlockCap, Empty, IdBytes(list[..idx]), LE(list[idx], 4));
    AppendFacts(BlockCap, Empty, IdBytes(list));
    SealFacts(BlockCap, IdStream(list));
    var next := IdStream(list[..idx + 1]);
    ExtendsTrans(next, IdStream(list), Seal(IdStream(list)));
    HoldsStable(next, Seal(IdStream(list)), Here(part), LE(list[idx], 4));
  }

  lemma {:induction false} IdsGrow(list: seq<u32>, k: nat)
    requires k <= |list|
    ensures Extends(IdStream(list[..k]), IdStream(list))
    decreases |list| - k
  {
    if k == |list| {
      TakeAll(list);
    } else {
      assert list[..k + 1][..k] == list[..k];
      AppendTwice(BlockCap, Empty, IdBytes(list[..k]), LE(list[k], 4));
      AppendFacts(BlockCap, Empty, IdBytes(list[..k]));
      AppendFacts(BlockCap, IdStream(list[..k]), LE(list[k], 4));
      IdsGrow(list, k + 1);
      ExtendsTrans(IdStream(list[..k]), IdStream(list[..k + 1]), IdStream(list));
    }
  }

  lemma {:induction false} LookupBack(c: Codec, img: Bytes, plains: seq<Bytes>, base: nat, lookup: nat, k: nat)
    requires k < |plains|
    requires At(img, base, Emit(c, plains))
    requires At(img, lookup, LookupFrom(c, plains, base, |plains|))
    requires |img| < 0x1_0000_0000_0000_0000
    ensures lookup + 8 * k + 8 <= |img|
    ensures UnLE(img[lookup + 8 * k..lookup + 8 * k + 8]) == base + BlockOffset(c, plains, k)
  {
    var entry := LE(base + BlockOffset(c, plains, k), 8);
    LookupAt(c, plains, base, |plains|, k);
    AtTrans(img, lookup, LookupFrom(c, plains, base, |plains|), 8 * k, entry);
    OffsetBound(c, plains, k);
    U64RoundTrip(base + BlockOffset(c, plains, k));
  }

  /** The index stored in an inode leads back to the ID it was given for. */
  lemma {:induction false} ReadIdBack(c: Codec, img: Bytes, list: seq<u32>, base: nat, lookup: nat, idx: nat)
    requires Faithful(c) && idx < |list|
    requires At(img, base, Emit(c, IdBlocks(list)))
    requires At(img, lookup, LookupFrom(c, IdBlocks(list), base, |IdBlocks(list)|))
    requires |img| < 0x1_0000_0000_0000_0000
    ensures ReadId(c, img, lookup, idx) == Some(list[idx])
  {
    var plains := IdBlocks(list);
    var k := idx / IdsPerBlock;
    BlockExists(list, idx);
    LookupBack(c, img, plains, base, lookup, k);
    SlotBack(c, img, list, base, idx, k);
    U32RoundTrip(list[idx]);
    IdIs(c, img, lookup, idx, base + BlockOffset(c, plains, k), LE(list[idx], 4));
  }

  lemma {:induction false} IdIs(c: Codec, img: Bytes, lookup: nat, idx: nat, pos: nat, word: Bytes)
    requires var slot := lookup + 8 * (idx / IdsPerBlock); slot + 8 <= |img| && UnLE(img[slot..slot + 8]) == pos
    requires ReadMeta(c, img, pos, 4 * (idx % IdsPerBlock), 4) == Some(word)
    ensures ReadId(c, img, lookup, idx) == Some(UnLE(word))
  {
  }

  lemma {:induction false} SlotBack(c: Codec, img: Bytes, list: seq<u32>, base: nat, idx: nat, k: nat)
    requires Faithful(c) && idx < |list| && k == idx / IdsPerBlock && k < |IdBlocks(list)|
    requires At(img, base, Emit(c, IdBlocks(list)))
    ensures ReadMeta(c, img, base + BlockOffset(c, IdBlocks(list), k), 4 * (idx % IdsPerBlock), 4)
              == Some(LE(list[idx], 4))
  {
    StreamHolds(list, idx);
    HoldsReads(c, Seal(IdStream(list)), MetaRef(k, 4 * (idx % IdsPerBlock)), LE(list[idx], 4), img, base);
  }

  lemma {:induction false} BlockExists(list: seq<u32>, idx: nat)
    requires idx < |list|
    ensures idx / IdsPerBlock < |IdBlocks(list)|
  {
    StreamShape(list);
    if idx / IdsPerBlock == |list| / IdsPerBlock {
      assert |list| % IdsPerBlock > 0;
    }
  }

  // ---- The object ----

  class IdTable {
    var index: map<u32, nat>
    var list: seq<u32>

    ghost predicate Valid()
      reads this
    {
      && Distinct(list) && |list| <= MaxIds
      && (forall id :: id in index <==> id in list)
      && (forall i | 0 <= i < |list| :: index[list[i]] == i)
    }

    constructor ()
      ensures Valid() && list == []
    {
      index := map[];
      list := [];
    }

    method Intern(id: u32) returns (r: Option<nat>)
      requires Valid()
      modifies this
      ensures Valid()
      ensures r.Some? <==> Interned(old(list), id).Some?
      ensures list == if r.Some? then Interned(old(list), id).value else old(list)
      ensures r.Some? ==> id in list && r.value == IndexOf(list, id) && r.value < MaxIds
    {
      if id in index {
        return Some(index[id]);
      }
      if |list| >= MaxIds {
        return None;
      }
      var idx := |list|;
      list := list + [id];
      index := index[id := idx];
      return Some(idx);
    }

    /** The first half of WriteData: fill the metadata stream, noting the block each batch starts. */
    method Pack(comp: Codec) returns (meta: MetaWriter, startBlocks: seq<nat>)
      requires Valid()
      ensures meta.Valid() && fresh(meta) && meta.comp == comp
      ensures meta.plains == IdBlocks(list)
      ensures Counting(startBlocks, |IdBlocks(list)|)
    {
      meta := new MetaWriter(comp);
      startBlocks := [];
      for i := 0 to |list|
        invariant meta.Valid() && fresh(meta) && meta.comp == comp
        invariant meta.Stream() == IdStream(list[..i])
        invariant Counting(startBlocks, Ceil(i, IdsPerBlock))
      {
        startBlocks := PackOne(meta, list, i, startBlocks);
      }
      TakeAll(list);
      meta.Flush();
      SealedCount(list);
    }

    /** Appends the packed IDs to `w`; the offsets are those of each block in the file. */
    method WriteData(w: Bytes, comp: Codec, base: nat) returns (out: Bytes, offsets: seq<nat>)
      requires Valid()
      ensures out == w + Emit(comp, IdBlocks(list))
      ensures |offsets| == |IdBlocks(list)|
      ensures forall j | 0 <= j < |offsets| :: offsets[j] == base + BlockOffset(comp, IdBlocks(list), j)
    {
      if |list| == 0 {
        assert IdBytes(list) == [] && IdBlocks(list) == [];
        return w, [];
      }
      var meta, startBlocks := Pack(comp);
      offsets := [];
      for j := 0 to |startBlocks|
        invariant meta.Valid() && meta.plains == IdBlocks(list) && meta.comp == comp
        invariant |offsets| == j
        invariant forall k | 0 <= k < j :: offsets[k] == base + BlockOffset(comp, IdBlocks(list), k)
      {
        var off := meta.BlockByteOffset(startBlocks[j]);
        offsets := offsets + [base + off];
      }
      var total;
      out, total := meta.EmitTo(w);
    }
  }

  /** 0, 1, 2, ... below `n`. */
  predicate Counting(s: seq<nat>, n: nat)
  {
    |s| == n && forall j | 0 <= j < n :: s[j] == j
  }

  /** One turn of the packing loop: at each batch boundary, close the block and note the next one. */
  method PackOne(meta: MetaWriter, list: seq<u32>, i: nat, startBlocks: seq<nat>) returns (r: seq<nat>)
    requires meta.Valid() && i < |list| && meta.Stream() == IdStream(list[..i])
               && Counting(startBlocks, Ceil(i, IdsPerBlock))
    modifies meta
    ensures meta.Valid() && meta.Stream() == IdStream(list[..i + 1]) && Counting(r, Ceil(i + 1, IdsPerBlock))
  {
    r := startBlocks;
    StreamShape(list[..i]);
    CeilStep(i);
    if i % IdsPerBlock == 0 {
      if i != 0 {
        meta.Flush();
      }
      r := r + [|meta.blocks|];
    }
    IdsStep(list, i);
    meta.Write(LE(list[i], 4));
  }

  lemma {:induction false} CeilStep(i: nat)
    ensures Ceil(i + 1, IdsPerBlock) == i / IdsPerBlock + 1
    ensures Ceil(i, IdsPerBlock) == if i % IdsPerBlock == 0 then i / IdsPerBlock else i / IdsPerBlock + 1
  {
  }

  lemma {:induction false} IdsStep(list: seq<u32>, i: nat)
    requires i < |list|
    ensures |IdStream(list[..i]).cur| < BlockCap
    ensures Append(BlockCap, IdStream(list[..i]), LE(list[i], 4)) == IdStream(list[..i + 1])
  {
    assert list[..i + 1][..i] == list[..i];
    AppendTwice(BlockCap, Empty, IdBytes(list[..i]), LE(list[i], 4));
  }

  lemma {:induction false} SealedCount(list: seq<u32>)
    ensures |IdBlocks(list)| == Ceil(|list|, IdsPerBlock)
  {
    StreamShape(list);
    CeilStep(|list|);
  }

  /** WriteLookup: the offsets as 64-bit words, nothing around them. */
  method WriteLookup(w: Bytes, offsets: seq<nat>, ghost c: Codec, ghost plains: seq<Bytes>, ghost base: nat)
    returns (out: Bytes)
    requires |offsets| == |plains|
    requires forall j | 0 <= j < |offsets| :: offsets[j] == base + BlockOffset(c, plains, j)
    ensures out == w + LookupFrom(c, plains, base, |plains|)
  {
    out := w;
    for j := 0 to |offsets|
      invariant out == w + LookupFrom(c, plains, base, j)
    {
      out := out + LE(offsets[j], 8);
    }
  }
}
