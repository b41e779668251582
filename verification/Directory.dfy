/**
 * Directory listings (squashfs/directory.go): entries sorted by name, gathered under headers
 * that carry the inode-table block and a base inode number; each entry stores a signed 16-bit
 * delta from that base. `DecodeListing` is the format's reader.
 */
module Directory {
  import opened Bytes
  import opened Sorting
  import opened Chunking
  import opened Metadata

  const MaxPerHeader: nat := 256

  datatype DirEnt = DirEnt(name: Bytes, inode: nat, block: nat, off: nat, typ: nat)

  const NameOf: DirEnt -> Bytes := (e: DirEnt) => e.name

  predicate NameOk(e: DirEnt)
  {
    1 <= |e.name| <= 256
  }

  predicate NamesOk(es: seq<DirEnt>)
  {
    forall i | 0 <= i < |es| :: NameOk(es[i])
  }

  /** The widths the Go types give these fields. */
  predicate Fits(e: DirEnt)
  {
    e.inode < 0x1_0000_0000 && e.block < 0x1_0000_0000 && e.off < 0x1_0000 && e.typ < 0x1_0000
  }

  /** Entry `e` may follow a header made for `base`. */
  predicate Joins(base: DirEnt, e: DirEnt)
  {
    e.block == base.block && -32768 <= e.inode - base.inode <= 32767
  }

  /** How far the run opened by es[0] reaches, given that it reaches `k`. */
  function RunFrom(es: seq<DirEnt>, k: nat): (r: nat)
    requires 1 <= k <= |es| && k <= MaxPerHeader
    ensures k <= r <= |es| && r <= MaxPerHeader
    decreases |es| - k
  {
    if k < |es| && k < MaxPerHeader && Joins(es[0], es[k]) then RunFrom(es, k + 1) else k
  }

  function Run(es: seq<DirEnt>): (r: nat)
    requires es != []
    ensures 1 <= r <= |es| && r <= MaxPerHeader
  {
    RunFrom(es, 1)
  }

  /** A header covers 1 to 256 entries that all join its first one, and stops only where it must. */
  lemma {:induction false} RunMaximal(es: seq<DirEnt>)
    requires es != []
    ensures forall i | 0 <= i < Run(es) :: Joins(es[0], es[i])
    ensures Run(es) < |es| ==> Run(es) == MaxPerHeader || !Joins(es[0], es[Run(es)])
  {
    RunFromMaximal(es, 1);
  }

  lemma {:induction false} RunFromMaximal(es: seq<DirEnt>, k: nat)
    requires 1 <= k <= |es| && k <= MaxPerHeader
    requires forall i | 0 <= i < k :: Joins(es[0], es[i])
    ensures forall i | 0 <= i < RunFrom(es, k) :: Joins(es[0], es[i])
    ensures RunFrom(es, k) < |es| ==>
              RunFrom(es, k) == MaxPerHeader || !Joins(es[0], es[RunFrom(es, k)])
    decreases |es| - k
  {
    if k < |es| && k < MaxPerHeader && Joins(es[0], es[k]) {
      RunFromMaximal(es, k + 1);
    }
  }

  // ---- Encoding ----

  /** uint16(int16(d)): two's complement in 16 bits. */
  function Wrap16(d: int): (r: nat)
    ensures r < 0x1_0000
  {
    d % 0x1_0000
  }

  function SignExtend16(u: nat): int
  {
    if u >= 0x8000 then u - 0x1_0000 else u
  }

  function EncodeEnt(e: DirEnt, base: nat): Bytes
    requires NameOk(e)
  {
    LE(e.off, 2) + LE(Wrap16(e.inode - base), 2) + LE(e.typ, 2) + LE(|e.name| - 1, 2) + e.name
  }

  function EncodeEnts(es: seq<DirEnt>, base: nat): Bytes
    requires NamesOk(es)
  {
    if es == [] then [] else EncodeEnt(es[0], base) + EncodeEnts(es[1..], base)
  }

  function EncodeHeader(count: nat, block: nat, inode: nat): Bytes
    requires count > 0
  {
    LE(count - 1, 4) + LE(block, 4) + LE(inode, 4)
  }

  function EncodeGroup(es: seq<DirEnt>): Bytes
    requires es != [] && NamesOk(es)
  {
    EncodeHeader(|es|, es[0].block, es[0].inode) + EncodeEnts(es, es[0].inode)
  }

  function EncodeListing(es: seq<DirEnt>): (r: Bytes)
    requires NamesOk(es)
    decreases |es|
  {
    if es == [] then [] else EncodeGroup(es[..Run(es)]) + EncodeListing(es[Run(es)..])
  }

  // ---- The format's reader ----

  datatype Parsed<T> = Parsed(value: T, rest: Bytes)

  function DecodeEnt(bs: Bytes, block: nat, base: nat): (r: Option<Parsed<DirEnt>>)
    ensures r.Some? ==> |r.value.rest| < |bs|
  {
    if |bs| < 8 then None
    else
      var len := UnLE(bs[6..8]) + 1;
      var inode := base + SignExtend16(UnLE(bs[2..4]));
      if |bs| < 8 + len || inode < 0 then None
      else
        Some(Parsed(DirEnt(bs[8..8 + len], inode, block, UnLE(bs[0..2]), UnLE(bs[4..6])), bs[8 + len..]))
  }

  function DecodeEnts(bs: Bytes, count: nat, block: nat, base: nat): (r: Option<Parsed<seq<DirEnt>>>)
    ensures r.Some? ==> |r.value.rest| <= |bs|
  {
    if count == 0 then Some(Parsed([], bs))
    else
      match DecodeEnt(bs, block, base)
      case None => None
      case Some(first) =>
        match DecodeEnts(first.rest, count - 1, block, base)
        case None => None
        case Some(more) => Some(Parsed([first.value] + more.value, more.rest))
  }

  function DecodeGroup(bs: Bytes): (r: Option<Parsed<seq<DirEnt>>>)
    ensures r.Some? ==> |r.value.rest| < |bs|
  {
    if |bs| < 12 then None
    else
      var count := UnLE(bs[0..4]) + 1;
      if count > MaxPerHeader then None else DecodeEnts(bs[12..], count, UnLE(bs[4..8]), UnLE(bs[8..12]))
  }

  function DecodeListing(bs: Bytes): (r: Option<seq<DirEnt>>)
    decreases |bs|
  {
    if bs == [] then Some([])
    else
      match DecodeGroup(bs)
      case None => None
      case Some(group) =>
        match DecodeListing(group.rest)
        case None => None
        case Some(more) => Some(group.value + more)
  }

  lemma {:induction false} DeltaSurvives(base: nat, inode: nat)
    requires -32768 <= inode - base <= 32767
    ensures base + SignExtend16(Wrap16(inode - base)) == inode
  {
  }

  lemma {:induction false} EntFields(a: Bytes, b: Bytes, c: Bytes, d: Bytes, name: Bytes, rest: Bytes)
    requires |a| == |b| == |c| == |d| == 2
    ensures
      var bs := a + b + c + d + name + rest;
      && bs[0..2] == a && bs[2..4] == b && bs[4..6] == c && bs[6..8] == d
      && bs[8..8 + |name|] == name && bs[8 + |name|..] == rest
  {
  }

  lemma {:induction false} EntBack(e: DirEnt, base: nat, rest: Bytes)
    requires NameOk(e) && Fits(e) && -32768 <= e.inode - base <= 32767
    ensures DecodeEnt(EncodeEnt(e, base) + rest, e.block, base) == Some(Parsed(e, rest))
  {
    var d := Wrap16(e.inode - base);
    EntFields(LE(e.off, 2), LE(d, 2), LE(e.typ, 2), LE(|e.name| - 1, 2), e.name, rest);
    U16RoundTrip(e.off);
    U16RoundTrip(d);
    U16RoundTrip(e.typ);
    U16RoundTrip(|e.name| - 1);
    DeltaSurvives(base, e.inode);
  }

  lemma {:induction false} EntsBack(es: seq<DirEnt>, block: nat, base: nat, rest: Bytes)
    requires forall i | 0 <= i < |es| ::
               NameOk(es[i]) && Fits(es[i]) && es[i].block == block && -32768 <= es[i].inode - base <= 32767
    ensures DecodeEnts(EncodeEnts(es, base) + rest, |es|, block, base) == Some(Parsed(es, rest))
  {
    if es == [] {
      assert EncodeEnts(es, base) + rest == rest;
    } else {
      var more := EncodeEnts(es[1..], base);
      EntBack(es[0], base, more + rest);
      Assoc(EncodeEnt(es[0], base), more, rest);
      EntsBack(es[1..], block, base, rest);
      HeadTail(es);
    }
  }

  lemma {:induction false} HeaderFields(count: nat, block: nat, inode: nat, rest: Bytes)
    requires 0 < count <= 0x1_0000_0000 && block < 0x1_0000_0000 && inode < 0x1_0000_0000
    ensures
      var bs := EncodeHeader(count, block, inode) + rest;
      && UnLE(bs[0..4]) + 1 == count && UnLE(bs[4..8]) == block && UnLE(bs[8..12]) == inode
      && bs[12..] == rest
  {
    U32RoundTrip(count - 1);
    U32RoundTrip(block);
    U32RoundTrip(inode);
    FourFields(LE(count - 1, 4), LE(block, 4), LE(inode, 4), rest);
  }

  lemma {:induction false} FourFields(a: Bytes, b: Bytes, c: Bytes, rest: Bytes)
    requires |a| == |b| == |c| == 4
    ensures
      var bs := a + b + c + rest;
      bs[0..4] == a && bs[4..8] == b && bs[8..12] == c && bs[12..] == rest
  {
  }

  lemma {:induction false} GroupBack(es: seq<DirEnt>, rest: Bytes)
    requires es != [] && |es| <= MaxPerHeader && NamesOk(es)
    requires forall i | 0 <= i < |es| :: Fits(es[i]) && Joins(es[0], es[i])
    ensures DecodeGroup(EncodeGroup(es) + rest) == Some(Parsed(es, rest))
  {
    var ents := EncodeEnts(es, es[0].inode);
    EntsBack(es, es[0].block, es[0].inode, rest);
    HeaderFields(|es|, es[0].block, es[0].inode, ents + rest);
    Assoc(EncodeHeader(|es|, es[0].block, es[0].inode), ents, rest);
  }

  /** What a listing says is exactly the entries it was made from, in order. */
  lemma {:induction false} ListingBack(es: seq<DirEnt>)
    requires NamesOk(es)
    requires forall i | 0 <= i < |es| :: Fits(es[i])
    ensures DecodeListing(EncodeListing(es)) == Some(es)
    decreases |es|
  {
    if es != [] {
      var n := Run(es);
      RunMaximal(es);
      GroupBack(es[..n], EncodeListing(es[n..]));
      ListingBack(es[n..]);
      SplitAt(es, n);
    }
  }

  // ---- Cut listings ----

  lemma {:induction false} EntExtends(bs: Bytes, more: Bytes, block: nat, base: nat)
    requires DecodeEnt(bs, block, base).Some?
    ensures DecodeEnt(bs + more, block, base)
            == Some(Parsed(DecodeEnt(bs, block, base).value.value, DecodeEnt(bs, block, base).value.rest + more))
  {
    var len := UnLE(bs[6..8]) + 1;
    var all := bs + more;
    assert all[0..2] == bs[0..2] && all[2..4] == bs[2..4] && all[4..6] == bs[4..6] && all[6..8] == bs[6..8];
    assert all[8..8 + len] == bs[8..8 + len] && all[8 + len..] == bs[8 + len..] + more;
  }

  lemma {:induction false} EntsExtend(bs: Bytes, more: Bytes, count: nat, block: nat, base: nat)
    requires DecodeEnts(bs, count, block, base).Some?
    ensures DecodeEnts(bs + more, count, block, base)
            == Some(Parsed(DecodeEnts(bs, count, block, base).value.value,
                DecodeEnts(bs, count, block, base).value.rest + more))
    ensures |DecodeEnts(bs, count, block, base).value.value| == count
    decreases count
  {
    if count > 0 {
      EntExtends(bs, more, block, base);
      EntsExtend(DecodeEnt(bs, block, base).value.rest, more, count - 1, block, base);
    }
  }

  lemma {:induction false} GroupExtends(bs: Bytes, more: Bytes)
    requires DecodeGroup(bs).Some?
    ensures DecodeGroup(bs + more) == Some(Parsed(DecodeGroup(bs).value.value, DecodeGroup(bs).value.rest + more))
    ensures DecodeGroup(bs).value.value != []
  {
    var all := bs + more;
    assert all[0..4] == bs[0..4] && all[4..8] == bs[4..8] && all[8..12] == bs[8..12] && all[12..] == bs[12..] + more;
    EntsExtend(bs[12..], more, UnLE(bs[0..4]) + 1, UnLE(bs[4..8]), UnLE(bs[8..12]));
  }

  /** A listing cut short never shows as many entries as the whole one. */
  lemma {:induction false} CutShowsLess(bs: Bytes, more: Bytes)
    requires more != [] && DecodeListing(bs).Some? && DecodeListing(bs + more).Some?
    ensures |DecodeListing(bs).value| < |DecodeListing(bs + more).value|
    decreases |bs|
  {
    if bs == [] {
      var all := bs + more;
      GroupExtends(all, []);
    } else {
      GroupExtends(bs, more);
      CutShowsLess(DecodeGroup(bs).value.rest, more);
    }
  }

  // ---- The writer ----

  lemma {:induction false} EntsSnoc(es: seq<DirEnt>, e: DirEnt, base: nat)
    requires NamesOk(es)
    requires NameOk(e)
    ensures EncodeEnts(es + [e], base) == EncodeEnts(es, base) + EncodeEnt(e, base)
  {
    if es == [] {
      assert es + [e] == [e];
      assert EncodeEnts([e], base) == EncodeEnt(e, base) + EncodeEnts([], base);
    } else {
      EntsSnoc(es[1..], e, base);
      assert (es + [e])[1..] == es[1..] + [e];
    }
  }

  datatype ListingResult = BadName | Listed(start: MetaRef, listingBytes: nat)

  /** Writes one entry; false when its name cannot be represented. */
  method WriteEnt(meta: MetaWriter, e: DirEnt, base: nat) returns (ok: bool, bytes: nat)
    requires meta.Valid()
    modifies meta
    ensures meta.Valid()
    ensures ok <==> NameOk(e)
    ensures ok ==> bytes == |EncodeEnt(e, base)|
    ensures ok ==> meta.Stream() == Append(BlockCap, old(meta.Stream()), EncodeEnt(e, base))
  {
    if |e.name| == 0 || |e.name| > 256 {
      return false, 0;
    }
    var ent := LE(e.off, 2) + LE(Wrap16(e.inode - base), 2) + LE(e.typ, 2) + LE(|e.name| - 1, 2) + e.name;
    meta.Write(ent);
    return true, |ent|;
  }

  /** Writes a header and its run of entries. */
  method WriteGroup(meta: MetaWriter, es: seq<DirEnt>) returns (ok: bool, bytes: nat)
    requires meta.Valid() && es != []
    modifies meta
    ensures meta.Valid()
    ensures ok <==> forall i | 0 <= i < |es| :: NameOk(es[i])
    ensures ok ==> bytes == |EncodeGroup(es)|
    ensures ok ==> meta.Stream() == Append(BlockCap, old(meta.Stream()), EncodeGroup(es))
  {
    ghost var start := meta.Stream();
    PartialStart(es);
    meta.Write(LE(|es| - 1, 4) + LE(es[0].block, 4) + LE(es[0].inode, 4));
    bytes := 12;
    var j := 0;
    while j < |es|
      invariant 0 <= j <= |es|
      invariant meta.Valid()
      invariant forall i | 0 <= i < j :: NameOk(es[i])
      invariant bytes == |Partial(es, j)|
      invariant meta.Stream() == Append(BlockCap, start, Partial(es, j))
    {
      PartialNext(start, es, j);
      var good, n := WriteEnt(meta, es[j], es[0].inode);
      if !good {
        return false, 0;
      }
      bytes := bytes + n;
      j := j + 1;
    }
    TakeAll(es);
    ok := true;
  }

  /** A header and the first entries behind it. */
  function Partial(es: seq<DirEnt>, j: nat): (r: Bytes)
    requires es != [] && j <= |es| && forall i | 0 <= i < j :: NameOk(es[i])
  {
    EncodeHeader(|es|, es[0].block, es[0].inode) + EncodeEnts(es[..j], es[0].inode)
  }

  lemma {:induction false} PartialStart(es: seq<DirEnt>)
    requires es != []
    ensures Partial(es, 0) == EncodeHeader(|es|, es[0].block, es[0].inode)
  {
  }

  lemma {:induction false} PartialNext(start: Chunks, es: seq<DirEnt>, j: nat)
    requires j < |es| && |start.cur| < BlockCap && forall i | 0 <= i < j :: NameOk(es[i])
    ensures |Append(BlockCap, start, Partial(es, j)).cur| < BlockCap
    ensures NameOk(es[j]) ==>
              var ent := EncodeEnt(es[j], es[0].inode);
              && Append(BlockCap, Append(BlockCap, start, Partial(es, j)), ent)
                  == Append(BlockCap, start, Partial(es, j + 1))
              && |Partial(es, j + 1)| == |Partial(es, j)| + |ent|
  {
    AppendTwice(BlockCap, start, Partial(es, j), []);
    if NameOk(es[j]) {
      var ent := EncodeEnt(es[j], es[0].inode);
      AppendTwice(BlockCap, start, Partial(es, j), ent);
      Assoc(EncodeHeader(|es|, es[0].block, es[0].inode), EncodeEnts(es[..j], es[0].inode), ent);
      EntsSnoc(es[..j], es[j], es[0].inode);
      TakeNext(es, j);
    }
  }

  /** The outer loop over an already sorted listing. */
  method WriteGroups(meta: MetaWriter, es: seq<DirEnt>) returns (ok: bool, bytes: nat)
    requires meta.Valid()
    modifies meta
    ensures meta.Valid()
    ensures ok <==> NamesOk(es)
    ensures ok ==> bytes == |EncodeListing(es)|
    ensures ok ==> meta.Stream() == Append(BlockCap, old(meta.Stream()), EncodeListing(es))
  {
    ghost var stream := meta.Stream();
    ghost var enc: Bytes := [];
    bytes := 0;
    var i := 0;
    while i < |es|
      invariant 0 <= i <= |es|
      invariant meta.Valid()
      invariant NamesOk(es[..i])
      invariant NamesOk(es[i..]) ==> NamesOk(es) && EncodeListing(es) == enc + EncodeListing(es[i..])
      invariant bytes == |enc|
      invariant meta.Stream() == Append(BlockCap, stream, enc)
    {
      var groupEnd := FindRun(es, i);
      var good, n := WriteGroup(meta, es[i..groupEnd]);
      if !good {
        BadInside(es, i, groupEnd);
        return false, 0;
      }
      ghost var group := EncodeGroup(es[i..groupEnd]);
      NextGroup(es, i, groupEnd, enc);
      AppendTwice(BlockCap, stream, enc, group);
      enc := enc + group;
      bytes := bytes + n;
      i := groupEnd;
    }
    ListingDone(es, enc);
    ok := true;
  }

  /**
   * writeDirListing: sort, then write group after group. The byte count is a uint32 in the
   * source: it is reduced modulo 2^32 here, once, which is what wrapping at each addition gives.
   */
  method WriteDirListing(meta: MetaWriter, entries: seq<DirEnt>) returns (r: ListingResult)
    requires meta.Valid()
    modifies meta
    ensures meta.Valid()
    ensures r.Listed? <==> NamesOk(Sort(entries, NameOf))
    ensures r.Listed? ==>
              var enc := EncodeListing(Sort(entries, NameOf));
              && r.start == Here(old(meta.Stream()))
              && r.listingBytes == |enc| % 0x1_0000_0000
              && meta.Stream() == Append(BlockCap, old(meta.Stream()), enc)
  {
    var start := meta.Ref();
    var ok, bytes := WriteGroups(meta, Sort(entries, NameOf));
    r := if ok then Listed(start, bytes % 0x1_0000_0000) else BadName;
  }

  lemma {:induction false} BadInside(es: seq<DirEnt>, i: nat, j: nat)
    requires i <= j <= |es| && !NamesOk(es[i..j])
    ensures !NamesOk(es)
  {
    var k :| 0 <= k < j - i && !NameOk(es[i..j][k]);
    assert !NameOk(es[i + k]);
  }

  lemma {:induction false} ListingDone(es: seq<DirEnt>, enc: Bytes)
    ensures es[|es|..] == [] && NamesOk(es[|es|..])
    ensures enc + EncodeListing(es[|es|..]) == enc
  {
  }

  /** The inner probe: the largest run that es[i] may open. */
  method FindRun(es: seq<DirEnt>, i: nat) returns (groupEnd: nat)
    requires i < |es|
    ensures i < groupEnd <= |es| && groupEnd - i == Run(es[i..])
  {
    groupEnd := i + 1;
    while groupEnd < |es| && groupEnd - i < MaxPerHeader && Joins(es[i], es[groupEnd])
      invariant i < groupEnd <= |es| && groupEnd - i <= MaxPerHeader
      invariant RunFrom(es[i..], 1) == RunFrom(es[i..], groupEnd - i)
    {
      groupEnd := groupEnd + 1;
    }
  }

  lemma {:induction false} NextGroup(es: seq<DirEnt>, i: nat, groupEnd: nat, enc: Bytes)
    requires i < groupEnd <= |es| && groupEnd - i == Run(es[i..])
    requires NamesOk(es[..i]) && NamesOk(es[i..groupEnd])
    ensures NamesOk(es[..groupEnd])
    ensures NamesOk(es[groupEnd..]) ==>
              && NamesOk(es[i..])
              && enc + EncodeListing(es[i..]) == enc + EncodeGroup(es[i..groupEnd]) + EncodeListing(es[groupEnd..])
  {
    SliceOfTail(es, i, groupEnd);
    forall k | 0 <= k < groupEnd
      ensures NameOk(es[k])
    {
      if k < i {
        assert es[..i][k] == es[k];
      } else {
        assert es[i..groupEnd][k - i] == es[k];
      }
    }
    if NamesOk(es[groupEnd..]) {
      forall k | 0 <= k < |es[i..]|
        ensures NameOk(es[i..][k])
      {
        if i + k >= groupEnd {
          assert es[groupEnd..][i + k - groupEnd] == es[i + k];
        }
      }
      Assoc(enc, EncodeGroup(es[i..groupEnd]), EncodeListing(es[groupEnd..]));
    }
  }
}
