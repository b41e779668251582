/** The codec for side outputs of a compile (internal/cache/compile.go:345-404). */
module Extras {
  import opened Bytes
  import opened Sorting

  type Files = map<Bytes, Bytes>

  const Self: Bytes -> Bytes := (p: Bytes) => p

  ghost predicate PathsInOrder(m: Files, ps: seq<Bytes>)
  {
    StrictlySorted(ps, Self) && forall p :: p in ps <==> p in m
  }

  // ---- Encoding ----

  function EncodeEntry(p: Bytes, v: Bytes): (r: Bytes)
  {
    BE(|p|, 4) + p + BE(|v|, 8) + v
  }

  function EncodeEntries(m: Files, ps: seq<Bytes>): (r: Bytes)
    requires forall p | p in ps :: p in m
  {
    if ps == [] then [] else EncodeEntry(ps[0], m[ps[0]]) + EncodeEntries(m, ps[1..])
  }

  function EncodeWith(m: Files, ps: seq<Bytes>): (r: Bytes)
    requires forall p | p in ps :: p in m
  {
    BE(|ps|, 4) + EncodeEntries(m, ps)
  }

  /** The map gives its paths in any order; the encoding does not depend on it. */
  ghost predicate IsEncoding(m: Files, r: Bytes)
  {
    exists ps :: PathsInOrder(m, ps) && r == EncodeWith(m, ps)
  }

  method SortedPaths(m: Files) returns (ps: seq<Bytes>)
    ensures PathsInOrder(m, ps)
  {
    var found: seq<Bytes> := [];
    var rest := m.Keys;
    while rest != {}
      invariant rest <= m.Keys
      invariant forall p :: p in found <==> p in m && p !in rest
      invariant forall i, j | 0 <= i < j < |found| :: found[i] != found[j]
      decreases |rest|
    {
      var p :| p in rest;
      found := found + [p];
      rest := rest - {p};
    }
    ps := Sort(found, Self);
    SortSorts(found, Self);
    InMultiset(found, ps);
    DistinctKept(found, ps);
    SortedDistinctIsStrict(ps, Self);
  }

  method EncodeExtras(m: Files) returns (buf: Bytes)
    ensures IsEncoding(m, buf)
  {
    var ps := SortedPaths(m);
    buf := BE(|ps|, 4);
    for i := 0 to |ps|
      invariant buf + EncodeEntries(m, ps[i..]) == EncodeWith(m, ps)
    {
      assert ps[i] in ps;
      var v := m[ps[i]];
      assert ps[i..][1..] == ps[i + 1..];
      Assoc(buf, BE(|ps[i]|, 4) + ps[i] + BE(|v|, 8) + v, EncodeEntries(m, ps[i + 1..]));
      Assoc(buf, BE(|ps[i]|, 4) + ps[i] + BE(|v|, 8), v);
      Assoc(buf, BE(|ps[i]|, 4) + ps[i], BE(|v|, 8));
      Assoc(buf, BE(|ps[i]|, 4), ps[i]);
      buf := buf + BE(|ps[i]|, 4);
      buf := buf + ps[i];
      buf := buf + BE(|v|, 8);
      buf := buf + v;
    }
    Nil(buf);
  }

  // ---- Decoding ----

  datatype Entry = Entry(path: Bytes, value: Bytes, size: nat)

  /** The entry at the front, if all of it is there. */
  function EntryAt(rest: Bytes): (e: Option<Entry>)
    ensures e.Some? ==> 12 <= e.value.size <= |rest|
  {
    if |rest| < 4 then None
    else
      var pl := UnBE(rest[..4]);
      if |rest| - 4 < pl + 8 then None
      else
        var vl := UnBE(rest[4 + pl..12 + pl]);
        if |rest| - 12 - pl < vl then None
        else Some(Entry(rest[4..4 + pl], rest[12 + pl..12 + pl + vl], 12 + pl + vl))
  }

  /** `count` more entries from `rest`, on top of what is already read. */
  function DecodeEntries(rest: Bytes, count: nat, m: Files): (r: Option<Files>)
  {
    if count == 0 then Some(m)
    else
      match EntryAt(rest)
      case None => None
      case Some(e) => DecodeEntries(rest[e.size..], count - 1, m[e.path := e.value])
  }

  function Decode(data: Bytes): (r: Option<Files>)
  {
    if |data| < 4 then None else DecodeEntries(data[4..], UnBE(data[..4]), map[])
  }

  /** The moving offset never leaves the data, whatever the data says. */
  method ReadEntry(data: Bytes, at: nat) returns (e: Option<Entry>)
    requires at <= |data|
    ensures e == EntryAt(data[at..])
  {
    var off := at;
    if |data| - off < 4 {
      return None;
    }
    SubSlice(data, at, 0, 4);
    var pl := UnBE(data[off..off + 4]);
    off := off + 4;
    if |data| - off < pl + 8 {
      return None;
    }
    SubSlice(data, at, 4, 4 + pl);
    var path := data[off..off + pl];
    off := off + pl;
    SubSlice(data, at, 4 + pl, 12 + pl);
    var vl := UnBE(data[off..off + 8]);
    off := off + 8;
    if |data| - off < vl {
      return None;
    }
    SubSlice(data, at, 12 + pl, 12 + pl + vl);
    var val := data[off..off + vl];
    off := off + vl;
    return Some(Entry(path, val, off - at));
  }

  lemma {:induction false} OneEntryOn(data: Bytes, off: nat, count: nat, m: Files)
    requires count > 0 && off <= |data|
    ensures
      var e := EntryAt(data[off..]);
      DecodeEntries(data[off..], count, m)
      == if e.None? then None else DecodeEntries(data[off + e.value.size..], count - 1,
          m[e.value.path := e.value.value])
  {
    var e := EntryAt(data[off..]);
    if e.Some? {
      SubSlice(data, off, 0, e.value.size);
    }
  }

  method DecodeExtras(data: Bytes) returns (r: Option<Files>)
    ensures r == Decode(data)
  {
    if |data| < 4 {
      return None;
    }
    var count := UnBE(data[..4]);
    var off := 4;
    var out: Files := map[];
    var i := 0;
    while i < count
      invariant 0 <= i <= count && 4 <= off <= |data|
      invariant DecodeEntries(data[off..], count - i, out) == Decode(data)
    {
      var e := ReadEntry(data, off);
      OneEntryOn(data, off, count - i, out);
      if e.None? {
        return None;
      }
      off := off + e.value.size;
      out := out[e.value.path := e.value.value];
      i := i + 1;
    }
    return Some(out);
  }

  lemma {:induction false} SubSlice(data: Bytes, at: nat, a: nat, b: nat)
    requires a <= b && at + b <= |data|
    ensures data[at..][a..b] == data[at + a..at + b] && data[at..][b..] == data[at + b..]
    ensures a == 0 ==> data[at..][..b] == data[at..][a..b]
  {
  }

  // ---- There and back ----

  /** Lengths the format can hold. */
  predicate Fits(m: Files)
  {
    |m| < 0x1_0000_0000 && forall p | p in m :: |p| < 0x1_0000_0000 && |m[p]| < 0x1_0000_0000_0000_0000
  }

  lemma {:induction false} Word4(n: nat)
    requires n < 0x1_0000_0000
    ensures UnBE(BE(n, 4)) == n
  {
    Width4();
    BERoundTrip(n, 4);
  }

  lemma {:induction false} Word8(n: nat)
    requires n < 0x1_0000_0000_0000_0000
    ensures UnBE(BE(n, 8)) == n
  {
    Width8();
    BERoundTrip(n, 8);
  }

  lemma {:induction false} EntryParts(p: Bytes, v: Bytes, rest: Bytes)
    ensures
      var all := EncodeEntry(p, v) + rest;
      var n := |p|;
      && |all| == 12 + n + |v| + |rest| && all[..4] == BE(n, 4) && all[4..4 + n] == p
      && all[4 + n..12 + n] == BE(|v|, 8) && all[12 + n..12 + n + |v|] == v && all[12 + n + |v|..] == rest
  {
  }

  /** The decoder's step over one whole entry. */
  lemma {:induction false} EntryBack(p: Bytes, v: Bytes, rest: Bytes, count: nat, m: Files)
    requires count > 0 && |p| < 0x1_0000_0000 && |v| < 0x1_0000_0000_0000_0000
    ensures DecodeEntries(EncodeEntry(p, v) + rest, count, m) == DecodeEntries(rest, count - 1, m[p := v])
  {
    EntryIs(p, v, rest);
    EntryParts(p, v, rest);
  }

  lemma {:induction false} EntryIs(p: Bytes, v: Bytes, rest: Bytes)
    requires |p| < 0x1_0000_0000 && |v| < 0x1_0000_0000_0000_0000
    ensures EntryAt(EncodeEntry(p, v) + rest) == Some(Entry(p, v, 12 + |p| + |v|))
  {
    EntryParts(p, v, rest);
    Word4(|p|);
    Word8(|v|);
  }

  function Restricted(m: Files, ps: seq<Bytes>, base: Files): (r: Files)
    requires forall p | p in ps :: p in m
  {
    if ps == [] then base else Restricted(m, ps[1..], base[ps[0] := m[ps[0]]])
  }

  lemma {:induction false} EntriesBack(m: Files, ps: seq<Bytes>, base: Files)
    requires Fits(m) && forall p | p in ps :: p in m
    ensures DecodeEntries(EncodeEntries(m, ps), |ps|, base) == Some(Restricted(m, ps, base))
    decreases |ps|
  {
    if ps != [] {
      EntryBack(ps[0], m[ps[0]], EncodeEntries(m, ps[1..]), |ps|, base);
      EntriesBack(m, ps[1..], base[ps[0] := m[ps[0]]]);
    }
  }

  lemma {:induction false} RestrictedIs(m: Files, ps: seq<Bytes>, base: Files)
    requires (forall p | p in ps :: p in m) && forall p | p in base :: p in m && base[p] == m[p]
    ensures forall p :: p in Restricted(m, ps, base) <==> p in ps || p in base
    ensures forall p | p in Restricted(m, ps, base) :: p in m && Restricted(m, ps, base)[p] == m[p]
    decreases |ps|
  {
    if ps != [] {
      RestrictedIs(m, ps[1..], base[ps[0] := m[ps[0]]]);
      HeadTail(ps);
    }
  }

  lemma {:induction false} CountIs(m: Files, ps: seq<Bytes>)
    requires PathsInOrder(m, ps)
    ensures |ps| == |m|
  {
    assert forall i, j | 0 <= i < j < |ps| :: ps[i] != ps[j] by {
      forall i, j | 0 <= i < j < |ps|
        ensures ps[i] != ps[j]
      {
        LessIrreflexive(ps[i]);
        assert Less(Self(ps[i]), Self(ps[j]));
      }
    }
    DistinctSize(ps);
    assert (set p | p in ps) == m.Keys;
  }

  /** Decoding inverts encoding for every map within the widths. */
  lemma {:induction false} ExtrasBack(m: Files, r: Bytes)
    requires Fits(m) && IsEncoding(m, r)
    ensures Decode(r) == Some(m)
  {
    var ps :| PathsInOrder(m, ps) && r == EncodeWith(m, ps);
    CountIs(m, ps);
    Word4(|ps|);
    assert r[..4] == BE(|ps|, 4) && r[4..] == EncodeEntries(m, ps);
    EntriesBack(m, ps, map[]);
    RestrictedIs(m, ps, map[]);
    assert Restricted(m, ps, map[]) == m;
  }

  // ---- What any bytes decode to ----

  /** Entries in any order, paths possibly repeated. */
  function EncodeList(es: seq<(Bytes, Bytes)>): (r: Bytes)
  {
    if es == [] then [] else EncodeEntry(es[0].0, es[0].1) + EncodeList(es[1..])
  }

  /** The last entry for a path counts. */
  function FilesOf(es: seq<(Bytes, Bytes)>, base: Files): (m: Files)
  {
    if es == [] then base else FilesOf(es[1..], base[es[0].0 := es[0].1])
  }

  predicate Storable(es: seq<(Bytes, Bytes)>)
  {
    forall i | 0 <= i < |es| :: |es[i].0| < 0x1_0000_0000 && |es[i].1| < 0x1_0000_0000_0000_0000
  }

  lemma {:induction false} ListBack(es: seq<(Bytes, Bytes)>, junk: Bytes, base: Files)
    requires Storable(es)
    ensures DecodeEntries(EncodeList(es) + junk, |es|, base) == Some(FilesOf(es, base))
    decreases |es|
  {
    if es != [] {
      Assoc(EncodeEntry(es[0].0, es[0].1), EncodeList(es[1..]), junk);
      EntryBack(es[0].0, es[0].1, EncodeList(es[1..]) + junk, |es|, base);
      ListBack(es[1..], junk, base[es[0].0 := es[0].1]);
    }
  }

  /** What is read at the front is an encoded entry. */
  lemma {:induction false} EntryRead(rest: Bytes)
    requires EntryAt(rest).Some?
    ensures
      var e := EntryAt(rest).value;
      && |e.path| < 0x1_0000_0000 && |e.value| < 0x1_0000_0000_0000_0000
      && rest == EncodeEntry(e.path, e.value) + rest[e.size..]
  {
    var e := EntryAt(rest).value;
    var n := |e.path|;
    UnBEBack(rest[..4]);
    UnBEBack(rest[4 + n..12 + n]);
    Width4();
    Width8();
    assert rest == rest[..4] + rest[4..4 + n] + rest[4 + n..12 + n] + rest[12 + n..e.size] + rest[e.size..];
  }

  lemma {:induction false} ListRead(rest: Bytes, count: nat, base: Files) returns (es: seq<(Bytes, Bytes)>, junk: Bytes)
    requires DecodeEntries(rest, count, base).Some?
    ensures |es| == count && Storable(es) && rest == EncodeList(es) + junk
    decreases count
  {
    if count == 0 {
      es, junk := [], rest;
      Nil(rest);
    } else {
      var e := EntryAt(rest).value;
      EntryRead(rest);
      var more;
      more, junk := ListRead(rest[e.size..], count - 1, base[e.path := e.value]);
      es := [(e.path, e.value)] + more;
      assert es[1..] == more;
      Assoc(EncodeEntry(e.path, e.value), EncodeList(more), junk);
    }
  }

  ghost predicate Holds(data: Bytes, es: seq<(Bytes, Bytes)>, junk: Bytes)
  {
    Storable(es) && |es| < 0x1_0000_0000 && data == BE(|es|, 4) + (EncodeList(es) + junk)
  }

  /**
   * Any bytes decode to a map if and only if they are a count, that many entries in whatever order,
   * and anything behind them; the last entry for a path counts.
   */
  lemma {:induction false} DecodesIff(data: Bytes, m: Files)
    ensures Decode(data) == Some(m) <==> exists es, junk :: Holds(data, es, junk) && m == FilesOf(es, map[])
  {
    if es, junk :| Holds(data, es, junk) && m == FilesOf(es, map[]) {
      HeldDecodes(data, es, junk);
    }
    if Decode(data) == Some(m) {
      var es, junk := ListRead(data[4..], UnBE(data[..4]), map[]);
      UnBEBack(data[..4]);
      Width4();
      assert data == data[..4] + data[4..];
      assert Holds(data, es, junk);
      HeldDecodes(data, es, junk);
    }
  }

  lemma {:induction false} HeldDecodes(data: Bytes, es: seq<(Bytes, Bytes)>, junk: Bytes)
    requires Holds(data, es, junk)
    ensures Decode(data) == Some(FilesOf(es, map[]))
  {
    Word4(|es|);
    assert data[..4] == BE(|es|, 4) && data[4..] == EncodeList(es) + junk;
    ListBack(es, junk, map[]);
  }

  // ---- Truncation ----

  lemma {:induction false} EntryCut(p: Bytes, v: Bytes, k: nat, count: nat, m: Files)
    requires count > 0 && |p| < 0x1_0000_0000 && |v| < 0x1_0000_0000_0000_0000 && k < |EncodeEntry(p, v)|
    ensures DecodeEntries(EncodeEntry(p, v)[..k], count, m).None?
  {
    CutEntry(p, v, k);
  }

  lemma {:induction false} CutEntry(p: Bytes, v: Bytes, k: nat)
    requires |p| < 0x1_0000_0000 && |v| < 0x1_0000_0000_0000_0000 && k < |EncodeEntry(p, v)|
    ensures EntryAt(EncodeEntry(p, v)[..k]).None?
  {
    var whole := EncodeEntry(p, v);
    var cut := whole[..k];
    EntryParts(p, v, []);
    Nil(whole);
    Word4(|p|);
    Word8(|v|);
    if k >= 4 {
      assert cut[..4] == whole[..4];
      if k >= 12 + |p| {
        assert cut[4 + |p|..12 + |p|] == whole[4 + |p|..12 + |p|];
      }
    }
  }

  lemma {:induction false} CutParts(first: Bytes, rest: Bytes, k: nat)
    requires k <= |first + rest|
    ensures k < |first| ==> (first + rest)[..k] == first[..k]
    ensures k >= |first| ==> (first + rest)[..k] == first + rest[..k - |first|]
  {
  }

  /** A cut inside the first entry loses it; a later cut leaves a cut of the other entries. */
  lemma {:induction false} CutFirst(p: Bytes, v: Bytes, rest: Bytes, k: nat, count: nat, m: Files)
    requires count > 0 && |p| < 0x1_0000_0000 && |v| < 0x1_0000_0000_0000_0000 && k <= |EncodeEntry(p, v) + rest|
    ensures k < |EncodeEntry(p, v)| ==> DecodeEntries((EncodeEntry(p, v) + rest)[..k], count, m).None?
    ensures k >= |EncodeEntry(p, v)| ==>
              DecodeEntries((EncodeEntry(p, v) + rest)[..k], count, m)
              == DecodeEntries(rest[..k - |EncodeEntry(p, v)|], count - 1, m[p := v])
  {
    CutParts(EncodeEntry(p, v), rest, k);
    if k < |EncodeEntry(p, v)| {
      EntryCut(p, v, k, count, m);
    } else {
      EntryBack(p, v, rest[..k - |EncodeEntry(p, v)|], count, m);
    }
  }

  lemma {:induction false} ListCut(es: seq<(Bytes, Bytes)>, k: nat, base: Files)
    requires Storable(es) && k < |EncodeList(es)|
    ensures DecodeEntries(EncodeList(es)[..k], |es|, base).None?
    decreases |es|
  {
    var p, v, rest := es[0].0, es[0].1, es[1..];
    CutFirst(p, v, EncodeList(rest), k, |es|, base);
    if k >= |EncodeEntry(p, v)| {
      ListCut(rest, k - |EncodeEntry(p, v)|, base[p := v]);
    }
  }

  function Pairs(m: Files, ps: seq<Bytes>): (es: seq<(Bytes, Bytes)>)
    requires forall p | p in ps :: p in m
    ensures |es| == |ps|
  {
    seq(|ps|, i requires 0 <= i < |ps| => (ps[i], m[ps[i]]))
  }

  lemma {:induction false} EntriesListed(m: Files, ps: seq<Bytes>)
    requires forall p | p in ps :: p in m
    ensures EncodeEntries(m, ps) == EncodeList(Pairs(m, ps))
    decreases |ps|
  {
    if ps != [] {
      EntriesListed(m, ps[1..]);
      assert Pairs(m, ps)[1..] == Pairs(m, ps[1..]);
    }
  }

  lemma {:induction false} EntriesCut(m: Files, ps: seq<Bytes>, k: nat, base: Files)
    requires Fits(m) && (forall p | p in ps :: p in m) && k < |EncodeEntries(m, ps)|
    ensures DecodeEntries(EncodeEntries(m, ps)[..k], |ps|, base).None?
  {
    EntriesListed(m, ps);
    ListCut(Pairs(m, ps), k, base);
  }

  lemma {:induction false} CutBehind(head: Bytes, body: Bytes, k: nat)
    requires |head| == 4 && 4 <= k < |head + body|
    ensures (head + body)[..k][..4] == head && (head + body)[..k][4..] == body[..k - 4] && k - 4 < |body|
  {
  }

  lemma {:induction false} EncodedCut(m: Files, ps: seq<Bytes>, k: nat)
    requires Fits(m) && (forall p | p in ps :: p in m) && |ps| < 0x1_0000_0000 && k < |EncodeWith(m, ps)|
    ensures Decode(EncodeWith(m, ps)[..k]).None?
  {
    Word4(|ps|);
    if k >= 4 {
      CutBehind(BE(|ps|, 4), EncodeEntries(m, ps), k);
      EntriesCut(m, ps, k - 4, map[]);
    }
  }

  /** Every strict prefix of an encoding is refused. */
  lemma {:induction false} PrefixRefused(m: Files, r: Bytes, k: nat)
    requires Fits(m) && IsEncoding(m, r) && k < |r|
    ensures Decode(r[..k]).None?
  {
    var ps :| PathsInOrder(m, ps) && r == EncodeWith(m, ps);
    CountIs(m, ps);
    EncodedCut(m, ps, k);
  }
}
