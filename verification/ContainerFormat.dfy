/**
 A container in memory and in container.pool: src/storage/containerstore.c with the integer formats
 of src/utils/serial.c.
 */
module ContainerFormat {
  import opened Common

  type Octet = b: int | 0 <= b < 256

  /** Twenty bytes, as a fingerprint is stored. */
  type FpBytes = f: seq<Octet> | |f| == 20 witness seq(20, i => 0)

  datatype MetaEntry = MetaEntry(off: int, len: int)

  // ----- integers ------------------------------------------------------------------------

  function Pow256(n: nat): (p: nat)
    ensures p > 0
  {
    if n == 0 then 1 else 256 * Pow256(n - 1)
  }

  /** serial_int32 and serial_int64: the most significant byte first. */
  function BigEndian(v: nat, n: nat): (s: seq<Octet>)
    ensures |s| == n
  {
    if n == 0 then [] else BigEndian(v / 256, n - 1) + [v % 256]
  }

  function FromBigEndian(s: seq<Octet>): nat {
    if s == [] then 0 else 256 * FromBigEndian(s[..|s| - 1]) + s[|s| - 1]
  }

  /** What memcpy leaves of an int on a little-endian machine. */
  function Native(v: nat, n: nat): (s: seq<Octet>)
    ensures |s| == n
  {
    if n == 0 then [] else [v % 256] + Native(v / 256, n - 1)
  }

  function FromNative(s: seq<Octet>): nat {
    if s == [] then 0 else s[0] + 256 * FromNative(s[1..])
  }

  lemma {:induction false} IntRoundTrip(v: nat, n: nat)
    requires v < Pow256(n)
    ensures FromBigEndian(BigEndian(v, n)) == v && FromNative(Native(v, n)) == v
  {
    if n > 0 {
      assert v / 256 < Pow256(n - 1);
      IntRoundTrip(v / 256, n - 1);
      var b := BigEndian(v, n);
      assert b[..|b| - 1] == BigEndian(v / 256, n - 1);
      assert Native(v, n)[1..] == Native(v / 256, n - 1);
    }
  }

  /** Byte i of a big-endian number counts 256 to the power of the bytes behind it, that of a native one to the power
      of those before it. */
  lemma {:induction false} ByteAt(v: nat, n: nat, i: nat)
    requires i < n
    ensures BigEndian(v, n)[i] == v / Pow256(n - 1 - i) % 256 && Native(v, n)[i] == v / Pow256(i) % 256
    decreases n
  {
    if i < n - 1 {
      ByteAt(v / 256, n - 1, i);
      DivTwice(v, Pow256(n - 2 - i));
    }
    if i > 0 {
      ByteAt(v / 256, n - 1, i - 1);
      DivTwice(v, Pow256(i - 1));
    }
  }

  lemma DivTwice(v: nat, p: nat)
    requires p > 0
    ensures v / 256 / p == v / (256 * p)
  {
    var q := v / 256;
    var d, m := q / p, q % p;
    var rest := m * 256 + v % 256;
    assert v == d * (256 * p) + rest && rest < 256 * p by {
      assert q == d * p + m;
      assert d * (256 * p) == 256 * (d * p);
    }
    DivIs(v, 256 * p, d, rest);
  }

  lemma Pow256Is()
    ensures Pow256(4) == 0x1_0000_0000 && Pow256(8) == 0x1_0000_0000_0000_0000
  {
    assert Pow256(4) == 0x1_0000_0000;
  }

  // ----- the file ------------------------------------------------------------------------

  /** fseek and fwrite: what lies between the old end and the new block reads as zeros. */
  function WriteAt(file: seq<Octet>, p: nat, b: seq<Octet>): (f: seq<Octet>)
  {
    var padded := if |file| < p + |b| then file + seq(p + |b| - |file|, i => 0) else file;
    padded[..p] + b + padded[p + |b|..]
  }

  /** fseek and fread of n bytes. */
  function ReadAt(file: seq<Octet>, p: nat, n: nat): seq<Octet>
    requires p + n <= |file|
  {
    file[p..p + n]
  }

  /** A block written is read back, and no other block has changed. */
  lemma WriteAtReads(file: seq<Octet>, p: nat, b: seq<Octet>, q: nat, n: nat)
    ensures p + |b| <= |WriteAt(file, p, b)| && ReadAt(WriteAt(file, p, b), p, |b|) == b
    ensures |WriteAt(file, p, b)| >= |file|
    ensures q + n <= |file| && (q + n <= p || p + |b| <= q) ==>
              ReadAt(WriteAt(file, p, b), q, n) == ReadAt(file, q, n)
  {}

  /** Where container id lies: behind the eight bytes of the container count. */
  function Place(id: nat): nat {
    id * CONTAINER_SIZE + 8
  }

  /** The places of two containers do not overlap. */
  lemma PlacesApart(i: nat, j: nat)
    requires i != j
    ensures Place(i) + CONTAINER_SIZE <= Place(j) || Place(j) + CONTAINER_SIZE <= Place(i)
  {}

  // ----- the metadata block --------------------------------------------------------------

  function EntryBytes(fp: FpBytes, me: MetaEntry): (s: seq<Octet>)
    requires 0 <= me.len && 0 <= me.off
    ensures |s| == META_ENTRY
  {
    fp + Native(me.len, 4) + Native(me.off, 4)
  }

  /** A table that fits its four-byte fields. */
  ghost predicate Small(table: map<FpBytes, MetaEntry>) {
    forall fp :: fp in table ==> 0 <= table[fp].len < Pow256(4) && 0 <= table[fp].off < Pow256(4)
  }

  /** The entries in the order the hash table happens to give them. */
  function Entries(order: seq<FpBytes>, table: map<FpBytes, MetaEntry>): (s: seq<Octet>)
    requires forall fp :: fp in table ==> 0 <= table[fp].len && 0 <= table[fp].off
    requires forall i :: 0 <= i < |order| ==> order[i] in table
    ensures |s| == META_ENTRY * |order|
  {
    if order == [] then []
    else Entries(order[..|order| - 1], table) + EntryBytes(order[|order| - 1], table[order[|order| - 1]])
  }

  function Header(id: nat, chunkNum: nat, dataSize: nat): (s: seq<Octet>)
    ensures |s| == META_HEAD
  {
    BigEndian(id, 8) + BigEndian(chunkNum, 4) + BigEndian(dataSize, 4)
  }

  ghost predicate Enumerates(order: seq<FpBytes>, table: map<FpBytes, MetaEntry>) {
    (forall i :: 0 <= i < |order| ==> order[i] in table) &&
    (forall fp :: fp in table ==> exists i :: 0 <= i < |order| && order[i] == fp) &&
    (forall i, j :: 0 <= i < j < |order| ==> order[i] != order[j])
  }

  /** The part of a table that the first entries hold. */
  function Loaded(order: seq<FpBytes>, table: map<FpBytes, MetaEntry>): map<FpBytes, MetaEntry>
    requires forall i :: 0 <= i < |order| ==> order[i] in table
  {
    if order == [] then map[]
    else Loaded(order[..|order| - 1], table)[order[|order| - 1] := table[order[|order| - 1]]]
  }

  lemma {:induction false} LoadedIs(order: seq<FpBytes>, table: map<FpBytes, MetaEntry>, fp: FpBytes)
    requires forall i :: 0 <= i < |order| ==> order[i] in table
    ensures fp in Loaded(order, table) <==> exists i :: 0 <= i < |order| && order[i] == fp
    ensures fp in Loaded(order, table) ==> fp in table && Loaded(order, table)[fp] == table[fp]
  {
    if order != [] {
      var n := |order| - 1;
      LoadedIs(order[..n], table, fp);
      if exists i :: 0 <= i < n && order[i] == fp {
        var i :| 0 <= i < n && order[i] == fp;
        assert order[..n][i] == fp;
      }
      assert order[n] == order[|order| - 1];
    }
  }

  lemma LoadedAll(order: seq<FpBytes>, table: map<FpBytes, MetaEntry>)
    requires Enumerates(order, table)
    ensures Loaded(order, table) == table
  {
    forall fp: FpBytes
      ensures fp in Loaded(order, table) <==> fp in table
      ensures fp in table ==> Loaded(order, table)[fp] == table[fp]
    {
      LoadedIs(order, table, fp);
    }
  }

  /** Reading entries back, one after another. */
  method ReadEntries(
    block: seq<Octet>, base: nat, n: nat, ghost order: seq<FpBytes>, ghost table: map<FpBytes, MetaEntry>)
    returns (r: map<FpBytes, MetaEntry>)
    requires Small(table) && Enumerates(order, table) && |order| == n
    requires base + META_ENTRY * n <= |block|
    requires block[base..base + META_ENTRY * n] == Entries(order, table)
    ensures r == table
  {
    hide Native, FromNative, Pow256, Entries, Loaded;
    r := map[];
    LoadedNone(table);
    assert order[..0] == [];
    for i := 0 to n
      invariant r == Loaded(order[..i], table)
    {
      var cur := base + META_ENTRY * i;
      EntryAt(order, table, i);
      SliceOfSlice(block, base, base + META_ENTRY * n, META_ENTRY * i, META_ENTRY * i + META_ENTRY);
      var fp, me := ReadEntry(block[cur..cur + META_ENTRY], order[i], table[order[i]]);
      LoadedMore(order, table, i);
      r := r[fp := me];
    }
    assert order[..n] == order;
    LoadedAll(order, table);
  }

  lemma LoadedNone(table: map<FpBytes, MetaEntry>)
    ensures Loaded([], table) == map[]
  {}

  lemma LoadedMore(order: seq<FpBytes>, table: map<FpBytes, MetaEntry>, i: nat)
    requires i < |order| && forall i :: 0 <= i < |order| ==> order[i] in table
    ensures Loaded(order[..i + 1], table) == Loaded(order[..i], table)[order[i] := table[order[i]]]
  {
    assert order[..i + 1][..i] == order[..i];
  }

  lemma SliceOfSlice(s: seq<Octet>, lo: nat, hi: nat, a: nat, b: nat)
    requires a <= b && lo + b <= hi <= |s|
    ensures s[lo..hi][a..b] == s[lo + a..lo + b]
  {
    var t := s[lo..hi];
    assert |t[a..b]| == |s[lo + a..lo + b]|;
    forall k | 0 <= k < b - a ensures t[a..b][k] == s[lo + a..lo + b][k] {
      assert t[a..b][k] == t[a + k] == s[lo + (a + k)];
    }
  }

  /** Three unser_bytes. */
  method ReadEntry(e: seq<Octet>, ghost fp0: FpBytes, ghost me0: MetaEntry) returns (fp: FpBytes, me: MetaEntry)
    requires 0 <= me0.len < Pow256(4) && 0 <= me0.off < Pow256(4) && e == EntryBytes(fp0, me0)
    ensures fp == fp0 && me == me0
  {
    EntryRoundTrip(fp0, me0);
    var len, off := FromNative(e[20..24]), FromNative(e[24..28]);
    assert len == me0.len;
    assert off == me0.off;
    fp := e[..20];
    me := MetaEntry(off, len);
  }

  lemma EntryRoundTrip(fp: FpBytes, me: MetaEntry)
    requires 0 <= me.len < Pow256(4) && 0 <= me.off < Pow256(4)
    ensures var e := EntryBytes(fp, me);
            e[..20] == fp && FromNative(e[20..24]) == me.len && FromNative(e[24..28]) == me.off
  {
    IntRoundTrip(me.len, 4);
    IntRoundTrip(me.off, 4);
    var e := EntryBytes(fp, me);
    assert e[..20] == fp && e[20..24] == Native(me.len, 4) && e[24..28] == Native(me.off, 4);
  }

  lemma {:induction false} EntryAt(order: seq<FpBytes>, table: map<FpBytes, MetaEntry>, i: nat)
    requires forall fp :: fp in table ==> 0 <= table[fp].len && 0 <= table[fp].off
    requires forall k :: 0 <= k < |order| ==> order[k] in table
    requires i < |order|
    ensures Entries(order, table)[META_ENTRY * i..META_ENTRY * i + META_ENTRY] == EntryBytes(order[i], table[order[i]])
  {
    var n := |order| - 1;
    var front, last := Entries(order[..n], table), EntryBytes(order[n], table[order[n]]);
    assert Entries(order, table) == front + last && |front| == META_ENTRY * n;
    hide Entries, EntryBytes;
    if i < n {
      EntryAt(order[..n], table, i);
      FrontSlice(front, last, META_ENTRY * i, META_ENTRY * i + META_ENTRY);
    } else {
      BackSlice(front, last);
    }
  }

  lemma FrontSlice(a: seq<Octet>, b: seq<Octet>, lo: nat, hi: nat)
    requires lo <= hi <= |a|
    ensures (a + b)[lo..hi] == a[lo..hi]
  {}

  lemma BackSlice(a: seq<Octet>, b: seq<Octet>)
    ensures (a + b)[|a|..|a| + |b|] == b
  {}

  // ----- containers ----------------------------------------------------------------------

  const DATA_MAX: nat := CONTAINER_SIZE - CONTAINER_META_SIZE

  /** Every chunk lies inside the first size bytes of data. */
  ghost predicate Fits(table: map<FpBytes, MetaEntry>, size: int) {
    forall fp :: fp in table ==> 0 <= table[fp].off && 0 <= table[fp].len && table[fp].off + table[fp].len <= size
  }

  /** The chunks of a container, by fingerprint. */
  ghost function ChunksIn(table: map<FpBytes, MetaEntry>, data: seq<Octet>): map<FpBytes, seq<Octet>>
    requires Fits(table, |data|)
  {
    map fp | fp in table :: data[table[fp].off..table[fp].off + table[fp].len]
  }

  lemma FitsSmall(table: map<FpBytes, MetaEntry>)
    requires Fits(table, DATA_MAX)
    ensures Small(table)
  {
    Pow256Is();
    hide Pow256;
    forall fp | fp in table ensures 0 <= table[fp].len < Pow256(4) && 0 <= table[fp].off < Pow256(4) {
      assert table[fp].off + table[fp].len <= DATA_MAX;
    }
  }

  /** What a block on disk says about the container it holds. */
  ghost predicate Image(block: seq<Octet>, id: nat, chunkNum: nat, dataSize: nat, table: map<FpBytes, MetaEntry>) {
    |block| == CONTAINER_SIZE && META_HEAD + META_ENTRY * chunkNum <= CONTAINER_META_SIZE &&
    exists order :: Enumerates(order, table) && Fits(table, DATA_MAX) && |order| == chunkNum &&
      block[DATA_MAX..DATA_MAX + META_HEAD + META_ENTRY * chunkNum] == Header(id, chunkNum,
        dataSize) + Entries(order, table)
  }

  class Container {
    var id: nat
    var chunkNum: nat
    var dataSize: nat
    var table: map<FpBytes, MetaEntry>
    const data: array<Octet>

    ghost predicate Valid()
      reads this, data
    {
      data.Length == CONTAINER_SIZE && dataSize <= DATA_MAX &&
      META_HEAD + META_ENTRY * chunkNum <= CONTAINER_META_SIZE &&
      chunkNum == |table| && Fits(table, dataSize)
    }

    ghost function Contents(): map<FpBytes, seq<Octet>>
      requires Valid()
      reads this, data
    {
      ChunksIn(table, data[..])
    }

    /** create_container, with the id that container_count gives. */
    constructor (n: nat)
      ensures Valid() && id == n && chunkNum == 0 && dataSize == 0 && Contents() == map[] && fresh(data)
    {
      id, chunkNum, dataSize, table := n, 0, 0, map[];
      data := new Octet[CONTAINER_SIZE](i => 0);
    }

    /** container_overflow. */
    predicate Overflow(size: nat)
      reads this
    {
      dataSize + size > CONTAINER_SIZE - CONTAINER_META_SIZE ||
      (chunkNum + 1) * 28 + 16 > CONTAINER_META_SIZE
    }

    /** add_chunk_to_container: a chunk that is there already is not stored again. */
    method AddChunk(fp: FpBytes, bytes: seq<Octet>) returns (added: bool)
      requires Valid() && !Overflow(|bytes|)
      modifies `chunkNum, `dataSize, `table, data
      ensures Valid() && added == (fp !in old(table))
      ensures Contents() == if added then old(Contents())[fp := bytes] else old(Contents())
      ensures dataSize == old(dataSize) + if added then |bytes| else 0
    {
      if fp in table {
        return false;
      }
      table := table[fp := MetaEntry(dataSize, |bytes|)];
      chunkNum := chunkNum + 1;
      forall k | 0 <= k < |bytes| {
        data[dataSize + k] := bytes[k];
      }
      dataSize := dataSize + |bytes|;
      added := true;
      AddedContents(old(table), old(data[..]), old(dataSize), data[..], fp, bytes);
    }

    /** get_chunk_in_container: the bytes that were added under the fingerprint. */
    method GetChunk(fp: FpBytes) returns (bytes: seq<Octet>)
      requires Valid() && fp in table
      ensures bytes == Contents()[fp]
    {
      var me := table[fp];
      bytes := data[me.off..me.off + me.len];
    }

    /** ser_bytes and its kin: what is written so far, from base on, grows by the new bytes. */
    method PutBytes(base: nat, cur: nat, bytes: seq<Octet>)
      requires base <= cur && cur + |bytes| <= data.Length
      modifies data
      ensures data[..base] == old(data[..base])
      ensures data[base..cur + |bytes|] == old(data[base..cur]) + bytes
    {
      forall k | 0 <= k < |bytes| {
        data[cur + k] := bytes[k];
      }
    }

    /** The entries, one after another, behind what is there from base on. */
    method PutEntries(base: nat, order: seq<FpBytes>)
      requires forall fp :: fp in table ==> 0 <= table[fp].len && 0 <= table[fp].off
      requires forall k :: 0 <= k < |order| ==> order[k] in table
      requires base + META_HEAD + META_ENTRY * |order| <= data.Length
      modifies data
      ensures data[..base] == old(data[..base])
      ensures data[base..base + META_HEAD + META_ENTRY * |order|]
           == old(data[base..base + META_HEAD]) + Entries(order, table)
    {
      hide Entries, EntryBytes;
      ghost var head := data[base..base + META_HEAD];
      NoEntries(table);
      assert order[..0] == [] && head + [] == head;
      for i := 0 to |order|
        invariant data[..base] == old(data[..base])
        invariant data[base..base + META_HEAD + META_ENTRY * i] == head + Entries(order[..i], table)
      {
        MoreEntries(order, table, i);
        var e := EntryBytes(order[i], table[order[i]]);
        assert head + Entries(order[..i], table) + e == head + (Entries(order[..i], table) + e);
        PutBytes(base, base + META_HEAD + META_ENTRY * i, e);
      }
      assert order[..|order|] == order;
    }

    /** The first half of write_container: the metadata, behind the data. */
    method Serialise(order: seq<FpBytes>)
      requires Valid() && Enumerates(order, table) && |order| == chunkNum
      modifies data
      ensures Valid() && data[..DATA_MAX] == old(data[..DATA_MAX]) && Image(data[..], id, chunkNum, dataSize, table)
    {
      hide BigEndian, Native, Entries, EntryBytes, Header;
      var head := Header(id, chunkNum, dataSize);
      assert data[DATA_MAX..DATA_MAX] == [];
      PutBytes(DATA_MAX, DATA_MAX, head);
      assert [] + head == head;
      PutEntries(DATA_MAX, order);
      var n := META_HEAD + META_ENTRY * chunkNum;
      assert data[..][DATA_MAX..DATA_MAX + n] == data[DATA_MAX..DATA_MAX + n];
      FitsLonger(table, dataSize, DATA_MAX);
    }
  }

  lemma NoEntries(table: map<FpBytes, MetaEntry>)
    requires forall fp :: fp in table ==> 0 <= table[fp].len && 0 <= table[fp].off
    ensures Entries([], table) == []
  {}

  lemma MoreEntries(order: seq<FpBytes>, table: map<FpBytes, MetaEntry>, i: nat)
    requires forall fp :: fp in table ==> 0 <= table[fp].len && 0 <= table[fp].off
    requires i < |order| && forall k :: 0 <= k < |order| ==> order[k] in table
    ensures Entries(order[..i + 1], table) == Entries(order[..i], table) + EntryBytes(order[i], table[order[i]])
  {
    assert order[..i + 1][..i] == order[..i];
  }

  lemma AddedContents(
    table: map<FpBytes, MetaEntry>, data: seq<Octet>, size: nat, data': seq<Octet>, fp: FpBytes, bytes: seq<Octet>)
    requires Fits(table, size) && size + |bytes| <= |data| == |data'| && fp !in table
    requires data'[..size] == data[..size] && data'[size..size + |bytes|] == bytes
    ensures var t := table[fp := MetaEntry(size, |bytes|)];
            Fits(t, size + |bytes|) && ChunksIn(t, data') == ChunksIn(table, data)[fp := bytes]
  {
    var t := table[fp := MetaEntry(size, |bytes|)];
    FitsAdded(table, size, fp, |bytes|);
    FitsLonger(table, size, |data|);
    FitsLonger(t, size + |bytes|, |data'|);
    hide Fits, ChunksIn;
    var a, b := ChunksIn(t, data'), ChunksIn(table, data)[fp := bytes];
    forall f: FpBytes
      ensures f in a <==> f in b
      ensures f in a ==> a[f] == b[f]
    {
      ChunkAt(t, data', f);
      ChunkAt(table, data, f);
      if f in table && f != fp {
        FitsOne(table, size, f);
        SameSlice(data, data', size, table[f].off, table[f].off + table[f].len);
      }
    }
  }

  lemma ChunkAt(table: map<FpBytes, MetaEntry>, data: seq<Octet>, f: FpBytes)
    requires Fits(table, |data|)
    ensures f in ChunksIn(table, data) <==> f in table
    ensures f in table ==> table[f].off >= 0 && table[f].len >= 0 && table[f].off + table[f].len <= |data| &&
                           ChunksIn(table, data)[f] == data[table[f].off..table[f].off + table[f].len]
  {}

  lemma FitsAdded(table: map<FpBytes, MetaEntry>, size: nat, fp: FpBytes, n: nat)
    requires Fits(table, size)
    ensures Fits(table[fp := MetaEntry(size, n)], size + n)
  {}

  lemma FitsLonger(table: map<FpBytes, MetaEntry>, size: nat, n: nat)
    requires Fits(table, size) && size <= n
    ensures Fits(table, n)
  {}

  lemma FitsOne(table: map<FpBytes, MetaEntry>, size: nat, fp: FpBytes)
    requires Fits(table, size) && fp in table
    ensures 0 <= table[fp].off <= table[fp].off + table[fp].len <= size
  {}

  lemma SameSlice(a: seq<Octet>, b: seq<Octet>, size: nat, lo: nat, hi: nat)
    requires lo <= hi <= size <= |a| && size <= |b| && a[..size] == b[..size]
    ensures a[lo..hi] == b[lo..hi]
  {
    SliceOfSlice(a, 0, size, lo, hi);
    SliceOfSlice(b, 0, size, lo, hi);
    assert a[0..size] == b[0..size];
  }

  // ----- to disk and back ----------------------------------------------------------------

  /** The metadata block: META_SIZE bytes that begin with the header and the entries. */
  ghost predicate MetaImage(meta: seq<Octet>, id: nat, chunkNum: nat, dataSize: nat, table: map<FpBytes, MetaEntry>) {
    |meta| == CONTAINER_META_SIZE && META_HEAD + META_ENTRY * chunkNum <= CONTAINER_META_SIZE &&
    exists order :: Enumerates(order, table) && Fits(table, DATA_MAX) && |order| == chunkNum &&
      meta[..META_HEAD + META_ENTRY * chunkNum] == Header(id, chunkNum, dataSize) + Entries(order, table)
  }

  lemma ImageMeta(block: seq<Octet>, id: nat, chunkNum: nat, dataSize: nat, table: map<FpBytes, MetaEntry>)
    requires Image(block, id, chunkNum, dataSize, table)
    ensures MetaImage(block[DATA_MAX..], id, chunkNum, dataSize, table)
  {
    hide Entries, Header, Enumerates, Fits;
    var n := META_HEAD + META_ENTRY * chunkNum;
    assert block[DATA_MAX..][..n] == block[DATA_MAX..DATA_MAX + n];
  }

  /** write_container: an empty container is not written. */
  method WriteContainer(c: Container, order: seq<FpBytes>, file: seq<Octet>) returns (f: seq<Octet>)
    requires c.Valid() && Enumerates(order, c.table) && |order| == c.chunkNum
    modifies c.data
    ensures c.Valid() && c.data[..DATA_MAX] == old(c.data[..DATA_MAX])
    ensures c.chunkNum == 0 ==> f == file
    ensures c.chunkNum != 0 ==>
              f == WriteAt(file, Place(c.id), c.data[..]) && Image(c.data[..], c.id, c.chunkNum, c.dataSize, c.table)
              && 8 + (c.id + 1) * 4194304 <= |f| && f[8 + c.id * 4194304..8 + (c.id + 1) * 4194304] == c.data[..]
  {
    if c.chunkNum == 0 {
      return file;
    }
    c.Serialise(order);
    f := WriteAt(file, Place(c.id), c.data[..]);
  }

  lemma HeaderParts(id: nat, chunkNum: nat, dataSize: nat)
    ensures var h := Header(id, chunkNum, dataSize);
            h[0..8] == BigEndian(id, 8) && h[8..12] == BigEndian(chunkNum, 4) && h[12..16] == BigEndian(dataSize, 4)
  {
    hide BigEndian;
    var a, b, c := BigEndian(id, 8), BigEndian(chunkNum, 4), BigEndian(dataSize, 4);
    BackSlice(a + b, c);
    BackSlice(a, b);
    FrontSlice(a + b, c, 8, 12);
    FrontSlice(a + b, c, 0, 8);
  }

  lemma MetaParts(meta: seq<Octet>, head: seq<Octet>, entries: seq<Octet>)
    requires |head| == META_HEAD && META_HEAD + |entries| <= |meta| && meta[..META_HEAD + |entries|] == head + entries
    ensures meta[0..8] == head[0..8] && meta[8..12] == head[8..12] && meta[12..16] == head[12..16]
    ensures meta[META_HEAD..META_HEAD + |entries|] == entries
  {
    var all := meta[0..META_HEAD + |entries|];
    assert all == head + entries;
    SliceOfSlice(meta, 0, META_HEAD + |entries|, 0, 8);
    SliceOfSlice(meta, 0, META_HEAD + |entries|, 8, 12);
    SliceOfSlice(meta, 0, META_HEAD + |entries|, 12, 16);
    SliceOfSlice(meta, 0, META_HEAD + |entries|, META_HEAD, META_HEAD + |entries|);
    FrontSlice(head, entries, 0, 8);
    FrontSlice(head, entries, 8, 12);
    FrontSlice(head, entries, 12, 16);
    BackSlice(head, entries);
  }

  /** The unserialising half of both retrieve functions; the id found is the id asked for. */
  method ReadMeta(meta: seq<Octet>, id: nat, ghost n0: nat, ghost size0: nat, ghost table0: map<FpBytes, MetaEntry>)
    returns (n: nat, size: nat, table: map<FpBytes, MetaEntry>)
    requires MetaImage(meta, id, n0, size0, table0) && id < Pow256(8) && size0 <= DATA_MAX
    ensures n == n0 && size == size0 && table == table0
  {
    hide BigEndian, Native, Entries, Pow256;
    ghost var order :| Enumerates(order, table0) && Fits(table0, DATA_MAX) && |order| == n0 &&
                       meta[..META_HEAD + META_ENTRY * n0] == Header(id, n0, size0) + Entries(order, table0);
    Pow256Is();
    MetaParts(meta, Header(id, n0, size0), Entries(order, table0));
    HeaderParts(id, n0, size0);
    IntRoundTrip(id, 8);
    IntRoundTrip(n0, 4);
    IntRoundTrip(size0, 4);
    var found := FromBigEndian(meta[0..8]);
    assert found == id;
    n, size := FromBigEndian(meta[8..12]), FromBigEndian(meta[12..16]);
    FitsSmall(table0);
    table := ReadEntries(meta, META_HEAD, n, order, table0);
  }

  /** retrieve_container_meta_by_id, once the container is on disk: only the last META_SIZE bytes are read. */
  method RetrieveMeta(file: seq<Octet>, id: nat, ghost n0: nat, ghost size0: nat, ghost table0: map<FpBytes, MetaEntry>)
    returns (n: nat, size: nat, table: map<FpBytes, MetaEntry>)
    requires Place(id) + CONTAINER_SIZE <= |file|
    requires Image(ReadAt(file, Place(id), CONTAINER_SIZE), id, n0, size0, table0)
    requires id < Pow256(8) && size0 <= DATA_MAX
    ensures n == n0 && size == size0 && table == table0
  {
    hide Image, Pow256;
    var p := (id + 1) * CONTAINER_SIZE - CONTAINER_META_SIZE + 8;
    assert p == Place(id) + DATA_MAX;
    ghost var block := ReadAt(file, Place(id), CONTAINER_SIZE);
    ImageMeta(block, id, n0, size0, table0);
    SliceOfSlice(file, Place(id), Place(id) + CONTAINER_SIZE, DATA_MAX, CONTAINER_SIZE);
    assert block[DATA_MAX..] == block[DATA_MAX..CONTAINER_SIZE];
    n, size, table := ReadMeta(ReadAt(file, p, CONTAINER_META_SIZE), id, n0, size0, table0);
  }

  /** retrieve_container_by_id. */
  method RetrieveContainer(
    file: seq<Octet>, id: nat, ghost n0: nat, ghost size0: nat, ghost table0: map<FpBytes, MetaEntry>)
    returns (c: Container)
    requires Place(id) + CONTAINER_SIZE <= |file|
    requires Image(ReadAt(file, Place(id), CONTAINER_SIZE), id, n0, size0, table0)
    requires id < Pow256(8) && size0 <= DATA_MAX && n0 == |table0| && Fits(table0, size0)
    ensures fresh(c) && c.Valid() && c.id == id && c.table == table0
    ensures c.Contents() == ChunksIn(table0, ReadAt(file, Place(id), CONTAINER_SIZE))
  {
    hide Pow256, Image, MetaImage, Place;
    var block := ReadAt(file, Place(id), CONTAINER_SIZE);
    ImageSize(block, id, n0, size0, table0);
    c := new Container(id);
    c.PutBytes(0, 0, block);
    assert c.data[..] == block by { assert c.data[0..0 + |block|] == [] + block; }
    ImageMeta(block, id, n0, size0, table0);
    var n, size, table := ReadMeta(block[DATA_MAX..], id, n0, size0, table0);
    c.chunkNum, c.dataSize, c.table := n, size, table;
  }

  lemma ImageSize(block: seq<Octet>, id: nat, chunkNum: nat, dataSize: nat, table: map<FpBytes, MetaEntry>)
    requires Image(block, id, chunkNum, dataSize, table)
    ensures |block| == CONTAINER_SIZE && META_HEAD + META_ENTRY * chunkNum <= CONTAINER_META_SIZE
  {}

  /** A container written to container.pool is read back with every chunk, and no other container changes. */
  method RoundTrip(
    c: Container, order: seq<FpBytes>, file: seq<Octet>, other: nat)
    returns (f: seq<Octet>, back: Container)
    requires c.Valid() && c.chunkNum != 0 && Enumerates(order, c.table) && |order| == c.chunkNum && c.id < Pow256(8)
    modifies c.data
    ensures back.Valid() && back.id == c.id && back.Contents() == old(c.Contents())
    ensures other != c.id && Place(other) + CONTAINER_SIZE <= |file| ==>
              Place(other) + CONTAINER_SIZE <= |f| &&
              ReadAt(f, Place(other), CONTAINER_SIZE) == ReadAt(file, Place(other), CONTAINER_SIZE)
  {
    hide Pow256, Image, Enumerates;
    ghost var data := c.data[..];
    f := WriteContainer(c, order, file);
    WriteAtReads(file, Place(c.id), c.data[..], Place(other), CONTAINER_SIZE);
    if other != c.id {
      PlacesApart(other, c.id);
    }
    back := RetrieveContainer(f, c.id, c.chunkNum, c.dataSize, c.table);
    SameChunks(c.table, data, c.data[..]);
  }

  /** The chunks lie before the metadata, so that writing it leaves them alone. */
  lemma SameChunks(table: map<FpBytes, MetaEntry>, a: seq<Octet>, b: seq<Octet>)
    requires |a| == |b| == CONTAINER_SIZE && a[..DATA_MAX] == b[..DATA_MAX] && Fits(table, DATA_MAX)
    ensures ChunksIn(table, a) == ChunksIn(table, b)
  {
    forall f | f in table ensures ChunksIn(table, a)[f] == ChunksIn(table, b)[f] {
      SameSlice(a, b, DATA_MAX, table[f].off, table[f].off + table[f].len);
    }
  }
}
