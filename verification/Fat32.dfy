/** Clusters, chains and directory entries of a FAT32 volume (Microsoft FAT32 File System Specification 1.03). */
module Fat32 {
  import opened Bytes
  import opened Multiples

  const SECTOR := 512
  const ENTRY := 32
  const END_OF_CHAIN := 0x0fff_fff0
  const WORD := 0x1_0000_0000

  /** A card, and where its file allocation table and its clusters are. */
  datatype Volume = Volume(card: seq<seq<byte>>, fatStart: nat, sectorsPerCluster: nat, cluster2Sector: nat)

  predicate GoodVolume(v: Volume) {
    match v
    case Volume(card, _, spc, _) =>
      1 <= spc < 0x100 && |card| <= WORD && forall i | 0 <= i < |card| :: |card[i]| == SECTOR
  }

  function Little(b: seq<byte>): nat {
    if b == [] then 0 else b[0] + 0x100 * Little(b[1..])
  }

  function FatSector(v: Volume, cluster: nat): nat {
    v.fatStart + cluster / 0x80
  }

  function FirstSector(v: Volume, cluster: nat): int {
    (cluster - 2) * v.sectorsPerCluster + v.cluster2Sector
  }

  /** The cluster's table entry and its data are on the card. */
  predicate InVolume(v: Volume, cluster: nat) {
    && 2 <= cluster < END_OF_CHAIN && FatSector(v, cluster) < |v.card|
    && FirstSector(v, cluster) + v.sectorsPerCluster <= |v.card|
  }

  function FatEntry(v: Volume, cluster: nat): nat
    requires GoodVolume(v) && FatSector(v, cluster) < |v.card|
  {
    Little(v.card[FatSector(v, cluster)][cluster % 0x80 * 4..][..4])
  }

  predicate Ends(cluster: nat) {
    cluster == 0 || cluster >= END_OF_CHAIN
  }

  /** Clusters that follow each other to an end mark. */
  predicate Chain(v: Volume, cs: seq<nat>)
    requires GoodVolume(v)
  {
    cs != [] ==>
      && InVolume(v, cs[0])
      && (if |cs| == 1 then Ends(FatEntry(v, cs[0])) else FatEntry(v, cs[0]) == cs[1] && Chain(v, cs[1..]))
  }

  /** A chain that reaches its end meets no cluster twice, and is the only one from where it starts. */
  lemma {:induction false} ChainUnique(v: Volume, a: seq<nat>, b: seq<nat>)
    requires GoodVolume(v) && Chain(v, a) && Chain(v, b) && a != [] && b != [] && a[0] == b[0]
    ensures a == b
    decreases |a|
  {
    if |a| > 1 && |b| > 1 {
      ChainUnique(v, a[1..], b[1..]);
    }
  }

  lemma {:induction false} ChainAcyclic(v: Volume, cs: seq<nat>)
    requires GoodVolume(v) && Chain(v, cs)
    ensures forall i, j | 0 <= i < j < |cs| :: cs[i] != cs[j]
  {
    if cs != [] {
      ChainAcyclic(v, cs[1..]);
      forall j | 0 < j < |cs|
        ensures cs[0] != cs[j]
      {
        ChainDrop(v, cs, j);
        if cs[0] == cs[j] {
          ChainUnique(v, cs, cs[j..]);
        }
      }
    }
  }

  lemma {:induction false} ChainDrop(v: Volume, cs: seq<nat>, n: nat)
    requires GoodVolume(v) && Chain(v, cs) && n <= |cs|
    ensures Chain(v, cs[n..])
    decreases n
  {
    if n == 0 {
      assert cs[0..] == cs;
    } else {
      ChainDrop(v, cs[1..], n - 1);
      assert cs[1..][n - 1..] == cs[n..];
    }
  }

  function ClusterData(v: Volume, cluster: nat): (r: seq<seq<byte>>)
    requires GoodVolume(v) && InVolume(v, cluster)
    ensures |r| == v.sectorsPerCluster && forall i | 0 <= i < |r| :: |r[i]| == SECTOR
  {
    FirstInCard(v, cluster);
    v.card[FirstSector(v, cluster)..FirstSector(v, cluster) + v.sectorsPerCluster]
  }

  lemma FirstInCard(v: Volume, cluster: nat)
    requires cluster >= 2
    ensures FirstSector(v, cluster) >= 0
  {
    TimesNat(cluster - 2, v.sectorsPerCluster);
  }

  /** The data of a chain, sector by sector. */
  function Data(v: Volume, cs: seq<nat>): (r: seq<seq<byte>>)
    requires GoodVolume(v) && Chain(v, cs)
    ensures forall i | 0 <= i < |r| :: |r[i]| == SECTOR
    ensures |r| >= |cs|
  {
    if cs == [] then [] else
      ChainDrop(v, cs, 1);
      ClusterData(v, cs[0]) + Data(v, cs[1..])
  }

  // ----- directories

  /** The entries of a sector from an offset on. */
  function EntriesFrom(sector: seq<byte>, offset: nat): (r: seq<seq<byte>>)
    requires |sector| == SECTOR
    ensures forall i | 0 <= i < |r| :: |r[i]| == ENTRY
    decreases SECTOR - offset
  {
    if offset + ENTRY > SECTOR then [] else [sector[offset..offset + ENTRY]] + EntriesFrom(sector, offset + ENTRY)
  }

  function Entries(sectors: seq<seq<byte>>): (r: seq<seq<byte>>)
    requires forall i | 0 <= i < |sectors| :: |sectors[i]| == SECTOR
    ensures forall i | 0 <= i < |r| :: |r[i]| == ENTRY
  {
    if sectors == [] then [] else EntriesFrom(sectors[0], 0) + Entries(sectors[1..])
  }

  predicate InUse(entry: seq<byte>)
    requires |entry| == ENTRY
  {
    entry[0] != 0 && entry[0] != 0xe5
  }

  /** What a directory entry says: the first cluster, and the name as eight characters, a dot, and three. */
  datatype Dirent = Dirent(cluster: nat, name: seq<byte>)

  function Read(entry: seq<byte>): Dirent
    requires |entry| == ENTRY
  {
    Dirent(Little(entry[0x1a..0x1c] + entry[0x14..0x16]), entry[..8] + [0x2e] + entry[8..11])
  }

  /** The part of a string before its terminator. */
  function Terminated(s: seq<byte>): seq<byte> {
    if s == [] || s[0] == 0 then [] else [s[0]] + Terminated(s[1..])
  }

  /** The entries that are neither free nor deleted, in order. */
  function Listing(entries: seq<seq<byte>>): seq<Dirent>
    requires forall i | 0 <= i < |entries| :: |entries[i]| == ENTRY
  {
    if entries == [] then []
    else (if InUse(entries[0]) then [Read(entries[0])] else []) + Listing(entries[1..])
  }

  predicate HasName(d: Dirent, name: seq<byte>) {
    Terminated(d.name) == Terminated(name)
  }

  /** The first entry with a name. */
  function FirstNamed(ds: seq<Dirent>, name: seq<byte>): (r: Option<Dirent>)
    ensures r.None? ==> forall i | 0 <= i < |ds| :: !HasName(ds[i], name)
    ensures r.Some? ==> exists i :: 0 <= i < |ds| && ds[i] == r.value && HasName(ds[i], name)
                                    && forall j | 0 <= j < i :: !HasName(ds[j], name)
  {
    if ds == [] then None
    else if HasName(ds[0], name) then Some(ds[0])
    else FirstNamed(ds[1..], name)
  }

  /** Whether a file's first cluster leads to a chain; a file without one is empty. */
  ghost predicate HasChain(v: Volume, cluster: nat)
    requires GoodVolume(v)
  {
    cluster == 0 || exists cs: seq<nat> :: Chain(v, cs) && cs != [] && cs[0] == cluster
  }

  ghost function ChainOf(v: Volume, cluster: nat): (cs: seq<nat>)
    requires GoodVolume(v) && HasChain(v, cluster)
    ensures Chain(v, cs)
    ensures if cluster == 0 then cs == [] else cs != [] && cs[0] == cluster
  {
    if cluster == 0 then []
    else
      var cs: seq<nat> :| Chain(v, cs) && cs != [] && cs[0] == cluster;
      cs
  }

  /** The file a name stands for in the root directory, which starts at cluster 2. */
  ghost function FileNamed(v: Volume, name: seq<byte>): Option<Dirent>
    requires GoodVolume(v) && HasChain(v, 2)
  {
    FirstNamed(Listing(Entries(Data(v, ChainOf(v, 2)))), name)
  }

  /** What a file holds. */
  ghost function Contents(v: Volume, d: Dirent): (r: seq<seq<byte>>)
    requires GoodVolume(v) && HasChain(v, d.cluster)
    ensures forall i | 0 <= i < |r| :: |r[i]| == SECTOR
  {
    Data(v, ChainOf(v, d.cluster))
  }

  /** The root directory has a chain, and so has the file a name stands for, if there is one. */
  ghost predicate CanOpen(v: Volume, name: seq<byte>)
    requires GoodVolume(v)
  {
    HasChain(v, 2) && (FileNamed(v, name).Some? ==> HasChain(v, FileNamed(v, name).value.cluster))
  }

  // ----- where everything lies on the card

  /** Four bytes, the low one first. */
  function Word32(a: byte, b: byte, c: byte, d: byte): nat {
    a + 0x100 * (b as nat) + 0x1_0000 * (c as nat) + 0x100_0000 * (d as nat)
  }

  lemma LittleIs(a: byte, b: byte, c: byte, d: byte)
    ensures Little([a, b, c, d]) == Word32(a, b, c, d)
  {
    assert Little([d]) == d;
    assert [c, d][1..] == [d] && Little([c, d]) == c + 0x100 * Little([d]);
    assert [b, c, d][1..] == [c, d] && Little([b, c, d]) == b + 0x100 * Little([c, d]);
    assert [a, b, c, d][1..] == [b, c, d];
  }

  /** The table's entry of a cluster: 128 to a sector, four bytes each. */
  lemma FatEntryIs(v: Volume, cluster: nat)
    requires GoodVolume(v) && v.fatStart + cluster / 128 < |v.card|
    ensures FatSector(v, cluster) == v.fatStart + cluster / 128
    ensures var s, at := v.card[v.fatStart + cluster / 128], 4 * (cluster % 128);
      FatEntry(v, cluster) == Word32(s[at], s[at + 1], s[at + 2], s[at + 3])
  {
    hide Little, Word32;
    var s, at := v.card[v.fatStart + cluster / 128], 4 * (cluster % 128);
    LittleIs(s[at], s[at + 1], s[at + 2], s[at + 3]);
    assert s[at..][..4] == [s[at], s[at + 1], s[at + 2], s[at + 3]];
  }

  /** In a chain each cluster's entry is the next cluster, and the last one's an end mark. */
  lemma {:induction false} ChainLinks(v: Volume, cs: seq<nat>, k: nat)
    requires GoodVolume(v) && Chain(v, cs) && k < |cs|
    ensures 2 <= cs[k] < 0x0fff_fff0 && FatSector(v, cs[k]) < |v.card|
    ensures if k + 1 < |cs| then FatEntry(v, cs[k]) == cs[k + 1]
            else FatEntry(v, cs[k]) == 0 || FatEntry(v, cs[k]) >= 0x0fff_fff0
    decreases k
  {
    hide FatEntry, FatSector, FirstSector;
    if k > 0 {
      ChainLinks(v, cs[1..], k - 1);
    }
  }

  /** The data of a chain: the sectors of its clusters, in order. */
  lemma DataAt(v: Volume, cs: seq<nat>, k: nat, i: nat)
    requires GoodVolume(v) && Chain(v, cs) && k < |cs| && i < v.sectorsPerCluster
    ensures |Data(v, cs)| == v.sectorsPerCluster * |cs| && v.sectorsPerCluster * k + i < |Data(v, cs)|
    ensures 0 <= (cs[k] - 2) * v.sectorsPerCluster + v.cluster2Sector + i < |v.card|
    ensures Data(v, cs)[v.sectorsPerCluster * k + i]
         == v.card[(cs[k] - 2) * v.sectorsPerCluster + v.cluster2Sector + i]
  {
    hide FatEntry, FatSector, Data, Chain, InVolume, ClusterData;
    DataLength(v, cs);
    DataFrom(v, cs, k, i, v.sectorsPerCluster * k + i);
  }

  lemma {:induction false} DataFrom(v: Volume, cs: seq<nat>, k: nat, i: nat, at: nat)
    requires GoodVolume(v) && Chain(v, cs) && k < |cs| && i < v.sectorsPerCluster && at == v.sectorsPerCluster * k + i
    ensures at < |Data(v, cs)| && 0 <= FirstSector(v, cs[k]) + i < |v.card|
    ensures Data(v, cs)[at] == v.card[FirstSector(v, cs[k]) + i]
    decreases k
  {
    hide FatEntry, FatSector, Data, Chain, InVolume, ClusterData, FirstSector;
    var n := v.sectorsPerCluster;
    DataSplit(v, cs, i);
    if k > 0 {
      assert n * k == n + n * (k - 1);
      DataFrom(v, cs[1..], k - 1, i, at - n);
    }
  }

  lemma DataSplit(v: Volume, cs: seq<nat>, i: nat)
    requires GoodVolume(v) && Chain(v, cs) && cs != [] && i < v.sectorsPerCluster
    ensures InVolume(v, cs[0]) && Chain(v, cs[1..])
    ensures Data(v, cs) == ClusterData(v, cs[0]) + Data(v, cs[1..])
    ensures 0 <= FirstSector(v, cs[0]) + i < |v.card| && ClusterData(v, cs[0])[i] == v.card[FirstSector(v, cs[0]) + i]
  {
    hide FatEntry, FatSector, FirstSector;
    ChainDrop(v, cs, 1);
    FirstInCard(v, cs[0]);
  }

  lemma {:induction false} DataLength(v: Volume, cs: seq<nat>)
    requires GoodVolume(v) && Chain(v, cs)
    ensures |Data(v, cs)| == v.sectorsPerCluster * |cs|
    decreases |cs|
  {
    hide FatEntry, FatSector, FirstSector;
    if cs != [] {
      ChainDrop(v, cs, 1);
      DataLength(v, cs[1..]);
      assert v.sectorsPerCluster * |cs| == v.sectorsPerCluster + v.sectorsPerCluster * (|cs| - 1);
    }
  }

  /** The directory's entries: sixteen to a sector, 32 bytes each. */
  lemma {:induction false} EntryAt(sectors: seq<seq<byte>>, k: nat, i: nat)
    requires k < |sectors| && i < 16 && forall j | 0 <= j < |sectors| :: |sectors[j]| == 512
    ensures |Entries(sectors)| == 16 * |sectors| && Entries(sectors)[16 * k + i] == sectors[k][32 * i..32 * i + 32]
    decreases |sectors|
  {
    hide EntriesFrom;
    EntriesLength(sectors);
    EntryFromAt(sectors[0], 0, 0);
    if k == 0 {
      EntryFromAt(sectors[0], 0, i);
    } else {
      EntryAt(sectors[1..], k - 1, i);
    }
  }

  lemma {:induction false} EntriesLength(sectors: seq<seq<byte>>)
    requires forall j | 0 <= j < |sectors| :: |sectors[j]| == 512
    ensures |Entries(sectors)| == 16 * |sectors|
  {
    hide EntriesFrom;
    if sectors != [] {
      EntryFromAt(sectors[0], 0, 0);
      EntriesLength(sectors[1..]);
    }
  }

  lemma {:induction false} EntryFromAt(sector: seq<byte>, from: nat, i: nat)
    requires |sector| == 512 && from <= 16 && (from < 16 ==> i < 16 - from)
    ensures |EntriesFrom(sector, 32 * from)| == 16 - from
    ensures from < 16 ==> EntriesFrom(sector, 32 * from)[i] == sector[32 * (from + i)..32 * (from + i) + 32]
    decreases 16 - from
  {
    if from < 16 {
      EntryFromAt(sector, from + 1, if i > 0 then i - 1 else 0);
    }
  }

  /** What the bytes of an entry say: the cluster is split over two places; the name is eight bytes, a dot and
      three. */
  lemma ReadIs(entry: seq<byte>)
    requires |entry| == 32
    ensures Read(entry).cluster == Word32(entry[26], entry[27], entry[20], entry[21])
    ensures Read(entry).name == entry[0..8] + [0x2e] + entry[8..11]
  {
    LittleIs(entry[26], entry[27], entry[20], entry[21]);
    assert entry[0x1a..0x1c] + entry[0x14..0x16] == [entry[26], entry[27], entry[20], entry[21]];
  }

  /** What is listed: entries whose first byte is neither 0 nor the mark of a deleted one. */
  lemma {:induction false} ListedIs(entries: seq<seq<byte>>, d: Dirent)
    requires forall i | 0 <= i < |entries| :: |entries[i]| == 32
    ensures d in Listing(entries)
       <==> exists i :: 0 <= i < |entries| && entries[i][0] != 0 && entries[i][0] != 0xe5 && d == Read(entries[i])
  {
    hide Read;
    if entries != [] {
      var rest := entries[1..];
      ListedIs(rest, d);
      if i :| 0 <= i < |rest| && rest[i][0] != 0 && rest[i][0] != 0xe5 && d == Read(rest[i]) {
        assert entries[i + 1] == rest[i];
      }
      if i :| 0 <= i < |entries| && entries[i][0] != 0 && entries[i][0] != 0xe5 && d == Read(entries[i]) {
        assert i > 0 ==> rest[i - 1] == entries[i];
      }
    }
  }

  /** Names are the same up to a zero byte. */
  lemma {:induction false} TerminatedIs(s: seq<byte>)
    ensures var n := |Terminated(s)|;
      n <= |s| && Terminated(s) == s[..n] && 0 !in s[..n] && (n < |s| ==> s[n] == 0)
  {
    if s != [] && s[0] != 0 {
      TerminatedIs(s[1..]);
      var n := |Terminated(s)|;
      assert s[..n] == [s[0]] + s[1..][..n - 1];
    }
  }

  /** The directory is the chain that starts at cluster 2. */
  lemma NamedIn(v: Volume, cs: seq<nat>, name: seq<byte>)
    requires GoodVolume(v) && Chain(v, cs) && cs != [] && cs[0] == 2
    ensures HasChain(v, 2) && FileNamed(v, name) == FirstNamed(Listing(Entries(Data(v, cs))), name)
  {
    hide Chain, FirstNamed, Listing, Entries, Data;
    ChainUnique(v, cs, ChainOf(v, 2));
  }

  /** A file holds the data of the chain that starts at its cluster, and nothing if it has none. */
  lemma ContentsAre(v: Volume, d: Dirent, cs: seq<nat>)
    requires GoodVolume(v) && Chain(v, cs)
    ensures d.cluster == 0 ==> HasChain(v, d.cluster) && Contents(v, d) == []
    ensures d.cluster != 0 && cs != [] && cs[0] == d.cluster ==>
              HasChain(v, d.cluster) && Contents(v, d) == Data(v, cs)
  {
    hide Chain;
    if d.cluster != 0 && cs != [] && cs[0] == d.cluster {
      ChainUnique(v, cs, ChainOf(v, d.cluster));
    }
  }
}
