/** The reader of the SD card: one directory cursor, one file cursor, and one sector buffer for all. */
module Fat32Reader {
  import opened Bytes
  import opened Fat32

  /** A cursor stands `k` sectors into the first of the clusters it has left. */
  predicate Stands(v: Volume, cs: seq<nat>, cluster: nat, sector: nat, k: nat)
    requires GoodVolume(v)
  {
    if cs == [] then Ends(cluster)
    else Chain(v, cs) && cluster == cs[0] && k < v.sectorsPerCluster && sector == FirstSector(v, cluster) + k
  }

  /** The sectors a cursor has left. */
  function Left(v: Volume, cs: seq<nat>, k: nat): (r: seq<seq<byte>>)
    requires GoodVolume(v) && Chain(v, cs) && (cs != [] ==> k < v.sectorsPerCluster)
    ensures forall i | 0 <= i < |r| :: |r[i]| == SECTOR
    ensures cs != [] ==> |r| >= 1
  {
    if cs == [] then [] else
      ChainDrop(v, cs, 1);
      ClusterData(v, cs[0])[k..] + Data(v, cs[1..])
  }

  /** The entries a directory cursor has left, from an offset in its sector on. */
  function EntriesLeft(v: Volume, cs: seq<nat>, k: nat, offset: nat): (r: seq<seq<byte>>)
    requires GoodVolume(v) && Chain(v, cs) && (cs != [] ==> k < v.sectorsPerCluster)
    ensures forall i | 0 <= i < |r| :: |r[i]| == ENTRY
  {
    if cs == [] then []
    else
      var sectors := Left(v, cs, k);
      EntriesFrom(sectors[0], offset) + Entries(sectors[1..])
  }

  /** The first sector of a cluster, in 32 bits. */
  function SectorOf(v: Volume, cluster: nat): nat {
    FirstSector(v, cluster) % WORD
  }

  lemma LeftMoves(v: Volume, cs: seq<nat>, k: nat)
    requires GoodVolume(v) && Chain(v, cs) && cs != [] && k < v.sectorsPerCluster
    ensures 0 <= FirstSector(v, cs[0]) && FirstSector(v, cs[0]) + k < |v.card|
    ensures Left(v, cs, k)[0] == v.card[FirstSector(v, cs[0]) + k]
    ensures k + 1 < v.sectorsPerCluster ==> Left(v, cs, k)[1..] == Left(v, cs, k + 1)
    ensures k + 1 == v.sectorsPerCluster ==> Chain(v, cs[1..]) && Left(v, cs, k)[1..] == Left(v, cs[1..], 0)
  {
    hide FirstSector, FatEntry, FatSector, Chain, Data, ClusterData, Left;
    ChainStarts(v, cs);
    FirstInCard(v, cs[0]);
    LeftSplit(v, cs, k);
    var rest := ClusterData(v, cs[0])[k + 1..] + Data(v, cs[1..]);
    assert ([v.card[FirstSector(v, cs[0]) + k]] + rest)[1..] == rest;
    if k + 1 == v.sectorsPerCluster {
      DataLeft(v, cs[1..]);
      assert rest == Data(v, cs[1..]);
    } else {
      LeftIs(v, cs, k + 1);
    }
  }

  lemma LeftIs(v: Volume, cs: seq<nat>, k: nat)
    requires GoodVolume(v) && Chain(v, cs) && cs != [] && k < v.sectorsPerCluster
    ensures InVolume(v, cs[0]) && Chain(v, cs[1..])
    ensures Left(v, cs, k) == ClusterData(v, cs[0])[k..] + Data(v, cs[1..])
  {
    hide FirstSector, FatEntry, FatSector, Data, ClusterData;
    ChainStarts(v, cs);
  }

  lemma LeftSplit(v: Volume, cs: seq<nat>, k: nat)
    requires GoodVolume(v) && Chain(v, cs) && cs != [] && k < v.sectorsPerCluster
    ensures InVolume(v, cs[0]) && Chain(v, cs[1..])
    ensures 0 <= FirstSector(v, cs[0]) && FirstSector(v, cs[0]) + k < |v.card|
    ensures Left(v, cs, k) == [v.card[FirstSector(v, cs[0]) + k]] + (ClusterData(v, cs[0])[k + 1..] + Data(v, cs[1..]))
  {
    hide FirstSector, FatEntry, FatSector, Chain, Data, Left;
    LeftIs(v, cs, k);
    FirstInCard(v, cs[0]);
    var c := ClusterData(v, cs[0]);
    assert c[k] == v.card[FirstSector(v, cs[0]) + k];
    assert c[k..] == [c[k]] + c[k + 1..];
  }

  lemma ChainStarts(v: Volume, cs: seq<nat>)
    requires GoodVolume(v) && Chain(v, cs) && cs != []
    ensures InVolume(v, cs[0]) && Chain(v, cs[1..])
  {
  }

  lemma DataLeft(v: Volume, cs: seq<nat>)
    requires GoodVolume(v) && Chain(v, cs)
    ensures Left(v, cs, 0) == Data(v, cs)
  {
    if cs != [] {
      ChainDrop(v, cs, 1);
      assert ClusterData(v, cs[0])[0..] == ClusterData(v, cs[0]);
    }
  }

  lemma ChainNext(v: Volume, cs: seq<nat>)
    requires GoodVolume(v) && Chain(v, cs) && cs != []
    ensures InVolume(v, cs[0]) && Stands(v, cs[1..], FatEntry(v, cs[0]), SectorOf(v, FatEntry(v, cs[0])), 0)
  {
    hide FirstSector, FatSector, FatEntry;
    if |cs| > 1 {
      ChainStarts(v, cs);
      ChainStarts(v, cs[1..]);
      FirstInCard(v, cs[1]);
      FirstInWord(v, cs[1]);
    }
  }

  /** A cluster on the card has its first sector in 32 bits. */
  lemma FirstInWord(v: Volume, cluster: nat)
    requires GoodVolume(v) && InVolume(v, cluster)
    ensures SectorOf(v, cluster) == FirstSector(v, cluster)
  {
    hide FirstSector, FatSector;
    FirstInCard(v, cluster);
  }

  /** A cursor with clusters left has a sector to read, and one after it if there is one. */
  lemma CursorMoves(v: Volume, cs: seq<nat>, cluster: nat, sector: nat, k: nat)
    requires GoodVolume(v) && Stands(v, cs, cluster, sector, k) && cs != []
    ensures Chain(v, cs) && k < v.sectorsPerCluster && InVolume(v, cluster)
    ensures sector < |v.card| && Left(v, cs, k)[0] == v.card[sector]
    ensures k + 1 < v.sectorsPerCluster ==>
              Stands(v, cs, cluster, sector + 1, k + 1) && Left(v, cs, k)[1..] == Left(v, cs, k + 1)
    ensures k + 1 == v.sectorsPerCluster ==>
              && Stands(v, cs[1..], FatEntry(v, cluster), SectorOf(v, FatEntry(v, cluster)), 0)
              && Chain(v, cs[1..]) && Left(v, cs, k)[1..] == Left(v, cs[1..], 0)
  {
    hide Left, Chain, FirstSector, FatEntry, InVolume;
    LeftMoves(v, cs, k);
    ChainNext(v, cs);
  }

  /** What a cursor's cluster tells. */
  lemma StandsOn(v: Volume, cs: seq<nat>, cluster: nat, sector: nat, k: nat)
    requires GoodVolume(v) && Stands(v, cs, cluster, sector, k)
    ensures cs == [] <==> Ends(cluster)
    ensures Chain(v, cs) && (cs != [] ==> k < v.sectorsPerCluster)
  {
  }

  /** At the end no sector matters. */
  lemma AtEnd(v: Volume, cluster: nat, sector: nat)
    requires GoodVolume(v) && Ends(cluster)
    ensures Stands(v, [], cluster, sector, 0)
  {
  }

  lemma NoneLeft(v: Volume, cs: seq<nat>, k: nat)
    requires GoodVolume(v) && Chain(v, cs) && (cs != [] ==> k < v.sectorsPerCluster)
    ensures Left(v, cs, k) == [] <==> cs == []
  {
  }

  /** Moving on where the offset is at the end of a sector. */
  lemma EntriesAtEnd(v: Volume, cs: seq<nat>, k: nat, cs1: seq<nat>, k1: nat)
    requires GoodVolume(v) && Chain(v, cs) && cs != [] && k < v.sectorsPerCluster
    requires Chain(v, cs1) && (cs1 != [] ==> k1 < v.sectorsPerCluster) && Left(v, cs1, k1) == Left(v, cs, k)[1..]
    ensures EntriesLeft(v, cs, k, SECTOR) == EntriesLeft(v, cs1, k1, 0)
  {
    hide Chain, Left;
    NoneLeft(v, cs1, k1);
    var rest := Left(v, cs, k)[1..];
    assert EntriesFrom(Left(v, cs, k)[0], SECTOR) == [];
    assert [] + Entries(rest) == Entries(rest);
  }

  lemma NoEntriesLeft(v: Volume, k: nat, offset: nat)
    requires GoodVolume(v)
    ensures EntriesLeft(v, [], k, offset) == []
  {
  }

  /** One entry read. */
  lemma EntryRead(v: Volume, cs: seq<nat>, k: nat, offset: nat)
    requires GoodVolume(v) && Chain(v, cs) && cs != [] && k < v.sectorsPerCluster && offset + ENTRY <= SECTOR
    ensures EntriesLeft(v, cs, k, offset)
         == [Left(v, cs, k)[0][offset..offset + ENTRY]] + EntriesLeft(v, cs, k, offset + ENTRY)
  {
    hide Chain, Left, Entries, EntriesFrom, GoodVolume;
    NoneLeft(v, cs, k);
    var sectors := Left(v, cs, k);
    EntriesStep(sectors[0], offset);
    var entry, rest := sectors[0][offset..offset + ENTRY], EntriesFrom(sectors[0], offset + ENTRY);
    assert [entry] + rest + Entries(sectors[1..]) == [entry] + (rest + Entries(sectors[1..]));
  }

  lemma EntriesStep(sector: seq<byte>, offset: nat)
    requires |sector| == SECTOR && offset + ENTRY <= SECTOR
    ensures EntriesFrom(sector, offset) == [sector[offset..offset + ENTRY]] + EntriesFrom(sector, offset + ENTRY)
  {
  }

  lemma NothingListed()
    ensures Listing([]) == []
  {
  }

  lemma ListingStep(entries: seq<seq<byte>>, entry: seq<byte>, rest: seq<seq<byte>>)
    requires |entry| == ENTRY && entries == [entry] + rest && forall i | 0 <= i < |rest| :: |rest[i]| == ENTRY
    ensures |entries| == |rest| + 1 && forall i | 0 <= i < |entries| :: |entries[i]| == ENTRY
    ensures Listing(entries) == if InUse(entry) then [Read(entry)] + Listing(rest) else Listing(rest)
  {
    hide Read, InUse;
    assert entries[1..] == rest;
    assert [] + Listing(rest) == Listing(rest);
  }

  class Reader {
    const v: Volume
    const buffer: array<byte>
    var dirCluster: nat
    var dirSector: nat
    var dirSectorInCluster: nat
    var dirOffset: nat
    var fileCluster: nat
    var fileSector: nat
    var fileSectorInCluster: nat
    ghost var dirChain: seq<nat>
    ghost var fileChain: seq<nat>

    constructor (v: Volume, buffer: array<byte>)
      requires GoodVolume(v) && buffer.Length == SECTOR
      ensures this.v == v && this.buffer == buffer && FileValid() && FileLeft() == []
    {
      this.v := v;
      this.buffer := buffer;
      dirCluster, dirSector, dirSectorInCluster, dirOffset, dirChain := 0, 0, 0, 0, [];
      fileCluster, fileSector, fileSectorInCluster, fileChain := 0, 0, 0, [];
    }

    ghost predicate FileValid()
      reads this
    {
      && GoodVolume(v) && buffer.Length == SECTOR
      && Stands(v, fileChain, fileCluster, fileSector, fileSectorInCluster)
      && (fileChain == [] ==> fileCluster == 0)
    }

    ghost predicate DirValid()
      reads this
    {
      && GoodVolume(v) && buffer.Length == SECTOR
      && Stands(v, dirChain, dirCluster, dirSector, dirSectorInCluster)
      && dirOffset <= SECTOR && dirOffset % ENTRY == 0
    }

    /** The sectors of the open file that are still to be read. */
    ghost function FileLeft(): (r: seq<seq<byte>>)
      reads this
      requires FileValid()
      ensures forall i | 0 <= i < |r| :: |r[i]| == SECTOR
    {
      Left(v, fileChain, fileSectorInCluster)
    }

    ghost function DirLeft(): (r: seq<seq<byte>>)
      reads this
      requires DirValid()
      ensures forall i | 0 <= i < |r| :: |r[i]| == ENTRY
    {
      EntriesLeft(v, dirChain, dirSectorInCluster, dirOffset)
    }

    method ReadSector(n: nat)
      requires n < |v.card| && |v.card[n]| == SECTOR && buffer.Length == SECTOR
      modifies buffer
      ensures buffer[..] == v.card[n]
    {
      forall i | 0 <= i < SECTOR {
        buffer[i] := v.card[n][i];
      }
    }

    /** Looks a cluster up in the file allocation table, by way of the buffer. */
    method NextCluster(cluster: nat) returns (next: nat)
      requires GoodVolume(v) && buffer.Length == SECTOR && InVolume(v, cluster)
      modifies buffer
      ensures next == FatEntry(v, cluster)
    {
      ReadSector(v.fatStart + cluster / 0x80);
      var offset := cluster % 0x80 * 4;
      assert buffer[..][offset..][..4] == buffer[offset..offset + 4];
      next := Little(buffer[offset..offset + 4]);
    }

    // ----- the open file

    /** Reads the next sector of the open file into the buffer, past the table sector that may have been
        read to find it; at the end of the file nothing is read. */
    method Read512() returns (n: nat)
      requires FileValid()
      modifies buffer, this`fileCluster, this`fileSector, this`fileSectorInCluster, this`fileChain
      ensures FileValid()
      ensures old(FileLeft()) == [] ==> n == 0 && FileLeft() == [] && buffer[..] == old(buffer[..])
      ensures old(FileLeft()) != [] ==>
                n == SECTOR && buffer[..] == old(FileLeft())[0] && FileLeft() == old(FileLeft())[1..]
    {
      hide Stands, Chain, Left, InVolume, FatEntry, GoodVolume;
      var theSector := fileSector;
      StandsOn(v, fileChain, fileCluster, fileSector, fileSectorInCluster);
      NoneLeft(v, fileChain, fileSectorInCluster);
      if fileCluster == 0 {
        return 0;
      }
      CursorMoves(v, fileChain, fileCluster, fileSector, fileSectorInCluster);
      fileSectorInCluster := fileSectorInCluster + 1;
      fileSector := fileSector + 1;
      if fileSectorInCluster >= v.sectorsPerCluster {
        fileSectorInCluster := 0;
        fileCluster := NextCluster(fileCluster);
        StandsOn(v, fileChain[1..], fileCluster, SectorOf(v, fileCluster), 0);
        if fileCluster >= END_OF_CHAIN || fileCluster == 0 {
          fileCluster := 0;
        }
        fileChain := fileChain[1..];
        fileSector := ((fileCluster - 2) * v.sectorsPerCluster + v.cluster2Sector) % WORD;
        if fileChain == [] {
          AtEnd(v, fileCluster, fileSector);
        }
      }
      ReadSector(theSector);
      return SECTOR;
    }

    // ----- the directory

    method OpenDir()
      requires GoodVolume(v) && buffer.Length == SECTOR && HasChain(v, 2)
      modifies this`dirCluster, this`dirSector, this`dirSectorInCluster, this`dirOffset, this`dirChain
      ensures DirValid() && dirChain != [] && DirLeft() == Entries(Data(v, ChainOf(v, 2)))
    {
      dirCluster := 2;
      dirSector := v.cluster2Sector;
      dirSectorInCluster := 0;
      dirOffset := 0;
      dirChain := ChainOf(v, 2);
      assert ClusterData(v, 2)[0..] == ClusterData(v, 2);
    }

    /** Moves to the next sector or cluster where the last one has been used up. */
    method Advance() returns (more: bool)
      requires DirValid() && dirChain != []
      modifies buffer, this`dirCluster, this`dirSector, this`dirSectorInCluster, this`dirOffset, this`dirChain
      ensures DirValid() && DirLeft() == old(DirLeft())
      ensures more <==> dirChain != []
      ensures more ==> dirOffset < SECTOR
    {
      hide Stands, Chain, Left, EntriesLeft, InVolume, FatEntry, GoodVolume;
      StandsOn(v, dirChain, dirCluster, dirSector, dirSectorInCluster);
      CursorMoves(v, dirChain, dirCluster, dirSector, dirSectorInCluster);
      ghost var k := dirSectorInCluster;
      if dirOffset == SECTOR {
        dirOffset := 0;
        dirSectorInCluster := dirSectorInCluster + 1;
        dirSector := dirSector + 1;
        if dirSectorInCluster < v.sectorsPerCluster {
          EntriesAtEnd(v, dirChain, k, dirChain, k + 1);
        } else {
          EntriesAtEnd(v, dirChain, k, dirChain[1..], 0);
        }
      }
      if dirSectorInCluster >= v.sectorsPerCluster {
        dirSectorInCluster := 0;
        dirCluster := NextCluster(dirCluster);
        dirChain := dirChain[1..];
        StandsOn(v, dirChain, dirCluster, SectorOf(v, dirCluster), 0);
        if dirCluster >= END_OF_CHAIN {
          AtEnd(v, dirCluster, dirSector);
          return false;
        }
        dirSector := ((dirCluster - 2) * v.sectorsPerCluster + v.cluster2Sector) % WORD;
      }
      return dirCluster != 0;
    }

    /** The next entry that is in use, or none at the end of the directory. */
    method ReadDir() returns (entry: Option<Dirent>)
      requires DirValid() && dirChain != []
      modifies buffer, this`dirCluster, this`dirSector, this`dirSectorInCluster, this`dirOffset, this`dirChain
      ensures DirValid()
      ensures Listing(old(DirLeft())) == [] ==> entry == None
      ensures Listing(old(DirLeft())) != [] ==>
                && entry == Some(Listing(old(DirLeft()))[0])
                && dirChain != [] && Listing(DirLeft()) == Listing(old(DirLeft()))[1..]
                && |DirLeft()| < |old(DirLeft())|
    {
      hide Stands, Chain, Left, EntriesLeft, GoodVolume, Read, Listing;
      while true
        invariant DirValid() && dirChain != []
        invariant Listing(DirLeft()) == Listing(old(DirLeft())) && |DirLeft()| <= |old(DirLeft())|
        decreases |DirLeft()|
      {
        ghost var left := DirLeft();
        var next := ReadEntry();
        if next == None {
          NothingListed();
          return None;
        }
        ListingStep(left, next.value, DirLeft());
        if next.value[0] != 0 && next.value[0] != 0xe5 {
          return Some(Read(next.value));
        }
      }
    }

    /** The next entry of the directory, in use or not, or none at its end. */
    method ReadEntry() returns (raw: Option<seq<byte>>)
      requires DirValid() && dirChain != []
      modifies buffer, this`dirCluster, this`dirSector, this`dirSectorInCluster, this`dirOffset, this`dirChain
      ensures DirValid()
      ensures raw == None ==> old(DirLeft()) == [] && DirLeft() == []
      ensures raw != None ==> |raw.value| == ENTRY && dirChain != [] && old(DirLeft()) == [raw.value] + DirLeft()
    {
      hide Stands, Chain, Left, EntriesLeft, GoodVolume;
      var more := Advance();
      if !more {
        NoEntriesLeft(v, dirSectorInCluster, dirOffset);
        return None;
      }
      CursorMoves(v, dirChain, dirCluster, dirSector, dirSectorInCluster);
      EntryRead(v, dirChain, dirSectorInCluster, dirOffset);
      ReadSector(dirSector);
      raw := Some(buffer[dirOffset..dirOffset + ENTRY]);
      assert raw.value == buffer[..][dirOffset..dirOffset + ENTRY];
      dirOffset := dirOffset + ENTRY;
    }

    /** Stands at the beginning of a file. */
    method StartFile(d: Dirent)
      requires FileValid() && HasChain(v, d.cluster)
      modifies this`fileCluster, this`fileSector, this`fileSectorInCluster, this`fileChain
      ensures FileValid() && FileLeft() == Contents(v, d)
    {
      hide Stands, Chain, Left, HasChain;
      ChainStands(v, d.cluster);
      fileCluster := d.cluster;
      fileSectorInCluster := 0;
      fileSector := ((fileCluster - 2) * v.sectorsPerCluster + v.cluster2Sector) % WORD;
      fileChain := ChainOf(v, fileCluster);
    }

    /** Opens the first file in use with a name; the file stands at its beginning. */
    method Open(filename: seq<byte>) returns (result: byte)
      requires FileValid() && CanOpen(v, filename)
      modifies this, buffer
      ensures FileValid()
      ensures result == if FileNamed(v, filename).Some? then 0 else 0xff
      ensures FileLeft() == if FileNamed(v, filename).Some? then Contents(v, FileNamed(v, filename).value)
                            else old(FileLeft())
    {
      hide Stands, Chain, Left, EntriesLeft, Listing, HasName, Entries, GoodVolume, HasChain, Data, Contents;
      OpenDir();
      while true
        invariant DirValid() && dirChain != [] && FileValid() && FileLeft() == old(FileLeft())
        invariant FirstNamed(Listing(DirLeft()), filename) == FileNamed(v, filename)
        decreases |DirLeft()|
      {
        var de := ReadDir();
        if de == None {
          return 0xff;
        }
        if HasName(de.value, filename) {
          StartFile(de.value);
          return 0;
        }
      }
    }
  }

  lemma ChainStands(v: Volume, cluster: nat)
    requires GoodVolume(v) && HasChain(v, cluster)
    ensures var cs := ChainOf(v, cluster);
      Stands(v, cs, cluster, SectorOf(v, cluster), 0) && Left(v, cs, 0) == Data(v, cs)
  {
    hide FirstSector, FatEntry, Data, ClusterData;
    var cs := ChainOf(v, cluster);
    DataLeft(v, cs);
    if cs != [] {
      ChainStarts(v, cs);
      FirstInCard(v, cluster);
    }
  }
}
