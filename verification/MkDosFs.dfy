/** The formatter itself: sizing loop, FAT image, and what is written of it; and the search for the device size. */
module MkDosFs {
  import opened MachineInt
  import opened FatLayout
  import opened FatTable

  datatype Option<T> = None | Some(value: T)

  const ALL_ONES: nat := 0xFFFF_FFFF
  const FAT_EOF: nat := 0x0FFF_FFF8

  function Zeros(n: nat): (z: seq<byte>)
    ensures |z| == n
  {
    seq(n, _ => 0)
  }

  /**
   * The table of a fresh volume: the media byte and two reserved entries, and on FAT32 the root directory's end
   * mark.
   */
  function FreshTable(w: Width, media: byte, length: nat): (t: seq<byte>)
    requires length >= SECTOR
    ensures |t| == length
  {
    var reserved := Marked(w, Marked(w, Zeros(length), 0, ALL_ONES), 1, ALL_ONES)[0 := media];
    if w == F32 then Marked(w, reserved, 2, FAT_EOF) else reserved
  }

  /** With little memory one sector is written for each FAT, even where its length is zero. */
  function AtLeastOne(fl: nat): nat { if fl == 0 then 1 else fl }

  function Copies(t: seq<byte>, n: nat): seq<byte> {
    if n == 0 then [] else Copies(t, n - 1) + t
  }

  function Bits(w: Width): nat {
    match w case F12 => 12 case F16 => 16 case F32 => 32
  }

  lemma GrantedByTrial(c: Config, k: nat)
    requires c.Valid() && k > 0
    ensures forall w {:trigger c.Granted(w, k)} ::
              var fl := FatLength(w, c.FatData(), k);
              var n := Recount(c.FatData(), fl, k);
              c.Granted(w, k) == if TooMany(w, fl, n) || (w == F16 && n < FAT12_THRESHOLD && !(c.sizeFatByUser && c.sizeFat == 16)) then 0 else n
  {
    hide FatLength, Recount, TooMany, Estimate;
  }

  /** The figures of one pass of the doubling loop. */
  datatype Trial = Trial(clust12: nat, fatlength12: nat, clust16: nat, fatlength16: nat, clust32: nat, fatlength32: nat) {
    ghost predicate Of(c: Config, k: nat) {
      && k > 0
      && clust12 == c.Granted(F12, k) && fatlength12 == FatLength(F12, c.FatData(), k)
      && clust16 == c.Granted(F16, k) && fatlength16 == FatLength(F16, c.FatData(), k)
      && clust32 == c.Granted(F32, k) && fatlength32 == FatLength(F32, c.FatData(), k)
    }
  }

  class DosFormatter {
    var blocks: int
    var sizeFat: nat
    var sizeFatByUser: bool
    var clusterSize: nat
    var sectorsPerCluster: nat
    var rootDirEntries: nat
    var reservedSectors: nat
    var lowMem: bool
    var media: byte
    var clusterCount: nat
    var fatLength: nat
    var startDataSector: int
    var fat: array<byte>

    constructor (c: Config, lowMem: bool, media: byte)
      ensures Settings() == c && this.lowMem == lowMem && this.media == media
    {
      blocks, sizeFat, sizeFatByUser := c.blocks, c.sizeFat, c.sizeFatByUser;
      clusterSize, sectorsPerCluster := c.clusterSize, c.sectorsPerCluster;
      rootDirEntries, reservedSectors := c.rootDirEntries, c.reservedSectors;
      this.lowMem, this.media := lowMem, media;
      clusterCount, fatLength, startDataSector, fat := 0, 0, 0, new byte[0];
    }

    ghost function Settings(): Config
      reads this
    {
      Config(blocks, sizeFat, sizeFatByUser, clusterSize, sectorsPerCluster, rootDirEntries, reservedSectors)
    }

    // Each pass of the doubling loop tries the three widths in turn.

    static method TryFat12(fatdata: nat, k: nat) returns (clust: nat, fatlength: nat)
      requires k > 0
      ensures fatlength == FatLength(F12, fatdata, k)
      ensures clust == if TooMany(F12, fatlength, Recount(fatdata, fatlength, k)) then 0 else Recount(fatdata, fatlength, k)
    {
      hide CeilDiv, U32, Quotient;
      clust := U32(Quotient(2 * (fatdata * SECTOR + NR_FATS * 3), 2 * (k * SECTOR) + NR_FATS * 3));
      fatlength := U32(CeilDiv(U32((clust + 2) * 3 + 1) / 2));
      assert fatlength == FatLength(F12, fatdata, k);
      hide FatLength, Estimate;
      clust := U32(fatdata - U32(NR_FATS * fatlength)) / k;
      assert clust == Recount(fatdata, fatlength, k);
      hide Recount;
      var maxclust := U32(fatlength * 2 * SECTOR) / 3;
      if maxclust > MAX_CLUST_12 { maxclust := MAX_CLUST_12; }
      assert maxclust == MaxClusters(F12, fatlength);
      hide MaxClusters;
      if clust > U32(maxclust - 2) { clust := 0; }
    }

    static method TryFat16(fatdata: nat, k: nat, forced: bool) returns (clust: nat, fatlength: nat)
      requires k > 0
      ensures fatlength == FatLength(F16, fatdata, k)
      ensures var n := Recount(fatdata, fatlength, k);
              clust == if TooMany(F16, fatlength, n) || (n < FAT12_THRESHOLD && !forced) then 0 else n
    {
      hide CeilDiv, U32, Quotient;
      clust := U32(Quotient(fatdata * SECTOR + NR_FATS * 4, k * SECTOR + NR_FATS * 2));
      fatlength := U32(CeilDiv(U32((clust + 2) * 2)));
      assert fatlength == FatLength(F16, fatdata, k);
      hide FatLength, Estimate;
      clust := U32(fatdata - U32(NR_FATS * fatlength)) / k;
      assert clust == Recount(fatdata, fatlength, k);
      hide Recount;
      var maxclust := U32(fatlength * SECTOR) / 2;
      if maxclust > MAX_CLUST_16 { maxclust := MAX_CLUST_16; }
      assert maxclust == MaxClusters(F16, fatlength);
      hide MaxClusters;
      if clust > U32(maxclust - 2) { clust := 0; }
      if clust < FAT12_THRESHOLD && !forced { clust := 0; }
    }

    static method TryFat32(fatdata: nat, k: nat) returns (clust: nat, fatlength: nat)
      requires k > 0
      ensures fatlength == FatLength(F32, fatdata, k)
      ensures clust == if TooMany(F32, fatlength, Recount(fatdata, fatlength, k)) then 0 else Recount(fatdata, fatlength, k)
    {
      hide CeilDiv, U32, Quotient;
      clust := U32(Quotient(fatdata * SECTOR + NR_FATS * 8, k * SECTOR + NR_FATS * 4));
      fatlength := U32(CeilDiv(U32((clust + 2) * 4)));
      assert fatlength == FatLength(F32, fatdata, k);
      hide FatLength, Estimate;
      clust := U32(fatdata - U32(NR_FATS * fatlength)) / k;
      assert clust == Recount(fatdata, fatlength, k);
      hide Recount;
      var maxclust := U32(fatlength * SECTOR) / 4;
      if maxclust > MAX_CLUST_32 { maxclust := MAX_CLUST_32; }
      assert maxclust == MaxClusters(F32, fatlength);
      hide MaxClusters;
      if clust > maxclust { clust := 0; }
    }

    /** One pass of the doubling loop of `setup_tables`; true when its figures are taken. */
    method OnePass(fatdata: nat, ghost c: Config) returns (trial: Trial, fits: bool)
      requires c.Valid() && fatdata == c.FatData() && clusterSize > 0
      requires sizeFat == c.sizeFat && sizeFatByUser == c.sizeFatByUser
      ensures trial.Of(c, clusterSize) && fits == c.Accepts(clusterSize)
    {
      hide Config.Granted, FatLength, Recount, TooMany, Estimate;
      var clust12, fatlength12 := TryFat12(fatdata, clusterSize);
      var clust16, fatlength16 := TryFat16(fatdata, clusterSize, sizeFatByUser && sizeFat == 16);
      var clust32, fatlength32 := TryFat32(fatdata, clusterSize);
      GrantedByTrial(c, clusterSize);
      trial := Trial(clust12, fatlength12, clust16, fatlength16, clust32, fatlength32);
      fits := (clust12 != 0 && sizeFat in {0, 12}) || (clust16 != 0 && sizeFat in {0, 16}) || (clust32 != 0 && sizeFat == 32);
    }

    /** The doubling loop; `last` is the size of its last pass, whose figures are returned. */
    method DoubleUntilFit(fatdata: nat, maxclustsize: nat, ghost c: Config) returns (trial: Trial, ghost last: nat)
      requires c.Valid() && fatdata == c.FatData() && maxclustsize <= MAX_CLUSTER_SIZE
      requires sizeFat == c.sizeFat && sizeFatByUser == c.sizeFatByUser
      requires 0 < clusterSize <= MAX_CLUSTER_SIZE
      modifies this`clusterSize
      ensures last == LastTried(k => k > 0 && c.Accepts(k), old(clusterSize), maxclustsize)
      ensures c.Accepts(last) ==> clusterSize == last
      ensures trial.Of(c, last)
    {
      hide Config.Accepts, Trial.Of, LastTried;
      ghost var accepts := k => k > 0 && c.Accepts(k);
      last := clusterSize;
      var fits;
      trial, fits := OnePass(fatdata, c);
      while !fits
        invariant 0 < last <= MAX_CLUSTER_SIZE && clusterSize == last && trial.Of(c, last) && fits == c.Accepts(last)
        invariant LastTried(accepts, old(clusterSize), maxclustsize) == LastTried(accepts, last, maxclustsize)
        decreases MAX_CLUSTER_SIZE - clusterSize
      {
        assert !accepts(last);
        LastTriedStep(accepts, last, maxclustsize);
        clusterSize := clusterSize * 2 % 256;
        if clusterSize == 0 || clusterSize > maxclustsize {
          return;
        }
        last := clusterSize;
        trial, fits := OnePass(fatdata, c);
      }
      assert accepts(last);
      LastTriedStep(accepts, last, maxclustsize);
    }

    /** From the last figures to the stored layout. */
    method Settle(trial: Trial, ghost c: Config, ghost k: nat) returns (death: Option<Death>)
      requires c.Valid() && trial.Of(c, k)
      requires sizeFat == c.sizeFat && sizeFatByUser == c.sizeFatByUser && blocks == c.blocks && reservedSectors == c.Reserved()
      requires c.Accepts(k) ==> clusterSize == k
      modifies this`sizeFat, this`clusterCount, this`fatLength, this`startDataSector
      ensures Stored(Settled(c, k), death)
    {
      hide Config.Granted, FatLength, Recount, TooMany, Estimate, TruncDiv;
      if sizeFat == 0 { sizeFat := if trial.clust16 > trial.clust12 then 16 else 12; }
      match sizeFat {
        case 12 => clusterCount, fatLength := trial.clust12, trial.fatlength12;
        case 16 =>
          if trial.clust16 < FAT12_THRESHOLD && !sizeFatByUser { return Some(UnfortunateSize); }
          clusterCount, fatLength := trial.clust16, trial.fatlength16;
        case 32 => clusterCount, fatLength := trial.clust32, trial.fatlength32;
        case _ => return Some(BadFatSize);
      }
      if clusterCount == 0 { return Some(NoWidthFits); }
      startDataSector := I32(U32(reservedSectors + U32(NR_FATS * fatLength)));
      if blocks < TruncDiv(I32(startDataSector + 1), 2) + 32 { return Some(TooFewBlocks); }
      GrantedMeansAccepted(c, k);
      return None;
    }

    /** The fields hold plan `p`, or `death` says why there is none. */
    ghost predicate Stored(p: Plan, death: Option<Death>)
      reads this
    {
      match p
      case Died(why) => death == Some(why)
      case Planned(w, k, clusters, fl, start) =>
        && death == None && clusterSize == k && clusterCount == clusters
        && fatLength == fl && startDataSector == start && sizeFat == Bits(w)
    }

    /** The non-Atari branch of `setup_tables`, up to the tables themselves; `Some` says why it stopped. */
    method SetupTables() returns (death: Option<Death>)
      requires Settings().Valid()
      modifies this
      ensures Stored(Outcome(old(Settings())), death)
      ensures blocks == old(blocks) && lowMem == old(lowMem) && media == old(media)
    {
      hide Settled, Config.Granted, FatLength, Estimate, LastTried, Config.Accepts;
      ghost var c := Settings();
      if sizeFat == 32 { rootDirEntries := 0; }
      if reservedSectors == 0 {
        reservedSectors := if sizeFat == 32 then 32 else 1;
      } else if sizeFat == 32 && reservedSectors < 2 {
        return Some(TooFewReserved);
      }
      var numSectors := U32(2 * blocks);
      var fatdata := U32(numSectors - (rootDirEntries * 32 + SECTOR - 1) / SECTOR - reservedSectors);
      var maxclustsize := if sectorsPerCluster != 0 then sectorsPerCluster else MAX_CLUSTER_SIZE;
      if sectorsPerCluster != 0 { clusterSize := sectorsPerCluster; }
      var trial, last := DoubleUntilFit(fatdata, maxclustsize, c);
      death := Settle(trial, c, last);
    }

    /** `mark_FAT_cluster` */
    method MarkFatCluster(w: Width, cluster: nat, value: nat)
      requires Holds(w, fat.Length, cluster)
      modifies fat
      ensures fat[..] == Marked(w, old(fat[..]), cluster, value)
    {
      var v := Cut(w, value);
      match w {
        case F12 =>
          var i := FirstByte(cluster);
          if cluster % 2 == 0 {
            fat[i] := v % 0x100;
            fat[i + 1] := EvenShare(fat[i + 1], v);
          } else {
            fat[i] := OddShare(fat[i], v);
            fat[i + 1] := v / 16;
          }
        case F16 =>
          fat[2 * cluster] := v % 0x100;
          fat[2 * cluster + 1] := v / 0x100;
        case F32 =>
          fat[4 * cluster] := v % 0x100;
          fat[4 * cluster + 1] := v / 0x100 % 0x100;
          fat[4 * cluster + 2] := v / 0x1_0000 % 0x100;
          fat[4 * cluster + 3] := v / 0x100_0000;
      }
    }

    /** The last part of `setup_tables`: with little memory only the first sector of the table is kept. */
    method MakeFat(w: Width)
      requires lowMem || fatLength >= 1
      modifies this`fat
      ensures fresh(fat) && fat[..] == FreshTable(w, media, if lowMem then SECTOR else fatLength * SECTOR)
    {
      var length := if lowMem then SECTOR else fatLength * SECTOR;
      fat := new byte[length](_ => 0);
      assert fat[..] == Zeros(length);
      MarkFatCluster(w, 0, ALL_ONES);
      MarkFatCluster(w, 1, ALL_ONES);
      fat[0] := media;
      if w == F32 {
        MarkFatCluster(w, 2, FAT_EOF);
      }
    }

    /** The FAT part of `write_tables`. */
    method WriteFats() returns (written: seq<byte>)
      requires fat.Length == if lowMem then SECTOR else fatLength * SECTOR
      ensures written == Copies(if lowMem then fat[..] + Zeros((AtLeastOne(fatLength) - 1) * SECTOR) else fat[..], NR_FATS)
    {
      written := [];
      var x := 0;
      var zeroFat := Zeros(SECTOR);
      ghost var image := if lowMem then fat[..] + Zeros((AtLeastOne(fatLength) - 1) * SECTOR) else fat[..];
      while x < NR_FATS
        invariant 0 <= x <= NR_FATS
        invariant written == Copies(image, x)
      {
        ghost var before := written;
        written := written + fat[..];
        if lowMem {
          var fatno := 1;
          while fatno < fatLength
            invariant 1 <= fatno <= AtLeastOne(fatLength)
            invariant written == before + (fat[..] + Zeros((fatno - 1) * SECTOR))
          {
            written := written + zeroFat;
            assert Zeros((fatno - 1) * SECTOR) + zeroFat == Zeros(fatno * SECTOR);
            fatno := fatno + 1;
          }
        }
        x := x + 1;
      }
    }
  }

  // ----- what reaches the device -----

  /** The first sector followed by zero sectors is the table that would have been built in full. */
  lemma LowMemoryTableIsTheTable(w: Width, media: byte, fl: nat)
    requires fl >= 1
    ensures FreshTable(w, media, SECTOR) + Zeros((fl - 1) * SECTOR) == FreshTable(w, media, fl * SECTOR)
  {
    var rest := Zeros((fl - 1) * SECTOR);
    assert Zeros(SECTOR) + rest == Zeros(fl * SECTOR);
    MarkedInFront(w, Zeros(SECTOR), rest, 0, ALL_ONES);
    var t := Marked(w, Zeros(SECTOR), 0, ALL_ONES);
    MarkedInFront(w, t, rest, 1, ALL_ONES);
    var u := Marked(w, t, 1, ALL_ONES)[0 := media];
    assert Marked(w, t + rest, 1, ALL_ONES)[0 := media] == u + rest;
    MarkedInFront(w, u, rest, 2, FAT_EOF);
  }

  lemma MarkedInFront(w: Width, t: seq<byte>, rest: seq<byte>, k: nat, value: nat)
    requires Holds(w, |t|, k)
    ensures Holds(w, |t + rest|, k) && Marked(w, t + rest, k, value) == Marked(w, t, k, value) + rest
  {
    hide EvenShare, OddShare;
  }

  function AllOnes(w: Width): nat { match w case F12 => 0xFFF case F16 => 0xFFFF case F32 => 0x0FFF_FFFF }

  /** In a fresh table every data cluster is free, but for the root directory's own on FAT32. */
  lemma FreshTableEntries(w: Width, media: byte, length: nat, k: nat)
    requires length >= SECTOR && Holds(w, length, k) && k > 0
    ensures Entry(w, FreshTable(w, media, length), k)
         == if k == 1 then AllOnes(w) else if k == 2 && w == F32 then 0x0FFF_FFF8 else 0
  {
    hide Marked, Entry;
    var t := Reserved(w, length);
    ReservedEntries(w, length, k);
    FirstByteIsEntryZero(w, t, media, k);
    if w == F32 {
      MarkSetsOneEntry(w, t[0 := media], 2, FAT_EOF, k);
    }
  }

  /** The first entry holds the media byte, and ones above it. */
  lemma FreshTableMedia(w: Width, media: byte, length: nat)
    requires length >= SECTOR
    ensures Holds(w, length, 0) && Entry(w, FreshTable(w, media, length), 0) == AllOnes(w) - 0xFF + media
  {
    hide Marked, Entry;
    assert Holds(w, length, 0) && Holds(w, length, 1) && Holds(w, length, 2);
    var t := Reserved(w, length);
    MarkedTwice(w, Zeros(length), 0, 1, ALL_ONES, 0);
    LowByteOfEntryZero(w, t, media);
    if w == F32 {
      MarkSetsOneEntry(w, t[0 := media], 2, FAT_EOF, 0);
    }
  }

  lemma LowByteOfEntryZero(w: Width, t: seq<byte>, b: byte)
    requires Holds(w, |t|, 0) && Entry(w, t, 0) == Cut(w, ALL_ONES)
    ensures Entry(w, t[0 := b], 0) == Entry(w, t, 0) - 0xFF + b
  {
    FirstByteIsLow(w, t);
    FirstByteIsLow(w, t[0 := b]);
    RestOfEntryZero(w, t, b);
    hide Entry;
  }

  lemma FirstByteIsLow(w: Width, t: seq<byte>)
    requires Holds(w, |t|, 0)
    ensures Entry(w, t, 0) % 0x100 == t[0]
  {
    assert FirstByte(0) == 0;
  }

  lemma RestOfEntryZero(w: Width, t: seq<byte>, b: byte)
    requires Holds(w, |t|, 0)
    ensures Entry(w, t[0 := b], 0) - b == Entry(w, t, 0) - t[0]
  {
    assert FirstByte(0) == 0;
  }

  ghost function Reserved(w: Width, length: nat): (t: seq<byte>)
    requires length >= SECTOR
    ensures |t| == length
  {
    Marked(w, Marked(w, Zeros(length), 0, ALL_ONES), 1, ALL_ONES)
  }

  lemma ReservedEntries(w: Width, length: nat, k: nat)
    requires length >= SECTOR && Holds(w, length, k) && k > 0
    ensures Entry(w, Reserved(w, length), k) == if k == 1 then Cut(w, ALL_ONES) else 0
  {
    assert Holds(w, length, 0) && Holds(w, length, 1);
    hide Marked, Entry, Holds, Cut, Zeros;
    ZeroEntry(w, length, k);
    MarkedTwice(w, Zeros(length), 0, 1, ALL_ONES, k);
  }

  lemma MarkedTwice(w: Width, t: seq<byte>, a: nat, b: nat, value: nat, k: nat)
    requires Holds(w, |t|, a) && Holds(w, |t|, b) && Holds(w, |t|, k)
    ensures Entry(w, Marked(w, Marked(w, t, a, value), b, value), k)
         == if k == a || k == b then Cut(w, value) else Entry(w, t, k)
  {
    hide Marked, Entry, Holds;
    MarkSetsOneEntry(w, t, a, value, k);
    MarkSetsOneEntry(w, Marked(w, t, a, value), b, value, k);
  }

  lemma ZeroEntry(w: Width, length: nat, k: nat)
    requires Holds(w, length, k)
    ensures Entry(w, Zeros(length), k) == 0
  {
  }

  lemma FirstByteIsEntryZero(w: Width, t: seq<byte>, b: byte, k: nat)
    requires Holds(w, |t|, k) && k > 0
    ensures Entry(w, t[0 := b], k) == Entry(w, t, k)
  {
  }

  /** The device holds the same FATs whether or not memory was short, and they are two whole fresh tables. */
  method WriteFreshFats(formatter: DosFormatter, w: Width) returns (written: seq<byte>)
    requires formatter.lowMem || formatter.fatLength >= 1
    modifies formatter`fat
    ensures written == Copies(FreshTable(w, formatter.media, AtLeastOne(formatter.fatLength) * SECTOR), NR_FATS)
  {
    formatter.MakeFat(w);
    LowMemoryTableIsTheTable(w, formatter.media, AtLeastOne(formatter.fatLength));
    written := formatter.WriteFats();
  }

  // ----- the size of the device -----

  /** `valid_offset` on a device of `size` bytes. */
  predicate ValidOffset(size: nat, offset: nat) { offset < size }

  /** `count_blocks`: doubling until an offset is invalid, then bisection; the quotient is returned as an `int`. */
  method CountBlocks(size: nat) returns (blocks: int)
    ensures blocks == I32(size / 1024)
  {
    var low: nat, high: nat := 0, 1;
    while ValidOffset(size, high)
      invariant low < high && (low == 0 || ValidOffset(size, low)) && high <= 2 * size + 1
      decreases 2 * size + 1 - high
    {
      low := high;
      high := high * 2;
    }
    while low < high - 1
      invariant low < high && (low == 0 || ValidOffset(size, low)) && !ValidOffset(size, high)
    {
      var mid := (low + high) / 2;
      if ValidOffset(size, mid) { low := mid; } else { high := mid; }
    }
    blocks := I32((low + 1) / 1024);
  }
}
