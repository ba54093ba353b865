/**
 * Sizing of a FAT file system: the non-Atari half of `setup_tables`, with the
 * 32-bit arithmetic it runs in, and the parameter choice in front of it.
 */
module FatLayout {
  import opened MachineInt

  const MAX_CLUST_12 := 4080
  const MAX_CLUST_16 := 65520
  const MAX_CLUST_32 := 0xFFF_FFF0
  const FAT12_THRESHOLD := 4078
  const SECTOR := 512
  const NR_FATS := 2
  const MAX_CLUSTER_SIZE := 128

  datatype Width = F12 | F16 | F32

  // ----- one width, as unbounded arithmetic -----

  function Quotient(a: nat, b: nat): (q: nat)
    requires b > 0
    ensures q * b <= a < (q + 1) * b
  {
    assert a == (a / b) * b + a % b;
    a / b
  }

  /** First estimate of the cluster count; `fs` and `ks` are bytes of FATs plus data, and bytes of a cluster. */
  function Estimate(w: Width, fs: nat, ks: nat, n: nat): nat
    requires ks > 0
  {
    match w
    case F12 => Quotient(2 * (fs + n * 3), 2 * ks + n * 3)
    case F16 => Quotient(fs + n * 4, ks + n * 2)
    case F32 => Quotient(fs + n * 8, ks + n * 4)
  }

  /** Bytes of a FAT with room for `c` clusters and the two reserved entries. */
  function TableBytes(w: Width, c: nat): nat {
    match w
    case F12 => ((c + 2) * 3 + 1) / 2
    case F16 => (c + 2) * 2
    case F32 => (c + 2) * 4
  }

  function Sectors(bytes: nat, s: nat): nat
    requires s > 0
  {
    Quotient(bytes + s - 1, s)
  }

  /** Entries that `fl` sectors of FAT can hold. */
  function EntryRoom(w: Width, fl: nat, s: nat): nat {
    match w
    case F12 => fl * 2 * s / 3
    case F16 => fl * s / 2
    case F32 => fl * s / 4
  }

  function Limit(w: Width): nat {
    match w case F12 => MAX_CLUST_12 case F16 => MAX_CLUST_16 case F32 => MAX_CLUST_32
  }

  lemma SectorsCover(bytes: nat, s: nat)
    requires s > 0
    ensures bytes <= Sectors(bytes, s) * s < bytes + s
  {
    Distribute(Sectors(bytes, s), 1, s);
  }

  lemma Distribute(a: int, b: int, m: int)
    ensures (a + b) * m == a * m + b * m
  {
  }

  lemma ProductMonotone(a: int, b: int, m: nat)
    requires a <= b
    ensures a * m <= b * m
  {
  }

  /** A FAT sized for `c` clusters holds `c + 2` entries. */
  lemma EntriesFit(w: Width, c: nat, s: nat)
    requires s > 0
    ensures c + 2 <= EntryRoom(w, Sectors(TableBytes(w, c), s), s)
  {
    var bytes := TableBytes(w, c);
    var fl := Sectors(bytes, s);
    SectorsCover(bytes, s);
    var room := fl * s;
    assert fl * 2 * s == 2 * room;
    assert EntryRoom(w, fl, s) == match w case F12 => 2 * room / 3 case F16 => room / 2 case F32 => room / 4;
    hide Sectors, EntryRoom;
  }

  /** The estimate divides by `u` clusters plus their share `v` of the FATs, after granting a surplus `x`. */
  lemma QuotientIsGenerous(u: nat, fs: nat, ks: nat, v: nat, x: nat, c: nat, need: nat)
    requires u > 0
    requires u * fs + x < (c + 1) * (u * ks + v)
    requires (c + 1) * v <= x + u * need
    ensures fs < (c + 1) * ks + need
  {
    assert (c + 1) * (u * ks + v) == u * ((c + 1) * ks) + (c + 1) * v;
    if fs >= (c + 1) * ks + need {
      ProductMonotone((c + 1) * ks + need, fs, u);
      assert false;
    }
  }

  lemma ShareOfTable(e: nat, u: nat, n: nat, c: nat, bytes: nat)
    requires e * (c + 1) <= u * bytes
    ensures (c + 1) * (n * e) <= u * (n * bytes)
  {
    ProductMonotone(e * (c + 1), u * bytes, n);
    assert e * (c + 1) * n == (c + 1) * (n * e);
    assert u * bytes * n == u * (n * bytes);
  }

  /**
   * The quotient leaves less than one cluster's worth of bytes beside `n` FATs
   * sized for it: with one cluster more the data area would no longer fit.
   */
  lemma EstimateIsGenerous(w: Width, fs: nat, ks: nat, n: nat, c: nat)
    requires ks > 0 && c == Estimate(w, fs, ks, n)
    ensures fs < (c + 1) * ks + n * TableBytes(w, c)
  {
    var need := n * TableBytes(w, c);
    match w {
      case F12 => QuotientIsGenerous(2, fs, ks, n * 3, 2 * (n * 3), c, need) by { ShareOfTable(3, 2, n, c, TableBytes(w, c)); }
      case F16 => QuotientIsGenerous(1, fs, ks, n * 2, n * 4, c, need) by { ShareOfTable(2, 1, n, c, TableBytes(w, c)); }
      case F32 => QuotientIsGenerous(1, fs, ks, n * 4, n * 8, c, need) by { ShareOfTable(4, 1, n, c, TableBytes(w, c)); }
    }
  }

  /** Whole clusters left beside FATs of at least `need` bytes cannot outnumber an estimate as generous as that. */
  lemma RecountBelow(fatdata: nat, s: nat, k: nat, n: nat, c: nat, need: nat, fl: nat)
    requires s > 0 && k > 0 && n * fl <= fatdata
    requires need <= fl * s
    requires fatdata * s < (c + 1) * (k * s) + n * need
    ensures (fatdata - n * fl) / k <= c
  {
    var data := fatdata - n * fl;
    var recount := data / k;
    assert recount * k <= data by { assert Quotient(data, k) == recount; }
    Distribute(data, n * fl, s);
    ProductMonotone(need, fl * s, n);
    assert (c + 1) * k * s == (c + 1) * (k * s) && n * fl * s == fl * s * n;
    if recount > c {
      ProductMonotone(c + 1, recount, k);
      ProductMonotone((c + 1) * k, data, s);
      assert false;
    }
  }

  /**
   * The recount after the FATs are laid down never exceeds the estimate the
   * FATs were sized for, so every cluster, and the two reserved entries, has a
   * place in the table. All widths, all sizes, any number of FATs.
   */
  lemma RecountHasEntries(w: Width, fatdata: nat, s: nat, k: nat, n: nat, c: nat, fl: nat)
    requires s > 0 && k > 0 && k * s > 0
    requires c == Estimate(w, fatdata * s, k * s, n)
    requires fl == Sectors(TableBytes(w, c), s)
    requires n * fl <= fatdata
    ensures (fatdata - n * fl) / k <= c
    ensures (fatdata - n * fl) / k + 2 <= EntryRoom(w, fl, s)
  {
    SectorsCover(TableBytes(w, c), s);
    EntriesFit(w, c, s);
    EstimateIsGenerous(w, fatdata * s, k * s, n, c);
    RecountBelow(fatdata, s, k, n, c, TableBytes(w, c), fl);
  }

  // ----- the same, in the 32-bit arithmetic of the program (512-byte sectors, two FATs) -----

  /** `cdiv`: the sum may wrap, and the quotient is truncated. */
  function CeilDiv(a: int): int {
    TruncDiv(I32(I32(a) + SECTOR - 1), SECTOR)
  }

  function MachineBytes(w: Width, c: nat): nat {
    match w
    case F12 => U32((c + 2) * 3 + 1) / 2
    case F16 => U32((c + 2) * 2)
    case F32 => U32((c + 2) * 4)
  }

  /** Sectors of one FAT, as stored in an `unsigned`. */
  function FatLength(w: Width, fatdata: nat, k: nat): nat
    requires k > 0
  {
    U32(CeilDiv(MachineBytes(w, U32(Estimate(w, fatdata * SECTOR, k * SECTOR, NR_FATS)))))
  }

  function Recount(fatdata: nat, fl: nat, k: nat): nat
    requires k > 0
  {
    U32(fatdata - U32(NR_FATS * fl)) / k
  }

  function MaxClusters(w: Width, fl: nat): nat {
    var room := match w
      case F12 => U32(fl * 2 * SECTOR) / 3
      case F16 => U32(fl * SECTOR) / 2
      case F32 => U32(fl * SECTOR) / 4;
    if room > Limit(w) then Limit(w) else room
  }

  /** Is the recount refused? FAT32 forgets the two reserved entries here. */
  predicate TooMany(w: Width, fl: nat, clusters: nat) {
    clusters > if w == F32 then MaxClusters(w, fl) else U32(MaxClusters(w, fl) - 2)
  }

  datatype Config = Config(
    blocks: int,             // 1 KiB blocks on the device
    sizeFat: nat,            // 0: choose 12 or 16
    sizeFatByUser: bool,
    clusterSize: nat,        // first guess, a byte
    sectorsPerCluster: nat,  // 0: not given
    rootDirEntries: nat,
    reservedSectors: nat)
  {
    predicate Valid() {
      && -TWO31 <= blocks < TWO31
      && clusterSize <= MAX_CLUSTER_SIZE && sectorsPerCluster <= MAX_CLUSTER_SIZE
      && (sectorsPerCluster == 0 ==> clusterSize > 0)
      && rootDirEntries <= 1024
      && reservedSectors <= 0xFFFF
    }

    function NumSectors(): nat { U32(2 * blocks) }

    function RootEntries(): nat { if sizeFat == 32 then 0 else rootDirEntries }

    function RootSectors(): nat { (RootEntries() * 32 + SECTOR - 1) / SECTOR }

    function Reserved(): nat {
      if reservedSectors == 0 then (if sizeFat == 32 then 32 else 1) else reservedSectors
    }

    /** Sectors for the FATs and the data area; wraps when the device is smaller than what precedes them. */
    function FatData(): nat { U32(NumSectors() - RootSectors() - Reserved()) }

    function FirstGuess(): nat { if sectorsPerCluster != 0 then sectorsPerCluster else clusterSize }

    function MaxClusterSize(): nat { if sectorsPerCluster != 0 then sectorsPerCluster else MAX_CLUSTER_SIZE }

    /** Clusters that one pass of the doubling loop grants to width `w`; zero means refused. */
    function Granted(w: Width, k: nat): nat
      requires k > 0
    {
      var fl := FatLength(w, FatData(), k);
      var clusters := Recount(FatData(), fl, k);
      if TooMany(w, fl, clusters) then 0
      else if w == F16 && clusters < FAT12_THRESHOLD && !(sizeFatByUser && sizeFat == 16) then 0
      else clusters
    }

    /** The test that leaves the doubling loop. */
    predicate Accepts(k: nat)
      requires k > 0
    {
      || (Granted(F12, k) != 0 && sizeFat in {0, 12})
      || (Granted(F16, k) != 0 && sizeFat in {0, 16})
      || (Granted(F32, k) != 0 && sizeFat == 32)
    }

    /** The width that the last pass settles on. */
    function Chosen(k: nat): Width
      requires k > 0
    {
      if sizeFat == 32 then F32
      else if sizeFat == 16 || (sizeFat == 0 && Granted(F16, k) > Granted(F12, k)) then F16
      else F12
    }
  }

  /** The last size tried by the doubling loop from `k` on; the size is a byte, so doubling may reach zero. */
  function LastTried(accepts: nat -> bool, k: nat, max: nat): (last: nat)
    requires 0 < k <= MAX_CLUSTER_SIZE && max <= MAX_CLUSTER_SIZE
    ensures k <= last <= MAX_CLUSTER_SIZE
    decreases MAX_CLUSTER_SIZE - k
  {
    var next := k * 2 % 256;
    if accepts(k) || next == 0 || next > max then k else LastTried(accepts, next, max)
  }

  lemma LastTriedStep(accepts: nat -> bool, k: nat, max: nat)
    requires 0 < k <= MAX_CLUSTER_SIZE && max <= MAX_CLUSTER_SIZE
    ensures var next := k * 2 % 256;
            if accepts(k) || next == 0 || next > max then LastTried(accepts, k, max) == k
            else k < next <= max && LastTried(accepts, k, max) == LastTried(accepts, next, max)
  {
  }

  datatype Death = TooFewReserved | BadFatSize | UnfortunateSize | NoWidthFits | TooFewBlocks

  datatype Plan =
    | Died(death: Death)
    | Planned(width: Width, clusterSize: nat, clusters: nat, fatLength: nat, startDataSector: int)

  /** What follows a doubling loop whose last pass was for clusters of `k` sectors. */
  function Settled(c: Config, k: nat): Plan
    requires c.Valid() && k > 0
  {
    if c.sizeFat !in {0, 12, 16, 32} then Died(BadFatSize)
    else
      var w := c.Chosen(k);
      var fl := FatLength(w, c.FatData(), k);
      var start := I32(U32(c.Reserved() + U32(NR_FATS * fl)));
      if w == F16 && c.Granted(w, k) < FAT12_THRESHOLD && !c.sizeFatByUser then Died(UnfortunateSize)
      else if c.Granted(w, k) == 0 then Died(NoWidthFits)
      else if c.blocks < TruncDiv(I32(start + 1), 2) + 32 then Died(TooFewBlocks)
      else Planned(w, k, c.Granted(w, k), fl, start)
  }

  /** What `setup_tables` settles on, or why it stops. */
  function Outcome(c: Config): Plan
    requires c.Valid()
  {
    if c.sizeFat == 32 && 0 < c.reservedSectors < 2 then Died(TooFewReserved)
    else Settled(c, LastTried(k => k > 0 && c.Accepts(k), c.FirstGuess(), c.MaxClusterSize()))
  }

  // ----- what a run that does not die has established -----

  /** The doubling loop was left by its test, so the stored cluster size is the one the count belongs to. */
  lemma GrantedMeansAccepted(c: Config, k: nat)
    requires c.Valid() && k > 0 && c.sizeFat in {0, 12, 16, 32}
    ensures c.Granted(c.Chosen(k), k) != 0 <==> c.Accepts(k)
  {
    hide FatLength, Recount, TooMany, Config.Granted;
  }

  lemma ShareBound(c: nat, m: nat, k: nat, v: nat, f: nat, x: nat)
    requires c * (m * k + v) <= m * f + x && x < m
    ensures c * k <= f
  {
    assert c * (m * k + v) == m * (c * k) + c * v;
    if c * k > f {
      ProductMonotone(f + 1, c * k, m);
      Distribute(f, 1, m);
      assert false;
    }
  }

  lemma EstimateBound(w: Width, fatdata: nat, k: nat)
    requires k > 0
    ensures Estimate(w, fatdata * SECTOR, k * SECTOR, NR_FATS) * k <= fatdata
  {
    var c := Estimate(w, fatdata * SECTOR, k * SECTOR, NR_FATS);
    match w {
      case F12 => ShareBound(c, 2 * SECTOR, k, NR_FATS * 3, fatdata, 2 * NR_FATS * 3);
      case F16 => ShareBound(c, SECTOR, k, NR_FATS * 2, fatdata, NR_FATS * 4);
      case F32 => ShareBound(c, SECTOR, k, NR_FATS * 4, fatdata, NR_FATS * 8);
    }
  }

  /** Taking up to `d` sectors from `est` clusters' worth costs at most `d + 1` clusters. */
  lemma QuotientAtLeast(g: nat, k: nat, est: nat, d: nat)
    requires k > 0 && est * k <= g + d
    ensures g / k + d + 1 >= est
  {
    var q := g / k;
    assert g < (q + 1) * k by { assert Quotient(g, k) == q; }
    ProductMonotone(1, k, d);
    if q + d + 1 < est {
      ProductMonotone(q + 1 + d, est, k);
      Distribute(q + 1, d, k);
      assert false;
    }
  }

  lemma CeilDivIsSmall(a: int)
    ensures -0x40_0000 <= CeilDiv(a) < 0x40_0000
    ensures 0 < I32(a) <= TWO31 - SECTOR ==> CeilDiv(a) == Sectors(I32(a), SECTOR) > 0
    ensures 0 <= a < TWO32 && (TWO31 - SECTOR < a < TWO32 - 1024) ==> CeilDiv(a) < 0
  {
  }

  lemma DistanceDoesNotWrap(f: nat, y: int)
    requires 0x80_0000 <= f < TWO31 && -0x40_0000 <= y <= 0x40_0000
    ensures U32(f - U32(NR_FATS * U32(y))) == f - 2 * y
  {
  }

  lemma RoomIsTwo(w: Width, est: nat, y: int)
    requires w == F12 || w == F16
    requires y == CeilDiv(MachineBytes(w, est))
    requires w == F12 ==> est < TWO31 && est != 0x5555_5553
    requires w == F16 ==> 2 * (est + 2) < TWO32 - 1024
    ensures 2 <= MaxClusters(w, U32(y)) <= MAX_CLUST_16
  {
    var bytes := MachineBytes(w, est);
    if w == F12 {
      PackedBytes(est);
      RoomOfBytes(bytes, y);
    } else {
      CeilDivIsSmall(bytes);
      assert 0 < bytes < TWO32 - 1024;
      hide CeilDiv, MachineBytes, MaxClusters;
      if y > 0 { RoomOfSome(w, y); } else { RoomOfNegative(y); }
    }
  }

  /** One and a half bytes per entry wrap to nothing for a single estimate, and nowhere to the edge of `int`. */
  lemma PackedBytes(est: nat)
    requires est < TWO31
    ensures MachineBytes(F12, est) == 0 <==> est == 0x5555_5553
    ensures MachineBytes(F12, est) < TWO31
    ensures MachineBytes(F12, est) != TWO31 - SECTOR + 1
  {
    var t := 3 * (est + 2) + 1;
    assert U32(t) == if t < TWO32 then t else t - TWO32;
  }

  lemma RoomOfBytes(bytes: nat, y: int)
    requires 0 < bytes < TWO31 && bytes != TWO31 - SECTOR + 1 && y == CeilDiv(bytes)
    ensures 2 <= MaxClusters(F12, U32(y)) <= MAX_CLUST_16
  {
    if bytes <= TWO31 - SECTOR {
      CeilDivIsSmall(bytes);
      hide CeilDiv, MaxClusters;
      RoomOfSome(F12, y);
    } else {
      assert y == -0x3F_FFFF;
      assert U32(y) == TWO32 - 0x3F_FFFF;
      hide CeilDiv, U32;
      RoomAtEdge();
    }
  }

  lemma RoomAtEdge()
    ensures MaxClusters(F12, TWO32 - 0x3F_FFFF) == 341
  {
  }

  lemma RoomOfSome(w: Width, y: int)
    requires (w == F12 || w == F16) && 0 < y < 0x40_0000
    ensures 2 <= MaxClusters(w, U32(y)) <= MAX_CLUST_16
  {
  }

  lemma RoomOfNegative(y: int)
    requires -0x40_0000 <= y < 0
    ensures 2 <= MaxClusters(F16, U32(y)) <= MAX_CLUST_16
  {
  }

  /** An estimate of 0x1100_0000 clusters or more is always refused. */
  lemma HugeIsRefused(w: Width, f: nat, k: nat, est: nat, y: int)
    requires k > 0 && 0x1100_0000 <= est && est * k <= f < TWO31
    requires -0x40_0000 <= y <= 0x40_0000
    requires w != F32 ==> 2 <= MaxClusters(w, U32(y))
    ensures TooMany(w, U32(y), Recount(f, U32(y), k))
  {
    ProductMonotone(1, k, est);
    DistanceDoesNotWrap(f, y);
    QuotientAtLeast(f - 2 * y, k, est, 0x80_0000);
    MaxClustersAreFew(w, U32(y));
    hide U32, MaxClusters;
    assert Recount(f, U32(y), k) == (f - 2 * y) / k;
    FewAreTooMany(w, U32(y), Recount(f, U32(y), k));
  }

  lemma MaxClustersAreFew(w: Width, fl: nat)
    ensures MaxClusters(w, fl) <= if w == F32 then 0x1000_0000 else 0x1_0000
  {
  }

  lemma FewAreTooMany(w: Width, fl: nat, clusters: nat)
    requires clusters > 0x1000_0000 >= MaxClusters(w, fl) && (w != F32 ==> MaxClusters(w, fl) >= 2)
    ensures TooMany(w, fl, clusters)
  {
    hide MaxClusters;
  }

  /** Below 2^31 sectors a granted count was estimated without wrap-around, but for one FAT12 estimate. */
  lemma GrantedDoesNotWrap(w: Width, f: nat, k: nat, est: nat, y: int)
    requires k > 0 && est == FirstEstimate(w, f, k) && f < TWO31
    requires y == CeilDiv(MachineBytes(w, est))
    requires !TooMany(w, U32(y), Recount(f, U32(y), k))
    ensures est < 0x1100_0000 <==> !(w == F12 && k == 1 && est == 0x5555_5553)
  {
    if est >= 0x1100_0000 && !(w == F12 && k == 1 && est == 0x5555_5553) {
      EstimateBound(w, f, k);
      CeilDivIsSmall(MachineBytes(w, est));
      if w != F32 {
        EstimateFits(w, f, k, est);
        RoomIsTwo(w, est, y);
      }
      HugeIsRefused(w, f, k, est, y);
      assert false;
    }
  }

  function FirstEstimate(w: Width, f: nat, k: nat): nat
    requires k > 0
  {
    Estimate(w, f * SECTOR, k * SECTOR, NR_FATS)
  }

  lemma EstimateFits(w: Width, f: nat, k: nat, est: nat)
    requires k > 0 && est == Estimate(w, f * SECTOR, k * SECTOR, NR_FATS) && f < TWO31
    requires w == F12 || w == F16
    ensures w == F12 ==> est < TWO31 && (k >= 2 ==> est < 0x4000_0000)
    ensures w == F16 ==> 2 * (est + 2) < TWO32 - 1024
  {
    EstimateBound(w, f, k);
    if k >= 2 {
      ProductMonotone(2, k, est);
    } else if w == F16 {
      assert est * (SECTOR + 4) <= f * SECTOR + 8;
    }
  }

  lemma GrantedLayout(c: Config, w: Width, k: nat, fl: nat)
    requires c.Valid() && k > 0 && c.Granted(w, k) != 0 && FirstEstimate(w, c.FatData(), k) < 0x1100_0000
    requires fl == FatLength(w, c.FatData(), k) && NR_FATS * fl <= c.FatData()
    ensures NR_FATS * fl + c.Granted(w, k) * k <= c.FatData()
    ensures c.Granted(w, k) + 2 <= EntryRoom(w, fl, SECTOR)
  {
    GrantedFat(c, w, k);
    var f := c.FatData();
    assert c.Granted(w, k) == (f - NR_FATS * fl) / k == Quotient(f - NR_FATS * fl, k);
    RecountHasEntries(w, f, SECTOR, k, NR_FATS, FirstEstimate(w, f, k), fl);
  }

  /** The layout a plan describes, in sectors. */
  predicate LayoutFits(c: Config, p: Plan)
    requires p.Planned?
  {
    c.Reserved() + NR_FATS * p.fatLength + c.RootSectors() + p.clusters * p.clusterSize <= c.NumSectors()
  }

  /** A granted width has the FAT that was sized for its first estimate, if that was below 2^28 or so. */
  lemma GrantedFat(c: Config, w: Width, k: nat)
    requires c.Valid() && k > 0 && c.Granted(w, k) != 0 && FirstEstimate(w, c.FatData(), k) < 0x1100_0000
    ensures FatLength(w, c.FatData(), k) == Sectors(TableBytes(w, FirstEstimate(w, c.FatData(), k)), SECTOR)
    ensures FatLength(w, c.FatData(), k) < 0x40_0000
    ensures c.Granted(w, k) == Recount(c.FatData(), FatLength(w, c.FatData(), k), k) <= Limit(w)
  {
    hide TooMany, Estimate, Recount, CeilDiv, Sectors;
    var f, est := c.FatData(), FirstEstimate(w, c.FatData(), k);
    var y := CeilDiv(MachineBytes(w, est));
    assert FatLength(w, f, k) == U32(y);
    CeilDivIsSmall(MachineBytes(w, est));
    NotTooMany(w, est, U32(y), c.Granted(w, k));
  }

  lemma NotTooMany(w: Width, est: nat, fl: nat, clusters: nat)
    requires est < 0x1100_0000 && fl == Sectors(TableBytes(w, est), SECTOR)
    requires !TooMany(w, fl, clusters)
    ensures clusters <= Limit(w) && fl < 0x40_0000
  {
  }

  /** What a run that does not die has tested. */
  predicate Tested(c: Config, p: Plan)
    requires c.Valid() && p.Planned? && p.clusterSize > 0
  {
    && c.Accepts(p.clusterSize) && p.clusterSize >= c.FirstGuess()
    && p.clusters == c.Granted(p.width, p.clusterSize) != 0
    && p.fatLength == FatLength(p.width, c.FatData(), p.clusterSize)
    && p.startDataSector == I32(U32(c.Reserved() + U32(NR_FATS * p.fatLength)))
    && c.blocks >= TruncDiv(I32(p.startDataSector + 1), 2) + 32
  }

  /** The doubling loop was left by its own test, never by running out of cluster sizes. */
  lemma PlannedIsTested(c: Config)
    requires c.Valid() && Outcome(c).Planned?
    ensures Outcome(c).clusterSize > 0 && Tested(c, Outcome(c))
  {
    hide Estimate, FatLength, Recount, TooMany, LastTried, Config.Accepts, Config.Granted;
    GrantedMeansAccepted(c, Outcome(c).clusterSize);
  }

  /** "Too few blocks for viable file system" leaves room for what precedes the data area. */
  lemma EnoughBlocks(blocks: int, reserved: nat, fl: nat)
    requires -TWO31 <= blocks < TWO31
    requires reserved <= 0xFFFF && fl < 0x40_0000
    requires blocks >= TruncDiv(I32(I32(U32(reserved + U32(NR_FATS * fl))) + 1), 2) + 32
    ensures I32(U32(reserved + U32(NR_FATS * fl))) == reserved + NR_FATS * fl
    ensures reserved + NR_FATS * fl + 64 <= U32(2 * blocks)
  {
  }

  /**
   * A tested plan whose first estimate did not overflow: the count stored is for the cluster size
   * stored, every cluster has a FAT entry, and the parts of the volume fit beside each other.
   */
  lemma TestedVolumeIsSound(c: Config, p: Plan)
    requires c.Valid() && p.Planned? && p.clusterSize > 0 && Tested(c, p)
    requires FirstEstimate(p.width, c.FatData(), p.clusterSize) < 0x1100_0000
    requires c.Reserved() + c.RootSectors() <= c.NumSectors()
    ensures Sound(c, p)
    ensures p.startDataSector == c.Reserved() + NR_FATS * p.fatLength
  {
    hide Estimate, TableBytes, FatLength, Recount, TooMany, EntryRoom, Config.Accepts, Config.Granted;
    GrantedFat(c, p.width, p.clusterSize);
    EnoughBlocks(c.blocks, c.Reserved(), p.fatLength);
    GrantedLayout(c, p.width, p.clusterSize, p.fatLength);
  }

  /** The parts fit beside each other, and every cluster is one of the width's and has a FAT entry. */
  predicate Sound(c: Config, p: Plan)
    requires p.Planned?
  {
    && LayoutFits(c, p)
    && 0 < p.clusters <= Limit(p.width)
    && p.clusters + 2 <= EntryRoom(p.width, p.fatLength, SECTOR)
  }

  lemma HugeCount(w: Width, f: nat, k: nat, est: nat, y: nat)
    requires k > 0 && 0x1100_0000 <= est && est * k <= f < TWO32 && y <= 0x40_0000
    ensures Recount(f, U32(y), k) > Limit(w)
  {
    ProductMonotone(1, k, est);
    assert U32(f - U32(NR_FATS * U32(y))) == f - 2 * y;
    QuotientAtLeast(f - 2 * y, k, est, 0x80_0000);
  }

  lemma HugeFat(c: Config, p: Plan, y: int)
    requires p.Planned? && -0x40_0000 <= y < 0 && p.fatLength == U32(y)
    ensures !LayoutFits(c, p)
  {
    ProductMonotone(0, p.clusters, p.clusterSize);
  }

  lemma EstimateIsExact(w: Width, f: nat, k: nat)
    requires k > 0 && f < TWO32
    ensures var est := FirstEstimate(w, f, k);
            est * k <= f && est <= f && FatLength(w, f, k) == U32(CeilDiv(MachineBytes(w, est)))
  {
    EstimateBound(w, f, k);
    ProductMonotone(1, k, FirstEstimate(w, f, k));
    hide Estimate, CeilDiv, MachineBytes;
  }

  /** From an estimate of 2^28 clusters or so on, a tested plan has too many clusters or too large a FAT. */
  lemma HugeIsUnsound(c: Config, p: Plan)
    requires c.Valid() && p.Planned? && p.clusterSize > 0 && Tested(c, p)
    requires 0x1100_0000 <= FirstEstimate(p.width, c.FatData(), p.clusterSize)
    ensures !Sound(c, p)
  {
    var w, f, k := p.width, c.FatData(), p.clusterSize;
    GrantedIsRecount(c, w, k);
    hide FirstEstimate, FatLength, Config.Accepts, Config.Granted, Recount, EntryRoom, TooMany, MachineBytes, CeilDiv;
    EstimateIsExact(w, f, k);
    var est := FirstEstimate(w, f, k);
    var y := CeilDiv(MachineBytes(w, est));
    CeilDivIsSmall(MachineBytes(w, est));
    hide LayoutFits;
    if y >= 0 {
      HugeCount(w, f, k, est, y);
    } else {
      HugeFat(c, p, y);
    }
  }

  lemma GrantedIsRecount(c: Config, w: Width, k: nat)
    requires k > 0 && c.Granted(w, k) != 0
    ensures var fl := FatLength(w, c.FatData(), k);
            c.Granted(w, k) == Recount(c.FatData(), fl, k) && !TooMany(w, fl, Recount(c.FatData(), fl, k))
  {
    hide FatLength, Recount, TooMany;
  }

  lemma TestedIsAccepted(c: Config, p: Plan)
    requires c.Valid() && p.Planned? && p.clusterSize > 0 && Tested(c, p)
    ensures c.Accepts(p.clusterSize)
  {
  }

  lemma SoundNeedsRoom(c: Config, p: Plan)
    requires p.Planned?
    ensures Sound(c, p) ==> c.Reserved() + c.RootSectors() <= c.NumSectors()
  {
    ProductMonotone(0, p.clusters, p.clusterSize);
    hide EntryRoom;
  }

  /**
   * A run that does not die has a sound volume exactly if the device holds the reserved sectors and
   * the root directory, and the first estimate did not overflow what a FAT length is computed in:
   * these are what no test looks at. Every device.
   */
  lemma PlannedVolumeIsSound(c: Config)
    requires c.Valid() && Outcome(c).Planned?
    ensures var p := Outcome(c);
            && p.clusterSize > 0 && c.Accepts(p.clusterSize)
            && (Sound(c, p) <==>
                  && c.Reserved() + c.RootSectors() <= c.NumSectors()
                  && FirstEstimate(p.width, c.FatData(), p.clusterSize) < 0x1100_0000)
  {
    hide *;
    PlannedIsTested(c);
    TestedIsAccepted(c, Outcome(c));
    if c.Reserved() + c.RootSectors() <= c.NumSectors() {
      if FirstEstimate(Outcome(c).width, c.FatData(), Outcome(c).clusterSize) < 0x1100_0000 {
        TestedVolumeIsSound(c, Outcome(c));
      } else {
        HugeIsUnsound(c, Outcome(c));
      }
    }
    SoundNeedsRoom(c, Outcome(c));
  }

  lemma QuotientBelow(a: nat, b: nat, limit: nat)
    requires b > 0
    ensures Quotient(a, b) < limit <==> a < limit * b
  {
    var q := Quotient(a, b);
    if q < limit {
      ProductMonotone(q + 1, limit, b);
    } else {
      ProductMonotone(limit, q, b);
    }
  }

  /** The estimate for FAT12 and the smallest clusters is the largest of all, as far as the limit goes. */
  lemma EstimatesFall(w: Width, f: nat, first: nat, k: nat)
    requires 0 < first <= k && FirstEstimate(F12, f, first) < 0x1100_0000
    ensures FirstEstimate(w, f, k) < 0x1100_0000
  {
    QuotientBelow(2 * (f * SECTOR + 6), 2 * (first * SECTOR) + 6, 0x1100_0000);
    match w {
      case F12 => QuotientBelow(2 * (f * SECTOR + 6), 2 * (k * SECTOR) + 6, 0x1100_0000);
      case F16 => QuotientBelow(f * SECTOR + 8, k * SECTOR + 4, 0x1100_0000);
      case F32 => QuotientBelow(f * SECTOR + 16, k * SECTOR + 8, 0x1100_0000);
    }
    hide Quotient;
  }

  lemma PlannedFromFirstGuess(c: Config)
    requires c.Valid() && Outcome(c).Planned?
    ensures 0 < c.FirstGuess() <= Outcome(c).clusterSize
  {
    hide Estimate, FatLength, Recount, TooMany, LastTried, Config.Accepts, Config.Granted;
  }

  /**
   * What a caller can see beforehand, on any device: an estimate at the first guess that does not overflow is
   * enough.
   */
  lemma SmallEstimateIsSound(c: Config)
    requires c.Valid() && Outcome(c).Planned? && c.FirstGuess() > 0
    requires FirstEstimate(F12, c.FatData(), c.FirstGuess()) < 0x1100_0000
    ensures Sound(c, Outcome(c)) <==> c.Reserved() + c.RootSectors() <= c.NumSectors()
  {
    hide *;
    PlannedVolumeIsSound(c);
    PlannedFromFirstGuess(c);
    EstimatesFall(Outcome(c).width, c.FatData(), c.FirstGuess(), Outcome(c).clusterSize);
  }

  /** A FAT12 length that wraps to nothing: one-sector clusters, and the one estimate whose bytes are 2^32. */
  predicate Vanishes(c: Config) {
    c.FirstGuess() == 1 && c.sizeFat in {0, 12} && FirstEstimate(F12, c.FatData(), 1) == 0x5555_5553
  }

  /** Below 2^31 sectors that one estimate is the only one that overflows. */
  lemma VolumeBelow2To31IsSound(c: Config)
    requires c.Valid() && Outcome(c).Planned? && c.NumSectors() < TWO31
    ensures Sound(c, Outcome(c)) <==> c.Reserved() + c.RootSectors() <= c.NumSectors() && !Vanishes(c)
  {
    var p := Outcome(c);
    hide Outcome;
    PlannedVolumeIsSound(c);
    PlannedIsTested(c);
    if c.Reserved() + c.RootSectors() <= c.NumSectors() {
      if Vanishes(c) {
        VanishingIsPlanned(c, p);
      } else {
        NothingElseOverflows(c, p);
      }
    }
  }

  lemma SettledFat12(c: Config, k: nat)
    requires c.Valid() && k > 0 && Settled(c, k).Planned? && Settled(c, k).width == F12
    ensures c.sizeFat in {0, 12}
  {
    hide FatLength, Config.Granted;
  }

  /** What a FAT12 plan of one-sector clusters says about the device. */
  lemma OneSectorClusters(c: Config)
    requires c.Valid() && Outcome(c).Planned? && Outcome(c).clusterSize == 1 && Outcome(c).width == F12
    ensures c.FirstGuess() == 1 && c.sizeFat in {0, 12}
  {
    PlannedIsTested(c);
    SettledFat12(c, LastTried(k => k > 0 && c.Accepts(k), c.FirstGuess(), c.MaxClusterSize()));
    hide FatLength, Recount, TooMany, LastTried, Settled, Config.Accepts, Config.Granted;
  }

  lemma NothingElseOverflows(c: Config, p: Plan)
    requires c.Valid() && p == Outcome(c) && p.Planned? && p.clusterSize > 0 && Tested(c, p) && c.FatData() < TWO31 && !Vanishes(c)
    ensures FirstEstimate(p.width, c.FatData(), p.clusterSize) < 0x1100_0000
  {
    var w, f, k := p.width, c.FatData(), p.clusterSize;
    hide Outcome, FirstEstimate, Config.Accepts, Config.Granted, Recount, TooMany, MachineBytes, CeilDiv, FatLength, Config.FatData;
    GrantedIsRecount(c, w, k);
    EstimateIsExact(w, f, k);
    GrantedDoesNotWrap(w, f, k, FirstEstimate(w, f, k), CeilDiv(MachineBytes(w, FirstEstimate(w, f, k))));
    if w == F12 && k == 1 {
      OneSectorClusters(c);
    }
  }

  /** There the first pass is accepted, for FAT12, and what it is accepted for is no FAT at all. */
  lemma VanishingIsPlanned(c: Config, p: Plan)
    requires c.Valid() && p == Outcome(c) && p.Planned? && p.clusterSize > 0 && Tested(c, p) && c.FatData() < TWO31 && Vanishes(c)
    ensures p.width == F12 && p.clusterSize == 1 && p.fatLength == 0
    ensures FirstEstimate(p.width, c.FatData(), p.clusterSize) >= 0x1100_0000
  {
    var f := c.FatData();
    NoFat12(f);
    EstimateBound(F12, f, 1);
    WholeDeviceIsGranted(f);
    assert c.Granted(F12, 1) == f;
    if c.Granted(F16, 1) != 0 {
      var est := FirstEstimate(F16, f, 1);
      EstimateBound(F16, f, 1);
      Fat16EstimateIsClose(f);
      GrantedDoesNotWrap(F16, f, 1, est, CeilDiv(MachineBytes(F16, est)));
    }
    assert c.Accepts(1);
    hide Estimate, CeilDiv, TooMany, Recount, FatLength, FirstEstimate, Config.Granted, Config.Accepts;
  }

  lemma NoFat12(f: nat)
    requires FirstEstimate(F12, f, 1) == 0x5555_5553
    ensures FatLength(F12, f, 1) == 0
  {
    hide Estimate;
    assert MachineBytes(F12, 0x5555_5553) == 0 by { PackedBytes(0x5555_5553); }
    hide MachineBytes;
    assert CeilDiv(0) == 0;
  }

  lemma WholeDeviceIsGranted(f: nat)
    requires f < TWO31
    ensures Recount(f, 0, 1) == f && !TooMany(F12, 0, f)
  {
  }

  lemma Fat16EstimateIsClose(f: nat)
    requires FirstEstimate(F12, f, 1) == 0x5555_5553
    ensures FirstEstimate(F16, f, 1) >= 0x1100_0000
  {
  }

  /** The refusal test looks past the table limits only when a FAT was sized with wrap-around. */
  lemma RefusalIsTheLimit(w: Width, f: nat, k: nat, est: nat, fl: nat)
    requires k > 0 && est == FirstEstimate(w, f, k) < 0x1100_0000
    requires fl == Sectors(TableBytes(w, est), SECTOR) && NR_FATS * fl <= f < TWO32
    ensures fl == FatLength(w, f, k)
    ensures Recount(f, fl, k) <= est
    ensures TooMany(w, fl, Recount(f, fl, k)) <==> Recount(f, fl, k) > Limit(w) - (if w == F32 then 0 else 2)
  {
    CeilDivIsSmall(MachineBytes(w, est));
    SectorsCover(TableBytes(w, est), SECTOR);
    hide Estimate, MaxClusters, EntryRoom, TooMany;
    assert Recount(f, fl, k) == (f - NR_FATS * fl) / k;
    RecountHasEntries(w, f, SECTOR, k, NR_FATS, est, fl);
    RefusalByRoom(w, fl, Recount(f, fl, k));
  }

  lemma RefusalByRoom(w: Width, fl: nat, clusters: nat)
    requires fl < 0x40_0000 && clusters + 2 <= EntryRoom(w, fl, SECTOR)
    ensures TooMany(w, fl, clusters) <==> clusters > Limit(w) - (if w == F32 then 0 else 2)
  {
  }

  lemma UnderflowFigures()
    ensures var c := Config(0, 32, true, 2, 0, 112, 0);
            && c.FatData() == 4294967264 && FirstEstimate(F32, 4294967264, 2) == 2130836472
            && FatLength(F32, 4294967264, 2) == 4294837241 && c.Granted(F32, 2) == 130039
  {
    var c := Config(0, 32, true, 2, 0, 112, 0);
    assert c.FatData() == 4294967264;
    assert FirstEstimate(F32, 4294967264, 2) == 2130836472;
    assert CeilDiv(MachineBytes(F32, 2130836472)) == -130055;
    assert FatLength(F32, 4294967264, 2) == 4294837241;
    hide FatLength, FirstEstimate, Estimate;
  }

  /** A device whose first pass is accepted, for FAT32. */
  lemma FirstPassFat32(c: Config, k: nat, n: nat, fl: nat, start: int)
    requires c.Valid() && c.sizeFat == 32 && c.reservedSectors == 0 && c.FirstGuess() == k
    requires c.Granted(F32, k) == n != 0 && FatLength(F32, c.FatData(), k) == fl
    requires start == I32(U32(c.Reserved() + U32(NR_FATS * fl))) && c.blocks >= TruncDiv(I32(start + 1), 2) + 32
    ensures Outcome(c) == Planned(F32, k, n, fl, start)
  {
    hide Config.Granted, FatLength, Config.FatData, U32, I32, TruncDiv;
    assert c.Accepts(k);
    assert LastTried(k => k > 0 && c.Accepts(k), k, c.MaxClusterSize()) == k;
    assert Settled(c, k) == Planned(F32, k, n, fl, start);
  }

  /** Without that room the tests can pass all the same: a floppy of which no sector can be read, as FAT32. */
  lemma UnderflowIsNotNoticed()
    ensures var c := Config(0, 32, true, 2, 0, 112, 0);
            c.Valid() && Outcome(c) == Planned(F32, 2, 130039, 4294837241, -260078) && !LayoutFits(c, Outcome(c))
  {
    UnderflowFigures();
    hide FatLength, FirstEstimate, Config.Granted, Outcome;
    FirstPassFat32(Config(0, 32, true, 2, 0, 112, 0), 2, 130039, 4294837241, -260078);
  }

  lemma OverflowFigures()
    ensures var c := Config(2146966273, 32, true, 8, 1, 512, 0);
            && c.FatData() == 4293932514 && FirstEstimate(F32, 4293932514, 1) == 4227872013
            && FatLength(F32, 4293932514, 1) == 4294443116 && c.Granted(F32, 1) == 13578
  {
    var c := Config(2146966273, 32, true, 8, 1, 512, 0);
    assert c.FatData() == 4293932514;
    OverflowingEstimate();
    OverflowingLength();
    hide FatLength, FirstEstimate, Estimate;
  }

  lemma OverflowingEstimate()
    ensures FirstEstimate(F32, 4293932514, 1) == 4227872013
  {
  }

  lemma OverflowingLength()
    ensures FatLength(F32, 4293932514, 1) == 4294443116
  {
    OverflowingEstimate();
    WrappedBytes();
    assert FirstEstimate(F32, 4293932514, 1) == Estimate(F32, 4293932514 * SECTOR, SECTOR, NR_FATS);
    hide Estimate, FirstEstimate, MachineBytes, CeilDiv;
  }

  lemma WrappedBytes()
    ensures MachineBytes(F32, 4227872013) == 4026586172 && CeilDiv(4026586172) == -524180
  {
    assert I32(4026586172) == -268381124;
  }

  /** From 2^31 sectors on lengths that wrapped are accepted for FAT32 too: two terabytes in one-sector clusters. */
  lemma OverflowIsNotNoticed()
    ensures var c := Config(2146966273, 32, true, 8, 1, 512, 0);
            && c.Valid() && c.Reserved() + c.RootSectors() <= c.NumSectors()
            && Outcome(c) == Planned(F32, 1, 13578, 4294443116, -1048328) && !Sound(c, Outcome(c))
  {
    OverflowFigures();
    hide FatLength, FirstEstimate, Config.Granted, Outcome;
    FirstPassFat32(Config(2146966273, 32, true, 8, 1, 512, 0), 1, 13578, 4294443116, -1048328);
  }

  lemma VanishingFat()
    ensures FirstEstimate(F12, 1440044371, 1) == 1431655763
    ensures FatLength(F12, 1440044371, 1) == 0
  {
    assert FirstEstimate(F12, 1440044371, 1) == 1431655763;
  }

  /** One-sector clusters on some 700 GB: the FAT12 length wraps to nothing, and nothing is refused. */
  lemma FatLengthCanVanish()
    ensures var c := Config(720022193, 12, true, 1, 0, 224, 0);
            && c.Valid() && c.Reserved() + c.RootSectors() <= c.NumSectors() && Vanishes(c)
            && Outcome(c) == Planned(F12, 1, 1440044371, 0, 1)
  {
    var c := Config(720022193, 12, true, 1, 0, 224, 0);
    assert c.FatData() == 1440044371;
    VanishingFat();
    hide FatLength, FirstEstimate, Estimate;
    assert c.Granted(F12, 1) == 1440044371;
    hide FatLength, FirstEstimate, Estimate, Recount, Config.Granted;
  }

  // ----- the parameters a whole disk is formatted with -----

  datatype Established = TooSmallForFat32 | Established(sizeFat: nat, clusterSize: nat)

  /** The hard-disk defaults of `establish_params`; the volume size is an `int`. */
  function HardDiskParams(blocks: int, sizeFat: nat): Established {
    var volsize := I32(blocks * 2);
    var size := if sizeFat == 0 && volsize > 1064960 then 32 else sizeFat;
    if size == 32 then
      if volsize <= 66600 then TooSmallForFat32
      else Established(32, if volsize <= 532480 then 1 else if volsize <= 16777216 then 8
                           else if volsize <= 33554432 then 16 else if volsize <= 67108864 then 32 else 64)
    else Established(size, 4)
  }

  /** `DISK_Formatdisk` on a hard disk: FAT32, chosen by the user, default reserved sectors. */
  function FormatHardDisk(blocks: int): Plan
    requires -TWO31 <= blocks < TWO31
  {
    match HardDiskParams(blocks, 32)
    case TooSmallForFat32 => Died(NoWidthFits)
    case Established(size, k) => Outcome(Config(blocks, size, true, k, 0, 512, 0))
  }

  /**
   * Every block count an `int` can hold: formatting a hard disk either stops,
   * or lays out a FAT32 volume that fits and whose clusters all have entries.
   */
  lemma FormattedDiskIsSound(blocks: int)
    requires -TWO31 <= blocks < TWO31 && FormatHardDisk(blocks).Planned?
    ensures var p := FormatHardDisk(blocks);
            && p.width == F32
            && blocks > 0
            && 32 + 2 * p.fatLength + p.clusters * p.clusterSize <= 2 * blocks
            && 0 < p.clusters <= MAX_CLUST_32
            && 4 * (p.clusters + 2) <= p.fatLength * SECTOR
  {
    hide Outcome, Estimate, FatLength, Recount, TooMany, MaxClusters, CeilDiv, LastTried, Config.Accepts, Config.Granted, Vanishes;
    var k := HardDiskParams(blocks, 32).clusterSize;
    var c := Config(blocks, 32, true, k, 0, 512, 0);
    assert c.NumSectors() == I32(2 * blocks) > 66600;
    assert !Vanishes(c) by { NotFat12(c); }
    VolumeBelow2To31IsSound(c);
    PlannedVolumeIsSound(c);
    Fat32IsChosen(c);
    PlannedIsTested(c);
    TestedVolumeIsSound(c, Outcome(c));
    TestedBlocksArePositive(c, Outcome(c));
  }

  // ----- which disks are formatted, and how -----

  /** The fewest and the most sectors behind the reserved ones for which the table picks clusters of `k` sectors. */
  predicate PickedFor(k: nat, f: nat) {
    || (k == 1 && 66600 - 32 < f <= 532480 - 32)
    || (k == 8 && 532480 - 32 < f <= 16777216 - 32)
    || (k == 16 && 16777216 - 32 < f <= 33554432 - 32)
    || (k == 32 && 33554432 - 32 < f <= 67108864 - 32)
    || (k == 64 && 67108864 - 32 < f < TWO31)
  }

  lemma EstimateOfPicked(k: nat, f: nat)
    requires PickedFor(k, f)
    ensures var est := FirstEstimate(F32, f, k); est < 0x800_0000 && est * (k * 512 + 8) <= f * 512 + 16
  {
    var est := FirstEstimate(F32, f, k);
    assert est == Quotient(f * 512 + 16, k * 512 + 8);
    if est >= 0x800_0000 {
      ProductMonotone(0x800_0000, est, k * 512 + 8);
      assert false;
    }
  }

  /** The table is made so that a volume never has fewer clusters than FAT32 needs. */
  lemma EnoughClusters(k: nat, f: nat, est: nat, fl: nat)
    requires PickedFor(k, f) && est * (k * 512 + 8) <= f * 512 + 16
    requires fl == Sectors(TableBytes(F32, est), SECTOR)
    ensures 2 * fl + 65525 * k <= f && (f - 2 * fl) / k >= 65525
  {
    assert SECTOR * fl <= 4 * (est + 2) + 511;
    if k == 1 {
      assert 520 * est <= f * 512 + 16;
    } else if k == 8 {
      assert 4104 * est <= f * 512 + 16;
    } else if k == 16 {
      assert 8200 * est <= f * 512 + 16;
    } else if k == 32 {
      assert 16392 * est <= f * 512 + 16;
    } else {
      assert 32776 * est <= f * 512 + 16;
    }
    assert 2 * fl + 65525 * k <= f;
    QuotientAtMost(f - 2 * fl, 65525, k);
  }

  lemma QuotientAtMost(a: nat, q: nat, k: nat)
    requires k > 0 && q * k <= a
    ensures a / k >= q
  {
    var p := Quotient(a, k);
    if p < q {
      ProductMonotone(p + 1, q, k);
    }
  }

  /** The first pass of the doubling loop is accepted. */
  lemma PickedIsGranted(c: Config, k: nat)
    requires c.Valid() && c.sizeFat == 32 && PickedFor(k, c.FatData())
    ensures var fl := FatLength(F32, c.FatData(), k);
            c.Granted(F32, k) == (c.FatData() - 2 * fl) / k >= 65525 && 2 * fl + 65525 <= c.FatData()
  {
    var f := c.FatData();
    var est := FirstEstimate(F32, f, k);
    var fl := Sectors(TableBytes(F32, est), SECTOR);
    EstimateOfPicked(k, f);
    EnoughClusters(k, f, est, fl);
    EstimateBound(F32, f, k);
    hide FirstEstimate, Estimate, Sectors, TableBytes, FatLength, TooMany, Config.FatData;
    RefusalIsTheLimit(F32, f, k, est, fl);
    assert Recount(f, fl, k) == (f - 2 * fl) / k;
  }

  lemma PickedPlan(c: Config, k: nat, f: nat, fl: nat)
    requires c.Valid() && c.sizeFat == 32 && c.reservedSectors == 0 && c.FirstGuess() == k && f == c.FatData()
    requires fl == FatLength(F32, f, k) && 2 * fl + 65525 <= f < TWO31 && 2 * c.blocks == f + 32
    requires c.Granted(F32, k) >= 65525
    ensures Outcome(c) == Planned(F32, k, c.Granted(F32, k), fl, 32 + 2 * fl)
  {
    hide FatLength, Config.Granted, Config.FatData, Outcome;
    assert I32(U32(c.Reserved() + U32(NR_FATS * fl))) == 32 + 2 * fl;
    assert c.blocks >= TruncDiv(I32(32 + 2 * fl + 1), 2) + 32;
    FirstPassFat32(c, k, c.Granted(F32, k), fl, 32 + 2 * fl);
  }

  /**
   * Every disk with more than 66600 sectors and less than a terabyte is formatted; the clusters grow
   * with the disk, and there are always enough of them for the volume to be read as FAT32.
   */
  lemma HardDiskPlan(blocks: int)
    requires 33300 < blocks < 0x4000_0000
    ensures var p := FormatHardDisk(blocks);
            && p.Planned? && p.width == F32 && p.clusters >= 65525
            && p.clusterSize * 512 == (if blocks <= 266240 then 512
                                       else if blocks <= 8 * 1024 * 1024 then 4 * 1024
                                       else if blocks <= 16 * 1024 * 1024 then 8 * 1024
                                       else if blocks <= 32 * 1024 * 1024 then 16 * 1024
                                       else 32 * 1024)
  {
    var k := HardDiskParams(blocks, 32).clusterSize;
    var c := Config(blocks, 32, true, k, 0, 512, 0);
    assert c.NumSectors() == 2 * blocks && c.FatData() == 2 * blocks - 32 && c.FirstGuess() == k;
    assert PickedFor(k, c.FatData());
    hide Outcome, Config.FatData, FatLength, Config.Granted;
    PickedIsGranted(c, k);
    PickedPlan(c, k, c.FatData(), FatLength(F32, c.FatData(), k));
  }

  /**
   * A disk is formatted if and only if it has more than 66600 sectors, and less than the terabyte at which an
   * `int` of sectors wraps.
   */
  lemma FormatsExactlyIf(blocks: int)
    requires -TWO31 <= blocks < TWO31
    ensures FormatHardDisk(blocks).Planned? <==> 33300 < blocks < 0x4000_0000
  {
    if 33300 < blocks < 0x4000_0000 {
      HardDiskPlan(blocks);
    } else if FormatHardDisk(blocks).Planned? {
      FormattedDiskIsSound(blocks);
    }
  }

  lemma NotFat12(c: Config)
    requires c.sizeFat == 32
    ensures !Vanishes(c)
  {
  }

  lemma Fat32IsChosen(c: Config)
    requires c.Valid() && c.sizeFat == 32 && Outcome(c).Planned?
    ensures Outcome(c).width == F32
  {
    hide Estimate, FatLength, Recount, TooMany, MaxClusters, LastTried, Config.Accepts, Config.Granted;
  }

  lemma TestedBlocksArePositive(c: Config, p: Plan)
    requires c.Valid() && p.Planned? && p.clusterSize > 0 && Tested(c, p)
    requires 0 <= p.startDataSector < TWO31 - 1
    ensures c.blocks > 0
  {
    hide FatLength, Config.Accepts, Config.Granted;
  }
}
