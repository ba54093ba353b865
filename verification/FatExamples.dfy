/** Volumes worked out by hand: one for each width, one that needs larger clusters, and one for each way to die. */
module FatExamples {
  import opened MachineInt
  import opened FatLayout

  /** The FAT length and the recounted clusters of one trial. */
  lemma Figures(w: Width, f: nat, k: nat, est: nat, fl: nat)
    requires k > 0 && f < 0x100_0000 && fl < 0x1_0000 && 2 * fl <= f
    requires est == FirstEstimate(w, f, k) < 0x100_0000 && fl == Sectors(MachineBytes(w, est), SECTOR)
    ensures FatLength(w, f, k) == fl && Recount(f, fl, k) == (f - 2 * fl) / k
  {
    CeilDivIsSmall(MachineBytes(w, est));
    hide CeilDiv, Estimate, Sectors;
    assert FirstEstimate(w, f, k) == Estimate(w, f * SECTOR, k * SECTOR, NR_FATS);
  }

  lemma Limits(fl: nat)
    requires fl < 0x1_0000
    ensures MaxClusters(F12, fl) == (if fl * 1024 / 3 > 4080 then 4080 else fl * 1024 / 3)
    ensures MaxClusters(F16, fl) == (if fl * 256 > 65520 then 65520 else fl * 256)
  {
  }

  /** A width whose FAT has too few entries, or that has too many clusters for its kind, is refused. */
  lemma TrialOf(c: Config, w: Width, f: nat, k: nat, est: nat, fl: nat)
    requires c.Valid() && f == c.FatData() && w != F32
    requires k > 0 && f < 0x100_0000 && fl < 0x1_0000 && 2 * fl <= f
    requires est == FirstEstimate(w, f, k) < 0x100_0000 && fl == Sectors(MachineBytes(w, est), SECTOR) && fl > 0
    ensures var n := (f - 2 * fl) / k;
            FatLength(w, f, k) == fl &&
            c.Granted(w, k) == if n > (if w == F12 then (if fl > 11 then 4078 else fl * 1024 / 3 - 2) else (if fl > 255 then 65518 else fl * 256 - 2)) then 0
                               else if w == F16 && n < 4078 && !(c.sizeFatByUser && c.sizeFat == 16) then 0
                               else n
  {
    Figures(w, f, k, est, fl);
    Limits(fl);
    hide FatLength, Recount, MaxClusters, Config.FatData, Estimate, Sectors, MachineBytes;
  }

  /** A first cluster size that is accepted is settled on. */
  lemma FirstPass(c: Config, k: nat)
    requires c.Valid() && c.sizeFat != 32 && c.FirstGuess() == k > 0 && c.Accepts(k)
    ensures Outcome(c) == Settled(c, k)
  {
    hide Settled, Config.Accepts;
    LastTriedStep(k => k > 0 && c.Accepts(k), k, c.MaxClusterSize());
  }

  /** A 1.44 MB floppy: FAT12, as FAT16 would have too few clusters. */
  lemma FloppyPlan()
    ensures Outcome(Config(1440, 0, false, 1, 0, 112, 0)) == Planned(F12, 1, 2854, 9, 19)
  {
    var c := Config(1440, 0, false, 1, 0, 112, 0);
    TrialOf(c, F12, 2872, 1, 2855, 9);
    TrialOf(c, F16, 2872, 1, 2849, 12);
    hide FatLength, Config.Granted, Estimate;
    FirstPass(c, 1);
  }

  /** Sixteen megabytes in clusters of four sectors: too many for FAT12. */
  lemma SmallDiskPlan()
    ensures Outcome(Config(16384, 0, false, 4, 0, 512, 0)) == Planned(F16, 4, 8167, 32, 65)
  {
    var c := Config(16384, 0, false, 4, 0, 512, 0);
    TrialOf(c, F12, 32735, 4, 8171, 24);
    TrialOf(c, F16, 32735, 4, 8167, 32);
    hide FatLength, Config.Granted, Estimate;
    FirstPass(c, 4);
  }

  lemma DoubledTrials()
    ensures var c := Config(16384, 12, true, 4, 0, 512, 0);
            && c.Valid() && c.FirstGuess() == 4 && c.MaxClusterSize() == 128 && c.FatData() == 32735
            && c.Granted(F12, 4) == 0 && c.Granted(F12, 8) == 0 && c.Granted(F12, 16) == 2045 && FatLength(F12, 32735, 16) == 6
  {
    var c := Config(16384, 12, true, 4, 0, 512, 0);
    TrialOf(c, F12, 32735, 4, 8171, 24);
    TrialOf(c, F12, 32735, 8, 4088, 12);
    TrialOf(c, F12, 32735, 16, 2045, 6);
    hide FatLength, Config.Granted, Estimate;
  }

  lemma Doubled(accepts: nat -> bool)
    requires !accepts(4) && !accepts(8) && accepts(16)
    ensures LastTried(accepts, 4, 128) == 16
  {
    LastTriedStep(accepts, 4, 128);
    LastTriedStep(accepts, 8, 128);
    LastTriedStep(accepts, 16, 128);
    hide LastTried;
  }

  /** The same as FAT12: the clusters are doubled twice. */
  lemma DoubledPlan()
    ensures Outcome(Config(16384, 12, true, 4, 0, 512, 0)) == Planned(F12, 16, 2045, 6, 13)
  {
    var c := Config(16384, 12, true, 4, 0, 512, 0);
    DoubledTrials();
    hide FatLength, Config.Granted, Estimate, LastTried, Config.FatData, Config.FirstGuess, Config.MaxClusterSize;
    Doubled(k => k > 0 && c.Accepts(k));
    assert Settled(c, 16) == Planned(F12, 16, 2045, 6, 13);
  }

  /** A volume so small is refused as FAT16, if that was not asked for by the user. */
  lemma UnfortunatePlan()
    ensures Outcome(Config(1000, 16, false, 128, 0, 512, 0)) == Died(UnfortunateSize)
  {
    var c := Config(1000, 16, false, 128, 0, 512, 0);
    TrialOf(c, F16, 1967, 128, 15, 1);
    hide FatLength, Config.Granted, Estimate;
    assert LastTried(k => k > 0 && c.Accepts(k), 128, 128) == 128;
  }

  lemma ForcedTrial()
    ensures var c := Config(1000, 16, true, 128, 0, 512, 0);
            && c.Valid() && c.FatData() == 1967 && c.FirstGuess() == 128 && c.Reserved() == 1
            && c.Granted(F16, 128) == 15 && FatLength(F16, 1967, 128) == 1
  {
    var c := Config(1000, 16, true, 128, 0, 512, 0);
    TrialOf(c, F16, 1967, 128, 15, 1);
    hide FatLength, Config.Granted, Estimate;
  }

  lemma ForcedPlan()
    ensures Outcome(Config(1000, 16, true, 128, 0, 512, 0)) == Planned(F16, 128, 15, 1, 3)
  {
    var c := Config(1000, 16, true, 128, 0, 512, 0);
    ForcedTrial();
    hide FatLength, Config.Granted, Estimate, Config.FatData, Config.FirstGuess, Config.Reserved, LastTried;
    FirstPass(c, 128);
    assert Settled(c, 128) == Planned(F16, 128, 15, 1, 3);
  }

  /** With 4078 clusters a volume is accepted as FAT16 without being asked for. */
  lemma ThresholdPlan()
    ensures Outcome(Config(2059, 16, false, 1, 0, 112, 0)) == Planned(F16, 1, 4078, 16, 33)
  {
    var c := Config(2059, 16, false, 1, 0, 112, 0);
    TrialOf(c, F16, 4110, 1, 4078, 16);
    hide FatLength, Config.Granted, Estimate;
    FirstPass(c, 1);
  }

  /**
   * Where no width was asked for, FAT32 is for disks above 520 MiB, and the others begin with clusters of four
   * sectors.
   */
  lemma DefaultWidth(blocks: int)
    requires 0 <= blocks < 0x4000_0000
    ensures HardDiskParams(blocks, 0) == if blocks <= 520 * 1024 then Established(0, 4) else HardDiskParams(blocks, 32)
    ensures HardDiskParams(blocks, 12) == Established(12, 4) && HardDiskParams(blocks, 16) == Established(16, 4)
  {
  }

  /** Four gigabytes are too many clusters for FAT16, whatever their size. */
  lemma NoWidthPlan()
    ensures Outcome(Config(4194304, 16, true, 128, 0, 512, 0)) == Died(NoWidthFits)
  {
    var c := Config(4194304, 16, true, 128, 0, 512, 0);
    TrialOf(c, F16, 8388575, 128, 65531, 256);
    hide FatLength, Config.Granted, Estimate;
    assert LastTried(k => k > 0 && c.Accepts(k), 128, 128) == 128;
  }

  /** A volume of 33 blocks is too small, and one of 34 is not. */
  lemma FewBlocksPlan()
    ensures Outcome(Config(33, 12, true, 1, 0, 112, 0)) == Died(TooFewBlocks)
  {
    var c := Config(33, 12, true, 1, 0, 112, 0);
    TrialOf(c, F12, 58, 1, 57, 1);
    hide FatLength, Config.Granted, Estimate;
    FirstPass(c, 1);
  }

  lemma EnoughBlocksPlan()
    ensures Outcome(Config(34, 12, true, 1, 0, 112, 0)) == Planned(F12, 1, 58, 1, 3)
  {
    var c := Config(34, 12, true, 1, 0, 112, 0);
    TrialOf(c, F12, 60, 1, 59, 1);
    hide FatLength, Config.Granted, Estimate;
    FirstPass(c, 1);
  }

  /** FAT32 keeps two sectors at least, and other widths are not known. */
  lemma RefusedParameters(c: Config)
    requires c.Valid()
    ensures c.sizeFat == 32 && c.reservedSectors == 1 ==> Outcome(c) == Died(TooFewReserved)
    ensures c.sizeFat !in {0, 12, 16, 32} ==> Outcome(c) == Died(BadFatSize)
  {
    hide FatLength, Config.Granted, Estimate, LastTried;
  }
}
