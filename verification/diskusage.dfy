/** Disk usage (`SystemMonitor.get_disk_usage`): for each monitored mount
    point, the used share of the file system's blocks. The `statvfs` call is
    an oracle from mount point to the three figures used, or None when it
    raises. */
module DiskUsage {
  import opened Wrappers

  /** The `statvfs` fields the monitor reads. */
  datatype StatVfs = StatVfs(blocks: nat, fragmentSize: nat, availableBlocks: nat)

  /** The percentage used for one mount point: 0.0 when the call fails or
      the file system reports no capacity. */
  function MountUsage(st: Option<StatVfs>): real {
    match st
    case None => 0.0
    case Some(s) =>
      var total := s.blocks * s.fragmentSize;
      if total > 0 then
        var used := total - s.availableBlocks * s.fragmentSize;
        (used as real / total as real) * 100.0
      else 0.0
  }

  /** `get_disk_usage`: one entry per requested mount point. */
  function GetDiskUsage(disks: seq<string>, statvfs: string -> Option<StatVfs>): (usage: map<string, real>)
    ensures usage.Keys == set m | m in disks
    ensures forall m <- disks :: usage[m] == MountUsage(statvfs(m))
  {
    map m | m in disks :: MountUsage(statvfs(m))
  }

  /** The fragment size cancels: usage is the share of blocks not available. */
  lemma UsageInBlocks(s: StatVfs)
    requires s.blocks > 0 && s.fragmentSize > 0
    ensures MountUsage(Some(s)) == (s.blocks - s.availableBlocks) as real * 100.0 / s.blocks as real
  {
    var b, f, a := s.blocks as real, s.fragmentSize as real, s.availableBlocks as real;
    assert (s.blocks * s.fragmentSize) as real == b * f;
    assert (s.blocks * s.fragmentSize - s.availableBlocks * s.fragmentSize) as real == (b - a) * f;
    assert ((b - a) * f) / (b * f) == (b - a) / b;
  }

  /** A file system with no available blocks reads as full, one with every
      block available as empty. */
  lemma UsageExtremes(s: StatVfs)
    requires s.blocks > 0 && s.fragmentSize > 0
    ensures s.availableBlocks == 0 ==> MountUsage(Some(s)) == 100.0
    ensures s.availableBlocks == s.blocks ==> MountUsage(Some(s)) == 0.0
  {
    UsageInBlocks(s);
    var b := s.blocks as real;
    assert b * 100.0 / b == 100.0;
  }

  /** Where `statvfs` fails or reports zero capacity the entry is 0.0, and
      no division takes place. */
  lemma UsageGuarded(st: Option<StatVfs>)
    requires st.None? || st.value.blocks == 0 || st.value.fragmentSize == 0
    ensures MountUsage(st) == 0.0
  {
  }

  /** 250 of 1000 blocks of 4096 bytes available is 75 percent used. */
  lemma ThreeQuartersUsed()
    ensures MountUsage(Some(StatVfs(1000, 4096, 250))) == 75.0
  {
    UsageInBlocks(StatVfs(1000, 4096, 250));
  }
}
