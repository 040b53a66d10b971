/** GPU inventory (`SystemMonitor._detect_gpus`): NVIDIA GPUs come from the
    proprietary driver's per-GPU directories, then AMD and Intel GPUs from
    the DRM class directory, each kept in listing order. Directory listings
    arrive as sequences (None when the directory does not exist) and every
    file read as an `Option`. */
module GpuInventory {
  import opened Wrappers
  import opened PyStrings
  import opened Seqs

  /** One detected GPU. An NVIDIA GPU is addressed by its PCI id and may
      expose a runtime power-status file; AMD and Intel GPUs are addressed by
      their DRM card name. */
  datatype Gpu =
    | NvidiaGpu(name: string, pciId: string, hasPowerStatus: bool)
    | AmdGpu(name: string, card: string)
    | IntelGpu(name: string, card: string)

  /** One entry of the NVIDIA driver's GPU directory: whether it has an
      `information` file, that file's lines (None when it cannot be read),
      and whether the PCI device exposes a runtime power-status file. */
  datatype NvidiaEntry = NvidiaEntry(pciId: string, hasInformation: bool, information: Option<seq<string>>, hasPowerStatus: bool)

  /** One entry of the DRM class directory and its vendor id file (None when
      the file is missing or cannot be read). */
  datatype DrmEntry = DrmEntry(card: string, vendor: Option<string>)

  const DefaultNvidiaName: string := "NVIDIA GPU"
  const AmdVendorId: string := "0x1002"
  const IntelVendorId: string := "0x8086"

  // ---------------------------------------------------------------------------
  // NVIDIA

  predicate IsModelLine(line: string) {
    StartsWith(line, "Model:")
  }

  /** The name of an NVIDIA GPU: each `Model:` line of its information file
      overwrites the name with its stripped value, read front to back. */
  function NameScan(lines: seq<string>, name: string): string {
    if |lines| == 0 then name
    else NameScan(lines[1..], if IsModelLine(lines[0]) then ModelValue(lines[0]) else name)
  }

  /** `line.split(":", 1)[1].strip()` for a `Model:` line, whose first colon
      is the one of the prefix. */
  function ModelValue(line: string): string
    requires IsModelLine(line)
  {
    Strip(line[6..])
  }

  /** Index of the last `Model:` line. */
  function LastModelLine(lines: seq<string>): (r: Option<nat>)
    ensures r.Some? ==> r.value < |lines| && IsModelLine(lines[r.value])
    ensures r.Some? ==> forall j :: r.value < j < |lines| ==> !IsModelLine(lines[j])
    ensures r.None? ==> forall j :: 0 <= j < |lines| ==> !IsModelLine(lines[j])
  {
    if |lines| == 0 then None
    else if IsModelLine(lines[|lines| - 1]) then Some(|lines| - 1)
    else
      var r := LastModelLine(lines[..|lines| - 1]);
      assert forall j :: 0 <= j < |lines| - 1 ==> lines[..|lines| - 1][j] == lines[j];
      r
  }

  lemma {:induction false} NameScanSnoc(lines: seq<string>, line: string, name: string)
    ensures NameScan(lines + [line], name) == if IsModelLine(line) then ModelValue(line) else NameScan(lines, name)
    decreases |lines|
  {
    if |lines| == 0 {
      assert (lines + [line])[1..] == [];
    } else {
      assert (lines + [line])[1..] == lines[1..] + [line];
      NameScanSnoc(lines[1..], line, if IsModelLine(lines[0]) then ModelValue(lines[0]) else name);
    }
  }

  /** The front-to-back scan keeps the value of the last `Model:` line. */
  lemma {:induction false} NameScanLast(lines: seq<string>, name: string)
    ensures NameScan(lines, name) == match LastModelLine(lines)
      case None => name
      case Some(k) => ModelValue(lines[k])
    decreases |lines|
  {
    if |lines| > 0 {
      var init := lines[..|lines| - 1];
      assert init + [lines[|lines| - 1]] == lines;
      NameScanSnoc(init, lines[|lines| - 1], name);
      NameScanLast(init, name);
      if !IsModelLine(lines[|lines| - 1]) {
        match LastModelLine(init)
        case None =>
        case Some(k) => assert init[k] == lines[k];
      }
    }
  }

  function NvidiaGpuOf(e: NvidiaEntry): Option<Gpu> {
    if !e.hasInformation then None
    else
      var name := match e.information
        case None => DefaultNvidiaName
        case Some(lines) => NameScan(lines, DefaultNvidiaName);
      Some(NvidiaGpu(name, e.pciId, e.hasPowerStatus))
  }

  // ---------------------------------------------------------------------------
  // DRM cards

  /** `cardN` directories; connector entries such as `card0-DP-1` are not GPUs. */
  predicate IsCardName(card: string) {
    StartsWith(card, "card") && '-' !in card
  }

  /** The vendor id as compared: stripped and lower-cased. */
  function VendorId(text: string): string {
    Lower(Strip(text))
  }

  /** The display name of a DRM GPU ends with the last character of its card name. */
  function CardName(brand: string, card: string): string
    requires |card| > 0
  {
    brand + [card[|card| - 1]]
  }

  function DrmGpuOf(e: DrmEntry): (r: Option<Gpu>)
    ensures r.Some? ==> IsCardName(e.card) && e.vendor.Some?
    ensures r.Some? ==> !r.value.NvidiaGpu? && r.value.card == e.card
  {
    if !IsCardName(e.card) then None
    else
      match e.vendor
      case None => None
      case Some(text) =>
        var id := VendorId(text);
        if id == AmdVendorId then Some(AmdGpu(CardName("AMD GPU ", e.card), e.card))
        else if id == IntelVendorId then Some(IntelGpu(CardName("Intel GPU ", e.card), e.card))
        else None
  }

  // ---------------------------------------------------------------------------
  // The inventory

  /** NVIDIA GPUs first, and then nothing from NVIDIA. */
  predicate NvidiaFirst(gpus: seq<Gpu>) {
    forall i, j :: 0 <= i < j < |gpus| && gpus[j].NvidiaGpu? ==> gpus[i].NvidiaGpu?
  }

  function NvidiaGpus(nvidia: Option<seq<NvidiaEntry>>): (gpus: seq<Gpu>)
    ensures forall g <- gpus :: g.NvidiaGpu?
  {
    match nvidia
    case None => []
    case Some(entries) =>
      var gpus := FilterMap(entries, NvidiaGpuOf);
      forall g <- gpus ensures g.NvidiaGpu? {
        FilterMapMember(entries, NvidiaGpuOf, g);
      }
      gpus
  }

  function DrmGpus(drm: Option<seq<DrmEntry>>): (gpus: seq<Gpu>)
    ensures forall g <- gpus :: !g.NvidiaGpu?
  {
    match drm
    case None => []
    case Some(entries) =>
      var gpus := FilterMap(entries, DrmGpuOf);
      forall g <- gpus ensures !g.NvidiaGpu? {
        FilterMapMember(entries, DrmGpuOf, g);
      }
      gpus
  }

  lemma NvidiaFirstAppend(a: seq<Gpu>, b: seq<Gpu>)
    requires forall g <- a :: g.NvidiaGpu?
    requires forall g <- b :: !g.NvidiaGpu?
    ensures NvidiaFirst(a + b)
  {
    forall k | 0 <= k < |a| ensures (a + b)[k].NvidiaGpu? {
      assert (a + b)[k] == a[k] && a[k] in a;
    }
    forall k | |a| <= k < |a + b| ensures !(a + b)[k].NvidiaGpu? {
      assert (a + b)[k] == b[k - |a|] && b[k - |a|] in b;
    }
  }

  /** `_detect_gpus`. */
  function DetectGpus(nvidia: Option<seq<NvidiaEntry>>, drm: Option<seq<DrmEntry>>): (gpus: seq<Gpu>)
    ensures NvidiaFirst(gpus)
  {
    NvidiaFirstAppend(NvidiaGpus(nvidia), DrmGpus(drm));
    NvidiaGpus(nvidia) + DrmGpus(drm)
  }

  // ---------------------------------------------------------------------------
  // Properties of the inventory

  /** The inventory opens with the GPUs of the NVIDIA directory entries, in
      directory order, whatever the DRM listing holds. */
  lemma NvidiaListed(entries: seq<NvidiaEntry>, drm: Option<seq<DrmEntry>>)
    ensures |FilterMap(entries, NvidiaGpuOf)| <= |DetectGpus(Some(entries), drm)|
    ensures DetectGpus(Some(entries), drm)[..|FilterMap(entries, NvidiaGpuOf)|] == FilterMap(entries, NvidiaGpuOf)
  {
  }

  /** An NVIDIA GPU is listed exactly when some directory entry produces it;
      an entry without an information file produces none. */
  lemma NvidiaMember(entries: seq<NvidiaEntry>, drm: Option<seq<DrmEntry>>, g: Gpu)
    ensures g.NvidiaGpu? ==>
      (g in DetectGpus(Some(entries), drm) <==> exists i :: 0 <= i < |entries| && NvidiaGpuOf(entries[i]) == Some(g))
    ensures forall i :: 0 <= i < |entries| && !entries[i].hasInformation ==> NvidiaGpuOf(entries[i]).None?
  {
    var a, b := NvidiaGpus(Some(entries)), DrmGpus(drm);
    FilterMapMember(entries, NvidiaGpuOf, g);
    if g.NvidiaGpu? {
      assert g !in b;
      assert g in a + b <==> g in a;
    }
  }

  /** When every NVIDIA entry has an information file, each one is listed, in
      directory order, before any DRM card. */
  lemma NvidiaAllListed(entries: seq<NvidiaEntry>, drm: Option<seq<DrmEntry>>)
    requires forall i :: 0 <= i < |entries| ==> entries[i].hasInformation
    ensures |DetectGpus(Some(entries), drm)| >= |entries|
    ensures forall i :: 0 <= i < |entries| ==>
      DetectGpus(Some(entries), drm)[i] == NvidiaGpuOf(entries[i]).value
  {
    FilterMapTotal(entries, NvidiaGpuOf);
  }

  /** The inventory keeps directory order: listing more DRM entries appends
      their GPUs after those already listed, whatever the NVIDIA listing. */
  lemma ListingOrderKept(nvidia: Option<seq<NvidiaEntry>>, first: seq<DrmEntry>, later: seq<DrmEntry>)
    ensures DetectGpus(nvidia, Some(first + later)) == DetectGpus(nvidia, Some(first)) + DetectGpus(None, Some(later))
  {
    FilterMapAppend(first, later, DrmGpuOf);
  }

  /** The inventory is the NVIDIA part followed by the DRM part, each as it
      would be detected alone. */
  lemma InventorySplits(nvidia: Option<seq<NvidiaEntry>>, drm: Option<seq<DrmEntry>>)
    ensures DetectGpus(nvidia, drm) == DetectGpus(nvidia, None) + DetectGpus(None, drm)
  {
    var a, b := NvidiaGpus(nvidia), DrmGpus(drm);
    assert NvidiaGpus(None) == [] && DrmGpus(None) == [];
    assert a + [] == a;
    assert [] + b == b;
  }

  /** The card directory `e` holds an AMD GPU named `name` on `card`. */
  predicate AmdCard(e: DrmEntry, name: string, card: string) {
    && e.card == card && IsCardName(card)
    && e.vendor.Some? && VendorId(e.vendor.value) == AmdVendorId
    && name == CardName("AMD GPU ", card)
  }

  /** The card directory `e` holds an Intel GPU named `name` on `card`. */
  predicate IntelCard(e: DrmEntry, name: string, card: string) {
    && e.card == card && IsCardName(card)
    && e.vendor.Some? && VendorId(e.vendor.value) == IntelVendorId
    && name == CardName("Intel GPU ", card)
  }

  lemma DrmGpuOfCases(e: DrmEntry, name: string, card: string)
    ensures DrmGpuOf(e) == Some(AmdGpu(name, card)) <==> AmdCard(e, name, card)
    ensures DrmGpuOf(e) == Some(IntelGpu(name, card)) <==> IntelCard(e, name, card)
  {
  }

  /** An AMD GPU is listed exactly when some card directory with a plain card
      name has the AMD vendor id; it is named after the card's last character. */
  lemma AmdListed(nvidia: Option<seq<NvidiaEntry>>, entries: seq<DrmEntry>, name: string, card: string)
    ensures AmdGpu(name, card) in DetectGpus(nvidia, Some(entries)) <==>
      exists i :: 0 <= i < |entries| && AmdCard(entries[i], name, card)
  {
    var g := AmdGpu(name, card);
    var a, b := NvidiaGpus(nvidia), DrmGpus(Some(entries));
    assert g !in a;
    FilterMapMember(entries, DrmGpuOf, g);
    forall i | 0 <= i < |entries| ensures DrmGpuOf(entries[i]) == Some(g) <==> AmdCard(entries[i], name, card) {
      DrmGpuOfCases(entries[i], name, card);
    }
    assert g in a + b <==> g in b;
  }

  /** The same for Intel. */
  lemma IntelListed(nvidia: Option<seq<NvidiaEntry>>, entries: seq<DrmEntry>, name: string, card: string)
    ensures IntelGpu(name, card) in DetectGpus(nvidia, Some(entries)) <==>
      exists i :: 0 <= i < |entries| && IntelCard(entries[i], name, card)
  {
    var g := IntelGpu(name, card);
    var a, b := NvidiaGpus(nvidia), DrmGpus(Some(entries));
    assert g !in a;
    FilterMapMember(entries, DrmGpuOf, g);
    forall i | 0 <= i < |entries| ensures DrmGpuOf(entries[i]) == Some(g) <==> IntelCard(entries[i], name, card) {
      DrmGpuOfCases(entries[i], name, card);
    }
    assert g in a + b <==> g in b;
  }

  /** A card with any other vendor id is not listed. */
  lemma OtherVendorSkipped(e: DrmEntry)
    requires e.vendor.Some? && VendorId(e.vendor.value) != AmdVendorId && VendorId(e.vendor.value) != IntelVendorId
    ensures DrmGpuOf(e) == None
  {
  }

  /** A connector entry is not listed, whatever its vendor file says. */
  lemma ConnectorSkipped(vendor: Option<string>)
    ensures DrmGpuOf(DrmEntry("card0-DP-1", vendor)) == None
  {
    assert "card0-DP-1"[5] == '-';
  }

  lemma AmdVendorRead()
    ensures VendorId("0x1002\n") == AmdVendorId
  {
    StripPadded("", "0x1002", "\n");
    assert "" + "0x1002" + "\n" == "0x1002\n";
    assert Lower("0x1002") == "0x1002";
  }

  lemma Card0Name()
    ensures IsCardName("card0")
  {
    assert "card0"[..4] == "card";
  }

  /** `card0` with vendor file `0x1002` is listed as "AMD GPU 0". */
  lemma AmdCardExample()
    ensures DrmGpuOf(DrmEntry("card0", Some("0x1002\n"))) == Some(AmdGpu("AMD GPU 0", "card0"))
  {
    Card0Name();
    AmdVendorRead();
    assert CardName("AMD GPU ", "card0") == "AMD GPU 0";
  }
}
